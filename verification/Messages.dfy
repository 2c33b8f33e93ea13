/** The messages inlets and outlets exchange and the jobs a session writer works through. */
module Messages {
  import opened Bytes
  import Codec

  /** np_base/src/proxy/mod.rs; the three codec fields of I2oConnect are grouped in an Offer. */
  datatype ProxyMessage =
    | I2oConnect(sid: nat, tunnelType: u8, isTcp: bool, addr: string, offer: Codec.Offer, clientAddr: string)
    | O2iConnect(sid: nat, success: bool, errorMsg: string)
    | I2oSendData(sid: nat, data: Bytes)
    | I2oSendToData(sid: nat, data: Bytes, targetAddr: string)
    | O2iSendDataResult(sid: nat, dataLen: nat)
    | O2iRecvDataFrom(sid: nat, data: Bytes, remoteAddr: string)
    | O2iRecvData(sid: nat, data: Bytes)
    | I2oRecvDataResult(sid: nat, dataLen: nat)
    | I2oDisconnect(sid: nat)
    | O2iDisconnect(sid: nat)

  /** np_base/src/net/mod.rs; a SendAndThen callback is identified by the length it acknowledges. */
  datatype WriterMessage =
    | Close
    | CloseDelayed(millis: nat)
    | Send(data: Bytes, flush: bool)
    | SendAndThen(data: Bytes, ackLen: nat)

  predicate IsI2o(m: ProxyMessage) {
    m.I2oConnect? || m.I2oSendData? || m.I2oSendToData? || m.I2oDisconnect? || m.I2oRecvDataResult?
  }

  /** One direction only. */
  predicate AllUp(q: seq<ProxyMessage>) { forall k | 0 <= k < |q| :: IsI2o(q[k]) }

  predicate AllDown(q: seq<ProxyMessage>) { forall k | 0 <= k < |q| :: !IsI2o(q[k]) }

  /** Tunnel types; 1 is UDP. */
  const TCP: u8 := 0
  const SOCKS5: u8 := 2

  predicate ValidTunnelType(t: nat) { t <= SOCKS5 }
}
