/** The SOCKS5 server side of an inlet session: np_base/src/proxy/socks5/mod.rs. */
module Socks5 {
  import opened Bytes
  import Codec
  import opened Messages
  import opened TargetAddr

  const VERSION: byte := 5
  const METHOD_NONE: byte := 0
  const METHOD_PASSWORD: byte := 2
  const NOT_ACCEPTABLE: byte := 0xff
  const CMD_CONNECT: byte := 1
  const CMD_UDP_ASSOCIATE: byte := 3

  datatype Status = Init | Verification | Connect | Connecting(isTcp: bool) | RunWithTcp | RunWithUdp

  /** What a context is created with, and the library code it calls on addresses. */
  datatype Setup = Setup(
    sid: nat, username: Bytes, password: Bytes, offer: Codec.Offer, peer: Addr,
    isUtf8: Bytes -> bool, show: Addr -> string)

  predicate NeedsPassword(u: Setup) { u.username != [] || u.password != [] }

  datatype Ctx = Ctx(status: Status, buffer: Bytes, target: Option<Addr>)

  const FRESH := Ctx(Init, [], None)

  /** What a handler does besides changing the context, in order. */
  datatype Effect =
    | Write(w: WriterMessage)
    | Emit(m: ProxyMessage)
    /** A chunk handed to encode_data_and_limiting and on to I2oSendData. */
    | Relay(raw: Bytes)

  /** Normal return, error return (which ends the session), or an out-of-range index. */
  datatype Outcome =
    | Ok(ctx: Ctx, effects: seq<Effect>)
    | Fail
    | Panic

  function Reply(code: byte): (b: Bytes) { [VERSION, code, 0, 1, 0, 0, 0, 0, 0, 0] }

  function Refusal(reply: Bytes, millis: nat): (es: seq<Effect>) {
    [Write(Send(reply, true)), Write(CloseDelayed(millis))]
  }

  function ChosenMethod(u: Setup, methods: Bytes): (m: byte) {
    if !NeedsPassword(u) then (if METHOD_NONE in methods then METHOD_NONE else NOT_ACCEPTABLE)
    else (if METHOD_PASSWORD in methods then METHOD_PASSWORD else NOT_ACCEPTABLE)
  }

  /** on_socks5_init */
  function OnInit(u: Setup, x: Ctx): (r: Outcome) {
    var b := x.buffer;
    if |b| < 3 then Ok(x, [])
    else if b[0] == VERSION && |b| < b[1] as nat + 2 then Ok(x, [])
    else if b[0] == VERSION && ChosenMethod(u, b[2..b[1] as nat + 2]) != NOT_ACCEPTABLE then
      var n := b[1] as nat + 2;
      var m := ChosenMethod(u, b[2..n]);
      Ok(x.(buffer := b[n..], status := if m == METHOD_NONE then Connect else Verification),
         [Write(Send([VERSION, m], true))])
    else Ok(x, Refusal([VERSION, NOT_ACCEPTABLE], 10))
  }

  /** on_socks5_verification; the fields are indexed without checking that they have arrived. */
  function OnVerification(u: Setup, x: Ctx): (r: Outcome) {
    var b := x.buffer;
    if |b| < 4 then Ok(x, [])
    else if |b| <= 2 + b[1] as nat then Panic
    else
      var unl := b[1] as nat;
      var pwl := b[2 + unl] as nat;
      if |b| < 3 + unl + pwl then Panic
      else if b[2..2 + unl] == u.username && b[3 + unl..3 + unl + pwl] == u.password then
        Ok(x.(buffer := b[3 + unl + pwl..], status := Connect), [Write(Send([b[0], 0], true))])
      else Ok(x, Refusal([b[0], 1], 1000))
  }

  /** on_socks5_connect */
  function OnConnect(u: Setup, x: Ctx): (r: Outcome) {
    var b := x.buffer;
    if |b| < 8 then Ok(x, [])
    else if b[0] == VERSION && b[2] == 0 && (b[1] == CMD_CONNECT || b[1] == CMD_UDP_ASSOCIATE) then
      (match ReadAddress(u.isUtf8, b[4..], b[3])
       case Parsed(addr, _) =>
         var isTcp := b[1] == CMD_CONNECT;
         var target := if isTcp then addr else u.peer.(port := addr.port);
         Ok(Ctx(Connecting(isTcp), [], Some(target)),
            [Emit(I2oConnect(u.sid, SOCKS5, isTcp, u.show(target), u.offer, u.show(u.peer)))])
       case Incomplete => Ok(x, [])
       case Invalid => Fail
       case Panics => Panic)
    else Ok(x.(buffer := b[4..]), Refusal(Reply(7), 1000))
  }

  /** recv_frame */
  function RecvFrame(u: Setup, x: Ctx, frame: Bytes): (r: Outcome) {
    var buffered := x.(buffer := x.buffer + frame);
    match x.status
    case Init => OnInit(u, buffered)
    case Verification => OnVerification(u, buffered)
    case Connect => OnConnect(u, buffered)
    case RunWithTcp => Ok(x, [Relay(frame)])
    case _ => Ok(x, [])
  }

  /** on_recv_o2i_connect; `bound` is the port udp_bind obtains, if it succeeds. */
  function OnO2iConnect(x: Ctx, success: bool, bound: Option<u16>): (r: Outcome) {
    if !x.status.Connecting? || x.target.None? then Ok(x, [])
    else if success && x.status.isTcp then Ok(x.(status := RunWithTcp), [Write(Send(Reply(0), true))])
    else if success && bound.Some? then
      Ok(x.(status := RunWithUdp), [Write(Send([VERSION, 0, 0, 1, 0, 0, 0, 0] + Be16(bound.value), true))])
    else Ok(x, [Write(Send(Reply(4), true))])
  }

  /** on_recv_o2i_recv_data; `plain` is the decoded payload. */
  function OnO2iRecvData(x: Ctx, plain: Bytes, len: nat): (r: Outcome) {
    if x.status.RunWithTcp? then Ok(x, [Write(SendAndThen(plain, len))]) else Ok(x, [])
  }

  // ---------------------------------------------------------------- the object

  /** Socks5Context updates its fields in place; each method does what the function of the same name says. */
  class Socks5Context {
    const setup: Setup
    var status: Status
    var buffer: Bytes
    var target: Option<Addr>
    var effects: seq<Effect>

    constructor (setup: Setup)
      ensures this.setup == setup && Value() == FRESH && effects == []
    {
      this.setup, status, buffer, target, effects := setup, Init, [], None, [];
    }

    function Value(): (x: Ctx)
      reads this
    {
      Ctx(status, buffer, target)
    }

    method Perform(e: Effect)
      modifies this`effects
      ensures effects == old(effects) + [e]
    {
      effects := effects + [e];
    }

    method OnSocks5Init()
      modifies this
      ensures var r := OnInit(setup, old(Value())); Value() == r.ctx && effects == old(effects) + r.effects
    {
      if |buffer| < 3 {
        return;
      }
      if buffer[0] == VERSION {
        var n := buffer[1] as nat + 2;
        if |buffer| < n {
          return;
        }
        var m := ChosenMethod(setup, buffer[2..n]);
        if m != NOT_ACCEPTABLE {
          Perform(Write(Send([VERSION, m], true)));
          buffer := buffer[n..];
          status := if m == METHOD_NONE then Connect else Verification;
          return;
        }
      }
      Perform(Write(Send([VERSION, NOT_ACCEPTABLE], true)));
      Perform(Write(CloseDelayed(10)));
    }

    /** The request head is taken off the buffer and put back when the address is not complete. */
    method OnSocks5Connect() returns (failed: bool)
      modifies this
      ensures failed <==> OnConnect(setup, old(Value())).Fail?
      ensures !failed ==>
        var r := OnConnect(setup, old(Value())); Value() == r.ctx && effects == old(effects) + r.effects
    {
      failed := false;
      if |buffer| < 8 {
        return;
      }
      var head := buffer[..4];
      buffer := buffer[4..];
      assert head + buffer == old(buffer);
      if head[0] == VERSION && head[2] == 0 && (head[1] == CMD_CONNECT || head[1] == CMD_UDP_ASSOCIATE) {
        var addr := ReadAddress(setup.isUtf8, buffer, head[3]);
        match addr {
          case Parsed(a, _) =>
            var isTcp := head[1] == CMD_CONNECT;
            target := Some(if isTcp then a else setup.peer.(port := a.port));
            Perform(Emit(I2oConnect(setup.sid, SOCKS5, isTcp, setup.show(target.value), setup.offer, setup.show(setup.peer))));
            buffer := [];
            status := Connecting(isTcp);
          case Incomplete =>
            buffer := head + buffer;
          case Invalid =>
            failed := true;
        }
        return;
      }
      Perform(Write(Send(Reply(7), true)));
      Perform(Write(CloseDelayed(1000)));
    }

    /** Only a complete verification message may be handled: the handler indexes its fields unchecked. */
    method OnSocks5Verification()
      requires OnVerification(setup, Value()) != Panic
      modifies this
      ensures var r := OnVerification(setup, old(Value())); Value() == r.ctx && effects == old(effects) + r.effects
    {
      if |buffer| < 4 {
        return;
      }
      var ver, unl := buffer[0], buffer[1] as nat;
      var pwl := buffer[2 + unl] as nat;
      if buffer[2..2 + unl] == setup.username && buffer[3 + unl..3 + unl + pwl] == setup.password {
        Perform(Write(Send([ver, 0], true)));
        buffer := buffer[unl + pwl + 3..];
        status := Connect;
      } else {
        Perform(Write(Send([ver, 1], true)));
        Perform(Write(CloseDelayed(1000)));
      }
    }

    /** recv_frame: dispatch on the status; an error or a panic ends the session. */
    method OnRecvFrame(frame: Bytes) returns (failed: bool)
      requires RecvFrame(setup, Value(), frame) != Panic
      modifies this
      ensures failed <==> RecvFrame(setup, old(Value()), frame).Fail?
      ensures !failed ==>
        var r := RecvFrame(setup, old(Value()), frame); Value() == r.ctx && effects == old(effects) + r.effects
    {
      failed := false;
      match status {
        case Init =>
          buffer := buffer + frame;
          OnSocks5Init();
        case Verification =>
          buffer := buffer + frame;
          OnSocks5Verification();
        case Connect =>
          buffer := buffer + frame;
          failed := OnSocks5Connect();
        case RunWithTcp =>
          Perform(Relay(frame));
        case _ =>
      }
    }

    /** on_recv_o2i_connect: answer the client once, in the status that waits for the answer. */
    method OnRecvO2iConnect(success: bool, bound: Option<u16>)
      modifies this
      ensures var r := OnO2iConnect(old(Value()), success, bound); Value() == r.ctx && effects == old(effects) + r.effects
    {
      if !status.Connecting? || target.None? {
        return;
      }
      var code: byte := 4;
      var tail: Bytes := [0, 0];
      if success {
        if status.isTcp {
          status, code := RunWithTcp, 0;
        } else if bound.Some? {
          status, code, tail := RunWithUdp, 0, Be16(bound.value);
        }
      }
      var reply := [VERSION, code, 0, 1, 0, 0, 0, 0] + tail;
      assert code == 4 || status.RunWithTcp? ==> reply == Reply(code);
      Perform(Write(Send(reply, true)));
    }

    method OnRecvO2iRecvData(plain: Bytes, len: nat)
      modifies this
      ensures var r := OnO2iRecvData(old(Value()), plain, len); Value() == r.ctx && effects == old(effects) + r.effects
    {
      if status.RunWithTcp? {
        Perform(Write(SendAndThen(plain, len)));
      }
    }
  }
}
