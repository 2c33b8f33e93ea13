/**
 * How a tunnel message travels: protobuf bridge, client hop, server hop, offline bounce.
 * np_proto/src/utils/message_bridge.rs, np_server/src/global/manager/proxy.rs,
 * np_server/src/peer/handle_push.rs, np_client/src/client.rs.
 */
module Routing {
  import opened Bytes
  import Codec
  import opened Messages

  // ---------------------------------------------------------------- the bridge

  /** The protobuf messages that carry tunnel traffic; anything else is other traffic. */
  datatype Pb =
    | PbI2oConnect(tunnelId: nat, sessionId: nat, tunnelType: u32, isTcp: bool, isCompressed: bool,
                   addr: string, encryptionMethod: string, encryptionKey: string, clientAddr: string)
    | PbO2iConnect(tunnelId: nat, sessionId: nat, success: bool, errorInfo: string)
    | PbI2oSendData(tunnelId: nat, sessionId: nat, data: Bytes)
    | PbI2oSendToData(tunnelId: nat, sessionId: nat, data: Bytes, targetAddr: string)
    | PbO2iRecvData(tunnelId: nat, sessionId: nat, data: Bytes)
    | PbO2iRecvDataFrom(tunnelId: nat, sessionId: nat, data: Bytes, remoteAddr: string)
    | PbO2iSendDataResult(tunnelId: nat, sessionId: nat, dataLen: u32)
    | PbI2oRecvDataResult(tunnelId: nat, sessionId: nat, dataLen: u32)
    | PbI2oDisconnect(tunnelId: nat, sessionId: nat)
    | PbO2iDisconnect(tunnelId: nat, sessionId: nat)
    | OtherTraffic

  /** proxy_message_2_pb; lengths are cast to 32 bits. */
  function ToPb(m: ProxyMessage, tunnelId: nat): (p: Pb) {
    match m
    case I2oConnect(sid, t, isTcp, addr, o, client) =>
      PbI2oConnect(tunnelId, sid, t, isTcp, o.isCompressed, addr, o.methodName, o.keyText, client)
    case O2iConnect(sid, success, error) => PbO2iConnect(tunnelId, sid, success, error)
    case I2oSendData(sid, data) => PbI2oSendData(tunnelId, sid, data)
    case I2oSendToData(sid, data, target) => PbI2oSendToData(tunnelId, sid, data, target)
    case O2iSendDataResult(sid, n) => PbO2iSendDataResult(tunnelId, sid, n % U32_END)
    case O2iRecvData(sid, data) => PbO2iRecvData(tunnelId, sid, data)
    case O2iRecvDataFrom(sid, data, remote) => PbO2iRecvDataFrom(tunnelId, sid, data, remote)
    case I2oRecvDataResult(sid, n) => PbI2oRecvDataResult(tunnelId, sid, n % U32_END)
    case I2oDisconnect(sid) => PbI2oDisconnect(tunnelId, sid)
    case O2iDisconnect(sid) => PbO2iDisconnect(tunnelId, sid)
  }

  /** pb_2_proxy_message; the tunnel type is cast to 8 bits. */
  function FromPb(p: Pb): (r: Option<(ProxyMessage, nat)>) {
    match p
    case PbI2oConnect(tid, sid, t, isTcp, isCompressed, addr, name, key, client) =>
      Some((I2oConnect(sid, t % 256, isTcp, addr, Codec.Offer(isCompressed, name, key), client), tid))
    case PbO2iConnect(tid, sid, success, error) => Some((O2iConnect(sid, success, error), tid))
    case PbI2oSendData(tid, sid, data) => Some((I2oSendData(sid, data), tid))
    case PbI2oSendToData(tid, sid, data, target) => Some((I2oSendToData(sid, data, target), tid))
    case PbO2iSendDataResult(tid, sid, n) => Some((O2iSendDataResult(sid, n), tid))
    case PbO2iRecvData(tid, sid, data) => Some((O2iRecvData(sid, data), tid))
    case PbO2iRecvDataFrom(tid, sid, data, remote) => Some((O2iRecvDataFrom(sid, data, remote), tid))
    case PbI2oRecvDataResult(tid, sid, n) => Some((I2oRecvDataResult(sid, n), tid))
    case PbI2oDisconnect(tid, sid) => Some((I2oDisconnect(sid), tid))
    case PbO2iDisconnect(tid, sid) => Some((O2iDisconnect(sid), tid))
    case OtherTraffic => None
  }

  /** An acknowledged length fits 32 bits; no other field can be out of range. */
  predicate InRange(m: ProxyMessage) {
    m.O2iSendDataResult? || m.I2oRecvDataResult? ==> m.dataLen < U32_END
  }

  /** The bridge is lossless exactly on messages whose acknowledged length fits; it never changes direction or session. */
  lemma BridgeRoundTrip(m: ProxyMessage, tunnelId: nat)
    ensures FromPb(ToPb(m, tunnelId)).Some? && FromPb(ToPb(m, tunnelId)).value.1 == tunnelId
    ensures FromPb(ToPb(m, tunnelId)).value.0 == m <==> InRange(m)
    ensures var r := FromPb(ToPb(m, tunnelId)).value.0; IsI2o(r) == IsI2o(m) && r.sid == m.sid
  {
  }

  /** Every kind of message and every field goes under its own name; lengths are cut to 32 bits. */
  lemma BridgeFields(m: ProxyMessage, tunnelId: nat)
    ensures var p := ToPb(m, tunnelId);
      && !p.OtherTraffic? && p.tunnelId == tunnelId && p.sessionId == m.sid
      && (m.I2oConnect? ==>
            && p.PbI2oConnect? && p.tunnelType == m.tunnelType && p.isTcp == m.isTcp && p.addr == m.addr
            && p.clientAddr == m.clientAddr && p.isCompressed == m.offer.isCompressed
            && p.encryptionMethod == m.offer.methodName && p.encryptionKey == m.offer.keyText)
      && (m.O2iConnect? ==> p.PbO2iConnect? && p.success == m.success && p.errorInfo == m.errorMsg)
      && (m.I2oSendData? ==> p.PbI2oSendData? && p.data == m.data)
      && (m.I2oSendToData? ==> p.PbI2oSendToData? && p.data == m.data && p.targetAddr == m.targetAddr)
      && (m.O2iRecvData? ==> p.PbO2iRecvData? && p.data == m.data)
      && (m.O2iRecvDataFrom? ==> p.PbO2iRecvDataFrom? && p.data == m.data && p.remoteAddr == m.remoteAddr)
      && (m.O2iSendDataResult? ==> p.PbO2iSendDataResult? && p.dataLen == m.dataLen % 0x1_0000_0000)
      && (m.I2oRecvDataResult? ==> p.PbI2oRecvDataResult? && p.dataLen == m.dataLen % 0x1_0000_0000)
      && (m.I2oDisconnect? ==> p.PbI2oDisconnect?) && (m.O2iDisconnect? ==> p.PbO2iDisconnect?)
  {
  }

  // ---------------------------------------------------------------- the server

  /** A tunnel, as far as routing looks at it: its id and the players at its two ends. */
  datatype Ends = Ends(id: nat, sender: nat, receiver: nat)

  /** What the server consults: its tunnels, who is online, which inlets and outlets it runs itself. */
  datatype Server = Server(tunnels: seq<Ends>, online: set<nat>, inlets: set<nat>, outlets: set<nat>)

  /** What a hop hands over, to at most one place. */
  datatype Delivery =
    | ToOutlet(tunnelId: nat, m: ProxyMessage)
    | ToInlet(tunnelId: nat, m: ProxyMessage)
    | ToPlayer(player: nat, p: Pb)
    | Nobody

  /** send_input_to_outlet and send_input_to_inlet, chosen by direction. */
  function Local(inlets: set<nat>, outlets: set<nat>, tunnelId: nat, m: ProxyMessage): (d: Delivery) {
    if IsI2o(m) then (if tunnelId in outlets then ToOutlet(tunnelId, m) else Nobody)
    else (if tunnelId in inlets then ToInlet(tunnelId, m) else Nobody)
  }

  /** The answer given on behalf of a player who is not there. */
  function Bounce(m: ProxyMessage): (r: Option<ProxyMessage>) {
    match m
    case I2oConnect(sid, _, _, _, _, _) => Some(O2iConnect(sid, false, ""))
    case I2oSendData(sid, _) => Some(O2iDisconnect(sid))
    case I2oRecvDataResult(sid, _) => Some(O2iDisconnect(sid))
    case O2iConnect(sid, _, _) => Some(I2oDisconnect(sid))
    case O2iRecvData(sid, _) => Some(I2oDisconnect(sid))
    case O2iSendDataResult(sid, _) => Some(I2oDisconnect(sid))
    case _ => None
  }

  /** ProxyManager::send_proxy_message */
  function SendProxyMessage(w: Server, from: nat, to: nat, tunnelId: nat, m: ProxyMessage): (d: Delivery) {
    if to == 0 then Local(w.inlets, w.outlets, tunnelId, m)
    else if to in w.online then ToPlayer(to, ToPb(m, tunnelId))
    else match Bounce(m)
      case None => Nobody
      case Some(back) =>
        if from == 0 then Local(w.inlets, w.outlets, tunnelId, back)
        else if from in w.online then ToPlayer(from, ToPb(back, tunnelId))
        else Nobody
  }

  function Find(tunnels: seq<Ends>, id: nat): (r: Option<Ends>)
    ensures r.Some? ==> r.value in tunnels && r.value.id == id
    ensures r.None? ==> forall t | t in tunnels :: t.id != id
  {
    if tunnels == [] then None
    else if tunnels[0].id == id then Some(tunnels[0])
    else Find(tunnels[1..], id)
  }

  /** Peer::handle_push: the side a message comes from and goes to follow from its direction. */
  function HandlePush(w: Server, p: Pb): (d: Delivery) {
    match FromPb(p)
    case None => Nobody
    case Some((m, tunnelId)) =>
      match Find(w.tunnels, tunnelId)
      case None => Nobody
      case Some(t) =>
        if IsI2o(m) then SendProxyMessage(w, t.receiver, t.sender, t.id, m)
        else SendProxyMessage(w, t.sender, t.receiver, t.id, m)
  }

  // ---------------------------------------------------------------- a client

  datatype Client = Client(player: nat, tunnels: map<nat, Ends>, inlets: set<nat>, outlets: set<nat>)

  /** Client::handle_push for a tunnel message, and its send_proxy_message. */
  function ClientPush(c: Client, p: Pb): (d: Delivery) {
    match FromPb(p)
    case None => Nobody
    case Some((m, tunnelId)) =>
      if tunnelId !in c.tunnels then Nobody else
      var t := c.tunnels[tunnelId];
      ClientSend(c, if IsI2o(m) then t.sender else t.receiver, t.id, m)
  }

  /** A message for the client itself is handed over locally; any other goes up to the server. */
  function ClientSend(c: Client, to: nat, tunnelId: nat, m: ProxyMessage): (d: Delivery) {
    if to == c.player then Local(c.inlets, c.outlets, tunnelId, m) else ToPlayer(0, ToPb(m, tunnelId))
  }

  // ---------------------------------------------------------------- where messages end up

  /** A delivery reaches only the role that accepts its direction. */
  predicate RoleFits(d: Delivery) {
    (d.ToOutlet? ==> IsI2o(d.m)) && (d.ToInlet? ==> !IsI2o(d.m))
  }

  /**
   * The closure through which a role of the server emits: on a tunnel whose two ends are the server's own, the
   * message is handed to the other role without looking at its direction.
   */
  function RoleOutput(w: Server, t: Ends, isInlet: bool, m: ProxyMessage): (d: Delivery) {
    if t.sender == t.receiver then
      (if isInlet then (if t.id in w.outlets then ToOutlet(t.id, m) else Nobody)
       else (if t.id in w.inlets then ToInlet(t.id, m) else Nobody))
    else SendProxyMessage(w, 0, if isInlet then t.sender else t.receiver, t.id, m)
  }

  /** The same on a client. */
  function ClientOutput(c: Client, t: Ends, isInlet: bool, m: ProxyMessage): (d: Delivery) {
    if t.sender == t.receiver then
      (if isInlet then (if t.id in c.outlets then ToOutlet(t.id, m) else Nobody)
       else (if t.id in c.inlets then ToInlet(t.id, m) else Nobody))
    else ClientSend(c, if isInlet then t.sender else t.receiver, t.id, m)
  }

  lemma SendFits(w: Server, from: nat, to: nat, tunnelId: nat, m: ProxyMessage)
    ensures RoleFits(SendProxyMessage(w, from, to, tunnelId, m))
  {
  }

  lemma PushFits(w: Server, c: Client, p: Pb)
    ensures RoleFits(HandlePush(w, p)) && RoleFits(ClientPush(c, p))
  {
    if FromPb(p).Some? && Find(w.tunnels, FromPb(p).value.1).Some? {
      var (m, id) := FromPb(p).value;
      var t := Find(w.tunnels, id).value;
      SendFits(w, t.receiver, t.sender, t.id, m);
      SendFits(w, t.sender, t.receiver, t.id, m);
    }
  }

  /**
   * On the server and on every client, no inlet and no outlet is ever handed by the routing a message it does
   * not know.
   */
  lemma RolesAlwaysFit(w: Server, c: Client, from: nat, to: nat, tunnelId: nat, m: ProxyMessage, p: Pb)
    ensures RoleFits(SendProxyMessage(w, from, to, tunnelId, m))
    ensures RoleFits(HandlePush(w, p)) && RoleFits(ClientPush(c, p)) && RoleFits(ClientSend(c, to, tunnelId, m))
  {
    SendFits(w, from, to, tunnelId, m);
    PushFits(w, c, p);
  }

  /** A closure that does not look at the direction fits exactly what its role may emit, if there is a role to take it. */
  lemma OutputFitsIff(w: Server, c: Client, t: Ends, isInlet: bool, m: ProxyMessage)
    ensures RoleFits(RoleOutput(w, t, isInlet, m))
      <==> (t.sender == t.receiver && t.id in (if isInlet then w.outlets else w.inlets) ==> IsI2o(m) == isInlet)
    ensures RoleFits(ClientOutput(c, t, isInlet, m))
      <==> (t.sender == t.receiver && t.id in (if isInlet then c.outlets else c.inlets) ==> IsI2o(m) == isInlet)
  {
    SendFits(w, 0, if isInlet then t.sender else t.receiver, t.id, m);
  }

  function Content(d: Delivery): (r: Option<(ProxyMessage, nat)>) {
    match d
    case ToOutlet(tunnelId, m) => Some((m, tunnelId))
    case ToInlet(tunnelId, m) => Some((m, tunnelId))
    case ToPlayer(_, p) => FromPb(p)
    case Nobody => None
  }

  /** What a relay hands over is the message itself, or its bounce: same session, same tunnel, opposite direction. */
  lemma RelayedOrBounced(w: Server, from: nat, to: nat, tunnelId: nat, m: ProxyMessage)
    requires InRange(m)
    ensures var d := SendProxyMessage(w, from, to, tunnelId, m);
      Content(d).Some? ==>
        && Content(d).value.1 == tunnelId && Content(d).value.0.sid == m.sid
        && if to == 0 || to in w.online
           then Content(d).value.0 == m && (d.ToPlayer? ==> d.player == to)
           else IsI2o(Content(d).value.0) != IsI2o(m) && (d.ToPlayer? ==> d.player == from)
    // and it is handed to a role that runs, or to a player who is there; it is dropped only if there is none
    ensures var d := SendProxyMessage(w, from, to, tunnelId, m);
      && (d.ToOutlet? ==> tunnelId in w.outlets) && (d.ToInlet? ==> tunnelId in w.inlets)
      && (d.ToPlayer? ==> d.player in w.online)
    ensures SendProxyMessage(w, from, to, tunnelId, m) == Nobody <==>
      (if to == 0 || to in w.online then to == 0 && tunnelId !in (if IsI2o(m) then w.outlets else w.inlets)
       else || Bounce(m).None?
            || (if from == 0 then tunnelId !in (if IsI2o(m) then w.inlets else w.outlets) else from !in w.online))
  {
  }

  /** The answers a bounced session gives while closing are not bounced again. */
  lemma BounceEndsThere(m: ProxyMessage)
    ensures Bounce(m).Some? ==>
      && InRange(Bounce(m).value) && Bounce(m).value.sid == m.sid && IsI2o(Bounce(m).value) != IsI2o(m)
    ensures Bounce(m).None? <==> m.I2oDisconnect? || m.O2iDisconnect? || m.I2oSendToData? || m.O2iRecvDataFrom?
    ensures m.I2oConnect? ==> Bounce(m) == Some(O2iConnect(m.sid, false, ""))
  {
  }

  /** A push for a tunnel that is not known, or that carries no tunnel message, goes nowhere. */
  lemma UnknownGoesNowhere(w: Server, c: Client, p: Pb)
    requires FromPb(p).None?
      || ((forall t | t in w.tunnels :: t.id != FromPb(p).value.1) && FromPb(p).value.1 !in c.tunnels)
    ensures HandlePush(w, p) == Nobody && ClientPush(c, p) == Nobody
  {
  }

  /** The server and the two players of a tunnel agree on it, and each side runs its role. */
  predicate Wired(w: Server, r: Client, s: Client, t: Ends) {
    && Find(w.tunnels, t.id) == Some(t)
    && (t.sender == t.receiver ==> r == s)
    && (t.receiver == 0 ==> t.id in w.inlets)
    && (t.sender == 0 ==> t.id in w.outlets)
    && (t.receiver != 0 ==> r.player == t.receiver && t.id in r.tunnels && r.tunnels[t.id] == t && t.id in r.inlets)
    && (t.sender != 0 ==> s.player == t.sender && t.id in s.tunnels && s.tunnels[t.id] == t && t.id in s.outlets)
  }

  /** Follow a message from the role that emits it, through clients and server, to where it stops. */
  function Journey(w: Server, r: Client, s: Client, t: Ends, m: ProxyMessage): (d: Delivery)
    requires Wired(w, r, s, t)
  {
    var from := if IsI2o(m) then t.receiver else t.sender;
    var first := if from == 0 then RoleOutput(w, t, IsI2o(m), m)
                 else ClientOutput(if IsI2o(m) then r else s, t, IsI2o(m), m);
    Arrive(w, r, s, t, if first.ToPlayer? && first.player == 0 then HandlePush(w, first.p) else first)
  }

  /** The last hop: a push that reaches a player is handed to its inlet or outlet. */
  function Arrive(w: Server, r: Client, s: Client, t: Ends, d: Delivery): (e: Delivery) {
    if !d.ToPlayer? || FromPb(d.p).None? then d
    else if d.player == t.receiver && !IsI2o(FromPb(d.p).value.0) then ClientPush(r, d.p)
    else if d.player == t.sender && IsI2o(FromPb(d.p).value.0) then ClientPush(s, d.p)
    else d
  }

  function Opposite(t: Ends, m: ProxyMessage): (d: Delivery) {
    if IsI2o(m) then ToOutlet(t.id, m) else ToInlet(t.id, m)
  }

  lemma PushArrives(w: Server, r: Client, s: Client, t: Ends, m: ProxyMessage)
    requires Wired(w, r, s, t) && InRange(m)
    requires (if IsI2o(m) then t.sender else t.receiver) != 0
    ensures Arrive(w, r, s, t, ToPlayer(if IsI2o(m) then t.sender else t.receiver, ToPb(m, t.id))) == Opposite(t, m)
  {
    BridgeRoundTrip(m, t.id);
  }

  /** Where the server's hop leads: to the other end if it is there, back to the first if that is there, or nowhere. */
  function Destination(w: Server, t: Ends, m: ProxyMessage): (d: Delivery) {
    var from, to := if IsI2o(m) then t.receiver else t.sender, if IsI2o(m) then t.sender else t.receiver;
    if to == 0 || to in w.online then Opposite(t, m)
    else if Bounce(m).Some? && (from == 0 || from in w.online) then Opposite(t, Bounce(m).value)
    else Nobody
  }

  lemma ServerRelays(w: Server, r: Client, s: Client, t: Ends, m: ProxyMessage)
    requires Wired(w, r, s, t) && InRange(m)
    ensures var from, to := if IsI2o(m) then t.receiver else t.sender, if IsI2o(m) then t.sender else t.receiver;
      Arrive(w, r, s, t, SendProxyMessage(w, from, to, t.id, m)) == Destination(w, t, m)
  {
    var from, to := if IsI2o(m) then t.receiver else t.sender, if IsI2o(m) then t.sender else t.receiver;
    if to != 0 && to in w.online {
      PushArrives(w, r, s, t, m);
    } else if to != 0 && Bounce(m).Some? {
      BounceEndsThere(m);
      if from != 0 && from in w.online {
        PushArrives(w, r, s, t, Bounce(m).value);
      }
    }
  }

  /**
   * End to end: whoever owns the two ends, a message that a role emits reaches exactly the opposite role of the
   * same tunnel, unchanged, if that role's owner is the server, the emitter itself or online; otherwise its
   * bounce, if it has one and the emitter is still connected, comes back to the emitting role.
   */
  lemma JourneyEnds(w: Server, r: Client, s: Client, t: Ends, m: ProxyMessage)
    requires Wired(w, r, s, t) && InRange(m)
    ensures Journey(w, r, s, t, m) == if t.sender == t.receiver then Opposite(t, m) else Destination(w, t, m)
  {
    var from, to := if IsI2o(m) then t.receiver else t.sender, if IsI2o(m) then t.sender else t.receiver;
    ServerRelays(w, r, s, t, m);
    if from != 0 && from != to {
      BridgeRoundTrip(m, t.id);
      assert HandlePush(w, ToPb(m, t.id)) == SendProxyMessage(w, from, to, t.id, m);
    }
  }
}
