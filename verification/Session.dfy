/**
 * One TCP tunnel session, seen end to end: an inlet task and an outlet task that talk through two
 * FIFO queues.  The functions follow np_base/src/proxy/{inlet,outlet,common}.rs and
 * np_base/src/net/tcp_session.rs.
 */
module Session {
  import opened Bytes
  import opened Codec
  import opened Messages

  const READ_BUF_MAX_LEN: nat := 1024 * 1024

  datatype Side = Inlet | Outlet

  /** What the reading task holds: encoded, past the limiter's check, or already counted. */
  datatype Reader =
    | Idle
    | Held(raw: Bytes, data: Bytes)
    | Cleared(raw: Bytes, data: Bytes)
    | Counted(raw: Bytes, data: Bytes)

  /** A running session task: its codec, credit counter, writer queue and reader. */
  datatype Endpoint = Endpoint(cfg: Config, readBufLen: nat, writer: seq<WriterMessage>, reader: Reader)

  function NewEndpoint(cfg: Config): (e: Endpoint) { Endpoint(cfg, 0, [], Idle) }

  /** History of the bytes that enter at one side: read there, queued there, written at the other. */
  datatype Flow = Flow(read: Bytes, sent: Bytes, written: Bytes, lost: nat, longest: nat)

  /** One side of a session: its task, if running, and the flow that enters there. */
  datatype Half = Half(task: Option<Endpoint>, flow: Flow)

  function Idling(task: Option<Endpoint>): (h: Half) { Half(task, Flow([], [], [], 0, 0)) }

  datatype Dial = Waiting | Failed | Joined

  /**
   * Both sides of one session.  `endpoint` is where the inlet wants to be connected, `dialled` where the outlet
   * has connected it.  `registered` says that the outlet's session map holds the session;
   * the outlet task outlives its registration while it drains.
   */
  datatype Local = Local(
    cfg: Config, endpoint: string, inlet: Half, outlet: Half, registered: bool, dial: Dial, dialled: Option<string>)

  function DataMsg(side: Side, sid: nat, data: Bytes): (m: ProxyMessage) {
    if side == Inlet then I2oSendData(sid, data) else O2iRecvData(sid, data)
  }

  function AckMsg(side: Side, sid: nat, len: nat): (m: ProxyMessage) {
    if side == Inlet then I2oRecvDataResult(sid, len) else O2iSendDataResult(sid, len)
  }

  function ByeMsg(side: Side, sid: nat): (m: ProxyMessage) {
    if side == Inlet then I2oDisconnect(sid) else O2iDisconnect(sid)
  }

  /** Encoded bytes whose acknowledgement is still owed by a writer queue. */
  function Owed(w: seq<WriterMessage>): (n: nat) {
    if w == [] then 0 else (if w[0].SendAndThen? then w[0].ackLen else 0) + Owed(w[1..])
  }

  function OwedBy(e: Option<Endpoint>): (n: nat) {
    if e.Some? then Owed(e.value.writer) else 0
  }

  // ---------------------------------------------------------------- the session tasks

  datatype TaskEvent =
    | Read(raw: Bytes, nonce: Bytes)
    | Pass
    | Count
    | Forward
    | Write
    /** The head job ends the task before its acknowledgement: a failed write, or a whole one cut off by `select!`. */
    | WriteFails(wrote: nat)
    | Shut

  /** Outcome of a task step: both halves and what the acting side puts on its outgoing queue. */
  datatype Done = Done(near: Half, far: Half, msgs: seq<ProxyMessage>)

  /** on_session_close: announce the end; whatever the writer still held is lost to the far side. */
  function CloseTask(near: Half, far: Half, side: Side, sid: nat): (r: Done) {
    Done(near.(task := None),
         far.(flow := far.flow.(lost := far.flow.lost + OwedBy(near.task))),
         [ByeMsg(side, sid)])
  }

  /** One step of poll_read and encode_data_and_limiting, or of poll_write; disabled steps change nothing. */
  function TaskStep(c: Coder, near: Half, far: Half, side: Side, sid: nat, e: TaskEvent): (r: Done) {
    if near.task.None? then Done(near, far, []) else
    var ep, f := near.task.value, near.flow;
    match e
    case Read(raw, nonce) =>
      if ep.reader != Idle || raw == [] then Done(near, far, []) else
      (match c.encode(ep.cfg, nonce, raw)
       case None => CloseTask(near.(flow := f.(read := f.read + raw)), far, side, sid)
       case Some(data) =>
         Done(Half(Some(ep.(reader := Held(raw, data))),
                   f.(read := f.read + raw, longest := if |data| > f.longest then |data| else f.longest)), far, []))
    case Pass =>
      if ep.reader.Held? && ep.readBufLen <= READ_BUF_MAX_LEN
      then Done(near.(task := Some(ep.(reader := Cleared(ep.reader.raw, ep.reader.data)))), far, [])
      else Done(near, far, [])
    case Count =>
      if ep.reader.Cleared?
      then Done(near.(task := Some(ep.(reader := Counted(ep.reader.raw, ep.reader.data),
                                       readBufLen := ep.readBufLen + |ep.reader.data|))), far, [])
      else Done(near, far, [])
    case Forward =>
      if ep.reader.Counted?
      then Done(Half(Some(ep.(reader := Idle)), f.(sent := f.sent + ep.reader.raw)), far,
                [DataMsg(side, sid, ep.reader.data)])
      else Done(near, far, [])
    case Write =>
      if ep.writer == [] then Done(near, far, []) else WriteHead(near, far, side, sid)
    case WriteFails(wrote) =>
      if ep.writer == [] || !ep.writer[0].SendAndThen? || wrote > |ep.writer[0].data| then Done(near, far, []) else
      CloseTask(near, far.(flow := Wrote(far.flow, ep.writer[0].data[..wrote])), side, sid)
    case Shut => CloseTask(near, far, side, sid)
  }

  function Wrote(f: Flow, data: Bytes): (r: Flow) { f.(written := f.written + data) }

  /** poll_write: write, flush, then run the callback; Close ends the session. */
  function WriteHead(near: Half, far: Half, side: Side, sid: nat): (r: Done)
    requires near.task.Some? && near.task.value.writer != []
  {
    var ep := near.task.value;
    var popped := near.(task := Some(ep.(writer := ep.writer[1..])));
    match ep.writer[0]
    case Close => CloseTask(near, far, side, sid)
    case CloseDelayed(_) => CloseTask(near, far, side, sid)
    case Send(_, _) => Done(popped, far, [])
    case SendAndThen(data, len) => Done(popped, far.(flow := Wrote(far.flow, data)), [AckMsg(side, sid, len)])
  }

  // ---------------------------------------------------------------- the message handlers

  function Push(h: Half, m: WriterMessage): (r: Half)
    requires h.task.Some?
  {
    h.(task := Some(h.task.value.(writer := h.task.value.writer + [m])))
  }

  /** An acknowledgement lowers the counter, clamped at zero. */
  function Acked(h: Half, len: nat): (r: Half)
    requires h.task.Some?
  {
    var n := h.task.value.readBufLen;
    h.(task := Some(h.task.value.(readBufLen := if n <= len then 0 else n - len)))
  }

  /** Whether an arriving data message is written out rather than lost. */
  predicate Takes(c: Coder, h: Half, listening: bool, data: Bytes) {
    listening && h.task.Some? && c.decode(h.task.value.cfg, data).Some?
  }

  /** The receiving half after a data message. */
  function Taken(c: Coder, h: Half, listening: bool, data: Bytes): (r: Half) {
    if Takes(c, h, listening, data)
    then Push(h, SendAndThen(c.decode(h.task.value.cfg, data).value, |data|))
    else h
  }

  /** The sending half's history after its data message has arrived. */
  function Lost(c: Coder, sender: Half, receiver: Half, listening: bool, data: Bytes): (r: Half) {
    if Takes(c, receiver, listening, data) then sender
    else sender.(flow := sender.flow.(lost := sender.flow.lost + |data|))
  }

  /** Inlet::input_internal for a session without a SOCKS5 context. */
  function InletInput(c: Coder, l: Local, m: ProxyMessage): (r: Local) {
    var open := l.inlet.task.Some?;
    match m
    case O2iRecvData(_, data) =>
      l.(inlet := Taken(c, l.inlet, open, data), outlet := Lost(c, l.outlet, l.inlet, open, data))
    case O2iConnect(_, success, _) => if open && !success then l.(inlet := Push(l.inlet, Close)) else l
    case O2iDisconnect(_) => if open then l.(inlet := Push(l.inlet, Close)) else l
    case O2iSendDataResult(_, len) => if open then l.(inlet := Acked(l.inlet, len)) else l
    case _ => l
  }

  /** Outlet::input_internal; `ok` is whether the dial succeeds.  The messages are its answers. */
  function OutletInput(c: Coder, l: Local, m: ProxyMessage, ok: bool): (r: (Local, seq<ProxyMessage>)) {
    var listening := l.registered && l.outlet.task.Some?;
    match m
    case I2oConnect(sid, tunnelType, _, addr, offer, _) =>
      var cfg := c.accept(offer);
      if listening || cfg.None? || !ValidTunnelType(tunnelType) || !ok
      then (if l.dial == Waiting then l.(dial := Failed) else l, [O2iConnect(sid, false, "")])
      else (l.(outlet := l.outlet.(task := Some(NewEndpoint(cfg.value))), registered := true, dial := Joined,
               dialled := Some(addr)),
            [O2iConnect(sid, true, "")])
    case I2oSendData(_, data) =>
      (l.(outlet := Taken(c, l.outlet, listening, data), inlet := Lost(c, l.inlet, l.outlet, listening, data)), [])
    case I2oDisconnect(_) =>
      (if listening then l.(registered := false, outlet := Push(l.outlet, Close)) else l, [])
    case I2oRecvDataResult(_, len) =>
      (if listening then l.(outlet := Acked(l.outlet, len)) else l, [])
    case _ => (l, [])
  }

  // ---------------------------------------------------------------- one session as a step system

  /**
   * The session with its two queues.  `pending` marks the outlet handler that has registered the
   * session but not yet sent its own O2iConnect; it handles no other message meanwhile.
   */
  datatype State = State(l: Local, i2o: seq<ProxyMessage>, o2i: seq<ProxyMessage>, pending: bool)

  function ConnectMsg(c: Coder, sid: nat, cfg: Config, addr: string): (m: ProxyMessage) {
    I2oConnect(sid, TCP, true, addr, c.offer(cfg), "")
  }

  /** on_session_start of the inlet. */
  function Started(cfg: Config, addr: string): (l: Local) {
    Local(cfg, addr, Idling(Some(NewEndpoint(cfg))), Idling(None), false, Waiting, None)
  }

  function Start(c: Coder, sid: nat, cfg: Config, addr: string): (s: State) {
    State(Started(cfg, addr), [ConnectMsg(c, sid, cfg, addr)], [], false)
  }

  datatype Event =
    | Task(side: Side, e: TaskEvent)
    | DeliverI2o(ok: bool)
    | DeliverO2i
    | Answer(saw: bool)

  /** A task step inside the session; a closing outlet task also leaves the session map. */
  function LocalStep(c: Coder, l: Local, side: Side, sid: nat, e: TaskEvent): (r: (Local, seq<ProxyMessage>)) {
    if side == Inlet then
      var d := TaskStep(c, l.inlet, l.outlet, side, sid, e);
      (l.(inlet := d.near, outlet := d.far), d.msgs)
    else if l.outlet.task.None? then (l, [])
    else
      var d := TaskStep(c, l.outlet, l.inlet, side, sid, e);
      (l.(outlet := d.near, inlet := d.far, registered := l.registered && d.near.task.Some?), d.msgs)
  }

  /** Whether the outlet handler goes on waiting for the registration it has just caused. */
  predicate Waits(before: Local, after: Local) { before.dial != Joined && after.dial == Joined }

  function Step(c: Coder, s: State, sid: nat, e: Event): (r: State) {
    match e
    case Task(side, t) =>
      var (l, msgs) := LocalStep(c, s.l, side, sid, t);
      if side == Inlet then s.(l := l, i2o := s.i2o + msgs) else s.(l := l, o2i := s.o2i + msgs)
    case DeliverI2o(ok) =>
      if s.i2o == [] || s.pending then s else
      var (l, msgs) := OutletInput(c, s.l, s.i2o[0], ok);
      State(l, s.i2o[1..], s.o2i + msgs, Waits(s.l, l))
    case DeliverO2i =>
      if s.o2i == [] then s else s.(l := InletInput(c, s.l, s.o2i[0]), o2i := s.o2i[1..])
    case Answer(saw) =>
      if !s.pending || (!saw && s.l.registered) then s else
      s.(pending := false, o2i := s.o2i + [O2iConnect(sid, saw, "")])
  }
}
