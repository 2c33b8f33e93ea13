/**
 * A SOCKS5 session in TCP mode with everything a TCP session has: limiter, writer, acknowledgements and both
 * directions.  The context sits in the inlet task; answers and payload reach it through a queue of its own.
 * np_base/src/proxy/inlet.rs, np_base/src/proxy/outlet.rs, np_base/src/proxy/socks5/mod.rs.
 */
module Socks5Session {
  import opened Bytes
  import opened Codec
  import opened Messages
  import opened Session
  import opened Flows
  import opened Socks5
  import Socks5Run

  /** As State of module Session, with the context and its inbox. */
  datatype Sock = Sock(l: Local, x: Ctx, inbox: Queue, i2o: Queue, o2i: Queue, pending: bool)

  datatype SockEvent =
    | ClientFrame(frame: Bytes, nonce: Bytes)
    | AtInlet(e: TaskEvent)
    | AtOutlet(e: TaskEvent)
    | ToOutlet(ok: bool)
    | ToInlet
    | ToContext(bound: Option<u16>)
    | HandlerAnswers(saw: bool)

  /** An accepted client. */
  function Opened(cfg: Config): (s: Sock) { Sock(Started(cfg, ""), FRESH, [], [], [], false) }

  function PushAll(h: Half, ws: seq<WriterMessage>): (r: Half)
    requires h.task.Some?
  {
    h.(task := Some(h.task.value.(writer := h.task.value.writer + ws)))
  }

  function Losing(h: Half, n: nat): (r: Half) { h.(flow := h.flow.(lost := h.flow.lost + n)) }

  /** A step of the inlet task; if it ends, so does the context, and what waits for it is lost. */
  function InletTask(c: Coder, s: Sock, sid: nat, e: TaskEvent): (r: Sock) {
    var d := TaskStep(c, s.l.inlet, s.l.outlet, Side.Inlet, sid, e);
    if d.near.task.Some? then s.(l := s.l.(inlet := d.near, outlet := d.far), i2o := s.i2o + d.msgs)
    else s.(l := s.l.(inlet := d.near, outlet := Losing(d.far, DataLen(s.inbox))), i2o := s.i2o + d.msgs, inbox := [])
  }

  /** A frame of the handshake; a panic ends the task without its on_session_close. */
  function Handshake(c: Coder, u: Setup, s: Sock, frame: Bytes): (r: Sock)
    requires s.l.inlet.task.Some?
  {
    match RecvFrame(u, s.x, frame)
    case Ok(x, es) =>
      s.(x := x, l := s.l.(inlet := PushAll(s.l.inlet, Socks5Run.Jobs(es))), i2o := s.i2o + Socks5Run.Emitted(es))
    case Fail => InletTask(c, s, u.sid, Shut)
    case Panic => InletTask(c, s, u.sid, Shut).(i2o := s.i2o)
  }

  function OutletTask(c: Coder, s: Sock, sid: nat, e: TaskEvent): (r: Sock) {
    var d := TaskStep(c, s.l.outlet, s.l.inlet, Side.Outlet, sid, e);
    s.(l := s.l.(outlet := d.near, inlet := d.far, registered := s.l.registered && d.near.task.Some?), o2i := s.o2i + d.msgs)
  }

  predicate ForContext(m: ProxyMessage) { m.O2iConnect? || m.O2iRecvData? }

  /** on_recv_proxy_message of the context. */
  function ContextInput(c: Coder, s: Sock, m: ProxyMessage, bound: Option<u16>): (r: Sock)
    requires s.l.inlet.task.Some?
  {
    match m
    case O2iConnect(_, success, _) =>
      (match OnO2iConnect(s.x, success, bound)
       case Ok(x, es) => s.(x := x, l := s.l.(inlet := PushAll(s.l.inlet, Socks5Run.Jobs(es))))
       case _ => s)
    case O2iRecvData(_, data) =>
      var running := s.x.status.RunWithTcp?;
      s.(l := s.l.(inlet := Taken(c, s.l.inlet, running, data), outlet := Lost(c, s.l.outlet, s.l.inlet, running, data)))
    case _ => s
  }

  /** Disabled steps change nothing.  A request for a datagram association is not followed further. */
  function SockStep(c: Coder, u: Setup, s: Sock, e: SockEvent): (r: Sock) {
    match e
    case ClientFrame(frame, nonce) =>
      if s.l.inlet.task.None? || s.l.inlet.task.value.reader != Idle || frame == [] then s
      else if s.x.status.RunWithTcp? then InletTask(c, s, u.sid, Read(frame, nonce))
      else Handshake(c, u, s, frame)
    case AtInlet(t) => if s.l.inlet.task.None? || t.Read? then s else InletTask(c, s, u.sid, t)
    case AtOutlet(t) => if s.l.outlet.task.None? then s else OutletTask(c, s, u.sid, t)
    case ToOutlet(ok) =>
      if s.i2o == [] || s.pending || (s.i2o[0].I2oConnect? && !s.i2o[0].isTcp) then s else
      var (l, msgs) := OutletInput(c, s.l, s.i2o[0], ok);
      s.(l := l, i2o := s.i2o[1..], o2i := s.o2i + msgs, pending := Waits(s.l, l))
    case ToInlet =>
      if s.o2i == [] then s
      else if s.l.inlet.task.Some? && ForContext(s.o2i[0]) then s.(inbox := s.inbox + [s.o2i[0]], o2i := s.o2i[1..])
      else s.(l := InletInput(c, s.l, s.o2i[0]), o2i := s.o2i[1..])
    case ToContext(bound) =>
      if s.inbox == [] || s.l.inlet.task.None? then s
      else ContextInput(c, s.(inbox := s.inbox[1..]), s.inbox[0], bound)
    case HandlerAnswers(saw) =>
      if !s.pending || (!saw && s.l.registered) then s
      else s.(pending := false, o2i := s.o2i + [O2iConnect(u.sid, saw, "")])
  }

  function SockRun(c: Coder, u: Setup, s: Sock, es: seq<SockEvent>): (r: Sock)
    decreases |es|
  {
    if es == [] then s else SockRun(c, u, SockStep(c, u, s, es[0]), es[1..])
  }
}
