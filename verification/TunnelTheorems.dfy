/** What holds in every state that any run of a tunnel reaches, and that the tunnel always comes to rest. */
module TunnelTheorems {
  import opened Bytes
  import opened Codec
  import opened Messages
  import opened Session
  import opened Flows
  import opened SessionProofs
  import opened Tunnel

  // ---------------------------------------------------------------- safety in every reachable state

  lemma ReachableInv(lib: Lib, es: seq<NetEvent>)
    requires Sound(lib)
    ensures NetInv(NpipeCoder(lib), Run(NpipeCoder(lib), EMPTY, es))
  {
    NpipeCoderIsFaithful(lib);
    EveryRunKeepsInv(NpipeCoder(lib), EMPTY, es);
  }

  /** Bytes written at one end are an in-order prefix of the bytes read at the other, session by session. */
  lemma StreamIntegrity(lib: Lib, es: seq<NetEvent>, sid: nat)
    requires Sound(lib)
    requires sid in Run(NpipeCoder(lib), EMPTY, es).sessions
    ensures var l := Run(NpipeCoder(lib), EMPTY, es).sessions[sid];
      && l.inlet.flow.written <= l.inlet.flow.read
      && l.outlet.flow.written <= l.outlet.flow.read
  {
    ReachableInv(lib, es);
    InOrder(NpipeCoder(lib), Project(Run(NpipeCoder(lib), EMPTY, es), sid));
  }

  /** The credit counters count exactly what is under way, and overshoot the limit by at most one chunk. */
  lemma CreditConservation(lib: Lib, es: seq<NetEvent>, sid: nat)
    requires Sound(lib)
    requires sid in Run(NpipeCoder(lib), EMPTY, es).sessions
    ensures var n := Run(NpipeCoder(lib), EMPTY, es);
      var l, i2o, o2i := n.sessions[sid], Only(n.i2o, sid), Only(n.o2i, sid);
      && (l.inlet.task.Some? ==>
            var ep := l.inlet.task.value;
            && ep.readBufLen == CountedLen(ep.reader) + DataLen(i2o) + OwedBy(l.outlet.task) + AckLen(o2i) + l.inlet.flow.lost
            && ep.readBufLen <= 1048576 + l.inlet.flow.longest)
      && (l.outlet.task.Some? ==>
            var ep := l.outlet.task.value;
            && (l.registered ==>
                  ep.readBufLen == CountedLen(ep.reader) + DataLen(o2i) + OwedBy(l.inlet.task) + AckLen(i2o) + l.outlet.flow.lost)
            && ep.readBufLen <= 1048576 + l.outlet.flow.longest)
      // credit is lost for good only where the other end is gone
      && (l.outlet.task.Some? ==> l.inlet.flow.lost == 0)
      && (l.inlet.task.Some? ==> l.outlet.flow.lost == 0)
  {
    ReachableInv(lib, es);
    assert Inv(NpipeCoder(lib), Project(Run(NpipeCoder(lib), EMPTY, es), sid));
  }

  /** A task that is about to process Close has written everything the other side queued. */
  lemma DrainBeforeClose(lib: Lib, es: seq<NetEvent>, sid: nat)
    requires Sound(lib)
    requires sid in Run(NpipeCoder(lib), EMPTY, es).sessions
    ensures var l := Run(NpipeCoder(lib), EMPTY, es).sessions[sid];
      && (AboutToClose(l.inlet) ==> l.outlet.flow.written == l.outlet.flow.sent && l.outlet.task.None?)
      && (AboutToClose(l.outlet) ==> l.inlet.flow.written == l.inlet.flow.sent && l.inlet.task.None?)
  {
    ReachableInv(lib, es);
    DrainedBeforeClose(NpipeCoder(lib), Project(Run(NpipeCoder(lib), EMPTY, es), sid));
  }

  /** No session leaks: a one-sided session always has the message that will close it under way. */
  lemma SessionAgreement(lib: Lib, es: seq<NetEvent>, sid: nat)
    requires Sound(lib)
    requires sid in Run(NpipeCoder(lib), EMPTY, es).sessions
    ensures OneSidedIsTransient(Project(Run(NpipeCoder(lib), EMPTY, es), sid))
  {
    ReachableInv(lib, es);
    SidesAgree(NpipeCoder(lib), Project(Run(NpipeCoder(lib), EMPTY, es), sid));
  }

  /** The endpoint a session was accepted with stays with it, and a connected session is connected there. */
  lemma DialsTheEndpoint(lib: Lib, es: seq<NetEvent>, sid: nat)
    requires Sound(lib)
    requires sid in Run(NpipeCoder(lib), EMPTY, es).sessions
    ensures var l := Run(NpipeCoder(lib), EMPTY, es).sessions[sid]; l.dial == Joined ==> l.dialled == Some(l.endpoint)
    ensures var n := Run(NpipeCoder(lib), EMPTY, es);
      forall e :: var n' := NetStep(NpipeCoder(lib), n, e); sid in n'.sessions && n'.sessions[sid].endpoint == n.sessions[sid].endpoint
  {
    ReachableInv(lib, es);
    var c := NpipeCoder(lib);
    var n := Run(c, EMPTY, es);
    assert Inv(c, Project(n, sid));
    forall e ensures var n' := NetStep(c, n, e); sid in n'.sessions && n'.sessions[sid].endpoint == n.sessions[sid].endpoint {
      EndpointStays(c, n, e, sid);
    }
  }

  lemma EndpointStays(c: Coder, n: Net, e: NetEvent, sid: nat)
    requires Numbered(n) && sid in n.sessions
    ensures var n' := NetStep(c, n, e); sid in n'.sessions && n'.sessions[sid].endpoint == n.sessions[sid].endpoint
  {
  }

  // ---------------------------------------------------------------- the tunnel comes to rest

  /** Steps that only work off what is already under way: no new connection, no new input, no failure. */
  predicate Internal(e: NetEvent) {
    e.ToOutlet? || e.ToInlet? || e.Answered?
    || (e.At? && (e.e.Pass? || e.e.Count? || e.e.Forward? || e.e.Write?))
  }

  /** Hops a message can still cause. */
  function MsgHops(m: ProxyMessage): (w: nat) {
    match m
    case I2oConnect(_, _, _, _, _, _) => 9
    case I2oSendData(_, _) => 3
    case O2iRecvData(_, _) => 3
    case O2iConnect(_, _, _) => 2
    case I2oDisconnect(_) => 2
    case O2iDisconnect(_) => 2
    case _ => 1
  }

  function QueueHops(q: Queue): (w: nat) {
    if q == [] then 0 else MsgHops(q[0]) + QueueHops(q[1..])
  }

  function WriterHops(w: seq<WriterMessage>): (h: nat) {
    if w == [] then 0 else (if w[0].SendAndThen? then 2 else 1) + WriterHops(w[1..])
  }

  function ReaderHops(r: Reader): (h: nat) {
    match r
    case Idle => 0
    case Held(_, _) => 6
    case Cleared(_, _) => 5
    case Counted(_, _) => 4
  }

  function HalfHops(h: Half): (w: nat) {
    if h.task.None? then 0 else 3 + WriterHops(h.task.value.writer) + ReaderHops(h.task.value.reader)
  }

  function LocalHops(l: Local): (w: nat) { HalfHops(l.inlet) + HalfHops(l.outlet) }

  ghost function SessionHops(sessions: map<nat, Local>, upTo: nat): (w: nat)
    requires forall sid | 1 <= sid <= upTo :: sid in sessions
  {
    if upTo == 0 then 0 else LocalHops(sessions[upTo]) + SessionHops(sessions, upTo - 1)
  }

  /** The hops still to come in the whole tunnel. */
  ghost function Hops(n: Net): (w: nat)
    requires Numbered(n)
  {
    QueueHops(n.i2o) + QueueHops(n.o2i) + (if n.pending.Some? then 3 else 0) + SessionHops(n.sessions, n.seed)
  }

  lemma {:induction false} QueueHopsAppend(q: Queue, msgs: Queue)
    ensures QueueHops(q + msgs) == QueueHops(q) + QueueHops(msgs)
  {
    if q == [] {
      assert q + msgs == msgs;
    } else {
      assert (q + msgs)[1..] == q[1..] + msgs;
      QueueHopsAppend(q[1..], msgs);
    }
  }

  lemma {:induction false} WriterHopsAppend(w: seq<WriterMessage>, m: WriterMessage)
    ensures WriterHops(w + [m]) == WriterHops(w) + if m.SendAndThen? then 2 else 1
  {
    if w == [] {
      assert w + [m] == [m];
    } else {
      assert (w + [m])[1..] == w[1..] + [m];
      WriterHopsAppend(w[1..], m);
    }
  }

  lemma {:induction false} SessionHopsUpdate(sessions: map<nat, Local>, sid: nat, l: Local, upTo: nat)
    requires forall k | 1 <= k <= upTo :: k in sessions
    requires 1 <= sid && sid in sessions
    ensures SessionHops(sessions[sid := l], upTo)
      == SessionHops(sessions, upTo) + if sid <= upTo then LocalHops(l) - LocalHops(sessions[sid]) else 0
  {
    if upTo > 0 {
      SessionHopsUpdate(sessions, sid, l, upTo - 1);
    }
  }

  lemma TaskHops(c: Coder, near: Half, far: Half, side: Side, sid: nat, e: TaskEvent)
    requires e.Pass? || e.Count? || e.Forward? || e.Write?
    ensures var d := TaskStep(c, near, far, side, sid, e);
      || (d.near == near && d.far == far && d.msgs == [])
      || HalfHops(d.near) + HalfHops(d.far) + QueueHops(d.msgs) < HalfHops(near) + HalfHops(far)
  {
    var d := TaskStep(c, near, far, side, sid, e);
    if d.msgs != [] {
      assert d.msgs == [d.msgs[0]] && QueueHops(d.msgs) == MsgHops(d.msgs[0]) + QueueHops(d.msgs[1..]);
    }
  }

  lemma InletHops(c: Coder, l: Local, m: ProxyMessage)
    ensures LocalHops(InletInput(c, l, m)) < LocalHops(l) + MsgHops(m)
  {
    if l.inlet.task.Some? {
      var w := l.inlet.task.value.writer;
      WriterHopsAppend(w, Close);
      if m.O2iRecvData? && Takes(c, l.inlet, true, m.data) {
        WriterHopsAppend(w, SendAndThen(c.decode(l.inlet.task.value.cfg, m.data).value, |m.data|));
      }
    }
  }

  lemma OutletHops(c: Coder, l: Local, m: ProxyMessage, ok: bool)
    ensures var (l', msgs) := OutletInput(c, l, m, ok);
      LocalHops(l') + QueueHops(msgs) + (if Waits(l, l') then 3 else 0) < LocalHops(l) + MsgHops(m)
  {
    var (l', msgs) := OutletInput(c, l, m, ok);
    if msgs != [] {
      assert QueueHops(msgs) == MsgHops(msgs[0]) + QueueHops(msgs[1..]);
    }
    if l.outlet.task.Some? {
      var w := l.outlet.task.value.writer;
      WriterHopsAppend(w, Close);
      if m.I2oSendData? && Takes(c, l.outlet, l.registered, m.data) {
        WriterHopsAppend(w, SendAndThen(c.decode(l.outlet.task.value.cfg, m.data).value, |m.data|));
      }
    }
  }

  lemma TaskStepHops(c: Coder, n: Net, e: NetEvent)
    requires Numbered(n) && Internal(e) && e.At? && e.sid in n.sessions
    ensures var n' := NetStep(c, n, e); Numbered(n') && (n' == n || Hops(n') < Hops(n))
  {
    StepKeepsNumbered(c, n, e);
    var l := n.sessions[e.sid];
    var (l', msgs) := LocalStep(c, l, e.side, e.sid, e.e);
    if e.side == Inlet {
      TaskHops(c, l.inlet, l.outlet, e.side, e.sid, e.e);
    } else {
      TaskHops(c, l.outlet, l.inlet, e.side, e.sid, e.e);
    }
    QueueHopsAppend(n.i2o, msgs);
    QueueHopsAppend(n.o2i, msgs);
    SessionHopsUpdate(n.sessions, e.sid, l', n.seed);
    if l' == l {
      assert n.sessions[e.sid := l'] == n.sessions;
      assert msgs == [] ==> n.i2o + msgs == n.i2o && n.o2i + msgs == n.o2i;
    }
  }

  /** Every internal step either changes nothing or brings the tunnel strictly closer to rest. */
  lemma InternalStepHops(c: Coder, n: Net, e: NetEvent)
    requires Numbered(n) && Internal(e)
    ensures var n' := NetStep(c, n, e); Numbered(n') && (n' == n || Hops(n') < Hops(n))
  {
    StepKeepsNumbered(c, n, e);
    if e.At? && e.sid in n.sessions {
      TaskStepHops(c, n, e);
    } else if e.ToOutlet? && n.i2o != [] && n.pending.None? {
      var sid := n.i2o[0].sid;
      var (l, msgs) := OutletInput(c, n.sessions[sid], n.i2o[0], e.ok);
      OutletHops(c, n.sessions[sid], n.i2o[0], e.ok);
      QueueHopsAppend(n.o2i, msgs);
      SessionHopsUpdate(n.sessions, sid, l, n.seed);
    } else if e.ToInlet? && n.o2i != [] {
      var sid := n.o2i[0].sid;
      InletHops(c, n.sessions[sid], n.o2i[0]);
      SessionHopsUpdate(n.sessions, sid, InletInput(c, n.sessions[sid], n.o2i[0]), n.seed);
    } else if e.Answered? && n.pending.Some? {
      var m := O2iConnect(n.pending.value, e.saw, "");
      QueueHopsAppend(n.o2i, [m]);
      assert QueueHops([m]) == 2 + QueueHops([]);
    }
  }

  predicate AllInternal(es: seq<NetEvent>) { forall k | 0 <= k < |es| :: Internal(es[k]) }

  /** No internal step can change anything. */
  ghost predicate Still(c: Coder, n: Net) { forall e | Internal(e) :: NetStep(c, n, e) == n }

  /** Each step of the run changes the tunnel. */
  ghost predicate Busy(c: Coder, n: Net, es: seq<NetEvent>)
    decreases |es|
  {
    es == [] || (NetStep(c, n, es[0]) != n && Busy(c, NetStep(c, n, es[0]), es[1..]))
  }

  /** However the parties are scheduled, work already under way is over after a bounded number of steps. */
  lemma {:induction false} InternalRunsAreBounded(c: Coder, n: Net, es: seq<NetEvent>)
    requires Numbered(n) && AllInternal(es) && Busy(c, n, es)
    ensures |es| <= Hops(n)
    decreases |es|
  {
    if es != [] {
      InternalStepHops(c, n, es[0]);
      InternalRunsAreBounded(c, NetStep(c, n, es[0]), es[1..]);
    }
  }

  /** A schedule that brings the tunnel to rest always exists. */
  lemma {:induction false} ComesToRest(c: Coder, n: Net) returns (es: seq<NetEvent>)
    requires Numbered(n)
    ensures AllInternal(es) && Still(c, Run(c, n, es))
    decreases Hops(n)
  {
    if Still(c, n) {
      es := [];
    } else {
      var e :| Internal(e) && NetStep(c, n, e) != n;
      InternalStepHops(c, n, e);
      var rest := ComesToRest(c, NetStep(c, n, e));
      es := [e] + rest;
      assert es[1..] == rest;
    }
  }

  /** At rest the queues are empty and no task has work it could do. */
  lemma StillIsResting(c: Coder, n: Net, sid: nat)
    requires Numbered(n) && Still(c, n) && sid in n.sessions
    ensures n.i2o == [] && n.o2i == [] && n.pending == None
    ensures Resting(n.sessions[sid].inlet) && Resting(n.sessions[sid].outlet)
  {
    assert Internal(Answered(true)) && NetStep(c, n, Answered(true)) == n;
    assert Internal(ToOutlet(true)) && NetStep(c, n, ToOutlet(true)) == n;
    assert Internal(ToInlet) && NetStep(c, n, ToInlet) == n;
    StillTaskRests(c, n, sid, Inlet);
    StillTaskRests(c, n, sid, Outlet);
  }

  lemma StillTaskRests(c: Coder, n: Net, sid: nat, side: Side)
    requires Still(c, n) && sid in n.sessions
    ensures Resting(if side == Inlet then n.sessions[sid].inlet else n.sessions[sid].outlet)
  {
    var l := n.sessions[sid];
    forall t | t in {Pass, Count, Forward, Write}
      ensures LocalStep(c, l, side, sid, t).0 == l
    {
      var e := At(sid, side, t);
      assert Internal(e) && NetStep(c, n, e) == n;
      assert n.sessions[sid := LocalStep(c, l, side, sid, t).0][sid] == l;
    }
    assert LocalStep(c, l, side, sid, Pass).0 == l && LocalStep(c, l, side, sid, Count).0 == l;
    assert LocalStep(c, l, side, sid, Forward).0 == l && LocalStep(c, l, side, sid, Write).0 == l;
  }

  /** Every byte read on an open session has been written at the far end, and all credit is back. */
  predicate Delivered(l: Local) {
    && l.registered && l.inlet.task.Some? && l.outlet.task.Some?
    && l.inlet.task.value == NewEndpoint(l.cfg) && l.outlet.task.value == NewEndpoint(l.cfg)
    && l.inlet.flow.written == l.inlet.flow.read
    && l.outlet.flow.written == l.outlet.flow.read
  }

  function OpenInlets(n: Net): (ids: set<nat>) { set sid | sid in n.sessions && n.sessions[sid].inlet.task.Some? }

  function OpenOutlets(n: Net): (ids: set<nat>) { set sid | sid in n.sessions && n.sessions[sid].outlet.task.Some? }

  /**
   * Where a run has left no work under way, both sides hold the same sessions, no reader is stuck, and
   * everything read has been delivered.
   */
  lemma RestMeansDelivered(lib: Lib, es: seq<NetEvent>)
    requires Sound(lib) && Still(NpipeCoder(lib), Run(NpipeCoder(lib), EMPTY, es))
    ensures var n := Run(NpipeCoder(lib), EMPTY, es);
      && OpenInlets(n) == OpenOutlets(n)
      && (forall sid | sid in OpenInlets(n) :: Delivered(n.sessions[sid]))
  {
    var c := NpipeCoder(lib);
    ReachableInv(lib, es);
    var n := Run(c, EMPTY, es);
    forall sid | sid in n.sessions
      ensures n.sessions[sid].inlet.task.Some? <==> n.sessions[sid].outlet.task.Some?
      ensures n.sessions[sid].inlet.task.Some? ==> Delivered(n.sessions[sid])
    {
      StillIsResting(c, n, sid);
      AtRestAllIsDelivered(c, Project(n, sid));
    }
  }

  lemma {:induction false} RunAppend(c: Coder, n: Net, es: seq<NetEvent>, more: seq<NetEvent>)
    ensures Run(c, n, es + more) == Run(c, Run(c, n, es), more)
    decreases |es|
  {
    if es == [] {
      assert es + more == more;
    } else {
      assert (es + more)[1..] == es[1..] + more;
      RunAppend(c, NetStep(c, n, es[0]), es[1..], more);
    }
  }

  /** Wherever a run stops, the work under way can be finished without new input, and then all is delivered. */
  lemma EveryRunCanBeFinished(lib: Lib, es: seq<NetEvent>) returns (more: seq<NetEvent>)
    requires Sound(lib)
    ensures AllInternal(more)
    ensures var n := Run(NpipeCoder(lib), EMPTY, es + more);
      && OpenInlets(n) == OpenOutlets(n)
      && (forall sid | sid in OpenInlets(n) :: Delivered(n.sessions[sid]))
  {
    var c := NpipeCoder(lib);
    ReachableInv(lib, es);
    more := ComesToRest(c, Run(c, EMPTY, es));
    RunAppend(c, EMPTY, es, more);
    RestMeansDelivered(lib, es + more);
  }

  // ---------------------------------------------------------------- directions

  /** An inlet emits only messages for an outlet, and an outlet only messages for an inlet. */
  lemma DirectionsAreKept(lib: Lib, es: seq<NetEvent>)
    requires Sound(lib)
    ensures var n := Run(NpipeCoder(lib), EMPTY, es);
      AllUp(n.i2o) && AllDown(n.o2i)
  {
    ReachableInv(lib, es);
    var n := Run(NpipeCoder(lib), EMPTY, es);
    forall k | 0 <= k < |n.i2o| ensures IsI2o(n.i2o[k]) {
      OnlyHas(n.i2o, k);
      assert Inv(NpipeCoder(lib), Project(n, n.i2o[k].sid));
    }
    forall k | 0 <= k < |n.o2i| ensures !IsI2o(n.o2i[k]) {
      OnlyHas(n.o2i, k);
      assert Inv(NpipeCoder(lib), Project(n, n.o2i[k].sid));
    }
  }

  /** A queued message is in its session's share of the queue. */
  lemma {:induction false} OnlyHas(q: Queue, k: nat)
    requires k < |q|
    ensures q[k] in Only(q, q[k].sid)
  {
    if k > 0 {
      OnlyHas(q[1..], k - 1);
    }
  }
}
