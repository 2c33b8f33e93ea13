/**
 * A whole TCP tunnel during one lifetime of its inlet: any number of sessions share the two queues.
 * Each session, seen alone, is a run of the step system of module Session.
 */
module Tunnel {
  import opened Bytes
  import opened Codec
  import opened Messages
  import opened Session
  import opened Flows
  import opened SessionProofs

  /** `pending` is the session whose registration the outlet's input loop is waiting for. */
  datatype Net = Net(seed: nat, sessions: map<nat, Local>, i2o: Queue, o2i: Queue, pending: Option<nat>)

  const EMPTY := Net(0, map[], [], [], None)

  datatype NetEvent =
    | Accepted(cfg: Config, endpoint: string)
    | At(sid: nat, side: Side, e: TaskEvent)
    | ToOutlet(ok: bool)
    | ToInlet
    | Answered(saw: bool)

  function NetStep(c: Coder, n: Net, e: NetEvent): (r: Net) {
    match e
    case Accepted(cfg, addr) =>
      var sid := n.seed + 1;
      n.(seed := sid, sessions := n.sessions[sid := Started(cfg, addr)], i2o := n.i2o + [ConnectMsg(c, sid, cfg, addr)])
    case At(sid, side, t) =>
      if sid !in n.sessions then n else
      var (l, msgs) := LocalStep(c, n.sessions[sid], side, sid, t);
      if side == Inlet then n.(sessions := n.sessions[sid := l], i2o := n.i2o + msgs)
      else n.(sessions := n.sessions[sid := l], o2i := n.o2i + msgs)
    case ToOutlet(ok) =>
      if n.i2o == [] || n.pending.Some? then n else
      var sid, rest := n.i2o[0].sid, n.i2o[1..];
      if sid !in n.sessions then n.(i2o := rest) else
      var (l, msgs) := OutletInput(c, n.sessions[sid], n.i2o[0], ok);
      n.(sessions := n.sessions[sid := l], i2o := rest, o2i := n.o2i + msgs,
         pending := if Waits(n.sessions[sid], l) then Some(sid) else None)
    case ToInlet =>
      if n.o2i == [] then n else
      var sid, rest := n.o2i[0].sid, n.o2i[1..];
      if sid !in n.sessions then n.(o2i := rest) else
      n.(sessions := n.sessions[sid := InletInput(c, n.sessions[sid], n.o2i[0])], o2i := rest)
    case Answered(saw) =>
      if n.pending.None? || n.pending.value !in n.sessions then n else
      var sid := n.pending.value;
      if !saw && n.sessions[sid].registered then n else
      n.(pending := None, o2i := n.o2i + [O2iConnect(sid, saw, "")])
  }

  function Run(c: Coder, n: Net, es: seq<NetEvent>): (r: Net)
    decreases |es|
  {
    if es == [] then n else Run(c, NetStep(c, n, es[0]), es[1..])
  }

  // ---------------------------------------------------------------- one session seen alone

  function Only(q: Queue, sid: nat): (r: Queue) {
    if q == [] then [] else if q[0].sid == sid then [q[0]] + Only(q[1..], sid) else Only(q[1..], sid)
  }

  lemma {:induction false} OnlyAppend(q: Queue, m: ProxyMessage, sid: nat)
    ensures Only(q + [m], sid) == Only(q, sid) + if m.sid == sid then [m] else []
  {
    if q == [] {
      assert q + [m] == [m];
    } else {
      assert (q + [m])[1..] == q[1..] + [m] && (q + [m])[0] == q[0];
      OnlyAppend(q[1..], m, sid);
      var a, b := Only(q[1..], sid), if m.sid == sid then [m] else [];
      assert [q[0]] + (a + b) == [q[0]] + a + b;
    }
  }

  /** Messages a step emits all bear the session's own id. */
  lemma OnlyOwn(q: Queue, msgs: Queue, own: nat, sid: nat)
    requires |msgs| <= 1 && (msgs != [] ==> msgs[0].sid == own)
    ensures Only(q + msgs, sid) == Only(q, sid) + if own == sid then msgs else []
  {
    if msgs == [] {
      assert q + msgs == q;
    } else {
      assert msgs == [msgs[0]];
      OnlyAppend(q, msgs[0], sid);
    }
  }

  lemma OnlyHead(q: Queue, sid: nat)
    requires q != []
    ensures q[0].sid == sid ==> Only(q, sid) != [] && Only(q, sid)[0] == q[0] && Only(q, sid)[1..] == Only(q[1..], sid)
    ensures q[0].sid != sid ==> Only(q, sid) == Only(q[1..], sid)
  {
  }

  function Project(n: Net, sid: nat): (s: State)
    requires sid in n.sessions
  {
    State(n.sessions[sid], Only(n.i2o, sid), Only(n.o2i, sid), n.pending == Some(sid))
  }

  /** The session's own step that a step of the tunnel amounts to, if it concerns the session at all. */
  function Concerns(n: Net, e: NetEvent, sid: nat): (r: Option<Event>) {
    match e
    case Accepted(_, _) => None
    case At(id, side, t) => if id == sid then Some(Task(side, t)) else None
    case ToOutlet(ok) => if n.i2o != [] && n.pending.None? && n.i2o[0].sid == sid then Some(DeliverI2o(ok)) else None
    case ToInlet => if n.o2i != [] && n.o2i[0].sid == sid then Some(DeliverO2i) else None
    case Answered(saw) => if n.pending == Some(sid) then Some(Answer(saw)) else None
  }

  lemma EmitsOwnId(c: Coder, l: Local, side: Side, sid: nat, e: TaskEvent)
    ensures var msgs := LocalStep(c, l, side, sid, e).1; |msgs| <= 1 && (msgs != [] ==> msgs[0].sid == sid)
  {
  }

  lemma AnswersOwnId(c: Coder, l: Local, m: ProxyMessage, ok: bool)
    ensures var msgs := OutletInput(c, l, m, ok).1; |msgs| <= 1 && (msgs != [] ==> msgs[0].sid == m.sid)
  {
  }

  /** What the session sees of a step of the tunnel. */
  function Seen(c: Coder, n: Net, e: NetEvent, sid: nat): (s: State)
    requires sid in n.sessions
  {
    match Concerns(n, e, sid)
    case None => Project(n, sid)
    case Some(own) => Step(c, Project(n, sid), sid, own)
  }

  /** A session that changes and speaks leaves the others as they were. */
  lemma SpeakingProjects(n: Net, id: nat, l: Local, up: Queue, down: Queue, sid: nat)
    requires sid in n.sessions && id in n.sessions
    requires |up| <= 1 && (up != [] ==> up[0].sid == id)
    requires |down| <= 1 && (down != [] ==> down[0].sid == id)
    ensures var n' := n.(sessions := n.sessions[id := l], i2o := n.i2o + up, o2i := n.o2i + down);
      Project(n', sid) == if id == sid then State(l, Only(n.i2o, sid) + up, Only(n.o2i, sid) + down, n.pending == Some(sid))
                          else Project(n, sid)
  {
    OnlyOwn(n.i2o, up, id, sid);
    OnlyOwn(n.o2i, down, id, sid);
  }

  lemma TaskProjects(c: Coder, n: Net, id: nat, side: Side, t: TaskEvent, sid: nat)
    requires sid in n.sessions && id in n.sessions
    ensures sid in NetStep(c, n, At(id, side, t)).sessions
    ensures Project(NetStep(c, n, At(id, side, t)), sid) == Seen(c, n, At(id, side, t), sid)
  {
    EmitsOwnId(c, n.sessions[id], side, id, t);
    var (l, msgs) := LocalStep(c, n.sessions[id], side, id, t);
    if side == Inlet {
      SpeakingProjects(n, id, l, msgs, [], sid);
      assert n.o2i + [] == n.o2i && Only(n.o2i, sid) + [] == Only(n.o2i, sid);
    } else {
      SpeakingProjects(n, id, l, [], msgs, sid);
      assert n.i2o + [] == n.i2o && Only(n.i2o, sid) + [] == Only(n.i2o, sid);
    }
  }

  /** Handling the head of the outlet's input changes the session it belongs to and no other. */
  lemma HandlingProjects(n: Net, l: Local, msgs: Queue, waits: bool, sid: nat)
    requires sid in n.sessions && n.i2o != [] && n.pending.None? && n.i2o[0].sid in n.sessions
    requires |msgs| <= 1 && (msgs != [] ==> msgs[0].sid == n.i2o[0].sid)
    ensures var id := n.i2o[0].sid;
      var n' := n.(sessions := n.sessions[id := l], i2o := n.i2o[1..], o2i := n.o2i + msgs,
                   pending := if waits then Some(id) else None);
      Project(n', sid) == if id == sid then State(l, Only(n.i2o, sid)[1..], Only(n.o2i, sid) + msgs, waits) else Project(n, sid)
  {
    OnlyHead(n.i2o, sid);
    OnlyOwn(n.o2i, msgs, n.i2o[0].sid, sid);
  }

  /** What the session whose message is at the head sees of it. */
  lemma SeenByOutlet(c: Coder, n: Net, ok: bool)
    requires n.i2o != [] && n.pending.None? && n.i2o[0].sid in n.sessions
    ensures var sid := n.i2o[0].sid;
      var (l, msgs) := OutletInput(c, n.sessions[sid], n.i2o[0], ok);
      Seen(c, n, ToOutlet(ok), sid)
        == State(l, Only(n.i2o, sid)[1..], Only(n.o2i, sid) + msgs, Waits(n.sessions[sid], l))
  {
    OnlyHead(n.i2o, n.i2o[0].sid);
  }

  lemma ToOutletProjects(c: Coder, n: Net, ok: bool, sid: nat)
    requires sid in n.sessions && n.i2o != [] && n.pending.None?
    ensures sid in NetStep(c, n, ToOutlet(ok)).sessions
    ensures Project(NetStep(c, n, ToOutlet(ok)), sid) == Seen(c, n, ToOutlet(ok), sid)
  {
    OnlyHead(n.i2o, sid);
    var id := n.i2o[0].sid;
    if id in n.sessions {
      AnswersOwnId(c, n.sessions[id], n.i2o[0], ok);
      var (l, msgs) := OutletInput(c, n.sessions[id], n.i2o[0], ok);
      HandlingProjects(n, l, msgs, Waits(n.sessions[id], l), sid);
      SeenByOutlet(c, n, ok);
    }
  }

  lemma AcceptedProjects(c: Coder, n: Net, cfg: Config, addr: string, sid: nat)
    requires sid in n.sessions && sid <= n.seed
    ensures sid in NetStep(c, n, Accepted(cfg, addr)).sessions
    ensures Project(NetStep(c, n, Accepted(cfg, addr)), sid) == Project(n, sid)
  {
    OnlyAppend(n.i2o, ConnectMsg(c, n.seed + 1, cfg, addr), sid);
  }

  lemma SeenByInlet(c: Coder, n: Net)
    requires n.o2i != [] && n.o2i[0].sid in n.sessions
    ensures var sid := n.o2i[0].sid;
      Seen(c, n, ToInlet, sid)
        == State(InletInput(c, n.sessions[sid], n.o2i[0]), Only(n.i2o, sid), Only(n.o2i, sid)[1..], n.pending == Some(sid))
  {
    OnlyHead(n.o2i, n.o2i[0].sid);
  }

  /** Handling the head of the inlet's input changes the session it belongs to and no other. */
  lemma TakingProjects(n: Net, l: Local, sid: nat)
    requires sid in n.sessions && n.o2i != [] && n.o2i[0].sid in n.sessions
    ensures var id := n.o2i[0].sid;
      var n' := n.(sessions := n.sessions[id := l], o2i := n.o2i[1..]);
      Project(n', sid) == if id == sid then State(l, Only(n.i2o, sid), Only(n.o2i, sid)[1..], n.pending == Some(sid)) else Project(n, sid)
  {
    OnlyHead(n.o2i, sid);
  }

  lemma ToInletProjects(c: Coder, n: Net, sid: nat)
    requires sid in n.sessions && n.o2i != []
    ensures sid in NetStep(c, n, ToInlet).sessions
    ensures Project(NetStep(c, n, ToInlet), sid) == Seen(c, n, ToInlet, sid)
  {
    OnlyHead(n.o2i, sid);
    var id := n.o2i[0].sid;
    if id in n.sessions {
      TakingProjects(n, InletInput(c, n.sessions[id], n.o2i[0]), sid);
      SeenByInlet(c, n);
    }
  }

  lemma AnsweredProjects(c: Coder, n: Net, saw: bool, sid: nat)
    requires sid in n.sessions && n.pending.Some?
    ensures sid in NetStep(c, n, Answered(saw)).sessions
    ensures Project(NetStep(c, n, Answered(saw)), sid) == Seen(c, n, Answered(saw), sid)
  {
    OnlyAppend(n.o2i, O2iConnect(n.pending.value, saw, ""), sid);
  }

  /** A step of the tunnel is, for each session, either that session's own step or invisible. */
  lemma StepProjects(c: Coder, n: Net, e: NetEvent, sid: nat)
    requires sid in n.sessions && (e.Accepted? ==> sid <= n.seed)
    ensures sid in NetStep(c, n, e).sessions
    ensures Project(NetStep(c, n, e), sid) == Seen(c, n, e, sid)
  {
    match e
    case Accepted(cfg, addr) => AcceptedProjects(c, n, cfg, addr, sid);
    case At(id, side, t) =>
      if id in n.sessions {
        TaskProjects(c, n, id, side, t, sid);
      }
    case ToOutlet(ok) =>
      if n.i2o != [] && n.pending.None? {
        ToOutletProjects(c, n, ok, sid);
      }
    case ToInlet =>
      if n.o2i != [] {
        ToInletProjects(c, n, sid);
      }
    case Answered(saw) =>
      if n.pending.Some? {
        AnsweredProjects(c, n, saw, sid);
      }
  }

  // ---------------------------------------------------------------- every run

  /** Ids are handed out from one upwards and never reused; nothing in a queue speaks of an unknown session. */
  ghost predicate Numbered(n: Net) {
    && (forall sid :: sid in n.sessions <==> 1 <= sid <= n.seed)
    && (forall k | 0 <= k < |n.i2o| :: n.i2o[k].sid in n.sessions)
    && (forall k | 0 <= k < |n.o2i| :: n.o2i[k].sid in n.sessions)
    && (n.pending.Some? ==> n.pending.value in n.sessions)
  }

  ghost predicate NetInv(c: Coder, n: Net) {
    Numbered(n) && forall sid | sid in n.sessions :: Inv(c, Project(n, sid))
  }

  /** A queue whose messages are all of known sessions gains one of them. */
  lemma KnownAppend(ids: set<nat>, q: Queue, msgs: Queue)
    requires |msgs| <= 1 && (msgs != [] ==> msgs[0].sid in ids)
    requires forall k | 0 <= k < |q| :: q[k].sid in ids
    ensures forall k | 0 <= k < |q + msgs| :: (q + msgs)[k].sid in ids
  {
  }

  lemma TaskKeepsNumbered(c: Coder, n: Net, sid: nat, side: Side, t: TaskEvent)
    requires Numbered(n) && sid in n.sessions
    ensures Numbered(NetStep(c, n, At(sid, side, t)))
  {
    EmitsOwnId(c, n.sessions[sid], side, sid, t);
    var msgs := LocalStep(c, n.sessions[sid], side, sid, t).1;
    KnownAppend(n.sessions.Keys, n.i2o, msgs);
    KnownAppend(n.sessions.Keys, n.o2i, msgs);
  }

  lemma ToOutletKeepsNumbered(c: Coder, n: Net, ok: bool)
    requires Numbered(n) && n.i2o != []
    ensures Numbered(NetStep(c, n, ToOutlet(ok)))
  {
    AnswersOwnId(c, n.sessions[n.i2o[0].sid], n.i2o[0], ok);
    var msgs := OutletInput(c, n.sessions[n.i2o[0].sid], n.i2o[0], ok).1;
    KnownAppend(n.sessions.Keys, n.o2i, msgs);
  }

  lemma AnsweredKeepsNumbered(c: Coder, n: Net, saw: bool)
    requires Numbered(n) && n.pending.Some?
    ensures Numbered(NetStep(c, n, Answered(saw)))
  {
    KnownAppend(n.sessions.Keys, n.o2i, [O2iConnect(n.pending.value, saw, "")]);
  }

  lemma StepKeepsNumbered(c: Coder, n: Net, e: NetEvent)
    requires Numbered(n)
    ensures Numbered(NetStep(c, n, e))
  {
    match e
    case At(sid, side, t) =>
      if sid in n.sessions {
        TaskKeepsNumbered(c, n, sid, side, t);
      }
    case ToOutlet(ok) =>
      if n.i2o != [] {
        ToOutletKeepsNumbered(c, n, ok);
      }
    case Answered(saw) =>
      if n.pending.Some? {
        AnsweredKeepsNumbered(c, n, saw);
      }
    case _ =>
  }

  lemma {:induction false} OnlyKnown(q: Queue, sid: nat)
    requires forall k | 0 <= k < |q| :: q[k].sid != sid
    ensures Only(q, sid) == []
  {
    if q != [] {
      assert forall k | 0 <= k < |q[1..]| :: q[1..][k] == q[k + 1];
      OnlyKnown(q[1..], sid);
    }
  }

  /** An accepted connection starts as a session of its own. */
  lemma AcceptedStarts(c: Coder, n: Net, cfg: Config, addr: string)
    requires Numbered(n)
    ensures var sid := n.seed + 1; Project(NetStep(c, n, Accepted(cfg, addr)), sid) == Start(c, sid, cfg, addr)
  {
    var sid := n.seed + 1;
    OnlyKnown(n.i2o, sid);
    OnlyKnown(n.o2i, sid);
    OnlyAppend(n.i2o, ConnectMsg(c, sid, cfg, addr), sid);
  }

  /** Only an accepted connection adds a session. */
  lemma SessionIds(c: Coder, n: Net, e: NetEvent)
    requires Numbered(n)
    ensures NetStep(c, n, e).sessions.Keys == n.sessions.Keys + if e.Accepted? then {n.seed + 1} else {}
  {
  }

  lemma SessionKeepsInv(c: Coder, n: Net, e: NetEvent, sid: nat)
    requires Faithful(c) && Numbered(n) && (sid in n.sessions ==> Inv(c, Project(n, sid)))
    requires sid in NetStep(c, n, e).sessions.Keys
    ensures Inv(c, Project(NetStep(c, n, e), sid))
  {
    SessionIds(c, n, e);
    if sid in n.sessions.Keys {
      StepProjects(c, n, e, sid);
      var own := Concerns(n, e, sid);
      if own.Some? {
        StepKeepsInv(c, Project(n, sid), sid, own.value);
      }
    } else {
      AcceptedStarts(c, n, e.cfg, e.endpoint);
      StartEstablishesInv(c, n.seed + 1, e.cfg, e.endpoint);
    }
  }

  lemma NetStepKeepsInv(c: Coder, n: Net, e: NetEvent)
    requires Faithful(c) && NetInv(c, n)
    ensures NetInv(c, NetStep(c, n, e))
  {
    StepKeepsNumbered(c, n, e);
    var n' := NetStep(c, n, e);
    forall sid | sid in n'.sessions.Keys ensures Inv(c, Project(n', sid)) {
      SessionKeepsInv(c, n, e, sid);
    }
  }

  /** Whatever happens, in whatever order, every session of the tunnel stays well. */
  lemma {:induction false} EveryRunKeepsInv(c: Coder, n: Net, es: seq<NetEvent>)
    requires Faithful(c) && NetInv(c, n)
    ensures NetInv(c, Run(c, n, es))
    decreases |es|
  {
    if es != [] {
      NetStepKeepsInv(c, n, es[0]);
      EveryRunKeepsInv(c, NetStep(c, n, es[0]), es[1..]);
    }
  }
}
