/**
 * A SOCKS5 session end to end: client, context, inlet, outlet.  Answers and payload reach the context
 * through a queue of its own, while the outlet's goodbye goes straight to the writer.
 */
module Socks5Run {
  import opened Bytes
  import opened Codec
  import opened Messages
  import opened Flows
  import opened Socks5
  import opened Socks5Proofs

  datatype Outlet = Absent | Up(isTcp: bool) | Down

  /**
   * `jobs` is everything ever queued to the session's writer; `strays` counts payload met in a wrong status;
   * `dial` is the outcome of the dial, once there is one.
   */
  datatype Joint = Joint(
    x: Ctx, alive: bool, i2o: Queue, o2i: Queue, inbox: Queue, outlet: Outlet, owesAnswer: bool,
    jobs: seq<WriterMessage>, sent: Bytes, strays: nat, dial: Option<bool>)

  const OPENED := Joint(FRESH, true, [], [], [], Absent, false, [], [], 0, None)

  datatype JointEvent =
    | ClientSends(frame: Bytes)
    | OutletDials(ok: bool)
    | OutletAnswers(saw: bool)
    | OutletReads(raw: Bytes, nonce: Bytes)
    | OutletCloses
    | InletHandles
    | ContextHandles(bound: Option<u16>)
    | SessionEnds

  function Jobs(es: seq<Effect>): (ws: seq<WriterMessage>) {
    if es == [] then [] else (if es[0].Write? then [es[0].w] else []) + Jobs(es[1..])
  }

  function Emitted(es: seq<Effect>): (ms: Queue) {
    if es == [] then [] else (if es[0].Emit? then [es[0].m] else []) + Emitted(es[1..])
  }

  /** The effects of a handler, or the end of the session if it fails. */
  function Apply(j: Joint, r: Outcome): (j': Joint) {
    match r
    case Ok(x, es) => j.(x := x, jobs := j.jobs + Jobs(es), i2o := j.i2o + Emitted(es))
    case _ => j.(alive := false)
  }

  function JointStep(c: Coder, cfg: Config, u: Setup, j: Joint, e: JointEvent): (r: Joint) {
    match e
    case ClientSends(frame) => if j.alive then Apply(j, RecvFrame(u, j.x, frame)) else j
    case OutletDials(ok) =>
      if j.i2o == [] || !j.i2o[0].I2oConnect? || j.owesAnswer then j
      else if ok then j.(i2o := j.i2o[1..], outlet := Up(j.i2o[0].isTcp), owesAnswer := true,
                         o2i := j.o2i + [O2iConnect(u.sid, true, "")], dial := Some(true))
      else j.(i2o := j.i2o[1..], o2i := j.o2i + [O2iConnect(u.sid, false, "")], dial := Some(false))
    case OutletAnswers(saw) =>
      if !j.owesAnswer || (!saw && j.outlet.Up?) then j
      else j.(owesAnswer := false, o2i := j.o2i + [O2iConnect(u.sid, saw, "")])
    case OutletReads(raw, nonce) =>
      if j.outlet != Up(true) || c.encode(cfg, nonce, raw).None? then j
      else j.(o2i := j.o2i + [O2iRecvData(u.sid, c.encode(cfg, nonce, raw).value)], sent := j.sent + raw)
    case OutletCloses =>
      if j.outlet.Up? then j.(outlet := Down, o2i := j.o2i + [O2iDisconnect(u.sid)]) else j
    case InletHandles =>
      if j.o2i == [] then j
      else if !j.alive then j.(o2i := j.o2i[1..])
      else if j.o2i[0].O2iDisconnect? then j.(o2i := j.o2i[1..], jobs := j.jobs + [Close])
      else j.(o2i := j.o2i[1..], inbox := j.inbox + [j.o2i[0]])
    case ContextHandles(bound) =>
      if j.inbox == [] || !j.alive then j else ContextStep(c, cfg, j.(inbox := j.inbox[1..]), j.inbox[0], bound)
    case SessionEnds => j.(alive := false)
  }

  /** on_recv_proxy_message */
  function ContextStep(c: Coder, cfg: Config, j: Joint, m: ProxyMessage, bound: Option<u16>): (r: Joint) {
    match m
    case O2iConnect(_, success, _) => Apply(j, OnO2iConnect(j.x, success, bound))
    case O2iRecvData(_, data) =>
      if c.decode(cfg, data).None? then j
      else Apply(if j.x.status.RunWithTcp? then j else j.(strays := j.strays + 1),
                 OnO2iRecvData(j.x, c.decode(cfg, data).value, |data|))
    case _ => j
  }

  // ---------------------------------------------------------------- the invariant

  predicate IsYes(m: ProxyMessage) { m.O2iConnect? && m.success }

  /** Whether the session will be running once these messages are handled. */
  predicate Ready(q: Queue, running: bool) {
    if q == [] then running else Ready(q[1..], running || IsYes(q[0]))
  }

  /** No payload stands before the answer that makes the session run. */
  predicate Safe(q: Queue, running: bool) {
    q == [] || ((IsData(q[0]) ==> running) && Safe(q[1..], running || IsYes(q[0])))
  }

  lemma {:induction false} SafeAppend(q: Queue, running: bool, m: ProxyMessage)
    ensures Ready(q + [m], running) <==> Ready(q, running) || IsYes(m)
    ensures Safe(q + [m], running) <==> Safe(q, running) && (IsData(m) ==> Ready(q, running))
  {
    if q == [] {
      assert q + [m] == [m];
    } else {
      assert (q + [m])[1..] == q[1..] + [m];
      SafeAppend(q[1..], running || IsYes(q[0]), m);
    }
  }

  lemma {:induction false} RunningIsReady(q: Queue)
    ensures Ready(q, true)
  {
    if q != [] {
      RunningIsReady(q[1..]);
    }
  }

  predicate TcpMode(x: Ctx) { x.status == Connecting(true) || x.status == RunWithTcp }

  predicate Kinds(q: Queue, disconnects: bool) {
    forall k | 0 <= k < |q| :: q[k].O2iConnect? || q[k].O2iRecvData? || (disconnects && q[k].O2iDisconnect?)
  }

  predicate NoDataAfterBye(q: Queue) {
    forall j, k | 0 <= j < k < |q| && q[j].O2iDisconnect? :: !IsData(q[k])
  }

  predicate HasBye(q: Queue) { exists k :: 0 <= k < |q| && q[k].O2iDisconnect? }

  predicate HasData(q: Queue) { exists k :: 0 <= k < |q| && IsData(q[k]) }

  /** Nothing has been dialled before the context asked for it, and then it asked once. */
  predicate Dialling(j: Joint) {
    && (j.x.target.Some? <==> Rank(j.x.status) >= 3)
    && |j.i2o| <= 1
    && (j.i2o != [] ==> j.i2o[0].I2oConnect? && j.i2o[0].isTcp == TcpMode(j.x))
    && (j.i2o != [] || Rank(j.x.status) < 3 ==> j.outlet == Absent && !j.owesAnswer && j.o2i == [] && j.inbox == [])
    && (Rank(j.x.status) < 3 ==> j.i2o == [])
    && (j.outlet.Up? ==> j.outlet.isTcp == TcpMode(j.x))
    && (j.owesAnswer ==> j.outlet != Absent)
  }

  predicate Queued(tcp: bool, running: bool, inbox: Queue, o2i: Queue, outlet: Outlet) {
    && Kinds(inbox, false) && Kinds(o2i, true) && NoDataAfterBye(o2i)
    && (outlet.Up? ==> !HasBye(o2i))
    && (HasData(inbox) || HasData(o2i) || outlet == Up(true) ==> tcp)
    && Safe(inbox, running) && Safe(o2i, Ready(inbox, running))
    && (outlet == Up(true) ==> Ready(o2i, Ready(inbox, running)))
  }

  predicate InOrder(j: Joint) { Queued(TcpMode(j.x), j.x.status.RunWithTcp?, j.inbox, j.o2i, j.outlet) }

  predicate IsSuccessJob(w: WriterMessage) { IsSuccess(Write(w)) }

  predicate Answered(ws: seq<WriterMessage>, k: nat) {
    exists i :: 0 <= i < k && i < |ws| && IsSuccessJob(ws[i])
  }

  /** Payload is queued to the client only behind the success reply. */
  predicate ReplyFirst(running: bool, jobs: seq<WriterMessage>) {
    && (running ==> Answered(jobs, |jobs|))
    && (forall k | 0 <= k < |jobs| && jobs[k].SendAndThen? :: Answered(jobs, k))
  }

  /** Every payload byte is queued to the client, waits for the context, or is on its way. */
  ghost predicate Whole(c: Coder, cfg: Config, jobs: seq<WriterMessage>, inbox: Queue, o2i: Queue, sent: Bytes) {
    && Decodable(c, cfg, inbox) && Decodable(c, cfg, o2i)
    && sent == Unwritten(jobs) + Flows.Payload(c, cfg, inbox) + Flows.Payload(c, cfg, o2i)
  }

  ghost predicate JointInv(c: Coder, cfg: Config, j: Joint) {
    j.strays == 0 && ReplyFirst(j.x.status.RunWithTcp?, j.jobs) && (j.alive ==> Dialling(j) && InOrder(j) && Whole(c, cfg, j.jobs, j.inbox, j.o2i, j.sent))
  }

  // ---------------------------------------------------------------- frames from the client

  predicate Plain(ws: seq<WriterMessage>) { forall k | 0 <= k < |ws| :: !ws[k].SendAndThen? }

  lemma FewEffects(es: seq<Effect>)
    requires |es| <= 2
    ensures es == [] ==> Jobs(es) == [] && Emitted(es) == []
    ensures |es| == 1 ==> Jobs(es) == (if es[0].Write? then [es[0].w] else [])
                          && Emitted(es) == (if es[0].Emit? then [es[0].m] else [])
    ensures |es| == 2 && es[0].Write? && es[1].Write? ==> Jobs(es) == [es[0].w, es[1].w] && Emitted(es) == []
  {
    if |es| == 2 {
      assert es[1..] == [es[1]];
      FewEffects(es[1..]);
    } else if |es| == 1 {
      assert es[1..] == [];
    }
  }

  /** A frame makes the context ask for its connection, or leaves the rest of the session alone. */
  predicate Asks(x: Ctx, r: Outcome) {
    r.Ok? ==>
      && Plain(Jobs(r.effects))
      && (Rank(r.ctx.status) == 3 && Rank(x.status) < 3 ==>
            && Jobs(r.effects) == [] && |Emitted(r.effects)| == 1
            && Emitted(r.effects)[0].I2oConnect? && Emitted(r.effects)[0].isTcp == TcpMode(r.ctx))
      && (Rank(r.ctx.status) < 3 ==> Emitted(r.effects) == [])
      && (Rank(x.status) < 3 ==> Rank(r.ctx.status) <= 3)
      && (Rank(x.status) >= 3 ==> r.ctx == x && Jobs(r.effects) == [] && Emitted(r.effects) == [])
      && (r.ctx.target.Some? <==> Rank(r.ctx.status) >= 3)
  }

  /** What a context may make of a request: it waits, asks for a connection, or refuses. */
  datatype Reaction = Waits | AsksFor(m: ProxyMessage) | Refuses

  function ReactionTo(r: Outcome): (k: Reaction)
    requires r.Ok?
  {
    if r.effects == [] then Waits else if r.effects[0].Emit? then AsksFor(r.effects[0].m) else Refuses
  }

  lemma ConnectReacts(u: Setup, x: Ctx)
    requires x.status.Connect? && OnConnect(u, x).Ok?
    ensures var r := OnConnect(u, x);
      match ReactionTo(r)
      case Waits => r == Ok(x, [])
      case AsksFor(m) => r.effects == [Emit(m)] && m.I2oConnect? && r.ctx.status == Connecting(m.isTcp) && r.ctx.target.Some?
      case Refuses => r.effects == Refusal(Reply(7), 1000) && r.ctx.status.Connect? && r.ctx.target == x.target
  {
  }

  lemma ConnectAsks(u: Setup, x: Ctx)
    requires x.status.Connect? && x.target.None?
    ensures Asks(x, OnConnect(u, x))
  {
    var r := OnConnect(u, x);
    if r.Ok? {
      ConnectReacts(u, x);
      ReactionAsks(x, r);
    }
  }

  lemma ReactionAsks(x: Ctx, r: Outcome)
    requires x.status.Connect? && x.target.None? && r.Ok?
    requires match ReactionTo(r)
      case Waits => r == Ok(x, [])
      case AsksFor(m) => r.effects == [Emit(m)] && m.I2oConnect? && r.ctx.status == Connecting(m.isTcp) && r.ctx.target.Some?
      case Refuses => r.effects == Refusal(Reply(7), 1000) && r.ctx.status.Connect? && r.ctx.target == x.target
    ensures Asks(x, r)
  {
    FewEffects(r.effects);
  }

  lemma FrameAsks(u: Setup, x: Ctx, frame: Bytes)
    requires x.target.Some? <==> Rank(x.status) >= 3
    ensures Asks(x, RecvFrame(u, x, frame))
  {
    var buffered := x.(buffer := x.buffer + frame);
    match x.status
    case Init => InitAsks(u, buffered);
    case Verification => VerificationAsks(u, buffered);
    case Connect => ConnectAsks(u, buffered);
    case RunWithTcp => FewEffects([Relay(frame)]);
    case _ => FewEffects([]);
  }

  lemma InitAsks(u: Setup, x: Ctx)
    requires x.status.Init? && x.target.None?
    ensures Asks(x, OnInit(u, x))
  {
    InitAdds(u, x);
    FewEffects(OnInit(u, x).effects);
  }

  lemma VerificationAsks(u: Setup, x: Ctx)
    requires x.status.Verification? && x.target.None?
    ensures Asks(x, OnVerification(u, x))
  {
    var r := OnVerification(u, x);
    if r.Ok? {
      FewEffects(r.effects);
    }
  }

  lemma {:induction false} PlainJobs(jobs: seq<WriterMessage>, more: seq<WriterMessage>)
    requires Plain(more)
    ensures Unwritten(jobs + more) == Unwritten(jobs)
    decreases |more|
  {
    if more == [] {
      assert jobs + more == jobs;
    } else {
      WriterAppend(jobs, more[0]);
      assert jobs + more == (jobs + [more[0]]) + more[1..];
      PlainJobs(jobs + [more[0]], more[1..]);
    }
  }

  /** The reply stays first: payload comes only while running, and running starts with the reply. */
  lemma JobsKeepReplyFirst(running: bool, jobs: seq<WriterMessage>, more: seq<WriterMessage>, running': bool)
    requires ReplyFirst(running, jobs) && (Plain(more) || running)
    requires running' ==> running || (more != [] && IsSuccessJob(more[0]))
    ensures ReplyFirst(running', jobs + more)
  {
    assert forall i | 0 <= i < |jobs| :: (jobs + more)[i] == jobs[i];
    assert forall k | Answered(jobs, k) :: Answered(jobs + more, k);
    if more != [] {
      assert (jobs + more)[|jobs|] == more[0];
    }
  }

  lemma ClientKeepsInv(c: Coder, cfg: Config, u: Setup, j: Joint, frame: Bytes)
    requires JointInv(c, cfg, j) && j.alive
    ensures JointInv(c, cfg, JointStep(c, cfg, u, j, ClientSends(frame)))
  {
    FrameAsks(u, j.x, frame);
    var r := RecvFrame(u, j.x, frame);
    if r.Ok? {
      JobsKeepReplyFirst(j.x.status.RunWithTcp?, j.jobs, Jobs(r.effects), r.ctx.status.RunWithTcp?);
      PlainJobs(j.jobs, Jobs(r.effects));
      assert j.jobs + [] == j.jobs && j.i2o + [] == j.i2o && [] + Emitted(r.effects) == Emitted(r.effects);
    }
  }

  // ---------------------------------------------------------------- the outlet

  /** What the outlet adds to its queue keeps the order. */
  lemma OutletSpeaks(tcp: bool, running: bool, inbox: Queue, o2i: Queue, before: Outlet, m: ProxyMessage, after: Outlet)
    requires Queued(tcp, running, inbox, o2i, before)
    requires m.O2iConnect? || (m.O2iDisconnect? && !after.Up?) || (m.O2iRecvData? && before == Up(true) && after == before)
    requires after.Up? ==> before == after || (after.isTcp == tcp && IsYes(m) && o2i == [])
    ensures Queued(tcp, running, inbox, o2i + [m], after)
  {
    SafeAppend(o2i, Ready(inbox, running), m);
    var q := o2i + [m];
    assert q[|o2i|] == m;
    assert forall k | 0 <= k < |o2i| :: q[k] == o2i[k];
  }

  lemma SpokenIsWhole(c: Coder, cfg: Config, jobs: seq<WriterMessage>, inbox: Queue, o2i: Queue, sent: Bytes, m: ProxyMessage)
    requires Whole(c, cfg, jobs, inbox, o2i, sent) && (IsData(m) ==> c.decode(cfg, m.data).Some?)
    ensures Whole(c, cfg, jobs, inbox, o2i + [m], sent + PlainOf(c, cfg, m))
  {
    PayloadAppend(c, cfg, o2i, m);
    Reassociate(Unwritten(jobs) + Flows.Payload(c, cfg, inbox), Flows.Payload(c, cfg, o2i), PlainOf(c, cfg, m));
    assert forall k | 0 <= k < |o2i| :: (o2i + [m])[k] == o2i[k];
  }

  lemma OutletKeepsInv(c: Coder, cfg: Config, u: Setup, j: Joint, e: JointEvent)
    requires Faithful(c) && JointInv(c, cfg, j)
    requires e.OutletDials? || e.OutletAnswers? || e.OutletReads? || e.OutletCloses?
    ensures JointInv(c, cfg, JointStep(c, cfg, u, j, e))
  {
    var j' := JointStep(c, cfg, u, j, e);
    if j.alive && j' != j {
      var m := j'.o2i[|j'.o2i| - 1];
      assert j'.o2i == j.o2i + [m];
      OutletSpeaks(TcpMode(j.x), j.x.status.RunWithTcp?, j.inbox, j.o2i, j.outlet, m, j'.outlet);
      SpokenIsWhole(c, cfg, j.jobs, j.inbox, j.o2i, j.sent, m);
    }
  }

  // ---------------------------------------------------------------- the inlet and the context

  lemma TailOf(q: Queue)
    requires q != []
    ensures forall k | 0 <= k < |q[1..]| :: q[1..][k] == q[k + 1]
    ensures HasData(q[1..]) ==> HasData(q)
    ensures HasBye(q[1..]) ==> HasBye(q)
  {
  }

  lemma {:induction false} HeadAndTail(c: Coder, cfg: Config, q: Queue)
    requires q != [] && Decodable(c, cfg, q)
    ensures Decodable(c, cfg, q[1..]) && (IsData(q[0]) ==> c.decode(cfg, q[0].data).Some?)
    ensures Flows.Payload(c, cfg, q) == PlainOf(c, cfg, q[0]) + Flows.Payload(c, cfg, q[1..])
  {
  }

  lemma Regroup(a: Bytes, b: Bytes, c: Bytes, d: Bytes)
    ensures a + b + (c + d) == a + (b + c) + d
  {
  }

  lemma ForwardedIsWhole(c: Coder, cfg: Config, jobs: seq<WriterMessage>, inbox: Queue, o2i: Queue, sent: Bytes)
    requires Whole(c, cfg, jobs, inbox, o2i, sent) && o2i != []
    ensures Whole(c, cfg, jobs, inbox + [o2i[0]], o2i[1..], sent)
  {
    HeadAndTail(c, cfg, o2i);
    PayloadAppend(c, cfg, inbox, o2i[0]);
    Regroup(Unwritten(jobs), Flows.Payload(c, cfg, inbox), PlainOf(c, cfg, o2i[0]), Flows.Payload(c, cfg, o2i[1..]));
  }

  lemma DroppedIsWhole(c: Coder, cfg: Config, jobs: seq<WriterMessage>, inbox: Queue, o2i: Queue, sent: Bytes)
    requires Whole(c, cfg, jobs, inbox, o2i, sent)
    ensures o2i != [] && !IsData(o2i[0]) ==> Whole(c, cfg, jobs, inbox, o2i[1..], sent)
    ensures inbox != [] && !IsData(inbox[0]) ==> Whole(c, cfg, jobs, inbox[1..], o2i, sent)
  {
    if o2i != [] {
      HeadAndTail(c, cfg, o2i);
    }
    if inbox != [] {
      HeadAndTail(c, cfg, inbox);
    }
  }

  lemma TakenIsWhole(c: Coder, cfg: Config, jobs: seq<WriterMessage>, inbox: Queue, o2i: Queue, sent: Bytes, w: WriterMessage)
    requires Whole(c, cfg, jobs, inbox, o2i, sent) && inbox != [] && IsData(inbox[0])
    requires w.SendAndThen? && c.decode(cfg, inbox[0].data) == Some(w.data)
    ensures Whole(c, cfg, jobs + [w], inbox[1..], o2i, sent)
  {
    HeadAndTail(c, cfg, inbox);
    WriterAppend(jobs, w);
    var p, q := Flows.Payload(c, cfg, inbox[1..]), Flows.Payload(c, cfg, o2i);
    assert Unwritten(jobs) + (w.data + p) + q == (Unwritten(jobs) + w.data) + p + q;
  }

  lemma QueuedIsWhole(c: Coder, cfg: Config, jobs: seq<WriterMessage>, more: seq<WriterMessage>, inbox: Queue, o2i: Queue, sent: Bytes)
    requires Whole(c, cfg, jobs, inbox, o2i, sent) && Plain(more)
    ensures Whole(c, cfg, jobs + more, inbox, o2i, sent)
  {
    PlainJobs(jobs, more);
  }

  lemma Forwarded(tcp: bool, running: bool, inbox: Queue, o2i: Queue, outlet: Outlet)
    requires Queued(tcp, running, inbox, o2i, outlet) && o2i != [] && !o2i[0].O2iDisconnect?
    ensures Queued(tcp, running, inbox + [o2i[0]], o2i[1..], outlet)
  {
    var m := o2i[0];
    TailOf(o2i);
    SafeAppend(inbox, running, m);
    assert (inbox + [m])[|inbox|] == m;
    assert forall k | 0 <= k < |inbox| :: (inbox + [m])[k] == inbox[k];
    if HasData(inbox + [m]) {
      var k :| 0 <= k < |inbox + [m]| && IsData((inbox + [m])[k]);
      assert k < |inbox| ==> IsData(inbox[k]);
      assert k == |inbox| ==> IsData(o2i[0]);
    }
  }

  lemma ByeHandled(tcp: bool, running: bool, inbox: Queue, o2i: Queue, outlet: Outlet)
    requires Queued(tcp, running, inbox, o2i, outlet) && o2i != [] && o2i[0].O2iDisconnect?
    ensures Queued(tcp, running, inbox, o2i[1..], outlet) && !HasData(o2i[1..])
  {
    TailOf(o2i);
    assert HasBye(o2i);
  }

  lemma InletKeepsInv(c: Coder, cfg: Config, u: Setup, j: Joint)
    requires JointInv(c, cfg, j) && j.alive && j.o2i != []
    ensures JointInv(c, cfg, JointStep(c, cfg, u, j, InletHandles))
  {
    var m := j.o2i[0];
    if m.O2iDisconnect? {
      ByeHandled(TcpMode(j.x), j.x.status.RunWithTcp?, j.inbox, j.o2i, j.outlet);
      JobsKeepReplyFirst(j.x.status.RunWithTcp?, j.jobs, [Close], j.x.status.RunWithTcp?);
      DroppedIsWhole(c, cfg, j.jobs, j.inbox, j.o2i, j.sent);
      QueuedIsWhole(c, cfg, j.jobs, [Close], j.inbox, j.o2i[1..], j.sent);
    } else {
      Forwarded(TcpMode(j.x), j.x.status.RunWithTcp?, j.inbox, j.o2i, j.outlet);
      ForwardedIsWhole(c, cfg, j.jobs, j.inbox, j.o2i, j.sent);
    }
  }

  lemma {:induction false} NoDataIsSafe(q: Queue, running: bool)
    requires !HasData(q)
    ensures Safe(q, running)
  {
    if q != [] {
      TailOf(q);
      NoDataIsSafe(q[1..], running || IsYes(q[0]));
    }
  }

  /** The context takes an answer; in UDP mode no payload was ever on its way. */
  lemma AnswerTaken(tcp: bool, running: bool, inbox: Queue, o2i: Queue, outlet: Outlet)
    requires Queued(tcp, running, inbox, o2i, outlet) && inbox != [] && inbox[0].O2iConnect?
    ensures Queued(tcp, running || (tcp && IsYes(inbox[0])), inbox[1..], o2i, outlet)
  {
    TailOf(inbox);
    if !tcp {
      NoDataIsSafe(inbox[1..], running);
      NoDataIsSafe(o2i, Ready(inbox[1..], running));
    }
  }

  lemma DataTaken(tcp: bool, inbox: Queue, o2i: Queue, outlet: Outlet)
    requires Queued(tcp, true, inbox, o2i, outlet) && inbox != []
    ensures Queued(tcp, true, inbox[1..], o2i, outlet)
  {
    TailOf(inbox);
  }

  /** What an answer may do to the context, and what it queues to the client. */
  predicate Answers(x: Ctx, success: bool, x': Ctx, more: seq<WriterMessage>) {
    && Plain(more)
    && (x'.status.RunWithTcp? && !x.status.RunWithTcp? ==> more != [] && IsSuccessJob(more[0]))
    && TcpMode(x') == TcpMode(x) && x'.target == x.target
    && (Rank(x'.status) >= 3 <==> Rank(x.status) >= 3)
    && (x.target.Some? && Rank(x.status) >= 3 ==>
          (x'.status.RunWithTcp? <==> x.status.RunWithTcp? || (TcpMode(x) && success)))
  }

  lemma AnswerJobs(x: Ctx, success: bool, bound: Option<u16>)
    ensures var r := OnO2iConnect(x, success, bound);
      r.Ok? && Emitted(r.effects) == [] && Answers(x, success, r.ctx, Jobs(r.effects))
  {
    FewEffects(OnO2iConnect(x, success, bound).effects);
  }

  lemma AnswerKeepsInv(c: Coder, cfg: Config, j: Joint, x': Ctx, more: seq<WriterMessage>)
    requires JointInv(c, cfg, j) && j.alive && j.inbox != [] && j.inbox[0].O2iConnect?
    requires Answers(j.x, j.inbox[0].success, x', more)
    ensures JointInv(c, cfg, j.(x := x', inbox := j.inbox[1..], jobs := j.jobs + more))
  {
    var running := j.x.status.RunWithTcp?;
    AnswerTaken(TcpMode(j.x), running, j.inbox, j.o2i, j.outlet);
    JobsKeepReplyFirst(running, j.jobs, more, x'.status.RunWithTcp?);
    DroppedIsWhole(c, cfg, j.jobs, j.inbox, j.o2i, j.sent);
    QueuedIsWhole(c, cfg, j.jobs, more, j.inbox[1..], j.o2i, j.sent);
  }

  lemma ContextTakesAnswer(c: Coder, cfg: Config, u: Setup, j: Joint, bound: Option<u16>)
    requires JointInv(c, cfg, j) && j.alive && j.inbox != [] && j.inbox[0].O2iConnect?
    ensures JointInv(c, cfg, JointStep(c, cfg, u, j, ContextHandles(bound)))
  {
    AnswerJobs(j.x, j.inbox[0].success, bound);
    var r := OnO2iConnect(j.x, j.inbox[0].success, bound);
    AnswerKeepsInv(c, cfg, j, r.ctx, Jobs(r.effects));
    assert j.i2o + [] == j.i2o;
  }

  /** Payload in the inbox finds the session running. */
  lemma DataFindsRunning(j: Joint)
    requires InOrder(j) && j.inbox != [] && j.inbox[0].O2iRecvData?
    ensures j.x.status.RunWithTcp?
  {
  }

  lemma DataKeepsInv(c: Coder, cfg: Config, j: Joint, w: WriterMessage)
    requires JointInv(c, cfg, j) && j.alive && j.inbox != [] && j.inbox[0].O2iRecvData? && j.x.status.RunWithTcp?
    requires w.SendAndThen? && c.decode(cfg, j.inbox[0].data) == Some(w.data)
    ensures JointInv(c, cfg, j.(inbox := j.inbox[1..], jobs := j.jobs + [w]))
  {
    DataTaken(true, j.inbox, j.o2i, j.outlet);
    JobsKeepReplyFirst(true, j.jobs, [w], true);
    TakenIsWhole(c, cfg, j.jobs, j.inbox, j.o2i, j.sent, w);
  }

  lemma ContextTakesData(c: Coder, cfg: Config, u: Setup, j: Joint, bound: Option<u16>)
    requires JointInv(c, cfg, j) && j.alive && j.inbox != [] && j.inbox[0].O2iRecvData?
    ensures JointInv(c, cfg, JointStep(c, cfg, u, j, ContextHandles(bound)))
  {
    var data := j.inbox[0].data;
    DataFindsRunning(j);
    HeadAndTail(c, cfg, j.inbox);
    var w := SendAndThen(c.decode(cfg, data).value, |data|);
    DataKeepsInv(c, cfg, j, w);
    DataStep(c, cfg, u, j, bound);
  }

  lemma DataStep(c: Coder, cfg: Config, u: Setup, j: Joint, bound: Option<u16>)
    requires j.alive && j.inbox != [] && j.inbox[0].O2iRecvData? && j.x.status.RunWithTcp?
    requires c.decode(cfg, j.inbox[0].data).Some?
    ensures var data := j.inbox[0].data;
      JointStep(c, cfg, u, j, ContextHandles(bound))
        == j.(inbox := j.inbox[1..], jobs := j.jobs + [SendAndThen(c.decode(cfg, data).value, |data|)])
  {
    var data := j.inbox[0].data;
    FewEffects([Write(SendAndThen(c.decode(cfg, data).value, |data|))]);
    assert j.i2o + [] == j.i2o;
  }

  lemma JointStepKeepsInv(c: Coder, cfg: Config, u: Setup, j: Joint, e: JointEvent)
    requires Faithful(c) && JointInv(c, cfg, j)
    ensures JointInv(c, cfg, JointStep(c, cfg, u, j, e))
  {
    match e
    case ClientSends(frame) =>
      if j.alive {
        ClientKeepsInv(c, cfg, u, j, frame);
      }
    case InletHandles =>
      if j.o2i != [] && j.alive {
        InletKeepsInv(c, cfg, u, j);
      }
    case ContextHandles(bound) =>
      if j.inbox != [] && j.alive {
        if j.inbox[0].O2iConnect? {
          ContextTakesAnswer(c, cfg, u, j, bound);
        } else {
          ContextTakesData(c, cfg, u, j, bound);
        }
      }
    case SessionEnds =>
    case _ => OutletKeepsInv(c, cfg, u, j, e);
  }

  function JointRun(c: Coder, cfg: Config, u: Setup, j: Joint, es: seq<JointEvent>): (r: Joint)
    decreases |es|
  {
    if es == [] then j else JointRun(c, cfg, u, JointStep(c, cfg, u, j, es[0]), es[1..])
  }

  lemma {:induction false} JointRunKeepsInv(c: Coder, cfg: Config, u: Setup, j: Joint, es: seq<JointEvent>)
    requires Faithful(c) && JointInv(c, cfg, j)
    ensures JointInv(c, cfg, JointRun(c, cfg, u, j, es))
    decreases |es|
  {
    if es != [] {
      JointStepKeepsInv(c, cfg, u, j, es[0]);
      JointRunKeepsInv(c, cfg, u, JointStep(c, cfg, u, j, es[0]), es[1..]);
    }
  }

  /** However the parties interleave, the client gets its success reply first and no payload meets a wrong status. */
  lemma ReplyBeforePayload(c: Coder, cfg: Config, u: Setup, es: seq<JointEvent>)
    requires Faithful(c)
    ensures var j := JointRun(c, cfg, u, OPENED, es);
      && j.strays == 0
      && (forall k | 0 <= k < |j.jobs| && j.jobs[k].SendAndThen? :: Answered(j.jobs, k))
  {
    JointRunKeepsInv(c, cfg, u, OPENED, es);
  }

  // ---------------------------------------------------------------- closing

  /** With a goodbye at the head, behind which there is no data, what is not yet queued to the writer is in the inbox. */
  lemma LeftInInbox(c: Coder, cfg: Config, jobs: seq<WriterMessage>, inbox: Queue, o2i: Queue, sent: Bytes)
    requires Whole(c, cfg, jobs, inbox, o2i, sent) && o2i != [] && o2i[0].O2iDisconnect? && !HasData(o2i[1..])
    ensures Unwritten(jobs) == sent <==> Flows.Payload(c, cfg, inbox) == []
  {
    NoDataNoPayload(c, cfg, o2i[1..]);
    HeadAndTail(c, cfg, o2i);
    assert Flows.Payload(c, cfg, o2i) == [];
    assert sent == Unwritten(jobs) + Flows.Payload(c, cfg, inbox);
  }

  lemma GoodbyeHandled(c: Coder, cfg: Config, u: Setup, j: Joint)
    requires JointInv(c, cfg, j) && j.alive && j.o2i != [] && j.o2i[0].O2iDisconnect?
    ensures var j' := JointStep(c, cfg, u, j, InletHandles);
      && j'.jobs == j.jobs + [Close] && j'.sent == j.sent
      && (Unwritten(j.jobs) == j'.sent <==> Flows.Payload(c, cfg, j.inbox) == [])
  {
    ByeHandled(TcpMode(j.x), j.x.status.RunWithTcp?, j.inbox, j.o2i, j.outlet);
    LeftInInbox(c, cfg, j.jobs, j.inbox, j.o2i, j.sent);
  }

  /**
   * When the outlet's goodbye is handled, Close joins the writer's jobs.  What stands before it is
   * everything that was sent exactly when no payload is left in the context's own queue.
   */
  lemma SocksDrainsIff(c: Coder, cfg: Config, u: Setup, es: seq<JointEvent>)
    requires Faithful(c)
    requires var j := JointRun(c, cfg, u, OPENED, es); j.alive && j.o2i != [] && j.o2i[0].O2iDisconnect?
    ensures var j := JointRun(c, cfg, u, OPENED, es);
      var j' := JointStep(c, cfg, u, j, InletHandles);
      && j'.jobs == j.jobs + [Close]
      && (Unwritten(j.jobs) == j'.sent <==> Flows.Payload(c, cfg, j.inbox) == [])
  {
    JointRunKeepsInv(c, cfg, u, OPENED, es);
    GoodbyeHandled(c, cfg, u, JointRun(c, cfg, u, OPENED, es));
  }

  const CLEAR := Config(false, NoCipher, [])

  lemma {:induction false} JointRunSnoc(c: Coder, cfg: Config, u: Setup, j: Joint, es: seq<JointEvent>, e: JointEvent)
    ensures JointRun(c, cfg, u, j, es + [e]) == JointStep(c, cfg, u, JointRun(c, cfg, u, j, es), e)
    decreases |es|
  {
    if es == [] {
      assert es + [e] == [e];
    } else {
      assert (es + [e])[1..] == es[1..] + [e];
      JointRunSnoc(c, cfg, u, JointStep(c, cfg, u, j, es[0]), es[1..], e);
    }
  }

  const GREETING: Bytes := [5, 1, 0]
  const REQUEST: Bytes := [5, 1, 0, 1, 9, 9, 9, 9, 0, 80]
  const CHOICE := Send([VERSION, METHOD_NONE], true)

  lemma Greeted(c: Coder, cfg: Config, u: Setup)
    requires !NeedsPassword(u)
    ensures JointStep(c, cfg, u, OPENED, ClientSends(GREETING)) == OPENED.(x := Ctx(Connect, [], None), jobs := [CHOICE])
  {
    assert [] + GREETING == GREETING && GREETING[2..3] == [0] && GREETING[3..] == [];
    FewEffects([Write(CHOICE)]);
  }

  lemma RequestServed(u: Setup)
    ensures var r := RecvFrame(u, Ctx(Connect, [], None), REQUEST);
      && r.Ok? && |r.effects| == 1 && r.effects[0].Emit? && r.effects[0].m.I2oConnect? && r.effects[0].m.isTcp
      && r.ctx.status == Connecting(true) && r.ctx.target.Some?
  {
    var b := [] + REQUEST;
    assert b == REQUEST && |b[4..]| == 6 && b[3] == 1;
  }

  lemma Requested(c: Coder, cfg: Config, u: Setup, j: Joint)
    requires j == OPENED.(x := Ctx(Connect, [], None), jobs := [CHOICE])
    ensures var j' := JointStep(c, cfg, u, j, ClientSends(REQUEST));
      && |j'.i2o| == 1 && j'.i2o[0].I2oConnect? && j'.i2o[0].isTcp
      && j' == j.(x := j'.x, i2o := j'.i2o) && j'.x.status == Connecting(true) && j'.x.target.Some?
  {
    RequestServed(u);
    FewEffects(RecvFrame(u, j.x, REQUEST).effects);
    assert [CHOICE] + [] == [CHOICE] && [] + Emitted(RecvFrame(u, j.x, REQUEST).effects) == Emitted(RecvFrame(u, j.x, REQUEST).effects);
  }

  lemma Dialled(lib: Lib, u: Setup, j: Joint)
    requires |j.i2o| == 1 && j.i2o[0].I2oConnect? && j.i2o[0].isTcp && !j.owesAnswer && j.o2i == [] && j.sent == []
    ensures var j1 := JointStep(NpipeCoder(lib), CLEAR, u, j, OutletDials(true));
      var j2 := JointStep(NpipeCoder(lib), CLEAR, u, j1, OutletReads([7], []));
      var j3 := JointStep(NpipeCoder(lib), CLEAR, u, j2, OutletCloses);
      && j3.o2i == [O2iConnect(u.sid, true, ""), O2iRecvData(u.sid, [7]), O2iDisconnect(u.sid)]
      && j3.sent == [7] && j3.alive == j.alive && j3.jobs == j.jobs
  {
    assert NpipeCoder(lib).encode(CLEAR, [], [7]) == Some([7]);
  }

  lemma PassedOn(c: Coder, cfg: Config, u: Setup, j: Joint)
    requires j.alive && |j.o2i| == 3 && !j.o2i[0].O2iDisconnect? && !j.o2i[1].O2iDisconnect? && j.o2i[2].O2iDisconnect?
    ensures var j1 := JointStep(c, cfg, u, j, InletHandles);
      var j2 := JointStep(c, cfg, u, j1, InletHandles);
      var j3 := JointStep(c, cfg, u, j2, InletHandles);
      j3.alive && j3.jobs == j.jobs + [Close] && j3.sent == j.sent
  {
  }

  /** Unlike in a TCP tunnel, Close can overtake data: here it is queued while a byte still waits for the context. */
  lemma CloseOvertakesData(lib: Lib, u: Setup) returns (es: seq<JointEvent>)
    requires !NeedsPassword(u)
    ensures var j := JointRun(NpipeCoder(lib), CLEAR, u, OPENED, es);
      j.alive && j.sent == [7] && j.jobs == [CHOICE, Close]
  {
    var c, cfg := NpipeCoder(lib), CLEAR;
    Greeted(c, cfg, u);
    JointRunSnoc(c, cfg, u, OPENED, [], ClientSends(GREETING));
    var j1 := JointRun(c, cfg, u, OPENED, [] + [ClientSends(GREETING)]);
    Requested(c, cfg, u, j1);
    JointRunSnoc(c, cfg, u, OPENED, [] + [ClientSends(GREETING)], ClientSends(REQUEST));
    var opening := [] + [ClientSends(GREETING)] + [ClientSends(REQUEST)];
    var j2 := JointRun(c, cfg, u, OPENED, opening);
    Dialled(lib, u, j2);
    var j3 := JointStep(c, cfg, u, j2, OutletDials(true));
    var j4 := JointStep(c, cfg, u, j3, OutletReads([7], []));
    var j5 := JointStep(c, cfg, u, j4, OutletCloses);
    PassedOn(c, cfg, u, j5);
    var dialling := opening + [OutletDials(true)];
    var reading := dialling + [OutletReads([7], [])];
    var closing := reading + [OutletCloses];
    JointRunSnoc(c, cfg, u, OPENED, opening, OutletDials(true));
    JointRunSnoc(c, cfg, u, OPENED, dialling, OutletReads([7], []));
    JointRunSnoc(c, cfg, u, OPENED, reading, OutletCloses);
    JointRunSnoc(c, cfg, u, OPENED, closing, InletHandles);
    JointRunSnoc(c, cfg, u, OPENED, closing + [InletHandles], InletHandles);
    JointRunSnoc(c, cfg, u, OPENED, closing + [InletHandles] + [InletHandles], InletHandles);
    es := closing + [InletHandles] + [InletHandles] + [InletHandles];
  }
}
