/**
 * A SOCKS5 session whose dial fails: the client is answered with code 4, but unlike in a TCP tunnel nobody
 * closes its session.
 */
module Socks5Dial {
  import opened Bytes
  import opened Codec
  import opened Messages
  import opened Flows
  import opened Socks5
  import opened Socks5Proofs
  import opened Socks5Run

  // ---------------------------------------------------------------- who queues a Close

  predicate NoClose(es: seq<Effect>) { forall k | 0 <= k < |es| :: es[k] != Write(Close) }

  lemma {:induction false} NoCloseNoJob(es: seq<Effect>)
    requires NoClose(es)
    ensures Close !in Jobs(es)
  {
    if es != [] {
      assert forall k | 0 <= k < |es[1..]| :: es[1..][k] == es[k + 1];
      NoCloseNoJob(es[1..]);
    }
  }

  lemma FrameQueuesNoClose(u: Setup, x: Ctx, frame: Bytes)
    ensures RecvFrame(u, x, frame).Ok? ==> Close !in Jobs(RecvFrame(u, x, frame).effects)
  {
    var r := RecvFrame(u, x, frame);
    if r.Ok? {
      if x.status.Connect? {
        ConnectReacts(u, x.(buffer := x.buffer + frame));
      }
      assert NoClose(r.effects);
      NoCloseNoJob(r.effects);
    }
  }

  lemma AnswerQueuesNoClose(x: Ctx, success: bool, bound: Option<u16>)
    ensures Close !in Jobs(OnO2iConnect(x, success, bound).effects)
  {
    assert NoClose(OnO2iConnect(x, success, bound).effects);
    NoCloseNoJob(OnO2iConnect(x, success, bound).effects);
  }

  // ---------------------------------------------------------------- the dial and what became of it

  /** There is an outlet if and only if the dial succeeded; it is gone if and only if its goodbye came. */
  predicate DialInv(j: Joint) {
    j.alive ==>
      && (j.dial == Some(true) <==> j.outlet != Absent)
      && (j.outlet == Down <==> HasBye(j.o2i) || Close in j.jobs)
      && (j.dial.Some? <==> j.i2o == [] && Rank(j.x.status) >= 3)
  }

  lemma ClientKeepsDial(c: Coder, cfg: Config, u: Setup, j: Joint, frame: Bytes)
    requires JointInv(c, cfg, j) && DialInv(j) && j.alive
    ensures DialInv(JointStep(c, cfg, u, j, ClientSends(frame)))
  {
    FrameAsks(u, j.x, frame);
    FrameQueuesNoClose(u, j.x, frame);
    var r := RecvFrame(u, j.x, frame);
    if r.Ok? {
      assert j.i2o + [] == j.i2o;
    }
  }

  /** A queue that gains a message has a goodbye if it had one or this is one. */
  lemma ByeAppend(q: Queue, m: ProxyMessage)
    ensures HasBye(q + [m]) <==> HasBye(q) || m.O2iDisconnect?
  {
    assert (q + [m])[|q|] == m;
    assert forall k | 0 <= k < |q| :: (q + [m])[k] == q[k];
  }

  lemma OutletKeepsDial(c: Coder, cfg: Config, u: Setup, j: Joint, e: JointEvent)
    requires JointInv(c, cfg, j) && DialInv(j) && j.alive
    requires e.OutletDials? || e.OutletAnswers? || e.OutletReads? || e.OutletCloses?
    ensures DialInv(JointStep(c, cfg, u, j, e))
  {
    var j' := JointStep(c, cfg, u, j, e);
    if j' != j {
      var m := j'.o2i[|j'.o2i| - 1];
      assert j'.o2i == j.o2i + [m];
      ByeAppend(j.o2i, m);
    }
  }

  lemma InletKeepsDial(c: Coder, cfg: Config, u: Setup, j: Joint)
    requires JointInv(c, cfg, j) && DialInv(j) && j.alive
    ensures DialInv(JointStep(c, cfg, u, j, InletHandles))
  {
    if j.o2i != [] {
      var q := j.o2i;
      assert HasBye(q) <==> q[0].O2iDisconnect? || HasBye(q[1..]) by {
        TailOf(q);
        if HasBye(q) && !q[0].O2iDisconnect? {
          var k :| 0 <= k < |q| && q[k].O2iDisconnect?;
          assert q[1..][k - 1] == q[k];
        }
      }
      assert Close in j.jobs + [Close];
    }
  }

  lemma AnswerKeepsDial(c: Coder, cfg: Config, u: Setup, j: Joint, bound: Option<u16>)
    requires DialInv(j) && j.alive && j.inbox != [] && j.inbox[0].O2iConnect?
    ensures DialInv(JointStep(c, cfg, u, j, ContextHandles(bound)))
  {
    AnswerJobs(j.x, j.inbox[0].success, bound);
    AnswerQueuesNoClose(j.x, j.inbox[0].success, bound);
    assert j.i2o + [] == j.i2o;
  }

  lemma StepKeepsDial(c: Coder, cfg: Config, u: Setup, j: Joint, e: JointEvent)
    requires JointInv(c, cfg, j) && DialInv(j)
    ensures DialInv(JointStep(c, cfg, u, j, e))
    ensures j.dial.Some? && JointStep(c, cfg, u, j, e).alive ==> JointStep(c, cfg, u, j, e).dial == j.dial
  {
    if j.alive {
      match e
      case ClientSends(frame) => ClientKeepsDial(c, cfg, u, j, frame);
      case InletHandles => InletKeepsDial(c, cfg, u, j);
      case ContextHandles(bound) =>
        if j.inbox != [] {
          if j.inbox[0].O2iConnect? {
            AnswerKeepsDial(c, cfg, u, j, bound);
          } else {
            DataFindsRunning(j);
            HeadAndTail(c, cfg, j.inbox);
            DataStep(c, cfg, u, j, bound);
          }
        }
      case SessionEnds =>
      case _ => OutletKeepsDial(c, cfg, u, j, e);
    }
    AliveOnlyEnds(c, cfg, u, j, e);
  }

  /** A session ends with its client or with a frame its context cannot take, and does not come back; only a dial sets the outcome of the dial. */
  lemma AliveOnlyEnds(c: Coder, cfg: Config, u: Setup, j: Joint, e: JointEvent)
    ensures var j' := JointStep(c, cfg, u, j, e);
      && (j'.alive <==> j.alive && !e.SessionEnds? && (e.ClientSends? ==> RecvFrame(u, j.x, e.frame).Ok?))
      && (j'.dial == j.dial || (e.OutletDials? && j.i2o != [] && j'.dial == Some(e.ok)))
  {
  }

  lemma {:induction false} RunKeepsDial(c: Coder, cfg: Config, u: Setup, j: Joint, es: seq<JointEvent>)
    requires Faithful(c) && JointInv(c, cfg, j) && DialInv(j)
    ensures var j' := JointRun(c, cfg, u, j, es);
      DialInv(j') && (j'.alive ==> j.alive && (j.dial.Some? ==> j'.dial == j.dial))
    decreases |es|
  {
    if es != [] {
      var j' := JointStep(c, cfg, u, j, es[0]);
      JointStepKeepsInv(c, cfg, u, j, es[0]);
      StepKeepsDial(c, cfg, u, j, es[0]);
      AliveOnlyEnds(c, cfg, u, j, es[0]);
      RunKeepsDial(c, cfg, u, j', es[1..]);
    }
  }

  // ---------------------------------------------------------------- both sides agree exactly if the dial succeeds

  /** Nothing is under way between the two sides of a session that has asked for its connection. */
  predicate Settled(j: Joint) {
    j.alive && Rank(j.x.status) >= 3 && j.i2o == [] && j.o2i == [] && j.inbox == [] && !j.owesAnswer
  }

  /** The two sides agree: the outlet is there, or the client's session has been told to close. */
  predicate SidesAgree(j: Joint) { j.outlet.Up? || Close in j.jobs }

  /**
   * Once nothing is under way, the two sides of a SOCKS5 session agree exactly if the dial succeeded: after a
   * failed dial the client's session is left open, without an outlet and without a Close.
   */
  lemma SettledAgreesIff(c: Coder, cfg: Config, u: Setup, es: seq<JointEvent>)
    requires Faithful(c) && Settled(JointRun(c, cfg, u, OPENED, es))
    ensures var j := JointRun(c, cfg, u, OPENED, es);
      j.dial.Some? && (SidesAgree(j) <==> j.dial == Some(true))
  {
    JointRunKeepsInv(c, cfg, u, OPENED, es);
    RunKeepsDial(c, cfg, u, OPENED, es);
  }

  /** The outcome of the dial is settled at the dial, and then nothing but the end of the session changes it. */
  lemma DialIsFinal(c: Coder, cfg: Config, u: Setup, es: seq<JointEvent>, ok: bool, more: seq<JointEvent>)
    requires Faithful(c)
    requires var j := JointRun(c, cfg, u, OPENED, es); j.alive && j.i2o != []
    requires var j := JointRun(c, cfg, u, OPENED, es);
      JointRun(c, cfg, u, JointStep(c, cfg, u, j, OutletDials(ok)), more).alive
    ensures var j := JointRun(c, cfg, u, OPENED, es);
      var j' := JointRun(c, cfg, u, JointStep(c, cfg, u, j, OutletDials(ok)), more);
      && j'.dial == Some(ok)
      && (!ok ==> j'.outlet == Absent && Close !in j'.jobs)
  {
    JointRunKeepsInv(c, cfg, u, OPENED, es);
    RunKeepsDial(c, cfg, u, OPENED, es);
    var j := JointRun(c, cfg, u, OPENED, es);
    JointStepKeepsInv(c, cfg, u, j, OutletDials(ok));
    StepKeepsDial(c, cfg, u, j, OutletDials(ok));
    RunKeepsDial(c, cfg, u, JointStep(c, cfg, u, j, OutletDials(ok)), more);
  }

  // ---------------------------------------------------------------- the failing run

  lemma RefusedByTarget(c: Coder, cfg: Config, u: Setup, j: Joint)
    requires j.alive && |j.i2o| == 1 && j.i2o[0].I2oConnect? && !j.owesAnswer && j.o2i == [] && j.inbox == []
    requires j.x.status == Connecting(true) && j.x.target.Some?
    ensures var j1 := JointStep(c, cfg, u, j, OutletDials(false));
      var j2 := JointStep(c, cfg, u, j1, InletHandles);
      var j3 := JointStep(c, cfg, u, j2, ContextHandles(None));
      j3 == j.(i2o := [], jobs := j.jobs + [Send(Reply(4), true)], dial := Some(false))
  {
    var m := O2iConnect(u.sid, false, "");
    assert [] + [m] == [m] && [m][1..] == [];
    FewEffects([Write(Send(Reply(4), true))]);
    var none: Queue := [];
    assert none + [] == none;
  }

  /** The client's target cannot be reached: it is told so, and its session stays open for as long as it likes. */
  lemma FailedConnectStaysOpen(c: Coder, cfg: Config, u: Setup) returns (es: seq<JointEvent>)
    requires !NeedsPassword(u)
    ensures var j := JointRun(c, cfg, u, OPENED, es);
      && Settled(j) && j.x.status == Connecting(true) && j.outlet == Absent && j.dial == Some(false)
      && j.jobs == [Send([5, 0], true), Send([5, 4, 0, 1, 0, 0, 0, 0, 0, 0], true)]
  {
    Greeted(c, cfg, u);
    JointRunSnoc(c, cfg, u, OPENED, [], ClientSends(GREETING));
    var greeting := [] + [ClientSends(GREETING)];
    var j1 := JointRun(c, cfg, u, OPENED, greeting);
    Requested(c, cfg, u, j1);
    JointRunSnoc(c, cfg, u, OPENED, greeting, ClientSends(REQUEST));
    var asking := greeting + [ClientSends(REQUEST)];
    RefusedByTarget(c, cfg, u, JointRun(c, cfg, u, OPENED, asking));
    var dialling := asking + [OutletDials(false)];
    var handing := dialling + [InletHandles];
    JointRunSnoc(c, cfg, u, OPENED, asking, OutletDials(false));
    JointRunSnoc(c, cfg, u, OPENED, dialling, InletHandles);
    JointRunSnoc(c, cfg, u, OPENED, handing, ContextHandles(None));
    es := handing + [ContextHandles(None)];
  }

  // ---------------------------------------------------------------- and one that goes well

  /** The target is reached, answers twice and sends a byte. */
  lemma ReachedTarget(lib: Lib, u: Setup, j: Joint)
    requires |j.i2o| == 1 && j.i2o[0].I2oConnect? && j.i2o[0].isTcp && !j.owesAnswer && j.o2i == [] && j.sent == []
    ensures var c := NpipeCoder(lib);
      var j1 := JointStep(c, CLEAR, u, j, OutletDials(true));
      var j2 := JointStep(c, CLEAR, u, j1, OutletAnswers(true));
      var j3 := JointStep(c, CLEAR, u, j2, OutletReads([7], []));
      j3 == j.(i2o := [], outlet := Up(true), dial := Some(true), sent := [7],
               o2i := [O2iConnect(u.sid, true, ""), O2iConnect(u.sid, true, ""), O2iRecvData(u.sid, [7])])
  {
    assert NpipeCoder(lib).encode(CLEAR, [], [7]) == Some([7]);
    assert j.i2o[1..] == [];
  }

  /** All of it is passed to the context. */
  lemma Handed(c: Coder, cfg: Config, u: Setup, j: Joint)
    requires j.alive && |j.o2i| == 3 && j.inbox == [] && forall k | 0 <= k < 3 :: !j.o2i[k].O2iDisconnect?
    ensures var j1 := JointStep(c, cfg, u, j, InletHandles);
      var j2 := JointStep(c, cfg, u, j1, InletHandles);
      var j3 := JointStep(c, cfg, u, j2, InletHandles);
      j3 == j.(o2i := [], inbox := j.o2i)
  {
    var q := j.o2i;
    assert q[1..][1..] == q[2..] && q[2..][1..] == [] && [] + [q[0]] + [q[1]] + [q[2]] == q;
  }

  /** The first answer is passed on to the client, the second ignored, and the byte follows. */
  lemma Answered(lib: Lib, u: Setup, j: Joint)
    requires j.alive && j.x.status == Connecting(true) && j.x.target.Some? && j.i2o == []
    requires j.inbox == [O2iConnect(u.sid, true, ""), O2iConnect(u.sid, true, ""), O2iRecvData(u.sid, [7])]
    ensures var c := NpipeCoder(lib);
      var j1 := JointStep(c, CLEAR, u, j, ContextHandles(None));
      var j2 := JointStep(c, CLEAR, u, j1, ContextHandles(None));
      var j3 := JointStep(c, CLEAR, u, j2, ContextHandles(None));
      j3 == j.(x := j.x.(status := RunWithTcp), inbox := [], jobs := j.jobs + [Send(Reply(0), true), SendAndThen([7], 1)])
  {
    var c := NpipeCoder(lib);
    var q, none: Queue := j.inbox, [];
    assert q[1..][1..] == [q[2]] && [q[2]][1..] == [] && none + [] == none;
    FewEffects([Write(Send(Reply(0), true))]);
    FewEffects([]);
    assert c.decode(CLEAR, [7]) == Some([7]);
    FewEffects([Write(SendAndThen([7], 1))]);
    assert j.jobs + [Send(Reply(0), true)] + [] + [SendAndThen([7], 1)] == j.jobs + [Send(Reply(0), true), SendAndThen([7], 1)];
  }

  /** A session that works: the client gets its method, the success reply and then the byte, and nothing else. */
  lemma SuccessfulSession(lib: Lib, u: Setup) returns (es: seq<JointEvent>)
    requires !NeedsPassword(u)
    ensures var j := JointRun(NpipeCoder(lib), CLEAR, u, OPENED, es);
      && Settled(j) && j.x.status == RunWithTcp && j.outlet == Up(true) && j.sent == [7] && j.strays == 0
      && j.jobs == [Send([5, 0], true), Send([5, 0, 0, 1, 0, 0, 0, 0, 0, 0], true), SendAndThen([7], 1)]
  {
    var c, cfg := NpipeCoder(lib), CLEAR;
    Greeted(c, cfg, u);
    JointRunSnoc(c, cfg, u, OPENED, [], ClientSends(GREETING));
    var greeting := [] + [ClientSends(GREETING)];
    Requested(c, cfg, u, JointRun(c, cfg, u, OPENED, greeting));
    JointRunSnoc(c, cfg, u, OPENED, greeting, ClientSends(REQUEST));
    var asking := greeting + [ClientSends(REQUEST)];
    ReachedTarget(lib, u, JointRun(c, cfg, u, OPENED, asking));
    ThreeMore(c, cfg, u, asking, OutletDials(true), OutletAnswers(true), OutletReads([7], []));
    var reading := asking + [OutletDials(true), OutletAnswers(true), OutletReads([7], [])];
    Handed(c, cfg, u, JointRun(c, cfg, u, OPENED, reading));
    ThreeMore(c, cfg, u, reading, InletHandles, InletHandles, InletHandles);
    var handing := reading + [InletHandles, InletHandles, InletHandles];
    Answered(lib, u, JointRun(c, cfg, u, OPENED, handing));
    ThreeMore(c, cfg, u, handing, ContextHandles(None), ContextHandles(None), ContextHandles(None));
    es := handing + [ContextHandles(None), ContextHandles(None), ContextHandles(None)];
  }

  lemma ThreeMore(c: Coder, cfg: Config, u: Setup, es: seq<JointEvent>, a: JointEvent, b: JointEvent, d: JointEvent)
    ensures var j := JointRun(c, cfg, u, OPENED, es);
      JointRun(c, cfg, u, OPENED, es + [a, b, d])
        == JointStep(c, cfg, u, JointStep(c, cfg, u, JointStep(c, cfg, u, j, a), b), d)
  {
    JointRunSnoc(c, cfg, u, OPENED, es, a);
    JointRunSnoc(c, cfg, u, OPENED, es + [a], b);
    JointRunSnoc(c, cfg, u, OPENED, es + [a] + [b], d);
    assert es + [a, b, d] == es + [a] + [b] + [d];
  }
}
