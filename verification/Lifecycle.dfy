/** The life of one session: who may still speak, and in which order the queues hold their words. */
module Lifecycle {
  import opened Bytes
  import opened Codec
  import opened Messages
  import opened Session
  import opened Flows

  /** A message after which the inlet closes its session. */
  predicate IsClosing(m: ProxyMessage) { m.O2iDisconnect? || (m.O2iConnect? && !m.success) }

  predicate Closes(w: seq<WriterMessage>) { exists k :: 0 <= k < |w| && w[k].Close? }

  predicate Announced(q: Queue) { exists k :: 0 <= k < |q| && IsClosing(q[k]) }

  /** Dialled, joined, deregistered, gone. */
  predicate Life(s: State) {
    var l := s.l;
    && (l.inlet.task.Some? ==> l.inlet.task.value.cfg == l.cfg)
    && (l.outlet.task.Some? ==> l.outlet.task.value.cfg == l.cfg && l.dial == Joined)
    && (l.registered ==> l.outlet.task.Some?)
    && (l.dial == Joined ==> l.dialled == Some(l.endpoint))
    && (s.pending ==> l.dial == Joined && (l.outlet.task.Some? ==> l.registered))
    && (l.dial == Waiting ==> s.o2i == [] && s.i2o != [] && s.i2o[0].I2oConnect?)
    && (l.inlet.task.None? && s.i2o == [] ==> !l.registered)
    && (l.outlet.task.Some? && !l.registered ==> l.inlet.task.None? && s.i2o == [])
  }

  /** The inlet's queue: the connect first, the disconnect last. */
  predicate InletQueue(c: Coder, l: Local, q: Queue) {
    && (forall k | 0 <= k < |q| :: q[k].I2oConnect? || q[k].I2oSendData? || q[k].I2oRecvDataResult? || q[k].I2oDisconnect?)
    && (forall k | 0 <= k < |q| && q[k].I2oConnect? ::
          k == 0 && l.dial == Waiting && c.accept(q[k].offer) == Some(l.cfg)
          && q[k].tunnelType == 0 && q[k].isTcp && q[k].addr == l.endpoint)
    && (forall k | 0 <= k < |q| && q[k].I2oDisconnect? :: k == |q| - 1 && l.inlet.task.None?)
    && (l.inlet.task.None? && q != [] ==> q[|q| - 1].I2oDisconnect?)
  }

  /** The outlet's queue: once it says the session is over, no data follows. */
  predicate OutletQueue(running: bool, q: Queue) {
    && (forall k | 0 <= k < |q| :: q[k].O2iConnect? || q[k].O2iRecvData? || q[k].O2iSendDataResult? || q[k].O2iDisconnect?)
    && (running ==> !Announced(q))
    && (forall j, k | 0 <= j < k < |q| && IsClosing(q[j]) :: !IsData(q[k]))
  }

  predicate OutletWriter(w: seq<WriterMessage>, registered: bool) {
    && (forall k | 0 <= k < |w| :: w[k].Close? || w[k].SendAndThen?)
    && (forall k | 0 <= k < |w| && w[k].Close? :: k == |w| - 1 && !registered)
    && (!registered ==> w != [] && w[|w| - 1].Close?)
  }

  /** Closes in the inlet's writer stand behind all its data, and the outlet has nothing more to say. */
  predicate InletWriter(w: seq<WriterMessage>, over: bool, q: Queue) {
    && (forall k | 0 <= k < |w| :: w[k].Close? || w[k].SendAndThen?)
    && (forall j, k | 0 <= j < k < |w| && w[j].Close? :: w[k].Close?)
    && (Closes(w) ==> over && NoData(q))
    && (over ==> Closes(w) || Announced(q))
  }

  /** The outlet will never again speak of the session, beyond a belated connect answer. */
  predicate Over(l: Local) { l.outlet.task.None? && l.dial != Waiting }

  predicate Shape(c: Coder, s: State) {
    && Life(s)
    && InletQueue(c, s.l, s.i2o)
    && OutletQueue(s.l.outlet.task.Some?, s.o2i)
    && (s.l.outlet.task.Some? ==> OutletWriter(s.l.outlet.task.value.writer, s.l.registered))
    && (s.l.inlet.task.Some? ==> InletWriter(s.l.inlet.task.value.writer, Over(s.l), s.o2i))
  }

  // ---------------------------------------------------------------- how queues and writers change

  lemma OutletQueueGrows(running: bool, running': bool, q: Queue, m: ProxyMessage)
    requires OutletQueue(running, q) && (running' ==> running && !IsClosing(m))
    requires m.O2iConnect? || m.O2iSendDataResult? || m.O2iDisconnect? || (m.O2iRecvData? && running)
    ensures OutletQueue(running', q + [m])
    ensures Announced(q + [m]) <==> Announced(q) || IsClosing(m)
    ensures !IsData(m) && NoData(q) ==> NoData(q + [m])
  {
    var q' := q + [m];
    assert q'[|q|] == m;
    assert forall k | 0 <= k < |q| :: q'[k] == q[k];
  }

  lemma OutletQueueShrinks(running: bool, q: Queue)
    requires OutletQueue(running, q) && q != []
    ensures OutletQueue(running, q[1..])
    ensures Announced(q) <==> IsClosing(q[0]) || Announced(q[1..])
    ensures IsClosing(q[0]) || NoData(q) ==> NoData(q[1..])
  {
    assert forall k | 0 <= k < |q[1..]| :: q[1..][k] == q[k + 1];
    if Announced(q) {
      var k :| 0 <= k < |q| && IsClosing(q[k]);
      assert k > 0 ==> IsClosing(q[1..][k - 1]);
    }
  }

  lemma InletWriterGrows(w: seq<WriterMessage>, over: bool, q: Queue, m: WriterMessage, q': Queue)
    requires InletWriter(w, over, q) && (m.Close? || m.SendAndThen?)
    requires m.Close? ==> over && NoData(q')
    requires m.SendAndThen? ==> !NoData(q) && (Announced(q) ==> Announced(q'))
    ensures InletWriter(w + [m], over, q')
  {
    var w' := w + [m];
    assert w'[|w|] == m;
    assert forall k | 0 <= k < |w| :: w'[k] == w[k];
  }

  lemma InletWriterShrinks(w: seq<WriterMessage>, over: bool, q: Queue)
    requires InletWriter(w, over, q) && w != [] && !w[0].Close?
    ensures InletWriter(w[1..], over, q)
  {
    assert forall k | 0 <= k < |w[1..]| :: w[1..][k] == w[k + 1];
    if Closes(w) {
      var k :| 0 <= k < |w| && w[k].Close?;
      assert w[1..][k - 1].Close?;
    }
  }

  // ---------------------------------------------------------------- task steps

  /** What a task step can do to the shape: the writer loses its head, one message is queued, the task may end. */
  predicate Outline(near: Half, far: Half, side: Side, sid: nat, d: Done)
    requires near.task.Some?
  {
    && d.far.task == far.task
    && |d.msgs| <= 1
    && (d.near.task.None? <==> d.msgs == [ByeMsg(side, sid)])
    && (d.near.task.Some? ==>
          && d.near.task.value.cfg == near.task.value.cfg
          && (d.msgs != [] ==> if side == Inlet then d.msgs[0].I2oSendData? || d.msgs[0].I2oRecvDataResult?
                               else d.msgs[0].O2iRecvData? || d.msgs[0].O2iSendDataResult?)
          && WriterAdvances(near.task.value.writer, d.near.task.value.writer))
  }

  predicate WriterAdvances(w: seq<WriterMessage>, w': seq<WriterMessage>) {
    w' == w || (w != [] && !w[0].Close? && w' == w[1..])
  }

  lemma TaskFollowsOutline(c: Coder, near: Half, far: Half, side: Side, sid: nat, e: TaskEvent)
    requires near.task.Some?
    ensures Outline(near, far, side, sid, TaskStep(c, near, far, side, sid, e))
  {
  }

  lemma InletOutlineKeepsShape(c: Coder, s: State, sid: nat, d: Done)
    requires Shape(c, s) && s.l.inlet.task.Some? && Outline(s.l.inlet, s.l.outlet, Inlet, sid, d)
    ensures Shape(c, s.(l := s.l.(inlet := d.near, outlet := d.far), i2o := s.i2o + d.msgs))
  {
    var q := s.i2o + d.msgs;
    assert forall k | 0 <= k < |s.i2o| :: q[k] == s.i2o[k];
    assert d.msgs != [] ==> q[|s.i2o|] == d.msgs[0];
    var w := s.l.inlet.task.value.writer;
    if w != [] && !w[0].Close? {
      InletWriterShrinks(w, Over(s.l), s.o2i);
    }
  }

  lemma OutletOutlineKeepsShape(c: Coder, s: State, sid: nat, d: Done)
    requires Shape(c, s) && s.l.outlet.task.Some? && Outline(s.l.outlet, s.l.inlet, Outlet, sid, d)
    ensures Shape(c, s.(l := s.l.(outlet := d.near, inlet := d.far, registered := s.l.registered && d.near.task.Some?),
                        o2i := s.o2i + d.msgs))
  {
    if d.msgs == [] {
      assert s.o2i + d.msgs == s.o2i;
    } else {
      assert d.msgs == [d.msgs[0]];
      OutletQueueGrows(true, d.near.task.Some?, s.o2i, d.msgs[0]);
    }
  }

  lemma TaskKeepsShape(c: Coder, s: State, sid: nat, side: Side, e: TaskEvent)
    requires Shape(c, s)
    ensures Shape(c, Step(c, s, sid, Task(side, e)))
  {
    var near, far := if side == Inlet then s.l.inlet else s.l.outlet, if side == Inlet then s.l.outlet else s.l.inlet;
    if near.task.None? {
      assert s.i2o + [] == s.i2o && s.o2i + [] == s.o2i;
      assert Step(c, s, sid, Task(side, e)) == s;
    } else {
      var d := TaskStep(c, near, far, side, sid, e);
      TaskFollowsOutline(c, near, far, side, sid, e);
      if side == Inlet {
        InletOutlineKeepsShape(c, s, sid, d);
      } else {
        OutletOutlineKeepsShape(c, s, sid, d);
      }
    }
  }

  // ---------------------------------------------------------------- deliveries

  lemma DeliverO2iKeepsShape(c: Coder, s: State, sid: nat)
    requires Shape(c, s) && s.o2i != []
    requires s.l.inlet.task.Some? && s.o2i[0].O2iRecvData? ==> c.decode(s.l.cfg, s.o2i[0].data).Some?
    ensures Shape(c, Step(c, s, sid, DeliverO2i))
  {
    OutletQueueShrinks(s.l.outlet.task.Some?, s.o2i);
    if s.l.inlet.task.Some? {
      InletInputKeepsWriter(c, s.l, s.l.outlet.task.Some?, s.o2i);
    }
  }

  lemma InletInputKeepsWriter(c: Coder, l: Local, running: bool, q: Queue)
    requires l.inlet.task.Some? && l.inlet.task.value.cfg == l.cfg && q != [] && OutletQueue(running, q)
    requires running == l.outlet.task.Some? && (l.dial == Waiting ==> q == [])
    requires InletWriter(l.inlet.task.value.writer, Over(l), q)
    requires q[0].O2iRecvData? ==> c.decode(l.cfg, q[0].data).Some?
    ensures var l' := InletInput(c, l, q[0]);
      && l'.inlet.task.Some? && l'.inlet.task.value.cfg == l.cfg
      && InletWriter(l'.inlet.task.value.writer, Over(l), q[1..])
      && l'.outlet == l.outlet && l'.registered == l.registered && l'.dial == l.dial
  {
    var m, w := q[0], l.inlet.task.value.writer;
    OutletQueueShrinks(running, q);
    if IsClosing(m) {
      InletWriterGrows(w, Over(l), q, Close, q[1..]);
    } else if m.O2iRecvData? {
      InletWriterGrows(w, Over(l), q, SendAndThen(c.decode(l.cfg, m.data).value, |m.data|), q[1..]);
    }
  }

  /** Behind the connect there is no other. */
  lemma InletQueueDialled(c: Coder, l: Local, l': Local, q: Queue)
    requires InletQueue(c, l, q) && q != [] && q[0].I2oConnect? && l'.inlet == l.inlet
    ensures InletQueue(c, l', q[1..])
    ensures l.inlet.task.None? ==> q[1..] != []
  {
    assert forall k | 0 <= k < |q[1..]| :: q[1..][k] == q[k + 1];
  }

  lemma ConnectKeepsShape(c: Coder, s: State, sid: nat, ok: bool)
    requires Shape(c, s) && s.i2o != [] && !s.pending && s.i2o[0].I2oConnect?
    ensures Shape(c, Step(c, s, sid, DeliverI2o(ok)))
    ensures Step(c, s, sid, DeliverI2o(ok)).o2i == s.o2i + [O2iConnect(s.i2o[0].sid, ok, "")]
  {
    var s', answer := Step(c, s, sid, DeliverI2o(ok)), O2iConnect(s.i2o[0].sid, ok, "");
    InletQueueDialled(c, s.l, s'.l, s.i2o);
    assert s'.o2i == [answer] && s'.o2i[0] == answer;
    assert !ok ==> Announced(s'.o2i);
  }

  lemma InletQueueShrinks(c: Coder, l: Local, l': Local, q: Queue)
    requires InletQueue(c, l, q) && q != [] && !q[0].I2oConnect?
    requires l'.inlet.task == l.inlet.task && l'.cfg == l.cfg && l'.endpoint == l.endpoint && l'.dial == l.dial
    ensures InletQueue(c, l', q[1..])
  {
    assert forall k | 0 <= k < |q[1..]| :: q[1..][k] == q[k + 1];
  }

  lemma DeliverI2oKeepsShape(c: Coder, s: State, sid: nat, ok: bool)
    requires Shape(c, s) && s.i2o != [] && !s.pending && !s.i2o[0].I2oConnect?
    ensures Shape(c, Step(c, s, sid, DeliverI2o(ok)))
    ensures Step(c, s, sid, DeliverI2o(ok)).o2i == s.o2i
  {
    var s' := Step(c, s, sid, DeliverI2o(ok));
    InletQueueShrinks(c, s.l, s'.l, s.i2o);
    assert s'.o2i == s.o2i;
  }

  lemma AnswerKeepsShape(c: Coder, s: State, sid: nat, saw: bool)
    requires Shape(c, s) && s.pending && (saw || !s.l.registered)
    ensures Shape(c, Step(c, s, sid, Answer(saw)))
  {
    OutletQueueGrows(s.l.outlet.task.Some?, s.l.outlet.task.Some?, s.o2i, O2iConnect(sid, saw, ""));
  }
}
