/** The invariant of one tunnel session and the theorems it carries. */
module SessionProofs {
  import opened Bytes
  import opened Codec
  import opened Messages
  import opened Session
  import opened Flows
  import opened Lifecycle

  /** The outlet is there, or will be once the connect is handled. */
  predicate OutletReachable(l: Local) { l.outlet.task.Some? || l.dial == Waiting }

  ghost predicate UpAccount(c: Coder, l: Local, i2o: Queue, o2i: Queue) {
    && Credit(true, l.inlet, i2o, l.outlet, o2i)
    && Stream(c, l.cfg, OutletReachable(l), l.inlet, i2o, l.outlet)
  }

  ghost predicate DownAccount(c: Coder, l: Local, i2o: Queue, o2i: Queue) {
    && Credit(l.registered, l.outlet, o2i, l.inlet, i2o)
    && Stream(c, l.cfg, l.inlet.task.Some?, l.outlet, o2i, l.inlet)
  }

  ghost predicate Accounts(c: Coder, l: Local, i2o: Queue, o2i: Queue) {
    UpAccount(c, l, i2o, o2i) && DownAccount(c, l, i2o, o2i)
  }

  /** Until the connect is handled nothing has moved on the way down. */
  predicate Untouched(s: State) {
    s.l.dial == Waiting ==>
      && s.l.outlet == Idling(None)
      && AckLen(s.i2o) == 0
      && (s.l.inlet.task.Some? ==> s.l.inlet.task.value.writer == [])
  }

  ghost predicate Inv(c: Coder, s: State) {
    Shape(c, s) && Accounts(c, s.l, s.i2o, s.o2i) && Untouched(s)
  }

  lemma StartEstablishesInv(c: Coder, sid: nat, cfg: Config, addr: string)
    requires Faithful(c)
    ensures Inv(c, Start(c, sid, cfg, addr))
  {
    StartHasShape(c, sid, cfg, addr);
    ConnectIsEmpty(c, cfg, ConnectMsg(c, sid, cfg, addr));
  }

  lemma StartHasShape(c: Coder, sid: nat, cfg: Config, addr: string)
    requires Faithful(c)
    ensures Shape(c, Start(c, sid, cfg, addr))
  {
    assert c.accept(c.offer(cfg)) == Some(cfg);
  }

  lemma ConnectIsEmpty(c: Coder, cfg: Config, m: ProxyMessage)
    requires m.I2oConnect?
    ensures DataLen([m]) == 0 && AckLen([m]) == 0 && Payload(c, cfg, [m]) == [] && Decodable(c, cfg, [m])
  {
    assert [] + [m] == [m];
    LengthsAppend([], m);
    PayloadAppend(c, cfg, [], m);
  }

  lemma TaskKeepsUntouched(c: Coder, s: State, sid: nat, side: Side, e: TaskEvent)
    requires Shape(c, s) && Untouched(s)
    ensures Untouched(Step(c, s, sid, Task(side, e)))
  {
    if s.l.dial == Waiting && side == Inlet && s.l.inlet.task.Some? {
      var d := TaskStep(c, s.l.inlet, s.l.outlet, side, sid, e);
      TaskFollowsOutline(c, s.l.inlet, s.l.outlet, side, sid, e);
      if d.msgs == [] {
        assert s.i2o + d.msgs == s.i2o;
      } else {
        LengthsAppend(s.i2o, d.msgs[0]);
        assert d.msgs == [d.msgs[0]];
      }
    } else {
      assert s.i2o + [] == s.i2o;
    }
  }

  lemma InletTaskKeepsAccounts(c: Coder, l: Local, i2o: Queue, o2i: Queue, sid: nat, e: TaskEvent)
    requires Faithful(c) && l.inlet.task.Some? && l.inlet.task.value.cfg == l.cfg && Accounts(c, l, i2o, o2i)
    ensures var d := TaskStep(c, l.inlet, l.outlet, Inlet, sid, e);
      Accounts(c, l.(inlet := d.near, outlet := d.far), i2o + d.msgs, o2i)
  {
    TaskFollowsOutline(c, l.inlet, l.outlet, Inlet, sid, e);
    TaskKeepsNearCredit(c, true, l.inlet, i2o, l.outlet, o2i, Inlet, sid, e);
    TaskKeepsFarCredit(c, l.registered, l.inlet, i2o, l.outlet, o2i, Inlet, sid, e);
    TaskKeepsNearStream(c, l.cfg, OutletReachable(l), l.inlet, i2o, l.outlet, Inlet, sid, e);
    TaskKeepsFarStream(c, l.cfg, l.inlet, o2i, l.outlet, Inlet, sid, e);
  }

  lemma OutletTaskKeepsAccounts(c: Coder, l: Local, i2o: Queue, o2i: Queue, sid: nat, e: TaskEvent)
    requires Faithful(c) && l.outlet.task.Some? && l.outlet.task.value.cfg == l.cfg && l.dial == Joined
    requires Accounts(c, l, i2o, o2i)
    ensures var d := TaskStep(c, l.outlet, l.inlet, Outlet, sid, e);
      Accounts(c, l.(outlet := d.near, inlet := d.far, registered := l.registered && d.near.task.Some?), i2o, o2i + d.msgs)
  {
    TaskFollowsOutline(c, l.outlet, l.inlet, Outlet, sid, e);
    TaskKeepsNearCredit(c, l.registered, l.outlet, o2i, l.inlet, i2o, Outlet, sid, e);
    TaskKeepsFarCredit(c, true, l.outlet, o2i, l.inlet, i2o, Outlet, sid, e);
    TaskKeepsNearStream(c, l.cfg, l.inlet.task.Some?, l.outlet, o2i, l.inlet, Outlet, sid, e);
    TaskKeepsFarStream(c, l.cfg, l.outlet, i2o, l.inlet, Outlet, sid, e);
  }

  /** Data that comes down is taken, or lost if the inlet is gone. */
  lemma DataO2iKeepsAccounts(c: Coder, l: Local, i2o: Queue, o2i: Queue)
    requires o2i != [] && o2i[0].O2iRecvData? && (l.inlet.task.Some? ==> l.inlet.task.value.cfg == l.cfg)
    requires Accounts(c, l, i2o, o2i)
    ensures var down, data := l.inlet.task.Some?, o2i[0].data;
      Accounts(c, l.(inlet := Taken(c, l.inlet, down, data), outlet := Lost(c, l.outlet, l.inlet, down, data)), i2o, o2i[1..])
  {
    var down := l.inlet.task.Some?;
    DataArrives(c, l.cfg, l.registered, down, down, l.outlet, o2i, l.inlet, i2o);
    DataArrivesBeside(c, l.cfg, true, down, OutletReachable(l), l.outlet, o2i, l.inlet, i2o);
  }

  /** Data that goes up is taken, or lost if the outlet is gone. */
  lemma DataI2oKeepsAccounts(c: Coder, l: Local, i2o: Queue, o2i: Queue, ok: bool)
    requires i2o != [] && i2o[0].I2oSendData? && (l.outlet.task.Some? ==> l.outlet.task.value.cfg == l.cfg)
    requires l.dial != Waiting && (l.registered <==> l.outlet.task.Some?)
    requires Accounts(c, l, i2o, o2i)
    ensures Accounts(c, OutletInput(c, l, i2o[0], ok).0, i2o[1..], o2i)
  {
    DataArrives(c, l.cfg, true, l.registered, OutletReachable(l), l.inlet, i2o, l.outlet, o2i);
    DataArrivesBeside(c, l.cfg, l.registered, l.registered, l.inlet.task.Some?, l.inlet, i2o, l.outlet, o2i);
  }

  /** A control message that joins the way down changes no account. */
  lemma ControlDownKeepsAccounts(c: Coder, l: Local, i2o: Queue, o2i: Queue, m: ProxyMessage)
    requires !IsData(m) && !IsAck(m) && Accounts(c, l, i2o, o2i)
    ensures Accounts(c, l, i2o, o2i + [m])
  {
    ControlQueued(c, l.cfg, true, true, l.outlet, o2i, l.inlet, i2o, m);
    ControlQueued(c, l.cfg, l.registered, l.inlet.task.Some?, l.outlet, o2i, l.inlet, i2o, m);
  }

  lemma AckO2iKeepsAccounts(c: Coder, l: Local, i2o: Queue, o2i: Queue)
    requires o2i != [] && o2i[0].O2iSendDataResult? && l.inlet.task.Some?
    requires Accounts(c, l, i2o, o2i)
    ensures Accounts(c, l.(inlet := Acked(l.inlet, o2i[0].dataLen)), i2o, o2i[1..])
  {
    AckArrives(c, l.cfg, OutletReachable(l), l.inlet, i2o, l.outlet, o2i);
    AckArrivesBeside(c, l.cfg, l.registered, true, l.inlet, i2o, l.outlet, o2i);
  }

  lemma DropO2iKeepsAccounts(c: Coder, l: Local, i2o: Queue, o2i: Queue)
    requires o2i != [] && !IsData(o2i[0]) && (IsAck(o2i[0]) ==> l.inlet.task.None?)
    requires Accounts(c, l, i2o, o2i)
    ensures Accounts(c, l, i2o, o2i[1..])
  {
    HeadDropped(c, l.cfg, l.registered, true, l.inlet.task.Some?, OutletReachable(l), l.outlet, o2i, l.inlet, i2o);
  }

  lemma InletCloseKeepsAccounts(c: Coder, l: Local, i2o: Queue, o2i: Queue)
    requires l.inlet.task.Some?
    requires Accounts(c, l, i2o, o2i)
    ensures Accounts(c, l.(inlet := Push(l.inlet, Close)), i2o, o2i)
  {
    ClosePushed(c, l.cfg, true, OutletReachable(l), l.inlet, i2o, l.outlet, o2i);
    ClosePushed(c, l.cfg, l.registered, true, l.inlet, i2o, l.outlet, o2i);
  }

  lemma ControlI2oKeepsAccounts(c: Coder, l: Local, i2o: Queue, o2i: Queue, ok: bool)
    requires i2o != [] && !IsData(i2o[0]) && !i2o[0].I2oConnect? && IsI2o(i2o[0])
    requires l.registered ==> l.outlet.task.Some?
    requires Accounts(c, l, i2o, o2i)
    ensures Accounts(c, OutletInput(c, l, i2o[0], ok).0, i2o[1..], o2i)
  {
    var m := i2o[0];
    var up, down := OutletReachable(l), l.inlet.task.Some?;
    if m.I2oRecvDataResult? && l.registered {
      AckArrives(c, l.cfg, down, l.outlet, o2i, l.inlet, i2o);
      AckArrivesBeside(c, l.cfg, true, up, l.outlet, o2i, l.inlet, i2o);
    } else {
      HeadDropped(c, l.cfg, true, l.registered, up, down, l.inlet, i2o, l.outlet, o2i);
      if m.I2oDisconnect? && l.registered {
        ClosePushed(c, l.cfg, true, up, l.outlet, o2i, l.inlet, i2o[1..]);
        ClosePushed(c, l.cfg, true, down, l.outlet, o2i, l.inlet, i2o[1..]);
      }
    }
  }

  /** The accounts of a session whose connect is answered: nothing was owed on the way down. */
  lemma ConnectKeepsAccounts(c: Coder, l: Local, i2o: Queue, o2i: Queue, ok: bool)
    requires i2o != [] && i2o[0].I2oConnect? && l.dial == Waiting && !l.registered
    requires c.accept(i2o[0].offer) == Some(l.cfg) && ValidTunnelType(i2o[0].tunnelType)
    requires l.outlet == Idling(None) && AckLen(i2o) == 0 && OwedBy(l.inlet.task) == 0 && o2i == []
    requires Accounts(c, l, i2o, o2i)
    ensures Accounts(c, OutletInput(c, l, i2o[0], ok).0, i2o[1..], o2i + [O2iConnect(i2o[0].sid, ok, "")])
  {
    var down, answer := l.inlet.task.Some?, O2iConnect(i2o[0].sid, ok, "");
    HeadDropped(c, l.cfg, true, false, true, down, l.inlet, i2o, l.outlet, o2i);
    ControlQueued(c, l.cfg, true, true, l.outlet, o2i, l.inlet, i2o[1..], answer);
    ControlQueued(c, l.cfg, false, down, l.outlet, o2i, l.inlet, i2o[1..], answer);
    LengthsAppend(o2i, answer);
    assert AckLen(i2o[1..]) == 0 && DataLen(o2i + [answer]) == 0 && OwedBy(l.inlet.task) == 0;
  }

  lemma TaskKeepsInv(c: Coder, s: State, sid: nat, side: Side, e: TaskEvent)
    requires Faithful(c) && Inv(c, s)
    ensures Inv(c, Step(c, s, sid, Task(side, e)))
  {
    TaskKeepsShape(c, s, sid, side, e);
    TaskKeepsUntouched(c, s, sid, side, e);
    assert s.i2o + [] == s.i2o && s.o2i + [] == s.o2i;
    if side == Inlet && s.l.inlet.task.Some? {
      InletTaskKeepsAccounts(c, s.l, s.i2o, s.o2i, sid, e);
    } else if side == Outlet && s.l.outlet.task.Some? {
      OutletTaskKeepsAccounts(c, s.l, s.i2o, s.o2i, sid, e);
    }
  }

  lemma O2iKeepsAccounts(c: Coder, l: Local, i2o: Queue, o2i: Queue)
    requires o2i != [] && !IsI2o(o2i[0]) && (l.inlet.task.Some? ==> l.inlet.task.value.cfg == l.cfg)
    requires Accounts(c, l, i2o, o2i)
    ensures Accounts(c, InletInput(c, l, o2i[0]), i2o, o2i[1..])
  {
    if o2i[0].O2iRecvData? {
      DataO2iKeepsAccounts(c, l, i2o, o2i);
    } else if o2i[0].O2iSendDataResult? && l.inlet.task.Some? {
      AckO2iKeepsAccounts(c, l, i2o, o2i);
    } else {
      DropO2iKeepsAccounts(c, l, i2o, o2i);
      if IsClosing(o2i[0]) && l.inlet.task.Some? {
        InletCloseKeepsAccounts(c, l, i2o, o2i[1..]);
      }
    }
  }

  lemma O2iKeepsInv(c: Coder, s: State, sid: nat)
    requires Inv(c, s) && s.o2i != []
    ensures Inv(c, Step(c, s, sid, DeliverO2i))
  {
    DeliverO2iKeepsShape(c, s, sid);
    O2iKeepsAccounts(c, s.l, s.i2o, s.o2i);
  }

  lemma I2oKeepsInv(c: Coder, s: State, sid: nat, ok: bool)
    requires Inv(c, s) && s.i2o != [] && !s.pending
    ensures Inv(c, Step(c, s, sid, DeliverI2o(ok)))
  {
    if s.i2o[0].I2oConnect? {
      ConnectKeepsShape(c, s, sid, ok);
      ConnectKeepsAccounts(c, s.l, s.i2o, s.o2i, ok);
    } else {
      DeliverI2oKeepsShape(c, s, sid, ok);
      if s.i2o[0].I2oSendData? {
        DataI2oKeepsAccounts(c, s.l, s.i2o, s.o2i, ok);
      } else {
        ControlI2oKeepsAccounts(c, s.l, s.i2o, s.o2i, ok);
      }
    }
  }

  lemma AnswerKeepsInv(c: Coder, s: State, sid: nat, saw: bool)
    requires Inv(c, s) && s.pending && (saw || !s.l.registered)
    ensures Inv(c, Step(c, s, sid, Answer(saw)))
  {
    AnswerKeepsShape(c, s, sid, saw);
    ControlDownKeepsAccounts(c, s.l, s.i2o, s.o2i, O2iConnect(sid, saw, ""));
  }

  /** Every step of every party keeps the invariant. */
  lemma StepKeepsInv(c: Coder, s: State, sid: nat, e: Event)
    requires Faithful(c) && Inv(c, s)
    ensures Inv(c, Step(c, s, sid, e))
  {
    match e
    case Task(side, t) => TaskKeepsInv(c, s, sid, side, t);
    case DeliverI2o(ok) =>
      if s.i2o != [] && !s.pending {
        I2oKeepsInv(c, s, sid, ok);
      }
    case DeliverO2i =>
      if s.o2i != [] {
        O2iKeepsInv(c, s, sid);
      }
    case Answer(saw) =>
      if s.pending && (saw || !s.l.registered) {
        AnswerKeepsInv(c, s, sid, saw);
      }
  }

  // ---------------------------------------------------------------- what the invariant gives

  lemma {:induction false} ClosedWriterIsDrained(w: seq<WriterMessage>)
    requires forall k | 0 <= k < |w| :: w[k].Close?
    ensures Unwritten(w) == []
  {
    if w != [] {
      ClosedWriterIsDrained(w[1..]);
    }
  }

  /** Both directions deliver an in-order prefix of what was read at the other end. */
  lemma InOrder(c: Coder, s: State)
    requires Inv(c, s)
    ensures s.l.inlet.flow.written <= s.l.inlet.flow.sent <= s.l.inlet.flow.read
    ensures s.l.outlet.flow.written <= s.l.outlet.flow.sent <= s.l.outlet.flow.read
  {
    PrefixOfStream(c, s.l.cfg, OutletReachable(s.l), s.l.inlet, s.i2o, s.l.outlet);
    PrefixOfStream(c, s.l.cfg, s.l.inlet.task.Some?, s.l.outlet, s.o2i, s.l.inlet);
  }

  lemma PrefixOfStream(c: Coder, cfg: Config, reachable: bool, near: Half, out: Queue, far: Half)
    requires Stream(c, cfg, reachable, near, out, far)
    ensures near.flow.written <= near.flow.sent <= near.flow.read
  {
    if reachable {
      var rest := UnwrittenBy(far.task) + Payload(c, cfg, out);
      assert near.flow.sent == near.flow.written + rest;
    }
  }

  predicate AboutToClose(h: Half) {
    h.task.Some? && h.task.value.writer != [] && h.task.value.writer[0].Close?
  }

  /** When a writer comes to its Close, everything the other side ever queued has been written. */
  lemma DrainedBeforeClose(c: Coder, s: State)
    requires Inv(c, s)
    ensures AboutToClose(s.l.inlet) ==> s.l.outlet.flow.written == s.l.outlet.flow.sent && s.l.outlet.task.None?
    ensures AboutToClose(s.l.outlet) ==> s.l.inlet.flow.written == s.l.inlet.flow.sent && s.l.inlet.task.None?
  {
    var l := s.l;
    if AboutToClose(l.inlet) {
      ClosedWriterIsDrained(l.inlet.task.value.writer);
      assert Closes(l.inlet.task.value.writer);
      NoDataNoPayload(c, l.cfg, s.o2i);
    }
    if AboutToClose(l.outlet) {
      ClosedWriterIsDrained(l.outlet.task.value.writer);
      assert !l.registered;
    }
  }

  predicate Disconnecting(q: Queue) { exists k :: 0 <= k < |q| && q[k].I2oDisconnect? }

  predicate Connecting(q: Queue) { exists k :: 0 <= k < |q| && q[k].I2oConnect? }

  /** A session open on one side only has the message that opens or closes the other under way. */
  predicate OneSidedIsTransient(s: State) {
    && (s.l.outlet.task.Some? && s.l.inlet.task.None? ==> Closes(s.l.outlet.task.value.writer) || Disconnecting(s.i2o))
    && (s.l.inlet.task.Some? && s.l.outlet.task.None? ==>
          Closes(s.l.inlet.task.value.writer) || Announced(s.o2i) || Connecting(s.i2o))
  }

  lemma SidesAgree(c: Coder, s: State)
    requires Inv(c, s)
    ensures OneSidedIsTransient(s)
  {
    var l := s.l;
    if l.outlet.task.Some? && l.inlet.task.None? {
      if l.registered {
        assert s.i2o[|s.i2o| - 1].I2oDisconnect?;
      } else {
        var w := l.outlet.task.value.writer;
        assert w[|w| - 1].Close?;
      }
    }
    if l.inlet.task.Some? && l.dial == Waiting {
      assert s.i2o[0].I2oConnect?;
    }
  }

  /** An acknowledgement is always covered by the counter it lowers: the clamp at zero never hides a loss. */
  lemma AckIsCovered(c: Coder, s: State)
    requires Inv(c, s)
    ensures s.o2i != [] && s.o2i[0].O2iSendDataResult? && s.l.inlet.task.Some?
      ==> s.o2i[0].dataLen <= s.l.inlet.task.value.readBufLen
    ensures s.i2o != [] && s.i2o[0].I2oRecvDataResult? && s.l.registered
      ==> s.i2o[0].dataLen <= s.l.outlet.task.value.readBufLen
  {
  }

  /**
   * The limiter holds a reader back exactly beyond 1 MiB; on a session both ends of which run that much is then
   * under way in chunks and acknowledgements.
   */
  lemma BlockedReaderIsFed(c: Coder, s: State, sid: nat)
    requires Inv(c, s) && s.l.inlet.task.Some? && s.l.outlet.task.Some?
    ensures s.l.inlet.task.value.reader.Held? ==>
      && (Step(c, s, sid, Task(Inlet, Pass)) == s <==> s.l.inlet.task.value.readBufLen > 1048576)
      && (Step(c, s, sid, Task(Inlet, Pass)) == s ==>
            DataLen(s.i2o) + OwedBy(s.l.outlet.task) + AckLen(s.o2i) > 1048576)
    ensures s.l.outlet.task.value.reader.Held? ==>
      && (Step(c, s, sid, Task(Outlet, Pass)) == s <==> s.l.outlet.task.value.readBufLen > 1048576)
      && (Step(c, s, sid, Task(Outlet, Pass)) == s ==>
            DataLen(s.o2i) + OwedBy(s.l.inlet.task) + AckLen(s.i2o) > 1048576)
  {
    assert s.i2o + [] == s.i2o && s.o2i + [] == s.o2i;
  }

  // ---------------------------------------------------------------- a session at rest

  /** A task none of whose pending work can proceed. */
  predicate Resting(h: Half) {
    h.task.Some? ==>
      var ep := h.task.value;
      ep.writer == [] && (ep.reader.Idle? || (ep.reader.Held? && ep.readBufLen > READ_BUF_MAX_LEN))
  }

  /** Once nothing is under way: both ends open or both gone, all credit returned, every byte read delivered. */
  lemma AtRestAllIsDelivered(c: Coder, s: State)
    requires Inv(c, s) && s.i2o == [] && s.o2i == [] && !s.pending
    requires Resting(s.l.inlet) && Resting(s.l.outlet)
    ensures s.l.inlet.task.Some? <==> s.l.outlet.task.Some?
    ensures s.l.inlet.task.Some? ==>
      && s.l.registered
      && s.l.inlet.task.value == NewEndpoint(s.l.cfg) && s.l.outlet.task.value == NewEndpoint(s.l.cfg)
      && s.l.inlet.flow.written == s.l.inlet.flow.read
      && s.l.outlet.flow.written == s.l.outlet.flow.read
  {
    SidesAgree(c, s);
  }
}
