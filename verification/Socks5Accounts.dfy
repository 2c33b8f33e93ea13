/** The byte and credit accounts of a SOCKS5 session: the context's inbox is one more place on the way down. */
module Socks5Accounts {
  import opened Bytes
  import opened Codec
  import opened Messages
  import opened Session
  import opened Flows
  import opened Lifecycle
  import opened SessionProofs
  import opened Socks5
  import Socks5Proofs
  import opened Socks5Session
  import Socks5Run

  /** What is on its way down: first what waits for the context, then what is still in the queue. */
  function Down(s: Sock): (q: Queue) { s.inbox + s.o2i }

  // ---------------------------------------------------------------- queues in two parts

  lemma {:induction false} TwoParts(c: Coder, cfg: Config, a: Queue, b: Queue)
    ensures DataLen(a + b) == DataLen(a) + DataLen(b) && AckLen(a + b) == AckLen(a) + AckLen(b)
    ensures Payload(c, cfg, a + b) == Payload(c, cfg, a) + Payload(c, cfg, b)
  {
    if a == [] {
      assert a + b == b;
    } else {
      assert (a + b)[1..] == a[1..] + b && (a + b)[0] == a[0];
      TwoParts(c, cfg, a[1..], b);
      Reassociate(PlainOf(c, cfg, a[0]), Payload(c, cfg, a[1..]), Payload(c, cfg, b));
    }
  }

  lemma DecodableParts(c: Coder, cfg: Config, a: Queue, b: Queue)
    ensures Decodable(c, cfg, a + b) <==> Decodable(c, cfg, a) && Decodable(c, cfg, b)
  {
    var q := a + b;
    assert forall k | 0 <= k < |a| :: q[k] == a[k];
    assert forall k | 0 <= k < |b| :: q[|a| + k] == b[k];
    if Decodable(c, cfg, a) && Decodable(c, cfg, b) {
      forall k | 0 <= k < |q| && IsData(q[k]) ensures c.decode(cfg, q[k].data).Some? {
        if k >= |a| {
          assert q[k] == b[k - |a|];
        }
      }
    }
  }

  /** Taking a message that is no data from behind the inbox. */
  lemma FromTheMiddle(c: Coder, cfg: Config, inbox: Queue, o2i: Queue)
    requires o2i != [] && !IsData(o2i[0])
    ensures var q, rest := inbox + o2i, inbox + o2i[1..];
      && DataLen(q) == DataLen(rest) && Payload(c, cfg, q) == Payload(c, cfg, rest)
      && AckLen(q) == AckLen(rest) + (if IsAck(o2i[0]) then o2i[0].dataLen else 0)
      && (Decodable(c, cfg, q) ==> Decodable(c, cfg, rest))
  {
    TwoParts(c, cfg, inbox, o2i);
    TwoParts(c, cfg, inbox, o2i[1..]);
    DecodableParts(c, cfg, inbox, o2i);
    DecodableParts(c, cfg, inbox, o2i[1..]);
    CarriesNothing(c, cfg, o2i);
  }

  // ---------------------------------------------------------------- jobs that carry no payload

  lemma {:induction false} PlainAppend(w: seq<WriterMessage>, ws: seq<WriterMessage>)
    requires Socks5Run.Plain(ws)
    ensures Owed(w + ws) == Owed(w) && Unwritten(w + ws) == Unwritten(w)
    decreases |ws|
  {
    if ws == [] {
      assert w + ws == w;
    } else {
      WriterAppend(w, ws[0]);
      assert w + ws == (w + [ws[0]]) + ws[1..];
      PlainAppend(w + [ws[0]], ws[1..]);
    }
  }

  lemma {:induction false} PlainOwes(w: seq<WriterMessage>)
    requires Socks5Run.Plain(w)
    ensures Owed(w) == 0
  {
    if w != [] {
      assert forall k | 0 <= k < |w[1..]| :: w[1..][k] == w[k + 1];
      PlainOwes(w[1..]);
    }
  }

  /** They change no account. */
  lemma PlainPushed(c: Coder, l: Local, i2o: Queue, q: Queue, ws: seq<WriterMessage>)
    requires l.inlet.task.Some? && Socks5Run.Plain(ws) && Accounts(c, l, i2o, q)
    ensures Accounts(c, l.(inlet := PushAll(l.inlet, ws)), i2o, q)
  {
    PlainAppend(l.inlet.task.value.writer, ws);
  }

  // ---------------------------------------------------------------- the shape of a session

  predicate Udp(x: Ctx) { x.status == Connecting(false) || x.status == RunWithUdp }

  /** The tasks: configured alike, the outlet registered until the inlet has said its last word. */
  predicate Tasks(l: Local, pending: bool, i2o: Queue) {
    && (l.inlet.task.Some? ==> l.inlet.task.value.cfg == l.cfg)
    && (l.outlet.task.Some? ==> l.outlet.task.value.cfg == l.cfg && l.dial == Joined)
    && (l.registered ==> l.outlet.task.Some?)
    && (pending ==> l.dial == Joined && (l.outlet.task.Some? ==> l.registered))
    && (l.outlet.task.Some? && !l.registered ==> l.inlet.task.None? && i2o == [])
  }

  predicate OnlyControl(q: Queue) { forall k | 0 <= k < |q| :: q[k].I2oConnect? || q[k].I2oDisconnect? }

  /** The way up: a connect first, a disconnect last, and nothing else before the connect is handled. */
  predicate UpQueue(c: Coder, l: Local, q: Queue) {
    && (forall k | 0 <= k < |q| :: q[k].I2oConnect? || q[k].I2oSendData? || q[k].I2oRecvDataResult? || q[k].I2oDisconnect?)
    && (forall k | 0 <= k < |q| && q[k].I2oConnect? ::
          k == 0 && l.dial == Waiting && c.accept(q[k].offer) == Some(l.cfg) && q[k].tunnelType == SOCKS5 && q[k].isTcp)
    && (forall k | 0 <= k < |q| && q[k].I2oDisconnect? :: k == |q| - 1 && l.inlet.task.None?)
    && (l.dial == Waiting ==> OnlyControl(q))
  }

  predicate DownQueue(inbox: Queue, o2i: Queue) {
    && (forall k | 0 <= k < |inbox| :: ForContext(inbox[k]))
    && (forall k | 0 <= k < |o2i| :: ForContext(o2i[k]) || o2i[k].O2iSendDataResult? || o2i[k].O2iDisconnect?)
  }

  /** The context: it asks once, and nothing comes down before it has asked. */
  predicate Context(l: Local, x: Ctx, pending: bool, inbox: Queue, i2o: Queue, o2i: Queue) {
    && (x.target.Some? <==> Socks5Proofs.Rank(x.status) >= 3)
    && (l.inlet.task.Some? && Socks5Proofs.Rank(x.status) < 3 ==> l.dial == Waiting && i2o == [])
    && (l.dial == Waiting ==>
          l.outlet == Idling(None) && !pending && o2i == [] && inbox == [] && !x.status.RunWithTcp?
          && (l.inlet.task.Some? ==> Socks5Run.Plain(l.inlet.task.value.writer)))
    && (l.dial != Waiting || (i2o != [] && i2o[0].I2oConnect?) ==> Socks5Run.TcpMode(x))
    && (l.inlet.task.Some? && l.inlet.task.value.reader != Idle ==> x.status.RunWithTcp?)
    && (l.inlet.task.None? ==> inbox == [])
  }

  /** No payload comes down before the answer that makes the session run. */
  predicate AnswerFirst(l: Local, x: Ctx, q: Queue) {
    l.inlet.task.Some? ==>
      && Socks5Run.Safe(q, x.status.RunWithTcp?)
      && (l.outlet.task.Some? ==> Socks5Run.Ready(q, x.status.RunWithTcp?))
  }

  predicate SockShape(c: Coder, s: Sock) {
    && Tasks(s.l, s.pending, s.i2o) && UpQueue(c, s.l, s.i2o) && DownQueue(s.inbox, s.o2i)
    && Context(s.l, s.x, s.pending, s.inbox, s.i2o, s.o2i) && AnswerFirst(s.l, s.x, Down(s))
  }

  ghost predicate SockInv(c: Coder, s: Sock) {
    Udp(s.x) || (SockShape(c, s) && Accounts(c, s.l, s.i2o, Down(s)))
  }

  lemma {:induction false} ControlAcksNothing(q: Queue)
    requires OnlyControl(q)
    ensures AckLen(q) == 0
  {
    if q != [] {
      assert forall k | 0 <= k < |q[1..]| :: q[1..][k] == q[k + 1];
      ControlAcksNothing(q[1..]);
    }
  }

  lemma OpenedHasInv(c: Coder, cfg: Config)
    ensures SockInv(c, Opened(cfg))
  {
    assert Down(Opened(cfg)) == [];
  }

  // ---------------------------------------------------------------- accounts: what a session adds to a TCP tunnel's

  lemma {:induction false} NoAckInInbox(inbox: Queue)
    requires forall k | 0 <= k < |inbox| :: ForContext(inbox[k])
    ensures AckLen(inbox) == 0
  {
    if inbox != [] {
      assert forall k | 0 <= k < |inbox[1..]| :: inbox[1..][k] == inbox[k + 1];
      NoAckInInbox(inbox[1..]);
    }
  }

  /** With the inlet task its inbox goes, and what was in it is lost to the outlet. */
  lemma InboxLost(c: Coder, l: Local, i2o: Queue, inbox: Queue, o2i: Queue)
    requires l.inlet.task.None? && Accounts(c, l, i2o, inbox + o2i)
    ensures Accounts(c, l.(outlet := Losing(l.outlet, DataLen(inbox))), i2o, o2i)
  {
    TwoParts(c, l.cfg, inbox, o2i);
    DecodableParts(c, l.cfg, inbox, o2i);
  }

  /** A control message that joins the way up changes no account. */
  lemma ControlUpKeepsAccounts(c: Coder, l: Local, i2o: Queue, q: Queue, m: ProxyMessage)
    requires !IsData(m) && !IsAck(m) && Accounts(c, l, i2o, q)
    ensures Accounts(c, l, i2o + [m], q)
  {
    ControlQueued(c, l.cfg, true, OutletReachable(l), l.inlet, i2o, l.outlet, q, m);
    ControlQueued(c, l.cfg, l.registered, OutletReachable(l), l.inlet, i2o, l.outlet, q, m);
  }

  /** An acknowledgement for the inlet does not wait for the context. */
  lemma AckOvertakes(c: Coder, l: Local, i2o: Queue, q: Queue, rest: Queue, len: nat)
    requires l.inlet.task.Some? && Accounts(c, l, i2o, q)
    requires AckLen(q) == len + AckLen(rest) && DataLen(q) == DataLen(rest)
    requires Payload(c, l.cfg, q) == Payload(c, l.cfg, rest) && Decodable(c, l.cfg, rest)
    ensures Accounts(c, l.(inlet := Acked(l.inlet, len)), i2o, rest)
  {
    AckKeepsCredit(l.registered, l.inlet, i2o, l.outlet, q, rest, len);
    AckKeepsStream(c, l.cfg, true, l.inlet, l.outlet, q, rest, len);
  }

  /** Nor does a goodbye. */
  lemma ByeOvertakes(c: Coder, l: Local, i2o: Queue, q: Queue, rest: Queue)
    requires l.inlet.task.Some? && Accounts(c, l, i2o, q)
    requires AckLen(q) == AckLen(rest) && DataLen(q) == DataLen(rest)
    requires Payload(c, l.cfg, q) == Payload(c, l.cfg, rest) && Decodable(c, l.cfg, rest)
    ensures Accounts(c, l.(inlet := Push(l.inlet, Close)), i2o, rest)
  {
    SameData(c, l.cfg, l.registered, true, l.outlet, q, rest, l.inlet, i2o);
    assert Accounts(c, l, i2o, rest);
    InletCloseKeepsAccounts(c, l, i2o, rest);
  }

  // ---------------------------------------------------------------- what may be said of a task step

  /** A task with nothing to acknowledge and nothing to send is silent until it ends. */
  lemma QuietTask(c: Coder, near: Half, far: Half, side: Side, sid: nat, e: TaskEvent)
    requires near.task.Some? && !e.Read?
    ensures var d := TaskStep(c, near, far, side, sid, e);
      && (near.task.value.reader == Idle && d.near.task.Some? ==> d.near.task.value.reader == Idle)
      && (near.task.value.reader == Idle && Socks5Run.Plain(near.task.value.writer) && d.near.task.Some? ==>
            d.msgs == [] && Socks5Run.Plain(d.near.task.value.writer))
      && d.far.task == far.task
  {
    var w := near.task.value.writer;
    if w != [] {
      assert forall k | 0 <= k < |w[1..]| :: w[1..][k] == w[k + 1];
    }
  }

  /** What a step of the inlet task may do. */
  predicate InletMoves(l: Local, x: Ctx, d: Done, sid: nat) {
    && l.inlet.task.Some? && Outline(l.inlet, l.outlet, Side.Inlet, sid, d) && d.far.task == l.outlet.task
    && (d.near.task.Some? && !x.status.RunWithTcp? ==> d.near.task.value.reader == Idle)
    && (l.dial == Waiting ==>
          d.far == l.outlet && (d.near.task.Some? ==> d.msgs == [] && Socks5Run.Plain(d.near.task.value.writer)))
  }

  lemma InletMovesSo(c: Coder, s: Sock, sid: nat, e: TaskEvent)
    requires SockShape(c, s) && s.l.inlet.task.Some? && (e.Read? ==> s.x.status.RunWithTcp?)
    ensures InletMoves(s.l, s.x, TaskStep(c, s.l.inlet, s.l.outlet, Side.Inlet, sid, e), sid)
  {
    TaskFollowsOutline(c, s.l.inlet, s.l.outlet, Side.Inlet, sid, e);
    if !e.Read? {
      QuietTask(c, s.l.inlet, s.l.outlet, Side.Inlet, sid, e);
    }
    QuietFar(c, s.l.inlet, s.l.outlet, Side.Inlet, sid, e);
  }

  /** A writer without chunks leaves the far side alone. */
  lemma QuietFar(c: Coder, near: Half, far: Half, side: Side, sid: nat, e: TaskEvent)
    requires near.task.Some?
    ensures var d := TaskStep(c, near, far, side, sid, e);
      d.far.task == far.task && (Socks5Run.Plain(near.task.value.writer) ==> d.far == far)
  {
    if Socks5Run.Plain(near.task.value.writer) {
      PlainOwes(near.task.value.writer);
    }
  }

  // ---------------------------------------------------------------- shape: the inlet task

  lemma UpQueueGrows(c: Coder, l: Local, l': Local, q: Queue, msgs: Queue)
    requires UpQueue(c, l, q) && l.inlet.task.Some? && |msgs| <= 1 && l'.cfg == l.cfg && l'.dial == l.dial
    requires msgs != [] ==>
      || (l'.inlet.task.None? && msgs[0].I2oDisconnect?)
      || (l.dial != Waiting && (msgs[0].I2oSendData? || msgs[0].I2oRecvDataResult?))
    ensures UpQueue(c, l', q + msgs)
  {
    var q' := q + msgs;
    assert forall k | 0 <= k < |q| :: q'[k] == q[k];
    assert msgs != [] ==> q'[|q|] == msgs[0];
  }

  lemma InletStaysShape(c: Coder, s: Sock, sid: nat, d: Done)
    requires SockShape(c, s) && InletMoves(s.l, s.x, d, sid) && d.near.task.Some?
    ensures SockShape(c, s.(l := s.l.(inlet := d.near, outlet := d.far), i2o := s.i2o + d.msgs))
  {
    UpQueueGrows(c, s.l, s.l.(inlet := d.near, outlet := d.far), s.i2o, d.msgs);
    assert d.msgs == [] ==> s.i2o + d.msgs == s.i2o;
    assert s.i2o != [] ==> (s.i2o + d.msgs)[0] == s.i2o[0];
  }

  lemma InletEndsShape(c: Coder, s: Sock, l': Local, msgs: Queue)
    requires SockShape(c, s) && s.l.inlet.task.Some? && |msgs| <= 1 && (msgs != [] ==> msgs[0].I2oDisconnect?)
    requires l' == s.l.(inlet := l'.inlet, outlet := l'.outlet) && l'.inlet.task.None? && l'.outlet.task == s.l.outlet.task
    requires s.l.dial == Waiting ==> l'.outlet == s.l.outlet
    ensures SockShape(c, s.(l := l', i2o := s.i2o + msgs, inbox := []))
  {
    UpQueueGrows(c, s.l, l', s.i2o, msgs);
    assert s.i2o != [] ==> (s.i2o + msgs)[0] == s.i2o[0];
    assert s.i2o == [] ==> s.i2o + msgs == msgs;
  }

  lemma InletTaskKeepsInv(c: Coder, s: Sock, sid: nat, e: TaskEvent)
    requires Faithful(c) && SockShape(c, s) && Accounts(c, s.l, s.i2o, Down(s))
    requires s.l.inlet.task.Some? && (e.Read? ==> s.x.status.RunWithTcp?)
    ensures SockInv(c, Socks5Session.InletTask(c, s, sid, e))
  {
    var d := TaskStep(c, s.l.inlet, s.l.outlet, Side.Inlet, sid, e);
    InletMovesSo(c, s, sid, e);
    InletTaskKeepsAccounts(c, s.l, s.i2o, Down(s), sid, e);
    if d.near.task.Some? {
      InletStaysShape(c, s, sid, d);
    } else {
      var l := s.l.(inlet := d.near, outlet := d.far);
      InletEndsShape(c, s, l.(outlet := Losing(d.far, DataLen(s.inbox))), d.msgs);
      InboxLost(c, l, s.i2o + d.msgs, s.inbox, s.o2i);
      assert [] + s.o2i == s.o2i;
    }
  }

  // ---------------------------------------------------------------- the handshake

  lemma PlainConcat(w: seq<WriterMessage>, ws: seq<WriterMessage>)
    requires Socks5Run.Plain(w) && Socks5Run.Plain(ws)
    ensures Socks5Run.Plain(w + ws)
  {
    assert forall k | 0 <= k < |w| :: (w + ws)[k] == w[k];
  }

  /** A frame of the handshake that only draws replies. */
  lemma RepliesShape(c: Coder, s: Sock, x: Ctx, ws: seq<WriterMessage>)
    requires SockShape(c, s) && s.l.inlet.task.Some? && s.l.inlet.task.value.reader == Idle && !s.x.status.RunWithTcp?
    requires Socks5Run.Plain(ws) && (x == s.x || (Socks5Proofs.Rank(s.x.status) < 3 && Socks5Proofs.Rank(x.status) < 3 && x.target.None?))
    ensures SockShape(c, s.(x := x, l := s.l.(inlet := PushAll(s.l.inlet, ws))))
  {
    if s.l.dial == Waiting {
      PlainConcat(s.l.inlet.task.value.writer, ws);
    }
  }

  /** And the one with which the context asks for its connection. */
  lemma AskingShape(c: Coder, s: Sock, x: Ctx, m: ProxyMessage)
    requires SockShape(c, s) && s.l.inlet.task.Some? && s.l.inlet.task.value.reader == Idle
    requires Socks5Proofs.Rank(s.x.status) < 3 && x.status == Connecting(true) && x.target.Some?
    requires m.I2oConnect? && m.isTcp && m.tunnelType == SOCKS5 && c.accept(m.offer) == Some(s.l.cfg)
    ensures SockShape(c, s.(x := x, i2o := [m]))
  {
  }

  lemma HandshakeAccounts(c: Coder, l: Local, i2o: Queue, q: Queue, ws: seq<WriterMessage>, ms: Queue)
    requires l.inlet.task.Some? && Socks5Run.Plain(ws) && |ms| <= 1 && (ms != [] ==> ms[0].I2oConnect?)
    requires Accounts(c, l, i2o, q)
    ensures Accounts(c, l.(inlet := PushAll(l.inlet, ws)), i2o + ms, q)
  {
    PlainPushed(c, l, i2o, q, ws);
    if ms == [] {
      assert i2o + ms == i2o;
    } else {
      assert ms == [ms[0]];
      ControlUpKeepsAccounts(c, l.(inlet := PushAll(l.inlet, ws)), i2o, q, ms[0]);
    }
  }

  /** What the context asks for carries the inlet's own configuration. */
  lemma ConnectOffers(u: Setup, x: Ctx, frame: Bytes)
    requires RecvFrame(u, x, frame).Ok?
    ensures var ms := Socks5Run.Emitted(RecvFrame(u, x, frame).effects);
      |ms| <= 1 && (ms != [] ==> ms[0].I2oConnect? && ms[0].offer == u.offer && ms[0].tunnelType == SOCKS5)
  {
    Socks5Run.FewEffects(RecvFrame(u, x, frame).effects);
  }

  lemma FrameShape(c: Coder, u: Setup, s: Sock, x: Ctx, ws: seq<WriterMessage>, ms: Queue)
    requires Faithful(c) && u.offer == c.offer(s.l.cfg) && SockShape(c, s) && !Udp(x)
    requires s.l.inlet.task.Some? && s.l.inlet.task.value.reader == Idle && !s.x.status.RunWithTcp?
    requires Socks5Run.Plain(ws) && (x.target.Some? <==> Socks5Proofs.Rank(x.status) >= 3)
    requires Socks5Proofs.Rank(s.x.status) >= 3 ==> x == s.x && ms == []
    requires Socks5Proofs.Rank(s.x.status) < 3 ==> Socks5Proofs.Rank(x.status) <= 3
    requires Socks5Proofs.Rank(x.status) < 3 ==> ms == []
    requires Socks5Proofs.Rank(s.x.status) < 3 && Socks5Proofs.Rank(x.status) == 3 ==>
      && ws == [] && |ms| == 1 && ms[0].I2oConnect? && ms[0].isTcp == Socks5Run.TcpMode(x)
      && ms[0].offer == u.offer && ms[0].tunnelType == SOCKS5
    ensures SockShape(c, s.(x := x, l := s.l.(inlet := PushAll(s.l.inlet, ws)), i2o := s.i2o + ms))
  {
    if Socks5Proofs.Rank(s.x.status) < 3 && Socks5Proofs.Rank(x.status) == 3 {
      AskingShape(c, s, x, ms[0]);
      assert ms == [ms[0]] && s.i2o + ms == ms && s.l.inlet.task.value.writer + [] == s.l.inlet.task.value.writer;
    } else {
      RepliesShape(c, s, x, ws);
      assert s.i2o + [] == s.i2o;
    }
  }

  lemma FrameKeepsInv(c: Coder, u: Setup, s: Sock, frame: Bytes)
    requires Faithful(c) && u.offer == c.offer(s.l.cfg) && SockShape(c, s) && Accounts(c, s.l, s.i2o, Down(s))
    requires s.l.inlet.task.Some? && s.l.inlet.task.value.reader == Idle && !s.x.status.RunWithTcp?
    ensures SockInv(c, Handshake(c, u, s, frame))
  {
    var r := RecvFrame(u, s.x, frame);
    if r.Ok? {
      Socks5Run.FrameAsks(u, s.x, frame);
      ConnectOffers(u, s.x, frame);
      if !Udp(r.ctx) {
        FrameShape(c, u, s, r.ctx, Socks5Run.Jobs(r.effects), Socks5Run.Emitted(r.effects));
        HandshakeAccounts(c, s.l, s.i2o, Down(s), Socks5Run.Jobs(r.effects), Socks5Run.Emitted(r.effects));
      }
    } else {
      InletTaskKeepsInv(c, s, u.sid, Shut);
      PanicKeepsInv(c, s, u.sid);
    }
  }

  lemma WithoutGoodbye(c: Coder, l: Local, i2o: Queue, q: Queue, m: ProxyMessage)
    requires m.I2oDisconnect? && Accounts(c, l, i2o + [m], q)
    ensures Accounts(c, l, i2o, q)
  {
    LengthsAppend(i2o, m);
    PayloadAppend(c, l.cfg, i2o, m);
    DecodableParts(c, l.cfg, i2o, [m]);
    assert Payload(c, l.cfg, i2o + [m]) == Payload(c, l.cfg, i2o);
  }

  /** A task that panics ends without a word. */
  lemma PanicKeepsInv(c: Coder, s: Sock, sid: nat)
    requires Faithful(c) && SockShape(c, s) && Accounts(c, s.l, s.i2o, Down(s)) && s.l.inlet.task.Some?
    ensures SockInv(c, Socks5Session.InletTask(c, s, sid, Shut).(i2o := s.i2o))
  {
    var d := TaskStep(c, s.l.inlet, s.l.outlet, Side.Inlet, sid, Shut);
    InletMovesSo(c, s, sid, Shut);
    InletTaskKeepsAccounts(c, s.l, s.i2o, Down(s), sid, Shut);
    var l := s.l.(inlet := d.near, outlet := d.far);
    WithoutGoodbye(c, l, s.i2o, Down(s), d.msgs[0]);
    InboxLost(c, l, s.i2o, s.inbox, s.o2i);
    InletEndsShape(c, s, l.(outlet := Losing(d.far, DataLen(s.inbox))), []);
    assert s.i2o + [] == s.i2o && [] + s.o2i == s.o2i;
  }

  // ---------------------------------------------------------------- the outlet task

  lemma AnswerFirstGrows(l: Local, l': Local, x: Ctx, q: Queue, m: ProxyMessage)
    requires AnswerFirst(l, x, q) && (l'.inlet.task.Some? ==> l.inlet.task.Some?) && (l'.outlet.task.Some? ==> l.outlet.task.Some?)
    requires IsData(m) ==> l.outlet.task.Some?
    ensures AnswerFirst(l', x, q + [m])
  {
    if l'.inlet.task.Some? {
      Socks5Run.SafeAppend(q, x.status.RunWithTcp?, m);
    }
  }

  lemma DownGrows(inbox: Queue, o2i: Queue, m: ProxyMessage)
    requires DownQueue(inbox, o2i) && (ForContext(m) || m.O2iSendDataResult? || m.O2iDisconnect?)
    ensures DownQueue(inbox, o2i + [m])
  {
    var q := o2i + [m];
    assert forall k | 0 <= k < |o2i| :: q[k] == o2i[k];
    assert q[|o2i|] == m;
  }

  lemma OutletTaskShape(c: Coder, s: Sock, sid: nat, d: Done)
    requires SockShape(c, s) && s.l.outlet.task.Some? && Outline(s.l.outlet, s.l.inlet, Side.Outlet, sid, d)
    requires d.far.task == s.l.inlet.task
    ensures SockShape(c, s.(l := s.l.(outlet := d.near, inlet := d.far, registered := s.l.registered && d.near.task.Some?),
                            o2i := s.o2i + d.msgs))
  {
    var l' := s.l.(outlet := d.near, inlet := d.far, registered := s.l.registered && d.near.task.Some?);
    if d.msgs == [] {
      assert s.o2i + d.msgs == s.o2i;
    } else {
      assert d.msgs == [d.msgs[0]];
      AnswerFirstGrows(s.l, l', s.x, Down(s), d.msgs[0]);
      DownGrows(s.inbox, s.o2i, d.msgs[0]);
      assert s.inbox + (s.o2i + [d.msgs[0]]) == s.inbox + s.o2i + [d.msgs[0]];
    }
  }

  lemma OutletTaskKeepsInv(c: Coder, s: Sock, sid: nat, e: TaskEvent)
    requires Faithful(c) && SockShape(c, s) && Accounts(c, s.l, s.i2o, Down(s)) && s.l.outlet.task.Some?
    ensures SockInv(c, Socks5Session.OutletTask(c, s, sid, e))
  {
    var d := TaskStep(c, s.l.outlet, s.l.inlet, Side.Outlet, sid, e);
    TaskFollowsOutline(c, s.l.outlet, s.l.inlet, Side.Outlet, sid, e);
    QuietFar(c, s.l.outlet, s.l.inlet, Side.Outlet, sid, e);
    OutletTaskShape(c, s, sid, d);
    OutletTaskKeepsAccounts(c, s.l, s.i2o, Down(s), sid, e);
    QueueReassociate(s.inbox, s.o2i, d.msgs);
  }

  lemma QueueReassociate(a: Queue, b: Queue, c: Queue)
    ensures a + (b + c) == (a + b) + c
  {
  }

  // ---------------------------------------------------------------- messages up

  lemma UpShrinks(c: Coder, l: Local, l': Local, q: Queue)
    requires UpQueue(c, l, q) && q != [] && l'.inlet.task == l.inlet.task && l'.cfg == l.cfg
    requires l'.dial == l.dial || q[0].I2oConnect?
    requires q[0].I2oConnect? ==> l'.dial != Waiting
    ensures UpQueue(c, l', q[1..])
  {
    assert forall k | 0 <= k < |q[1..]| :: q[1..][k] == q[k + 1];
  }

  /** The outlet answers the connect. */
  lemma ConnectedKeepsInv(c: Coder, s: Sock, ok: bool)
    requires SockShape(c, s) && Accounts(c, s.l, s.i2o, Down(s)) && s.i2o != [] && !s.pending && s.i2o[0].I2oConnect?
    ensures var (l, msgs) := OutletInput(c, s.l, s.i2o[0], ok);
      SockInv(c, s.(l := l, i2o := s.i2o[1..], o2i := s.o2i + msgs, pending := Waits(s.l, l)))
  {
    var (l, msgs) := OutletInput(c, s.l, s.i2o[0], ok);
    var answer := O2iConnect(s.i2o[0].sid, ok, "");
    assert msgs == [answer] && s.o2i + msgs == msgs && s.inbox + msgs == msgs && Down(s) == [];
    UpShrinks(c, s.l, l, s.i2o);
    ControlAcksNothing(s.i2o);
    if s.l.inlet.task.Some? {
      PlainOwes(s.l.inlet.task.value.writer);
    }
    ConnectKeepsAccounts(c, s.l, s.i2o, [], ok);
    assert [] + [answer] == [answer];
    DownGrows([], [], answer);
    var none: Queue := [];
    Socks5Run.SafeAppend(none, false, answer);
    assert none + [answer] == [answer];
  }

  /** Data, an acknowledgement or a goodbye reaches the outlet. */
  lemma ReachedShape(c: Coder, s: Sock, ok: bool)
    requires SockShape(c, s) && s.i2o != [] && !s.pending && !s.i2o[0].I2oConnect?
    ensures var (l, msgs) := OutletInput(c, s.l, s.i2o[0], ok);
      msgs == [] && !Waits(s.l, l) && SockShape(c, s.(l := l, i2o := s.i2o[1..], pending := false))
  {
    var (l, msgs) := OutletInput(c, s.l, s.i2o[0], ok);
    UpShrinks(c, s.l, l, s.i2o);
  }

  lemma ReachedKeepsInv(c: Coder, s: Sock, ok: bool)
    requires SockShape(c, s) && Accounts(c, s.l, s.i2o, Down(s)) && s.i2o != [] && !s.pending && !s.i2o[0].I2oConnect?
    ensures var (l, msgs) := OutletInput(c, s.l, s.i2o[0], ok);
      SockInv(c, s.(l := l, i2o := s.i2o[1..], o2i := s.o2i + msgs, pending := Waits(s.l, l)))
  {
    ReachedShape(c, s, ok);
    assert s.o2i + [] == s.o2i;
    if s.i2o[0].I2oSendData? {
      DataI2oKeepsAccounts(c, s.l, s.i2o, Down(s), ok);
    } else {
      ControlI2oKeepsAccounts(c, s.l, s.i2o, Down(s), ok);
    }
  }

  // ---------------------------------------------------------------- messages down

  /** A message for the context moves to its inbox: everything on the way down stays in its order. */
  lemma HandedKeepsInv(c: Coder, s: Sock)
    requires SockShape(c, s) && Accounts(c, s.l, s.i2o, Down(s))
    requires s.o2i != [] && s.l.inlet.task.Some? && ForContext(s.o2i[0])
    ensures SockInv(c, s.(inbox := s.inbox + [s.o2i[0]], o2i := s.o2i[1..]))
  {
    assert (s.inbox + [s.o2i[0]]) + s.o2i[1..] == s.inbox + s.o2i;
    assert forall k | 0 <= k < |s.o2i[1..]| :: s.o2i[1..][k] == s.o2i[k + 1];
  }

  /** Taking a message that is neither payload nor an answer from the middle of the way down. */
  lemma {:induction false} SafeWithout(a: Queue, m: ProxyMessage, b: Queue, running: bool)
    requires !IsData(m) && !Socks5Run.IsYes(m)
    ensures Socks5Run.Safe(a + ([m] + b), running) ==> Socks5Run.Safe(a + b, running)
    ensures Socks5Run.Ready(a + ([m] + b), running) ==> Socks5Run.Ready(a + b, running)
    decreases |a|
  {
    if a == [] {
      assert a + b == b && a + ([m] + b) == [m] + b && ([m] + b)[1..] == b;
    } else {
      assert (a + b)[1..] == a[1..] + b && (a + ([m] + b))[1..] == a[1..] + ([m] + b);
      SafeWithout(a[1..], m, b, running || Socks5Run.IsYes(a[0]));
    }
  }

  lemma OvertakingShape(c: Coder, s: Sock, inlet: Half)
    requires SockShape(c, s) && s.o2i != [] && s.l.inlet.task.Some? && !ForContext(s.o2i[0])
    requires inlet.task.Some? && inlet.task.value.cfg == s.l.cfg && inlet.task.value.reader == s.l.inlet.task.value.reader
    ensures SockShape(c, s.(l := s.l.(inlet := inlet), o2i := s.o2i[1..]))
  {
    assert [s.o2i[0]] + s.o2i[1..] == s.o2i;
    assert forall k | 0 <= k < |s.o2i[1..]| :: s.o2i[1..][k] == s.o2i[k + 1];
    SafeWithout(s.inbox, s.o2i[0], s.o2i[1..], s.x.status.RunWithTcp?);
  }

  /** Acknowledgements and goodbyes are handled at once, whatever waits for the context. */
  lemma OvertakingKeepsInv(c: Coder, s: Sock)
    requires SockShape(c, s) && Accounts(c, s.l, s.i2o, Down(s))
    requires s.o2i != [] && s.l.inlet.task.Some? && !ForContext(s.o2i[0])
    ensures SockInv(c, s.(l := InletInput(c, s.l, s.o2i[0]), o2i := s.o2i[1..]))
  {
    var m, rest := s.o2i[0], s.inbox + s.o2i[1..];
    FromTheMiddle(c, s.l.cfg, s.inbox, s.o2i);
    if m.O2iSendDataResult? {
      OvertakingShape(c, s, Acked(s.l.inlet, m.dataLen));
      AckOvertakes(c, s.l, s.i2o, Down(s), rest, m.dataLen);
    } else {
      OvertakingShape(c, s, Push(s.l.inlet, Close));
      ByeOvertakes(c, s.l, s.i2o, Down(s), rest);
    }
  }

  lemma DroppedShape(c: Coder, s: Sock)
    requires SockShape(c, s) && s.o2i != [] && s.l.inlet.task.None?
    ensures SockShape(c, s.(l := InletInput(c, s.l, s.o2i[0]), o2i := s.o2i[1..]))
  {
    assert forall k | 0 <= k < |s.o2i[1..]| :: s.o2i[1..][k] == s.o2i[k + 1];
  }

  /** A session that is gone takes no more. */
  lemma DroppedKeepsInv(c: Coder, s: Sock)
    requires SockShape(c, s) && Accounts(c, s.l, s.i2o, Down(s)) && s.o2i != [] && s.l.inlet.task.None?
    ensures SockInv(c, s.(l := InletInput(c, s.l, s.o2i[0]), o2i := s.o2i[1..]))
  {
    assert [] + s.o2i == s.o2i && [] + s.o2i[1..] == s.o2i[1..];
    DroppedShape(c, s);
    O2iKeepsAccounts(c, s.l, s.i2o, s.o2i);
  }

  // ---------------------------------------------------------------- the context

  lemma InboxTail(s: Sock)
    requires s.inbox != []
    ensures Down(s) != [] && Down(s)[0] == s.inbox[0] && Down(s)[1..] == s.inbox[1..] + s.o2i
    ensures forall k | 0 <= k < |s.inbox[1..]| :: s.inbox[1..][k] == s.inbox[k + 1]
  {
  }

  lemma AnsweredShape(c: Coder, s: Sock, x: Ctx, ws: seq<WriterMessage>)
    requires SockShape(c, s) && s.inbox != [] && s.inbox[0].O2iConnect? && s.l.inlet.task.Some?
    requires Socks5Run.Answers(s.x, s.inbox[0].success, x, ws)
    ensures SockShape(c, s.(x := x, l := s.l.(inlet := PushAll(s.l.inlet, ws)), inbox := s.inbox[1..]))
  {
    InboxTail(s);
  }

  lemma AnsweredKeepsInv(c: Coder, s: Sock, bound: Option<u16>)
    requires SockShape(c, s) && Accounts(c, s.l, s.i2o, Down(s))
    requires s.inbox != [] && s.inbox[0].O2iConnect? && s.l.inlet.task.Some?
    ensures SockInv(c, ContextInput(c, s.(inbox := s.inbox[1..]), s.inbox[0], bound))
  {
    var r := OnO2iConnect(s.x, s.inbox[0].success, bound);
    Socks5Run.AnswerJobs(s.x, s.inbox[0].success, bound);
    AnsweredShape(c, s, r.ctx, Socks5Run.Jobs(r.effects));
    InboxTail(s);
    DropO2iKeepsAccounts(c, s.l, s.i2o, Down(s));
    PlainPushed(c, s.l, s.i2o, s.inbox[1..] + s.o2i, Socks5Run.Jobs(r.effects));
  }

  lemma PaidShape(c: Coder, s: Sock, inlet: Half)
    requires SockShape(c, s) && s.inbox != [] && s.inbox[0].O2iRecvData? && s.l.inlet.task.Some?
    requires inlet.task.Some? && inlet.task.value.cfg == s.l.cfg && inlet.task.value.reader == s.l.inlet.task.value.reader
    ensures SockShape(c, s.(l := s.l.(inlet := inlet), inbox := s.inbox[1..]))
  {
    InboxTail(s);
  }

  /** Payload finds the session running, and goes to the writer. */
  lemma PaidKeepsInv(c: Coder, s: Sock, bound: Option<u16>)
    requires SockShape(c, s) && Accounts(c, s.l, s.i2o, Down(s))
    requires s.inbox != [] && s.inbox[0].O2iRecvData? && s.l.inlet.task.Some?
    ensures s.x.status.RunWithTcp?
    ensures SockInv(c, ContextInput(c, s.(inbox := s.inbox[1..]), s.inbox[0], bound))
  {
    InboxTail(s);
    DataHead(c, s.l.cfg, Down(s));
    PaidShape(c, s, Taken(c, s.l.inlet, true, s.inbox[0].data));
    DataO2iKeepsAccounts(c, s.l, s.i2o, Down(s));
  }

  lemma HandlerAnswersKeepsInv(c: Coder, s: Sock, m: ProxyMessage)
    requires SockShape(c, s) && Accounts(c, s.l, s.i2o, Down(s)) && s.pending && m.O2iConnect?
    ensures SockInv(c, s.(pending := false, o2i := s.o2i + [m]))
  {
    QueueReassociate(s.inbox, s.o2i, [m]);
    ControlDownKeepsAccounts(c, s.l, s.i2o, Down(s), m);
    DownGrows(s.inbox, s.o2i, m);
    AnswerFirstGrows(s.l, s.l, s.x, Down(s), m);
  }

  // ---------------------------------------------------------------- every run

  /** A datagram association stays one. */
  lemma UdpStays(c: Coder, u: Setup, s: Sock, e: SockEvent)
    requires Udp(s.x)
    ensures Udp(SockStep(c, u, s, e).x)
  {
  }

  lemma SockStepKeepsInv(c: Coder, u: Setup, s: Sock, e: SockEvent)
    requires Faithful(c) && u.offer == c.offer(s.l.cfg) && SockInv(c, s)
    ensures SockInv(c, SockStep(c, u, s, e))
  {
    if Udp(s.x) {
      UdpStays(c, u, s, e);
    } else {
      match e
      case ClientFrame(frame, nonce) =>
        if s.l.inlet.task.Some? && s.l.inlet.task.value.reader == Idle && frame != [] {
          if s.x.status.RunWithTcp? {
            InletTaskKeepsInv(c, s, u.sid, Read(frame, nonce));
          } else {
            FrameKeepsInv(c, u, s, frame);
          }
        }
      case AtInlet(t) =>
        if s.l.inlet.task.Some? && !t.Read? {
          InletTaskKeepsInv(c, s, u.sid, t);
        }
      case AtOutlet(t) =>
        if s.l.outlet.task.Some? {
          OutletTaskKeepsInv(c, s, u.sid, t);
        }
      case ToOutlet(ok) =>
        if s.i2o != [] && !s.pending {
          if s.i2o[0].I2oConnect? {
            ConnectedKeepsInv(c, s, ok);
          } else {
            ReachedKeepsInv(c, s, ok);
          }
        }
      case ToInlet =>
        if s.o2i != [] {
          if s.l.inlet.task.None? {
            DroppedKeepsInv(c, s);
          } else if ForContext(s.o2i[0]) {
            HandedKeepsInv(c, s);
          } else {
            OvertakingKeepsInv(c, s);
          }
        }
      case ToContext(bound) =>
        if s.inbox != [] && s.l.inlet.task.Some? {
          if s.inbox[0].O2iConnect? {
            AnsweredKeepsInv(c, s, bound);
          } else {
            PaidKeepsInv(c, s, bound);
          }
        }
      case HandlerAnswers(saw) =>
        if s.pending && (saw || !s.l.registered) {
          HandlerAnswersKeepsInv(c, s, O2iConnect(u.sid, saw, ""));
        }
    }
  }

  lemma StepKeepsConfig(c: Coder, u: Setup, s: Sock, e: SockEvent)
    ensures SockStep(c, u, s, e).l.cfg == s.l.cfg
  {
  }

  lemma {:induction false} SockRunKeepsInv(c: Coder, u: Setup, s: Sock, es: seq<SockEvent>)
    requires Faithful(c) && u.offer == c.offer(s.l.cfg) && SockInv(c, s)
    ensures SockInv(c, SockRun(c, u, s, es)) && SockRun(c, u, s, es).l.cfg == s.l.cfg
    decreases |es|
  {
    if es != [] {
      SockStepKeepsInv(c, u, s, es[0]);
      StepKeepsConfig(c, u, s, es[0]);
      SockRunKeepsInv(c, u, SockStep(c, u, s, es[0]), es[1..]);
    }
  }

  /** Between client and target, bytes come out in the order they went in, none missing and none twice. */
  lemma SocksStreamIntegrity(lib: Lib, cfg: Config, u: Setup, es: seq<SockEvent>)
    requires Sound(lib) && u.offer == OfferOf(lib, cfg)
    ensures var s := SockRun(NpipeCoder(lib), u, Opened(cfg), es);
      Udp(s.x) || (s.l.inlet.flow.written <= s.l.inlet.flow.read && s.l.outlet.flow.written <= s.l.outlet.flow.read)
  {
    var c := NpipeCoder(lib);
    NpipeCoderIsFaithful(lib);
    OpenedHasInv(c, cfg);
    SockRunKeepsInv(c, u, Opened(cfg), es);
    var s := SockRun(c, u, Opened(cfg), es);
    if !Udp(s.x) {
      PrefixOfStream(c, s.l.cfg, OutletReachable(s.l), s.l.inlet, s.i2o, s.l.outlet);
      PrefixOfStream(c, s.l.cfg, s.l.inlet.task.Some?, s.l.outlet, Down(s), s.l.inlet);
    }
  }

  /** The counters of a SOCKS5 session: what waits in the context's inbox is one more place in the outlet's account. */
  lemma SocksCreditConservation(lib: Lib, cfg: Config, u: Setup, es: seq<SockEvent>)
    requires Sound(lib) && u.offer == OfferOf(lib, cfg)
    ensures var s := SockRun(NpipeCoder(lib), u, Opened(cfg), es);
      var l := s.l;
      Udp(s.x) ||
      (&& (l.inlet.task.Some? ==>
             var ep := l.inlet.task.value;
             && ep.readBufLen == CountedLen(ep.reader) + DataLen(s.i2o) + OwedBy(l.outlet.task) + AckLen(s.o2i) + l.inlet.flow.lost
             && ep.readBufLen <= 1048576 + l.inlet.flow.longest)
       && (l.outlet.task.Some? ==>
             var ep := l.outlet.task.value;
             && (l.registered ==>
                   ep.readBufLen == CountedLen(ep.reader) + DataLen(s.o2i) + DataLen(s.inbox) + OwedBy(l.inlet.task)
                                    + AckLen(s.i2o) + l.outlet.flow.lost)
             && ep.readBufLen <= 1048576 + l.outlet.flow.longest)
       && (l.outlet.task.Some? ==> l.inlet.flow.lost == 0)
       && (l.inlet.task.Some? ==> l.outlet.flow.lost == 0))
  {
    var c := NpipeCoder(lib);
    NpipeCoderIsFaithful(lib);
    OpenedHasInv(c, cfg);
    SockRunKeepsInv(c, u, Opened(cfg), es);
    var s := SockRun(c, u, Opened(cfg), es);
    if !Udp(s.x) {
      TwoParts(c, s.l.cfg, s.inbox, s.o2i);
      NoAckInInbox(s.inbox);
    }
  }

  // ---------------------------------------------------------------- a session at rest

  /** Steps that only work off what is under way. */
  predicate Internal(e: SockEvent) {
    e.ToOutlet? || e.ToInlet? || e.ToContext? || e.HandlerAnswers?
    || ((e.AtInlet? || e.AtOutlet?) && (e.e.Pass? || e.e.Count? || e.e.Forward? || e.e.Write?))
  }

  ghost predicate Still(c: Coder, u: Setup, s: Sock) { forall e | Internal(e) :: SockStep(c, u, s, e) == s }

  lemma StillQueues(c: Coder, u: Setup, s: Sock)
    requires SockShape(c, s) && Still(c, u, s)
    ensures s.i2o == [] && s.o2i == [] && s.inbox == [] && !s.pending
  {
    assert Internal(HandlerAnswers(true)) && Internal(ToOutlet(true)) && Internal(ToInlet) && Internal(ToContext(None));
    assert SockStep(c, u, s, HandlerAnswers(true)) == s && SockStep(c, u, s, ToOutlet(true)) == s;
    assert SockStep(c, u, s, ToInlet) == s && SockStep(c, u, s, ToContext(None)) == s;
  }

  lemma StillInletRests(c: Coder, u: Setup, s: Sock)
    requires Still(c, u, s)
    ensures Resting(s.l.inlet)
  {
    forall t | t in {Pass, Count, Forward, TaskEvent.Write} ensures SockStep(c, u, s, AtInlet(t)) == s {
      assert Internal(AtInlet(t));
    }
    assert SockStep(c, u, s, AtInlet(Pass)) == s && SockStep(c, u, s, AtInlet(Count)) == s;
    assert SockStep(c, u, s, AtInlet(Forward)) == s && SockStep(c, u, s, AtInlet(TaskEvent.Write)) == s;
  }

  lemma StillOutletRests(c: Coder, u: Setup, s: Sock)
    requires Still(c, u, s)
    ensures Resting(s.l.outlet)
  {
    forall t | t in {Pass, Count, Forward, TaskEvent.Write} ensures SockStep(c, u, s, AtOutlet(t)) == s {
      assert Internal(AtOutlet(t));
    }
    assert SockStep(c, u, s, AtOutlet(Pass)) == s && SockStep(c, u, s, AtOutlet(Count)) == s;
    assert SockStep(c, u, s, AtOutlet(Forward)) == s && SockStep(c, u, s, AtOutlet(TaskEvent.Write)) == s;
  }

  /** Where nothing more can happen without new input, an open session has delivered every byte and has all its credit back. */
  lemma SocksRestMeansDelivered(lib: Lib, cfg: Config, u: Setup, es: seq<SockEvent>)
    requires Sound(lib) && u.offer == OfferOf(lib, cfg)
    requires Still(NpipeCoder(lib), u, SockRun(NpipeCoder(lib), u, Opened(cfg), es))
    ensures var s := SockRun(NpipeCoder(lib), u, Opened(cfg), es);
      var l := s.l;
      || Udp(s.x)
      || (&& s.i2o == [] && s.o2i == [] && s.inbox == []
          && (l.inlet.task.Some? && l.outlet.task.Some? ==>
                && l.inlet.task.value == NewEndpoint(cfg) && l.outlet.task.value == NewEndpoint(cfg)
                && l.inlet.flow.written == l.inlet.flow.read && l.outlet.flow.written == l.outlet.flow.read))
  {
    var c := NpipeCoder(lib);
    NpipeCoderIsFaithful(lib);
    OpenedHasInv(c, cfg);
    SockRunKeepsInv(c, u, Opened(cfg), es);
    var s := SockRun(c, u, Opened(cfg), es);
    if !Udp(s.x) {
      StillQueues(c, u, s);
      StillInletRests(c, u, s);
      StillOutletRests(c, u, s);
      assert Down(s) == [];
    }
  }

  /** A frame that the context cannot take ends the task and its inbox; after an error, not after a panic, with a goodbye. */
  lemma BrokenHandshake(c: Coder, u: Setup, s: Sock, frame: Bytes, nonce: Bytes)
    requires s.l.inlet.task.Some? && s.l.inlet.task.value.reader == Idle && frame != [] && !s.x.status.RunWithTcp?
    requires !RecvFrame(u, s.x, frame).Ok?
    ensures var s' := SockStep(c, u, s, ClientFrame(frame, nonce));
      && s'.l.inlet.task.None? && s'.inbox == [] && s'.o2i == s.o2i
      && s'.i2o == s.i2o + if RecvFrame(u, s.x, frame).Fail? then [I2oDisconnect(u.sid)] else []
  {
  }

  /** A running session's tasks step as those of a TCP session do, as long as they last. */
  lemma TasksStepAlike(c: Coder, u: Setup, s: Sock, t: TaskEvent, frame: Bytes, nonce: Bytes)
    requires s.x.status.RunWithTcp? && frame != []
    ensures var (l, msgs) := LocalStep(c, s.l, Side.Outlet, u.sid, t);
      SockStep(c, u, s, AtOutlet(t)) == s.(l := l, o2i := s.o2i + msgs)
    ensures var (l, msgs) := LocalStep(c, s.l, Side.Inlet, u.sid, t);
      !t.Read? && l.inlet.task.Some? ==> SockStep(c, u, s, AtInlet(t)) == s.(l := l, i2o := s.i2o + msgs)
    ensures var (l, msgs) := LocalStep(c, s.l, Side.Inlet, u.sid, Read(frame, nonce));
      l.inlet.task.Some? ==> SockStep(c, u, s, ClientFrame(frame, nonce)) == s.(l := l, i2o := s.i2o + msgs)
  {
    assert s.i2o + [] == s.i2o && s.o2i + [] == s.o2i;
  }
}
