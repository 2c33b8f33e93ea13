/** Credit and stream accounting of one direction of a session, for any task step. */
module Flows {
  import opened Bytes
  import opened Codec
  import opened Messages
  import opened Session

  type Queue = seq<ProxyMessage>

  predicate IsData(m: ProxyMessage) { m.I2oSendData? || m.O2iRecvData? }

  predicate IsAck(m: ProxyMessage) { m.I2oRecvDataResult? || m.O2iSendDataResult? }

  function DataLen(q: Queue): (n: nat) {
    if q == [] then 0 else (if IsData(q[0]) then |q[0].data| else 0) + DataLen(q[1..])
  }

  function AckLen(q: Queue): (n: nat) {
    if q == [] then 0 else (if IsAck(q[0]) then q[0].dataLen else 0) + AckLen(q[1..])
  }

  function PlainOf(c: Coder, cfg: Config, m: ProxyMessage): (b: Bytes) {
    if IsData(m) && c.decode(cfg, m.data).Some? then c.decode(cfg, m.data).value else []
  }

  /** The plain bytes a queue still carries. */
  function Payload(c: Coder, cfg: Config, q: Queue): (b: Bytes) {
    if q == [] then [] else PlainOf(c, cfg, q[0]) + Payload(c, cfg, q[1..])
  }

  /** The plain bytes a writer queue still holds. */
  function Unwritten(w: seq<WriterMessage>): (b: Bytes) {
    if w == [] then [] else (if w[0].SendAndThen? then w[0].data else []) + Unwritten(w[1..])
  }

  function UnwrittenBy(e: Option<Endpoint>): (b: Bytes) {
    if e.Some? then Unwritten(e.value.writer) else []
  }

  predicate Decodable(c: Coder, cfg: Config, q: Queue) {
    forall k | 0 <= k < |q| && IsData(q[k]) :: c.decode(cfg, q[k].data).Some?
  }

  predicate NoData(q: Queue) { forall k | 0 <= k < |q| :: !IsData(q[k]) }

  lemma {:induction false} NoDataNoPayload(c: Coder, cfg: Config, q: Queue)
    requires NoData(q)
    ensures Payload(c, cfg, q) == []
  {
    if q != [] {
      assert forall k | 0 <= k < |q[1..]| :: q[1..][k] == q[k + 1];
      NoDataNoPayload(c, cfg, q[1..]);
    }
  }

  lemma {:induction false} LengthsAppend(q: Queue, m: ProxyMessage)
    ensures DataLen(q + [m]) == DataLen(q) + if IsData(m) then |m.data| else 0
    ensures AckLen(q + [m]) == AckLen(q) + if IsAck(m) then m.dataLen else 0
  {
    if q == [] {
      assert q + [m] == [m];
    } else {
      assert (q + [m])[1..] == q[1..] + [m];
      LengthsAppend(q[1..], m);
    }
  }

  lemma {:induction false} PayloadAppend(c: Coder, cfg: Config, q: Queue, m: ProxyMessage)
    ensures Payload(c, cfg, q + [m]) == Payload(c, cfg, q) + PlainOf(c, cfg, m)
  {
    if q == [] {
      assert q + [m] == [m];
      assert Payload(c, cfg, [m]) == PlainOf(c, cfg, m) + Payload(c, cfg, []);
    } else {
      assert (q + [m])[1..] == q[1..] + [m] && (q + [m])[0] == q[0];
      PayloadAppend(c, cfg, q[1..], m);
      Reassociate(PlainOf(c, cfg, q[0]), Payload(c, cfg, q[1..]), PlainOf(c, cfg, m));
    }
  }

  lemma {:induction false} WriterAppend(w: seq<WriterMessage>, m: WriterMessage)
    ensures Owed(w + [m]) == Owed(w) + if m.SendAndThen? then m.ackLen else 0
    ensures Unwritten(w + [m]) == Unwritten(w) + if m.SendAndThen? then m.data else []
  {
    if w == [] {
      assert w + [m] == [m];
    } else {
      assert (w + [m])[1..] == w[1..] + [m] && (w + [m])[0] == w[0];
      WriterAppend(w[1..], m);
      Reassociate(if w[0].SendAndThen? then w[0].data else [], Unwritten(w[1..]), if m.SendAndThen? then m.data else []);
    }
  }

  // ---------------------------------------------------------------- the two accounts

  function CountedLen(r: Reader): (n: nat) { if r.Counted? then |r.data| else 0 }

  function HeldRaw(r: Reader): (b: Bytes) { if r.Idle? then [] else r.raw }

  /**
   * The counter of the near task: exactly what is under way while acknowledgements reach it
   * (`listening`), and never more than one chunk above the limit.
   */
  ghost predicate Credit(listening: bool, near: Half, out: Queue, far: Half, back: Queue) {
    near.task.Some? ==>
      var ep, f := near.task.value, near.flow;
      && (listening ==> ep.readBufLen == CountedLen(ep.reader) + DataLen(out) + OwedBy(far.task) + AckLen(back) + f.lost)
      && ep.readBufLen <= READ_BUF_MAX_LEN + f.longest
      && (ep.reader.Cleared? ==> ep.readBufLen <= READ_BUF_MAX_LEN)
      && (!ep.reader.Idle? ==> |ep.reader.data| <= f.longest)
  }

  /** What was read is what was queued plus what the reader holds. */
  predicate Entered(c: Coder, cfg: Config, near: Half) {
    var f := near.flow;
    if near.task.Some? then
      var r := near.task.value.reader;
      f.read == f.sent + HeldRaw(r) && (!r.Idle? ==> c.decode(cfg, r.data) == Some(r.raw))
    else f.sent <= f.read
  }

  /** What was queued is what was written, then what waits in the far writer, then what the queue carries. */
  ghost predicate Conveyed(c: Coder, cfg: Config, reachable: bool, f: Flow, out: Queue, far: Option<Endpoint>) {
    if reachable then f.sent == f.written + UnwrittenBy(far) + Payload(c, cfg, out) && f.lost == 0
    else f.written <= f.sent
  }

  ghost predicate Stream(c: Coder, cfg: Config, reachable: bool, near: Half, out: Queue, far: Half) {
    Decodable(c, cfg, out) && Entered(c, cfg, near) && Conveyed(c, cfg, reachable, near.flow, out, far.task)
  }

  // ---------------------------------------------------------------- task steps keep them

  lemma TaskKeepsNearCredit(c: Coder, listening: bool, near: Half, out: Queue, far: Half, back: Queue,
                            side: Side, sid: nat, e: TaskEvent)
    requires near.task.Some? && Credit(listening, near, out, far, back)
    ensures var d := TaskStep(c, near, far, side, sid, e); Credit(listening, d.near, out + d.msgs, d.far, back)
  {
    var d := TaskStep(c, near, far, side, sid, e);
    assert d.far.task == far.task;
    if d.msgs == [] {
      assert out + d.msgs == out;
    } else {
      LengthsAppend(out, d.msgs[0]);
      assert d.msgs == [d.msgs[0]];
    }
  }

  lemma TaskKeepsFarCredit(c: Coder, listening: bool, near: Half, out: Queue, far: Half, back: Queue,
                           side: Side, sid: nat, e: TaskEvent)
    requires near.task.Some? && Credit(listening, far, back, near, out)
    ensures var d := TaskStep(c, near, far, side, sid, e); Credit(listening, d.far, back, d.near, out + d.msgs)
  {
    var d := TaskStep(c, near, far, side, sid, e);
    assert d.far.task == far.task;
    if d.msgs == [] {
      assert out + d.msgs == out;
    } else {
      LengthsAppend(out, d.msgs[0]);
      assert d.msgs == [d.msgs[0]];
    }
  }

  lemma TaskKeepsEntered(c: Coder, cfg: Config, near: Half, far: Half, side: Side, sid: nat, e: TaskEvent)
    requires Faithful(c) && near.task.Some? && near.task.value.cfg == cfg && Entered(c, cfg, near)
    ensures Entered(c, cfg, TaskStep(c, near, far, side, sid, e).near)
  {
  }

  /** A step queues at most one message, and data only what Forward accounts as sent. */
  lemma TaskQueues(c: Coder, cfg: Config, near: Half, far: Half, side: Side, sid: nat, e: TaskEvent)
    requires near.task.Some? && near.task.value.cfg == cfg && Entered(c, cfg, near)
    ensures var d := TaskStep(c, near, far, side, sid, e);
      && |d.msgs| <= 1
      && d.far.task == far.task
      && d.near.flow.written == near.flow.written && d.near.flow.lost == near.flow.lost
      && d.near.flow.sent == near.flow.sent + (if d.msgs == [] then [] else PlainOf(c, cfg, d.msgs[0]))
      && (d.msgs != [] && IsData(d.msgs[0]) ==> c.decode(cfg, d.msgs[0].data).Some?)
  {
  }

  lemma TaskKeepsNearStream(c: Coder, cfg: Config, reachable: bool, near: Half, out: Queue, far: Half,
                            side: Side, sid: nat, e: TaskEvent)
    requires Faithful(c) && near.task.Some? && near.task.value.cfg == cfg
    requires Stream(c, cfg, reachable, near, out, far)
    ensures var d := TaskStep(c, near, far, side, sid, e); Stream(c, cfg, reachable, d.near, out + d.msgs, d.far)
  {
    var d := TaskStep(c, near, far, side, sid, e);
    TaskKeepsEntered(c, cfg, near, far, side, sid, e);
    TaskQueues(c, cfg, near, far, side, sid, e);
    QueueingConveys(c, cfg, reachable, near.flow, out, far.task, d.near.flow, d.msgs);
  }

  lemma QueueingConveys(c: Coder, cfg: Config, reachable: bool, f: Flow, out: Queue, far: Option<Endpoint>,
                        f': Flow, msgs: seq<ProxyMessage>)
    requires Decodable(c, cfg, out) && Conveyed(c, cfg, reachable, f, out, far)
    requires |msgs| <= 1 && f'.written == f.written && f'.lost == f.lost
    requires f'.sent == f.sent + (if msgs == [] then [] else PlainOf(c, cfg, msgs[0]))
    requires msgs != [] && IsData(msgs[0]) ==> c.decode(cfg, msgs[0].data).Some?
    ensures Decodable(c, cfg, out + msgs) && Conveyed(c, cfg, reachable, f', out + msgs, far)
  {
    if msgs == [] {
      assert out + msgs == out;
    } else {
      assert msgs == [msgs[0]];
      PayloadAppend(c, cfg, out, msgs[0]);
    }
  }

  /** What a step of the near task does to the far flow: it writes the head of its queue, part of it, or nothing. */
  predicate Writes(f: Flow, w: seq<WriterMessage>, f': Flow, after: Option<Endpoint>) {
    && f'.read == f.read && f'.sent == f.sent
    && (after.Some? ==> f'.lost == f.lost && f.written + Unwritten(w) == f'.written + UnwrittenBy(after))
    && (after.None? ==> f'.written <= f.written + Unwritten(w))
  }

  lemma WriteHeadWrites(near: Half, far: Half, side: Side, sid: nat)
    requires near.task.Some? && near.task.value.writer != []
    ensures var d := WriteHead(near, far, side, sid);
      d.far.task == far.task && Writes(far.flow, near.task.value.writer, d.far.flow, d.near.task)
  {
    var w := near.task.value.writer;
    if w[0].SendAndThen? {
      assert far.flow.written + (w[0].data + Unwritten(w[1..])) == far.flow.written + w[0].data + Unwritten(w[1..]);
    }
  }

  lemma FailedWriteWrites(f: Flow, w: seq<WriterMessage>, wrote: nat)
    requires w != [] && w[0].SendAndThen? && wrote <= |w[0].data|
    ensures Wrote(f, w[0].data[..wrote]).written <= f.written + Unwritten(w)
  {
    assert w[0].data == w[0].data[..wrote] + w[0].data[wrote..];
    assert f.written + Unwritten(w) == f.written + w[0].data[..wrote] + (w[0].data[wrote..] + Unwritten(w[1..]));
  }

  lemma TaskWrites(c: Coder, near: Half, far: Half, side: Side, sid: nat, e: TaskEvent)
    requires near.task.Some?
    ensures var d := TaskStep(c, near, far, side, sid, e);
      d.far.task == far.task && Writes(far.flow, near.task.value.writer, d.far.flow, d.near.task)
  {
    var w := near.task.value.writer;
    if e.Write? && w != [] {
      WriteHeadWrites(near, far, side, sid);
    } else if e.WriteFails? && w != [] && w[0].SendAndThen? && e.wrote <= |w[0].data| {
      FailedWriteWrites(far.flow, w, e.wrote);
    }
  }

  lemma TaskKeepsFarStream(c: Coder, cfg: Config, near: Half, back: Queue, far: Half,
                           side: Side, sid: nat, e: TaskEvent)
    requires near.task.Some?
    requires Stream(c, cfg, true, far, back, near)
    ensures var d := TaskStep(c, near, far, side, sid, e); Stream(c, cfg, d.near.task.Some?, d.far, back, d.near)
  {
    TaskWrites(c, near, far, side, sid, e);
    var d := TaskStep(c, near, far, side, sid, e);
    WritingConveys(c, cfg, far.flow, back, near.task, d.far.flow, d.near.task);
  }

  lemma WritingConveys(c: Coder, cfg: Config, f: Flow, q: Queue, w: Option<Endpoint>, f': Flow, w': Option<Endpoint>)
    requires Conveyed(c, cfg, true, f, q, w) && f'.sent == f.sent
    requires w'.Some? ==> f'.lost == f.lost && f.written + UnwrittenBy(w) == f'.written + UnwrittenBy(w')
    requires w'.None? ==> f'.written <= f.written + UnwrittenBy(w)
    ensures Conveyed(c, cfg, w'.Some?, f', q, w')
  {
    assert f.sent == (f.written + UnwrittenBy(w)) + Payload(c, cfg, q);
  }

  // ---------------------------------------------------------------- deliveries keep them

  /** What a data message at the head of a queue contributes. */
  lemma DataHead(c: Coder, cfg: Config, q: Queue)
    requires q != [] && IsData(q[0]) && Decodable(c, cfg, q)
    ensures DataLen(q) == |q[0].data| + DataLen(q[1..]) && Decodable(c, cfg, q[1..])
    ensures c.decode(cfg, q[0].data).Some?
    ensures Payload(c, cfg, q) == c.decode(cfg, q[0].data).value + Payload(c, cfg, q[1..])
  {
    assert forall k | 0 <= k < |q[1..]| :: q[1..][k] == q[k + 1];
  }

  lemma TakenCredit(ls: bool, sender: Half, q: Queue, rest: Queue, receiver: Half, back: Queue, w: WriterMessage)
    requires receiver.task.Some? && w.SendAndThen? && DataLen(q) == w.ackLen + DataLen(rest)
    requires Credit(ls, sender, q, receiver, back)
    ensures Credit(ls, sender, rest, Push(receiver, w), back)
  {
    WriterAppend(receiver.task.value.writer, w);
  }

  lemma TakenStream(c: Coder, cfg: Config, sender: Half, q: Queue, rest: Queue, receiver: Half, w: WriterMessage)
    requires receiver.task.Some? && w.SendAndThen? && Decodable(c, cfg, rest)
    requires Payload(c, cfg, q) == w.data + Payload(c, cfg, rest) && Stream(c, cfg, true, sender, q, receiver)
    ensures Stream(c, cfg, true, sender, rest, Push(receiver, w))
  {
    WriterAppend(receiver.task.value.writer, w);
    var a, b, p := sender.flow.written, Unwritten(receiver.task.value.writer), Payload(c, cfg, rest);
    Reassociate(a + b, w.data, p);
    Reassociate(a, b, w.data);
  }

  /** The head of the sender's queue is data: it moves on to the receiver's writer or is lost. */
  lemma DataArrives(c: Coder, cfg: Config, ls: bool, lr: bool, reachable: bool, sender: Half, q: Queue, receiver: Half, back: Queue)
    requires q != [] && IsData(q[0])
    requires receiver.task.Some? ==> receiver.task.value.cfg == cfg
    requires reachable ==> Takes(c, receiver, lr, q[0].data)
    requires !reachable ==> !lr
    requires Credit(ls, sender, q, receiver, back) && Stream(c, cfg, reachable, sender, q, receiver)
    ensures var s', r' := Lost(c, sender, receiver, lr, q[0].data), Taken(c, receiver, lr, q[0].data);
      Credit(ls, s', q[1..], r', back) && Stream(c, cfg, reachable, s', q[1..], r')
  {
    var data := q[0].data;
    DataHead(c, cfg, q);
    if Takes(c, receiver, lr, data) {
      var w := SendAndThen(c.decode(cfg, data).value, |data|);
      TakenCredit(ls, sender, q, q[1..], receiver, back, w);
      TakenStream(c, cfg, sender, q, q[1..], receiver, w);
    }
  }

  /** The receiver's own account is untouched by data that arrives. */
  lemma DataArrivesBeside(c: Coder, cfg: Config, ls: bool, lr: bool, reachable: bool, sender: Half, q: Queue, receiver: Half, back: Queue)
    requires q != [] && IsData(q[0])
    requires Credit(ls, receiver, back, sender, q) && Stream(c, cfg, reachable, receiver, back, sender)
    ensures var s', r' := Lost(c, sender, receiver, lr, q[0].data), Taken(c, receiver, lr, q[0].data);
      Credit(ls, r', back, s', q[1..]) && Stream(c, cfg, reachable, r', back, s')
  {
    var s', r' := Lost(c, sender, receiver, lr, q[0].data), Taken(c, receiver, lr, q[0].data);
    assert s'.task == sender.task && r'.flow == receiver.flow;
  }

  /** The head of the queue acknowledges: the counter comes down by exactly that much, never clamped. */
  lemma AckArrives(c: Coder, cfg: Config, reachable: bool, near: Half, out: Queue, far: Half, q: Queue)
    requires q != [] && IsAck(q[0]) && near.task.Some?
    requires Credit(true, near, out, far, q) && Stream(c, cfg, reachable, near, out, far)
    ensures var n' := Acked(near, q[0].dataLen);
      && n'.task.value.readBufLen == near.task.value.readBufLen - q[0].dataLen
      && Credit(true, n', out, far, q[1..]) && Stream(c, cfg, reachable, n', out, far)
  {
  }

  /** What other messages at the head of a queue contribute: nothing but what they acknowledge. */
  lemma CarriesNothing(c: Coder, cfg: Config, q: Queue)
    requires q != [] && !IsData(q[0])
    ensures DataLen(q) == DataLen(q[1..]) && Payload(c, cfg, q) == Payload(c, cfg, q[1..])
    ensures Decodable(c, cfg, q) ==> Decodable(c, cfg, q[1..])
    ensures !IsAck(q[0]) ==> AckLen(q) == AckLen(q[1..])
  {
    assert forall k | 0 <= k < |q[1..]| :: q[1..][k] == q[k + 1];
  }

  lemma AckKeepsStream(c: Coder, cfg: Config, reachable: bool, near: Half, far: Half, q: Queue, rest: Queue, len: nat)
    requires near.task.Some? && Stream(c, cfg, reachable, far, q, near)
    requires Payload(c, cfg, q) == Payload(c, cfg, rest) && Decodable(c, cfg, rest)
    ensures Stream(c, cfg, reachable, far, rest, Acked(near, len))
  {
  }

  lemma AckKeepsCredit(ls: bool, near: Half, out: Queue, far: Half, q: Queue, rest: Queue, len: nat)
    requires near.task.Some? && Credit(ls, far, q, near, out) && DataLen(q) == DataLen(rest)
    ensures Credit(ls, far, rest, Acked(near, len), out)
  {
  }

  /** The acknowledging side's own account is untouched. */
  lemma AckArrivesBeside(c: Coder, cfg: Config, ls: bool, reachable: bool, near: Half, out: Queue, far: Half, q: Queue)
    requires q != [] && IsAck(q[0]) && near.task.Some?
    requires Credit(ls, far, q, near, out) && Stream(c, cfg, reachable, far, q, near)
    ensures var n' := Acked(near, q[0].dataLen); Credit(ls, far, q[1..], n', out) && Stream(c, cfg, reachable, far, q[1..], n')
  {
    CarriesNothing(c, cfg, q);
    AckKeepsCredit(ls, near, out, far, q, q[1..], q[0].dataLen);
    AckKeepsStream(c, cfg, reachable, near, far, q, q[1..], q[0].dataLen);
  }

  /** Dropping a head that carries neither data nor an acknowledgement changes no account. */
  lemma HeadDropped(c: Coder, cfg: Config, ls: bool, lr: bool, rs: bool, rr: bool, sender: Half, q: Queue, receiver: Half, back: Queue)
    requires q != [] && !IsData(q[0])
    requires Credit(ls, sender, q, receiver, back) && Stream(c, cfg, rs, sender, q, receiver)
    requires Credit(lr, receiver, back, sender, q) && Stream(c, cfg, rr, receiver, back, sender)
    ensures Credit(ls, sender, q[1..], receiver, back) && Stream(c, cfg, rs, sender, q[1..], receiver)
    ensures !IsAck(q[0]) || !lr ==> Credit(lr, receiver, back, sender, q[1..])
    ensures Stream(c, cfg, rr, receiver, back, sender)
  {
    CarriesNothing(c, cfg, q);
    SameData(c, cfg, ls, rs, sender, q, q[1..], receiver, back);
  }

  lemma SameData(c: Coder, cfg: Config, ls: bool, rs: bool, sender: Half, q: Queue, rest: Queue, receiver: Half, back: Queue)
    requires DataLen(q) == DataLen(rest) && Payload(c, cfg, q) == Payload(c, cfg, rest) && Decodable(c, cfg, rest)
    requires Credit(ls, sender, q, receiver, back) && Stream(c, cfg, rs, sender, q, receiver)
    ensures Credit(ls, sender, rest, receiver, back) && Stream(c, cfg, rs, sender, rest, receiver)
  {
  }

  /** Nor does a Close in either writer. */
  lemma ClosePushed(c: Coder, cfg: Config, l: bool, r: bool, near: Half, out: Queue, far: Half, back: Queue)
    requires near.task.Some?
    ensures Credit(l, near, out, far, back) ==> Credit(l, Push(near, Close), out, far, back)
    ensures Stream(c, cfg, r, near, out, far) ==> Stream(c, cfg, r, Push(near, Close), out, far)
    ensures Credit(l, far, back, near, out) ==> Credit(l, far, back, Push(near, Close), out)
    ensures Stream(c, cfg, r, far, back, near) ==> Stream(c, cfg, r, far, back, Push(near, Close))
  {
    WriterAppend(near.task.value.writer, Close);
  }

  /** Nor does a control message that joins a queue. */
  lemma ControlQueued(c: Coder, cfg: Config, l: bool, r: bool, near: Half, out: Queue, far: Half, back: Queue, m: ProxyMessage)
    requires !IsData(m) && !IsAck(m)
    ensures Credit(l, near, out, far, back) ==> Credit(l, near, out + [m], far, back)
    ensures Stream(c, cfg, r, near, out, far) ==> Stream(c, cfg, r, near, out + [m], far)
    ensures Credit(l, far, back, near, out) ==> Credit(l, far, back, near, out + [m])
  {
    LengthsAppend(out, m);
    PayloadAppend(c, cfg, out, m);
    assert Payload(c, cfg, out + [m]) == Payload(c, cfg, out);
  }
}
