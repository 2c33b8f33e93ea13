/** The mutable objects behind the step system: the limiter, the writer loop, the inlet and the outlet. */
module Endpoints {
  import opened Bytes
  import opened Codec
  import opened Messages
  import opened Session

  // ---------------------------------------------------------------- the limiter

  /** The counter after a series of acknowledgements. */
  function AfterAcks(n: nat, acks: seq<nat>): (r: nat) {
    if acks == [] then n
    else
      var last, before := acks[|acks| - 1], AfterAcks(n, acks[..|acks| - 1]);
      if before <= last then 0 else before - last
  }

  /** A half that receives these acknowledgements, one after the other. */
  function AckedAll(h: Half, acks: seq<nat>): (r: Half)
    requires h.task.Some?
    ensures r.task.Some?
  {
    if acks == [] then h else Acked(AckedAll(h, acks[..|acks| - 1]), acks[|acks| - 1])
  }

  /** Acknowledgements touch the counter and nothing else. */
  lemma {:induction false} AckedAllCounts(h: Half, acks: seq<nat>)
    requires h.task.Some?
    ensures AckedAll(h, acks)
      == h.(task := Some(h.task.value.(readBufLen := AfterAcks(h.task.value.readBufLen, acks))))
  {
    if acks != [] {
      AckedAllCounts(h, acks[..|acks| - 1]);
    }
  }

  /**
   * What encode_data_and_limiting does with a counter n while these acknowledgements arrive: it goes on at
   * the first moment the counter is within the limit, and not before.
   */
  ghost predicate Limited(c: Coder, cfg: Config, raw: Bytes, nonce: Bytes, n: nat, acks: seq<nat>,
                          data: Option<Bytes>, used: nat, blocked: bool, n': nat) {
    && used <= |acks| && data == c.encode(cfg, nonce, raw)
    && (data.None? ==> used == 0 && !blocked && n' == n)
    && (data.Some? ==>
          && (forall k | 0 <= k < used :: AfterAcks(n, acks[..k]) > READ_BUF_MAX_LEN)
          && (blocked <==> used == |acks| && AfterAcks(n, acks) > READ_BUF_MAX_LEN)
          && (!blocked ==> AfterAcks(n, acks[..used]) <= READ_BUF_MAX_LEN)
          && n' == AfterAcks(n, acks[..used]) + if blocked then 0 else |data.value|)
  }

  /** SessionCommonInfo: a codec configuration and the shared count of unacknowledged bytes. */
  class SessionCommonInfo {
    const coder: Coder
    const cfg: Config
    var readBufLen: nat

    constructor (coder: Coder, cfg: Config)
      ensures this.coder == coder && this.cfg == cfg && readBufLen == 0
    {
      this.coder, this.cfg, readBufLen := coder, cfg, 0;
    }

    method Acknowledge(len: nat)
      modifies this
      ensures readBufLen == AfterAcks(old(readBufLen), [len])
    {
      assert [len][..0] == [];
      if readBufLen <= len {
        readBufLen := 0;
      } else {
        readBufLen := readBufLen - len;
      }
    }

    /** encode_data_and_limiting, where `acks` are the acknowledgements that arrive while it waits. */
    method EncodeDataAndLimiting(raw: Bytes, nonce: Bytes, acks: seq<nat>)
      returns (data: Option<Bytes>, used: nat, blocked: bool)
      modifies this
      ensures Limited(coder, cfg, raw, nonce, old(readBufLen), acks, data, used, blocked, readBufLen)
      ensures data.Some? && !blocked ==> readBufLen <= READ_BUF_MAX_LEN + |data.value|
    {
      used, blocked := 0, false;
      data := coder.encode(cfg, nonce, raw);
      if data.None? {
        return;
      }
      while readBufLen > READ_BUF_MAX_LEN && used < |acks|
        invariant used <= |acks| && readBufLen == AfterAcks(old(readBufLen), acks[..used])
        invariant forall k | 0 <= k < used :: AfterAcks(old(readBufLen), acks[..k]) > READ_BUF_MAX_LEN
      {
        assert acks[..used + 1][..used] == acks[..used];
        assert AfterAcks(readBufLen, [acks[used]]) == AfterAcks(old(readBufLen), acks[..used + 1]) by {
          assert [acks[used]][..0] == [];
        }
        Acknowledge(acks[used]);
        used := used + 1;
      }
      assert acks[..|acks|] == acks;
      blocked := readBufLen > READ_BUF_MAX_LEN;
      if !blocked {
        readBufLen := readBufLen + |data.value|;
      }
    }
  }

  /**
   * In the step system the limiter is Read, then Pass, which does nothing as long as the loop waits and is
   * taken when it goes on, then Count.
   */
  lemma LimiterIsPassThenCount(c: Coder, near: Half, far: Half, side: Side, sid: nat, raw: Bytes, nonce: Bytes,
                               acks: seq<nat>, data: Option<Bytes>, used: nat, blocked: bool, n': nat)
    requires near.task.Some? && near.task.value.reader == Idle && raw != []
    requires Limited(c, near.task.value.cfg, raw, nonce, near.task.value.readBufLen, acks, data, used, blocked, n')
    ensures var h := TaskStep(c, near, far, side, sid, Read(raw, nonce)).near;
      if data.None? then h.task.None? else
      && h.task.Some? && h.task.value.reader == Held(raw, data.value)
      && (forall k | 0 <= k < used || (k == used && blocked) ::
            var waiting := AckedAll(h, acks[..k]); TaskStep(c, waiting, far, side, sid, Pass).near == waiting)
      && (!blocked ==>
            var passed := TaskStep(c, AckedAll(h, acks[..used]), far, side, sid, Pass).near;
            var counted := TaskStep(c, passed, far, side, sid, Count).near;
            && counted.task.Some? && counted.task.value.readBufLen == n'
            && counted.task.value.reader == Counted(raw, data.value))
  {
    if data.Some? {
      var h := TaskStep(c, near, far, side, sid, Read(raw, nonce)).near;
      forall k | 0 <= k < used || (k == used && blocked)
        ensures TaskStep(c, AckedAll(h, acks[..k]), far, side, sid, Pass).near == AckedAll(h, acks[..k])
      {
        AckedAllCounts(h, acks[..k]);
        assert k == |acks| ==> acks[..k] == acks;
      }
      AckedAllCounts(h, acks[..used]);
    }
  }

  // ---------------------------------------------------------------- the writer loop

  function JobData(m: WriterMessage): (b: Bytes) { if m.Send? || m.SendAndThen? then m.data else [] }

  predicate Ends(m: WriterMessage) { m.Close? || m.CloseDelayed? }

  /** The bytes of the first n jobs. */
  function AllData(jobs: seq<WriterMessage>, n: nat): (b: Bytes)
    requires n <= |jobs|
  {
    if n == 0 then [] else AllData(jobs, n - 1) + JobData(jobs[n - 1])
  }

  /** The acknowledgements the first n jobs give rise to. */
  function AllAcks(jobs: seq<WriterMessage>, n: nat): (a: seq<nat>)
    requires n <= |jobs|
  {
    if n == 0 then [] else
    AllAcks(jobs, n - 1) + if jobs[n - 1].SendAndThen? then [jobs[n - 1].ackLen] else []
  }

  lemma CutShort(before: Bytes, data: Bytes, n: nat)
    requires n <= |data|
    ensures before <= before + data[..n] <= before + data
  {
  }

  /**
   * What poll_write does with a queue, on a socket that takes `room` more bytes before it fails.  Jobs are
   * done in order up to the first Close; a chunk is acknowledged only once all of it has been written.
   */
  predicate Polled(jobs: seq<WriterMessage>, room: nat, written: Bytes, acks: seq<nat>, done: nat) {
    && done <= |jobs| && acks == AllAcks(jobs, done)
    && (forall k | 0 <= k < done :: !Ends(jobs[k]))
    && if done == |jobs| || Ends(jobs[done]) then written == AllData(jobs, done)
       else |written| == room < |AllData(jobs, done + 1)| && AllData(jobs, done) <= written <= AllData(jobs, done + 1)
  }

  method PollWrite(jobs: seq<WriterMessage>, room: nat) returns (written: Bytes, acks: seq<nat>, done: nat)
    ensures Polled(jobs, room, written, acks, done)
  {
    written, acks, done := [], [], 0;
    while done < |jobs| && !Ends(jobs[done])
      invariant done <= |jobs|
      invariant forall k | 0 <= k < done :: !Ends(jobs[k])
      invariant written == AllData(jobs, done) && acks == AllAcks(jobs, done) && |written| <= room
    {
      var data := JobData(jobs[done]);
      if |written| + |data| > room {
        CutShort(written, data, room - |written|);
        written := written + data[..room - |written|];
        return;
      }
      written := written + data;
      if jobs[done].SendAndThen? {
        acks := acks + [jobs[done].ackLen];
      }
      done := done + 1;
    }
  }

  lemma {:induction false} MoreData(jobs: seq<WriterMessage>, n: nat, k: nat)
    requires n <= k <= |jobs|
    ensures AllData(jobs, n) <= AllData(jobs, k)
  {
    if n < k {
      MoreData(jobs, n, k - 1);
    }
  }

  /** Nothing behind a Close, delayed or not, is written or acknowledged. */
  lemma NothingBehindAClose(jobs: seq<WriterMessage>, room: nat, written: Bytes, acks: seq<nat>, done: nat, k: nat)
    requires Polled(jobs, room, written, acks, done)
    requires k < |jobs| && (jobs[k].Close? || jobs[k].CloseDelayed?)
    ensures done <= k && written <= AllData(jobs, k)
  {
    MoreData(jobs, done, k);
    if done < k && !Ends(jobs[done]) {
      MoreData(jobs, done + 1, k);
      Longer(written, AllData(jobs, done + 1), AllData(jobs, k));
    }
  }

  lemma Longer(a: Bytes, b: Bytes, d: Bytes)
    requires a <= b <= d
    ensures a <= d
  {
  }

  /** Where there is room, everything before the first Close is written. */
  lemma AllBeforeAClose(jobs: seq<WriterMessage>, room: nat, written: Bytes, acks: seq<nat>, done: nat, k: nat)
    requires Polled(jobs, room, written, acks, done)
    requires k <= |jobs| && (forall j | 0 <= j < k :: jobs[j].Send? || jobs[j].SendAndThen?) && |AllData(jobs, k)| <= room
    ensures k <= done && AllData(jobs, k) <= AllData(jobs, done) <= written
  {
    if done < k {
      MoreData(jobs, done + 1, k);
    } else {
      MoreData(jobs, k, done);
    }
  }

  /** n Write steps of a task, and the messages they put on its queue. */
  function WriteSteps(c: Coder, near: Half, far: Half, side: Side, sid: nat, n: nat): (d: Done) {
    if n == 0 then Done(near, far, []) else
    var d := WriteSteps(c, near, far, side, sid, n - 1);
    var e := TaskStep(c, d.near, d.far, side, sid, Write);
    Done(e.near, e.far, d.msgs + e.msgs)
  }

  function AckMsgs(side: Side, sid: nat, lens: seq<nat>): (ms: seq<ProxyMessage>) {
    seq(|lens|, k requires 0 <= k < |lens| => AckMsg(side, sid, lens[k]))
  }

  lemma AckMsgsSnoc(side: Side, sid: nat, lens: seq<nat>, len: nat)
    ensures AckMsgs(side, sid, lens + [len]) == AckMsgs(side, sid, lens) + [AckMsg(side, sid, len)]
  {
  }

  lemma ChunkWritten(f: Flow, a: Bytes, b: Bytes)
    ensures Wrote(Wrote(f, a), b) == Wrote(f, a + b)
  {
    assert f.written + a + b == f.written + (a + b);
  }

  /** They write the data of n chunks and acknowledge each. */
  lemma {:induction false} WriteStepsDo(c: Coder, near: Half, far: Half, side: Side, sid: nat, n: nat)
    requires near.task.Some? && n <= |near.task.value.writer|
    requires forall k | 0 <= k < n :: near.task.value.writer[k].SendAndThen?
    ensures var ep := near.task.value;
      WriteSteps(c, near, far, side, sid, n)
        == Done(near.(task := Some(ep.(writer := ep.writer[n..]))),
                far.(flow := Wrote(far.flow, AllData(ep.writer, n))), AckMsgs(side, sid, AllAcks(ep.writer, n)))
  {
    var jobs := near.task.value.writer;
    if n == 0 {
      assert jobs[0..] == jobs && far.flow.written + [] == far.flow.written;
    } else {
      WriteStepsDo(c, near, far, side, sid, n - 1);
      assert jobs[n - 1..][0] == jobs[n - 1] && jobs[n - 1..][1..] == jobs[n..];
      ChunkWritten(far.flow, AllData(jobs, n - 1), jobs[n - 1].data);
      AckMsgsSnoc(side, sid, AllAcks(jobs, n - 1), jobs[n - 1].ackLen);
    }
  }

  /**
   * On a writer of chunks and Closes, poll_write is as many Write steps as it does jobs: the same bytes, the
   * same acknowledgements.  Then it is out of jobs, or closes the task, or fails within the next chunk.
   */
  lemma PollWriteIsWriteSteps(c: Coder, near: Half, far: Half, side: Side, sid: nat,
                              room: nat, written: Bytes, acks: seq<nat>, done: nat)
    requires near.task.Some? && Polled(near.task.value.writer, room, written, acks, done)
    requires forall k | 0 <= k < |near.task.value.writer| ::
      near.task.value.writer[k].SendAndThen? || near.task.value.writer[k].Close?
    ensures var jobs, d := near.task.value.writer, WriteSteps(c, near, far, side, sid, done);
      && d.msgs == AckMsgs(side, sid, acks) && d.near.task.Some?
      && if done == |jobs| then d.near.task.value.writer == [] && d.far.flow.written == far.flow.written + written
         else if jobs[done].Close? then
           TaskStep(c, d.near, d.far, side, sid, Write) == CloseTask(d.near, d.far, side, sid)
           && d.far.flow.written == far.flow.written + written
         else
           var f := TaskStep(c, d.near, d.far, side, sid, WriteFails(room - |AllData(jobs, done)|));
           f.near.task.None? && f.far.flow.written == far.flow.written + written && f.msgs == [ByeMsg(side, sid)]
  {
    var jobs := near.task.value.writer;
    WriteStepsDo(c, near, far, side, sid, done);
    if done < |jobs| {
      assert jobs[done..][0] == jobs[done];
      if !jobs[done].Close? {
        var a, b, n := AllData(jobs, done), jobs[done].data, room - |AllData(jobs, done)|;
        assert written == (a + b)[..room] && (a + b)[..room] == a + b[..n];
        ChunkWritten(far.flow, a, b[..n]);
      }
    }
  }

  // ---------------------------------------------------------------- the inlet

  /** Messages that a session with a SOCKS5 context leaves to the context. */
  predicate ForContext(m: ProxyMessage) { m.O2iConnect? || m.O2iRecvData? || m.O2iRecvDataFrom? }

  class Inlet {
    const coder: Coder
    var sessions: map<nat, Endpoint>
    /** The queues to the SOCKS5 contexts of the sessions that have one. */
    var inboxes: map<nat, seq<ProxyMessage>>
    var output: seq<ProxyMessage>

    constructor (coder: Coder)
      ensures this.coder == coder && sessions == map[] && inboxes == map[] && output == []
    {
      this.coder, sessions, inboxes, output := coder, map[], map[], [];
    }

    function Find(sid: nat): (e: Option<Endpoint>)
      reads this
    {
      if sid in sessions then Some(sessions[sid]) else None
    }

    function Inbox(sid: nat): (q: Option<seq<ProxyMessage>>)
      reads this
    {
      if sid in inboxes then Some(inboxes[sid]) else None
    }

    /** on_session_start: the session is registered; its connect is queued, or left to its context to ask for. */
    method OnSessionStart(sid: nat, cfg: Config, addr: string, isSocks5: bool)
      modifies this
      ensures Find(sid) == Started(cfg, addr).inlet.task && Inbox(sid) == if isSocks5 then Some([]) else None
      ensures forall id | id != sid :: Find(id) == old(Find(id)) && Inbox(id) == old(Inbox(id))
      ensures output == old(output) + if isSocks5 then [] else [ConnectMsg(coder, sid, cfg, addr)]
    {
      sessions := sessions[sid := NewEndpoint(cfg)];
      if isSocks5 {
        inboxes := inboxes[sid := []];
      } else {
        inboxes := inboxes - {sid};
        output := output + [ConnectMsg(coder, sid, cfg, addr)];
      }
    }

    /** on_session_close does to the inlet what CloseTask does to the session. */
    method OnSessionClose(sid: nat)
      modifies this
      ensures forall near: Half, far: Half | near.task == old(Find(sid)) ::
        Find(sid) == CloseTask(near, far, Side.Inlet, sid).near.task
        && output == old(output) + CloseTask(near, far, Side.Inlet, sid).msgs
      ensures Inbox(sid) == None
      ensures forall id | id != sid :: Find(id) == old(Find(id)) && Inbox(id) == old(Inbox(id))
    {
      sessions, inboxes := sessions - {sid}, inboxes - {sid};
      output := output + [I2oDisconnect(sid)];
    }

    /**
     * input_internal does to a session without a context what InletInput does, hands a context its messages,
     * and touches no other session.  It knows exactly the messages that outlets send.  Datagrams for a session
     * without a context are a panic.
     */
    method InputInternal(m: ProxyMessage) returns (panics: bool, known: bool)
      modifies this
      ensures known <==> !IsI2o(m)
      ensures panics <==> m.O2iRecvDataFrom? && old(Find(m.sid)).Some? && old(Inbox(m.sid)).None?
      ensures old(Inbox(m.sid)).Some? && old(Find(m.sid)).Some? && ForContext(m) ==>
        Find(m.sid) == old(Find(m.sid)) && Inbox(m.sid) == Some(old(Inbox(m.sid)).value + [m])
      ensures old(Inbox(m.sid)).None? || old(Find(m.sid)).None? || !ForContext(m) ==>
        && (forall l: Local | l.inlet.task == old(Find(m.sid)) :: InletInput(coder, l, m).inlet.task == Find(m.sid))
        && Inbox(m.sid) == old(Inbox(m.sid))
      ensures forall id | id != m.sid :: Find(id) == old(Find(id)) && Inbox(id) == old(Inbox(id))
      ensures output == old(output)
    {
      panics := false;
      known := m.O2iConnect? || m.O2iDisconnect? || m.O2iSendDataResult? || m.O2iRecvDataFrom? || m.O2iRecvData?;
      if m.sid !in sessions {
        return;
      }
      if m.sid in inboxes && ForContext(m) {
        inboxes := inboxes[m.sid := inboxes[m.sid] + [m]];
        return;
      }
      var s := sessions[m.sid];
      match m {
        case O2iConnect(_, success, _) =>
          if !success {
            s := s.(writer := s.writer + [Close]);
          }
        case O2iDisconnect(_) =>
          s := s.(writer := s.writer + [Close]);
        case O2iSendDataResult(_, dataLen) =>
          if s.readBufLen <= dataLen {
            s := s.(readBufLen := 0);
          } else {
            s := s.(readBufLen := s.readBufLen - dataLen);
          }
        case O2iRecvDataFrom(_, _, _) =>
          panics := true;
        case O2iRecvData(_, data) =>
          var plain := coder.decode(s.cfg, data);
          if plain.Some? {
            s := s.(writer := s.writer + [SendAndThen(plain.value, |data|)]);
          }
        case _ =>
      }
      sessions := sessions[m.sid := s];
    }
  }

  // ---------------------------------------------------------------- the outlet

  class Outlet {
    const coder: Coder
    var registered: set<nat>
    var tasks: map<nat, Endpoint>
    var dialled: map<nat, string>
    var output: seq<ProxyMessage>

    constructor (coder: Coder)
      ensures this.coder == coder && registered == {} && tasks == map[] && dialled == map[] && output == []
    {
      this.coder, registered, tasks, dialled, output := coder, {}, map[], map[], [];
    }

    function Find(sid: nat): (e: Option<Endpoint>)
      reads this
    {
      if sid in tasks then Some(tasks[sid]) else None
    }

    function Dialled(sid: nat): (addr: Option<string>)
      reads this
    {
      if sid in dialled then Some(dialled[sid]) else None
    }

    /** What this outlet knows of a session. */
    ghost predicate Shows(l: Local, sid: nat)
      reads this
    {
      && l.outlet.task == Find(sid) && l.registered == (sid in registered)
      && l.dialled == Dialled(sid)
    }

    /** input_internal does to the outlet what OutletInput does to the session, and touches no other session. */
    method InputInternal(m: ProxyMessage, dialSucceeds: bool) returns (known: bool)
      modifies this
      ensures known <==> IsI2o(m)
      ensures forall l: Local | old(Shows(l, m.sid)) ::
        Shows(OutletInput(coder, l, m, dialSucceeds).0, m.sid)
        && output == old(output) + OutletInput(coder, l, m, dialSucceeds).1
      ensures forall id | id != m.sid ::
        Find(id) == old(Find(id)) && (id in registered <==> id in old(registered)) && Dialled(id) == old(Dialled(id))
    {
      var sid := m.sid;
      known := true;
      match m {
        case I2oConnect(_, tunnelType, _, addr, offer, _) =>
          var cfg := coder.accept(offer);
          if (sid in registered && sid in tasks) || cfg.None? || !ValidTunnelType(tunnelType) || !dialSucceeds {
            output := output + [O2iConnect(sid, false, "")];
          } else {
            registered := registered + {sid};
            tasks := tasks[sid := NewEndpoint(cfg.value)];
            dialled := dialled[sid := addr];
            output := output + [O2iConnect(sid, true, "")];
          }
        case I2oSendData(_, data) =>
          if sid in registered && sid in tasks {
            var s := tasks[sid];
            var plain := coder.decode(s.cfg, data);
            if plain.Some? {
              tasks := tasks[sid := s.(writer := s.writer + [SendAndThen(plain.value, |data|)])];
            }
          }
        case I2oDisconnect(_) =>
          if sid in registered && sid in tasks {
            registered := registered - {sid};
            tasks := tasks[sid := tasks[sid].(writer := tasks[sid].writer + [Close])];
          }
        case I2oRecvDataResult(_, dataLen) =>
          if sid in registered && sid in tasks {
            var s := tasks[sid];
            if s.readBufLen <= dataLen {
              tasks := tasks[sid := s.(readBufLen := 0)];
            } else {
              tasks := tasks[sid := s.(readBufLen := s.readBufLen - dataLen)];
            }
          }
        case I2oSendToData(_, _, _) =>
        case _ =>
          known := false;
      }
      assert output == old(output) + output[|old(output)|..];
    }

    /** The handler of a good connect answers again, once it has seen the session registered or has given up. */
    method AnswerConnect(sid: nat, saw: bool)
      requires saw || sid !in registered
      modifies this`output
      ensures old(output) <= output
      ensures forall s: State | s.pending && Shows(s.l, sid) ::
        s.o2i + output[|old(output)|..] == Step(coder, s, sid, Answer(saw)).o2i
    {
      output := output + [O2iConnect(sid, saw, "")];
    }

    /** on_session_close of the outlet task. */
    method OnSessionClose(sid: nat)
      modifies this
      ensures forall near: Half, far: Half | near.task == old(Find(sid)) ::
        Find(sid) == CloseTask(near, far, Side.Outlet, sid).near.task
        && output == old(output) + CloseTask(near, far, Side.Outlet, sid).msgs
      ensures registered == old(registered) - {sid} && dialled == old(dialled)
      ensures forall id | id != sid :: Find(id) == old(Find(id))
    {
      registered := registered - {sid};
      tasks := tasks - {sid};
      output := output + [O2iDisconnect(sid)];
    }
  }

  // ---------------------------------------------------------------- the connect handler, and delayed closes

  /** A connect is answered well exactly if the session is new, its codec and type are known and the dial succeeds. */
  lemma ConnectAnsweredIff(c: Coder, l: Local, m: ProxyMessage, ok: bool)
    requires m.I2oConnect?
    ensures var (l', msgs) := OutletInput(c, l, m, ok);
      if !(l.registered && l.outlet.task.Some?) && c.accept(m.offer).Some? && m.tunnelType <= 2 && ok then
        && msgs == [O2iConnect(m.sid, true, "")] && l'.registered && l'.dialled == Some(m.addr)
        && l'.outlet.task == Some(NewEndpoint(c.accept(m.offer).value)) && l'.inlet == l.inlet
        && (l.dial != Joined ==> Waits(l, l'))
      else
        && msgs == [O2iConnect(m.sid, false, "")] && l'.outlet == l.outlet && l'.registered == l.registered
        && !Waits(l, l')
  {
  }

  /** The second answer says what the handler saw, and misses a session only if it is gone; meanwhile no message is taken. */
  lemma SecondAnswer(c: Coder, s: State, sid: nat, saw: bool)
    requires s.pending
    ensures var s' := Step(c, s, sid, Answer(saw));
      if saw || !s.l.registered
      then s' == s.(pending := false, o2i := s.o2i + [O2iConnect(sid, saw, "")])
      else s' == s
    ensures forall ok: bool :: Step(c, s, sid, DeliverI2o(ok)) == s
  {
  }

  /** A delayed close ends the task like any other; a reply is written without an acknowledgement. */
  lemma OtherJobs(c: Coder, near: Half, far: Half, side: Side, sid: nat)
    requires near.task.Some? && near.task.value.writer != []
    ensures var w, d := near.task.value.writer, TaskStep(c, near, far, side, sid, Write);
      && (w[0].CloseDelayed? || w[0].Close? ==> d == CloseTask(near, far, side, sid))
      && (w[0].Send? ==> d == Done(near.(task := Some(near.task.value.(writer := w[1..]))), far, []))
  {
  }
}
