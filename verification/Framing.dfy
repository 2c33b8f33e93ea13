/**
 * Message frames on the connection between client and server: packing, reassembly from arbitrary
 * TCP chunks, and the server's switch to forwarding traffic that is not npipe's.
 * np_client/src/client.rs, np_server/src/peer/mod.rs, np_base/src/net/tcp_session.rs.
 */
module Framing {
  import opened Bytes

  const FLAG: byte := 33
  const CLIENT_LIMIT: nat := 1024 * 1024 * 5
  const SERVER_LIMIT: nat := 1024 * 1024 * 2

  // ---------------------------------------------------------------- messages and frames

  type i32 = x: int | -0x8000_0000 <= x < 0x8000_0000

  datatype Message = Message(serial: i32, id: u32, body: Bytes)

  /** Two's complement, as write_i32 and read_i32 have it. */
  function AsU32(x: i32): (u: u32) { if x < 0 then x + U32_END else x }

  function AsI32(u: u32): (x: i32) { if u < 0x8000_0000 then u else u - U32_END }

  /** package_and_send_message; the length field is the sum cast to 32 bits. */
  function Pack(m: Message): (b: Bytes) {
    [FLAG] + Be32((8 + |m.body|) % U32_END) + Contents(m)
  }

  /** The frame a receiver extracts. */
  function Contents(m: Message): (b: Bytes) { Be32(AsU32(m.serial)) + Be32(m.id) + m.body }

  /** on_recv_frame up to the decoding of the body; None when the frame is too short. */
  function Unpack(frame: Bytes): (r: Option<Message>) {
    if |frame| < 8 then None
    else Some(Message(AsI32(FromBe32(frame[..4])), FromBe32(frame[4..8]), frame[8..]))
  }

  lemma UnpackInvertsContents(m: Message)
    ensures Unpack(Contents(m)) == Some(m)
  {
    var f := Contents(m);
    assert f[..4] == Be32(AsU32(m.serial)) && f[4..8] == Be32(m.id) && f[8..] == m.body;
    Be32RoundTrip(AsU32(m.serial), f[..4]);
    Be32RoundTrip(m.id, f[4..8]);
  }

  // ---------------------------------------------------------------- one frame

  /** What an extractor makes of a buffer: a frame and the rest, a wait for more, or an error. */
  datatype Cut =
    | Frame(frame: Bytes, rest: Bytes)
    | More
    | Bad

  /** The part of try_extract_frame and on_try_extract_frame behind the flag check. */
  function CutFrame(limit: nat, b: Bytes): (r: Cut) {
    if |b| < 5 then More
    else
      var len := FromBe32(b[1..5]);
      if len == 0 || len >= limit then Bad
      else if |b| < 5 + len then More
      else Frame(b[5..5 + len], b[5 + len..])
  }

  /** The reader holds an incomplete frame, has switched to forwarding, or has returned an error. */
  datatype Reader =
    | Reading(rest: Bytes)
    | Forwarding
    | Failed

  /** Everything the read loop has produced: the frames handed on and the bytes forwarded. */
  datatype Progress = Progress(reader: Reader, frames: seq<Bytes>, forwarded: Bytes)

  const FRESH := Progress(Reading([]), [], [])

  /**
   * A receiving end: its size limit, whether it can create a forwarding channel (a client never can), and
   * whether on_recv_frame accepts the last of the frames handed to it so far.  A refusal ends the loop.
   */
  datatype Receiver = Receiver(limit: nat, forwards: bool, accepts: seq<Bytes> -> bool)

  /** The unpacking loop, after the frames seen so far, until it needs more bytes, forwards or fails. */
  function Drain(e: Receiver, seen: seq<Bytes>, b: Bytes): (p: Progress)
    decreases |b|
  {
    if b == [] then Progress(Reading([]), seen, [])
    else if b[0] != FLAG then (if e.forwards then Progress(Forwarding, seen, b) else Progress(Failed, seen, []))
    else
      match CutFrame(e.limit, b)
      case Bad => Progress(Failed, seen, [])
      case More => Progress(Reading(b), seen, [])
      case Frame(frame, rest) =>
        if e.accepts(seen + [frame]) then Drain(e, seen + [frame], rest) else Progress(Failed, seen + [frame], [])
  }

  /** One chunk read from the socket. */
  function Receive(e: Receiver, p: Progress, chunk: Bytes): (r: Progress) {
    match p.reader
    case Failed => p
    case Forwarding => p.(forwarded := p.forwarded + chunk)
    case Reading(rest) => Drain(e, p.frames, rest + chunk)
  }

  function ReceiveAll(e: Receiver, p: Progress, chunks: seq<Bytes>): (r: Progress) {
    if chunks == [] then p
    else Receive(e, ReceiveAll(e, p, chunks[..|chunks| - 1]), chunks[|chunks| - 1])
  }

  // ---------------------------------------------------------------- chunking makes no difference

  /** Later bytes do not change what a cut has found. */
  lemma CutExtends(limit: nat, a: Bytes, b: Bytes)
    ensures CutFrame(limit, a).Bad? ==> CutFrame(limit, a + b).Bad?
    ensures CutFrame(limit, a).Frame? ==>
      CutFrame(limit, a + b) == Frame(CutFrame(limit, a).frame, CutFrame(limit, a).rest + b)
  {
    if |a| >= 5 {
      assert (a + b)[1..5] == a[1..5];
      var r := CutFrame(limit, a);
      if r.Frame? {
        var n := 5 + FromBe32(a[1..5]);
        assert (a + b)[5..n] == a[5..n] && (a + b)[n..] == a[n..] + b;
      }
    }
  }

  /** Draining a buffer and then receiving more is draining the whole. */
  lemma {:induction false} DrainThenReceive(e: Receiver, seen: seq<Bytes>, a: Bytes, b: Bytes)
    ensures Receive(e, Drain(e, seen, a), b) == Drain(e, seen, a + b)
    decreases |a|
  {
    if a == [] {
      assert [] + b == a + b;
    } else {
      assert (a + b)[0] == a[0];
      var cut := CutFrame(e.limit, a);
      CutExtends(e.limit, a, b);
      if a[0] == FLAG && cut.Frame? && e.accepts(seen + [cut.frame]) {
        DrainThenReceive(e, seen + [cut.frame], cut.rest, b);
      }
    }
  }

  /** However the stream is cut into chunks, the frames, the forwarded bytes, the rest and the error are the same. */
  lemma {:induction false} ChunkingIsInvisible(e: Receiver, chunks: seq<Bytes>)
    ensures ReceiveAll(e, FRESH, chunks) == Drain(e, [], Flatten(chunks))
    decreases |chunks|
  {
    if chunks != [] {
      var n := |chunks| - 1;
      ChunkingIsInvisible(e, chunks[..n]);
      DrainThenReceive(e, [], Flatten(chunks[..n]), chunks[n]);
      FlattenSnoc(chunks[..n], chunks[n]);
      assert chunks == chunks[..n] + [chunks[n]];
    }
  }

  lemma FlattenSnoc(chunks: seq<Bytes>, chunk: Bytes)
    ensures Flatten(chunks + [chunk]) == Flatten(chunks) + chunk
  {
    FlattenAppend(chunks, [chunk]);
    assert [chunk][1..] == [];
    assert Flatten([chunk]) == chunk;
  }

  // ---------------------------------------------------------------- what is received is what was sent

  function PackAll(ms: seq<Message>): (b: Bytes) {
    if ms == [] then [] else Pack(ms[0]) + PackAll(ms[1..])
  }

  function ContentsOf(ms: seq<Message>): (fs: seq<Bytes>)
    ensures |fs| == |ms|
  {
    seq(|ms|, k requires 0 <= k < |ms| => Contents(ms[k]))
  }

  lemma CutPacked(limit: nat, m: Message, more: Bytes)
    requires 8 + |m.body| < limit <= U32_END
    ensures CutFrame(limit, Pack(m) + more) == Frame(Contents(m), more)
  {
    var b, len := Pack(m) + more, 8 + |m.body|;
    Be32RoundTrip(len, Be32(len));
    assert b[1..5] == Be32(len);
    assert b[5..5 + len] == Contents(m) && b[5 + len..] == more;
  }

  /** How many frames, of those from k on, are handed on: all of them, or up to the first that is refused. */
  function HandedOn(e: Receiver, fs: seq<Bytes>, k: nat): (n: nat)
    requires k <= |fs|
    ensures k <= n <= |fs|
    ensures forall j | k < j < n :: e.accepts(fs[..j])
    ensures n < |fs| ==> n > k && !e.accepts(fs[..n])
    decreases |fs| - k
  {
    if k == |fs| then k else if e.accepts(fs[..k + 1]) then HandedOn(e, fs, k + 1) else k + 1
  }

  /** Whether a refusal is among them. */
  predicate Refused(e: Receiver, fs: seq<Bytes>, k: nat, n: nat)
    requires k <= n <= |fs|
  {
    n > k && !e.accepts(fs[..n])
  }

  function Outcome(e: Receiver, fs: seq<Bytes>, k: nat): (p: Progress)
    requires k <= |fs|
  {
    var n := HandedOn(e, fs, k);
    Progress(if Refused(e, fs, k, n) then Failed else Reading([]), fs[..n], [])
  }

  lemma {:induction false} DrainPacked(e: Receiver, ms: seq<Message>, k: nat)
    requires e.limit <= U32_END && k <= |ms| && (forall j | 0 <= j < |ms| :: 8 + |ms[j].body| < e.limit)
    ensures Drain(e, ContentsOf(ms)[..k], PackAll(ms[k..])) == Outcome(e, ContentsOf(ms), k)
    decreases |ms| - k
  {
    var fs := ContentsOf(ms);
    if k < |ms| {
      CutPacked(e.limit, ms[k], PackAll(ms[k..][1..]));
      assert ms[k..][0] == ms[k] && ms[k..][1..] == ms[k + 1..];
      assert fs[..k] + [fs[k]] == fs[..k + 1];
      DrainPacked(e, ms, k + 1);
    }
  }

  /**
   * Any sequence of messages within the limit, in any chunks, comes back exactly, up to and with the first
   * that is refused; if none is, nothing is left over.
   */
  lemma MessagesComeBack(e: Receiver, ms: seq<Message>, chunks: seq<Bytes>)
    requires e.limit <= U32_END && (forall k | 0 <= k < |ms| :: 8 + |ms[k].body| < e.limit)
    requires Flatten(chunks) == PackAll(ms)
    ensures var p, n := ReceiveAll(e, FRESH, chunks), HandedOn(e, ContentsOf(ms), 0);
      && |p.frames| == n && p.forwarded == []
      && (forall k | 0 <= k < n :: Unpack(p.frames[k]) == Some(ms[k]))
      && p.reader == (if n == |ms| && (n > 0 ==> e.accepts(p.frames)) then Reading([]) else Failed)
  {
    ChunkingIsInvisible(e, chunks);
    assert ms[0..] == ms;
    DrainPacked(e, ms, 0);
    forall k | 0 <= k < |ms| ensures Unpack(ContentsOf(ms)[k]) == Some(ms[k]) {
      UnpackInvertsContents(ms[k]);
    }
  }

  lemma CutOversized(limit: nat, m: Message)
    requires limit <= 8 + |m.body| < U32_END
    ensures CutFrame(limit, Pack(m)).Bad?
  {
    var b, len := Pack(m), 8 + |m.body|;
    Be32RoundTrip(len, Be32(len));
    assert b[1..5] == Be32(len);
  }

  /** A message comes through exactly if it is below the limit of the end that receives it. */
  lemma WithinLimitIff(e: Receiver, m: Message)
    requires 0 < e.limit && 8 + |m.body| < U32_END && e.limit <= U32_END
    ensures var p := Drain(e, [], Pack(m));
      if 8 + |m.body| < e.limit then p.frames == [Contents(m)] else p == Progress(Failed, [], [])
  {
    assert Pack(m)[0] == FLAG;
    if 8 + |m.body| < e.limit {
      CutPacked(e.limit, m, []);
      assert Pack(m) + [] == Pack(m);
    } else {
      CutOversized(e.limit, m);
    }
  }

  /** The two limits differ: what a server may send, a client may not always send back. */
  lemma LimitsDiffer(accepts: seq<Bytes> -> bool, forwards: bool, m: Message)
    requires |m.body| < 0xffff_fff8
    ensures var p := Drain(Receiver(CLIENT_LIMIT, false, accepts), [], Pack(m));
      if |m.body| < 5242872 then p.frames == [Contents(m)] else p == Progress(Failed, [], [])
    ensures var p := Drain(Receiver(SERVER_LIMIT, forwards, accepts), [], Pack(m));
      if |m.body| < 2097144 then p.frames == [Contents(m)] else p == Progress(Failed, [], [])
  {
    WithinLimitIff(Receiver(CLIENT_LIMIT, false, accepts), m);
    WithinLimitIff(Receiver(SERVER_LIMIT, forwards, accepts), m);
  }

  /** A short message, octet by octet: flag, length, serial and id, each number with its high octets first. */
  lemma PackedOctets(serial: byte, id: byte, body: Bytes)
    requires |body| < 248
    ensures Pack(Message(serial as int, id as int, body))
      == [33, 0, 0, 0, |body| as byte + 8, 0, 0, 0, serial, 0, 0, 0, id] + body
  {
    SmallNumbers(|body| as byte + 8);
    SmallNumbers(serial);
    SmallNumbers(id);
  }

  /** A request's serial is negative and stands in two's complement. */
  lemma NegativeSerial(serial: i32, id: u32, body: Bytes)
    requires serial < 0
    ensures FromBe32(Contents(Message(serial, id, body))[..4]) == 0x1_0000_0000 + serial
    ensures Unpack(Contents(Message(serial, id, body))) == Some(Message(serial, id, body))
  {
    UnpackInvertsContents(Message(serial, id, body));
    var f := Contents(Message(serial, id, body));
    assert f[..4] == Be32(AsU32(serial));
    Be32RoundTrip(AsU32(serial), f[..4]);
  }

  /** Traffic that does not start with the flag is forwarded whole, or refused; a frame of length 0 is refused. */
  lemma ForeignTraffic(e: Receiver, seen: seq<Bytes>, b: Bytes)
    ensures b != [] && b[0] != 33 ==>
      Drain(e, seen, b) == if e.forwards then Progress(Forwarding, seen, b) else Progress(Failed, seen, [])
    ensures Drain(e, seen, [33, 0, 0, 0, 0] + b) == Progress(Failed, seen, [])
  {
    var z := [33, 0, 0, 0, 0] + b;
    assert z[1..5] == [0, 0, 0, 0];
    SmallNumbers(0);
  }

  // ---------------------------------------------------------------- the stream is partitioned

  /** A frame as it stood on the wire. */
  function Wire(frame: Bytes): (b: Bytes)
    requires |frame| < U32_END
  {
    [FLAG] + Be32(|frame|) + frame
  }

  predicate Framed(limit: nat, frames: seq<Bytes>) { forall k | 0 <= k < |frames| :: 0 < |frames[k]| < limit }

  function WireAll(frames: seq<Bytes>): (b: Bytes)
    requires Framed(U32_END, frames)
  {
    if frames == [] then [] else WireAll(frames[..|frames| - 1]) + Wire(frames[|frames| - 1])
  }

  lemma WireSnoc(limit: nat, frames: seq<Bytes>, frame: Bytes, rest: Bytes)
    requires limit <= U32_END && Framed(limit, frames) && 0 < |frame| < limit
    ensures Framed(limit, frames + [frame])
    ensures WireAll(frames + [frame]) + rest == WireAll(frames) + (Wire(frame) + rest)
  {
    assert (frames + [frame])[..|frames|] == frames;
    assert WireAll(frames) + Wire(frame) + rest == WireAll(frames) + (Wire(frame) + rest);
  }

  /** What the read loop has produced accounts for the stream, in order. */
  predicate AccountsFor(e: Receiver, p: Progress, b: Bytes)
    requires e.limit <= U32_END
  {
    && Framed(e.limit, p.frames)
    && (p.reader.Reading? ==> p.forwarded == [] && b == WireAll(p.frames) + p.reader.rest)
    && (p.reader.Forwarding? ==> b == WireAll(p.frames) + p.forwarded && p.forwarded != [] && p.forwarded[0] != FLAG)
    && (p.reader.Failed? ==> p.forwarded == [] && WireAll(p.frames) <= b)
  }

  lemma CutIsWire(limit: nat, b: Bytes)
    requires limit <= U32_END && b != [] && b[0] == FLAG && CutFrame(limit, b).Frame?
    ensures var cut := CutFrame(limit, b); 0 < |cut.frame| < limit && b == Wire(cut.frame) + cut.rest
  {
    var n := FromBe32(b[1..5]);
    Be32RoundTrip(n, b[1..5]);
    assert b == [b[0]] + b[1..5] + b[5..5 + n] + b[5 + n..];
  }

  /** After the frames seen so far. */
  lemma {:induction false} DrainAccounts(e: Receiver, seen: seq<Bytes>, b: Bytes)
    requires e.limit <= U32_END && Framed(e.limit, seen)
    ensures AccountsFor(e, Drain(e, seen, b), WireAll(seen) + b)
    decreases |b|
  {
    if b == [] {
      assert WireAll(seen) + b == WireAll(seen) + [];
    } else if b[0] == FLAG && CutFrame(e.limit, b).Frame? {
      var cut := CutFrame(e.limit, b);
      CutIsWire(e.limit, b);
      WireSnoc(e.limit, seen, cut.frame, cut.rest);
      if e.accepts(seen + [cut.frame]) {
        DrainAccounts(e, seen + [cut.frame], cut.rest);
      }
    }
  }

  /**
   * Unless the stream or a frame is refused, the frames, the forwarded suffix and the rest are all of it, in
   * order; on a refusal the frames are the beginning of it.
   */
  lemma StreamIsPartitioned(e: Receiver, b: Bytes)
    requires e.limit <= U32_END
    ensures AccountsFor(e, Drain(e, [], b), b)
  {
    DrainAccounts(e, [], b);
    assert WireAll([]) + b == b;
  }

  // ---------------------------------------------------------------- the loops

  /** The inner loop of poll_read and Client::run: unpack until the buffer is empty, incomplete, forwarded or bad. */
  method UnpackBuffer(e: Receiver, seen: seq<Bytes>, received: Bytes) returns (p: Progress)
    ensures p == Drain(e, seen, received)
  {
    var buffer, frames := received, seen;
    while buffer != [] && buffer[0] == FLAG && CutFrame(e.limit, buffer).Frame?
      invariant Drain(e, seen, received) == Drain(e, frames, buffer)
      decreases |buffer|
    {
      var cut := CutFrame(e.limit, buffer);
      frames, buffer := frames + [cut.frame], cut.rest;
      if !e.accepts(frames) {
        return Progress(Failed, frames, []);
      }
    }
    if buffer == [] {
      p := Progress(Reading([]), frames, []);
    } else if buffer[0] != FLAG {
      p := if e.forwards then Progress(Forwarding, frames, buffer) else Progress(Failed, frames, []);
    } else if CutFrame(e.limit, buffer).Bad? {
      p := Progress(Failed, frames, []);
    } else {
      p := Progress(Reading(buffer), frames, []);
    }
  }

  /** The outer loop: read a chunk, unpack; it ends when the peer closes or an error is returned. */
  method ReadLoop(e: Receiver, chunks: seq<Bytes>) returns (p: Progress)
    ensures p == Drain(e, [], Flatten(chunks))
  {
    p := FRESH;
    var i := 0;
    assert chunks[..0] == [];
    while i < |chunks| && !p.reader.Failed?
      invariant 0 <= i <= |chunks| && p == ReceiveAll(e, FRESH, chunks[..i])
    {
      assert chunks[..i + 1][..i] == chunks[..i];
      if p.reader.Forwarding? {
        p := p.(forwarded := p.forwarded + chunks[i]);
      } else {
        p := UnpackBuffer(e, p.frames, p.reader.rest + chunks[i]);
      }
      i := i + 1;
    }
    ChunkingIsInvisible(e, chunks[..i]);
    if p.reader.Failed? {
      FailureIsFinal(e, chunks, i);
    } else {
      assert chunks[..i] == chunks;
    }
  }

  lemma FailureIsFinal(e: Receiver, chunks: seq<Bytes>, i: nat)
    requires i <= |chunks| && Drain(e, [], Flatten(chunks[..i])).reader.Failed?
    ensures Drain(e, [], Flatten(chunks)) == Drain(e, [], Flatten(chunks[..i]))
  {
    assert chunks == chunks[..i] + chunks[i..];
    FlattenAppend(chunks[..i], chunks[i..]);
    DrainThenReceive(e, [], Flatten(chunks[..i]), Flatten(chunks[i..]));
  }
}
