/**
 * The whole SOCKS5 handshake as one byte stream.  A frame is given to one handler only, and what the handler
 * leaves in the buffer waits for the next frame, so how the stream is cut and joined matters.
 */
module Socks5Stream {
  import opened Bytes
  import opened Messages
  import opened TargetAddr
  import opened Socks5
  import opened Socks5Proofs

  predicate Pieces(frames: seq<Bytes>) { forall k | 0 <= k < |frames| :: frames[k] != [] }

  /** The outcome of two parts of a session, one after the other. */
  function Then(r: Outcome, s: Outcome): (t: Outcome) {
    if r.Ok? && s.Ok? then Ok(s.ctx, r.effects + s.effects) else if r.Ok? then s else r
  }

  lemma FeedFirst(recv: Receiver, x: Ctx, frames: seq<Bytes>)
    requires frames != []
    ensures var r := recv(x, frames[0]);
      FeedTo(recv, x, frames) == if r.Ok? then Then(r, FeedTo(recv, r.ctx, frames[1..])) else r
  {
  }

  /** Cutting a concatenation at or behind the end of its first part. */
  lemma CutBehind(a: Bytes, b: Bytes, now: Bytes, rest: Bytes)
    requires now + rest == a + b && |now| >= |a|
    ensures now == a + now[|a|..] && now[|a|..] + rest == b
  {
    assert (now + rest)[..|a|] == a && (now + rest)[|a|..] == b;
    assert now[..|a|] == a;
    assert (now + rest)[|a|..] == now[|a|..] + rest;
  }

  /** And in front of it. */
  lemma CutBefore(a: Bytes, b: Bytes, now: Bytes, rest: Bytes)
    requires now + rest == a + b && |now| <= |a|
    ensures now == a[..|now|]
  {
    assert (now + rest)[..|now|] == now;
  }

  // ---------------------------------------------------------------- the handlers on a stream

  /** A greeting that offers the method this server wants. */
  predicate Welcome(u: Setup, g: Bytes) {
    IsGreeting(g) && Wanted(u) in g[2..]
  }

  function AfterGreeting(u: Setup): (s: Status) { if NeedsPassword(u) then Verification else Connect }

  function Choice(u: Setup): (es: seq<Effect>) { [Write(Send([5, Wanted(u)], true))] }

  lemma GreetingTaken(u: Setup, g: Bytes, held: Bytes, frame: Bytes, rest: Bytes)
    requires Welcome(u, g) && held + frame == g + rest
    ensures RecvFrame(u, Ctx(Init, held, None), frame) == Ok(Ctx(AfterGreeting(u), rest, None), Choice(u))
  {
    var b := g + rest;
    assert b[0] == g[0] && b[1] == g[1] && b[2..|g|] == g[2..] && b[|g|..] == rest;
  }

  /** A message with the configured credentials. */
  predicate Credentials(u: Setup, v: Bytes) {
    && IsVerification(v)
    && v[2..2 + v[1] as nat] == u.username && v[3 + v[1] as nat..] == u.password
  }

  function Granted(v: Bytes): (es: seq<Effect>)
    requires v != []
  {
    [Write(Send([v[0], 0], true))]
  }

  lemma VerificationTaken(u: Setup, v: Bytes, held: Bytes, frame: Bytes, rest: Bytes)
    requires Credentials(u, v) && held + frame == v + rest
    ensures RecvFrame(u, Ctx(Verification, held, None), frame) == Ok(Ctx(Connect, rest, None), Granted(v))
  {
    var b, unl := v + rest, v[1] as nat;
    assert b[0] == v[0] && b[1] == v[1] && b[2 + unl] == v[2 + unl];
    assert b[2..2 + unl] == v[2..2 + unl] && b[3 + unl..|v|] == v[3 + unl..] && b[|v|..] == rest;
  }

  lemma VerificationCut(u: Setup, v: Bytes, held: Bytes, frame: Bytes)
    requires IsVerification(v) && held + frame < v
    ensures RecvFrame(u, Ctx(Verification, held, None), frame)
      == if |held + frame| < 4 then Ok(Ctx(Verification, held + frame, None), []) else Panic
  {
    PartialVerificationPanics(u, v, held + frame);
  }

  /** The rest of the stream is the request: it is served if a frame is still to come, and waits otherwise. */
  lemma RequestLast(u: Setup, r: Bytes, held: Bytes, frames: seq<Bytes>)
    requires IsRequest(u, r) && |r| >= 8 && Pieces(frames) && held + Flatten(frames) == r
    ensures Feed(u, Ctx(Connect, held, None), frames)
      == if frames == [] then Ok(Ctx(Connect, r, None), []) else RecvFrame(u, Ctx(Connect, [], None), r)
  {
    if frames == [] {
      assert held + [] == held;
    } else {
      var x, recv := Ctx(Connect, [], None), ReceiverOf(u);
      forall k | |held| < k < |r| ensures Stalls(recv, x, r[..k]) {
        RequestStalls(u, r, k);
      }
      BuffersUp(u, Connect);
      AnySplit(recv, x, held, frames, r);
    }
  }

  // ---------------------------------------------------------------- segments

  /** Where the first k segments end. */
  function Upto(frames: seq<Bytes>, k: nat): (n: nat)
    requires k <= |frames|
  {
    |Flatten(frames[..k])|
  }

  /** Where each segment ends. */
  function Ends(frames: seq<Bytes>): (es: seq<nat>)
    ensures |es| == |frames|
  {
    seq(|frames|, k requires 0 <= k < |frames| => Upto(frames, k + 1))
  }

  /** The first segment, not before `from`, that ends at or behind n, or the number of segments. */
  function First(es: seq<nat>, from: nat, n: nat): (k: nat)
    requires from <= |es|
    ensures from <= k <= |es|
    ensures k < |es| ==> es[k] >= n
    ensures forall j | from <= j < k :: es[j] < n
    decreases |es| - from
  {
    if from == |es| || es[from] >= n then from else First(es, from + 1, n)
  }

  lemma NextSegment(frames: seq<Bytes>, k: nat)
    requires k < |frames|
    ensures Upto(frames, k + 1) == Upto(frames, k) + |frames[k]|
    ensures frames[k..] != [] && frames[k..][0] == frames[k] && frames[k..][1..] == frames[k + 1..]
    ensures Flatten(frames[k..]) == frames[k] + Flatten(frames[k + 1..])
    ensures Pieces(frames) ==> (Flatten(frames[k + 1..]) == [] <==> k + 1 == |frames|)
    ensures Pieces(frames) ==> Pieces(frames[k + 1..])
  {
    assert frames[..k + 1] == frames[..k] + [frames[k]];
    FlattenAppend(frames[..k], [frames[k]]);
    assert [frames[k]][1..] == [];
    if k + 1 < |frames| && Pieces(frames) {
      NonEmptyFlatten(frames[k + 1..]);
    }
  }

  // ---------------------------------------------------------------- the greeting

  /** A segment in which the message does not end. */
  lemma NotYet(g: Bytes, s: Bytes, frames: seq<Bytes>, k: nat, held: Bytes)
    requires Pieces(frames) && k < |frames| && |held + frames[k]| < |g| && |held| == Upto(frames, k)
    requires held + Flatten(frames[k..]) == g + s
    ensures var now := held + frames[k];
      && k + 1 < |frames| && |now| == Upto(frames, k + 1) && now + Flatten(frames[k + 1..]) == g + s && now < g
      && First(Ends(frames), k, |g|) == First(Ends(frames), k + 1, |g|)
  {
    var now, tail := held + frames[k], Flatten(frames[k + 1..]);
    NextSegment(frames, k);
    assert now + tail == g + s;
    CutBefore(g, s, now, tail);
    FirstSkips(frames, k, |g|);
  }

  lemma FirstSkips(frames: seq<Bytes>, k: nat, n: nat)
    requires k < |frames| && Upto(frames, k + 1) < n
    ensures First(Ends(frames), k, n) == First(Ends(frames), k + 1, n)
  {
  }

  /** The segment in which it ends. */
  lemma Now(g: Bytes, s: Bytes, frames: seq<Bytes>, k: nat, held: Bytes)
    requires Pieces(frames) && k < |frames| && |held + frames[k]| >= |g| && |held| == Upto(frames, k)
    requires held + Flatten(frames[k..]) == g + s
    ensures var now := held + frames[k];
      && First(Ends(frames), k, |g|) == k && now == g + now[|g|..]
      && |now[|g|..]| + |g| == Upto(frames, k + 1) && now[|g|..] + Flatten(frames[k + 1..]) == s
  {
    var now, tail := held + frames[k], Flatten(frames[k + 1..]);
    NextSegment(frames, k);
    assert now + tail == g + s;
    CutBehind(g, s, now, tail);
  }

  lemma GreetingHeld(u: Setup, g: Bytes, held: Bytes, frames: seq<Bytes>, k: nat)
    requires IsGreeting(g) && k < |frames| && held + frames[k] < g
    ensures Feed(u, Ctx(Init, held, None), frames[k..]) == Feed(u, Ctx(Init, held + frames[k], None), frames[k + 1..])
  {
    var now := held + frames[k];
    GreetingStalls(u, g, |now|);
    assert now == g[..|now|] && [] + now == now;
    FeedStalled(ReceiverOf(u), Ctx(Init, held, None), frames[k..], Ctx(Init, now, None));
    assert frames[k..][1..] == frames[k + 1..];
  }

  lemma GreetingAnswered(u: Setup, g: Bytes, rest: Bytes, held: Bytes, frames: seq<Bytes>, k: nat)
    requires Welcome(u, g) && k < |frames| && held + frames[k] == g + rest
    ensures Feed(u, Ctx(Init, held, None), frames[k..])
      == Then(Ok(FRESH, Choice(u)), Feed(u, Ctx(AfterGreeting(u), rest, None), frames[k + 1..]))
  {
    GreetingTaken(u, g, held, frames[k], rest);
    FeedFirst(ReceiverOf(u), Ctx(Init, held, None), frames[k..]);
    assert frames[k..][1..] == frames[k + 1..];
  }

  /** Whatever the segments, the greeting is answered in the one in which it ends. */
  lemma {:induction false} GreetingFrom(u: Setup, g: Bytes, s: Bytes, frames: seq<Bytes>, k: nat, held: Bytes)
    returns (i: nat, rest: Bytes)
    requires Welcome(u, g) && Pieces(frames) && k < |frames|
    requires held + Flatten(frames[k..]) == g + s && |held| == Upto(frames, k)
    ensures i < |frames| && i == First(Ends(frames), k, |g|)
    ensures |rest| + |g| == Upto(frames, i + 1) && rest + Flatten(frames[i + 1..]) == s
    ensures Feed(u, Ctx(Init, held, None), frames[k..])
      == Then(Ok(FRESH, Choice(u)), Feed(u, Ctx(AfterGreeting(u), rest, None), frames[i + 1..]))
    decreases |frames| - k
  {
    var now := held + frames[k];
    if |now| < |g| {
      NotYet(g, s, frames, k, held);
      GreetingHeld(u, g, held, frames, k);
      i, rest := GreetingFrom(u, g, s, frames, k + 1, now);
    } else {
      i, rest := k, now[|g|..];
      Now(g, s, frames, k, held);
      GreetingAnswered(u, g, rest, held, frames, k);
    }
  }

  /** The greeting phase of a stream. */
  lemma GreetingPhase(u: Setup, g: Bytes, s: Bytes, frames: seq<Bytes>) returns (i: nat, rest: Bytes)
    requires Welcome(u, g) && Comes(frames, g + s)
    ensures i < |frames| && i == First(Ends(frames), 0, |g|)
    ensures |rest| + |g| == Upto(frames, i + 1) && rest + Flatten(frames[i + 1..]) == s
    ensures Feed(u, FRESH, frames) == Then(Ok(FRESH, Choice(u)), Feed(u, Ctx(AfterGreeting(u), rest, None), frames[i + 1..]))
  {
    assert frames[0..] == frames && frames[..0] == [] && [] + Flatten(frames) == g + s;
    i, rest := GreetingFrom(u, g, s, frames, 0, []);
  }

  /** A stream that comes in pieces. */
  predicate Comes(frames: seq<Bytes>, stream: Bytes) {
    frames != [] && Pieces(frames) && Flatten(frames) == stream
  }

  // ---------------------------------------------------------------- without credentials

  /** A served request for address a. */
  function Served(u: Setup, r: Bytes, a: Addr): (o: Outcome)
    requires |r| >= 2
  {
    Ok(Ctx(Connecting(r[1] == 1), [], Some(Target(u, r[1] == 1, a))), [Emit(ConnectFor(u, r[1] == 1, a))])
  }

  /**
   * Without credentials the handshake may be cut and joined in any way, and is answered with method 0 and turned
   * into the connect for its address, exactly if the greeting does not end in the last segment; otherwise the
   * request is kept and never answered.
   */
  lemma HandshakeServedIff(u: Setup, g: Bytes, r: Bytes, a: Addr, frames: seq<Bytes>)
    requires !NeedsPassword(u) && Welcome(u, g) && IsRequestFor(u, r, a) && |r| >= 8 && Comes(frames, g + r)
    ensures Feed(u, FRESH, frames)
      == if First(Ends(frames), 0, |g|) + 1 < |frames|
         then Ok(Served(u, r, a).ctx, [Write(Send([5, 0], true)), Emit(ConnectFor(u, r[1] == 1, a))])
         else Ok(Ctx(Connect, r, None), [Write(Send([5, 0], true))])
  {
    var i, rest := GreetingPhase(u, g, r, frames);
    NextSegment(frames, i);
    RequestPhase(u, r, a, rest, frames[i + 1..]);
  }

  lemma RequestPhase(u: Setup, r: Bytes, a: Addr, held: Bytes, frames: seq<Bytes>)
    requires !NeedsPassword(u) && IsRequestFor(u, r, a) && |r| >= 8 && Pieces(frames) && held + Flatten(frames) == r
    ensures Then(Ok(FRESH, Choice(u)), Feed(u, Ctx(Connect, held, None), frames))
      == if frames != [] then Ok(Served(u, r, a).ctx, [Write(Send([5, 0], true)), Emit(ConnectFor(u, r[1] == 1, a))])
         else Ok(Ctx(Connect, r, None), [Write(Send([5, 0], true))])
  {
    RequestLast(u, r, held, frames);
    RequestConnectsIff(u, r, a);
    assert Choice(u) + [] == Choice(u);
  }

  /** In one segment, greeting and request leave the client without an answer to the request. */
  lemma OneSegmentIsNotServed(u: Setup, g: Bytes, r: Bytes, a: Addr)
    requires !NeedsPassword(u) && Welcome(u, g) && IsRequestFor(u, r, a) && |r| >= 8
    ensures Feed(u, FRESH, [g + r]) == Ok(Ctx(Connect, r, None), [Write(Send([5, 0], true))])
  {
    var frames := [g + r];
    assert frames[1..] == [] && (g + r) + [] == g + r;
    HandshakeServedIff(u, g, r, a, frames);
  }

  // ---------------------------------------------------------------- with credentials

  /** Neither an answer to the request nor a way to one. */
  predicate Unserved(o: Outcome) { o.Panic? || (o.Ok? && !o.ctx.status.Connecting?) }

  function Verified(u: Setup, v: Bytes, r: Bytes): (o: Outcome)
    requires v != []
  {
    Then(Ok(FRESH, Granted(v)), RecvFrame(u, Ctx(Connect, [], None), r))
  }

  /**
   * The first segment, not before `from`, after which four bytes behind `base` are there brings all v of them,
   * and is not the last.
   */
  predicate CutFrom(es: seq<nat>, from: nat, base: nat, v: nat)
    requires from <= |es|
  {
    var j := First(es, from, base + 4);
    j + 1 < |es| && es[j] >= base + v
  }

  /**
   * Verification and request, of which the segments before k have brought `held`, unexamined: served exactly
   * if the first segment after which four bytes are there brings the whole verification and is not the last.
   */
  lemma {:induction false} VerificationThenRequest(u: Setup, v: Bytes, r: Bytes, base: nat,
                                                   frames: seq<Bytes>, k: nat, held: Bytes)
    requires Credentials(u, v) && IsRequest(u, r) && |r| >= 8 && Pieces(frames) && k <= |frames|
    requires held + Flatten(frames[k..]) == v + r && base + |held| == Upto(frames, k)
    ensures var o := Feed(u, Ctx(Verification, held, None), frames[k..]);
      if CutFrom(Ends(frames), k, base, |v|) then o == Verified(u, v, r) else Unserved(o)
    decreases |frames| - k
  {
    if k < |frames| {
      var x, now, tail := Ctx(Verification, held, None), held + frames[k], Flatten(frames[k + 1..]);
      NextSegment(frames, k);
      assert now + tail == v + r;
      if |now| < 4 {
        CutBefore(v, r, now, tail);
        VerificationCut(u, v, held, frames[k]);
        FeedStalled(ReceiverOf(u), x, frames[k..], Ctx(Verification, now, None));
        VerificationThenRequest(u, v, r, base, frames, k + 1, now);
      } else {
        VerificationExamined(u, v, r, held, frames, k);
      }
    }
  }

  /** The segment after which the verification handler looks at the message. */
  lemma VerificationExamined(u: Setup, v: Bytes, r: Bytes, held: Bytes, frames: seq<Bytes>, k: nat)
    requires Credentials(u, v) && IsRequest(u, r) && |r| >= 8 && Pieces(frames) && k < |frames|
    requires held + Flatten(frames[k..]) == v + r && |held + frames[k]| >= 4
    ensures var o := Feed(u, Ctx(Verification, held, None), frames[k..]);
      if k + 1 < |frames| && |held + frames[k]| >= |v| then o == Verified(u, v, r) else Unserved(o)
  {
    var x, now, tail := Ctx(Verification, held, None), held + frames[k], Flatten(frames[k + 1..]);
    NextSegment(frames, k);
    assert now + tail == v + r;
    FeedFirst(ReceiverOf(u), x, frames[k..]);
    if |now| >= |v| {
      CutBehind(v, r, now, tail);
      VerificationTaken(u, v, held, frames[k], now[|v|..]);
      RequestLast(u, r, now[|v|..], frames[k + 1..]);
    } else {
      CutBefore(v, r, now, tail);
      VerificationCut(u, v, held, frames[k]);
    }
  }

  /**
   * The greeting ends in segment i; the first later segment after which four bytes of the verification
   * message are there brings all of it, and is not the last.
   */
  predicate WellCut(es: seq<nat>, g: nat, v: nat) {
    var i := First(es, 0, g);
    i < |es| && CutFrom(es, i + 1, g, v)
  }

  /**
   * With credentials the handshake is answered with method 2 and an acceptance, and turned into the connect for
   * its address, exactly if the segments are cut in this way.  Otherwise the session panics or waits for ever.
   */
  lemma AuthenticatedHandshakeServedIff(u: Setup, g: Bytes, v: Bytes, r: Bytes, a: Addr, frames: seq<Bytes>)
    requires NeedsPassword(u) && Welcome(u, g) && Credentials(u, v) && IsRequestFor(u, r, a) && |r| >= 8
    requires Comes(frames, g + (v + r))
    ensures var o := Feed(u, FRESH, frames);
      if WellCut(Ends(frames), |g|, |v|) then
        o == Ok(Served(u, r, a).ctx,
                [Write(Send([5, 2], true)), Write(Send([v[0], 0], true)), Emit(ConnectFor(u, r[1] == 1, a))])
      else Unserved(o)
  {
    var i, rest := GreetingPhase(u, g, v + r, frames);
    assert WellCut(Ends(frames), |g|, |v|) <==> CutFrom(Ends(frames), i + 1, |g|, |v|);
    VerificationThenRequest(u, v, r, |g|, frames, i + 1, rest);
    ServedConnects(u, v, r, a);
    ThenUnserved(Choice(u), Feed(u, Ctx(Verification, rest, None), frames[i + 1..]));
  }

  lemma ServedConnects(u: Setup, v: Bytes, r: Bytes, a: Addr)
    requires NeedsPassword(u) && v != [] && IsRequestFor(u, r, a) && |r| >= 8
    ensures Then(Ok(FRESH, Choice(u)), Verified(u, v, r))
      == Ok(Served(u, r, a).ctx,
            [Write(Send([5, 2], true)), Write(Send([v[0], 0], true)), Emit(ConnectFor(u, r[1] == 1, a))])
  {
    RequestConnectsIff(u, r, a);
  }

  lemma ThenUnserved(es: seq<Effect>, o: Outcome)
    ensures Unserved(Then(Ok(FRESH, es), o)) <==> Unserved(o)
  {
  }
}
