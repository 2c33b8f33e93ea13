/** How the SOCKS5 context behaves on byte streams cut anywhere, and over whole runs. */
module Socks5Proofs {
  import opened Bytes
  import opened Messages
  import opened TargetAddr
  import opened Socks5

  // ---------------------------------------------------------------- fragmentation

  type Receiver = (Ctx, Bytes) -> Outcome

  /** Frames received one after the other; an error or a panic ends the session. */
  function FeedTo(recv: Receiver, x: Ctx, frames: seq<Bytes>): (r: Outcome)
    decreases |frames|
  {
    if frames == [] then Ok(x, []) else
    match recv(x, frames[0])
    case Fail => Fail
    case Panic => Panic
    case Ok(x1, es1) =>
      (match FeedTo(recv, x1, frames[1..])
       case Ok(x2, es2) => Ok(x2, es1 + es2)
       case other => other)
  }

  function ReceiverOf(u: Setup): (recv: Receiver) { (x, frame) => RecvFrame(u, x, frame) }

  function Feed(u: Setup, x: Ctx, frames: seq<Bytes>): (r: Outcome) { FeedTo(ReceiverOf(u), x, frames) }

  /** The receiver merely keeps these bytes, waiting for more. */
  predicate Stalls(recv: Receiver, x: Ctx, b: Bytes) {
    recv(x.(buffer := []), b) == Ok(x.(buffer := b), [])
  }

  /** What the receiver does depends on the bytes it holds together with the new ones. */
  ghost predicate Accumulates(recv: Receiver, x: Ctx) {
    forall b, frame | b != [] :: recv(x.(buffer := b), frame) == recv(x.(buffer := []), b + frame)
  }

  lemma FeedOne(recv: Receiver, x: Ctx, frames: seq<Bytes>)
    requires |frames| == 1
    ensures FeedTo(recv, x, frames) == recv(x, frames[0])
  {
    var r := recv(x, frames[0]);
    assert frames[1..] == [];
    assert r.Ok? ==> FeedTo(recv, r.ctx, frames[1..]) == Ok(r.ctx, []) && r.effects + [] == r.effects;
  }

  lemma FeedStalled(recv: Receiver, x: Ctx, frames: seq<Bytes>, x1: Ctx)
    requires frames != [] && recv(x, frames[0]) == Ok(x1, [])
    ensures FeedTo(recv, x, frames) == FeedTo(recv, x1, frames[1..])
  {
    var r := FeedTo(recv, x1, frames[1..]);
    assert r.Ok? ==> [] + r.effects == r.effects;
  }

  /** If no proper prefix of a message draws a reaction, cutting the message up makes no difference. */
  lemma {:induction false} AnySplit(recv: Receiver, x: Ctx, held: Bytes, frames: seq<Bytes>, whole: Bytes)
    requires Accumulates(recv, x) && frames != [] && (forall k | 0 <= k < |frames| :: frames[k] != [])
    requires whole == held + Flatten(frames)
    requires forall k | |held| < k < |whole| :: Stalls(recv, x, whole[..k])
    ensures FeedTo(recv, x.(buffer := held), frames) == recv(x.(buffer := []), whole)
    decreases |frames|
  {
    var now := held + frames[0];
    assert held == [] ==> now == frames[0];
    assert recv(x.(buffer := held), frames[0]) == recv(x.(buffer := []), now);
    if |frames| == 1 {
      FeedOne(recv, x.(buffer := held), frames);
      assert Flatten(frames) == frames[0];
    } else {
      assert whole == now + Flatten(frames[1..]);
      NonEmptyFlatten(frames[1..]);
      assert now == whole[..|now|];
      FeedStalled(recv, x.(buffer := held), frames, x.(buffer := now));
      AnySplit(recv, x, now, frames[1..], whole);
    }
  }

  lemma NonEmptyFlatten(frames: seq<Bytes>)
    requires frames != [] && frames[0] != []
    ensures Flatten(frames) != []
  {
  }

  lemma BuffersUp(u: Setup, status: Status)
    requires status.Init? || status.Verification? || status.Connect?
    ensures Accumulates(ReceiverOf(u), Ctx(status, [], None))
  {
    var x, recv := Ctx(status, [], None), ReceiverOf(u);
    forall b: Bytes, frame: Bytes
      ensures recv(x.(buffer := b), frame) == recv(x.(buffer := []), b + frame)
    {
      assert [] + (b + frame) == b + frame;
    }
  }

  /** A greeting of section 3 of RFC 1928 that names at least one method. */
  predicate IsGreeting(b: Bytes) {
    |b| >= 3 && b[0] == VERSION && |b| == b[1] as nat + 2
  }

  lemma GreetingStalls(u: Setup, whole: Bytes, k: nat)
    requires IsGreeting(whole) && k < |whole|
    ensures Stalls(ReceiverOf(u), FRESH, whole[..k])
  {
    assert [] + whole[..k] == whole[..k];
  }

  /** The method a server wants: 2 if credentials are configured, 0 otherwise. */
  function Wanted(u: Setup): (m: byte) { if u.username != [] || u.password != [] then 2 else 0 }

  /**
   * What becomes of a buffer in front of the greeting: as long as the greeting is not complete it waits; then the
   * wanted method is chosen exactly if the client offers it, and what follows the greeting stays; anything else
   * is refused and closed.
   */
  lemma GreetingAnsweredIff(u: Setup, b: Bytes)
    ensures var r := OnInit(u, Ctx(Init, b, None));
      if |b| < 3 || (b[0] == 5 && |b| < b[1] as nat + 2) then r == Ok(Ctx(Init, b, None), [])
      else if b[0] == 5 && (exists k :: 2 <= k < b[1] as nat + 2 && b[k] == Wanted(u)) then
        r == Ok(Ctx(if Wanted(u) == 2 then Verification else Connect, b[b[1] as nat + 2..], None),
                [Write(Send([5, Wanted(u)], true))])
      else r == Ok(Ctx(Init, b, None), [Write(Send([5, 255], true)), Write(CloseDelayed(10))])
  {
    if |b| >= 3 && b[0] == 5 && |b| >= b[1] as nat + 2 {
      var offered := b[2..b[1] as nat + 2];
      assert forall k | 0 <= k < |offered| :: offered[k] == b[k + 2];
      if exists k :: 2 <= k < b[1] as nat + 2 && b[k] == Wanted(u) {
        var k :| 2 <= k < b[1] as nat + 2 && b[k] == Wanted(u);
        assert offered[k - 2] == Wanted(u);
      }
    }
  }

  /** Frames after the request: relayed while running in TCP mode, ignored while connecting or serving datagrams. */
  lemma LaterFrames(u: Setup, x: Ctx, frame: Bytes)
    requires Rank(x.status) >= 3
    ensures RecvFrame(u, x, frame) == Ok(x, if x.status.RunWithTcp? then [Relay(frame)] else [])
  {
  }

  /** A reply of section 6 of RFC 1928 that names an IPv4 address of all zeros and a port. */
  predicate IsReply(b: Bytes, code: byte, port: u16) {
    |b| >= 3 && b[..3] == [5, code, 0] && ToBeBytes(V4([0, 0, 0, 0], port)) == Some(b[3..])
  }

  /**
   * The outlet's answer is passed on once, while the context waits for it: success with port 0 for a stream, with
   * the bound port for datagrams if a port could be bound, and otherwise code 4, after which it waits on.
   */
  lemma AnswerPassedOn(x: Ctx, success: bool, bound: Option<u16>)
    ensures var r := OnO2iConnect(x, success, bound);
      if !x.status.Connecting? || x.target.None? then r == Ok(x, []) else
      && r.Ok? && |r.effects| == 1 && r.effects[0].Write? && r.effects[0].w.Send? && r.effects[0].w.flush
      && var reply := r.effects[0].w.data;
         if success && x.status.isTcp then IsReply(reply, 0, 0) && r.ctx == x.(status := RunWithTcp)
         else if success && bound.Some? then IsReply(reply, 0, bound.value) && r.ctx == x.(status := RunWithUdp)
         else IsReply(reply, 4, 0) && r.ctx == x
  {
    var r := OnO2iConnect(x, success, bound);
    if x.status.Connecting? && x.target.Some? {
      var reply, port := r.effects[0].w.data, if success && !x.status.isTcp && bound.Some? then bound.value else 0;
      assert Be16(0) == [0, 0];
      assert reply[..3] == [5, reply[1], 0];
      assert reply[3..] == [1] + [0, 0, 0, 0] + Be16(port);
    }
  }

  /** A greeting may arrive in any pieces; the answer is the same and comes with the last byte. */
  lemma GreetingInPieces(u: Setup, frames: seq<Bytes>)
    requires frames != [] && (forall k | 0 <= k < |frames| :: frames[k] != [])
    requires IsGreeting(Flatten(frames))
    ensures Feed(u, FRESH, frames) == RecvFrame(u, FRESH, Flatten(frames))
    ensures forall k | 0 <= k < |Flatten(frames)| :: Stalls(ReceiverOf(u), FRESH, Flatten(frames)[..k])
  {
    var whole := Flatten(frames);
    forall k | 0 <= k < |whole| ensures Stalls(ReceiverOf(u), FRESH, whole[..k]) {
      GreetingStalls(u, whole, k);
    }
    BuffersUp(u, Init);
    assert [] + whole == whole;
    AnySplit(ReceiverOf(u), FRESH, [], frames, whole);
  }

  /** A request of section 4 of RFC 1928, for address a and a command that is served. */
  predicate IsRequestFor(u: Setup, b: Bytes, a: Addr) {
    && |b| >= 4 && b[0] == 5 && b[2] == 0 && b[1] in {1, 3}
    && WellFormed(u.isUtf8, a) && ToBeBytes(a) == Some(b[3..])
  }

  ghost predicate IsRequest(u: Setup, b: Bytes) { exists a: Addr :: IsRequestFor(u, b, a) }

  lemma RequestStalls(u: Setup, whole: Bytes, k: nat)
    requires IsRequest(u, whole) && |whole| >= 8 && k < |whole|
    ensures Stalls(ReceiverOf(u), Ctx(Connect, [], None), whole[..k])
  {
    var a :| IsRequestFor(u, whole, a);
    var b := whole[..k];
    assert [] + b == b;
    if k >= 8 {
      assert b[4..] == whole[3..][1..][..k - 4];
      PrefixIsIncomplete(u.isUtf8, a, k - 4);
    }
  }

  /** So may a request whose address is not empty. */
  lemma RequestInPieces(u: Setup, frames: seq<Bytes>)
    requires frames != [] && (forall k | 0 <= k < |frames| :: frames[k] != [])
    requires IsRequest(u, Flatten(frames)) && |Flatten(frames)| >= 8
    ensures Feed(u, Ctx(Connect, [], None), frames) == RecvFrame(u, Ctx(Connect, [], None), Flatten(frames))
    ensures forall k | 0 <= k < |Flatten(frames)| :: Stalls(ReceiverOf(u), Ctx(Connect, [], None), Flatten(frames)[..k])
  {
    var x, whole := Ctx(Connect, [], None), Flatten(frames);
    forall k | 0 <= k < |whole| ensures Stalls(ReceiverOf(u), x, whole[..k]) {
      RequestStalls(u, whole, k);
    }
    BuffersUp(u, Connect);
    assert [] + whole == whole;
    AnySplit(ReceiverOf(u), x, [], frames, whole);
  }

  /** Where a request for address a leads: CONNECT to a itself, UDP ASSOCIATE to the client's own address with a's port. */
  function Target(u: Setup, isTcp: bool, a: Addr): (t: Addr) { if isTcp then a else u.peer.(port := a.port) }

  /** The one connect that a served request is turned into. */
  function ConnectFor(u: Setup, isTcp: bool, a: Addr): (m: ProxyMessage) {
    I2oConnect(u.sid, 2, isTcp, u.show(Target(u, isTcp, a)), u.offer, u.show(u.peer))
  }

  /**
   * A complete request for address a makes the context connect there exactly when it is at least eight bytes
   * long: the seven bytes of a request for the empty domain are kept waiting for ever.
   */
  lemma RequestConnectsIff(u: Setup, b: Bytes, a: Addr)
    requires IsRequestFor(u, b, a)
    ensures var r, isTcp := RecvFrame(u, Ctx(Connect, [], None), b), b[1] == 1;
      r == if |b| >= 8 then Ok(Ctx(Connecting(isTcp), [], Some(Target(u, isTcp, a))), [Emit(ConnectFor(u, isTcp, a))])
           else Ok(Ctx(Connect, b, None), [])
  {
    assert [] + b == b;
    RequestAddress(u, b, a);
  }

  lemma RequestAddress(u: Setup, b: Bytes, a: Addr)
    requires IsRequestFor(u, b, a)
    ensures ReadAddress(u.isUtf8, b[4..], b[3]) == Parsed(a, |b| - 4)
  {
    assert b[4..] == b[3..][1..] + [];
    ReadInvertsWrite(u.isUtf8, a, []);
  }

  /** Any other request of eight bytes or more is refused with code 7 and a close. */
  lemma RequestRefused(u: Setup, b: Bytes)
    requires |b| >= 8 && !(b[0] == 5 && b[2] == 0 && b[1] in {1, 3})
    ensures RecvFrame(u, Ctx(Connect, [], None), b)
      == Ok(Ctx(Connect, b[4..], None), [Write(Send([5, 7, 0, 1, 0, 0, 0, 0, 0, 0], true)), Write(CloseDelayed(1000))])
  {
    assert [] + b == b;
  }

  /** A verification message of section 2 of RFC 1929: both length octets are there, and nothing follows. */
  predicate IsVerification(b: Bytes) {
    |b| >= 4 && |b| > 2 + b[1] as nat && |b| == 3 + b[1] as nat + b[2 + b[1] as nat] as nat
  }

  /** The seven bytes of a request for the empty domain, a complete request, leave the context waiting. */
  lemma EmptyDomainWaits(u: Setup)
    requires u.isUtf8([])
    ensures var b: Bytes := [5, 1, 0, 3, 0, 0, 80];
      IsRequest(u, b) && RecvFrame(u, Ctx(Connect, [], None), b) == Ok(Ctx(Connect, b, None), [])
  {
    var b: Bytes, a := [5, 1, 0, 3, 0, 0, 80], Domain([], 80);
    assert b[3..] == [DOMAIN, 0] + [] + [0, 80];
    assert Be16(80) == [0, 80];
    assert IsRequestFor(u, b, a);
    assert [] + b == b;
  }

  /** The unchecked handler goes out of range on every proper prefix of four bytes or more. */
  lemma PartialVerificationPanics(u: Setup, whole: Bytes, b: Bytes)
    requires IsVerification(whole) && b < whole
    ensures OnVerification(u, Ctx(Verification, b, None)).Panic? <==> |b| >= 4
  {
    if |b| >= 4 {
      assert b[1] == whole[1];
      if |b| > 2 + b[1] as nat {
        assert b[2 + b[1] as nat] == whole[2 + b[1] as nat];
      }
    }
  }

  /** Bytes received before the last frame. */
  function Early(frames: seq<Bytes>): (n: nat)
    requires frames != []
  {
    |Flatten(frames[..|frames| - 1])|
  }

  lemma EarlyTail(frames: seq<Bytes>)
    requires |frames| >= 2
    ensures Early(frames) == |frames[0]| + Early(frames[1..])
  {
    assert frames[..|frames| - 1][1..] == frames[1..][..|frames| - 2];
    assert frames[..|frames| - 1][0] == frames[0];
  }

  /** A verification message survives being cut up exactly when fewer than four bytes come before its last piece. */
  lemma VerificationInPiecesIff(u: Setup, frames: seq<Bytes>)
    requires frames != [] && (forall k | 0 <= k < |frames| :: frames[k] != [])
    requires IsVerification(Flatten(frames))
    ensures var x := Ctx(Verification, [], None);
      Feed(u, x, frames) == RecvFrame(u, x, Flatten(frames)) <==> Early(frames) < 4
  {
    var whole := Flatten(frames);
    var early, o := Early(frames) < 4, OnVerification(u, Ctx(Verification, whole, None));
    assert Feed(u, Ctx(Verification, [], None), frames) == (if early then o else Panic) by {
      assert [] + whole == whole;
      VerificationPieces(u, [], frames, whole);
    }
    WholeVerification(u, whole);
  }

  lemma WholeVerification(u: Setup, whole: Bytes)
    requires IsVerification(whole)
    ensures RecvFrame(u, Ctx(Verification, [], None), whole) == OnVerification(u, Ctx(Verification, whole, None))
    ensures OnVerification(u, Ctx(Verification, whole, None)) != Panic
  {
    assert [] + whole == whole;
    CompleteVerificationIsHandled(u, whole);
  }

  lemma CompleteVerificationIsHandled(u: Setup, whole: Bytes)
    requires IsVerification(whole)
    ensures OnVerification(u, Ctx(Verification, whole, None)).Ok?
  {
  }

  lemma {:induction false} VerificationPieces(u: Setup, held: Bytes, frames: seq<Bytes>, whole: Bytes)
    requires |held| < 4
    requires frames != [] && (forall k | 0 <= k < |frames| :: frames[k] != [])
    requires whole == held + Flatten(frames) && IsVerification(whole)
    ensures Feed(u, Ctx(Verification, held, None), frames)
      == if |held| + Early(frames) < 4 then OnVerification(u, Ctx(Verification, whole, None)) else Panic
    decreases |frames|
  {
    var now, x := held + frames[0], Ctx(Verification, held, None);
    if |frames| == 1 {
      FeedOne(ReceiverOf(u), x, frames);
      assert Flatten(frames) == frames[0] && frames[..0] == [];
    } else {
      assert whole == now + Flatten(frames[1..]);
      NonEmptyFlatten(frames[1..]);
      assert now < whole;
      PartialVerificationPanics(u, whole, now);
      EarlyTail(frames);
      if |now| < 4 {
        FeedStalled(ReceiverOf(u), x, frames, x.(buffer := now));
        VerificationPieces(u, now, frames[1..], whole);
      }
    }
  }

  // ---------------------------------------------------------------- whole runs

  datatype Input =
    | Frame(frame: Bytes)
    | Connected(success: bool, bound: Option<u16>)
    | Payload(plain: Bytes, len: nat)

  function React(u: Setup, x: Ctx, i: Input): (r: Outcome) {
    match i
    case Frame(frame) => RecvFrame(u, x, frame)
    case Connected(success, bound) => OnO2iConnect(x, success, bound)
    case Payload(plain, len) => OnO2iRecvData(x, plain, len)
  }

  /** The context and everything it has done, as long as the session lives. */
  function RunAll(u: Setup, inputs: seq<Input>): (r: Outcome)
    decreases |inputs|
  {
    if inputs == [] then Ok(FRESH, []) else
    match RunAll(u, inputs[..|inputs| - 1])
    case Ok(x, es) =>
      (match React(u, x, inputs[|inputs| - 1])
       case Ok(x', es') => Ok(x', es + es')
       case other => other)
    case other => other
  }

  function Rank(s: Status): (n: nat) {
    match s
    case Init => 0
    case Verification => 1
    case Connect => 2
    case Connecting(_) => 3
    case RunWithTcp => 4
    case RunWithUdp => 4
  }

  predicate IsConnect(e: Effect) { e.Emit? && e.m.I2oConnect? }

  predicate IsSuccess(e: Effect) {
    e.Write? && e.w.Send? && |e.w.data| == 10 && e.w.data[0] == VERSION && e.w.data[1] == 0
  }

  /** The two-byte answer that accepts a user name and password. */
  predicate IsVerified(e: Effect) { e.Write? && e.w.Send? && |e.w.data| == 2 && e.w.data[1] == 0 }

  predicate IsPayload(e: Effect) { e.Write? && e.w.SendAndThen? }

  function Count(p: Effect -> bool, es: seq<Effect>): (n: nat) {
    if es == [] then 0 else Count(p, es[..|es| - 1]) + if p(es[|es| - 1]) then 1 else 0
  }

  predicate Before(p: Effect -> bool, es: seq<Effect>, k: nat) {
    exists j :: 0 <= j < k && j < |es| && p(es[j])
  }

  predicate RunOk(u: Setup, x: Ctx, es: seq<Effect>) {
    && (x.target.Some? <==> Rank(x.status) >= 3)
    && Count(IsConnect, es) == (if Rank(x.status) >= 3 then 1 else 0)
    && Count(IsSuccess, es) == (if Rank(x.status) == 4 then 1 else 0)
    && (NeedsPassword(u) && Rank(x.status) >= 2 ==> Before(IsVerified, es, |es|))
    && (!NeedsPassword(u) ==> x.status != Verification)
    && (Rank(x.status) == 4 ==> Before(IsSuccess, es, |es|))
    && Ordered(u, es)
  }

  /** A configured password is verified before a connect, and payload follows the success reply. */
  predicate Ordered(u: Setup, es: seq<Effect>) {
    && (NeedsPassword(u) ==> forall k | 0 <= k < |es| && IsConnect(es[k]) :: Before(IsVerified, es, k))
    && (forall k | 0 <= k < |es| && IsPayload(es[k]) :: Before(IsSuccess, es, k))
  }

  /** What one reaction may add to the run. */
  predicate Adds(u: Setup, x: Ctx, x': Ctx, es: seq<Effect>) {
    var r, r' := Rank(x.status), Rank(x'.status);
    && (es == [] || |es| == 1 || (|es| == 2 && es[1].Write? && es[1].w.CloseDelayed?))
    && r <= r' && (r' != r ==> |es| == 1)
    && (r < 2 ==> r' <= 2) && (r == 2 ==> r' <= 3)
    && (x'.target.Some? <==> r' >= 3)
    && (!NeedsPassword(u) ==> x'.status != Verification)
    && (es != [] ==>
          && (IsConnect(es[0]) <==> r == 2 && r' == 3)
          && (IsSuccess(es[0]) <==> r == 3 && r' == 4)
          && (NeedsPassword(u) && r < 2 <= r' ==> IsVerified(es[0]))
          && (IsPayload(es[0]) ==> r == 4))
  }

  lemma InitAdds(u: Setup, x: Ctx)
    requires x.status.Init? && x.target.None?
    ensures OnInit(u, x).Ok? && Adds(u, x, OnInit(u, x).ctx, OnInit(u, x).effects)
  {
  }

  lemma VerificationAdds(u: Setup, x: Ctx)
    requires x.status.Verification? && x.target.None? && NeedsPassword(u) && OnVerification(u, x).Ok?
    ensures Adds(u, x, OnVerification(u, x).ctx, OnVerification(u, x).effects)
  {
  }

  lemma ConnectAdds(u: Setup, x: Ctx)
    requires x.status.Connect? && x.target.None? && OnConnect(u, x).Ok?
    ensures Adds(u, x, OnConnect(u, x).ctx, OnConnect(u, x).effects)
  {
  }

  lemma ReactAdds(u: Setup, x: Ctx, i: Input)
    requires React(u, x, i).Ok? && (x.target.Some? <==> Rank(x.status) >= 3)
    requires !NeedsPassword(u) ==> x.status != Verification
    ensures Adds(u, x, React(u, x, i).ctx, React(u, x, i).effects)
  {
    if i.Frame? {
      var buffered := x.(buffer := x.buffer + i.frame);
      if x.status.Init? {
        InitAdds(u, buffered);
      } else if x.status.Verification? {
        VerificationAdds(u, buffered);
      } else if x.status.Connect? {
        ConnectAdds(u, buffered);
      }
    }
  }

  lemma CountAppend(p: Effect -> bool, es: seq<Effect>, e: Effect)
    ensures Count(p, es + [e]) == Count(p, es) + if p(e) then 1 else 0
  {
    assert (es + [e])[..|es|] == es;
  }

  lemma BeforeAppend(p: Effect -> bool, es: seq<Effect>, more: seq<Effect>)
    ensures forall k | Before(p, es, k) :: Before(p, es + more, k)
    ensures forall k | Before(p, es, |es|) && k >= |es| :: Before(p, es + more, k)
  {
    assert forall j | 0 <= j < |es| :: (es + more)[j] == es[j];
  }

  lemma OrderAppend(u: Setup, es: seq<Effect>, e: Effect)
    requires Ordered(u, es)
    requires NeedsPassword(u) && IsConnect(e) ==> Before(IsVerified, es, |es|)
    requires IsPayload(e) ==> Before(IsSuccess, es, |es|)
    ensures Ordered(u, es + [e])
  {
    var all := es + [e];
    BeforeAppend(IsVerified, es, [e]);
    BeforeAppend(IsSuccess, es, [e]);
    assert forall k | 0 <= k < |es| :: all[k] == es[k];
    assert all[|es|] == e;
  }

  lemma BeforeEnd(p: Effect -> bool, es: seq<Effect>, e: Effect)
    ensures Before(p, es, |es|) || p(e) ==> Before(p, es + [e], |es| + 1)
  {
    assert (es + [e])[|es|] == e;
    BeforeAppend(p, es, [e]);
  }

  lemma EffectKeepsRunOk(u: Setup, x: Ctx, es: seq<Effect>, x': Ctx, e: Effect)
    requires RunOk(u, x, es) && Adds(u, x, x', [e])
    ensures RunOk(u, x', es + [e])
  {
    CountAppend(IsConnect, es, e);
    CountAppend(IsSuccess, es, e);
    OrderAppend(u, es, e);
    BeforeEnd(IsVerified, es, e);
    BeforeEnd(IsSuccess, es, e);
  }

  lemma ReactKeepsRunOk(u: Setup, x: Ctx, es: seq<Effect>, x': Ctx, more: seq<Effect>)
    requires RunOk(u, x, es) && Adds(u, x, x', more)
    ensures RunOk(u, x', es + more)
  {
    if more == [] {
      assert es + more == es;
    } else if |more| == 1 {
      assert more == [more[0]];
      EffectKeepsRunOk(u, x, es, x', more[0]);
    } else {
      EffectKeepsRunOk(u, x, es, x', more[0]);
      EffectKeepsRunOk(u, x', es + [more[0]], x', more[1]);
      assert es + [more[0]] + [more[1]] == es + more;
    }
  }

  /**
   * Whatever frames and answers arrive, in whatever order: the status only advances, at most one
   * connect is sent and at most one success reply, a configured password is verified before the
   * connect, and payload follows the success reply.
   */
  lemma {:induction false} RunOrder(u: Setup, inputs: seq<Input>)
    requires RunAll(u, inputs).Ok?
    ensures RunOk(u, RunAll(u, inputs).ctx, RunAll(u, inputs).effects)
    ensures inputs != [] ==>
      var before := RunAll(u, inputs[..|inputs| - 1]);
      before.Ok? && Rank(before.ctx.status) <= Rank(RunAll(u, inputs).ctx.status)
    decreases |inputs|
  {
    if inputs != [] {
      var before, i := RunAll(u, inputs[..|inputs| - 1]), inputs[|inputs| - 1];
      RunOrder(u, inputs[..|inputs| - 1]);
      ReactAdds(u, before.ctx, i);
      ReactKeepsRunOk(u, before.ctx, before.effects, React(u, before.ctx, i).ctx, React(u, before.ctx, i).effects);
    }
  }

  /** A verification message has arrived whole, whatever follows it. */
  predicate HasVerification(b: Bytes) {
    |b| >= 4 && |b| > 2 + b[1] as nat && |b| >= 3 + b[1] as nat + b[2 + b[1] as nat] as nat
  }

  /**
   * The accepting answer is given exactly for the configured user name and password; what follows the
   * message stays in the buffer.
   */
  lemma VerifiedIff(u: Setup, x: Ctx)
    requires x.status.Verification? && HasVerification(x.buffer)
    ensures var b, unl := x.buffer, x.buffer[1] as nat;
      var end := 3 + unl + b[2 + unl] as nat;
      var r := OnVerification(u, x);
      && r.Ok? && r.effects != []
      && (IsVerified(r.effects[0]) <==> b[2..2 + unl] == u.username && b[3 + unl..end] == u.password)
      && (r.ctx.status == Connect <==> IsVerified(r.effects[0]))
      && (IsVerified(r.effects[0]) ==> r == Ok(x.(status := Connect, buffer := b[end..]), [Write(Send([b[0], 0], true))]))
      && (!IsVerified(r.effects[0]) ==> r == Ok(x, [Write(Send([b[0], 1], true)), Write(CloseDelayed(1000))]))
  {
  }
}
