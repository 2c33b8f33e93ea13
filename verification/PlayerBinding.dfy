/**
 * Which connection speaks for a player: login, takeover and close.
 * np_server/src/player/mod.rs, np_server/src/peer/handle_request.rs, np_server/src/peer/mod.rs.
 */
module PlayerBinding {
  import opened Bytes

  /** A player's session id (0 when offline) and the writer channel it holds, named by its session. */
  datatype Binding = Binding(session: nat, tx: Option<nat>)

  const OFFLINE := Binding(0, None)

  predicate Online(b: Binding) { b.session > 0 }

  class Player {
    var sessionId: nat
    var tx: Option<nat>
    /** Channels that have been sent a Close. */
    var closed: seq<nat>

    constructor ()
      ensures Value() == OFFLINE && closed == []
    {
      sessionId, tx, closed := 0, None, [];
    }

    function Value(): (b: Binding)
      reads this
    {
      Binding(sessionId, tx)
    }

    method CloseSession()
      modifies this`closed
      ensures closed == old(closed) + if tx.Some? then [tx.value] else []
    {
      if tx.Some? {
        closed := closed + [tx.value];
      }
    }

    method ResetSessionInfo()
      modifies this`sessionId, this`tx
      ensures Value() == OFFLINE
    {
      sessionId, tx := 0, None;
    }

    /** The assertion of on_connect_session is its precondition. */
    method OnConnectSession(session: nat, channel: nat)
      requires !Online(Value())
      modifies this`sessionId, this`tx
      ensures Value() == Binding(session, Some(channel))
    {
      sessionId, tx := session, Some(channel);
    }

    /** The critical section of on_login_request: a player who is online is taken over. */
    method Bind(session: nat)
      modifies this
      ensures Value() == Binding(session, Some(session))
      ensures closed == old(closed) + if Online(old(Value())) && old(tx).Some? then [old(tx).value] else []
    {
      if sessionId > 0 {
        CloseSession();
        ResetSessionInfo();
      }
      OnConnectSession(session, session);
    }
  }

  // ---------------------------------------------------------------- the server as a step system

  /** A live connection and the player it logged in as. */
  datatype Peer = Peer(player: Option<nat>)

  /** `told` are the connections that have been sent a Close; `resetting` are closes between their two locks. */
  datatype World = World(seed: nat, peers: map<nat, Peer>, players: map<nat, Binding>, told: set<nat>, resetting: map<nat, nat>)

  datatype Event =
    | Opened
    | Login(sid: nat, pid: nat)
    | Closed(sid: nat)
    /** The two halves of a close that does not hold the player's lock throughout. */
    | CloseChecks(sid: nat)
    | CloseResets(sid: nat)

  /** The other steps treat a close as one critical section. */
  predicate Atomic(e: Event) { !e.CloseChecks? && !e.CloseResets? }

  function Step(w: World, e: Event): (r: World) {
    match e
    case Opened => w.(seed := w.seed + 1, peers := w.peers[w.seed + 1 := Peer(None)])
    case Login(sid, pid) =>
      if sid !in w.peers || w.peers[sid].player.Some? || pid !in w.players then w else
      var was := w.players[pid];
      w.(peers := w.peers[sid := Peer(Some(pid))],
         players := w.players[pid := Binding(sid, Some(sid))],
         told := w.told + if Online(was) && was.tx.Some? then {was.tx.value} else {})
    case Closed(sid) =>
      if sid !in w.peers then w else
      var p := w.peers[sid].player;
      w.(peers := w.peers - {sid},
         players := if p.Some? && p.value in w.players && w.players[p.value].session == sid
                    then w.players[p.value := OFFLINE] else w.players)
    case CloseChecks(sid) =>
      if sid !in w.peers then w else
      var p := w.peers[sid].player;
      w.(peers := w.peers - {sid},
         resetting := if p.Some? && p.value in w.players && w.players[p.value].session == sid
                      then w.resetting[sid := p.value] else w.resetting)
    case CloseResets(sid) =>
      if sid !in w.resetting || w.resetting[sid] !in w.players then w else
      w.(resetting := w.resetting - {sid}, players := w.players[w.resetting[sid] := OFFLINE])
  }

  function Run(w: World, es: seq<Event>): (r: World) {
    if es == [] then w else Step(Run(w, es[..|es| - 1]), es[|es| - 1])
  }

  function Started(players: set<nat>): (w: World) {
    World(0, map[], map p | p in players :: OFFLINE, {}, map[])
  }

  /** A player is online exactly when it holds a channel, and then through a live connection logged in as it. */
  predicate Bound(w: World, pid: nat, b: Binding) {
    && (Online(b) <==> b.tx.Some?)
    && (Online(b) ==> b.tx == Some(b.session) && b.session in w.peers && w.peers[b.session].player == Some(pid))
  }

  predicate Inv(w: World) {
    && (forall sid | sid in w.peers :: 1 <= sid <= w.seed)
    && (forall pid | pid in w.players :: Bound(w, pid, w.players[pid]))
    // a connection that no longer speaks for its player has been told to close
    && (forall sid | sid in w.peers && w.peers[sid].player.Some? ::
          w.peers[sid].player.value in w.players
          && (w.players[w.peers[sid].player.value].session == sid || sid in w.told))
  }

  lemma StepKeepsInv(w: World, e: Event)
    requires Inv(w) && Atomic(e)
    ensures Inv(Step(w, e))
  {
  }

  /** Along every run of logins, takeovers and closes. */
  lemma {:induction false} EveryRunKeepsInv(players: set<nat>, es: seq<Event>)
    requires forall k | 0 <= k < |es| :: Atomic(es[k])
    ensures Inv(Run(Started(players), es))
    decreases |es|
  {
    if es != [] {
      EveryRunKeepsInv(players, es[..|es| - 1]);
      StepKeepsInv(Run(Started(players), es[..|es| - 1]), es[|es| - 1]);
    }
  }

  /** Login binds the connection, whoever held the player before; only the superseded one is told to close. */
  lemma LoginTakesOver(w: World, sid: nat, pid: nat)
    requires Inv(w) && sid in w.peers && w.peers[sid].player.None? && pid in w.players
    ensures var w' := Step(w, Login(sid, pid));
      && w'.players[pid] == Binding(sid, Some(sid))
      && w'.told == w.told + (if Online(w.players[pid]) then {w.players[pid].session} else {})
      && (forall other | other in w.players && other != pid :: w'.players[other] == w.players[other])
  {
  }

  /** A new connection has an id of its own and speaks for nobody; only known players can be logged in to, once. */
  lemma OpenedAndRefused(w: World, sid: nat, pid: nat)
    requires Inv(w)
    ensures var w' := Step(w, Opened);
      w' == w.(seed := w'.seed, peers := w.peers[w'.seed := Peer(None)]) && w'.seed !in w.peers
    ensures sid !in w.peers || w.peers[sid].player.Some? || pid !in w.players ==> Step(w, Login(sid, pid)) == w
  {
  }

  /** Closing a connection frees its player exactly if the connection still spoke for it. */
  lemma CloseFreesIff(w: World, sid: nat, pid: nat)
    requires Inv(w) && sid in w.peers && pid in w.players
    ensures var w' := Step(w, Closed(sid));
      && (if w.players[pid].session == sid then w'.players[pid] == OFFLINE else w'.players[pid] == w.players[pid])
      && w'.peers == w.peers - {sid} && w'.told == w.told
  {
  }

  // ---------------------------------------------------------------- a close that takes two locks

  /** The connection is the one its player answers to. */
  predicate Speaks(w: World, sid: nat) {
    && sid in w.peers && w.peers[sid].player.Some?
    && w.peers[sid].player.value in w.players && w.players[w.peers[sid].player.value].session == sid
  }

  /** Its two halves, with nothing between them, are the close in one piece. */
  lemma HalvesMakeAClose(w: World, sid: nat)
    requires WeakInv(w) && sid in w.peers
    ensures Step(Step(w, CloseChecks(sid)), CloseResets(sid)) == Step(w, Closed(sid))
    ensures var w' := Step(w, CloseChecks(sid));
      w'.peers == w.peers - {sid} && w'.players == w.players && (sid in w'.resetting <==> Speaks(w, sid))
  {
    var w' := Step(w, CloseChecks(sid));
    if Speaks(w, sid) {
      assert w'.resetting - {sid} == w.resetting;
    }
  }

  /** What still holds when closes take two locks: a session that is bound is alive or being reset. */
  predicate WeakInv(w: World) {
    && (forall sid | sid in w.peers :: 1 <= sid <= w.seed)
    && (forall sid | sid in w.resetting :: 1 <= sid <= w.seed && sid !in w.peers && w.resetting[sid] in w.players)
    && (forall pid | pid in w.players && Online(w.players[pid]) ::
          var sid := w.players[pid].session;
          || (sid in w.peers && w.peers[sid].player == Some(pid))
          || (sid in w.resetting && w.resetting[sid] == pid))
  }

  lemma AnyStepKeepsWeakInv(w: World, e: Event)
    requires WeakInv(w)
    ensures WeakInv(Step(w, e))
  {
  }

  /** Along every run from the start, closes in two halves included. */
  lemma {:induction false} EveryRunKeepsWeakInv(players: set<nat>, es: seq<Event>)
    ensures WeakInv(Run(Started(players), es))
    decreases |es|
  {
    if es != [] {
      EveryRunKeepsWeakInv(players, es[..|es| - 1]);
      AnyStepKeepsWeakInv(Run(Started(players), es[..|es| - 1]), es[|es| - 1]);
    }
  }

  /** The late half of such a close keeps every live binding exactly if the player's present session is no live connection. */
  lemma LateResetIsHarmlessIff(w: World, sid: nat)
    requires WeakInv(w) && sid in w.resetting
    ensures (forall other | Speaks(w, other) :: Speaks(Step(w, CloseResets(sid)), other))
      <==> w.players[w.resetting[sid]].session !in w.peers
  {
    var pid := w.resetting[sid];
    var current := w.players[pid].session;
    if current in w.peers {
      assert Speaks(w, current) && !Speaks(Step(w, CloseResets(sid)), current);
    }
  }

  /** A run in which the new connection loses the player it has just taken over. */
  lemma TwoLocksLoseATakeover(pid: nat) returns (es: seq<Event>)
    ensures var w := Run(Started({pid}), es);
      2 in w.peers && w.peers[2].player == Some(pid) && pid in w.players && w.players[pid] == OFFLINE && 2 !in w.told
  {
    es := [Opened, Login(1, pid), Opened, CloseChecks(1), Login(2, pid), CloseResets(1)];
    var w0 := Started({pid});
    var w1 := Step(w0, Opened);
    var w2 := Step(w1, Login(1, pid));
    var w3 := Step(w2, Opened);
    var w4 := Step(w3, CloseChecks(1));
    var w5 := Step(w4, Login(2, pid));
    assert es[..5] == [Opened, Login(1, pid), Opened, CloseChecks(1), Login(2, pid)];
    assert es[..5][..4] == [Opened, Login(1, pid), Opened, CloseChecks(1)];
    assert es[..5][..4][..3] == [Opened, Login(1, pid), Opened];
    assert es[..5][..4][..3][..2] == [Opened, Login(1, pid)];
    assert es[..5][..4][..3][..2][..1] == [Opened];
    assert Run(w0, es[..5][..4][..3][..2][..1]) == w1;
    assert Run(w0, es[..5][..4][..3]) == w3;
    assert Run(w0, es[..5]) == w5;
  }
}
