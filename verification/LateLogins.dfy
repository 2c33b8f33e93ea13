/**
 * add_tunnel and update_tunnel notify the players before they change the list, delete_tunnel after: what becomes
 * of a player that logs in between.
 * np_server/src/global/manager/tunnel.rs, np_server/src/peer/handle_request.rs.
 */
module LateLogins {
  import opened Bytes
  import opened TunnelStore
  import opened Replication

  /** What may happen to connections while an operation is between its broadcasts and its change of the list. */
  predicate Connects(e: Event) { !e.Manage? }

  /** During the window `now` is the list; a player that logs in is shown it, the others will be shown `then`. */
  ghost predicate Window(x: Text, now: seq<Tunnel>, other: seq<Tunnel>, w: World, late: set<nat>) {
    && w.store.tunnels == now && UniqueIds(now) && 0 !in w.players && w.links.Keys <= w.players
    && (forall p | p in w.links :: InStep(x, if p in late then now else other, p, w.links[p]))
  }

  function Late(late: set<nat>, e: Event): (l: set<nat>) { if e.Login? then late + {e.player} else late }

  lemma WindowStep(x: Text, now: seq<Tunnel>, other: seq<Tunnel>, w: World, late: set<nat>, e: Event)
    requires Window(x, now, other, w, late) && Connects(e) && Enabled(w, e)
    ensures Window(x, now, other, Next(x, w, e), Late(late, e))
  {
    if e.Login? {
      SnapshotShows(x, now, e.player);
      PlayOne(map[], LoginAck(Snapshot(x, now, e.player)));
    }
  }

  lemma {:induction false} WindowRun(x: Text, now: seq<Tunnel>, other: seq<Tunnel>,
                                     w: World, late: set<nat>, es: seq<Event>, w': World)
    requires Window(x, now, other, w, late) && Run(x, w, es, w') && (forall k | 0 <= k < |es| :: Connects(es[k]))
    ensures w'.store.tunnels == now && 0 !in w'.links
    ensures forall p | p in w'.links ::
      InStep(x, if p in late || Login(p) in es then now else other, p, w'.links[p])
    decreases |es|
  {
    if es != [] {
      WindowStep(x, now, other, w, late, es[0]);
      WindowRun(x, now, other, Next(x, w, es[0]), Late(late, es[0]), es[1..], w');
      assert forall p :: Login(p) in es <==> es[0] == Login(p) || Login(p) in es[1..];
    }
  }

  /** add_tunnel and update_tunnel between their broadcasts and the list: the table has changed, the list has not. */
  function Announce(x: Text, w: World, op: Op): (w': World) {
    var r := Perform(x, w.players, w.store, op);
    w.(store := w.store.(db := r.store.db), links := Post(w.links, r.mails))
  }

  lemma AnnounceOpens(x: Text, w: World, op: Op)
    requires Inv(x, w) && Enabled(w, Manage(op))
    ensures Window(x, w.store.tunnels, Perform(x, w.players, w.store, op).store.tunnels, Announce(x, w, op), {})
  {
    var r := Perform(x, w.players, w.store, op);
    forall p | p in w.links ensures InStep(x, r.store.tunnels, p, Post(w.links, r.mails)[p]) {
      var l := w.links[p];
      PlayAppend(l.view, l.queue, NotesTo(p, r.mails));
      PerformShows(x, w.players, w.store, op, p, Play(l.view, l.queue));
    }
  }

  /**
   * A client that is online when the list changes agrees with the new list exactly if it did not log in during
   * the window, or the change is none that a login would show it.
   */
  lemma LateLoginAgreesIff(x: Text, w: World, op: Op, es: seq<Event>, w': World, p: nat)
    requires Inv(x, w) && Enabled(w, Manage(op)) && !op.DeleteOp? && Run(x, Announce(x, w, op), es, w')
    requires (forall k | 0 <= k < |es| :: Connects(es[k])) && p in w'.links
    ensures var ts, ts' := w.store.tunnels, Perform(x, w.players, w.store, op).store.tunnels;
      InStep(x, ts', p, w'.links[p]) <==> Login(p) !in es || FreshView(x, ts, p) == FreshView(x, ts', p)
  {
    var ts, ts' := w.store.tunnels, Perform(x, w.players, w.store, op).store.tunnels;
    AnnounceOpens(x, w, op);
    WindowRun(x, ts, ts', Announce(x, w, op), {}, es, w');
    PerformMirrors(x, w.players, w.store, op);
    var v := Play(w'.links[p].view, w'.links[p].queue);
    ShowsIff(x, ts, p, v);
    ShowsIff(x, ts', p, v);
  }

  /** A login shows an addition exactly if the tunnel concerns the player. */
  lemma AdditionShowsIff(x: Text, ts: seq<Tunnel>, t: Tunnel, p: nat)
    requires UniqueIds(ts) && UniqueIds(ts + [t])
    ensures FreshView(x, ts, p) == FreshView(x, ts + [t], p) <==> !Concerns(t, p)
  {
    var v := FreshView(x, ts, p);
    ShowsIff(x, ts, p, v);
    PushShows(x, ts, t, p, v);
    ShowsIff(x, ts + [t], p, if Concerns(t, p) then v[t.id := Pb(x, t)] else v);
    assert (ts + [t])[|ts|] == t;
  }

  /** And an edit exactly if it begins or ceases to concern the player, or changes what a client sees of it. */
  lemma EditShowsIff(x: Text, ts: seq<Tunnel>, k: nat, t: Tunnel, p: nat)
    requires UniqueIds(ts) && k < |ts| && ts[k].id == t.id
    ensures FreshView(x, ts, p) == FreshView(x, ts[k := t], p)
      <==> Concerns(ts[k], p) == Concerns(t, p) && (Concerns(t, p) ==> Pb(x, ts[k]) == Pb(x, t))
  {
    var v := FreshView(x, ts, p);
    ShowsIff(x, ts, p, v);
    EditShows(x, ts, k, t, p, v);
    ShowsIff(x, ts[k := t], p, Edited(x, ts[k], t, p, v));
    PositionIs(ts, k);
  }

  /** A player that logs in while a tunnel of its own is being added is not told of it. */
  lemma LateLoginMissesTunnel(x: Text, w: World, t: Tunnel, inserted: Option<nat>, p: nat)
    requires Inv(x, w) && FreshKey(w.store, inserted) && Add(x, w.players, w.store, t, inserted).ok
    requires p in w.players && Concerns(t, p)
    ensures var op := AddOp(t, inserted);
      var w' := Next(x, Announce(x, w, op), Login(p));
      && p in w'.links
      && inserted.value !in Play(w'.links[p].view, w'.links[p].queue)
      && !InStep(x, Add(x, w.players, w.store, t, inserted).store.tunnels, p, w'.links[p])
  {
    var op, ts := AddOp(t, inserted), w.store.tunnels;
    AnnounceOpens(x, w, op);
    var ts' := Perform(x, w.players, w.store, op).store.tunnels;
    WindowStep(x, ts, ts', Announce(x, w, op), {}, Login(p));
    var w' := Next(x, Announce(x, w, op), Login(p));
    assert InStep(x, ts, p, w'.links[p]);
    assert ts'[|ts|].id == inserted.value && Concerns(ts'[|ts|], p);
  }

  /** An event that is no login of this player and no operation on this tunnel. */
  predicate Elsewhere(e: Event, p: nat, id: nat) {
    && e != Login(p)
    && (e.Manage? ==>
          match e.op
          case AddOp(_, inserted) => inserted != Some(id)
          case UpdateOp(t, _) => t.id != id
          case DeleteOp(other, _) => other != id)
  }

  predicate Names(n: Note, id: nat) { n.LoginAck? || n.tunnel.id == id }

  predicate NoneNames(notes: seq<Note>, id: nat) { forall k | 0 <= k < |notes| :: !Names(notes[k], id) }

  /** Notes about other tunnels bring no news of this one. */
  lemma {:induction false} PlayBrings(v: View, notes: seq<Note>, id: nat)
    requires id !in v && NoneNames(notes, id)
    ensures id !in Play(v, notes)
    decreases |notes|
  {
    if notes != [] {
      assert forall k | 0 <= k < |notes[1..]| :: notes[1..][k] == notes[k + 1];
      PlayBrings(ApplyNote(v, notes[0]), notes[1..], id);
    }
  }

  lemma {:induction false} NotesAmong(p: nat, mails: seq<Mail>, id: nat)
    requires forall k | 0 <= k < |mails| :: !Names(mails[k].note, id)
    ensures NoneNames(NotesTo(p, mails), id)
  {
    if mails != [] {
      assert forall k | 0 <= k < |mails[1..]| :: mails[1..][k] == mails[k + 1];
      NotesAmong(p, mails[1..], id);
    }
  }

  lemma MailsElsewhere(x: Text, players: set<nat>, s: Store, op: Op, p: nat, id: nat)
    requires Elsewhere(Manage(op), p, id)
    ensures forall k | 0 <= k < |Perform(x, players, s, op).mails| :: !Names(Perform(x, players, s, op).mails[k].note, id)
  {
  }

  /** What a connection will bring its client does not change by such an event. */
  lemma StillMissing(x: Text, w: World, e: Event, p: nat, id: nat)
    requires Enabled(w, e) && Elsewhere(e, p, id) && p in Next(x, w, e).links
    requires p in w.links ==> id !in Play(w.links[p].view, w.links[p].queue)
    ensures p in w.links
    ensures var l := Next(x, w, e).links[p]; id !in Play(l.view, l.queue)
  {
    if e.Manage? {
      var r, l := Perform(x, w.players, w.store, e.op), w.links[p];
      MailsElsewhere(x, w.players, w.store, e.op, p, id);
      NotesAmong(p, r.mails, id);
      PlayAppend(l.view, l.queue, NotesTo(p, r.mails));
      PlayBrings(Play(l.view, l.queue), NotesTo(p, r.mails), id);
    }
  }

  /** It stays without the tunnel until it logs in again or the tunnel is edited, whatever else happens. */
  lemma {:induction false} LateLoginStaysWithout(x: Text, w: World, es: seq<Event>, w': World, p: nat, id: nat)
    requires Run(x, w, es, w') && (forall k | 0 <= k < |es| :: Elsewhere(es[k], p, id)) && p in w'.links
    requires p in w.links ==> id !in Play(w.links[p].view, w.links[p].queue)
    ensures id !in Play(w'.links[p].view, w'.links[p].queue)
    decreases |es|
  {
    if es != [] {
      var w1 := Next(x, w, es[0]);
      if p in w1.links {
        StillMissing(x, w, es[0], p, id);
      }
      LateLoginStaysWithout(x, w1, es[1..], w', p, id);
    } else {
      assert w' == w;
    }
  }

  /** delete_tunnel changes the list before it broadcasts: here a late login does no harm. */
  lemma LateLoginMayDelete(x: Text, w: World, id: nat, ok: bool, es: seq<Event>, w': World, p: nat)
    requires Inv(x, w) && (forall k | 0 <= k < |es| :: Connects(es[k]))
    requires var r := Delete(x, w.store, id, ok); r.ok && Run(x, w.(store := r.store), es, w') && p in w'.links
    ensures var r := Delete(x, w.store, id, ok); InStep(x, r.store.tunnels, p, Post(w'.links, r.mails)[p])
  {
    DeleteMirrors(x, w.store, id, ok);
    assert Listed(w.store.tunnels, id);
    DeleteWindow(x, w.store.tunnels, Position(w.store.tunnels, id), w.(store := Delete(x, w.store, id, ok).store), es, w', p);
  }

  lemma DeleteWindow(x: Text, ts: seq<Tunnel>, k: nat, w: World, es: seq<Event>, w': World, p: nat)
    requires UniqueIds(ts) && k < |ts| && Window(x, ts[..k] + ts[k + 1..], ts, w, {})
    requires Run(x, w, es, w') && (forall j | 0 <= j < |es| :: Connects(es[j])) && p in w'.links
    ensures InStep(x, ts[..k] + ts[k + 1..], p, Post(w'.links, Both(x, ts[k], true))[p])
  {
    WindowRun(x, ts[..k] + ts[k + 1..], ts, w, {}, es, w');
    var l := w'.links[p];
    PlayAppend(l.view, l.queue, NotesTo(p, Both(x, ts[k], true)));
    DeleteNotesShow(x, ts, k, p, Play(l.view, l.queue));
  }

  /** The notes of a deletion lead to the rest of the list from the list, and also from the rest. */
  lemma DeleteNotesShow(x: Text, ts: seq<Tunnel>, k: nat, p: nat, v: View)
    requires UniqueIds(ts) && k < |ts|
    requires Shows(x, ts, p, v) || Shows(x, ts[..k] + ts[k + 1..], p, v)
    ensures Shows(x, ts[..k] + ts[k + 1..], p, Play(v, NotesTo(p, Both(x, ts[k], true))))
  {
    if Shows(x, ts, p, v) {
      RemovedShows(x, ts, k, p, v);
    } else {
      BothPlays(x, ts[k], true, p, v);
      NotListed(ts, k);
      assert v - {ts[k].id} == v;
    }
  }

  lemma NotListed(ts: seq<Tunnel>, k: nat)
    requires UniqueIds(ts) && k < |ts|
    ensures !Listed(ts[..k] + ts[k + 1..], ts[k].id)
  {
    WithoutAt(ts, k);
    WithoutUnique(ts, ts[..k] + ts[k + 1..], k);
  }
}
