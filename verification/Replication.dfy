/**
 * Replication of the tunnel list: the server, its table and the `tunnels` map of every logged-in client.
 * np_server/src/global/manager/tunnel.rs, np_server/src/peer/handle_request.rs, np_client/src/client.rs.
 */
module Replication {
  import opened Bytes
  import opened TunnelStore

  type View = map<nat, PbTunnel>

  // ---------------------------------------------------------------- the client

  /** The map built from a login snapshot: later entries win. */
  function FromList(ps: seq<PbTunnel>): (v: View) {
    if ps == [] then map[] else
    var last := ps[|ps| - 1];
    FromList(ps[..|ps| - 1])[last.id := last]
  }

  /** What a notification does to the client's map. */
  function ApplyNote(v: View, n: Note): (v': View) {
    match n
    case LoginAck(ps) => FromList(ps)
    case Modify(isDelete, t) => if isDelete then v - {t.id} else v[t.id := t]
  }

  function Play(v: View, notes: seq<Note>): (v': View)
    decreases |notes|
  {
    if notes == [] then v else Play(ApplyNote(v, notes[0]), notes[1..])
  }

  /** The map that sync_tunnels last ran on: a delete notification returns before it. */
  function SyncNote(synced: View, v: View, n: Note): (s: View) {
    if n.Modify? && n.isDelete then synced else ApplyNote(v, n)
  }

  function SyncPlay(synced: View, v: View, notes: seq<Note>): (s: View)
    decreases |notes|
  {
    if notes == [] then synced else SyncPlay(SyncNote(synced, v, notes[0]), ApplyNote(v, notes[0]), notes[1..])
  }

  class Client {
    var tunnels: View
    var synced: View

    constructor ()
      ensures tunnels == map[] && synced == map[]
    {
      tunnels, synced := map[], map[];
    }

    method SyncTunnels()
      modifies this`synced
      ensures synced == tunnels
    {
      synced := tunnels;
    }

    method OnLoginAck(list: seq<PbTunnel>)
      modifies this
      ensures tunnels == ApplyNote(old(tunnels), LoginAck(list))
      ensures synced == SyncNote(old(synced), old(tunnels), LoginAck(list))
    {
      tunnels := map[];
      for i := 0 to |list|
        invariant tunnels == FromList(list[..i])
      {
        assert list[..i + 1][..i] == list[..i];
        tunnels := tunnels[list[i].id := list[i]];
      }
      assert list[..|list|] == list;
      SyncTunnels();
    }

    method OnModifyTunnelNtf(isDelete: bool, tunnel: Option<PbTunnel>)
      modifies this
      ensures tunnel.None? ==> tunnels == old(tunnels) && synced == old(synced)
      ensures tunnel.Some? ==> tunnels == ApplyNote(old(tunnels), Modify(isDelete, tunnel.value))
      ensures tunnel.Some? ==> synced == SyncNote(old(synced), old(tunnels), Modify(isDelete, tunnel.value))
    {
      if tunnel.None? {
        return;
      }
      var t := tunnel.value;
      tunnels := tunnels - {t.id};
      if isDelete {
        return;
      }
      tunnels := tunnels[t.id := t];
      SyncTunnels();
    }
  }

  // ---------------------------------------------------------------- the whole system

  predicate Concerns(t: Tunnel, p: nat) {
    t.sender == p || t.receiver == p
  }

  /** The list on_login_request puts in LoginAck. */
  function Snapshot(x: Text, ts: seq<Tunnel>, p: nat): (ps: seq<PbTunnel>) {
    if ts == [] then [] else
    var t := ts[|ts| - 1];
    Snapshot(x, ts[..|ts| - 1], p) + if Concerns(t, p) then [Pb(x, t)] else []
  }

  /** The notes among some mails that one player receives. */
  function NotesTo(p: nat, mails: seq<Mail>): (notes: seq<Note>) {
    if mails == [] then []
    else if mails[0].player == p then [mails[0].note] + NotesTo(p, mails[1..])
    else NotesTo(p, mails[1..])
  }

  /** A connection: notifications under way and the client at the other end. */
  datatype Link = Link(queue: seq<Note>, view: View, synced: View)

  /** `links` has one entry for each player that is online. */
  datatype World = World(store: Store, players: set<nat>, links: map<nat, Link>)

  datatype Op =
    | AddOp(tunnel: Tunnel, inserted: Option<nat>)
    | UpdateOp(tunnel: Tunnel, ok: bool)
    | DeleteOp(id: nat, ok: bool)

  datatype Event =
    | Register(player: nat)
    | Manage(op: Op)
    | Login(player: nat)
    | Logout(player: nat)
    | Deliver(player: nat)

  function Perform(x: Text, players: set<nat>, s: Store, op: Op): (r: Outcome) {
    match op
    case AddOp(t, inserted) => Add(x, players, s, t, inserted)
    case UpdateOp(t, ok) => Update(x, players, s, t, ok)
    case DeleteOp(id, ok) => Delete(x, s, id, ok)
  }

  /** broadcast_tunnel_info: player 0 and players that are offline receive nothing. */
  function Post(links: map<nat, Link>, mails: seq<Mail>): (links': map<nat, Link>) {
    map p | p in links :: if p == 0 then links[p] else links[p].(queue := links[p].queue + NotesTo(p, mails))
  }

  predicate Enabled(w: World, e: Event) {
    match e
    case Register(p) => p != 0
    case Manage(op) => op.AddOp? ==> FreshKey(w.store, op.inserted)
    case Login(p) => p in w.players
    case Logout(p) => true
    case Deliver(p) => p in w.links && w.links[p].queue != []
  }

  function Next(x: Text, w: World, e: Event): (w': World)
    requires Enabled(w, e)
  {
    match e
    case Register(p) => w.(players := w.players + {p})
    case Manage(op) =>
      var r := Perform(x, w.players, w.store, op);
      w.(store := r.store, links := Post(w.links, r.mails))
    case Login(p) => w.(links := w.links[p := Link([LoginAck(Snapshot(x, w.store.tunnels, p))], map[], map[])])
    case Logout(p) => w.(links := w.links - {p})
    case Deliver(p) =>
      var l := w.links[p];
      var n := l.queue[0];
      w.(links := w.links[p := Link(l.queue[1..], ApplyNote(l.view, n), SyncNote(l.synced, l.view, n))])
  }

  // ---------------------------------------------------------------- what a view should be

  /** The map holds exactly the tunnels that concern the player, as clients see them. */
  ghost predicate Shows(x: Text, ts: seq<Tunnel>, p: nat, v: View) {
    && (forall k | 0 <= k < |ts| && Concerns(ts[k], p) :: ts[k].id in v && v[ts[k].id] == Pb(x, ts[k]))
    && (forall id | id in v :: Position(ts, id) < |ts| && Concerns(ts[Position(ts, id)], p))
  }

  /** Nothing is left open: for a list and a player there is at most one such map. */
  lemma ShowsOne(x: Text, ts: seq<Tunnel>, p: nat, v: View, v': View)
    requires Shows(x, ts, p, v) && Shows(x, ts, p, v')
    ensures v == v'
  {
    forall id | id in v ensures id in v' && v'[id] == v[id] {
      assert ts[Position(ts, id)].id == id;
    }
    forall id | id in v' ensures id in v {
      assert ts[Position(ts, id)].id == id;
    }
  }

  /** Read off the table instead of the list. */
  lemma ShowsTable(x: Text, s: Store, p: nat, v: View)
    requires Mirrors(s) && Shows(x, s.tunnels, p, v)
    ensures forall id :: id in v <==> id in s.db && Concerns(s.db[id], p)
    ensures forall id | id in v :: v[id] == Pb(x, s.db[id])
  {
    forall id | id in v || id in s.db ensures id in v <==> id in s.db && Concerns(s.db[id], p) {
      assert id in s.db ==> Listed(s.tunnels, id);
      assert s.tunnels[Position(s.tunnels, id)].id == id;
    }
    forall id | id in v ensures v[id] == Pb(x, s.db[id]) {
      assert s.tunnels[Position(s.tunnels, id)].id == id;
    }
  }

  /** With unique ids, where an id sits is where it is found. */
  lemma PositionIs(ts: seq<Tunnel>, k: nat)
    requires UniqueIds(ts) && k < |ts|
    ensures Position(ts, ts[k].id) == k
  {
  }

  /** Adding a tunnel with a new id. */
  lemma PushShows(x: Text, ts: seq<Tunnel>, t: Tunnel, p: nat, v: View)
    requires UniqueIds(ts + [t]) && Shows(x, ts, p, v)
    ensures Shows(x, ts + [t], p, if Concerns(t, p) then v[t.id := Pb(x, t)] else v)
  {
    var ts', v' := ts + [t], if Concerns(t, p) then v[t.id := Pb(x, t)] else v;
    forall k | 0 <= k < |ts'| && Concerns(ts'[k], p) ensures ts'[k].id in v' && v'[ts'[k].id] == Pb(x, ts'[k]) {
      if k < |ts| {
        assert ts'[k] == ts[k];
        assert ts'[k].id != ts'[|ts|].id;
      }
    }
    forall id | id in v' ensures Position(ts', id) < |ts'| && Concerns(ts'[Position(ts', id)], p) {
      if id in v {
        var k := Position(ts, id);
        assert ts'[k] == ts[k];
        PositionIs(ts', k);
      } else {
        PositionIs(ts', |ts|);
      }
    }
  }

  /** A login snapshot, turned into a map, shows the list. */
  lemma {:induction false} SnapshotShows(x: Text, ts: seq<Tunnel>, p: nat)
    requires UniqueIds(ts)
    ensures Shows(x, ts, p, FromList(Snapshot(x, ts, p)))
  {
    if ts != [] {
      var rest, t := ts[..|ts| - 1], ts[|ts| - 1];
      assert ts == rest + [t];
      SnapshotShows(x, rest, p);
      PushShows(x, rest, t, p, FromList(Snapshot(x, rest, p)));
      var ps := Snapshot(x, rest, p);
      assert (ps + [Pb(x, t)])[..|ps|] == ps;
      assert ps + [] == ps;
    }
  }

  /** `rest` is the list without its k-th tunnel. */
  predicate Without(ts: seq<Tunnel>, k: nat, rest: seq<Tunnel>) {
    && k < |ts| && |rest| == |ts| - 1
    && (forall j | 0 <= j < |rest| :: rest[j] == ts[if j < k then j else j + 1])
    && (forall j | 0 <= j < |rest| :: rest[j].id != ts[k].id)
  }

  /** An id that is still shown is found in the rest. */
  lemma RestFinds(ts: seq<Tunnel>, rest: seq<Tunnel>, k: nat, p: nat, id: nat)
    requires UniqueIds(rest) && Without(ts, k, rest) && id != ts[k].id
    requires Position(ts, id) < |ts| && Concerns(ts[Position(ts, id)], p)
    ensures Position(rest, id) < |rest| && Concerns(rest[Position(rest, id)], p)
  {
    var i := Position(ts, id);
    var j := if i < k then i else i - 1;
    assert rest[j] == ts[i];
    PositionIs(rest, j);
  }

  lemma RestShows(x: Text, ts: seq<Tunnel>, rest: seq<Tunnel>, k: nat, p: nat, v: View)
    requires UniqueIds(rest) && Without(ts, k, rest) && Shows(x, ts, p, v)
    ensures Shows(x, rest, p, v - {ts[k].id})
  {
    forall id | id in v - {ts[k].id} ensures Position(rest, id) < |rest| && Concerns(rest[Position(rest, id)], p) {
      RestFinds(ts, rest, k, p, id);
    }
  }

  lemma RemoveShows(x: Text, ts: seq<Tunnel>, k: nat, p: nat, v: View)
    requires UniqueIds(ts) && k < |ts| && Shows(x, ts, p, v)
    ensures Shows(x, ts[..k] + ts[k + 1..], p, if Concerns(ts[k], p) then v - {ts[k].id} else v)
  {
    WithoutAt(ts, k);
    WithoutUnique(ts, ts[..k] + ts[k + 1..], k);
    RestShows(x, ts, ts[..k] + ts[k + 1..], k, p, v);
    PositionIs(ts, k);
    assert !Concerns(ts[k], p) ==> v - {ts[k].id} == v;
  }

  /** What an edit does to a view. */
  function Edited(x: Text, was: Tunnel, t: Tunnel, p: nat, v: View): (v': View) {
    if Concerns(t, p) then v[t.id := Pb(x, t)] else if Concerns(was, p) then v - {t.id} else v
  }

  lemma EditShows(x: Text, ts: seq<Tunnel>, k: nat, t: Tunnel, p: nat, v: View)
    requires UniqueIds(ts) && k < |ts| && ts[k].id == t.id && Shows(x, ts, p, v)
    ensures Shows(x, ts[k := t], p, Edited(x, ts[k], t, p, v))
  {
    var ts', v' := ts[k := t], Edited(x, ts[k], t, p, v);
    PositionIs(ts, k);
    PositionIs(ts', k);
    forall i | 0 <= i < |ts'| && Concerns(ts'[i], p) ensures ts'[i].id in v' && v'[ts'[i].id] == Pb(x, ts'[i]) {
      assert i != k ==> ts'[i] == ts[i] && ts[i].id != t.id;
    }
    forall id | id in v' ensures Position(ts', id) < |ts'| && Concerns(ts'[Position(ts', id)], p) {
      if id != t.id {
        var i := Position(ts, id);
        assert ts'[i] == ts[i];
        PositionIs(ts', i);
      }
    }
  }

  // ---------------------------------------------------------------- what the mails do

  lemma {:induction false} PlayAppend(v: View, a: seq<Note>, b: seq<Note>)
    ensures Play(v, a + b) == Play(Play(v, a), b)
    decreases |a|
  {
    if a == [] {
      assert a + b == b;
    } else {
      assert (a + b)[1..] == a[1..] + b;
      PlayAppend(ApplyNote(v, a[0]), a[1..], b);
    }
  }

  lemma {:induction false} NotesToAppend(p: nat, a: seq<Mail>, b: seq<Mail>)
    ensures NotesTo(p, a + b) == NotesTo(p, a) + NotesTo(p, b)
  {
    if a == [] {
      assert a + b == b;
    } else {
      assert (a + b)[1..] == a[1..] + b;
      NotesToAppend(p, a[1..], b);
      var n, s, t := a[0].note, NotesTo(p, a[1..]), NotesTo(p, b);
      assert [n] + (s + t) == [n] + s + t;
    }
  }

  /** Mail that may or may not be sent. */
  function Maybe(b: bool, m: Mail): (ms: seq<Mail>) {
    if b then [m] else []
  }

  lemma MaybeTo(p: nat, b: bool, m: Mail)
    ensures NotesTo(p, Maybe(b, m)) == if b && m.player == p then [m.note] else []
  {
    assert [m][1..] == [];
  }

  lemma PlayOne(v: View, n: Note)
    ensures Play(v, [n]) == ApplyNote(v, n)
  {
  }

  /** The two mails of an addition or a removal act once on whoever is concerned. */
  lemma BothPlays(x: Text, t: Tunnel, isDelete: bool, p: nat, v: View)
    ensures Play(v, NotesTo(p, Both(x, t, isDelete)))
      == if Concerns(t, p) then ApplyNote(v, Modify(isDelete, Pb(x, t))) else v
  {
    var n := Modify(isDelete, Pb(x, t));
    var a, b := Maybe(true, Mail(t.sender, n)), Maybe(t.sender != t.receiver, Mail(t.receiver, n));
    assert Both(x, t, isDelete) == a + b;
    NotesToAppend(p, a, b);
    MaybeTo(p, true, Mail(t.sender, n));
    MaybeTo(p, t.sender != t.receiver, Mail(t.receiver, n));
    PlayAppend(v, NotesTo(p, a), NotesTo(p, b));
    PlayOne(v, n);
  }

  /** The delete notes of an edit reach a player that the tunnel no longer concerns. */
  lemma DeletesPlay(x: Text, was: Tunnel, t: Tunnel, p: nat, v: View)
    ensures var n := Modify(true, Pb(x, t));
      var ms := Maybe(was.sender != t.sender, Mail(was.sender, n)) + Maybe(was.receiver != t.sender, Mail(was.receiver, n));
      var v' := Play(v, NotesTo(p, ms));
      && (v' == v || v' == v - {t.id})
      && (!Concerns(t, p) ==> v' == if Concerns(was, p) then v - {t.id} else v)
  {
    var n := Modify(true, Pb(x, t));
    var b, c := was.sender != t.sender, was.receiver != t.sender;
    NotesToAppend(p, Maybe(b, Mail(was.sender, n)), Maybe(c, Mail(was.receiver, n)));
    MaybeTo(p, b, Mail(was.sender, n));
    MaybeTo(p, c, Mail(was.receiver, n));
    PlayAppend(v, NotesTo(p, Maybe(b, Mail(was.sender, n))), NotesTo(p, Maybe(c, Mail(was.receiver, n))));
    PlayOne(v, n);
    PlayOne(v - {t.id}, n);
    assert v - {t.id} - {t.id} == v - {t.id};
  }

  /** Deletes first, then updates: the mails of an edit leave the edited view. */
  lemma UpdatePlays(x: Text, was: Tunnel, t: Tunnel, p: nat, v: View)
    ensures Play(v, NotesTo(p, UpdateMails(x, was, t))) == Edited(x, was, t, p, v)
  {
    var n := Modify(true, Pb(x, t));
    var ms := Maybe(was.sender != t.sender, Mail(was.sender, n)) + Maybe(was.receiver != t.sender, Mail(was.receiver, n));
    assert UpdateMails(x, was, t) == ms + Both(x, t, false);
    NotesToAppend(p, ms, Both(x, t, false));
    PlayAppend(v, NotesTo(p, ms), NotesTo(p, Both(x, t, false)));
    DeletesPlay(x, was, t, p, v);
    BothPlays(x, t, false, p, Play(v, NotesTo(p, ms)));
    assert (v - {t.id})[t.id := Pb(x, t)] == v[t.id := Pb(x, t)];
  }

  // ---------------------------------------------------------------- invariant

  /** A connection whose client will show the list once it has read what is under way. */
  ghost predicate InStep(x: Text, ts: seq<Tunnel>, p: nat, l: Link) {
    Shows(x, ts, p, Play(l.view, l.queue))
  }

  ghost predicate Inv(x: Text, w: World) {
    && Mirrors(w.store)
    && 0 !in w.players
    && w.links.Keys <= w.players
    && (forall p | p in w.links :: InStep(x, w.store.tunnels, p, w.links[p]))
  }

  lemma PerformMirrors(x: Text, players: set<nat>, s: Store, op: Op)
    requires Mirrors(s) && (op.AddOp? ==> FreshKey(s, op.inserted))
    ensures Mirrors(Perform(x, players, s, op).store)
  {
    match op
    case AddOp(t, inserted) => AddMirrors(x, players, s, t, inserted);
    case UpdateOp(t, ok) => UpdateMirrors(x, players, s, t, ok);
    case DeleteOp(id, ok) => DeleteMirrors(x, s, id, ok);
  }

  lemma AddShows(x: Text, players: set<nat>, s: Store, t: Tunnel, inserted: Option<nat>, p: nat, v: View)
    requires Mirrors(s) && FreshKey(s, inserted) && Shows(x, s.tunnels, p, v)
    ensures var r := Add(x, players, s, t, inserted); Shows(x, r.store.tunnels, p, Play(v, NotesTo(p, r.mails)))
  {
    AddMirrors(x, players, s, t, inserted);
    if Add(x, players, s, t, inserted).ok {
      var t' := t.(id := inserted.value);
      PushShows(x, s.tunnels, t', p, v);
      BothPlays(x, t', false, p, v);
    }
  }

  lemma UpdateShows(x: Text, players: set<nat>, s: Store, t: Tunnel, ok: bool, p: nat, v: View)
    requires Mirrors(s) && Shows(x, s.tunnels, p, v)
    ensures var r := Update(x, players, s, t, ok); Shows(x, r.store.tunnels, p, Play(v, NotesTo(p, r.mails)))
  {
    if Update(x, players, s, t, ok).ok {
      var k := Position(s.tunnels, t.id);
      EditShows(x, s.tunnels, k, t, p, v);
      UpdatePlays(x, s.tunnels[k], t, p, v);
    }
  }

  lemma RemovedShows(x: Text, ts: seq<Tunnel>, k: nat, p: nat, v: View)
    requires UniqueIds(ts) && k < |ts| && Shows(x, ts, p, v)
    ensures Shows(x, ts[..k] + ts[k + 1..], p, Play(v, NotesTo(p, Both(x, ts[k], true))))
  {
    RemoveShows(x, ts, k, p, v);
    BothPlays(x, ts[k], true, p, v);
  }

  lemma DeleteShows(x: Text, s: Store, id: nat, ok: bool, p: nat, v: View)
    requires Mirrors(s) && Shows(x, s.tunnels, p, v)
    ensures var r := Delete(x, s, id, ok); Shows(x, r.store.tunnels, p, Play(v, NotesTo(p, r.mails)))
  {
    if ok && id in s.db {
      assert Listed(s.tunnels, id);
      RemovedShows(x, s.tunnels, Position(s.tunnels, id), p, v);
    }
  }

  /** Whatever an operation does to the list, its mails do to the view. */
  lemma PerformShows(x: Text, players: set<nat>, s: Store, op: Op, p: nat, v: View)
    requires Mirrors(s) && (op.AddOp? ==> FreshKey(s, op.inserted)) && Shows(x, s.tunnels, p, v)
    ensures var r := Perform(x, players, s, op); Shows(x, r.store.tunnels, p, Play(v, NotesTo(p, r.mails)))
  {
    match op
    case AddOp(t, inserted) => AddShows(x, players, s, t, inserted, p, v);
    case UpdateOp(t, ok) => UpdateShows(x, players, s, t, ok, p, v);
    case DeleteOp(id, ok) => DeleteShows(x, s, id, ok, p, v);
  }

  lemma EventKeepsInv(x: Text, w: World, e: Event)
    requires Inv(x, w) && Enabled(w, e)
    ensures Inv(x, Next(x, w, e))
  {
    var w' := Next(x, w, e);
    match e
    case Register(_) =>
    case Manage(op) =>
      var r := Perform(x, w.players, w.store, op);
      PerformMirrors(x, w.players, w.store, op);
      forall p | p in w'.links ensures InStep(x, w'.store.tunnels, p, w'.links[p]) {
        var l := w.links[p];
        PlayAppend(l.view, l.queue, NotesTo(p, r.mails));
        PerformShows(x, w.players, w.store, op, p, Play(l.view, l.queue));
      }
    case Login(p) =>
      SnapshotShows(x, w.store.tunnels, p);
      PlayOne(map[], LoginAck(Snapshot(x, w.store.tunnels, p)));
    case Logout(_) =>
    case Deliver(_) =>
  }

  // ---------------------------------------------------------------- runs

  /** The server has loaded its table and nobody is connected. */
  predicate Loaded(w: World) {
    Mirrors(w.store) && w.links == map[] && 0 !in w.players
  }

  ghost predicate Run(x: Text, from: World, es: seq<Event>, to: World)
    decreases |es|
  {
    if es == [] then to == from else Enabled(from, es[0]) && Run(x, Next(x, from, es[0]), es[1..], to)
  }

  lemma {:induction false} RunKeepsInv(x: Text, from: World, es: seq<Event>, to: World)
    requires Inv(x, from) && Run(x, from, es, to)
    ensures Inv(x, to)
    decreases |es|
  {
    if es != [] {
      EventKeepsInv(x, from, es[0]);
      RunKeepsInv(x, Next(x, from, es[0]), es[1..], to);
    }
  }

  /**
   * Along every run the list mirrors the table, and each online client, once it has read the notifications
   * under way to it, holds exactly the tunnels whose sender or receiver it is.
   */
  lemma ViewsAreReplicated(x: Text, from: World, es: seq<Event>, to: World, p: nat)
    requires Loaded(from) && Run(x, from, es, to)
    ensures Mirrors(to.store)
    ensures p in to.links ==>
      var v := Play(to.links[p].view, to.links[p].queue);
      && (forall id :: id in v <==> id in to.store.db && Concerns(to.store.db[id], p))
      && (forall id | id in v :: v[id] == Pb(x, to.store.db[id]))
  {
    RunKeepsInv(x, from, es, to);
    if p in to.links {
      assert InStep(x, to.store.tunnels, p, to.links[p]);
      ShowsTable(x, to.store, p, Play(to.links[p].view, to.links[p].queue));
    }
  }

  /** The map a new login would give. */
  function FreshView(x: Text, ts: seq<Tunnel>, p: nat): (v: View) { FromList(Snapshot(x, ts, p)) }

  lemma ShowsIff(x: Text, ts: seq<Tunnel>, p: nat, v: View)
    requires UniqueIds(ts)
    ensures Shows(x, ts, p, v) <==> v == FreshView(x, ts, p)
  {
    SnapshotShows(x, ts, p);
    if Shows(x, ts, p, v) {
      ShowsOne(x, ts, p, v, FreshView(x, ts, p));
    }
  }

  /** An online client ends up with the map a new login would give it. */
  lemma ViewIsFresh(x: Text, from: World, es: seq<Event>, to: World, p: nat)
    requires Loaded(from) && Run(x, from, es, to) && p in to.links
    ensures Play(to.links[p].view, to.links[p].queue) == FreshView(x, to.store.tunnels, p)
  {
    RunKeepsInv(x, from, es, to);
    assert InStep(x, to.store.tunnels, p, to.links[p]);
    ShowsIff(x, to.store.tunnels, p, Play(to.links[p].view, to.links[p].queue));
  }

  // ---------------------------------------------------------------- what reaches the clients

  /** An addition or deletion is told once to each player of the tunnel, and to nobody else. */
  lemma ToldOnce(x: Text, t: Tunnel, isDelete: bool, p: nat)
    ensures NotesTo(p, Both(x, t, isDelete)) == if Concerns(t, p) then [Modify(isDelete, Pb(x, t))] else []
  {
    var ms := Both(x, t, isDelete);
    assert NotesTo(p, ms[1..]) == if t.sender != t.receiver && t.receiver == p then [Modify(isDelete, Pb(x, t))] else [] by {
      assert |ms| == 2 ==> ms[1..][1..] == [];
    }
  }


  /** What an online client will hold once it has read what is under way to it. */
  function Due(w: World, p: nat): (v: View)
    requires p in w.links
  {
    Play(w.links[p].view, w.links[p].queue)
  }

  lemma DueIsShare(x: Text, w: World, p: nat)
    requires Inv(x, w) && p in w.links
    ensures forall id :: id in Due(w, p) <==> id in w.store.db && Concerns(w.store.db[id], p)
    ensures forall id | id in Due(w, p) :: Due(w, p)[id] == Pb(x, w.store.db[id])
  {
    assert InStep(x, w.store.tunnels, p, w.links[p]);
    ShowsTable(x, w.store, p, Due(w, p));
  }

  /** An accepted addition or update reaches exactly the online players it concerns, as it is now. */
  lemma WrittenReaches(x: Text, w: World, op: Op, p: nat)
    requires Inv(x, w) && Enabled(w, Manage(op)) && !op.DeleteOp? && p in w.links
    requires Perform(x, w.players, w.store, op).ok
    ensures var w' := Next(x, w, Manage(op));
      var t := if op.AddOp? then op.tunnel.(id := op.inserted.value) else op.tunnel;
      && t.id in w'.store.db && w'.store.db[t.id] == t
      && p in w'.links && (t.id in Due(w', p) <==> Concerns(t, p)) && (Concerns(t, p) ==> Due(w', p)[t.id] == Pb(x, t))
  {
    EventKeepsInv(x, w, Manage(op));
    DueIsShare(x, Next(x, w, Manage(op)), p);
    match op
    case AddOp(t, inserted) => AddWrites(x, w.players, w.store, t, inserted);
    case UpdateOp(t, ok) => UpdateWrites(x, w.players, w.store, t, ok);
  }

  /** After an accepted deletion no online player is left with the tunnel. */
  lemma DeletedReaches(x: Text, w: World, id: nat, p: nat)
    requires Inv(x, w) && id in w.store.db && p in w.links
    ensures var w' := Next(x, w, Manage(DeleteOp(id, true)));
      id !in w'.store.db && p in w'.links && id !in Due(w', p)
  {
    EventKeepsInv(x, w, Manage(DeleteOp(id, true)));
    DueIsShare(x, Next(x, w, Manage(DeleteOp(id, true))), p);
    DeleteRemoves(x, w.store, id, true);
  }

  /** A login opens a connection, a logout ends it, a registration lets a player log in; nothing else is touched. */
  lemma Connections(x: Text, w: World, p: nat)
    ensures p in w.players ==>
      var w' := Next(x, w, Login(p));
      && w'.store == w.store && w'.players == w.players && w'.links.Keys == w.links.Keys + {p}
      && Due(w', p) == FreshView(x, w.store.tunnels, p)
      && (forall other | other in w.links && other != p :: w'.links[other] == w.links[other])
    ensures var w' := Next(x, w, Logout(p));
      && w'.store == w.store && w'.players == w.players && w'.links.Keys == w.links.Keys - {p}
      && (forall other | other in w'.links :: w'.links[other] == w.links[other])
    ensures p != 0 ==> Next(x, w, Register(p)) == w.(players := w.players + {p})
  {
    PlayOne(map[], LoginAck(Snapshot(x, w.store.tunnels, p)));
  }

  function Deliveries(p: nat, n: nat): (es: seq<Event>) { seq(n, _ => Deliver(p)) }

  /** However much is under way to a client, that many deliveries bring it up to date. */
  lemma {:induction false} ClientCatchesUp(x: Text, w: World, p: nat) returns (w': World)
    requires p in w.links
    ensures Run(x, w, Deliveries(p, |w.links[p].queue|), w')
    ensures p in w'.links && w'.links[p].queue == [] && w'.links[p].view == Due(w, p)
    ensures w'.store == w.store && w'.players == w.players && w'.links.Keys == w.links.Keys
    ensures forall other | other in w.links && other != p :: w'.links[other] == w.links[other]
    decreases |w.links[p].queue|
  {
    var n := |w.links[p].queue|;
    if n == 0 {
      w' := w;
    } else {
      var w1 := Next(x, w, Deliver(p));
      w' := ClientCatchesUp(x, w1, p);
      assert Deliveries(p, n)[1..] == Deliveries(p, n - 1);
    }
  }

  /** Along every run all rows are valid, if they were at the start: nothing invalid is ever written. */
  ghost predicate RowsValid(x: Text, w: World) { forall id | id in w.store.db :: ValidRow(x, w.players, w.store.db[id]) }

  lemma {:induction false} RowsStayValid(x: Text, from: World, es: seq<Event>, to: World)
    requires Inv(x, from) && Run(x, from, es, to) && RowsValid(x, from)
    ensures RowsValid(x, to)
    decreases |es|
  {
    if es != [] {
      EventKeepsInv(x, from, es[0]);
      EventKeepsRowsValid(x, from, es[0]);
      RowsStayValid(x, Next(x, from, es[0]), es[1..], to);
    }
  }

  lemma EventKeepsRowsValid(x: Text, w: World, e: Event)
    requires Inv(x, w) && Enabled(w, e) && RowsValid(x, w)
    ensures RowsValid(x, Next(x, w, e))
  {
    if e.Manage? {
      match e.op
      case AddOp(t, inserted) =>
        AddWrites(x, w.players, w.store, t, inserted);
        AcceptableIff(x, w.players, w.store.tunnels, t);
      case UpdateOp(t, ok) =>
        UpdateWrites(x, w.players, w.store, t, ok);
        AcceptableIff(x, w.players, w.store.tunnels, t);
      case DeleteOp(id, ok) => DeleteRemoves(x, w.store, id, ok);
    }
  }

  /** Additions come from the web interface, which proposes them with id 0. */
  predicate FromWeb(e: Event) {
    e.Manage? && e.op.AddOp? ==> e.op.tunnel.id == 0
  }

  lemma EventKeepsPorts(x: Text, w: World, e: Event)
    requires Inv(x, w) && Enabled(w, e) && FromWeb(e) && PortsExclusive(x, w.store.tunnels)
    ensures PortsExclusive(x, Next(x, w, e).store.tunnels)
  {
    if e.Manage? {
      match e.op
      case AddOp(t, inserted) =>
        if Add(x, w.players, w.store, t, inserted).ok {
          AddKeepsPortsIff(x, w.players, w.store, t, inserted);
        }
      case UpdateOp(t, ok) => UpdateKeepsPorts(x, w.players, w.store, t, ok);
      case DeleteOp(id, ok) => DeleteKeepsPorts(x, w.store, id, ok);
    }
  }

  /** Along every run no two tunnels of one receiver come to have the same port. */
  lemma {:induction false} PortsStayExclusive(x: Text, from: World, es: seq<Event>, to: World)
    requires Inv(x, from) && Run(x, from, es, to) && PortsExclusive(x, from.store.tunnels)
    requires forall k | 0 <= k < |es| :: FromWeb(es[k])
    ensures PortsExclusive(x, to.store.tunnels)
    decreases |es|
  {
    if es != [] {
      EventKeepsInv(x, from, es[0]);
      EventKeepsPorts(x, from, es[0]);
      PortsStayExclusive(x, Next(x, from, es[0]), es[1..], to);
    }
  }

  // ---------------------------------------------------------------- what a client runs

  /** Every entry of one view is in the other. */
  ghost predicate Within(v: View, s: View) {
    forall id | id in v :: id in s && s[id] == v[id]
  }

  lemma WithinShrinks(v: View, s: View, id: nat)
    requires Within(v, s)
    ensures Within(v - {id}, s)
    ensures s == v - {id} <==> s == v && id !in v
  {
    assert id !in v ==> v - {id} == v;
    assert id in v ==> id in s;
  }

  /** Since the last note that synchronised, no delete note has named a tunnel the client held. */
  predicate NoneDropped(v: View, notes: seq<Note>) {
    if notes == [] then true else
    var last, before := notes[|notes| - 1], notes[..|notes| - 1];
    last.Modify? && last.isDelete ==> NoneDropped(v, before) && last.tunnel.id !in Play(v, before)
  }

  lemma {:induction false} SyncPlayLast(s: View, v: View, notes: seq<Note>)
    requires notes != []
    ensures var last, before := notes[|notes| - 1], notes[..|notes| - 1];
      && Play(v, notes) == ApplyNote(Play(v, before), last)
      && SyncPlay(s, v, notes) == SyncNote(SyncPlay(s, v, before), Play(v, before), last)
    decreases |notes|
  {
    if |notes| > 1 {
      var rest := notes[1..];
      SyncPlayLast(SyncNote(s, v, notes[0]), ApplyNote(v, notes[0]), rest);
      assert notes[..|notes| - 1][1..] == rest[..|rest| - 1];
    }
  }

  /**
   * What a client's proxies were last synchronised with is its map exactly if no delete note dropped a
   * tunnel since; otherwise it is larger: deleted tunnels keep running.
   */
  lemma {:induction false} SyncedIffNoneDropped(v: View, notes: seq<Note>)
    ensures Within(Play(v, notes), SyncPlay(v, v, notes))
    ensures SyncPlay(v, v, notes) == Play(v, notes) <==> NoneDropped(v, notes)
  {
    if notes != [] {
      var last, before := notes[|notes| - 1], notes[..|notes| - 1];
      SyncedIffNoneDropped(v, before);
      SyncPlayLast(v, v, notes);
      if last.Modify? && last.isDelete {
        WithinShrinks(Play(v, before), SyncPlay(v, v, before), last.tunnel.id);
      }
    }
  }

  /** A tunnel is added for an online sender and then deleted: the client still runs it. */
  lemma DeletedTunnelStillRuns(t: PbTunnel)
    ensures var notes := [LoginAck([]), Modify(false, t), Modify(true, t)];
      Play(map[], notes) == map[] && SyncPlay(map[], map[], notes) == map[t.id := t]
  {
    var a, b, c: Note := LoginAck([]), Modify(false, t), Modify(true, t);
    var notes := [a, b, c];
    assert notes[1..] == [b, c] && [b, c][1..] == [c] && [c][1..] == [];
    var v: View := map[t.id := t];
    assert v - {t.id} == map[];
    assert Play(map[], notes) == Play(map[], [b, c]) == Play(v, [c]) == Play(map[], []);
    assert SyncPlay(map[], map[], notes) == SyncPlay(map[], map[], [b, c]) == SyncPlay(v, v, [c]);
    assert SyncPlay(v, v, [c]) == SyncPlay(v, map[], []) == v;
  }
}
