/**
 * The server's tunnel list, its database table and the views of the connected clients.
 * np_server/src/global/manager/tunnel.rs, np_server/src/peer/handle_request.rs, np_client/src/client.rs.
 */
module TunnelStore {
  import opened Bytes

  /** tunnel::Model */
  datatype Tunnel = Tunnel(
    id: nat, source: string, endpoint: string, enabled: nat, sender: nat, receiver: nat, description: string,
    tunnelType: nat, password: string, username: string, isCompressed: nat, customMapping: string,
    encryptionMethod: string)

  /** class_def::Tunnel, the form clients see. */
  datatype PbTunnel = PbTunnel(
    id: nat, source: string, endpoint: string, enabled: bool, sender: nat, receiver: nat, tunnelType: nat,
    username: string, password: string, isCompressed: bool, encryptionMethod: string,
    customMapping: map<string, string>)

  /** Text parsing the manager relies on. */
  datatype Text = Text(
    validSource: string -> bool, validEndpoint: string -> bool,
    portOf: string -> Option<nat>, mapping: string -> map<string, string>)

  function Pb(x: Text, t: Tunnel): (p: PbTunnel) {
    PbTunnel(t.id, t.source, t.endpoint, t.enabled == 1, t.sender, t.receiver, t.tunnelType, t.username,
             t.password, t.isCompressed == 1, t.encryptionMethod, x.mapping(t.customMapping))
  }

  // ---------------------------------------------------------------- the manager

  datatype Store = Store(tunnels: seq<Tunnel>, db: map<nat, Tunnel>)

  /** A notification broadcast_tunnel_info would send to a player. */
  datatype Note =
    | LoginAck(tunnels: seq<PbTunnel>)
    | Modify(isDelete: bool, tunnel: PbTunnel)

  datatype Mail = Mail(player: nat, note: Note)

  datatype Outcome = Outcome(store: Store, mails: seq<Mail>, ok: bool)

  /** port_conflict_detection: another tunnel of the receiver, not the one being edited, has the port. */
  predicate Conflicts(x: Text, t: Tunnel, receiver: nat, source: string, editing: nat) {
    t.receiver == receiver && t.id != editing && x.portOf(t.source) == x.portOf(source)
  }

  /** tunnel_detection */
  predicate Acceptable(x: Text, players: set<nat>, tunnels: seq<Tunnel>, t: Tunnel) {
    && x.validSource(t.source) && x.validEndpoint(t.endpoint)
    && (t.sender == 0 || t.sender in players) && (t.receiver == 0 || t.receiver in players)
    && forall k | 0 <= k < |tunnels| :: !Conflicts(x, tunnels[k], t.receiver, t.source, t.id)
  }

  /** Notify the sender and, if it is another player, the receiver. */
  function Both(x: Text, t: Tunnel, isDelete: bool): (ms: seq<Mail>) {
    [Mail(t.sender, Modify(isDelete, Pb(x, t)))]
    + if t.sender != t.receiver then [Mail(t.receiver, Modify(isDelete, Pb(x, t)))] else []
  }

  /** add_tunnel; `inserted` is the key the database assigns, if the insert succeeds. */
  function Add(x: Text, players: set<nat>, s: Store, t: Tunnel, inserted: Option<nat>): (r: Outcome) {
    if !Acceptable(x, players, s.tunnels, t) || inserted.None? then Outcome(s, [], false) else
    var t' := t.(id := inserted.value);
    Outcome(Store(s.tunnels + [t'], s.db[t'.id := t']), Both(x, t', false), true)
  }

  /** The first tunnel with an id, or the length of the list. */
  function Position(tunnels: seq<Tunnel>, id: nat): (k: nat)
    ensures k <= |tunnels|
    ensures k < |tunnels| ==> tunnels[k].id == id
    ensures forall j | 0 <= j < k :: tunnels[j].id != id
  {
    PositionFrom(tunnels, id, 0)
  }

  function PositionFrom(tunnels: seq<Tunnel>, id: nat, from: nat): (k: nat)
    requires from <= |tunnels|
    ensures from <= k <= |tunnels|
    ensures k < |tunnels| ==> tunnels[k].id == id
    ensures forall j | from <= j < k :: tunnels[j].id != id
    decreases |tunnels| - from
  {
    if from == |tunnels| || tunnels[from].id == id then from else PositionFrom(tunnels, id, from + 1)
  }

  /** delete_tunnel; `ok` is whether the database call succeeds. */
  function Delete(x: Text, s: Store, id: nat, ok: bool): (r: Outcome) {
    if !ok || id !in s.db then Outcome(s, [], false) else
    var db, k := s.db - {id}, Position(s.tunnels, id);
    if k == |s.tunnels| then Outcome(s.(db := db), [], true)
    else Outcome(Store(s.tunnels[..k] + s.tunnels[k + 1..], db), Both(x, s.tunnels[k], true), true)
  }

  /** The order in which update_tunnel broadcasts. */
  function UpdateMails(x: Text, was: Tunnel, t: Tunnel): (ms: seq<Mail>) {
    (if was.sender != t.sender then [Mail(was.sender, Modify(true, Pb(x, t)))] else [])
    + (if was.receiver != t.sender then [Mail(was.receiver, Modify(true, Pb(x, t)))] else [])
    + Both(x, t, false)
  }

  /** update_tunnel */
  function Update(x: Text, players: set<nat>, s: Store, t: Tunnel, ok: bool): (r: Outcome) {
    var k := Position(s.tunnels, t.id);
    if !Acceptable(x, players, s.tunnels, t) || k == |s.tunnels| || !ok || t.id !in s.db then Outcome(s, [], false)
    else Outcome(Store(s.tunnels[k := t], s.db[t.id := t]), UpdateMails(x, s.tunnels[k], t), true)
  }

  class TunnelManager {
    const text: Text
    var tunnels: seq<Tunnel>
    var db: map<nat, Tunnel>
    var mails: seq<Mail>

    constructor (text: Text)
      ensures this.text == text && Value() == Store([], map[]) && mails == []
    {
      this.text, tunnels, db, mails := text, [], map[], [];
    }

    function Value(): (s: Store)
      reads this
    {
      Store(tunnels, db)
    }

    method Broadcast(player: nat, t: Tunnel, isDelete: bool)
      modifies this`mails
      ensures mails == old(mails) + [Mail(player, Modify(isDelete, Pb(text, t)))]
    {
      mails := mails + [Mail(player, Modify(isDelete, Pb(text, t)))];
    }

    /** The sender and, if it is another player, the receiver are told. */
    method BroadcastBoth(t: Tunnel, isDelete: bool)
      modifies this`mails
      ensures mails == old(mails) + Both(text, t, isDelete)
    {
      Broadcast(t.sender, t, isDelete);
      if t.sender != t.receiver {
        Broadcast(t.receiver, t, isDelete);
      }
    }

    /** The broadcasts of update_tunnel, in its order. */
    method BroadcastUpdate(was: Tunnel, t: Tunnel)
      modifies this`mails
      ensures mails == old(mails) + UpdateMails(text, was, t)
    {
      if was.sender != t.sender {
        Broadcast(was.sender, t, true);
      }
      if was.receiver != t.sender {
        Broadcast(was.receiver, t, true);
      }
      BroadcastBoth(t, false);
    }

    /** port_conflict_detection walks the list. */
    method PortConflictDetection(receiver: nat, source: string, editing: nat) returns (found: bool)
      ensures found <==> exists k :: 0 <= k < |tunnels| && Conflicts(text, tunnels[k], receiver, source, editing)
    {
      found := false;
      for i := 0 to |tunnels|
        invariant !found && forall k | 0 <= k < i :: !Conflicts(text, tunnels[k], receiver, source, editing)
      {
        if Conflicts(text, tunnels[i], receiver, source, editing) {
          return true;
        }
      }
    }

    method TunnelDetection(players: set<nat>, t: Tunnel) returns (ok: bool)
      ensures ok <==> Acceptable(text, players, tunnels, t)
    {
      if !text.validSource(t.source) || !text.validEndpoint(t.endpoint)
        || (t.sender != 0 && t.sender !in players) || (t.receiver != 0 && t.receiver !in players) {
        return false;
      }
      var conflict := PortConflictDetection(t.receiver, t.source, t.id);
      ok := !conflict;
    }

    method AddTunnel(players: set<nat>, t: Tunnel, inserted: Option<nat>) returns (ok: bool)
      modifies this
      ensures var r := Add(text, players, old(Value()), t, inserted);
        Value() == r.store && mails == old(mails) + r.mails && ok == r.ok
    {
      ok := TunnelDetection(players, t);
      if !ok || inserted.None? {
        return false;
      }
      var t' := t.(id := inserted.value);
      db := db[t'.id := t'];
      BroadcastBoth(t', false);
      tunnels := tunnels + [t'];
    }

    method DeleteTunnel(id: nat, dbOk: bool) returns (ok: bool)
      modifies this
      ensures var r := Delete(text, old(Value()), id, dbOk);
        Value() == r.store && mails == old(mails) + r.mails && ok == r.ok
    {
      if !dbOk || id !in db {
        return false;
      }
      db := db - {id};
      var k := Position(tunnels, id);
      if k < |tunnels| {
        var t := tunnels[k];
        tunnels := tunnels[..k] + tunnels[k + 1..];
        BroadcastBoth(t, true);
      }
      ok := true;
    }

    method UpdateTunnel(players: set<nat>, t: Tunnel, dbOk: bool) returns (ok: bool)
      modifies this
      ensures var r := Update(text, players, old(Value()), t, dbOk);
        Value() == r.store && mails == old(mails) + r.mails && ok == r.ok
    {
      ok := TunnelDetection(players, t);
      var k := Position(tunnels, t.id);
      if !ok || k == |tunnels| || !dbOk || t.id !in db {
        return false;
      }
      db := db[t.id := t];
      BroadcastUpdate(tunnels[k], t);
      tunnels := tunnels[k := t];
    }
  }

  // ---------------------------------------------------------------- store and ports

  predicate UniqueIds(tunnels: seq<Tunnel>) {
    forall j, k | 0 <= j < k < |tunnels| :: tunnels[j].id != tunnels[k].id
  }

  predicate Listed(tunnels: seq<Tunnel>, id: nat) {
    exists k :: 0 <= k < |tunnels| && tunnels[k].id == id
  }

  /** The list holds exactly the rows of the table, each once. */
  predicate Mirrors(s: Store) {
    && UniqueIds(s.tunnels)
    && (forall k | 0 <= k < |s.tunnels| :: s.tunnels[k].id != 0 && s.tunnels[k].id in s.db && s.db[s.tunnels[k].id] == s.tunnels[k])
    && (forall id | id in s.db :: Listed(s.tunnels, id))
  }

  /** No two tunnels of one receiver have the same parsed port. */
  predicate PortsExclusive(x: Text, tunnels: seq<Tunnel>) {
    forall j, k | 0 <= j < k < |tunnels| && tunnels[j].receiver == tunnels[k].receiver ::
      x.portOf(tunnels[j].source) != x.portOf(tunnels[k].source)
  }

  /** The database assigns keys that are non-zero and not in use. */
  predicate FreshKey(s: Store, inserted: Option<nat>) {
    inserted.Some? ==> inserted.value != 0 && inserted.value !in s.db
  }

  /** A row with a new key joins both. */
  lemma PushMirrors(ts: seq<Tunnel>, db: map<nat, Tunnel>, t: Tunnel)
    requires Mirrors(Store(ts, db)) && t.id != 0 && t.id !in db
    ensures Mirrors(Store(ts + [t], db[t.id := t]))
  {
    var ts', db' := ts + [t], db[t.id := t];
    assert forall k | 0 <= k < |ts| :: ts'[k] == ts[k];
    assert ts'[|ts|] == t;
    forall id | id in db' ensures Listed(ts', id) {
      if id != t.id {
        var k :| 0 <= k < |ts| && ts[k].id == id;
        assert ts'[k].id == id;
      }
    }
  }

  lemma AddMirrors(x: Text, players: set<nat>, s: Store, t: Tunnel, inserted: Option<nat>)
    requires Mirrors(s) && FreshKey(s, inserted)
    ensures Mirrors(Add(x, players, s, t, inserted).store)
  {
    if inserted.Some? {
      PushMirrors(s.tunnels, s.db, t.(id := inserted.value));
    }
  }

  /** Taking out one tunnel keeps the others, in order. */
  lemma WithoutAt(ts: seq<Tunnel>, k: nat)
    requires k < |ts|
    ensures var rest := ts[..k] + ts[k + 1..];
      forall j | 0 <= j < |rest| :: rest[j] == ts[if j < k then j else j + 1]
  {
  }

  lemma WithoutUnique(ts: seq<Tunnel>, rest: seq<Tunnel>, k: nat)
    requires k < |ts| && UniqueIds(ts) && |rest| == |ts| - 1
    requires forall j | 0 <= j < |rest| :: rest[j] == ts[if j < k then j else j + 1]
    ensures UniqueIds(rest)
    ensures forall j | 0 <= j < |rest| :: rest[j].id != ts[k].id
  {
  }

  lemma WithoutLists(ts: seq<Tunnel>, rest: seq<Tunnel>, k: nat, id: nat)
    requires k < |ts| && ts[k].id != id && |rest| == |ts| - 1 && Listed(ts, id)
    requires forall j | 0 <= j < |rest| :: rest[j] == ts[if j < k then j else j + 1]
    ensures Listed(rest, id)
  {
    var i :| 0 <= i < |ts| && ts[i].id == id;
    assert rest[if i < k then i else i - 1].id == id;
  }

  lemma DeleteMirrors(x: Text, s: Store, id: nat, ok: bool)
    requires Mirrors(s)
    ensures Mirrors(Delete(x, s, id, ok).store)
  {
    if ok && id in s.db {
      var ts, k := s.tunnels, Position(s.tunnels, id);
      assert Listed(ts, id);
      var rest := ts[..k] + ts[k + 1..];
      WithoutAt(ts, k);
      WithoutUnique(ts, rest, k);
      forall other | other in s.db - {id} ensures Listed(rest, other) {
        WithoutLists(ts, rest, k, other);
      }
    }
  }

  lemma UpdateMirrors(x: Text, players: set<nat>, s: Store, t: Tunnel, ok: bool)
    requires Mirrors(s)
    ensures Mirrors(Update(x, players, s, t, ok).store)
  {
    var s' := Update(x, players, s, t, ok).store;
    if s' != s {
      forall other | other in s'.db ensures Listed(s'.tunnels, other) {
        var i :| 0 <= i < |s.tunnels| && s.tunnels[i].id == other;
        assert s'.tunnels[i].id == other;
      }
    }
  }

  /**
   * An added tunnel keeps the ports exclusive exactly if the id it was proposed with did not excuse a
   * clash: the check skips the tunnel that already bears that id.
   */
  lemma AddKeepsPortsIff(x: Text, players: set<nat>, s: Store, t: Tunnel, inserted: Option<nat>)
    requires PortsExclusive(x, s.tunnels) && Add(x, players, s, t, inserted).ok
    ensures PortsExclusive(x, Add(x, players, s, t, inserted).store.tunnels)
      <==> forall k | 0 <= k < |s.tunnels| && s.tunnels[k].id == t.id && s.tunnels[k].receiver == t.receiver ::
             x.portOf(s.tunnels[k].source) != x.portOf(t.source)
  {
    var ts := Add(x, players, s, t, inserted).store.tunnels;
    var n := |s.tunnels|;
    assert ts[n] == t.(id := inserted.value);
    assert forall k | 0 <= k < n :: ts[k] == s.tunnels[k];
  }

  lemma DeleteKeepsPorts(x: Text, s: Store, id: nat, ok: bool)
    requires PortsExclusive(x, s.tunnels)
    ensures PortsExclusive(x, Delete(x, s, id, ok).store.tunnels)
  {
    var ts, k := Delete(x, s, id, ok).store.tunnels, Position(s.tunnels, id);
    if ts != s.tunnels {
      assert forall j | 0 <= j < |ts| :: ts[j] == s.tunnels[if j < k then j else j + 1];
    }
  }

  lemma UpdateKeepsPorts(x: Text, players: set<nat>, s: Store, t: Tunnel, ok: bool)
    requires PortsExclusive(x, s.tunnels) && UniqueIds(s.tunnels)
    ensures PortsExclusive(x, Update(x, players, s, t, ok).store.tunnels)
  {
  }

  // ---------------------------------------------------------------- what the operations write

  /** Valid addresses, and players that exist. */
  predicate ValidRow(x: Text, players: set<nat>, t: Tunnel) {
    && x.validSource(t.source) && x.validEndpoint(t.endpoint)
    && (t.sender != 0 ==> t.sender in players) && (t.receiver != 0 ==> t.receiver in players)
  }

  /** A tunnel is acceptable exactly if it is valid and no other tunnel of its receiver has its port. */
  lemma AcceptableIff(x: Text, players: set<nat>, ts: seq<Tunnel>, t: Tunnel)
    ensures Acceptable(x, players, ts, t) <==>
      && ValidRow(x, players, t)
      && !exists k :: 0 <= k < |ts| && ts[k].id != t.id && ts[k].receiver == t.receiver
                      && x.portOf(ts[k].source) == x.portOf(t.source)
  {
    if Acceptable(x, players, ts, t) {
      assert forall k | 0 <= k < |ts| :: !Conflicts(x, ts[k], t.receiver, t.source, t.id);
    }
  }

  /** The list differs at most in the tunnel with this id, and the table in its row. */
  ghost predicate OthersStay(s: Store, s': Store, id: nat) {
    && (forall other | other != id :: other in s'.db <==> other in s.db)
    && (forall other | other != id && other in s.db :: s'.db[other] == s.db[other])
    && (forall t: Tunnel | t.id != id :: t in s'.tunnels <==> t in s.tunnels)
  }

  /** An addition succeeds exactly if the tunnel is acceptable and the insert succeeds, and then writes it under its new key. */
  lemma AddWrites(x: Text, players: set<nat>, s: Store, t: Tunnel, inserted: Option<nat>)
    requires Mirrors(s) && FreshKey(s, inserted)
    ensures var r := Add(x, players, s, t, inserted);
      if Acceptable(x, players, s.tunnels, t) && inserted.Some? then
        var id := inserted.value;
        && r.ok && OthersStay(s, r.store, id)
        && id in r.store.db && r.store.db[id] == t.(id := id) && t.(id := id) in r.store.tunnels
      else r == Outcome(s, [], false)
  {
    var r := Add(x, players, s, t, inserted);
    if r.ok {
      assert r.store.tunnels[|s.tunnels|] == t.(id := inserted.value);
    }
  }

  /** A deletion succeeds exactly if the row is there and the call succeeds, and then row and entry are gone. */
  lemma DeleteRemoves(x: Text, s: Store, id: nat, ok: bool)
    requires Mirrors(s)
    ensures var r := Delete(x, s, id, ok);
      if ok && id in s.db then
        r.ok && OthersStay(s, r.store, id) && id !in r.store.db && !Listed(r.store.tunnels, id)
      else r == Outcome(s, [], false)
  {
    if ok && id in s.db {
      assert Listed(s.tunnels, id);
      RemovedAt(s.tunnels, Position(s.tunnels, id));
    }
  }

  lemma RemovedAt(ts: seq<Tunnel>, k: nat)
    requires UniqueIds(ts) && k < |ts|
    ensures var rest := ts[..k] + ts[k + 1..];
      !Listed(rest, ts[k].id) && forall t: Tunnel | t.id != ts[k].id :: t in rest <==> t in ts
  {
    var rest := ts[..k] + ts[k + 1..];
    WithoutAt(ts, k);
    WithoutUnique(ts, rest, k);
    forall t: Tunnel | t.id != ts[k].id && t in ts ensures t in rest {
      var i :| 0 <= i < |ts| && ts[i] == t;
      assert rest[if i < k then i else i - 1] == t;
    }
  }

  /** An update succeeds exactly if the tunnel is acceptable and known and the call succeeds, and then row and entry are it. */
  lemma UpdateWrites(x: Text, players: set<nat>, s: Store, t: Tunnel, ok: bool)
    requires Mirrors(s)
    ensures var r := Update(x, players, s, t, ok);
      if Acceptable(x, players, s.tunnels, t) && t.id in s.db && ok then
        && r.ok && OthersStay(s, r.store, t.id)
        && t.id in r.store.db && r.store.db[t.id] == t && t in r.store.tunnels
        && |r.store.tunnels| == |s.tunnels| && forall k | 0 <= k < |s.tunnels| :: r.store.tunnels[k].id == s.tunnels[k].id
      else r == Outcome(s, [], false)
  {
    if Acceptable(x, players, s.tunnels, t) && t.id in s.db && ok {
      assert Listed(s.tunnels, t.id);
      ReplacedAt(s.tunnels, Position(s.tunnels, t.id), t);
    }
  }

  lemma ReplacedAt(ts: seq<Tunnel>, k: nat, t: Tunnel)
    requires UniqueIds(ts) && k < |ts| && ts[k].id == t.id
    ensures var ts' := ts[k := t];
      t in ts' && forall other: Tunnel | other.id != t.id :: other in ts' <==> other in ts
  {
    var ts' := ts[k := t];
    assert ts'[k] == t;
    forall other: Tunnel | other.id != t.id && other in ts ensures other in ts' {
      var i :| 0 <= i < |ts| && ts[i] == other;
      assert ts'[i] == other;
    }
  }
}
