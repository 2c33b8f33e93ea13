/**
 * Operations on the tunnel list that overlap: the check of an addition, and the position an update has found,
 * may be out of date by the time the list is written.
 * np_server/src/global/manager/tunnel.rs.
 */
module Overlaps {
  import opened Bytes
  import opened TunnelStore

  // ---------------------------------------------------------------- an addition checked against an older list

  /** Two tunnels of one receiver have the same parsed port. */
  predicate Clash(x: Text, s: Tunnel, t: Tunnel) {
    s.receiver == t.receiver && x.portOf(s.source) == x.portOf(t.source)
  }

  /** Pushing a tunnel keeps the ports exclusive exactly if it clashes with none that is there. */
  lemma PushKeepsPortsIff(x: Text, ts: seq<Tunnel>, t: Tunnel)
    requires PortsExclusive(x, ts)
    ensures PortsExclusive(x, ts + [t]) <==> forall k | 0 <= k < |ts| :: !Clash(x, ts[k], t)
  {
    var ts', n := ts + [t], |ts|;
    assert ts'[n] == t;
    assert forall k | 0 <= k < n :: ts'[k] == ts[k];
  }

  /**
   * An addition proposed with id 0 that was checked against `seen` and is pushed onto `now`: the ports stay
   * exclusive exactly if it clashes with no tunnel that has come, or has been edited, since the check.
   */
  lemma StaleAddKeepsPortsIff(x: Text, players: set<nat>, seen: seq<Tunnel>, now: seq<Tunnel>, t: Tunnel, id: nat)
    requires Acceptable(x, players, seen, t) && t.id == 0 && (forall k | 0 <= k < |seen| :: seen[k].id != 0)
    requires PortsExclusive(x, now)
    ensures PortsExclusive(x, now + [t.(id := id)])
      <==> forall k | 0 <= k < |now| && now[k] !in seen :: !Clash(x, now[k], t)
  {
    PushKeepsPortsIff(x, now, t.(id := id));
    forall k | 0 <= k < |now| && now[k] in seen ensures !Clash(x, now[k], t) {
      var j :| 0 <= j < |seen| && seen[j] == now[k];
      assert !Conflicts(x, seen[j], t.receiver, t.source, t.id);
    }
  }

  /** Two additions for one receiver and port, both checked before either is pushed, both succeed. */
  lemma OverlappingAdditionsClash(x: Text, players: set<nat>, ts: seq<Tunnel>, t: Tunnel, id: nat, other: nat)
    requires Acceptable(x, players, ts, t) && t.id == 0 && (forall k | 0 <= k < |ts| :: ts[k].id != 0)
    requires PortsExclusive(x, ts)
    ensures PortsExclusive(x, ts + [t.(id := id)])
    ensures !PortsExclusive(x, ts + [t.(id := id)] + [t.(id := other)])
  {
    StaleAddKeepsPortsIff(x, players, ts, ts, t, id);
    var now := ts + [t.(id := id)];
    assert Clash(x, now[|ts|], t.(id := other));
    PushKeepsPortsIff(x, now, t.(id := other));
  }

  // ---------------------------------------------------------------- an update at an older position

  /** update_tunnel writes at the position it has found before; the row, if it is still there, is updated too. */
  function WriteAt(s: Store, k: nat, t: Tunnel): (s': Store)
    requires k < |s.tunnels|
  {
    Store(s.tunnels[k := t], if t.id in s.db then s.db[t.id := t] else s.db)
  }

  lemma WrittenElsewhere(s: Store, k: nat, t: Tunnel)
    requires Mirrors(s) && k < |s.tunnels| && s.tunnels[k].id != t.id
    ensures !Mirrors(WriteAt(s, k, t))
  {
    var s' := WriteAt(s, k, t);
    assert s'.tunnels[k].id == t.id;
    if t.id in s.db {
      assert Listed(s.tunnels, t.id);
      var j :| 0 <= j < |s.tunnels| && s.tunnels[j].id == t.id;
      assert s'.tunnels[j].id == s'.tunnels[k].id && j != k;
    }
  }

  lemma WrittenInPlace(s: Store, k: nat, t: Tunnel)
    requires Mirrors(s) && k < |s.tunnels| && s.tunnels[k].id == t.id
    ensures Mirrors(WriteAt(s, k, t))
  {
    var s' := WriteAt(s, k, t);
    forall id | id in s'.db ensures Listed(s'.tunnels, id) {
      assert Listed(s.tunnels, id);
      var i :| 0 <= i < |s.tunnels| && s.tunnels[i].id == id;
      assert s'.tunnels[i].id == id;
    }
  }

  /** Such a write keeps list and table in agreement exactly if the position still holds the tunnel it was found for. */
  lemma StaleUpdateMirrorsIff(s: Store, k: nat, t: Tunnel)
    requires Mirrors(s) && k < |s.tunnels|
    ensures Mirrors(WriteAt(s, k, t)) <==> s.tunnels[k].id == t.id
  {
    if s.tunnels[k].id == t.id {
      WrittenInPlace(s, k, t);
    } else {
      WrittenElsewhere(s, k, t);
    }
  }

  /** A deletion in between leaves the position right exactly if the deleted tunnel stood behind it. */
  lemma DeletionShiftsIff(ts: seq<Tunnel>, k: nat, j: nat)
    requires UniqueIds(ts) && k < |ts| && j < |ts|
    ensures var rest := ts[..j] + ts[j + 1..];
      (k < |rest| && rest[k].id == ts[k].id) <==> k < j
  {
    WithoutAt(ts, j);
  }

  /**
   * An update of the tunnel at k and a deletion of the one at j that comes between its search and its write:
   * list and table agree afterwards exactly if k < j.  Otherwise the write hits another tunnel, or is out of
   * range if k is the last position.
   */
  lemma UpdateSurvivesDeletionIff(x: Text, s: Store, k: nat, j: nat, t: Tunnel)
    requires Mirrors(s) && k < |s.tunnels| && j < |s.tunnels| && s.tunnels[k].id == t.id
    ensures var s' := Delete(x, s, s.tunnels[j].id, true).store;
      && |s'.tunnels| == |s.tunnels| - 1
      && (k < |s'.tunnels| ==> (Mirrors(WriteAt(s', k, t)) <==> k < j))
      && (k == |s'.tunnels| ==> j <= k)
  {
    var id := s.tunnels[j].id;
    FoundAt(s.tunnels, j);
    var s' := Delete(x, s, id, true).store;
    DeleteMirrors(x, s, id, true);
    DeletionShiftsIff(s.tunnels, k, j);
    if k < |s'.tunnels| {
      StaleUpdateMirrorsIff(s', k, t);
    }
  }

  lemma FoundAt(ts: seq<Tunnel>, j: nat)
    requires UniqueIds(ts) && j < |ts|
    ensures Position(ts, ts[j].id) == j
  {
  }
}
