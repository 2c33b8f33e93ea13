/** Which outlets and inlets a client runs, given the notifications it has handled: np_client/src/client.rs. */
module ClientProxies {
  import opened TunnelStore
  import opened Replication
  import opened Reconcile

  /** A tunnel as a client's sync_tunnels reads it; `pairs` is the order in which its mapping happens to be listed. */
  function ClientAsk(t: PbTunnel, pairs: seq<(string, string)>): (a: Ask) {
    var enabled, compressed := if t.enabled then 1 else 0, if t.isCompressed then 1 else 0;
    Ask(t.id, t.enabled, t.sender, t.receiver, t.tunnelType, OutletDesc(t.id, t.sender, enabled),
        InletDesc(t.id, t.source, t.endpoint, t.sender, t.receiver, t.tunnelType, t.username, t.password, enabled,
                  compressed, t.encryptionMethod, AsListed(pairs)))
  }

  /**
   * A client reads in a tunnel what the server wrote: it asks for the same proxies, under descriptions with the
   * same fields.
   */
  lemma ClientReadsTheSame(x: Text, t: Tunnel, pairs: seq<(string, string)>)
    ensures var a, b := ClientAsk(Pb(x, t), pairs), AskOf(t);
      && a.id == b.id && a.enabled == b.enabled && a.sender == b.sender && a.receiver == b.receiver && a.tunnelType == b.tunnelType
      && a.outlet == b.outlet.(enabled := if t.enabled == 1 then 1 else 0)
      && a.inlet == b.inlet.(enabled := if t.enabled == 1 then 1 else 0,
                             isCompressed := if t.isCompressed == 1 then 1 else 0, customMapping := AsListed(pairs))
    ensures Pb(x, t).customMapping == x.mapping(t.customMapping)
  {
  }

  /** Its descriptions, too, tell apart whatever differs in a listed field. */
  lemma ClientDescriptionsAgreeIff(s: PbTunnel, t: PbTunnel, p: seq<(string, string)>, q: seq<(string, string)>)
    ensures ClientAsk(s, p).inlet == ClientAsk(t, q).inlet <==> s.(customMapping := map[]) == t.(customMapping := map[]) && p == q
    ensures ClientAsk(s, p).outlet == ClientAsk(t, q).outlet <==> s.id == t.id && s.sender == t.sender && s.enabled == t.enabled
  {
  }

  predicate SomeAsk(a: Ask, t: PbTunnel) { a.inlet.customMapping.AsListed? && a == ClientAsk(t, a.inlet.customMapping.pairs) }

  predicate Asked(asks: seq<Ask>, id: nat) { exists k :: 0 <= k < |asks| && asks[k].id == id }

  /** The list is the tunnels of the map, each once, in some order. */
  ghost predicate Enumerates(asks: seq<Ask>, v: View) {
    && UniqueAsks(asks)
    && (forall k | 0 <= k < |asks| :: asks[k].id in v && SomeAsk(asks[k], v[asks[k].id]))
    && (forall id | id in v :: Asked(asks, id))
  }

  /** A client: its map, the map its proxies were last synchronised with, and the proxies. */
  datatype State = State(view: View, synced: View, outlets: Outlets, inlets: Inlets)

  predicate IsDelete(n: Note) { n.Modify? && n.isDelete }

  /** Handling a notification. */
  ghost predicate Handles(me: nat, s: State, n: Note, s': State) {
    && s'.view == ApplyNote(s.view, n) && s'.synced == SyncNote(s.synced, s.view, n)
    && if IsDelete(n) then s'.outlets == s.outlets && s'.inlets == s.inlets
       else exists asks: seq<Ask>, starts: Ask -> bool :: Synchronises(me, asks, starts, s, s')
  }

  ghost predicate Synchronises(me: nat, asks: seq<Ask>, starts: Ask -> bool, s: State, s': State) {
    && Enumerates(asks, s'.view)
    && OutletsSynced(me, asks, s.outlets, s'.outlets)
    && InletsSynced(me, asks, starts, s.inlets, s'.inlets)
  }

  predicate SendsHere(me: nat, t: PbTunnel) { t.enabled && t.sender == me }

  predicate ReceivesHere(me: nat, t: PbTunnel) { t.enabled && t.receiver == me }

  /** The outlets are exactly those of a view; every inlet is one of its. */
  ghost predicate Runs(me: nat, v: View, outlets: Outlets, inlets: Inlets) {
    && (forall id :: id in outlets <==> id in v && SendsHere(me, v[id]))
    && (forall id | id in inlets :: id in v && ReceivesHere(me, v[id]))
  }

  lemma OutletsRun(me: nat, asks: seq<Ask>, v: View, o: Outlets, o': Outlets)
    requires Enumerates(asks, v) && OutletsSynced(me, asks, o, o')
    ensures forall id :: id in o' <==> id in v && SendsHere(me, v[id])
  {
    OutletsMatch(me, asks, o, o');
    forall id | id in v && SendsHere(me, v[id]) ensures id in o' {
      assert Asked(asks, id);
      var k :| 0 <= k < |asks| && asks[k].id == id;
      assert SomeAsk(asks[k], v[id]);
      assert WantsOutlet(me, asks[k]);
    }
    forall id | id in o' ensures id in v && SendsHere(me, v[id]) {
      var k :| 0 <= k < |asks| && asks[k].id == id && WantsOutlet(me, asks[k]);
      assert SomeAsk(asks[k], v[id]);
    }
  }

  lemma InletsRun(me: nat, asks: seq<Ask>, starts: Ask -> bool, v: View, i: Inlets, i': Inlets)
    requires Enumerates(asks, v) && InletsSynced(me, asks, starts, i, i')
    ensures forall id | id in i' :: id in v && ReceivesHere(me, v[id])
  {
    InletsMatch(me, asks, starts, i, i');
    forall id | id in i' ensures id in v && ReceivesHere(me, v[id]) {
      var k :| 0 <= k < |asks| && asks[k].id == id && WantsInlet(me, asks[k]);
      assert SomeAsk(asks[k], v[id]);
    }
  }

  /** Each notification leaves the proxies as the map they were last synchronised with asks. */
  lemma HandlingKeepsRuns(me: nat, s: State, n: Note, s': State)
    requires Runs(me, s.synced, s.outlets, s.inlets) && Handles(me, s, n, s')
    ensures Runs(me, s'.synced, s'.outlets, s'.inlets)
  {
    if !IsDelete(n) {
      var asks: seq<Ask>, starts: Ask -> bool :| Synchronises(me, asks, starts, s, s');
      OutletsRun(me, asks, s'.view, s.outlets, s'.outlets);
      InletsRun(me, asks, starts, s'.view, s.inlets, s'.inlets);
    }
  }

  /** A client from its connection on. */
  ghost predicate ClientRun(me: nat, ss: seq<State>, notes: seq<Note>) {
    && |ss| == |notes| + 1 && ss[0] == State(map[], map[], map[], map[])
    && forall k | 0 <= k < |notes| :: Handles(me, ss[k], notes[k], ss[k + 1])
  }

  lemma {:induction false} RunFollows(me: nat, ss: seq<State>, notes: seq<Note>, n: nat)
    requires ClientRun(me, ss, notes) && n < |ss|
    ensures ss[n].view == Play(map[], notes[..n]) && ss[n].synced == SyncPlay(map[], map[], notes[..n])
    ensures Runs(me, ss[n].synced, ss[n].outlets, ss[n].inlets)
  {
    if n > 0 {
      RunFollows(me, ss, notes, n - 1);
      HandlingKeepsRuns(me, ss[n - 1], notes[n - 1], ss[n]);
      assert notes[..n][..n - 1] == notes[..n - 1];
      SyncPlayLast(map[], map[], notes[..n]);
    }
  }

  /** Tunnels that delete notes have taken from the client's map since it last synchronised. */
  function Dropped(v: View, synced: View): (d: View) { synced - v.Keys }

  /**
   * After any notifications a client runs exactly the outlets of its own map and of the tunnels dropped since
   * the last synchronisation; so it runs exactly those of its map if and only if no dropped tunnel has it as
   * enabled sender.  The same tunnels, and no others, may have inlets.
   */
  lemma ClientRunsIff(me: nat, ss: seq<State>, notes: seq<Note>, n: nat)
    requires ClientRun(me, ss, notes) && n < |ss|
    ensures var s := ss[n]; var d := Dropped(s.view, s.synced);
      && s.view == Play(map[], notes[..n])
      && (forall id :: id in s.outlets <==>
            (id in s.view && SendsHere(me, s.view[id])) || (id in d && SendsHere(me, d[id])))
      && (forall id | id in s.inlets ::
            (id in s.view && ReceivesHere(me, s.view[id])) || (id in d && ReceivesHere(me, d[id])))
      && ((forall id :: id in s.outlets <==> id in s.view && SendsHere(me, s.view[id]))
          <==> (forall id | id in d :: !SendsHere(me, d[id])))
      && (d == map[] <==> NoneDropped(map[], notes[..n]))
  {
    RunFollows(me, ss, notes, n);
    SyncedIffNoneDropped(map[], notes[..n]);
    DroppedIsTheRest(ss[n].view, ss[n].synced);
  }

  lemma DroppedIsTheRest(v: View, synced: View)
    requires Within(v, synced)
    ensures forall id :: id in synced <==> id in v || id in Dropped(v, synced)
    ensures forall id | id in v :: id !in Dropped(v, synced) && synced[id] == v[id]
    ensures Dropped(v, synced) == map[] <==> synced == v
  {
    if Dropped(v, synced) == map[] {
      forall id | id in synced ensures id in v {
        assert id !in Dropped(v, synced);
      }
    }
  }

  // ---------------------------------------------------------------- the lists a client synchronises with

  /** The list of a login message whose ids are unique enumerates the map made from it. */
  lemma LoginEnumerates(ps: seq<PbTunnel>, asks: seq<Ask>)
    requires |asks| == |ps| && (forall k | 0 <= k < |ps| :: SomeAsk(asks[k], ps[k]))
    requires forall j, k | 0 <= j < k < |ps| :: ps[j].id != ps[k].id
    ensures Enumerates(asks, FromList(ps))
  {
    FromListHas(ps);
    forall id | id in FromList(ps) ensures Asked(asks, id) {
      var k :| 0 <= k < |ps| && ps[k].id == id;
      assert SomeAsk(asks[k], ps[k]);
    }
    forall j, k | 0 <= j < k < |asks| ensures asks[j].id != asks[k].id {
      assert SomeAsk(asks[j], ps[j]) && SomeAsk(asks[k], ps[k]);
    }
  }

  lemma {:induction false} FromListHas(ps: seq<PbTunnel>)
    requires forall j, k | 0 <= j < k < |ps| :: ps[j].id != ps[k].id
    ensures forall k | 0 <= k < |ps| :: ps[k].id in FromList(ps) && FromList(ps)[ps[k].id] == ps[k]
    ensures forall id | id in FromList(ps) :: exists k :: 0 <= k < |ps| && ps[k].id == id
  {
    if ps != [] {
      var before := ps[..|ps| - 1];
      FromListHas(before);
      forall id | id in FromList(ps) ensures exists k :: 0 <= k < |ps| && ps[k].id == id {
        if id in FromList(before) {
          var k :| 0 <= k < |before| && before[k].id == id;
          assert ps[k].id == id;
        } else {
          assert ps[|ps| - 1].id == id;
        }
      }
    }
  }

  /** A tunnel that was added for a client and then deleted: its outlet is still there, its map is empty. */
  lemma DeletedOutletStillRuns(me: nat, t: PbTunnel, ss: seq<State>)
    requires SendsHere(me, t) && ClientRun(me, ss, AddedThenDeleted(t))
    ensures ss[3].view == map[] && t.id in ss[3].outlets
  {
    RunFollows(me, ss, AddedThenDeleted(t), 3);
    assert AddedThenDeleted(t)[..3] == AddedThenDeleted(t);
    DeletedTunnelStillRuns(t);
  }

  function AddedThenDeleted(t: PbTunnel): (notes: seq<Note>) { [LoginAck([]), Modify(false, t), Modify(true, t)] }

  /** The states of that run, given what two synchronisations made of the proxies. */
  function StatesOf(t: PbTunnel, o1: Outlets, i1: Inlets, o2: Outlets, i2: Inlets): (ss: seq<State>) {
    [State(map[], map[], map[], map[]), State(map[], map[], o1, i1),
     State(map[t.id := t], map[t.id := t], o2, i2), State(map[], map[t.id := t], o2, i2)]
  }

  lemma LoginHandled(me: nat, starts: Ask -> bool, o: Outlets, i: Inlets)
    requires OutletsSynced(me, [], map[], o) && InletsSynced(me, [], starts, map[], i)
    ensures Handles(me, State(map[], map[], map[], map[]), LoginAck([]), State(map[], map[], o, i))
  {
    var s, s' := State(map[], map[], map[], map[]), State(map[], map[], o, i);
    assert Enumerates([], s'.view);
    assert Synchronises(me, [], starts, s, s');
  }

  lemma AdditionHandled(me: nat, starts: Ask -> bool, t: PbTunnel, o1: Outlets, i1: Inlets, o2: Outlets, i2: Inlets)
    requires OutletsSynced(me, [ClientAsk(t, [])], o1, o2) && InletsSynced(me, [ClientAsk(t, [])], starts, i1, i2)
    ensures Handles(me, State(map[], map[], o1, i1), Modify(false, t), State(map[t.id := t], map[t.id := t], o2, i2))
  {
    var v: View, asks := map[t.id := t], [ClientAsk(t, [])];
    var s, s' := State(map[], map[], o1, i1), State(v, v, o2, i2);
    assert asks[0].id == t.id && SomeAsk(asks[0], v[t.id]);
    assert Enumerates(asks, v);
    assert Synchronises(me, asks, starts, s, s');
  }

  lemma DeletionHandled(me: nat, t: PbTunnel, o: Outlets, i: Inlets)
    ensures Handles(me, State(map[t.id := t], map[t.id := t], o, i), Modify(true, t), State(map[], map[t.id := t], o, i))
  {
    var v: View := map[t.id := t];
    assert v - {t.id} == map[];
  }

  lemma ThreeSteps(me: nat, ss: seq<State>, notes: seq<Note>)
    requires |ss| == 4 && |notes| == 3 && ss[0] == State(map[], map[], map[], map[])
    requires Handles(me, ss[0], notes[0], ss[1]) && Handles(me, ss[1], notes[1], ss[2]) && Handles(me, ss[2], notes[2], ss[3])
    ensures ClientRun(me, ss, notes)
  {
    forall k | 0 <= k < |notes| ensures Handles(me, ss[k], notes[k], ss[k + 1]) {
      assert k == 0 || k == 1 || k == 2;
    }
  }

  lemma RunOfTwoSyncs(me: nat, starts: Ask -> bool, t: PbTunnel, o1: Outlets, i1: Inlets, o2: Outlets, i2: Inlets)
    requires OutletsSynced(me, [], map[], o1) && InletsSynced(me, [], starts, map[], i1)
    requires OutletsSynced(me, [ClientAsk(t, [])], o1, o2) && InletsSynced(me, [ClientAsk(t, [])], starts, i1, i2)
    ensures ClientRun(me, StatesOf(t, o1, i1, o2, i2), AddedThenDeleted(t))
  {
    LoginHandled(me, starts, o1, i1);
    AdditionHandled(me, starts, t, o1, i1, o2, i2);
    DeletionHandled(me, t, o2, i2);
    ThreeSteps(me, StatesOf(t, o1, i1, o2, i2), AddedThenDeleted(t));
  }

  /** Such a run exists: here it is, on a proxy manager of its own, and the outlet is in service at its end. */
  method RunDeletedOutlet(me: nat, t: PbTunnel, starts: Ask -> bool) returns (m: ProxyManager, ss: seq<State>)
    requires SendsHere(me, t)
    ensures ClientRun(me, ss, AddedThenDeleted(t))
    ensures m.outlets == ss[3].outlets && ss[3].view == map[]
    ensures t.id in m.outlets && m.outlets[t.id].running
  {
    m := new ProxyManager(me);
    m.SyncTunnels([], starts);
    var o, i := m.outlets, m.inlets;
    m.SyncTunnels([ClientAsk(t, [])], starts);
    ss := StatesOf(t, o, i, m.outlets, m.inlets);
    RunOfTwoSyncs(me, starts, t, o, i, m.outlets, m.inlets);
    DeletedOutletStillRuns(me, t, ss);
  }

  // ---------------------------------------------------------------- the whole system

  datatype Proxies = Proxies(outlets: Outlets, inlets: Inlets)

  /** The server, its table and the connections, and what each online client runs. */
  datatype Site = Site(world: World, proxies: map<nat, Proxies>)

  function ClientOf(v: Site, p: nat): (s: State)
    requires p in v.world.links && p in v.proxies
  {
    State(v.world.links[p].view, v.world.links[p].synced, v.proxies[p].outlets, v.proxies[p].inlets)
  }

  /** A client starts with no proxies and handles what is delivered to it. */
  ghost predicate SiteStep(x: Text, v: Site, e: Event, v': Site) {
    && Enabled(v.world, e) && v'.world == Next(x, v.world, e)
    && match e
       case Login(p) => v'.proxies == v.proxies[p := Proxies(map[], map[])]
       case Logout(p) => v'.proxies == v.proxies - {p}
       case Deliver(p) =>
         && p in v.proxies && p in v'.proxies && v'.proxies == v.proxies[p := v'.proxies[p]]
         && Handles(p, ClientOf(v, p), v.world.links[p].queue[0], ClientOf(v', p))
       case _ => v'.proxies == v.proxies
  }

  ghost predicate InService(v: Site, p: nat) {
    p in v.world.links && p in v.proxies
    && Within(v.world.links[p].view, v.world.links[p].synced)
    && Runs(p, v.world.links[p].synced, v.proxies[p].outlets, v.proxies[p].inlets)
  }

  ghost predicate SiteInv(x: Text, v: Site) {
    Replication.Inv(x, v.world) && forall p | p in v.world.links :: InService(v, p)
  }

  /** A note keeps the map within what the proxies were last synchronised with. */
  lemma NoteKeepsWithin(s: View, v: View, n: Note)
    requires Within(v, s)
    ensures Within(ApplyNote(v, n), SyncNote(s, v, n))
  {
  }

  lemma SiteStepKeepsInv(x: Text, v: Site, e: Event, v': Site)
    requires SiteInv(x, v) && SiteStep(x, v, e, v')
    ensures SiteInv(x, v')
  {
    EventKeepsInv(x, v.world, e);
    forall p | p in v'.world.links ensures InService(v', p) {
      if e == Deliver(p) {
        var l := v.world.links[p];
        NoteKeepsWithin(l.synced, l.view, l.queue[0]);
        HandlingKeepsRuns(p, ClientOf(v, p), l.queue[0], ClientOf(v', p));
      } else if e == Login(p) {
      } else {
        assert InService(v, p);
      }
    }
  }

  ghost predicate SiteRun(x: Text, vs: seq<Site>, es: seq<Event>) {
    && |vs| == |es| + 1 && Loaded(vs[0].world) && vs[0].proxies == map[]
    && forall k | 0 <= k < |es| :: SiteStep(x, vs[k], es[k], vs[k + 1])
  }

  lemma {:induction false} SiteRunKeepsInv(x: Text, vs: seq<Site>, es: seq<Event>, n: nat)
    requires SiteRun(x, vs, es) && n < |vs|
    ensures SiteInv(x, vs[n])
  {
    if n > 0 {
      SiteRunKeepsInv(x, vs, es, n - 1);
      SiteStepKeepsInv(x, vs[n - 1], es[n - 1], vs[n]);
    }
  }

  /**
   * End to end, along every run of the server and all its clients: a client that has read all its notifications
   * runs exactly the outlets of the table's rows that have it as enabled sender, and of the tunnels that delete
   * notifications dropped since it last synchronised.
   */
  lemma ClientsFollowTheTable(x: Text, vs: seq<Site>, es: seq<Event>, n: nat, p: nat)
    requires SiteRun(x, vs, es) && n < |vs| && p in vs[n].world.links && vs[n].world.links[p].queue == []
    ensures p in vs[n].proxies
    ensures var db, l := vs[n].world.store.db, vs[n].world.links[p];
      var d := Dropped(l.view, l.synced);
      && (forall id :: id in vs[n].proxies[p].outlets <==>
            (id in db && db[id].enabled == 1 && db[id].sender == p) || (id in d && SendsHere(p, d[id])))
      && (forall id | id in vs[n].proxies[p].inlets ::
            (id in db && db[id].enabled == 1 && db[id].receiver == p) || (id in d && ReceivesHere(p, d[id])))
  {
    SiteRunKeepsInv(x, vs, es, n);
    var v, w := vs[n], vs[n].world;
    assert InService(v, p) && InStep(x, w.store.tunnels, p, w.links[p]);
    ShowsTable(x, w.store, p, w.links[p].view);
    DroppedIsTheRest(w.links[p].view, w.links[p].synced);
  }
}
