/**
 * The proxies a server or a client runs, kept in step with its tunnels.
 * np_server/src/global/manager/proxy.rs, np_server/src/global/manager/tunnel.rs, np_client/src/client.rs.
 */
module Reconcile {
  import opened Messages
  import opened TunnelStore
  import Replication

  datatype OutletDesc = OutletDesc(id: nat, sender: nat, enabled: nat)

  /** The custom mapping as it stands in a description: the server's own text, or a client's listing of its map. */
  datatype Mapping = AsText(text: string) | AsListed(pairs: seq<(string, string)>)

  datatype InletDesc = InletDesc(
    id: nat, source: string, endpoint: string, sender: nat, receiver: nat, tunnelType: nat, username: string,
    password: string, enabled: nat, isCompressed: nat, encryptionMethod: string, customMapping: Mapping)

  /** What sync_tunnels looks at in a tunnel. */
  datatype Ask = Ask(
    id: nat, enabled: bool, sender: nat, receiver: nat, tunnelType: nat, outlet: OutletDesc, inlet: InletDesc)

  /** A tunnel of the server. */
  function AskOf(t: Tunnel): (a: Ask) {
    Ask(t.id, t.enabled == 1, t.sender, t.receiver, t.tunnelType,
        OutletDesc(t.id, t.sender, t.enabled),
        InletDesc(t.id, t.source, t.endpoint, t.sender, t.receiver, t.tunnelType, t.username, t.password,
                  t.enabled, t.isCompressed, t.encryptionMethod, AsText(t.customMapping)))
  }

  function AsksOf(ts: seq<Tunnel>): (asks: seq<Ask>)
    ensures |asks| == |ts|
  {
    seq(|ts|, k requires 0 <= k < |ts| => AskOf(ts[k]))
  }

  predicate UniqueAsks(asks: seq<Ask>) {
    forall j, k | 0 <= j < k < |asks| :: asks[j].id != asks[k].id
  }

  /** An outlet in service; `receiver` is what its output closure captured. */
  class RunningOutlet {
    const description: OutletDesc
    const receiver: nat
    var running: bool

    constructor (a: Ask)
      ensures description == a.outlet && receiver == a.receiver && running
    {
      description, receiver, running := a.outlet, a.receiver, true;
    }

    method Stop()
      modifies this
      ensures !running
    {
      running := false;
    }
  }

  /** An inlet in service; `sender` is what its output closure captured. */
  class RunningInlet {
    const description: InletDesc
    const sender: nat
    var running: bool

    constructor (a: Ask)
      ensures description == a.inlet && sender == a.sender && running
    {
      description, sender, running := a.inlet, a.sender, true;
    }

    method Stop()
      modifies this
      ensures !running
    {
      running := false;
    }
  }

  /** The proxies of `me`, which is 0 for the server and the player id for a client. */
  predicate WantsOutlet(me: nat, a: Ask) { a.enabled && a.sender == me }

  predicate WantsInlet(me: nat, a: Ask) { a.enabled && a.receiver == me }

  predicate CanStart(starts: Ask -> bool, a: Ask) { ValidTunnelType(a.tunnelType) && starts(a) }

  type Outlets = map<nat, RunningOutlet>
  type Inlets = map<nat, RunningInlet>

  /** Some tunnel still asks for this outlet under this id. */
  predicate RetainOutlet(me: nat, asks: seq<Ask>, id: nat, h: RunningOutlet) {
    exists k :: 0 <= k < |asks| && asks[k].id == id && WantsOutlet(me, asks[k]) && h.description == asks[k].outlet
  }

  predicate RetainInlet(me: nat, asks: seq<Ask>, id: nat, h: RunningInlet) {
    exists k :: 0 <= k < |asks| && asks[k].id == id && WantsInlet(me, asks[k]) && h.description == asks[k].inlet
  }

  predicate KeepsOutlet(me: nat, asks: seq<Ask>, held: Outlets, id: nat) {
    id in held && RetainOutlet(me, asks, id, held[id])
  }

  predicate KeepsInlet(me: nat, asks: seq<Ask>, held: Inlets, id: nat) {
    id in held && RetainInlet(me, asks, id, held[id])
  }

  // ---------------------------------------------------------------- what a synchronisation achieves

  /** Some tunnel of the list, under this id, has this outlet as its own. */
  predicate BuiltOutlet(me: nat, asks: seq<Ask>, id: nat, h: RunningOutlet) {
    exists k :: 0 <= k < |asks| && asks[k].id == id && WantsOutlet(me, asks[k])
      && h.description == asks[k].outlet && h.receiver == asks[k].receiver
  }

  predicate BuiltInlet(me: nat, asks: seq<Ask>, starts: Ask -> bool, id: nat, h: RunningInlet) {
    exists k :: 0 <= k < |asks| && asks[k].id == id && WantsInlet(me, asks[k]) && CanStart(starts, asks[k])
      && h.description == asks[k].inlet && h.sender == asks[k].sender
  }

  /** Outlets before and after: what may stay is the same object, the rest is built for a tunnel of the list. */
  ghost predicate OutletsSynced(me: nat, asks: seq<Ask>, before: Outlets, after: Outlets) {
    && (forall id | id in before && KeepsOutlet(me, asks, before, id) :: id in after && after[id] == before[id])
    && (forall id | id in after && !KeepsOutlet(me, asks, before, id) :: BuiltOutlet(me, asks, id, after[id]))
    && (forall k | 0 <= k < |asks| && WantsOutlet(me, asks[k]) :: asks[k].id in after)
  }

  ghost predicate InletsSynced(me: nat, asks: seq<Ask>, starts: Ask -> bool, before: Inlets, after: Inlets) {
    && (forall id | id in before && KeepsInlet(me, asks, before, id) :: id in after && after[id] == before[id])
    && (forall id | id in after && !KeepsInlet(me, asks, before, id) :: BuiltInlet(me, asks, starts, id, after[id]))
    && (forall k | 0 <= k < |asks| && WantsInlet(me, asks[k]) && CanStart(starts, asks[k]) :: asks[k].id in after)
  }

  /** What a removal leaves. */
  function KeptOutlets(me: nat, asks: seq<Ask>, held: Outlets): (rest: Outlets) {
    map id | id in held && KeepsOutlet(me, asks, held, id) :: held[id]
  }

  function KeptInlets(me: nat, asks: seq<Ask>, held: Inlets): (rest: Inlets) {
    map id | id in held && KeepsInlet(me, asks, held, id) :: held[id]
  }

  /** What additions achieve. */
  ghost predicate OutletsAdded(me: nat, asks: seq<Ask>, rest: Outlets, after: Outlets) {
    && (forall id | id in rest :: id in after && after[id] == rest[id])
    && (forall id | id in after && id !in rest :: BuiltOutlet(me, asks, id, after[id]))
    && (forall k | 0 <= k < |asks| && WantsOutlet(me, asks[k]) :: asks[k].id in after)
  }

  ghost predicate InletsAdded(me: nat, asks: seq<Ask>, starts: Ask -> bool, rest: Inlets, after: Inlets) {
    && (forall id | id in rest :: id in after && after[id] == rest[id])
    && (forall id | id in after && id !in rest :: BuiltInlet(me, asks, starts, id, after[id]))
    && (forall k | 0 <= k < |asks| && WantsInlet(me, asks[k]) && CanStart(starts, asks[k]) :: asks[k].id in after)
  }

  /** Everything held is in service under the id in its description. */
  ghost predicate OutletsValid(outlets: Outlets)
    reads outlets.Values
  {
    forall id | id in outlets :: outlets[id].running && outlets[id].description.id == id
  }

  ghost predicate InletsValid(inlets: Inlets)
    reads inlets.Values
  {
    forall id | id in inlets ::
      inlets[id].running && inlets[id].description.id == id && inlets[id].sender == inlets[id].description.sender
  }

  /** Descriptions name the tunnel they were made for. */
  predicate Described(asks: seq<Ask>) {
    forall k | 0 <= k < |asks| ::
      asks[k].outlet.id == asks[k].id == asks[k].inlet.id && asks[k].inlet.sender == asks[k].sender
  }

  class ProxyManager {
    const me: nat
    var outlets: Outlets
    var inlets: Inlets

    constructor (me: nat)
      ensures this.me == me && outlets == map[] && inlets == map[]
    {
      this.me, outlets, inlets := me, map[], map[];
    }

    /** One outlet goes: out of the map, and out of service. */
    method StopOutlet(key: nat)
      requires key in outlets && (forall id | id in outlets :: outlets[id].description.id == id)
      modifies this`outlets, outlets[key]
      ensures outlets == old(outlets) - {key}
      ensures forall id | id in old(outlets) ::
        old(outlets)[id].running == (id != key && old(outlets[id].running))
    {
      var outlet := outlets[key];
      outlets := outlets - {key};
      outlet.Stop();
    }

    method RemoveOutlets(asks: seq<Ask>)
      requires OutletsValid(outlets)
      modifies this`outlets, outlets.Values
      ensures OutletsValid(outlets)
      ensures outlets == KeptOutlets(me, asks, old(outlets))
      ensures forall id | id in old(outlets) :: old(outlets)[id].running == (id in outlets)
    {
      var keys := set id | id in outlets && !RetainOutlet(me, asks, id, outlets[id]);
      ghost var was, all := outlets, keys;
      while keys != {}
        invariant keys <= all <= was.Keys
        invariant outlets == was - (all - keys)
        invariant forall id | id in was :: was[id].running == (id in outlets)
      {
        var key :| key in keys;
        StopOutlet(key);
        keys := keys - {key};
      }
    }

    /** One inlet goes: out of the map, and out of service. */
    method StopInlet(key: nat)
      requires key in inlets && (forall id | id in inlets :: inlets[id].description.id == id)
      modifies this`inlets, inlets[key]
      ensures inlets == old(inlets) - {key}
      ensures forall id | id in old(inlets) ::
        old(inlets)[id].running == (id != key && old(inlets[id].running))
    {
      var inlet := inlets[key];
      inlets := inlets - {key};
      inlet.Stop();
    }

    method RemoveInlets(asks: seq<Ask>)
      requires InletsValid(inlets)
      modifies this`inlets, inlets.Values
      ensures InletsValid(inlets)
      ensures inlets == KeptInlets(me, asks, old(inlets))
      ensures forall id | id in old(inlets) :: old(inlets)[id].running == (id in inlets)
    {
      var keys := set id | id in inlets && !RetainInlet(me, asks, id, inlets[id]);
      ghost var was, all := inlets, keys;
      while keys != {}
        invariant keys <= all <= was.Keys
        invariant inlets == was - (all - keys)
        invariant forall id | id in was :: was[id].running == (id in inlets)
      {
        var key :| key in keys;
        StopInlet(key);
        keys := keys - {key};
      }
    }

    method AddOutlets(asks: seq<Ask>)
      requires OutletsValid(outlets) && Described(asks)
      modifies this`outlets
      ensures OutletsValid(outlets) && OutletsAdded(me, asks, old(outlets), outlets)
      ensures forall id | id in outlets && id !in old(outlets) :: fresh(outlets[id])
    {
      for i := 0 to |asks|
        invariant OutletsValid(outlets)
        invariant forall id | id in old(outlets) :: id in outlets && outlets[id] == old(outlets)[id]
        invariant forall id | id in outlets && id !in old(outlets) ::
          fresh(outlets[id]) && BuiltOutlet(me, asks, id, outlets[id])
        invariant forall k | 0 <= k < i && WantsOutlet(me, asks[k]) :: asks[k].id in outlets
      {
        if WantsOutlet(me, asks[i]) && asks[i].id !in outlets {
          var outlet := new RunningOutlet(asks[i]);
          outlets := outlets[asks[i].id := outlet];
        }
      }
    }

    method AddInlets(asks: seq<Ask>, starts: Ask -> bool)
      requires InletsValid(inlets) && Described(asks)
      modifies this`inlets
      ensures InletsValid(inlets) && InletsAdded(me, asks, starts, old(inlets), inlets)
      ensures forall id | id in inlets && id !in old(inlets) :: fresh(inlets[id])
    {
      for i := 0 to |asks|
        invariant InletsValid(inlets)
        invariant forall id | id in old(inlets) :: id in inlets && inlets[id] == old(inlets)[id]
        invariant forall id | id in inlets && id !in old(inlets) ::
          fresh(inlets[id]) && BuiltInlet(me, asks, starts, id, inlets[id])
        invariant forall k | 0 <= k < i && WantsInlet(me, asks[k]) && CanStart(starts, asks[k]) :: asks[k].id in inlets
      {
        if WantsInlet(me, asks[i]) && asks[i].id !in inlets && ValidTunnelType(asks[i].tunnelType) {
          var inlet := new RunningInlet(asks[i]);
          if starts(asks[i]) {
            inlets := inlets[asks[i].id := inlet];
          }
        }
      }
    }

    /** sync_tunnels; `starts` says which inlets manage to listen. */
    method SyncTunnels(asks: seq<Ask>, starts: Ask -> bool)
      requires OutletsValid(outlets) && InletsValid(inlets) && Described(asks)
      modifies this, outlets.Values, inlets.Values
      ensures OutletsValid(outlets) && InletsValid(inlets)
      ensures OutletsSynced(me, asks, old(outlets), outlets)
      ensures InletsSynced(me, asks, starts, old(inlets), inlets)
      ensures forall id | id in old(outlets) :: old(outlets)[id].running == KeepsOutlet(me, asks, old(outlets), id)
      ensures forall id | id in old(inlets) :: old(inlets)[id].running == KeepsInlet(me, asks, old(inlets), id)
      ensures forall id | id in outlets && !KeepsOutlet(me, asks, old(outlets), id) :: fresh(outlets[id])
      ensures forall id | id in inlets && !KeepsInlet(me, asks, old(inlets), id) :: fresh(inlets[id])
    {
      Remove(asks);
      Add(asks, starts);
      OutletsSyncedBy(me, asks, old(outlets), outlets);
      InletsSyncedBy(me, asks, starts, old(inlets), inlets);
    }

    /** The first half of sync_tunnels. */
    method Remove(asks: seq<Ask>)
      requires OutletsValid(outlets) && InletsValid(inlets)
      modifies this, outlets.Values, inlets.Values
      ensures OutletsValid(outlets) && InletsValid(inlets)
      ensures outlets == KeptOutlets(me, asks, old(outlets)) && inlets == KeptInlets(me, asks, old(inlets))
      ensures forall id | id in old(outlets) :: old(outlets)[id].running == (id in outlets)
      ensures forall id | id in old(inlets) :: old(inlets)[id].running == (id in inlets)
    {
      RemoveOutlets(asks);
      RemoveInlets(asks);
    }

    /** The second half. */
    method Add(asks: seq<Ask>, starts: Ask -> bool)
      requires OutletsValid(outlets) && InletsValid(inlets) && Described(asks)
      modifies this
      ensures OutletsValid(outlets) && InletsValid(inlets)
      ensures OutletsAdded(me, asks, old(outlets), outlets) && InletsAdded(me, asks, starts, old(inlets), inlets)
      ensures forall id | id in outlets && id !in old(outlets) :: fresh(outlets[id])
      ensures forall id | id in inlets && id !in old(inlets) :: fresh(inlets[id])
    {
      AddOutlets(asks);
      AddInlets(asks, starts);
    }
  }

  /** Removing what is not asked for and adding what is missing is a synchronisation. */
  lemma OutletsSyncedBy(me: nat, asks: seq<Ask>, before: Outlets, after: Outlets)
    requires OutletsAdded(me, asks, KeptOutlets(me, asks, before), after)
    ensures OutletsSynced(me, asks, before, after)
  {
  }

  lemma InletsSyncedBy(me: nat, asks: seq<Ask>, starts: Ask -> bool, before: Inlets, after: Inlets)
    requires InletsAdded(me, asks, starts, KeptInlets(me, asks, before), after)
    ensures InletsSynced(me, asks, starts, before, after)
  {
  }

  // ---------------------------------------------------------------- consequences

  lemma OutletIsRetained(me: nat, asks: seq<Ask>, before: Outlets, after: Outlets, id: nat)
    requires OutletsSynced(me, asks, before, after) && id in after
    ensures RetainOutlet(me, asks, id, after[id])
  {
    if !KeepsOutlet(me, asks, before, id) {
      assert BuiltOutlet(me, asks, id, after[id]);
    }
  }

  lemma InletIsRetained(me: nat, asks: seq<Ask>, starts: Ask -> bool, before: Inlets, after: Inlets, id: nat)
    requires InletsSynced(me, asks, starts, before, after) && id in after
    ensures RetainInlet(me, asks, id, after[id])
  {
    if !KeepsInlet(me, asks, before, id) {
      assert BuiltInlet(me, asks, starts, id, after[id]);
    }
  }

  /** The outlets are exactly the enabled tunnels whose sender is `me`, each with the description of its tunnel. */
  lemma OutletsMatch(me: nat, asks: seq<Ask>, before: Outlets, after: Outlets)
    requires UniqueAsks(asks) && OutletsSynced(me, asks, before, after)
    ensures forall id | id in after :: exists k :: 0 <= k < |asks| && asks[k].id == id && WantsOutlet(me, asks[k])
    ensures forall k | 0 <= k < |asks| && WantsOutlet(me, asks[k]) ::
              asks[k].id in after && after[asks[k].id].description == asks[k].outlet
  {
    forall id | id in after ensures RetainOutlet(me, asks, id, after[id]) {
      OutletIsRetained(me, asks, before, after, id);
    }
  }

  /** Whether an inlet is there after a synchronisation: it kept its place, or could start. */
  lemma InletThereIff(me: nat, asks: seq<Ask>, starts: Ask -> bool, before: Inlets, after: Inlets, k: nat)
    requires UniqueAsks(asks) && InletsSynced(me, asks, starts, before, after)
    requires k < |asks| && WantsInlet(me, asks[k])
    ensures var a := asks[k];
      a.id in after <==> CanStart(starts, a) || (a.id in before && before[a.id].description == a.inlet)
  {
    var id := asks[k].id;
    if id in after && !KeepsInlet(me, asks, before, id) {
      assert BuiltInlet(me, asks, starts, id, after[id]);
    }
  }

  /**
   * The inlets are exactly the enabled tunnels whose receiver is `me` and that kept their inlet or could start
   * one, each with the description of its tunnel.
   */
  lemma InletsMatch(me: nat, asks: seq<Ask>, starts: Ask -> bool, before: Inlets, after: Inlets)
    requires UniqueAsks(asks) && InletsSynced(me, asks, starts, before, after)
    ensures forall id | id in after :: exists k :: 0 <= k < |asks| && asks[k].id == id && WantsInlet(me, asks[k])
    ensures forall k | 0 <= k < |asks| && WantsInlet(me, asks[k]) ::
              asks[k].id in after <==>
                CanStart(starts, asks[k]) || (asks[k].id in before && before[asks[k].id].description == asks[k].inlet)
    ensures forall k | 0 <= k < |asks| && asks[k].id in after :: after[asks[k].id].description == asks[k].inlet
  {
    forall id | id in after ensures RetainInlet(me, asks, id, after[id]) {
      InletIsRetained(me, asks, starts, before, after, id);
    }
    forall k | 0 <= k < |asks| && WantsInlet(me, asks[k])
      ensures asks[k].id in after <==>
                CanStart(starts, asks[k]) || (asks[k].id in before && before[asks[k].id].description == asks[k].inlet)
    {
      InletThereIff(me, asks, starts, before, after, k);
    }
  }

  /** A second synchronisation leaves the same outlets in place. */
  lemma SecondSyncKeepsOutlets(me: nat, asks: seq<Ask>, o: Outlets, o': Outlets, o'': Outlets)
    requires OutletsSynced(me, asks, o, o') && OutletsSynced(me, asks, o', o'')
    ensures o'' == o'
  {
    forall id | id in o' ensures id in o'' && o''[id] == o'[id] {
      OutletIsRetained(me, asks, o, o', id);
      assert KeepsOutlet(me, asks, o', id);
    }
    forall id | id in o'' ensures id in o' {
      OutletIsRetained(me, asks, o', o'', id);
    }
  }

  /** And the same inlets, if every inlet of a valid type could start in the first. */
  lemma SecondSyncKeepsInlets(me: nat, asks: seq<Ask>, starts: Ask -> bool, again: Ask -> bool,
                              i: Inlets, i': Inlets, i'': Inlets)
    requires InletsSynced(me, asks, starts, i, i') && InletsSynced(me, asks, again, i', i'')
    requires forall k | 0 <= k < |asks| && WantsInlet(me, asks[k]) && ValidTunnelType(asks[k].tunnelType) :: starts(asks[k])
    ensures i'' == i'
  {
    forall id | id in i' ensures id in i'' && i''[id] == i'[id] {
      InletIsRetained(me, asks, starts, i, i', id);
      assert KeepsInlet(me, asks, i', id);
    }
    forall id | id in i'' ensures id in i' {
      if !KeepsInlet(me, asks, i', id) {
        assert BuiltInlet(me, asks, again, id, i''[id]);
      }
    }
  }

  /** What an inlet sends goes to the sender of its tunnel, as the description names it. */
  lemma InletTargetIsRight(me: nat, asks: seq<Ask>, starts: Ask -> bool, before: Inlets, after: Inlets, k: nat)
    requires UniqueAsks(asks) && Described(asks) && InletsSynced(me, asks, starts, before, after)
    requires k < |asks| && asks[k].id in after
    requires forall id | id in before :: before[id].sender == before[id].description.sender
    ensures after[asks[k].id].sender == asks[k].sender
  {
    var id := asks[k].id;
    InletIsRetained(me, asks, starts, before, after, id);
    if !KeepsInlet(me, asks, before, id) {
      assert BuiltInlet(me, asks, starts, id, after[id]);
    }
  }

  /**
   * What an outlet sends goes to the receiver of its tunnel exactly if no outlet with the tunnel's
   * description was already there for another receiver.
   */
  lemma OutletTargetIsRightIff(me: nat, asks: seq<Ask>, before: Outlets, after: Outlets, k: nat)
    requires UniqueAsks(asks) && OutletsSynced(me, asks, before, after) && k < |asks| && WantsOutlet(me, asks[k])
    ensures asks[k].id in after
    ensures after[asks[k].id].receiver == asks[k].receiver
      <==> (asks[k].id in before && before[asks[k].id].description == asks[k].outlet
            ==> before[asks[k].id].receiver == asks[k].receiver)
  {
    var id := asks[k].id;
    if !KeepsOutlet(me, asks, before, id) {
      assert BuiltOutlet(me, asks, id, after[id]);
    }
  }

  lemma UniqueIdsAsk(ts: seq<Tunnel>)
    requires UniqueIds(ts)
    ensures UniqueAsks(AsksOf(ts)) && Described(AsksOf(ts))
  {
    var asks := AsksOf(ts);
    forall j, k | 0 <= j < k < |asks| ensures asks[j].id != asks[k].id {
      assert ts[j].id != ts[k].id;
    }
  }

  /** Editing only the receiver of a tunnel, in whatever list, leaves its outlet answering the old one. */
  lemma ReceiverGoesStale(ts: seq<Tunnel>, k: nat, receiver: nat, older: Outlets, before: Outlets, after: Outlets)
    requires UniqueIds(ts) && k < |ts| && WantsOutlet(0, AskOf(ts[k])) && receiver != ts[k].receiver
    requires OutletsSynced(0, AsksOf(ts), older, before)
    requires OutletsSynced(0, AsksOf(ts[k := ts[k].(receiver := receiver)]), before, after)
    ensures ts[k].id in before && ts[k].id in after && after[ts[k].id] == before[ts[k].id]
    ensures before[ts[k].id].receiver == ts[k].receiver ==> after[ts[k].id].receiver != receiver
  {
    var id, asks' := ts[k].id, AsksOf(ts[k := ts[k].(receiver := receiver)]);
    UniqueIdsAsk(ts);
    assert AsksOf(ts)[k] == AskOf(ts[k]);
    OutletsMatch(0, AsksOf(ts), older, before);
    assert asks'[k].id == id && WantsOutlet(0, asks'[k]) && before[id].description == asks'[k].outlet;
    assert KeepsOutlet(0, asks', before, id);
  }

  // ---------------------------------------------------------------- over whole runs

  /** The tunnel manager and the proxy manager of one server; `starts` is how attempts to listen last went. */
  datatype Server = Server(store: Store, outlets: Outlets, inlets: Inlets, starts: Ask -> bool)

  ghost predicate Syncs(o: Outlets, i: Inlets, v: Server) {
    && OutletsSynced(0, AsksOf(v.store.tunnels), o, v.outlets)
    && InletsSynced(0, AsksOf(v.store.tunnels), v.starts, i, v.inlets)
  }

  /** The server has loaded its table and synchronised for the first time. */
  ghost predicate Booted(v: Server) { Mirrors(v.store) && Syncs(map[], map[], v) }

  /** An operation, followed by a synchronisation if the operation got as far as its broadcasts. */
  ghost predicate ServerStep(x: Text, players: set<nat>, v: Server, op: Replication.Op, v': Server) {
    var r := Replication.Perform(x, players, v.store, op);
    && (op.AddOp? ==> FreshKey(v.store, op.inserted))
    && v'.store == r.store
    && if r.mails == [] then v' == v.(store := r.store) else Syncs(v.outlets, v.inlets, v')
  }

  /** The fields of a tunnel that an inlet depends on. */
  predicate SameForInlet(s: Tunnel, t: Tunnel) {
    && s.id == t.id && s.source == t.source && s.endpoint == t.endpoint && s.sender == t.sender && s.receiver == t.receiver
    && s.tunnelType == t.tunnelType && s.username == t.username && s.password == t.password && s.enabled == t.enabled
    && s.isCompressed == t.isCompressed && s.encryptionMethod == t.encryptionMethod && s.customMapping == t.customMapping
  }

  /** Two tunnels have one description exactly if they agree on the listed fields, for an outlet on id, sender and enabled. */
  lemma DescriptionsAgreeIff(s: Tunnel, t: Tunnel)
    ensures AskOf(s).inlet == AskOf(t).inlet <==> SameForInlet(s, t)
    ensures AskOf(s).outlet == AskOf(t).outlet <==> s.id == t.id && s.sender == t.sender && s.enabled == t.enabled
  {
  }

  /**
   * What runs is what the table says.  A row has an outlet exactly if it is enabled with sender 0.  It has an
   * inlet only if it is enabled with receiver 0, and must have one if its type is known and it could start when
   * last tried.  What runs for a row was made for it as it is, and an inlet answers to its sender.
   */
  ghost predicate Agreed(v: Server) {
    var db := v.store.db;
    && Mirrors(v.store)
    && (forall id :: id in v.outlets <==> id in db && db[id].enabled == 1 && db[id].sender == 0)
    && (forall id | id in v.outlets :: v.outlets[id].description == AskOf(db[id]).outlet)
    && (forall id | id in v.inlets :: id in db && db[id].enabled == 1 && db[id].receiver == 0)
    && (forall id | id in v.inlets :: v.inlets[id].description == AskOf(db[id]).inlet && v.inlets[id].sender == db[id].sender)
    && (forall id | id in db && db[id].enabled == 1 && db[id].receiver == 0 && db[id].tunnelType <= 2 && v.starts(AskOf(db[id])) ::
          id in v.inlets)
  }

  /** Under an id, a list that mirrors a table asks for what the row asks for. */
  lemma AskedByRow(s: Store, k: nat)
    requires Mirrors(s) && k < |s.tunnels|
    ensures var id := AsksOf(s.tunnels)[k].id;
      id in s.db && AsksOf(s.tunnels)[k] == AskOf(s.db[id]) && s.db[id].id == id
  {
  }

  lemma RowIsAsked(s: Store, id: nat)
    requires Mirrors(s) && id in s.db
    ensures exists k :: 0 <= k < |AsksOf(s.tunnels)| && AsksOf(s.tunnels)[k].id == id && AsksOf(s.tunnels)[k] == AskOf(s.db[id])
  {
    assert Listed(s.tunnels, id);
    var k :| 0 <= k < |s.tunnels| && s.tunnels[k].id == id;
    AskedByRow(s, k);
  }

  lemma OutletsAgree(s: Store, o: Outlets, o': Outlets)
    requires Mirrors(s) && OutletsSynced(0, AsksOf(s.tunnels), o, o')
    ensures forall id :: id in o' <==> id in s.db && s.db[id].enabled == 1 && s.db[id].sender == 0
    ensures forall id | id in o' :: o'[id].description == AskOf(s.db[id]).outlet
  {
    var asks := AsksOf(s.tunnels);
    forall id | id in o'
      ensures id in s.db && s.db[id].enabled == 1 && s.db[id].sender == 0 && o'[id].description == AskOf(s.db[id]).outlet
    {
      OutletIsRetained(0, asks, o, o', id);
      var k :| 0 <= k < |asks| && asks[k].id == id && WantsOutlet(0, asks[k]) && o'[id].description == asks[k].outlet;
      AskedByRow(s, k);
    }
    forall id | id in s.db && s.db[id].enabled == 1 && s.db[id].sender == 0 ensures id in o' {
      RowIsAsked(s, id);
    }
  }

  lemma InletsAgree(s: Store, starts: Ask -> bool, i: Inlets, i': Inlets)
    requires Mirrors(s) && InletsSynced(0, AsksOf(s.tunnels), starts, i, i')
    requires forall id | id in i :: i[id].sender == i[id].description.sender
    ensures forall id | id in i' :: id in s.db && s.db[id].enabled == 1 && s.db[id].receiver == 0
    ensures forall id | id in i' :: i'[id].description == AskOf(s.db[id]).inlet && i'[id].sender == s.db[id].sender
    ensures forall id | id in s.db && s.db[id].enabled == 1 && s.db[id].receiver == 0 && s.db[id].tunnelType <= 2
                        && starts(AskOf(s.db[id])) :: id in i'
  {
    var asks := AsksOf(s.tunnels);
    UniqueIdsAsk(s.tunnels);
    forall id | id in i'
      ensures id in s.db && s.db[id].enabled == 1 && s.db[id].receiver == 0
      ensures i'[id].description == AskOf(s.db[id]).inlet && i'[id].sender == s.db[id].sender
    {
      InletIsRetained(0, asks, starts, i, i', id);
      var k :| 0 <= k < |asks| && asks[k].id == id && WantsInlet(0, asks[k]) && i'[id].description == asks[k].inlet;
      AskedByRow(s, k);
      InletTargetIsRight(0, asks, starts, i, i', k);
    }
    forall id | id in s.db && s.db[id].enabled == 1 && s.db[id].receiver == 0 && s.db[id].tunnelType <= 2 && starts(AskOf(s.db[id]))
      ensures id in i'
    {
      RowIsAsked(s, id);
    }
  }

  lemma SyncAgrees(o: Outlets, i: Inlets, v: Server)
    requires Mirrors(v.store) && Syncs(o, i, v)
    requires forall id | id in i :: i[id].sender == i[id].description.sender
    ensures Agreed(v)
  {
    OutletsAgree(v.store, o, v.outlets);
    InletsAgree(v.store, v.starts, i, v.inlets);
  }

  lemma StepKeepsAgreed(x: Text, players: set<nat>, v: Server, op: Replication.Op, v': Server)
    requires Agreed(v) && ServerStep(x, players, v, op, v')
    ensures Agreed(v')
  {
    var r := Replication.Perform(x, players, v.store, op);
    Replication.PerformMirrors(x, players, v.store, op);
    if r.mails == [] {
      QuietOperation(x, players, v.store, op);
    } else {
      SyncAgrees(v.outlets, v.inlets, v');
    }
  }

  /** An operation without broadcasts has changed nothing. */
  lemma QuietOperation(x: Text, players: set<nat>, s: Store, op: Replication.Op)
    requires Mirrors(s) && (op.AddOp? ==> FreshKey(s, op.inserted)) && Replication.Perform(x, players, s, op).mails == []
    ensures Replication.Perform(x, players, s, op).store == s
  {
    if op.DeleteOp? && op.id in s.db {
      assert Listed(s.tunnels, op.id);
    }
  }

  /** An update replaces an inlet exactly if one of the fields it depends on has changed. */
  lemma EditedInletIsReplacedIff(x: Text, players: set<nat>, v: Server, t: Tunnel, v': Server)
    requires Agreed(v) && ServerStep(x, players, v, Replication.UpdateOp(t, true), v') && Update(x, players, v.store, t, true).ok
    requires t.id in v.inlets && t.id in v'.inlets
    ensures v'.inlets[t.id] == v.inlets[t.id] <==> SameForInlet(v.store.db[t.id], t)
  {
    StepKeepsAgreed(x, players, v, Replication.UpdateOp(t, true), v');
    UpdateWrites(x, players, v.store, t, true);
    DescriptionsAgreeIff(v.store.db[t.id], t);
    if SameForInlet(v.store.db[t.id], t) {
      RowIsAsked(v'.store, t.id);
      assert KeepsInlet(0, AsksOf(v'.store.tunnels), v.inlets, t.id);
    }
  }

  /** States vs, operations between them, and the players known at each. */
  ghost predicate ServerRun(x: Text, players: seq<set<nat>>, vs: seq<Server>, ops: seq<Replication.Op>) {
    && |vs| == |ops| + 1 && |players| == |ops|
    && forall k | 0 <= k < |ops| :: ServerStep(x, players[k], vs[k], ops[k], vs[k + 1])
  }

  /** From the start and along every run of succeeding and failing operations, proxies, list and table agree. */
  lemma {:induction false} ProxiesFollowTheList(x: Text, players: seq<set<nat>>, vs: seq<Server>,
                                                ops: seq<Replication.Op>, n: nat)
    requires ServerRun(x, players, vs, ops) && Booted(vs[0]) && n < |vs|
    ensures Agreed(vs[n])
  {
    if n == 0 {
      SyncAgrees(map[], map[], vs[0]);
    } else {
      ProxiesFollowTheList(x, players, vs, ops, n - 1);
      StepKeepsAgreed(x, players[n - 1], vs[n - 1], ops[n - 1], vs[n]);
    }
  }
}
