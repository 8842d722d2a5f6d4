/**
 pkg/topology/cache/store.go: the node-keyed cache of snapshots that the scheduler reads.
 */
module Cache {
  import opened Orders
  import opened Api
  import opened Topology
  import opened SnapshotProperties

  datatype Availability = Ready | Missing | NotReady | Stale

  datatype Cached = Cached(
    snapshot: Option<Snapshot>,
    availability: Availability,
    resourceVersion: int,
    objectGeneration: int,
    observedGeneration: int,
    lastHeartbeat: int)  // zero when the object carries no heartbeat

  datatype UpsertResult = Stored | NilObject | Unbuildable(error: BuildError) | OlderGeneration

  type Table = map<string, Cached>

  // ----- values -----

  predicate CurrentlyReady(topo: TopologyObject) {
    var c := topo.status.ready;
    c.Some? && c.value.status.ConditionTrue? && c.value.observedGeneration == topo.generation
  }

  function EntryFor(topo: TopologyObject, s: Snapshot): Cached {
    Cached(
      Some(s),
      if CurrentlyReady(topo) then Ready else NotReady,
      topo.resourceVersion,
      topo.generation,
      topo.spec.observedGeneration,
      match topo.status.lastHeartbeat case None => 0 case Some(t) => t)
  }

  predicate Older(topo: TopologyObject, cached: Cached) {
    || topo.generation < cached.objectGeneration
    || (topo.generation == cached.objectGeneration && topo.spec.observedGeneration < cached.observedGeneration)
  }

  /** The entries after Upsert of an object that builds into s. */
  function Upserted(entries: Table, topo: TopologyObject, s: Snapshot): Table {
    var node := topo.spec.nodeName;
    if node in entries && Older(topo, entries[node]) then entries
    else entries[node := EntryFor(topo, s)]
  }

  function Fetch(entries: Table, node: string, now: int, ttl: int): Cached {
    if node !in entries then Cached(None, Missing, 0, 0, 0, 0)
    else
      var cached := entries[node];
      if cached.availability != Ready then cached
      else if cached.lastHeartbeat == 0 || (ttl > 0 && now - cached.lastHeartbeat > ttl)
      then cached.(availability := Stale)
      else cached
  }

  // ----- the store -----

  class Store {
    var entries: Table

    predicate Valid()
      reads this
    {
      Filled(entries)
    }

    constructor ()
      ensures Valid() && entries == map[]
    {
      entries := map[];
    }

    /** The result that Upsert stores for an object and its snapshot. */
    static method Entry(o: TopologyObject, s: Snapshot) returns (result: Cached)
      ensures result == EntryFor(o, s)
    {
      result := Cached(Some(s), NotReady, o.resourceVersion, o.generation, o.spec.observedGeneration, 0);
      var ready := o.status.ready;
      if ready.Some? && ready.value.status.ConditionTrue? && ready.value.observedGeneration == o.generation {
        result := result.(availability := Ready);
      }
      if o.status.lastHeartbeat.Some? {
        result := result.(lastHeartbeat := o.status.lastHeartbeat.value);
      }
    }

    method Upsert(topo: Option<TopologyObject>) returns (r: UpsertResult)
      requires Valid()
      modifies this
      ensures Valid()
      ensures r.NilObject? <==> topo.None?
      ensures r.Unbuildable? <==> topo.Some? && !Acceptable(topo.value.spec)
      ensures r.NilObject? || r.Unbuildable? || r.OlderGeneration? ==> entries == old(entries)
      ensures r.Stored? || r.OlderGeneration? ==>
                exists s :: Represents(topo.value.spec, s) && entries == Upserted(old(entries), topo.value, s)
      ensures r.OlderGeneration? <==>
                && topo.Some? && Acceptable(topo.value.spec)
                && topo.value.spec.nodeName in old(entries)
                && Older(topo.value, old(entries)[topo.value.spec.nodeName])
    {
      if topo.None? {
        return NilObject;
      }
      var o := topo.value;
      var built := Build(o.spec);
      if built.Err? {
        return Unbuildable(built.error);
      }
      var result := Entry(o, built.value);
      if o.spec.nodeName in entries {
        var cached := entries[o.spec.nodeName];
        if o.generation < cached.objectGeneration
           || (o.generation == cached.objectGeneration && o.spec.observedGeneration < cached.observedGeneration) {
          return OlderGeneration;
        }
      }
      entries := entries[o.spec.nodeName := result];
      return Stored;
    }

    method Delete(node: string)
      requires Valid()
      modifies this
      ensures Valid()
      ensures entries == old(entries) - {node}
    {
      if node !in entries {
        return;
      }
      entries := map n | n in entries && n != node :: entries[n];
    }

    method Get(node: string, now: int, ttl: int) returns (r: Cached)
      ensures r == Fetch(entries, node, now, ttl)
    {
      if node !in entries {
        return Cached(None, Missing, 0, 0, 0, 0);
      }
      r := entries[node];
      if r.availability != Ready {
        return r;
      }
      if r.lastHeartbeat == 0 || (ttl > 0 && now - r.lastHeartbeat > ttl) {
        r := r.(availability := Stale);
      }
    }
  }

  // ----- runs of the store -----

  /** One delivery: an object with the snapshot it builds into, or a deletion. */
  datatype Delivery = Seen(topo: TopologyObject, snapshot: Snapshot) | Gone(node: string)

  ghost predicate Faithful(d: Delivery) {
    d.Seen? ==> Acceptable(d.topo.spec) && Represents(d.topo.spec, d.snapshot)
  }

  function Deliver(entries: Table, d: Delivery): Table {
    match d
    case Seen(topo, s) => Upserted(entries, topo, s)
    case Gone(node) => entries - {node}
  }

  function DeliverAll(entries: Table, ds: seq<Delivery>): Table {
    if ds == [] then entries else Deliver(DeliverAll(entries, ds[..|ds| - 1]), ds[|ds| - 1])
  }

  /** Every entry holds a snapshot. */
  predicate Filled(entries: Table) {
    forall node :: node in entries ==> entries[node].snapshot.Some?
  }

  /** Entries are filed under the node of the snapshot they hold and are never missing or stale themselves. */
  ghost predicate WellFiled(entries: Table) {
    forall node :: node in entries ==> ProperEntry(node, entries[node])
  }

  ghost predicate ProperEntry(node: string, c: Cached) {
    && c.snapshot.Some? && Built(c.snapshot.value)
    && c.snapshot.value.nodeName == node
    && c.snapshot.value.observedGeneration == c.observedGeneration
    && (c.availability == Ready || c.availability == NotReady)
  }

  lemma DeliverWellFiled(entries: Table, d: Delivery)
    requires WellFiled(entries) && Faithful(d)
    ensures WellFiled(Deliver(entries, d))
  {
    if d.Seen? { SeenProper(d.topo, d.snapshot); }
    DeliverProper(entries, d);
  }

  lemma DeliverProper(entries: Table, d: Delivery)
    requires WellFiled(entries) && (d.Seen? ==> ProperEntry(d.topo.spec.nodeName, EntryFor(d.topo, d.snapshot)))
    ensures WellFiled(Deliver(entries, d))
  {
  }

  lemma SeenProper(topo: TopologyObject, s: Snapshot)
    requires Acceptable(topo.spec) && Represents(topo.spec, s)
    ensures ProperEntry(topo.spec.nodeName, EntryFor(topo, s))
  {
    assert Built(s);
  }

  /**
   An object whose pair of generations is not below the cached one is served from then on, with
   its own snapshot and versions; as Ready exactly if its Ready condition is true for its own
   generation and its heartbeat is present and not older than the time to live.
   */
  lemma DeliveryServed(entries: Table, topo: TopologyObject, s: Snapshot, now: int, ttl: int)
    requires topo.spec.nodeName in entries ==> NoLater(entries[topo.spec.nodeName], EntryFor(topo, s))
    ensures var c := Fetch(Upserted(entries, topo, s), topo.spec.nodeName, now, ttl);
            && c.snapshot == Some(s) && c.resourceVersion == topo.resourceVersion
            && c.objectGeneration == topo.generation && c.observedGeneration == topo.spec.observedGeneration
    ensures var c := Fetch(Upserted(entries, topo, s), topo.spec.nodeName, now, ttl);
            var beat := topo.status.lastHeartbeat;
            var ready := topo.status.ready.Some? && topo.status.ready.value.status == ConditionTrue
                         && topo.status.ready.value.observedGeneration == topo.generation;
            var alive := beat.Some? && beat.value != 0 && (ttl <= 0 || now - beat.value <= ttl);
            c.availability == if !ready then NotReady else if alive then Ready else Stale
    ensures forall node :: node != topo.spec.nodeName ==>
              Fetch(Upserted(entries, topo, s), node, now, ttl) == Fetch(entries, node, now, ttl)
  {
  }

  /** Once a node is gone the cache reports it missing, and serves every other node as before. */
  lemma GoneIsMissing(entries: Table, node: string, other: string, now: int, ttl: int)
    ensures Fetch(Deliver(entries, Gone(node)), node, now, ttl).availability == Missing
    ensures other != node ==> Fetch(Deliver(entries, Gone(node)), other, now, ttl) == Fetch(entries, other, now, ttl)
  {
  }

  predicate NoLater(x: Cached, y: Cached) {
    || x.objectGeneration < y.objectGeneration
    || (x.objectGeneration == y.objectGeneration && x.observedGeneration <= y.observedGeneration)
  }

  /**
   Whatever order deliveries arrive in, the pair of generations served for a node never
   decreases lexicographically until the node is deleted.
   */
  lemma {:induction false} ServedVersionsNeverDecrease(entries: Table, ds: seq<Delivery>, node: string)
    requires node in entries && Gone(node) !in ds
    ensures node in DeliverAll(entries, ds) && NoLater(entries[node], DeliverAll(entries, ds)[node])
  {
    if ds != [] {
      var n := |ds| - 1;
      assert ds[n] in ds;
      ServedVersionsNeverDecrease(entries, ds[..n], node);
    }
  }
}
