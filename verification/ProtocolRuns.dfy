/**
 What agents, status controllers and the cache guarantee together, over every interleaving of
 their writes and whatever order deliveries arrive in.
 */
module ProtocolRuns {
  import opened Orders
  import opened GoIntegers
  import opened Api
  import opened Topology
  import opened SnapshotProperties
  import opened Cache
  import opened Protocol
  import NvidiaTopology
  import Scheduling

  // ----- a current Ready condition is truthful -----

  /** Ready observes no generation ahead of the object's, and if it observes that one, Build accepts the spec. */
  ghost predicate Honest(v: TopologyObject) {
    && (v.status.ready.Some? ==> v.status.ready.value.observedGeneration <= v.generation)
    && (CurrentlyReady(v) ==> Acceptable(v.spec))
  }

  /** Resource versions identify stored versions and only grow. */
  ghost predicate Tracked(w: World) {
    && Remembers(w)
    && (forall v :: v in w.versions ==> v.resourceVersion <= w.server.clock)
    && (forall u, v :: u in w.versions && v in w.versions && u.resourceVersion == v.resourceVersion ==> u == v)
  }

  ghost predicate Truthful(w: World) {
    Tracked(w) && forall v :: v in w.versions ==> Honest(v)
  }

  lemma RecordTracked(versions: set<TopologyObject>, before: Server, after: Server)
    requires Tracked(World(before, versions))
    requires || after == before
             || (&& after.clock == before.clock + 1
                 && (after.stored.Some? ==> after.stored.value.resourceVersion == after.clock))
    ensures Tracked(Recorded(versions, after))
  {
  }

  lemma StepTracked(w: World, step: Step)
    requires Tracked(w)
    ensures Tracked(Next(w, step))
  {
    if Enabled(w, step) {
      RecordTracked(w.versions, w.server, ServerAfter(w.server, step));
    }
  }

  /** A status write goes through only from the version that is stored, so it judged the stored spec. */
  lemma StatusWriteHonest(w: World, cached: TopologyObject, now: int, message: string)
    requires Tracked(w) && cached in w.versions && Current(w.server, cached)
    ensures StatusUpdated(w.server, Synced(cached, now, message)).stored.Some?
    ensures Honest(StatusUpdated(w.server, Synced(cached, now, message)).stored.value)
  {
    assert cached == w.server.stored.value;
  }

  lemma MainWriteHonest(sv: Server, topo: TopologyObject)
    requires sv.stored.Some? && Honest(sv.stored.value) && Current(sv, topo)
    ensures Honest(Updated(sv, topo).stored.value)
  {
  }

  lemma StepTruthful(w: World, step: Step)
    requires Truthful(w)
    ensures Truthful(Next(w, step))
  {
    StepTracked(w, step);
    if Enabled(w, step) {
      var after := ServerAfter(w.server, step);
      assert after.stored.Some? ==> Honest(after.stored.value) by {
        match step {
          case AgentCreate(_, _) =>
          case AgentUpdate(read, discovered, provider) =>
            if Current(w.server, read) { MainWriteHonest(w.server, Reconciled(read, discovered, provider)); }
          case StatusWrite(cached, now, message) =>
            if Current(w.server, cached) { StatusWriteHonest(w, cached, now, message); }
          case OtherWrite(topo) =>
            if Current(w.server, topo) { MainWriteHonest(w.server, topo); }
          case Remove =>
        }
      }
    }
  }

  const NEW := World(Server(None, 0), {})

  lemma {:induction false} RunTruthful(w: World, steps: seq<Step>)
    requires Truthful(w)
    ensures Truthful(RunFrom(w, steps))
  {
    if steps != [] {
      RunTruthful(w, steps[..|steps| - 1]);
      StepTruthful(RunFrom(w, steps[..|steps| - 1]), steps[|steps| - 1]);
    }
  }

  /**
   Across all interleavings of agent writes, status writes from stale caches, writes by other
   clients, deletions and recreations: whenever any version of the object, stored or still in
   some cache, is Ready for its own generation, Build accepts its spec.
   */
  lemma ReadyMeansAcceptable(steps: seq<Step>)
    ensures var w := RunFrom(NEW, steps);
            && (forall v :: v in w.versions && CurrentlyReady(v) ==> Acceptable(v.spec))
            && (w.server.stored.Some? && CurrentlyReady(w.server.stored.value) ==>
                  Acceptable(w.server.stored.value.spec))
  {
    RunTruthful(NEW, steps);
  }

  // ----- whose object an agent writes -----

  lemma {:induction false} RunTracked(steps: seq<Step>)
    ensures Tracked(RunFrom(NEW, steps))
  {
    if steps != [] {
      RunTracked(steps[..|steps| - 1]);
      StepTracked(RunFrom(NEW, steps[..|steps| - 1]), steps[|steps| - 1]);
    }
  }

  /**
   In every run, an agent's update changes the stored object only if that object carries no
   other manager and no other provider, and takes over an unmanaged one only if discovery
   found exactly its content; afterwards the object carries the agent's own marks.
   */
  lemma AgentsRespectOwners(steps: seq<Step>, read: TopologyObject, discovered: TopologySpec, provider: string)
    ensures var w := RunFrom(NEW, steps);
            var after := Next(w, AgentUpdate(read, discovered, provider)).server;
            after != w.server ==>
              && w.server.stored.Some? && after.stored.Some?
              && w.server.stored.value.managedBy in {"", MANAGER}
              && w.server.stored.value.provider in {"", provider}
              && (w.server.stored.value.managedBy == "" ==>
                    && w.server.stored.value.spec.devices == discovered.devices
                    && w.server.stored.value.spec.links == discovered.links
                    && w.server.stored.value.spec.nodeName == discovered.nodeName
                    && w.server.stored.value.spec.origin == discovered.origin
                    && after.stored.value.spec == StoredSpec(w.server.stored.value.spec))
              && after.stored.value.managedBy == MANAGER && after.stored.value.provider == provider
  {
    RunTracked(steps);
    var w := RunFrom(NEW, steps);
    if Enabled(w, AgentUpdate(read, discovered, provider)) && Current(w.server, read) {
      assert read == w.server.stored.value;
    }
  }

  // ----- the observed generation is a faithful version number -----

  const MAX_INT64 := TWO63 - 1

  /** Only agents write the spec, and nobody deletes the object. */
  predicate AgentsOnly(step: Step) {
    step.AgentCreate? || step.AgentUpdate? || step.StatusWrite?
  }

  /** The increment raises the number exactly when there is room for it. */
  lemma NextGenerationGrows(g: int)
    requires Int64(g)
    ensures NextGeneration(g) > g <==> g != MAX_INT64
    ensures g == MAX_INT64 ==> NextGeneration(g) == 1
    ensures Int64(NextGeneration(g)) && NextGeneration(g) <= (if g < 0 then 0 else g) + 1
  {
  }

  /** What agents write carries a positive number, as Build demands: over every run, all of whose writers are agents. */
  lemma {:induction false} AgentNumbersPositive(steps: seq<Step>)
    requires forall i :: 0 <= i < |steps| ==> AgentsOnly(steps[i])
    ensures forall v :: v in RunFrom(NEW, steps).versions ==> v.spec.observedGeneration >= 1 && v.managedBy == MANAGER
    ensures Tracked(RunFrom(NEW, steps))
  {
    if steps != [] {
      AgentNumbersPositive(steps[..|steps| - 1]);
      StepTracked(RunFrom(NEW, steps[..|steps| - 1]), steps[|steps| - 1]);
    }
  }

  /** A first discovery is stored as found, as generation 1 with number 1, not ready and without heartbeat. */
  lemma FirstDiscoveryStored(w: World, discovered: TopologySpec, provider: string)
    requires w.server.stored.None?
    ensures var v := Next(w, AgentCreate(discovered, provider)).server.stored;
            && v.Some? && v.value.spec.observedGeneration == 1 && v.value.generation == 1
            && SameStoredContent(v.value.spec, discovered)
            && v.value.managedBy == MANAGER && v.value.provider == provider
            && v.value.status == TopologyStatus(None, None) && !CurrentlyReady(v.value)
  {
  }

  /** What has been stored once reads back unchanged. */
  ghost predicate Normalised(v: TopologyObject) {
    v.spec == StoredSpec(v.spec)
  }

  /**
   When discovery finds the stored topology unchanged, the agent leaves the number as it is
   exactly when the provider reported at least one link or a nil link list; an empty list that
   is not nil looks like a change on every pass.
   */
  lemma UnchangedTopologyKeepsNumber(sv: Server, discovered: TopologySpec, provider: string)
    requires sv.stored.Some? && Normalised(sv.stored.value) && Int64(sv.stored.value.spec.observedGeneration)
    requires SameStoredContent(sv.stored.value.spec, discovered) && (discovered.linksNil ==> discovered.links == [])
    ensures var next := Updated(sv, Reconciled(sv.stored.value, discovered, provider)).stored.value;
            && SameContent(next.spec, sv.stored.value.spec)
            && (next.spec.observedGeneration == sv.stored.value.spec.observedGeneration <==>
                  discovered.links != [] || discovered.linksNil)
  {
    var current := sv.stored.value;
    NextGenerationGrows(current.spec.observedGeneration);
    SameContentByParts(current.spec, discovered);
  }

  /**
   The NVIDIA provider falls into the failing case on every host with a single GPU: refreshing
   an unchanged topology keeps the number exactly when there are two GPUs or more.
   */
  lemma SingleGpuLooksChanged(sv: Server, discovered: TopologySpec, provider: string,
                              rows: NvidiaTopology.Rows, products: seq<string>, memories: seq<int>,
                              groups: seq<string>, pairs: NvidiaTopology.Pairs, m: seq<seq<bool>>)
    requires NvidiaTopology.DiscoveredSpec(rows, discovered, products, memories, groups, pairs, m)
    requires sv.stored.Some? && Normalised(sv.stored.value) && Int64(sv.stored.value.spec.observedGeneration)
    requires SameStoredContent(sv.stored.value.spec, discovered)
    ensures var next := Updated(sv, Reconciled(sv.stored.value, discovered, provider)).stored.value;
            next.spec.observedGeneration == sv.stored.value.spec.observedGeneration <==> |groups| >= 2
  {
    NvidiaTopology.DiscoveredLinksExist(rows, discovered, products, memories, groups, pairs, m);
    UnchangedTopologyKeepsNumber(sv, discovered, provider);
  }

  lemma SameContentByParts(x: TopologySpec, y: TopologySpec)
    requires x == StoredSpec(x) && SameStoredContent(x, y) && (y.linksNil ==> y.links == [])
    ensures SameContent(x, y) <==> y.links != [] || y.linksNil
  {
    var a, b := StoredSpec(x).(observedGeneration := 0), StoredSpec(y).(observedGeneration := 0);
    assert a.links == b.links && a.devices == b.devices && a.nodeName == b.nodeName && a.origin == b.origin;
  }

  /** Later versions have no smaller generations, and generations order observed generations. */
  ghost predicate Ordered(u: TopologyObject, v: TopologyObject) {
    && (u.resourceVersion <= v.resourceVersion ==> u.generation <= v.generation)
    && (u.generation == v.generation ==> u.spec == v.spec)
    && (u.generation < v.generation ==> u.spec.observedGeneration < v.spec.observedGeneration)
  }

  ghost predicate Versioned(w: World, limit: int) {
    && Tracked(w) && w.server.stored.Some?
    && (forall u, v :: u in w.versions && v in w.versions ==> Ordered(u, v))
    && (forall v :: v in w.versions ==> v.resourceVersion <= w.server.stored.value.resourceVersion)
    && Normalised(w.server.stored.value)
    && Int64(w.server.stored.value.spec.observedGeneration)
    && w.server.stored.value.spec.observedGeneration <= limit
  }

  /** The new version follows all others: same generation and spec as the last, or one more and a larger number. */
  ghost predicate Follows(last: TopologyObject, next: TopologyObject) {
    && last.resourceVersion < next.resourceVersion
    && (|| (next.generation == last.generation && next.spec == last.spec)
        || (next.generation == last.generation + 1 && next.spec.observedGeneration > last.spec.observedGeneration))
  }

  lemma FollowerOrdered(w: World, limit: int, next: TopologyObject)
    requires Versioned(w, limit) && Follows(w.server.stored.value, next)
    ensures forall u :: u in w.versions ==> Ordered(u, next) && Ordered(next, u)
  {
    var last := w.server.stored.value;
    forall u | u in w.versions
      ensures Ordered(u, next) && Ordered(next, u)
    {
      assert Ordered(u, last) && Ordered(last, u);
    }
  }

  lemma AgentWriteFollows(w: World, limit: int, read: TopologyObject, discovered: TopologySpec, provider: string)
    requires Versioned(w, limit) && limit < MAX_INT64 && 0 <= limit && read in w.versions && Current(w.server, read)
    ensures var next := Updated(w.server, Reconciled(read, discovered, provider)).stored.value;
            && Follows(w.server.stored.value, next)
            && Int64(next.spec.observedGeneration) && next.spec.observedGeneration <= limit + 1
            && Normalised(next)
  {
    assert read == w.server.stored.value;
    NextGenerationGrows(read.spec.observedGeneration);
  }

  lemma StepVersioned(w: World, limit: int, step: Step)
    requires Versioned(w, limit) && 0 <= limit < MAX_INT64 && AgentsOnly(step)
    ensures Versioned(Next(w, step), limit + 1)
  {
    StepTracked(w, step);
    if Enabled(w, step) && ServerAfter(w.server, step) != w.server {
      var next := ServerAfter(w.server, step).stored.value;
      if step.AgentUpdate? {
        AgentWriteFollows(w, limit, step.read, step.discovered, step.provider);
      }
      FollowerOrdered(w, limit, next);
    }
  }

  lemma {:induction false} RunVersioned(w: World, limit: int, steps: seq<Step>)
    requires Versioned(w, limit) && 0 <= limit && limit + |steps| <= MAX_INT64
    requires forall i :: 0 <= i < |steps| ==> AgentsOnly(steps[i])
    ensures Versioned(RunFrom(w, steps), limit + |steps|)
  {
    if steps != [] {
      var n := |steps| - 1;
      RunVersioned(w, limit, steps[..n]);
      StepVersioned(RunFrom(w, steps[..n]), limit + n, steps[n]);
    }
  }

  /**
   While only agents write the spec and the object is not deleted, the observed generation is
   a faithful version number over every run with conflicts and retries, short of int64
   overflow: equal numbers mean equal specs, later versions never have smaller numbers, and
   a change of content strictly increases it.
   */
  lemma FaithfulVersionNumber(start: TopologyObject, clock: int, steps: seq<Step>, u: TopologyObject, v: TopologyObject)
    requires start.resourceVersion <= clock && Normalised(start) && Int64(start.spec.observedGeneration)
    requires (if start.spec.observedGeneration < 0 then 0 else start.spec.observedGeneration) + |steps| <= MAX_INT64
    requires forall i :: 0 <= i < |steps| ==> AgentsOnly(steps[i])
    requires u in RunFrom(World(Server(Some(start), clock), {start}), steps).versions
    requires v in RunFrom(World(Server(Some(start), clock), {start}), steps).versions
    ensures u.spec.observedGeneration == v.spec.observedGeneration ==> u.spec == v.spec
    ensures u.resourceVersion <= v.resourceVersion ==> u.spec.observedGeneration <= v.spec.observedGeneration
    ensures u.resourceVersion <= v.resourceVersion && !SameContent(u.spec, v.spec) ==>
              u.spec.observedGeneration < v.spec.observedGeneration
  {
    VersionsOrdered(start, clock, steps, u, v);
  }

  lemma VersionsOrdered(start: TopologyObject, clock: int, steps: seq<Step>, u: TopologyObject, v: TopologyObject)
    requires start.resourceVersion <= clock && Normalised(start) && Int64(start.spec.observedGeneration)
    requires (if start.spec.observedGeneration < 0 then 0 else start.spec.observedGeneration) + |steps| <= MAX_INT64
    requires forall i :: 0 <= i < |steps| ==> AgentsOnly(steps[i])
    requires u in RunFrom(World(Server(Some(start), clock), {start}), steps).versions
    requires v in RunFrom(World(Server(Some(start), clock), {start}), steps).versions
    ensures Ordered(u, v) && Ordered(v, u)
  {
    var limit := if start.spec.observedGeneration < 0 then 0 else start.spec.observedGeneration;
    RunVersioned(World(Server(Some(start), clock), {start}), limit, steps);
  }

  /**
   Under the same assumptions, what the cache turns away as older is older in time, and two
   deliveries with the same pair of generations carry the same snapshot.
   */
  lemma CacheOrderIsTimeOrder(start: TopologyObject, clock: int, steps: seq<Step>, u: TopologyObject, v: TopologyObject,
                              s: Snapshot, t: Snapshot)
    requires start.resourceVersion <= clock && Normalised(start) && Int64(start.spec.observedGeneration)
    requires (if start.spec.observedGeneration < 0 then 0 else start.spec.observedGeneration) + |steps| <= MAX_INT64
    requires forall i :: 0 <= i < |steps| ==> AgentsOnly(steps[i])
    requires u in RunFrom(World(Server(Some(start), clock), {start}), steps).versions
    requires v in RunFrom(World(Server(Some(start), clock), {start}), steps).versions
    requires Acceptable(u.spec) && Represents(u.spec, s) && Acceptable(v.spec) && Represents(v.spec, t)
    ensures Older(u, EntryFor(v, t)) ==> u.resourceVersion < v.resourceVersion
    ensures u.generation == v.generation ==> s == t
  {
    VersionsOrdered(start, clock, steps, u, v);
    OlderIsEarlier(u, v, t);
    if u.generation == v.generation {
      SameSpecSameSnapshot(u.spec, s, t);
    }
  }

  lemma OlderIsEarlier(u: TopologyObject, v: TopologyObject, t: Snapshot)
    requires Ordered(u, v) && Ordered(v, u)
    ensures Older(u, EntryFor(v, t)) ==> u.resourceVersion < v.resourceVersion
    ensures u.generation == v.generation ==> u.spec == v.spec
  {
  }

  lemma SameSpecSameSnapshot(spec: TopologySpec, s: Snapshot, t: Snapshot)
    requires Acceptable(spec) && Represents(spec, s) && Represents(spec, t)
    ensures s == t
  {
    SnapshotUnique(spec, spec, s, t);
  }

  // ----- heartbeats -----

  /** The stored object after a successful sync at a given time, delivered before anything else happens. */
  ghost function AfterSync(topo: TopologyObject, now: int): TopologyObject {
    ServerAfter(Server(Some(topo), topo.resourceVersion), StatusWrite(topo, now, "")).stored.value
  }

  ghost function AfterSyncs(topo: TopologyObject, times: seq<int>): TopologyObject {
    if times == [] then topo else AfterSync(AfterSyncs(topo, times[..|times| - 1]), times[|times| - 1])
  }

  /** A sync leaves a heartbeat of its own time, to the second, or one that is less than 30 seconds old. */
  lemma HeartbeatIsSyncTime(topo: TopologyObject, now: int)
    ensures var beat := AfterSync(topo, now).status.lastHeartbeat;
            && beat.Some?
            && (UpToDate(topo, now, "") ==> beat == topo.status.lastHeartbeat && now - beat.value < 30 * SECOND)
            && (!UpToDate(topo, now, "") ==> beat.value <= now < beat.value + SECOND && beat.value % SECOND == 0)
  {
  }

  /** Syncs in order of time, each at most gap after the one before. */
  ghost predicate Spaced(times: seq<int>, gap: int) {
    && (forall i :: 0 <= i < |times| ==> times[i] >= SECOND)
    && (forall i :: 0 < i < |times| ==> times[i - 1] <= times[i] <= times[i - 1] + gap)
  }

  /** After a sync the condition is current and the heartbeat is less than 30 seconds old. */
  ghost predicate Fresh(topo: TopologyObject, now: int) {
    && CurrentlyReady(topo)
    && topo.status.lastHeartbeat.Some?
    && 0 < topo.status.lastHeartbeat.value
    && now - topo.status.lastHeartbeat.value < HEARTBEAT_INTERVAL
  }

  lemma SyncFreshens(topo: TopologyObject, now: int)
    requires Acceptable(topo.spec) && now >= SECOND
    requires topo.status.lastHeartbeat.Some? ==> topo.status.lastHeartbeat.value > 0
    ensures Fresh(AfterSync(topo, now), now) && AfterSync(topo, now).spec == topo.spec
  {
  }

  lemma {:induction false} SyncsKeepFresh(topo: TopologyObject, times: seq<int>, gap: int)
    requires Acceptable(topo.spec) && (topo.status.lastHeartbeat.Some? ==> topo.status.lastHeartbeat.value > 0)
    requires times != [] && Spaced(times, gap)
    ensures Fresh(AfterSyncs(topo, times), times[|times| - 1]) && AfterSyncs(topo, times).spec == topo.spec
  {
    var n := |times| - 1;
    if n == 0 {
      assert times[..0] == [];
    } else {
      SyncsKeepFresh(topo, times[..n], gap);
    }
    SyncFreshens(AfterSyncs(topo, times[..n]), times[n]);
  }

  /**
   On a valid, unchanged spec, syncs at most 90 seconds and one nanosecond apart keep the
   cached topology Ready: between them Get never reports it stale.
   */
  lemma NeverStaleBetweenSyncs(topo: TopologyObject, times: seq<int>, gap: int, s: Snapshot, later: int)
    requires Acceptable(topo.spec) && Represents(topo.spec, s)
    requires topo.status.lastHeartbeat.Some? ==> topo.status.lastHeartbeat.value > 0
    requires times != [] && Spaced(times, gap) && gap <= 90 * SECOND + 1
    requires times[|times| - 1] <= later <= times[|times| - 1] + gap
    ensures var now := AfterSyncs(topo, times);
            Fetch(map[topo.spec.nodeName := EntryFor(now, s)], topo.spec.nodeName, later,
                  Scheduling.CACHE_TTL).availability == Ready
  {
    SyncsKeepFresh(topo, times, gap);
  }

  /** One nanosecond more is too much: the second sync skips its write, and the third comes too late. */
  lemma StaleBeyondTheBound(topo: TopologyObject, s: Snapshot)
    requires Acceptable(topo.spec) && Represents(topo.spec, s) && topo.status == TopologyStatus(None, None)
    ensures var gap := 90 * SECOND + 2;
            var times := [SECOND, 31 * SECOND - 1];
            && Spaced(times, gap)
            && Fetch(map[topo.spec.nodeName := EntryFor(AfterSyncs(topo, times), s)], topo.spec.nodeName,
                     times[1] + gap, Scheduling.CACHE_TTL).availability == Stale
  {
    var times := [SECOND, 31 * SECOND - 1];
    assert Spaced(times, 90 * SECOND + 2);
    var first := AfterSync(topo, SECOND);
    assert AfterSyncs(topo, times) == first by {
      TwoSyncs(topo, SECOND, 31 * SECOND - 1);
      FirstSync(topo);
      SkippedSync(first, 31 * SECOND - 1);
    }
    assert first.spec == topo.spec && CurrentlyReady(first) && first.status.lastHeartbeat == Some(SECOND) by {
      FirstSync(topo);
    }
    HeartbeatTooOld(first, s, times[1] + 90 * SECOND + 2);
  }

  lemma HeartbeatTooOld(topo: TopologyObject, s: Snapshot, now: int)
    requires CurrentlyReady(topo) && topo.status.lastHeartbeat.Some?
    requires now - topo.status.lastHeartbeat.value > Scheduling.CACHE_TTL
    ensures Fetch(map[topo.spec.nodeName := EntryFor(topo, s)], topo.spec.nodeName, now,
                  Scheduling.CACHE_TTL).availability == Stale
  {
  }

  lemma TwoSyncs(topo: TopologyObject, a: int, b: int)
    ensures AfterSyncs(topo, [a, b]) == AfterSync(AfterSync(topo, a), b)
  {
    assert [a, b][..1] == [a] && [a][..0] == [];
    assert AfterSyncs(topo, [a]) == AfterSync(topo, a);
  }

  lemma FirstSync(topo: TopologyObject)
    requires topo.status == TopologyStatus(None, None) && Acceptable(topo.spec)
    ensures AfterSync(topo, SECOND).spec == topo.spec
    ensures AfterSync(topo, SECOND).status ==
              TopologyStatus(Some(ReadyCondition(AfterSync(topo, SECOND), "")), Some(SECOND))
  {
    assert StoredTime(SECOND) == SECOND;
  }

  lemma SkippedSync(topo: TopologyObject, now: int)
    requires UpToDate(topo, now, "")
    ensures AfterSync(topo, now) == topo
  {
  }
}
