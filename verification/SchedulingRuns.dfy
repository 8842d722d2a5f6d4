/**
 Safety of the scheduling plugin over every interleaving of scheduling cycles with topology
 deliveries, and the promise that Filter makes to Reserve.
 */
module SchedulingRuns {
  import opened Orders
  import opened Api
  import opened Topology
  import opened SnapshotProperties
  import opened Selection
  import opened GoIntegers
  import opened Scoring
  import opened Cache
  import opened Ledger
  import opened Scheduling

  // ----- what is offered to selection -----

  /** What a request and its policy ask of a single device, field by field. */
  ghost predicate Suitable(data: CycleData, d: Device) {
    var p := data.policy;
    && d.resourceName == data.resourceName
    && (p.vendor in {NoVendor, AnyVendor, d.vendor})
    && (p.products != [] ==> d.product in p.products)
    && p.minimumMemoryMiB <= d.memoryMiB
    && (!d.health.Healthy? ==> d.health.UnknownHealth? && p.allowUnknownTopology)
  }

  /** Exactly the devices of the snapshot that suit the request and are not blocked are offered. */
  lemma AvailableExact(s: Snapshot, data: CycleData, blocked: set<string>)
    ensures forall d :: d in Available(s, data, blocked) <==> d in s.devices && Suitable(data, d) && d.id !in blocked
  {
    var eligible := Filter(s.devices, EligibleFor(data));
    FilterExact(s.devices, EligibleFor(data));
    FilterExact(eligible, NotIn(blocked));
    forall d
      ensures d in Available(s, data, blocked) <==> d in s.devices && Suitable(data, d) && d.id !in blocked
    {
      assert d in Available(s, data, blocked) <==> d in eligible && NotIn(blocked)(d);
      assert d in eligible <==> d in s.devices && EligibleFor(data)(d);
      assert EligibleFor(data)(d) <==> Suitable(data, d);
    }
  }

  /** Requests for different resources are never offered a common device. */
  lemma ResourcesApart(s: Snapshot, x: CycleData, y: CycleData, blockedX: set<string>, blockedY: set<string>)
    requires Built(s) && x.resourceName != y.resourceName
    ensures IdsOf(Available(s, x, blockedX)) !! IdsOf(Available(s, y, blockedY))
  {
    AvailableExact(s, x, blockedX);
    AvailableExact(s, y, blockedY);
    BuiltDevices(s);
    forall d, e | d in Available(s, x, blockedX) && e in Available(s, y, blockedY)
      ensures d.id != e.id
    {
      if d.id == e.id { SameId(s.devices, d, e); }
    }
  }

  lemma AvailableOffered(s: Snapshot, data: CycleData, blocked: set<string>)
    requires Built(s)
    ensures Offered(s, Available(s, data, blocked))
    ensures forall d :: d in Available(s, data, blocked) <==> d in s.devices && Suitable(data, d) && d.id !in blocked
  {
    AvailableExact(s, data, blocked);
    AvailableAscending(s, data, blocked);
  }

  lemma AvailableAscending(s: Snapshot, data: CycleData, blocked: set<string>)
    requires Built(s)
    ensures Ascending(IdList(Available(s, data, blocked)))
  {
    BuiltDevices(s);
    FilterAscending(s.devices, EligibleFor(data));
    FilterAscending(Filter(s.devices, EligibleFor(data)), NotIn(blocked));
  }

  /** The chosen devices satisfy the request as the policy states it, on this snapshot. */
  ghost predicate Satisfies(s: Snapshot, data: CycleData, ids: seq<string>) {
    && |ids| == data.requested
    && Distinct(ids)
    && (forall id :: id in ids ==> exists d :: d in s.devices && d.id == id && Suitable(data, d))
    && MeetsMode(s, s.devices, data.policy, Elements(ids))
  }

  /** Judging a choice against the offered devices or against all devices is the same. */
  lemma MeetsModeOverall(s: Snapshot, devices: seq<Device>, policy: PolicySpec, ids: set<string>)
    requires Built(s) && Offered(s, devices) && ids <= IdsOf(devices) && MeetsMode(s, devices, policy, ids)
    ensures MeetsMode(s, s.devices, policy, ids)
  {
    ChosenAreOffered(s, devices, ids);
    ModeOfMore(s, devices, policy, ids);
  }

  lemma ChosenAreOffered(s: Snapshot, devices: seq<Device>, ids: set<string>)
    requires Built(s) && Offered(s, devices) && ids <= IdsOf(devices)
    ensures forall d :: d in s.devices && d.id in ids ==> d in devices
  {
    BuiltDevices(s);
    forall d | d in s.devices && d.id in ids
      ensures d in devices
    {
      var e :| e in devices && e.id == d.id;
      SameId(s.devices, d, e);
    }
  }

  lemma ModeOfMore(s: Snapshot, devices: seq<Device>, policy: PolicySpec, ids: set<string>)
    requires MeetsMode(s, devices, policy, ids) && forall d :: d in s.devices && d.id in ids ==> d in devices
    ensures MeetsMode(s, s.devices, policy, ids)
  {
  }

  lemma ChoiceSatisfies(s: Snapshot, data: CycleData, blocked: set<string>)
    requires Built(s) && Choose(s, data, blocked) != []
    ensures Satisfies(s, data, Choose(s, data, blocked))
    ensures forall id :: id in Choose(s, data, blocked) ==> id != "" && id !in blocked
  {
    var devices := Available(s, data, blocked);
    var ids := Choose(s, data, blocked);
    AvailableOffered(s, data, blocked);
    SelectionSound(s, devices, data.policy, data.requested);
    MeetsModeOverall(s, devices, data.policy, Elements(ids));
    BuiltDevices(s);
    forall id | id in ids
      ensures id != "" && id !in blocked
      ensures exists d :: d in s.devices && d.id == id && Suitable(data, d)
    {
      assert id in IdsOf(devices);
      var d :| d in devices && d.id == id;
      assert ValidDevice(d);
    }
  }

  /**
   For snapshots made by Build, the ledger's complaints about empty, repeated or already
   owned device IDs are unreachable: whatever is chosen can be granted.
   */
  lemma ChoiceIsGrantable(l: State, s: Snapshot, data: CycleData, node: string)
    requires Consistent(l) && Built(s) && Choose(s, data, Blocked(l, node)) != []
    ensures Grantable(l, node, Choose(s, data, Blocked(l, node)))
  {
    ChoiceSatisfies(s, data, Blocked(l, node));
    var ids := Choose(s, data, Blocked(l, node));
    forall i | 0 <= i < |ids|
      ensures ids[i] != "" && ids[i] !in OwnersOn(l, node)
    {
      assert ids[i] in ids;
    }
  }

  // ----- the invariant of every run -----

  /** Each reservation satisfies the request it was made for, on a snapshot that was looked up for its node. */
  ghost predicate Sound(w: World) {
    forall p :: p in w.ledger.byPod ==>
      && p in w.basis && Supports(w.basis[p], p, w.ledger.byPod[p])
      && (w.ledger.byPod[p].nodeName, w.basis[p].snapshot) in w.served
  }

  ghost predicate Supports(b: Basis, p: string, r: Reservation) {
    && b.data.podKey == p
    && Built(b.snapshot)
    && b.snapshot.nodeName == r.nodeName
    && Satisfies(b.snapshot, b.data, r.deviceIds)
  }

  /** Snapshots looked up for a node were built for it. */
  ghost predicate WellServed(served: set<(string, Snapshot)>) {
    forall n, s :: (n, s) in served ==> Built(s) && s.nodeName == n && n != ""
  }

  ghost predicate Safe(w: World) {
    Consistent(w.ledger) && WellFiled(w.entries) && WellServed(w.served) && Sound(w)
  }

  lemma ReadySnapshotBuilt(entries: Table, node: string, now: int)
    requires WellFiled(entries) && ReadySnapshot(entries, node, now).Some?
    ensures Built(ReadySnapshot(entries, node, now).value)
    ensures ReadySnapshot(entries, node, now).value.nodeName == node && node != ""
  {
    assert node in entries;
    BuiltDevices(ReadySnapshot(entries, node, now).value);
  }

  lemma LookupSafe(w: World, node: string, now: int)
    requires Safe(w)
    ensures Safe(Next(w, Lookup(node, now)))
  {
    if ReadySnapshot(w.entries, node, now).Some? {
      ReadySnapshotBuilt(w.entries, node, now);
      ServedMore(w, node, ReadySnapshot(w.entries, node, now).value);
    }
  }

  lemma ServedMore(w: World, node: string, s: Snapshot)
    requires Safe(w) && Built(s) && s.nodeName == node && node != ""
    ensures Safe(w.(served := w.served + {(node, s)}))
  {
    assert Sound(w.(served := w.served + {(node, s)})) by {
      assert Sound(w);
    }
  }

  lemma CommitSafe(w: World, data: CycleData, node: string, s: Snapshot)
    requires Safe(w)
    ensures Safe(Next(w, Commit(data, node, s)))
  {
    if data.active && (node, s) in w.served && CommitEffect(w.ledger, data, node, s) != w.ledger {
      var ids := Choose(s, data, Blocked(w.ledger, node));
      ReserveKeepsConsistent(w.ledger, data.podKey, node, ids);
      ChoiceSatisfies(s, data, Blocked(w.ledger, node));
      GrantSound(w, s, data, node, ids);
    }
  }

  lemma GrantSound(w: World, s: Snapshot, data: CycleData, node: string, ids: seq<string>)
    requires Sound(w) && Built(s) && s.nodeName == node && (node, s) in w.served && Satisfies(s, data, ids)
    ensures Sound(w.(ledger := Granted(w.ledger, data.podKey, node, ids),
                     basis := w.basis[data.podKey := Basis(s, data)]))
  {
  }

  lemma StepSafe(w: World, step: Step)
    requires Safe(w) && (step.Informed? ==> Faithful(step.delivery))
    ensures Safe(Next(w, step))
  {
    match step {
      case Lookup(node, now) => LookupSafe(w, node, now);
      case Commit(data, node, s) => CommitSafe(w, data, node, s);
      case Unreserve(data) => ReleasedConsistent(w.ledger, data.podKey);
      case PostBind(data) => ReleasedConsistent(w.ledger, data.podKey);
      case Informed(delivery) => DeliverWellFiled(w.entries, delivery);
    }
  }

  lemma {:induction false} RunFromSafe(w: World, steps: seq<Step>)
    requires Safe(w) && Legal(steps)
    ensures Safe(RunFrom(w, steps))
  {
    if steps != [] {
      var n := |steps| - 1;
      RunFromSafe(w, steps[..n]);
      StepSafe(RunFrom(w, steps[..n]), steps[n]);
    }
  }

  /** No two pods hold the same device of a node. */
  ghost predicate HeldOnce(l: State) {
    forall p, q :: p in l.byPod && q in l.byPod && p != q && l.byPod[p].nodeName == l.byPod[q].nodeName ==>
      Elements(l.byPod[p].deviceIds) !! Elements(l.byPod[q].deviceIds)
  }

  /**
   Over every interleaving of scheduling cycles with topology updates and deletions, also
   between the lookup and the commit of a Reserve, the two maps stay mutual inverses, devices
   held on a node are held once, and each reservation has the requested size and meets its
   topology mode on the snapshot that Reserve looked up.
   */
  lemma EveryRunIsSafe(steps: seq<Step>)
    requires Legal(steps)
    ensures var w := RunFrom(START, steps);
            && Consistent(w.ledger)
            && Sound(w)
            && HeldOnce(w.ledger)
  {
    RunFromSafe(START, steps);
    var l := RunFrom(START, steps).ledger;
    forall p, q | p in l.byPod && q in l.byPod && p != q && l.byPod[p].nodeName == l.byPod[q].nodeName
      ensures Elements(l.byPod[p].deviceIds) !! Elements(l.byPod[q].deviceIds)
    {
      forall d | d in l.byPod[p].deviceIds
        ensures d !in l.byPod[q].deviceIds
      {
        NotShared(l, p, q, d);
      }
    }
  }

  // ----- from Reserve to PreBind to release -----

  predicate Releases(step: Step, pod: string) {
    (step.Unreserve? || step.PostBind?) && step.data.active && step.data.podKey == pod
  }

  /** Whatever else happens, a reservation stays as it is until its own pod releases it. */
  lemma {:induction false} HeldUntilReleased(w: World, steps: seq<Step>, pod: string)
    requires pod in w.ledger.byPod && (forall i :: 0 <= i < |steps| ==> !Releases(steps[i], pod))
    ensures pod in RunFrom(w, steps).ledger.byPod
    ensures RunFrom(w, steps).ledger.byPod[pod] == w.ledger.byPod[pod]
  {
    if steps != [] {
      HeldUntilReleased(w, steps[..|steps| - 1], pod);
    }
  }

  /** Uninterrupted, the two steps are Reserve as the plugin computes it. */
  lemma ReserveIsLookupThenCommit(w: World, data: CycleData, node: string, now: int, s: Snapshot)
    requires data.active && ReadySnapshot(w.entries, node, now) == Some(s)
    ensures var u := RunFrom(w, [Lookup(node, now), Commit(data, node, s)]);
            u.ledger == ReserveEffect(w.ledger, w.entries, data, node, now) && u.entries == w.entries
  {
    var steps := [Lookup(node, now), Commit(data, node, s)];
    assert steps[..1] == [Lookup(node, now)] && [Lookup(node, now)][..0] == [];
    assert RunFrom(w, steps[..1]) == Next(w, Lookup(node, now));
  }

  /** The pod's reservation is on the node, justified by its basis, and its devices are the pod's own. */
  ghost predicate Held(w: World, pod: string, node: string) {
    && pod in w.ledger.byPod && w.ledger.byPod[pod].nodeName == node
    && pod in w.basis && Supports(w.basis[pod], pod, w.ledger.byPod[pod]) && (node, w.basis[pod].snapshot) in w.served
    && forall d :: d in w.ledger.byPod[pod].deviceIds ==>
         d in OwnersOn(w.ledger, node) && OwnersOn(w.ledger, node)[d] == pod
  }

  lemma ReservedIsHeld(w: World, pod: string)
    requires Safe(w) && pod in w.ledger.byPod
    ensures Held(w, pod, w.ledger.byPod[pod].nodeName)
  {
  }

  /**
   A pod whose commit succeeded passes PreBind on that node at any later time, no matter how
   other cycles and the topology evolve in between; it still holds exactly what was committed,
   justified by the snapshot of the reservation.
   */
  lemma ReserveGuaranteesPreBind(w: World, data: CycleData, node: string, s: Snapshot, steps: seq<Step>,
                                 entries: Table, later: int)
    requires Safe(w) && Legal(steps) && data.active && (node, s) in w.served
    requires CommitStatus(w.ledger, data, node, s) == Success
    requires forall i :: 0 <= i < |steps| ==> !Releases(steps[i], data.podKey)
    ensures var u := Next(w, Commit(data, node, s));
            var v := RunFrom(u, steps);
            && PreBindStatus(v.ledger, entries, data, node, later) == Success
            && Held(v, data.podKey, node)
            && data.podKey in u.ledger.byPod && v.ledger.byPod[data.podKey] == u.ledger.byPod[data.podKey]
  {
    var u := Next(w, Commit(data, node, s));
    StepSafe(w, Commit(data, node, s));
    RunFromSafe(u, steps);
    CommittedThere(w, data, node, s);
    HeldUntilReleased(u, steps, data.podKey);
    ReservedIsHeld(RunFrom(u, steps), data.podKey);
  }

  lemma CommittedThere(w: World, data: CycleData, node: string, s: Snapshot)
    requires data.active && (node, s) in w.served && CommitStatus(w.ledger, data, node, s) == Success
    ensures var l := Next(w, Commit(data, node, s)).ledger;
            data.podKey in l.byPod && l.byPod[data.podKey].nodeName == node
  {
  }

  /** The pod owns no device of any node. */
  ghost predicate OwnsNothing(l: State, pod: string) {
    forall n, d :: d in OwnersOn(l, n) ==> OwnersOn(l, n)[d] != pod
  }

  /**
   In every run, with any steps between PreBind's two reads: a pod that passes PreBind holds,
   on that node, devices that are its own and that met its request on the snapshot of the
   reservation; or it owns no device at all, and its policy tolerates that topology is
   unavailable.  A pod that does not pass holds nothing on the node.
   */
  lemma PreBindMeansHeld(steps: seq<Step>, between: seq<Step>, data: CycleData, node: string, now: int)
    requires Legal(steps) && Legal(between) && data.active
    ensures var w := RunFrom(START, steps);
            PreBindExplained(w, RunFrom(w, between).entries, data, node, now)
  {
    RunFromSafe(START, steps);
    var w := RunFrom(START, steps);
    RunFromSafe(w, between);
    SafePreBind(w, RunFrom(w, between).entries, data, node, now);
  }

  /** What PreBind's status means when the ledger is that of a safe world and the cache is read later. */
  ghost predicate PreBindExplained(w: World, entries: Table, data: CycleData, node: string, now: int) {
    if PreBindStatus(w.ledger, entries, data, node, now) == Success then
      || Held(w, data.podKey, node)
      || (&& OwnsNothing(w.ledger, data.podKey) && data.policy.failurePolicy.ToleratesMissing?
          && Fetch(entries, node, now, CACHE_TTL).availability != Ready)
    else forall d :: d in OwnersOn(w.ledger, node) ==> OwnersOn(w.ledger, node)[d] != data.podKey
  }

  lemma SafePreBind(w: World, entries: Table, data: CycleData, node: string, now: int)
    requires Safe(w) && WellFiled(entries) && data.active
    ensures PreBindExplained(w, entries, data, node, now)
  {
    if data.podKey !in w.ledger.byPod {
      assert OwnsNothing(w.ledger, data.podKey) by {
        OwnsOnlyReserved(w.ledger, data.podKey, node);
      }
      ReadyMeansSnapshot(entries, node, now);
    } else if w.ledger.byPod[data.podKey].nodeName == node {
      assert Held(w, data.podKey, node) by {
        ReservedIsHeld(w, data.podKey);
      }
    } else {
      assert forall d :: d in OwnersOn(w.ledger, node) ==> OwnersOn(w.ledger, node)[d] != data.podKey by {
        OwnsOnlyReserved(w.ledger, data.podKey, node);
      }
    }
  }

  lemma OwnsOnlyReserved(l: State, pod: string, node: string)
    requires Consistent(l)
    ensures pod !in l.byPod ==> OwnsNothing(l, pod)
    ensures pod in l.byPod && l.byPod[pod].nodeName != node ==>
              forall d :: d in OwnersOn(l, node) ==> OwnersOn(l, node)[d] != pod
  {
    assert Backed(l);
  }

  lemma ReadyMeansSnapshot(entries: Table, node: string, now: int)
    requires WellFiled(entries)
    ensures ReadySnapshot(entries, node, now).None? <==> Fetch(entries, node, now, CACHE_TTL).availability != Ready
  {
  }

  /** After Unreserve or PostBind the pod holds nothing, wherever in a run they occur. */
  lemma NothingHeldAfterCycle(steps: seq<Step>, last: Step)
    requires Legal(steps) && (last.Unreserve? || last.PostBind?) && last.data.active
    ensures var l := RunFrom(START, steps + [last]).ledger;
            last.data.podKey !in l.byPod && OwnsNothing(l, last.data.podKey)
  {
    var l := RunFrom(START, steps).ledger;
    assert RunFrom(START, steps + [last]).ledger == AfterRelease(l, last.data.podKey) by {
      assert (steps + [last])[..|steps|] == steps;
    }
    assert Consistent(l) by {
      RunFromSafe(START, steps);
    }
    NothingHeldAfterRelease(l, last.data.podKey);
  }

  // ----- Filter is a promise -----

  lemma NothingOwnBlocked(l: State, node: string, pod: string)
    requires Consistent(l) && pod !in l.byPod
    ensures BlockedForOthers(l, node, pod) == Blocked(l, node)
  {
    forall d | d in OwnersOn(l, node)
      ensures OwnersOn(l, node)[d] != pod
    {
      assert OwnersOn(l, node)[d] in l.byPod;
    }
  }

  /**
   If Filter finds a Ready node feasible, and ledger, snapshot and availability are unchanged,
   then Reserve succeeds there for any pod that is not reserved on another node.
   */
  lemma FilterIsAPromise(w: World, data: CycleData, info: NodeInfo, now: int, later: int)
    requires Safe(w) && data.active && data.podKey != ""
    requires ReadySnapshot(w.entries, info.name, now).Some?
    requires NodeFeasible(w.entries, w.ledger, data, info, now)
    requires ReadySnapshot(w.entries, info.name, later) == ReadySnapshot(w.entries, info.name, now)
    requires data.podKey in w.ledger.byPod ==> w.ledger.byPod[data.podKey].nodeName == info.name
    ensures ReserveStatus(w.ledger, w.entries, data, info.name, later) == Success
    ensures data.podKey in ReserveEffect(w.ledger, w.entries, data, info.name, later).byPod
  {
    var s := ReadySnapshot(w.entries, info.name, now).value;
    ReadySnapshotBuilt(w.entries, info.name, now);
    if data.podKey !in w.ledger.byPod {
      NothingOwnBlocked(w.ledger, info.name, data.podKey);
      ChoiceIsGrantable(w.ledger, s, data, info.name);
    }
  }

  /**
   The score of a feasible Ready node is made of the plain features of the devices it offers:
   no upper clamp takes part in a feature or in the score, and while no product overflows
   int64 the score is their plain weighted mean.
   */
  lemma FeasibleScoreUnclamped(s: Snapshot, data: CycleData, blocked: set<string>, info: NodeInfo, score: int)
    requires SnapshotFeasible(s, data, blocked, info)
    requires ScoreOf(s, data, blocked, info, score)
    requires Quantity(info.requested, data.resourceName) >= 0
    requires PolicyAccepted(data.policy) && Int32Weights(data.policy.weights) && AtMost100(data.policy.weights)
    ensures exists f :: UnclampedScore(s, Available(s, data, blocked), data, info, f, score)
  {
    var devices := Available(s, data, blocked);
    var remaining, allocatable := Remaining(info, data.resourceName), Quantity(info.allocatable, data.resourceName);
    WeightsDecideTheClamp(data.policy);
    var f :| FeaturesOf(s, devices, data.policy, data.requested, remaining, allocatable, f)
             && score == WeightedScore(f, data.policy.weights);
    ScoreNeedsNoUpperClamp(s, devices, data.policy, data.requested, remaining, allocatable, f, data.policy.weights);
    assert UnclampedScore(s, devices, data, info, f, score);
  }

  /** f are the plain features of these devices on the node, and the score is their mean unless int64 overflows. */
  ghost predicate UnclampedScore(s: Snapshot, devices: seq<Device>, data: CycleData, info: NodeInfo, f: Features,
                                 score: int) {
    var remaining, allocatable := Remaining(info, data.resourceName), Quantity(info.allocatable, data.resourceName);
    && PlainFeatures(s, devices, data.policy, data.requested, remaining, allocatable, f)
    && RawScore(f, data.policy.weights) <= 100
    && score == WeightedScore(f, data.policy.weights)
    && (allocatable * 100 < TWO63 && |devices| * 100 < TWO63 && PossibleEdges(|devices|) * 100 < TWO63 ==>
          Within(f, 0, 100) && score == RawScore(f, data.policy.weights))
  }

}
