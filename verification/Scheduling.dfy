/**
 pkg/plugin/topologyfit/plugin.go and evaluate.go: device eligibility, node evaluation, and
 the Reserve, Unreserve, PreBind and PostBind steps of scheduling cycles.
 */
module Scheduling {
  import opened Orders
  import opened Api
  import opened Topology
  import opened Selection
  import opened Scoring
  import opened Cache
  import opened Ledger

  /** What PreFilter stores for a pod; pods without a policy stay inactive. */
  datatype CycleData = CycleData(active: bool, podKey: string, policy: PolicySpec, resourceName: string, requested: int)

  datatype NodeInfo = NodeInfo(name: string, allocatable: map<string, int>, requested: map<string, int>)

  datatype Evaluation = Evaluation(feasible: bool, score: int)

  datatype Status = Success | Unschedulable | Failed

  const CACHE_TTL := 120 * SECOND

  // ----- eligibility -----

  predicate Eligible(data: CycleData, d: Device) {
    && d.resourceName == data.resourceName
    && (data.policy.vendor.NoVendor? || data.policy.vendor.AnyVendor? || d.vendor == data.policy.vendor)
    && (data.policy.products == [] || d.product in data.policy.products)
    && d.memoryMiB >= data.policy.minimumMemoryMiB
    && (d.health.Healthy? || (data.policy.allowUnknownTopology && d.health.UnknownHealth?))
  }

  function EligibleFor(data: CycleData): Device -> bool {
    d => Eligible(data, d)
  }

  function NotIn(blocked: set<string>): Device -> bool {
    (d: Device) => d.id !in blocked
  }

  function Available(s: Snapshot, data: CycleData, blocked: set<string>): seq<Device> {
    Filter(Filter(s.devices, EligibleFor(data)), NotIn(blocked))
  }

  /** The selector that Reserve hands to the ledger. */
  function Choose(s: Snapshot, data: CycleData, blocked: set<string>): seq<string> {
    Select(s, Available(s, data, blocked), data.policy, data.requested)
  }

  method EligibleDevices(s: Snapshot, data: CycleData) returns (eligible: seq<Device>)
    ensures eligible == Filter(s.devices, EligibleFor(data))
  {
    var products := set p | p in data.policy.products;
    assert data.policy.products == [] || data.policy.products[0] in products;
    eligible := [];
    for i := 0 to |s.devices|
      invariant eligible == Filter(s.devices[..i], EligibleFor(data))
    {
      assert s.devices[..i + 1][..i] == s.devices[..i];
      var device := s.devices[i];
      if device.resourceName != data.resourceName { continue; }
      var vendor := data.policy.vendor;
      if !vendor.NoVendor? && !vendor.AnyVendor? && device.vendor != vendor { continue; }
      if |products| > 0 {
        if device.product !in products { continue; }
      }
      if device.memoryMiB < data.policy.minimumMemoryMiB { continue; }
      if !device.health.Healthy? && !(data.policy.allowUnknownTopology && device.health.UnknownHealth?) { continue; }
      eligible := eligible + [device];
    }
    assert s.devices[..|s.devices|] == s.devices;
  }

  method ExcludeReservedDevices(devices: seq<Device>, reserved: set<string>) returns (available: seq<Device>)
    ensures available == Filter(devices, NotIn(reserved))
  {
    available := [];
    for i := 0 to |devices|
      invariant available == Filter(devices[..i], NotIn(reserved))
    {
      assert devices[..i + 1][..i] == devices[..i];
      if devices[i].id !in reserved {
        available := available + [devices[i]];
      }
    }
    assert devices[..|devices|] == devices;
  }

  // ----- evaluation -----

  function Quantity(quantities: map<string, int>, name: string): int {
    if name in quantities then quantities[name] else 0
  }

  function Remaining(info: NodeInfo, name: string): int {
    Max(0, Quantity(info.allocatable, name) - Quantity(info.requested, name))
  }

  /** Enough devices and scalar capacity are left, and a combination meets the policy. */
  ghost predicate SnapshotFeasible(s: Snapshot, data: CycleData, blocked: set<string>, info: NodeInfo) {
    && data.requested <= |Available(s, data, blocked)|
    && data.requested <= Remaining(info, data.resourceName)
    && Choose(s, data, blocked) != []
  }

  /** The node passes Filter for this pod. */
  ghost predicate NodeFeasible(entries: Table, l: State, data: CycleData, info: NodeInfo, now: int) {
    match ReadySnapshot(entries, info.name, now)
    case None => data.policy.failurePolicy.ToleratesMissing?
    case Some(s) => SnapshotFeasible(s, data, BlockedForOthers(l, info.name, data.podKey), info)
  }

  ghost predicate ScoreOf(s: Snapshot, data: CycleData, blocked: set<string>, info: NodeInfo, score: int) {
    Scores(s, Available(s, data, blocked), data.policy, data.requested,
           Remaining(info, data.resourceName), Quantity(info.allocatable, data.resourceName), score)
  }

  /** The part of evaluate that follows a Ready lookup. */
  method EvaluateSnapshot(s: Snapshot, data: CycleData, blocked: set<string>, info: NodeInfo) returns (e: Evaluation)
    ensures e.feasible <==> SnapshotFeasible(s, data, blocked, info)
    ensures e.feasible ==> ScoreOf(s, data, blocked, info, e.score)
  {
    var devices := EligibleDevices(s, data);
    devices := ExcludeReservedDevices(devices, blocked);
    e := EvaluateDevices(s, devices, data, info);
  }

  method EvaluateDevices(s: Snapshot, devices: seq<Device>, data: CycleData, info: NodeInfo) returns (e: Evaluation)
    ensures e.feasible <==>
            && data.requested <= |devices|
            && data.requested <= Remaining(info, data.resourceName)
            && Select(s, devices, data.policy, data.requested) != []
    ensures e.feasible ==>
              Scores(s, devices, data.policy, data.requested,
                     Remaining(info, data.resourceName), Quantity(info.allocatable, data.resourceName), e.score)
  {
    if |devices| < data.requested {
      return Evaluation(false, 0);
    }
    var allocatable := Quantity(info.allocatable, data.resourceName);
    var remaining := Max(0, allocatable - Quantity(info.requested, data.resourceName));
    if remaining < data.requested {
      return Evaluation(false, 0);
    }
    var selection := SelectDeviceIds(s, devices, data.policy, data.requested);
    if |selection| == 0 {
      return Evaluation(false, 0);
    }
    var score := Score(s, devices, data.policy, data.requested, remaining, allocatable);
    e := Evaluation(true, score);
  }

  // ----- one scheduling cycle step at a time -----

  /** Snapshot and request on which a reservation was made. */
  datatype Basis = Basis(snapshot: Snapshot, data: CycleData)

  /** Ledger and cache, the Ready snapshots looked up so far, and what each reservation was made on. */
  datatype World = World(ledger: State, entries: Table, served: set<(string, Snapshot)>, basis: map<string, Basis>)

  /**
   The atomic steps.  Reserve is two of them: it looks a snapshot up in the cache, and later,
   when both cache and ledger may have moved on, commits a choice on it to the ledger.
   */
  datatype Step =
    | Lookup(node: string, now: int)
    | Commit(data: CycleData, node: string, snapshot: Snapshot)
    | Unreserve(data: CycleData)
    | PostBind(data: CycleData)
    | Informed(delivery: Delivery)

  function ReadySnapshot(entries: Table, node: string, now: int): Option<Snapshot> {
    var cached := Fetch(entries, node, now, CACHE_TTL);
    if cached.availability == Ready then cached.snapshot else None
  }

  function CommitStatus(l: State, data: CycleData, node: string, s: Snapshot): Status {
    if Accepts(l, data.podKey, node, Choose(s, data, Blocked(l, node))) then Success else Unschedulable
  }

  function CommitEffect(l: State, data: CycleData, node: string, s: Snapshot): State {
    AfterReserve(l, data.podKey, node, Choose(s, data, Blocked(l, node)))
  }

  /** Reserve when nothing happens between its two steps. */
  function ReserveStatus(l: State, entries: Table, data: CycleData, node: string, now: int): Status {
    if !data.active then Success
    else match ReadySnapshot(entries, node, now)
      case None => if data.policy.failurePolicy.ToleratesMissing? then Success else Unschedulable
      case Some(s) => CommitStatus(l, data, node, s)
  }

  function ReserveEffect(l: State, entries: Table, data: CycleData, node: string, now: int): State {
    if !data.active then l
    else match ReadySnapshot(entries, node, now)
      case None => l
      case Some(s) => CommitEffect(l, data, node, s)
  }

  /** PreBind reads the ledger first and the cache afterwards, which may have moved on in between. */
  function PreBindStatus(l: State, entries: Table, data: CycleData, node: string, now: int): Status {
    if !data.active then Success
    else if data.podKey !in l.byPod then
      if data.policy.failurePolicy.ToleratesMissing? && ReadySnapshot(entries, node, now).None? then Success else Failed
    else if l.byPod[data.podKey].nodeName != node then Failed
    else Success
  }

  function ReleaseEffect(l: State, data: CycleData): State {
    if data.active then AfterRelease(l, data.podKey) else l
  }

  function Next(w: World, step: Step): World {
    match step
    case Lookup(node, now) =>
      var s := ReadySnapshot(w.entries, node, now);
      if s.Some? then w.(served := w.served + {(node, s.value)}) else w
    case Commit(data, node, s) =>
      if !data.active || (node, s) !in w.served then w
      else
        var l := CommitEffect(w.ledger, data, node, s);
        if l == w.ledger then w else w.(ledger := l, basis := w.basis[data.podKey := Basis(s, data)])
    case Unreserve(data) => w.(ledger := ReleaseEffect(w.ledger, data))
    case PostBind(data) => w.(ledger := ReleaseEffect(w.ledger, data))
    case Informed(delivery) => w.(entries := Deliver(w.entries, delivery))
  }

  function RunFrom(w: World, steps: seq<Step>): World {
    if steps == [] then w else Next(RunFrom(w, steps[..|steps| - 1]), steps[|steps| - 1])
  }

  const START := World(EMPTY, map[], {}, map[])

  ghost predicate Legal(steps: seq<Step>) {
    forall i :: 0 <= i < |steps| && steps[i].Informed? ==> Faithful(steps[i].delivery)
  }

  // ----- the plugin -----

  class Plugin {
    const store: Store
    const ledger: ReservationLedger

    constructor (store: Store)
      ensures this.store == store && fresh(ledger) && ledger.Now() == EMPTY
    {
      this.store := store;
      ledger := new ReservationLedger();
    }

    method Evaluate(data: CycleData, node: Option<NodeInfo>, now: int) returns (e: Evaluation)
      requires store.Valid()
      ensures e.feasible <==> node.Some? && NodeFeasible(store.entries, ledger.Now(), data, node.value, now)
      ensures e.feasible && ReadySnapshot(store.entries, node.value.name, now).None? ==> e.score == 0
      ensures e.feasible && ReadySnapshot(store.entries, node.value.name, now).Some? ==>
                ScoreOf(ReadySnapshot(store.entries, node.value.name, now).value, data,
                        BlockedForOthers(ledger.Now(), node.value.name, data.podKey), node.value, e.score)
    {
      if node.None? {
        return Evaluation(false, 0);
      }
      var info := node.value;
      var cached := store.Get(info.name, now, CACHE_TTL);
      if cached.availability != Ready {
        return Evaluation(data.policy.failurePolicy.ToleratesMissing?, 0);
      }
      var blocked := ledger.ReservedDeviceIds(info.name, data.podKey);
      e := EvaluateSnapshot(cached.snapshot.value, data, blocked, info);
    }

    /** The first step of Reserve. */
    method Lookup(node: string, now: int) returns (s: Option<Snapshot>)
      requires store.Valid()
      ensures s == ReadySnapshot(store.entries, node, now)
    {
      var cached := store.Get(node, now, CACHE_TTL);
      return if cached.availability == Ready then cached.snapshot else None;
    }

    /** The second step of Reserve, under the ledger's lock. */
    method Commit(data: CycleData, node: string, s: Snapshot) returns (status: Status)
      modifies ledger
      ensures status == CommitStatus(old(ledger.Now()), data, node, s)
      ensures ledger.Now() == CommitEffect(old(ledger.Now()), data, node, s)
    {
      var reserved := ledger.Reserve(data.podKey, node, blocked => Choose(s, data, blocked));
      return if reserved.Ok? then Success else Unschedulable;
    }

    method Reserve(data: CycleData, node: string, now: int) returns (status: Status)
      requires store.Valid()
      modifies ledger
      ensures status == ReserveStatus(old(ledger.Now()), store.entries, data, node, now)
      ensures ledger.Now() == ReserveEffect(old(ledger.Now()), store.entries, data, node, now)
    {
      if !data.active {
        return Success;
      }
      var s := Lookup(node, now);
      if s.None? {
        return if data.policy.failurePolicy.ToleratesMissing? then Success else Unschedulable;
      }
      status := Commit(data, node, s.value);
    }

    method Unreserve(data: CycleData)
      modifies ledger
      ensures ledger.Now() == ReleaseEffect(old(ledger.Now()), data)
    {
      if data.active {
        ledger.Release(data.podKey);
      }
    }

    method PreBind(data: CycleData, node: string, now: int) returns (status: Status)
      requires store.Valid()
      ensures status == PreBindStatus(ledger.Now(), store.entries, data, node, now)
    {
      if !data.active {
        return Success;
      }
      var reserved := ledger.Get(data.podKey);
      if reserved.None? {
        var cached := store.Get(node, now, CACHE_TTL);
        if data.policy.failurePolicy.ToleratesMissing? && cached.availability != Ready {
          return Success;
        }
        return Failed;
      }
      return if reserved.value.nodeName != node then Failed else Success;
    }

    method PostBind(data: CycleData)
      modifies ledger
      ensures ledger.Now() == ReleaseEffect(old(ledger.Now()), data)
    {
      if data.active {
        ledger.Release(data.podKey);
      }
    }
  }
}
