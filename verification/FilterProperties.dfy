/**
 What Filter and Reserve of pkg/plugin/topologyfit/plugin.go answer when topology is
 unavailable, when scalar capacity is short and when other pods hold devices.
 */
module FilterProperties {
  import opened Api
  import opened Topology
  import opened SnapshotProperties
  import opened Selection
  import opened Cache
  import opened Ledger
  import opened Scheduling
  import opened SchedulingRuns
  import NvidiaTopology
  import Translation

  /**
   While the cache does not report Ready, a pod passes Filter and Reserve exactly if its policy
   tolerates missing topology, and then nothing is reserved for it.
   */
  lemma UnavailableTopology(entries: Table, l: State, data: CycleData, info: NodeInfo, now: int)
    requires data.active && Fetch(entries, info.name, now, CACHE_TTL).availability != Ready
    ensures NodeFeasible(entries, l, data, info, now) <==> data.policy.failurePolicy.ToleratesMissing?
    ensures ReserveStatus(l, entries, data, info.name, now) == Success <==> data.policy.failurePolicy.ToleratesMissing?
    ensures ReserveEffect(l, entries, data, info.name, now) == l
  {
  }

  /** Under FailClosed, what passes Filter or Reserve was judged on a Ready snapshot of that very node. */
  lemma FailClosedNeedsReady(entries: Table, l: State, data: CycleData, info: NodeInfo, now: int)
    requires data.active && data.policy.failurePolicy.FailClosed? && WellFiled(entries)
    requires || NodeFeasible(entries, l, data, info, now)
             || ReserveStatus(l, entries, data, info.name, now) == Success
    ensures Fetch(entries, info.name, now, CACHE_TTL).availability == Ready
    ensures ReadySnapshot(entries, info.name, now).Some?
    ensures ReadySnapshot(entries, info.name, now).value.nodeName == info.name
  {
    if Fetch(entries, info.name, now, CACHE_TTL).availability != Ready {
      UnavailableTopology(entries, l, data, info, now);
    }
    ReadyMeansSnapshot(entries, info.name, now);
    ReadySnapshotBuilt(entries, info.name, now);
  }

  /** What is requested on the node already and this request stay within what is allocatable. */
  ghost predicate HasRoom(info: NodeInfo, data: CycleData) {
    var used := if data.resourceName in info.requested then info.requested[data.resourceName] else 0;
    var total := if data.resourceName in info.allocatable then info.allocatable[data.resourceName] else 0;
    used + data.requested <= total
  }

  /** A feasible node lists the resource and has room for the request beside what is requested already. */
  lemma FeasibleHasCapacity(s: Snapshot, data: CycleData, blocked: set<string>, info: NodeInfo)
    requires SnapshotFeasible(s, data, blocked, info)
    ensures data.requested >= 1
    ensures HasRoom(info, data)
    ensures data.resourceName in info.allocatable || Quantity(info.requested, data.resourceName) < 0
  {
  }

  /** A node is feasible exactly if it has room and a set of suitable, free devices that meets the policy's mode. */
  lemma FeasibleExactly(s: Snapshot, data: CycleData, blocked: set<string>, info: NodeInfo)
    requires Built(s) && Quantity(info.requested, data.resourceName) >= 0
    ensures SnapshotFeasible(s, data, blocked, info) <==>
            && 1 <= data.requested && HasRoom(info, data)
            && SomeSetMeets(s, Available(s, data, blocked), data.policy, data.requested)
  {
    var devices := Available(s, data, blocked);
    assert Offered(s, devices) by {
      AvailableOffered(s, data, blocked);
    }
    assert Choose(s, data, blocked) != [] <==>
           data.requested >= 1 && SomeSetMeets(s, devices, data.policy, data.requested) by {
      SelectionComplete(s, devices, data.policy, data.requested);
    }
    assert Choose(s, data, blocked) != [] ==> data.requested <= |devices|;
  }

  /** Filter leaves out exactly the devices that some other pod holds on the node, Reserve those that any pod holds. */
  lemma BlockedMeansHeld(l: State, node: string, pod: string, d: string)
    requires Consistent(l)
    ensures d in BlockedForOthers(l, node, pod) <==>
            exists p :: p in l.byPod && p != pod && l.byPod[p].nodeName == node && d in l.byPod[p].deviceIds
    ensures d in Blocked(l, node) <==>
            exists p :: p in l.byPod && l.byPod[p].nodeName == node && d in l.byPod[p].deviceIds
  {
    if d in OwnersOn(l, node) {
      var p := OwnersOn(l, node)[d];
      assert p in l.byPod && l.byPod[p].nodeName == node && d in l.byPod[p].deviceIds;
    }
    if p :| p in l.byPod && l.byPod[p].nodeName == node && d in l.byPod[p].deviceIds {
      assert d in OwnersOn(l, node) && OwnersOn(l, node)[d] == p;
    }
  }

  /**
   A discovered GPU suits a request exactly if the request is for nvidia.com/gpu and its policy
   allows unknown topology, admits NVIDIA and the product, and asks for no more memory; in
   particular no policy that can be compiled to a DRA template ever matches one.
   */
  lemma DiscoveredDevicesSuit(data: CycleData, products: seq<string>, memories: seq<int>, groups: seq<string>, i: nat)
    requires |products| == |memories| == |groups| && i < |groups|
    ensures Suitable(data, NvidiaTopology.GpuDevices(products, memories, groups)[i]) <==>
            && data.resourceName == "nvidia.com/gpu"
            && data.policy.allowUnknownTopology
            && data.policy.vendor in {NoVendor, AnyVendor, NVIDIA}
            && (data.policy.products == [] || products[i] in data.policy.products)
            && data.policy.minimumMemoryMiB <= memories[i]
    ensures Translation.Translatable(data.policy) ==>
              !Suitable(data, NvidiaTopology.GpuDevices(products, memories, groups)[i])
  {
  }
}
