/**
 Which NUMA node single-NUMA selection takes: the one with the smallest sufficient group, the
 lowest node number among equals, and unknown nodes last.
 */
module NumaSelection {
  import opened Orders
  import opened Api
  import opened Decimals
  import opened GoIntegers
  import opened Topology
  import opened SnapshotProperties
  import opened Groups

  /** Node numbers are int32 and not negative, as Build makes sure. */
  ghost predicate NodesValid(devices: seq<Device>) {
    forall d :: d in devices && d.numaNode.Some? ==> 0 <= d.numaNode.value < TWO31
  }

  lemma BuiltNodesValid(s: Snapshot, devices: seq<Device>)
    requires Built(s) && forall d :: d in devices ==> d in s.devices
    requires forall d :: d in devices && d.numaNode.Some? ==> Int32(d.numaNode.value)
    ensures NodesValid(devices)
  {
    BuiltDevices(s);
  }

  function OnNode(devices: seq<Device>, node: Option<int>): seq<Device> {
    Filter(devices, (d: Device) => d.numaNode == node)
  }

  /** The devices on this node suffice, and no other node is smaller, or as small with a lower number. */
  ghost predicate BestNode(devices: seq<Device>, allowUnknown: bool, k: nat, n: int) {
    && 0 <= n < TWO31 && |OnNode(devices, Some(n))| >= k
    && (forall m :: |OnNode(devices, Some(m))| >= k ==>
          || |OnNode(devices, Some(n))| < |OnNode(devices, Some(m))|
          || (|OnNode(devices, Some(n))| == |OnNode(devices, Some(m))| && n <= m))
    && (allowUnknown && |OnNode(devices, None)| >= k ==> |OnNode(devices, Some(n))| <= |OnNode(devices, None)|)
  }

  function Label(n: int): string { "numa:" + TenWide(n) }

  lemma LabelsOrdered(m: int, n: int)
    requires 0 <= m < TWO31 && 0 <= n < TWO31
    ensures AtMost(Label(m), Label(n)) <==> m <= n
    ensures AtMost(Label(n), UNKNOWN) && Label(n) != UNKNOWN
  {
    LessAfterPrefix("numa:", TenWide(n), TenWide(m));
    TenWideOrder(n, m);
    assert Label(n)[0] == 'n' && UNKNOWN[0] == '~';
  }

  lemma NodeMembers(devices: seq<Device>, allowUnknown: bool, n: int)
    ensures Members(devices, NumaLabel(allowUnknown), Label(n)) == OnNode(devices, Some(n))
    ensures allowUnknown ==> Members(devices, NumaLabel(allowUnknown), UNKNOWN) == OnNode(devices, None)
  {
    var key := NumaLabel(allowUnknown);
    forall d: Device
      ensures key(d) == Some(Label(n)) <==> d.numaNode == Some(n)
      ensures allowUnknown ==> (key(d) == Some(UNKNOWN) <==> d.numaNode == None)
    {
      if d.numaNode.Some? { LabelsDiffer(d.numaNode.value, n); }
      LabelsDiffer(n, n);
    }
    SameFilter(devices, HasKey(key, Label(n)), (d: Device) => d.numaNode == Some(n));
    if allowUnknown {
      SameFilter(devices, HasKey(key, UNKNOWN), (d: Device) => d.numaNode == None);
    }
  }

  lemma LabelsDiffer(m: int, n: int)
    ensures Label(m) == Label(n) <==> m == n
    ensures Label(m) != UNKNOWN
  {
    assert Label(m)[5..] == TenWide(m) && Label(n)[5..] == TenWide(n);
    TenWideInjective(m, n);
    assert Label(m)[0] == 'n' && UNKNOWN[0] == '~';
  }

  /** Single-NUMA selection takes the first k devices of the best node, whenever some known node is best. */
  lemma LowestNodeWins(devices: seq<Device>, allowUnknown: bool, k: nat, n: int)
    requires k >= 1 && NodesValid(devices) && BestNode(devices, allowUnknown, k, n)
    ensures GroupSelection(devices, NumaLabel(allowUnknown), k) == FirstIds(OnNode(devices, Some(n)), k)
  {
    var key := NumaLabel(allowUnknown);
    NodeMembers(devices, allowUnknown, n);
    forall y | |Members(devices, key, y)| >= k
      ensures Before(devices, key, Label(n), y)
    {
      FilterExact(devices, HasKey(key, y));
      var d := Members(devices, key, y)[0];
      assert d in Members(devices, key, y) && d in devices && key(d) == Some(y);
      if d.numaNode.Some? {
        NodeMembers(devices, allowUnknown, d.numaNode.value);
        LabelsOrdered(n, d.numaNode.value);
      } else {
        LabelsOrdered(n, n);
      }
    }
    assert BestFit(devices, key, k, Label(n));
    GroupSelectionBestFit(devices, key, k);
  }

  /** Devices of unknown node are taken only if they are allowed and every sufficient known node is strictly larger. */
  lemma UnknownNodesLast(devices: seq<Device>, allowUnknown: bool, k: nat)
    requires k >= 1 && NodesValid(devices) && allowUnknown && |OnNode(devices, None)| >= k
    requires forall m :: |OnNode(devices, Some(m))| >= k ==> |OnNode(devices, None)| < |OnNode(devices, Some(m))|
    ensures GroupSelection(devices, NumaLabel(allowUnknown), k) == FirstIds(OnNode(devices, None), k)
  {
    var key := NumaLabel(allowUnknown);
    NodeMembers(devices, allowUnknown, 0);
    LessIrreflexive(UNKNOWN);
    forall y | |Members(devices, key, y)| >= k
      ensures Before(devices, key, UNKNOWN, y)
    {
      FilterExact(devices, HasKey(key, y));
      var d := Members(devices, key, y)[0];
      assert d in Members(devices, key, y) && d in devices && key(d) == Some(y);
      if d.numaNode.Some? {
        NodeMembers(devices, allowUnknown, d.numaNode.value);
      }
    }
    assert BestFit(devices, key, k, UNKNOWN);
    GroupSelectionBestFit(devices, key, k);
  }
}
