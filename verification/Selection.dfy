/**
 selectDeviceIDs of pkg/plugin/topologyfit/selection.go: the dispatch over topology modes,
 what a selection promises in each mode, and how feasibility behaves.
 */
module Selection {
  import opened Orders
  import opened Api
  import opened Topology
  import opened SnapshotProperties
  import opened Paths
  import opened Cliques
  import opened Connectivity
  import opened Groups

  predicate QualifiesFabricLink(l: Link, policy: PolicySpec) {
    && !l.kind.PCIe?
    && (l.health.Healthy? || (policy.allowUnknownTopology && l.health.UnknownHealth?))
    && l.bandwidthGBps >= policy.minimumLinkBandwidthGBps
    && l.hops <= policy.maxFabricHops
  }

  predicate Qualified(s: Snapshot, policy: PolicySpec, a: string, b: string) {
    var l := LinkBetween(s, a, b);
    l.Some? && QualifiesFabricLink(l.value, policy)
  }

  /** The graph whose edges are the qualifying links. */
  function Fabric(s: Snapshot, policy: PolicySpec): Graph {
    (a, b) => Qualified(s, policy, a, b)
  }

  lemma FabricSymmetric(s: Snapshot, policy: PolicySpec)
    requires Built(s)
    ensures Symmetric(Fabric(s, policy))
  {
    forall a, b | Qualified(s, policy, a, b)
      ensures Qualified(s, policy, b, a)
    {
      LinkBetweenSymmetric(s, a, b);
    }
  }

  function Select(s: Snapshot, devices: seq<Device>, policy: PolicySpec, requested: int): seq<string> {
    if requested < 1 || |devices| < requested then []
    else match policy.topologyMode
      case BestEffort => FirstIds(devices, requested)
      case SingleNUMA => GroupSelection(devices, NumaLabel(policy.allowUnknownTopology), requested)
      case SamePCIeRoot => GroupSelection(devices, RootLabel(policy.allowUnknownTopology), requested)
      case FabricClique => LeastClique(Fabric(s, policy), requested, [], IdList(devices))
      case FabricConnected => FirstConnected(Fabric(s, policy), IdList(devices), requested, IdList(devices))
      case OtherMode(_) => []
  }

  method SelectDeviceIds(s: Snapshot, devices: seq<Device>, policy: PolicySpec, requested: int) returns (r: seq<string>)
    ensures r == Select(s, devices, policy, requested)
  {
    if requested < 1 || |devices| < requested {
      return [];
    }
    match policy.topologyMode {
      case BestEffort => r := FirstIds(devices, requested);
      case SingleNUMA => r := SelectDeviceGroup(devices, NumaLabel(policy.allowUnknownTopology), requested);
      case SamePCIeRoot => r := SelectDeviceGroup(devices, RootLabel(policy.allowUnknownTopology), requested);
      case FabricClique => r := SelectFabricClique(Fabric(s, policy), IdList(devices), requested);
      case FabricConnected => r := SelectFabricConnected(Fabric(s, policy), IdList(devices), requested);
      case OtherMode(_) => r := [];
    }
  }

  // ----- what a selection promises -----

  /** The devices that the scheduler chooses from: some of the snapshot's, still in ID order. */
  ghost predicate Offered(s: Snapshot, devices: seq<Device>) {
    Ascending(IdList(devices)) && forall d :: d in devices ==> d in s.devices
  }

  /** All chosen devices carry the same label. */
  ghost predicate OneGroup(devices: seq<Device>, key: Key<string>, ids: set<string>) {
    exists x :: AllLabelled(devices, key, ids, x)
  }

  ghost predicate AllLabelled(devices: seq<Device>, key: Key<string>, ids: set<string>, x: string) {
    forall d :: d in devices && d.id in ids ==> key(d) == Some(x)
  }

  /** All on one NUMA node, or all on unknown nodes if that is allowed. */
  ghost predicate OneNode(devices: seq<Device>, allowUnknown: bool, ids: set<string>) {
    && (forall d :: d in devices && d.id in ids && d.numaNode.None? ==> allowUnknown)
    && (forall d, e :: d in devices && e in devices && d.id in ids && e.id in ids ==> d.numaNode == e.numaNode)
  }

  /** All on one PCIe root, or all without a root if that is allowed. */
  ghost predicate OneRoot(devices: seq<Device>, allowUnknown: bool, ids: set<string>) {
    && (forall d :: d in devices && d.id in ids && d.pcieRoot == "" ==> allowUnknown)
    && (forall d, e :: d in devices && e in devices && d.id in ids && e.id in ids ==> d.pcieRoot == e.pcieRoot)
  }

  /** Only devices without a root, or on a root whose name is the label given to those. */
  ghost predicate OnlyUnknownRoots(devices: seq<Device>, ids: set<string>) {
    forall d :: d in devices && d.id in ids ==> d.pcieRoot == "" || d.pcieRoot == UNKNOWN
  }

  /** What a policy's topology mode asks of the chosen devices, with the one liberty that same-root takes. */
  ghost predicate MeetsMode(s: Snapshot, devices: seq<Device>, policy: PolicySpec, ids: set<string>) {
    match policy.topologyMode
    case BestEffort => true
    case SingleNUMA => OneNode(devices, policy.allowUnknownTopology, ids)
    case SamePCIeRoot =>
      || OneRoot(devices, policy.allowUnknownTopology, ids)
      || (policy.allowUnknownTopology && OnlyUnknownRoots(devices, ids))
    case FabricClique => CliqueSet(Fabric(s, policy), ids)
    case FabricConnected => ConnectedSet(Fabric(s, policy), ids)
    case OtherMode(_) => false
  }

  lemma IdsListed(devices: seq<Device>)
    ensures Elements(IdList(devices)) == IdsOf(devices)
  {
    forall id
      ensures id in IdList(devices) <==> id in IdsOf(devices)
    {
      if id in IdList(devices) {
        var i :| 0 <= i < |devices| && IdList(devices)[i] == id;
        assert devices[i] in devices;
      }
      if id in IdsOf(devices) {
        var d :| d in devices && d.id == id;
        var i :| 0 <= i < |devices| && devices[i] == d;
        assert IdList(devices)[i] == id;
      }
    }
  }

  lemma PrefixIds(devices: seq<Device>, k: nat)
    requires k <= |devices| && Ascending(IdList(devices))
    ensures Distinct(FirstIds(devices, k)) && Elements(FirstIds(devices, k)) <= IdsOf(devices)
  {
    AscendingDistinct(IdList(devices));
    assert FirstIds(devices, k) == IdList(devices)[..k];
    IdsListed(devices);
  }

  lemma FilterAscending(devices: seq<Device>, keep: Device -> bool)
    requires Ascending(IdList(devices))
    ensures Ascending(IdList(Filter(devices, keep)))
  {
    var byId := (d: Device, e: Device) => Less(d.id, e.id);
    forall i, j | 0 <= i < j < |devices|
      ensures byId(devices[i], devices[j])
    {
      assert Less(IdList(devices)[i], IdList(devices)[j]);
    }
    FilterSorted(devices, keep, byId);
    var m := Filter(devices, keep);
    forall i, j | 0 <= i < j < |m|
      ensures Less(IdList(m)[i], IdList(m)[j])
    {
      assert byId(m[i], m[j]);
    }
  }

  lemma MembersAscending<K(!new)>(devices: seq<Device>, key: Key<K>, x: K)
    requires Ascending(IdList(devices))
    ensures Ascending(IdList(Members(devices, key, x)))
    ensures forall d :: d in Members(devices, key, x) <==> d in devices && key(d) == Some(x)
  {
    FilterAscending(devices, HasKey(key, x));
    FilterExact(devices, HasKey(key, x));
  }

  lemma SameId(devices: seq<Device>, d: Device, e: Device)
    requires Ascending(IdList(devices)) && d in devices && e in devices && d.id == e.id
    ensures d == e
  {
    var i :| 0 <= i < |devices| && devices[i] == d;
    var j :| 0 <= j < |devices| && devices[j] == e;
    AscendingDistinct(IdList(devices));
    assert IdList(devices)[i] == IdList(devices)[j];
  }

  lemma GroupSelectionSound(devices: seq<Device>, key: Key<string>, k: nat)
    requires k >= 1 && Ascending(IdList(devices)) && GroupSelection(devices, key, k) != []
    ensures var r := GroupSelection(devices, key, k);
            |r| == k && Distinct(r) && Elements(r) <= IdsOf(devices) && OneGroup(devices, key, Elements(r))
    ensures var best := BestKey(devices, key, k, |devices|);
            best.Some? && AllLabelled(devices, key, Elements(GroupSelection(devices, key, k)), best.value)
  {
    BestKeyIsBestFit(devices, key, k);
    var x := BestKey(devices, key, k, |devices|).value;
    var group := Members(devices, key, x);
    MembersAscending(devices, key, x);
    PrefixIds(group, k);
    var r := GroupSelection(devices, key, k);
    assert r == FirstIds(group, k);
    assert IdsOf(group) <= IdsOf(devices);
    forall d | d in devices && d.id in Elements(r)
      ensures key(d) == Some(x)
    {
      assert d.id in IdsOf(group);
      var e :| e in group && e.id == d.id;
      SameId(devices, d, e);
    }
    assert AllLabelled(devices, key, Elements(r), x);
  }

  /**
   Whatever is selected has exactly the requested size, no repetition, only offered devices,
   and meets the policy's topology mode on the snapshot.
   */
  lemma SelectionSound(s: Snapshot, devices: seq<Device>, policy: PolicySpec, requested: int)
    requires Built(s) && Offered(s, devices) && Select(s, devices, policy, requested) != []
    ensures var r := Select(s, devices, policy, requested);
            && |r| == requested && Distinct(r) && Elements(r) <= IdsOf(devices)
            && MeetsMode(s, devices, policy, Elements(r))
  {
    match policy.topologyMode {
      case BestEffort => PrefixIds(devices, requested);
      case SingleNUMA =>
        GroupSelectionSound(devices, NumaLabel(policy.allowUnknownTopology), requested);
        OneNumaNode(devices, policy.allowUnknownTopology, Elements(Select(s, devices, policy, requested)));
      case SamePCIeRoot =>
        GroupSelectionSound(devices, RootLabel(policy.allowUnknownTopology), requested);
        OneRootLabel(devices, policy.allowUnknownTopology, Elements(Select(s, devices, policy, requested)));
      case FabricClique => CliqueSelectionSound(s, devices, policy, requested);
      case FabricConnected => ConnectedSelectionSound(s, devices, policy, requested);
      case OtherMode(_) =>
    }
  }

  lemma CliqueSelectionSound(s: Snapshot, devices: seq<Device>, policy: PolicySpec, k: nat)
    requires Built(s) && Offered(s, devices) && k >= 1
    ensures var r := LeastClique(Fabric(s, policy), k, [], IdList(devices));
            r != [] ==> && |r| == k && Distinct(r) && Elements(r) <= IdsOf(devices)
                        && CliqueSet(Fabric(s, policy), Elements(r))
  {
    IdsListed(devices);
    FabricSymmetric(s, policy);
    CliqueSearchExact(Fabric(s, policy), IdList(devices), k);
    var r := LeastClique(Fabric(s, policy), k, [], IdList(devices));
    if r != [] { AscendingDistinct(r); }
  }

  lemma ConnectedSelectionSound(s: Snapshot, devices: seq<Device>, policy: PolicySpec, k: nat)
    requires Built(s) && Offered(s, devices) && k >= 1
    ensures var r := FirstConnected(Fabric(s, policy), IdList(devices), k, IdList(devices));
            r != [] ==> && |r| == k && Distinct(r) && Elements(r) <= IdsOf(devices)
                        && ConnectedSet(Fabric(s, policy), Elements(r))
  {
    IdsListed(devices);
    FabricSymmetric(s, policy);
    AscendingDistinct(IdList(devices));
    ConnectedSearchExact(Fabric(s, policy), IdList(devices), k);
    var r := FirstConnected(Fabric(s, policy), IdList(devices), k, IdList(devices));
    if r != [] { assert r[..k] == r; }
  }

  /** A single-NUMA selection is a set of devices on one NUMA node, or all of unknown node if that is allowed. */
  lemma OneNumaNode(devices: seq<Device>, allowUnknown: bool, ids: set<string>)
    ensures OneGroup(devices, NumaLabel(allowUnknown), ids) <==> OneNode(devices, allowUnknown, ids)
  {
    NumaLabelsDivideByNode(devices, allowUnknown);
    var key := NumaLabel(allowUnknown);
    if OneNode(devices, allowUnknown, ids) {
      if d :| d in devices && d.id in ids {
        assert AllLabelled(devices, key, ids, key(d).value);
      } else {
        assert AllLabelled(devices, key, ids, "");
      }
    }
    if OneGroup(devices, key, ids) {
      var x :| AllLabelled(devices, key, ids, x);
      forall d, e | d in devices && e in devices && d.id in ids && e.id in ids
        ensures d.numaNode == e.numaNode
      {
        assert key(d) == key(e) && NumaKey(allowUnknown)(d) == NumaKey(allowUnknown)(e);
      }
      forall d | d in devices && d.id in ids && d.numaNode.None?
        ensures allowUnknown
      {
        assert key(d) == Some(x);
      }
    }
  }

  /** Sharing a root label is being on one root, or, if unknown roots are allowed, having only unknown ones. */
  lemma OneRootLabel(devices: seq<Device>, allowUnknown: bool, ids: set<string>)
    ensures OneGroup(devices, RootLabel(allowUnknown), ids) <==>
            OneRoot(devices, allowUnknown, ids) || (allowUnknown && OnlyUnknownRoots(devices, ids))
  {
    var key := RootLabel(allowUnknown);
    if OneRoot(devices, allowUnknown, ids) {
      if d :| d in devices && d.id in ids {
        assert AllLabelled(devices, key, ids, key(d).value);
      } else {
        assert AllLabelled(devices, key, ids, "");
      }
    }
    if allowUnknown && OnlyUnknownRoots(devices, ids) {
      assert AllLabelled(devices, key, ids, UNKNOWN);
    }
  }

  /** A choice that meets same-root mode is on one root exactly when it does not hold both kinds of unknown root. */
  lemma OneRootUnlessBoth(s: Snapshot, devices: seq<Device>, policy: PolicySpec, ids: set<string>)
    requires policy.topologyMode.SamePCIeRoot? && MeetsMode(s, devices, policy, ids)
    ensures OneRoot(devices, policy.allowUnknownTopology, ids) <==>
            !(&& (exists d :: d in devices && d.id in ids && d.pcieRoot == "")
              && (exists e :: e in devices && e.id in ids && e.pcieRoot == UNKNOWN))
  {
  }

  // ----- feasibility is monotone -----

  ghost predicate Feasible(s: Snapshot, devices: seq<Device>, policy: PolicySpec, requested: int) {
    Select(s, devices, policy, requested) != []
  }

  lemma FilterMonotone(xs: seq<Device>, ys: seq<Device>, keep: Device -> bool)
    requires Ascending(IdList(xs)) && Ascending(IdList(ys)) && forall d :: d in xs ==> d in ys
    ensures |Filter(xs, keep)| <= |Filter(ys, keep)|
  {
    var p, q := Filter(xs, keep), Filter(ys, keep);
    FilterExact(xs, keep);
    FilterExact(ys, keep);
    DevicesDistinct(xs);
    DevicesDistinct(ys);
    FilterSorted(xs, keep, (d, e) => d != e);
    FilterSorted(ys, keep, (d, e) => d != e);
    DistinctSize(p);
    DistinctSize(q);
    assert Elements(p) <= Elements(q);
    SubsetSize(Elements(p), Elements(q));
  }

  lemma DevicesDistinct(xs: seq<Device>)
    requires Ascending(IdList(xs))
    ensures Distinct(xs)
  {
    AscendingDistinct(IdList(xs));
    forall i, j | 0 <= i < j < |xs|
      ensures xs[i] != xs[j]
    {
      assert IdList(xs)[i] != IdList(xs)[j];
    }
  }

  lemma GroupsMonotone(xs: seq<Device>, ys: seq<Device>, key: Key<string>, k: nat, j: nat)
    requires Ascending(IdList(xs)) && Ascending(IdList(ys)) && (forall d :: d in xs ==> d in ys)
    requires 1 <= j <= k && GroupSelection(xs, key, k) != []
    ensures GroupSelection(ys, key, j) != []
  {
    GroupSelectionBestFit(xs, key, k);
    GroupSelectionBestFit(ys, key, j);
    var x :| |Members(xs, key, x)| >= k;
    FilterMonotone(xs, ys, HasKey(key, x));
    assert |Members(ys, key, x)| >= j;
  }

  lemma SmallerSet(s: set<string>, j: nat) returns (t: set<string>)
    requires j <= |s|
    ensures t <= s && |t| == j
  {
    t := s;
    while |t| > j
      invariant t <= s && |t| >= j
    {
      var x :| x in t;
      t := t - {x};
    }
  }

  lemma CliquesMonotone(g: Graph, xs: seq<string>, ys: seq<string>, k: nat, j: nat)
    requires Symmetric(g) && Ascending(xs) && Ascending(ys) && Elements(xs) <= Elements(ys)
    requires 1 <= j <= k && LeastClique(g, k, [], xs) != []
    ensures LeastClique(g, j, [], ys) != []
  {
    CliqueSearchExact(g, xs, k);
    CliqueSearchExact(g, ys, j);
    var s :| |s| == k && s <= Elements(xs) && CliqueSet(g, s);
    var t := SmallerSet(s, j);
    assert |t| == j && t <= Elements(ys) && CliqueSet(g, t);
  }

  lemma ConnectedMonotone(g: Graph, xs: seq<string>, ys: seq<string>, k: nat, j: nat)
    requires Symmetric(g) && Distinct(xs) && Distinct(ys) && Elements(xs) <= Elements(ys)
    requires 1 <= j <= k && FirstConnected(g, xs, k, xs) != []
    ensures FirstConnected(g, ys, j, ys) != []
  {
    ConnectedSearchFindsSets(g, xs, k);
    ConnectedSearchFindsSets(g, ys, j);
    var s :| |s| >= k && s <= Elements(xs) && ConnectedSet(g, s);
    assert |s| >= j && s <= Elements(ys) && ConnectedSet(g, s);
  }

  lemma MoreDevices(xs: seq<Device>, ys: seq<Device>)
    requires Ascending(IdList(xs)) && Ascending(IdList(ys)) && forall d :: d in xs ==> d in ys
    ensures |xs| <= |ys| && Elements(IdList(xs)) <= Elements(IdList(ys))
  {
    DevicesDistinct(xs);
    DevicesDistinct(ys);
    DistinctSize(xs);
    DistinctSize(ys);
    assert Elements(xs) <= Elements(ys);
    SubsetSize(Elements(xs), Elements(ys));
    IdsListed(xs);
    IdsListed(ys);
  }

  /** In every mode, a smaller request over no fewer devices stays feasible. */
  lemma FeasibilityMonotone(s: Snapshot, xs: seq<Device>, ys: seq<Device>, policy: PolicySpec, k: int, j: int)
    requires Built(s) && Offered(s, xs) && Offered(s, ys) && (forall d :: d in xs ==> d in ys)
    requires 1 <= j <= k && Feasible(s, xs, policy, k)
    ensures Feasible(s, ys, policy, j)
  {
    var g := Fabric(s, policy);
    assert |xs| <= |ys| && Elements(IdList(xs)) <= Elements(IdList(ys)) by {
      MoreDevices(xs, ys);
    }
    assert Distinct(IdList(xs)) && Distinct(IdList(ys)) by {
      AscendingDistinct(IdList(xs));
      AscendingDistinct(IdList(ys));
    }
    FabricSymmetric(s, policy);
    match policy.topologyMode {
      case BestEffort =>
      case SingleNUMA => GroupsMonotone(xs, ys, NumaLabel(policy.allowUnknownTopology), k, j);
      case SamePCIeRoot => GroupsMonotone(xs, ys, RootLabel(policy.allowUnknownTopology), k, j);
      case FabricClique => CliquesMonotone(g, IdList(xs), IdList(ys), k, j);
      case FabricConnected => ConnectedMonotone(g, IdList(xs), IdList(ys), k, j);
      case OtherMode(_) =>
    }
  }

  lemma CliqueIsConnected(g: Graph, s: set<string>)
    requires CliqueSet(g, s)
    ensures ConnectedSet(g, s)
  {
    forall a, b | a in s && b in s
      ensures Reachable(g, s, a, b)
    {
      ReachSelf(g, s, a);
      if a != b { ReachStep(g, s, a, a, b); }
    }
  }

  lemma SameFabric(s: Snapshot, policy: PolicySpec, mode: TopologyMode, sub: set<string>)
    ensures CliqueSet(Fabric(s, policy.(topologyMode := mode)), sub) <==> CliqueSet(Fabric(s, policy), sub)
  {
    var g, h := Fabric(s, policy), Fabric(s, policy.(topologyMode := mode));
    assert forall a, b :: g(a, b) <==> h(a, b);
  }

  lemma CliqueFeasibleConnected(s: Snapshot, devices: seq<Device>, clique: PolicySpec, k: int)
    requires Built(s) && Offered(s, devices) && clique.topologyMode.FabricClique? && Feasible(s, devices, clique, k)
    ensures Feasible(s, devices, clique.(topologyMode := FabricConnected), k)
  {
    var h := Fabric(s, clique.(topologyMode := FabricConnected));
    var ids := IdList(devices);
    var r := Elements(Select(s, devices, clique, k));
    CliqueChosen(s, devices, clique, k);
    assert ConnectedSet(h, r) by {
      SameFabric(s, clique, FabricConnected, r);
      CliqueIsConnected(h, r);
    }
    assert r <= Elements(ids) by {
      IdsListed(devices);
    }
    assert Distinct(ids) by {
      AscendingDistinct(ids);
    }
    FabricSymmetric(s, clique.(topologyMode := FabricConnected));
    SetIsFound(h, ids, r, k);
  }

  lemma CliqueChosen(s: Snapshot, devices: seq<Device>, clique: PolicySpec, k: int)
    requires Built(s) && Offered(s, devices) && clique.topologyMode.FabricClique? && Feasible(s, devices, clique, k)
    ensures var r := Elements(Select(s, devices, clique, k));
            1 <= k == |r| && r <= IdsOf(devices) && CliqueSet(Fabric(s, clique), r)
  {
    CliqueSelectionSound(s, devices, clique, k);
    DistinctSize(Select(s, devices, clique, k));
  }

  lemma SetIsFound(g: Graph, ids: seq<string>, r: set<string>, k: nat)
    requires k >= 1 && Symmetric(g) && Distinct(ids)
    requires |r| >= k && r <= Elements(ids) && ConnectedSet(g, r)
    ensures FirstConnected(g, ids, k, ids) != []
  {
    ConnectedSearchFindsSets(g, ids, k);
  }

  /** A feasible clique request is feasible as a connected request, and that as a best-effort request. */
  lemma ModesWeaken(s: Snapshot, devices: seq<Device>, policy: PolicySpec, k: int)
    requires Built(s) && Offered(s, devices)
    ensures Feasible(s, devices, policy.(topologyMode := FabricClique), k) ==>
              Feasible(s, devices, policy.(topologyMode := FabricConnected), k)
    ensures Feasible(s, devices, policy.(topologyMode := FabricConnected), k) ==>
              Feasible(s, devices, policy.(topologyMode := BestEffort), k)
  {
    var clique := policy.(topologyMode := FabricClique);
    if Feasible(s, devices, clique, k) {
      CliqueFeasibleConnected(s, devices, clique, k);
      assert clique.(topologyMode := FabricConnected) == policy.(topologyMode := FabricConnected);
    }
  }

  // ----- edges -----

  /** The link that the spec reports between two devices: the one of greatest type. */
  ghost predicate Reported(spec: TopologySpec, a: string, b: string, l: Link) {
    && l in spec.links && Joins(l, a, b)
    && forall m :: m in spec.links && Joins(m, a, b) ==> AtMost(LinkTypeName(m.kind), LinkTypeName(l.kind))
  }

  /** What a policy asks of a link, field by field. */
  ghost predicate EdgeLink(policy: PolicySpec, l: Link) {
    && l.kind != PCIe
    && (l.health == Healthy || (l.health == UnknownHealth && policy.allowUnknownTopology))
    && policy.minimumLinkBandwidthGBps <= l.bandwidthGBps && l.hops <= policy.maxFabricHops
  }

  /**
   Two devices are joined by an edge exactly if the link of greatest type between them is a
   fabric link, is healthy, or of unknown health where that is allowed, and keeps to the
   policy's bandwidth and hop limits.
   */
  lemma EdgesAreQualifyingLinks(spec: TopologySpec, s: Snapshot, policy: PolicySpec, a: string, b: string)
    requires Acceptable(spec) && Represents(spec, s)
    ensures Fabric(s, policy)(a, b) <==> exists l :: Reported(spec, a, b, l) && EdgeLink(policy, l)
  {
    if LinkBetween(s, a, b).Some? {
      var l := ReportedExists(spec, s, a, b);
      QualifiesByFields(l, policy, a, b);
      assert Qualified(s, policy, a, b) ==> EdgeLink(policy, l);
    }
    if l :| Reported(spec, a, b, l) && EdgeLink(policy, l) {
      ReportedIsFound(spec, s, a, b, l);
      QualifiesByFields(l, policy, a, b);
    }
  }

  lemma QualifiesByFields(l: Link, policy: PolicySpec, a: string, b: string)
    ensures QualifiesFabricLink(Oriented(l, a, b), policy) <==> EdgeLink(policy, l)
  {
  }

  lemma ReportedExists(spec: TopologySpec, s: Snapshot, a: string, b: string) returns (l: Link)
    requires Acceptable(spec) && Represents(spec, s) && LinkBetween(s, a, b).Some?
    ensures Reported(spec, a, b, l) && LinkBetween(s, a, b) == Some(Oriented(l, a, b))
  {
    l := GreatestLink(spec, s, a, b);
  }

  lemma ReportedIsFound(spec: TopologySpec, s: Snapshot, a: string, b: string, l: Link)
    requires Acceptable(spec) && Represents(spec, s) && Reported(spec, a, b, l)
    ensures LinkBetween(s, a, b) == Some(Oriented(l, a, b))
  {
    LinkFound(spec, s, l, a, b);
    var k := ReportedExists(spec, s, a, b);
    OneOfType(spec, a, b, l, k);
  }

  /** Links of one type between two devices are one link. */
  lemma OneOfType(spec: TopologySpec, a: string, b: string, l: Link, m: Link)
    requires Acceptable(spec) && Reported(spec, a, b, l) && Reported(spec, a, b, m)
    ensures l == m
  {
    assert LinkKey(l) == LinkKey(m) by {
      assert AtMost(LinkTypeName(l.kind), LinkTypeName(m.kind)) && AtMost(LinkTypeName(m.kind), LinkTypeName(l.kind));
      KeyOrderIsTypeOrder(l, m, a, b);
      KeyOrderIsTypeOrder(m, l, a, b);
      LessTotal(LinkKey(l), LinkKey(m));
    }
    OneOfKey(spec.links, l, m);
  }

  lemma OneOfKey(links: seq<Link>, l: Link, m: Link)
    requires DistinctKeys(links, LinkKey) && l in links && m in links && LinkKey(l) == LinkKey(m)
    ensures l == m
  {
    var i :| 0 <= i < |links| && links[i] == l;
    var j :| 0 <= j < |links| && links[j] == m;
  }

  // ----- selection is complete -----

  /** Devices that carry one label are no more than the group of that label. */
  lemma GroupHolds(devices: seq<Device>, key: Key<string>, ids: set<string>)
    requires Ascending(IdList(devices)) && ids <= IdsOf(devices) && ids != {} && OneGroup(devices, key, ids)
    ensures exists x :: |Members(devices, key, x)| >= |ids|
  {
    var x :| AllLabelled(devices, key, ids, x);
    var group := Members(devices, key, x);
    MembersAscending(devices, key, x);
    forall id | id in ids
      ensures id in IdsOf(group)
    {
      var d :| d in devices && d.id == id;
      assert d in group;
    }
    IdsListed(group);
    AscendingDistinct(IdList(group));
    DistinctSize(IdList(group));
    SubsetSize(ids, IdsOf(group));
  }

  lemma GroupModeComplete(devices: seq<Device>, key: Key<string>, k: nat)
    requires k >= 1 && Ascending(IdList(devices))
    ensures GroupSelection(devices, key, k) != [] <==>
            exists ids :: |ids| == k && ids <= IdsOf(devices) && OneGroup(devices, key, ids)
  {
    GroupSelectionBestFit(devices, key, k);
    if GroupSelection(devices, key, k) != [] {
      GroupSelectionSound(devices, key, k);
      DistinctSize(GroupSelection(devices, key, k));
      var ids := Elements(GroupSelection(devices, key, k));
      assert |ids| == k && ids <= IdsOf(devices) && OneGroup(devices, key, ids);
    }
    if ids :| |ids| == k && ids <= IdsOf(devices) && OneGroup(devices, key, ids) {
      GroupHolds(devices, key, ids);
    }
  }

  ghost predicate SomeSetMeets(s: Snapshot, devices: seq<Device>, policy: PolicySpec, k: int) {
    exists ids :: |ids| == k && ids <= IdsOf(devices) && MeetsMode(s, devices, policy, ids)
  }

  /** In every mode, a positive request is served exactly if some set of that many offered devices meets the mode. */
  lemma SelectionComplete(s: Snapshot, devices: seq<Device>, policy: PolicySpec, k: int)
    requires Built(s) && Offered(s, devices)
    ensures Feasible(s, devices, policy, k) <==> k >= 1 && SomeSetMeets(s, devices, policy, k)
    ensures k >= 1 && SomeSetMeets(s, devices, policy, k) ==> k <= |devices|
  {
    if Feasible(s, devices, policy, k) {
      SelectionSound(s, devices, policy, k);
      DistinctSize(Select(s, devices, policy, k));
      var ids := Elements(Select(s, devices, policy, k));
      assert |ids| == k && ids <= IdsOf(devices) && MeetsMode(s, devices, policy, ids);
    }
    if ids :| k >= 1 && |ids| == k && ids <= IdsOf(devices) && MeetsMode(s, devices, policy, ids) {
      FewIds(devices, ids);
      ModeServed(s, devices, policy, k, ids);
    }
  }

  lemma FewIds(devices: seq<Device>, ids: set<string>)
    requires Ascending(IdList(devices)) && ids <= IdsOf(devices)
    ensures |ids| <= |devices|
  {
    IdsListed(devices);
    AscendingDistinct(IdList(devices));
    DistinctSize(IdList(devices));
    SubsetSize(ids, IdsOf(devices));
  }

  lemma ModeServed(s: Snapshot, devices: seq<Device>, policy: PolicySpec, k: nat, ids: set<string>)
    requires Built(s) && Offered(s, devices) && 1 <= k <= |devices|
    requires |ids| == k && ids <= IdsOf(devices) && MeetsMode(s, devices, policy, ids)
    ensures Feasible(s, devices, policy, k)
  {
    match policy.topologyMode {
      case BestEffort =>
      case SingleNUMA =>
        OneNumaNode(devices, policy.allowUnknownTopology, ids);
        GroupModeComplete(devices, NumaLabel(policy.allowUnknownTopology), k);
      case SamePCIeRoot =>
        OneRootLabel(devices, policy.allowUnknownTopology, ids);
        GroupModeComplete(devices, RootLabel(policy.allowUnknownTopology), k);
      case FabricClique => CliqueServed(s, devices, policy, k, ids);
      case FabricConnected => ConnectedServed(s, devices, policy, k, ids);
    }
  }

  lemma CliqueServed(s: Snapshot, devices: seq<Device>, policy: PolicySpec, k: nat, ids: set<string>)
    requires Built(s) && Offered(s, devices) && k >= 1
    requires |ids| == k && ids <= IdsOf(devices) && CliqueSet(Fabric(s, policy), ids)
    ensures LeastClique(Fabric(s, policy), k, [], IdList(devices)) != []
  {
    IdsListed(devices);
    FabricSymmetric(s, policy);
    CliqueSearchExact(Fabric(s, policy), IdList(devices), k);
  }

  lemma ConnectedServed(s: Snapshot, devices: seq<Device>, policy: PolicySpec, k: nat, ids: set<string>)
    requires Built(s) && Offered(s, devices) && k >= 1
    requires |ids| == k && ids <= IdsOf(devices) && ConnectedSet(Fabric(s, policy), ids)
    ensures FirstConnected(Fabric(s, policy), IdList(devices), k, IdList(devices)) != []
  {
    IdsListed(devices);
    AscendingDistinct(IdList(devices));
    FabricSymmetric(s, policy);
    SetIsFound(Fabric(s, policy), IdList(devices), ids, k);
  }

  // ----- the first devices are chosen -----

  lemma FirstAreSmallest(devices: seq<Device>, k: nat, d: Device, e: Device)
    requires Ascending(IdList(devices)) && k <= |devices| && d in devices && e in devices
    requires d.id in FirstIds(devices, k) && e.id !in FirstIds(devices, k)
    ensures Less(d.id, e.id)
  {
    var ids := IdList(devices);
    var first := FirstIds(devices, k);
    var i :| 0 <= i < k && first[i] == d.id;
    assert ids[i] == d.id;
    var j :| 0 <= j < |devices| && devices[j] == e;
    assert ids[j] == e.id && forall h :: 0 <= h < k ==> first[h] == ids[h];
    assert Less(ids[i], ids[j]);
  }

  /**
   Best-effort and group selections take the smallest IDs: a chosen device precedes every
   offered one that is left out, or, in a group mode, every one of its own group.
   */
  lemma SmallestIdsChosen(s: Snapshot, devices: seq<Device>, policy: PolicySpec, k: int, d: Device, e: Device)
    requires Offered(s, devices) && Feasible(s, devices, policy, k) && d in devices && e in devices
    requires d.id in Select(s, devices, policy, k) && e.id !in Select(s, devices, policy, k)
    ensures policy.topologyMode.BestEffort? ==> Less(d.id, e.id)
    ensures policy.topologyMode.SingleNUMA? && d.numaNode == e.numaNode ==> Less(d.id, e.id)
    ensures policy.topologyMode.SamePCIeRoot? && d.pcieRoot == e.pcieRoot ==> Less(d.id, e.id)
  {
    match policy.topologyMode {
      case BestEffort => FirstAreSmallest(devices, k, d, e);
      case SingleNUMA =>
        if d.numaNode == e.numaNode { GroupSmallest(devices, NumaLabel(policy.allowUnknownTopology), k, d, e); }
      case SamePCIeRoot =>
        if d.pcieRoot == e.pcieRoot { GroupSmallest(devices, RootLabel(policy.allowUnknownTopology), k, d, e); }
      case _ =>
    }
  }

  lemma GroupSmallest(devices: seq<Device>, key: Key<string>, k: nat, d: Device, e: Device)
    requires k >= 1 && Ascending(IdList(devices)) && GroupSelection(devices, key, k) != []
    requires d in devices && e in devices && key(d) == key(e)
    requires d.id in GroupSelection(devices, key, k) && e.id !in GroupSelection(devices, key, k)
    ensures Less(d.id, e.id)
  {
    GroupSelectionSound(devices, key, k);
    var x := BestKey(devices, key, k, |devices|).value;
    var group := Members(devices, key, x);
    MembersAscending(devices, key, x);
    assert d.id in Elements(GroupSelection(devices, key, k));
    assert d in group && e in group;
    BestKeyIsBestFit(devices, key, k);
    FirstAreSmallest(group, k, d, e);
  }
}
