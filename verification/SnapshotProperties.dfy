/**
 What Build promises about every snapshot: it is canonical, its indexes agree with linear
 scans, and LinkBetween is a symmetric view of the spec's links.
 */
module SnapshotProperties {
  import opened Orders
  import opened Api
  import opened Topology

  /** The snapshots that exist at run time. */
  ghost predicate Built(s: Snapshot) {
    exists spec :: Acceptable(spec) && Represents(spec, s)
  }

  // ----- canonicity -----

  /** y lists the devices of x in some order, and its links in some order, each possibly reversed. */
  ghost predicate Rewritten(x: TopologySpec, y: TopologySpec, turned: seq<Link>) {
    && x.nodeName == y.nodeName
    && x.observedGeneration == y.observedGeneration
    && multiset(x.devices) == multiset(y.devices)
    && |turned| == |x.links|
    && (forall i :: 0 <= i < |turned| ==> turned[i] == x.links[i] || turned[i] == Reversed(x.links[i]))
    && multiset(turned) == multiset(y.links)
  }

  lemma CanonicalReversed(l: Link)
    ensures Canonical(Reversed(l)) == Canonical(l)
  {
    if Less(l.target, l.source) {
      LessAsymmetric(l.target, l.source);
    } else {
      LessTotal(l.source, l.target);
    }
  }

  lemma RewrittenIsSame(x: TopologySpec, y: TopologySpec, turned: seq<Link>)
    requires Rewritten(x, y, turned)
    ensures SameTopology(x, y)
  {
    forall i | 0 <= i < |turned|
      ensures Canonicals(turned)[i] == Canonicals(x.links)[i]
    {
      CanonicalReversed(x.links[i]);
    }
    assert Canonicals(turned) == Canonicals(x.links);
    CanonicalsPermutation(turned, y.links);
  }

  lemma SameAcceptance(x: TopologySpec, y: TopologySpec)
    requires SameTopology(x, y) && Acceptable(x)
    ensures Acceptable(y)
  {
    PermutedDevices(x.devices, y.devices);
    SameLength(x.devices, y.devices);
    var ids := IdsOf(x.devices);
    assert LinksAccepted(x.links, ids);
    CanonicalsAccepted(x.links, ids);
    PermutedLinks(Canonicals(x.links), Canonicals(y.links));
    assert LinksAccepted(Canonicals(y.links), ids);
    CanonicalsAccepted(y.links, ids);
  }

  lemma IdsAntisymmetric(devices: seq<Device>)
    requires DistinctKeys(devices, DeviceId)
    ensures Antisymmetric(devices, ById)
  {
    forall x, y | x in devices && y in devices && ById(x, y) && ById(y, x)
      ensures x == y
    {
      LessTotal(x.id, y.id);
      var i :| 0 <= i < |devices| && devices[i] == x;
      var j :| 0 <= j < |devices| && devices[j] == y;
      assert DeviceId(devices[i]) == DeviceId(devices[j]);
    }
  }

  lemma KeysAntisymmetric(links: seq<Link>)
    requires DistinctKeys(links, LinkKey)
    ensures Antisymmetric(links, ByKey)
  {
    forall x, y | x in links && y in links && ByKey(x, y) && ByKey(y, x)
      ensures x == y
    {
      LessTotal(LinkKey(x), LinkKey(y));
      var i :| 0 <= i < |links| && links[i] == x;
      var j :| 0 <= j < |links| && links[j] == y;
      assert LinkKey(links[i]) == LinkKey(links[j]);
    }
  }

  lemma SnapshotLinksDistinct(spec: TopologySpec, s: Snapshot)
    requires Acceptable(spec) && Represents(spec, s)
    ensures LinksAccepted(s.links, IdsOf(s.devices))
  {
    PermutedDevices(spec.devices, s.devices);
    assert LinksAccepted(spec.links, IdsOf(spec.devices));
    CanonicalsAccepted(spec.links, IdsOf(spec.devices));
    PermutedLinks(Canonicals(spec.links), s.links);
  }

  lemma SameIndex<K(!new)>(x: map<K, seq<int>>, y: map<K, seq<int>>, devices: seq<Device>, key: Device -> Option<K>,
                           n: nat)
    requires n <= |devices| && Indexes(x, devices, key, n) && Indexes(y, devices, key, n)
    ensures x == y
  {
    forall k
      ensures k in x <==> k in y
      ensures k in x ==> x[k] == y[k]
    {
      assert Entries(x, k) == Entries(y, k);
    }
    assert x.Keys == y.Keys;
  }

  lemma SameAdjacency(x: map<string, map<string, Link>>, y: map<string, map<string, Link>>, ids: set<string>,
                      links: seq<Link>)
    requires Adjoins(x, ids, links, |links|) && Adjoins(y, ids, links, |links|)
    ensures x == y
  {
    forall a | a in ids
      ensures x[a] == y[a]
    {
      forall b
        ensures b in x[a] <==> b in y[a]
        ensures b in x[a] ==> x[a][b] == y[a][b]
      {
        assert Lookup(x, a, b) == Lookup(y, a, b);
      }
      assert x[a].Keys == y[a].Keys;
    }
  }

  lemma SameDeviceIndex(x: map<string, int>, y: map<string, int>, devices: seq<Device>)
    requires x.Keys == IdsOf(devices) == y.Keys
    requires forall i :: 0 <= i < |devices| ==> devices[i].id in x && x[devices[i].id] == i
    requires forall i :: 0 <= i < |devices| ==> devices[i].id in y && y[devices[i].id] == i
    ensures x == y
  {
    forall id | id in x
      ensures x[id] == y[id]
    {
      var d :| d in devices && d.id == id;
      var i :| 0 <= i < |devices| && devices[i] == d;
    }
  }

  lemma SnapshotUnique(x: TopologySpec, y: TopologySpec, s: Snapshot, t: Snapshot)
    requires SameTopology(x, y) && Acceptable(x) && Acceptable(y) && Represents(x, s) && Represents(y, t)
    ensures s == t
  {
    PermutedDevices(x.devices, s.devices);
    IdsAntisymmetric(s.devices);
    SortedUnique(s.devices, t.devices, ById);
    SnapshotLinksDistinct(x, s);
    KeysAntisymmetric(s.links);
    SortedUnique(s.links, t.links, ByKey);
    SameDeviceIndex(s.deviceIndex, t.deviceIndex, s.devices);
    SameIndex(s.numaIndex, t.numaIndex, s.devices, NumaOf, |s.devices|);
    SameIndex(s.pcieRootIndex, t.pcieRootIndex, s.devices, RootOf, |s.devices|);
    SameIndex(s.fabricGroupIndex, t.fabricGroupIndex, s.devices, GroupOf, |s.devices|);
    SameAdjacency(s.adjacency, t.adjacency, IdsOf(s.devices), s.links);
  }

  /**
   Build is canonical: permuting devices or links, or reversing links, gives the same
   snapshot, or a rejection in both cases.
   */
  lemma BuildIsCanonical(x: TopologySpec, y: TopologySpec, turned: seq<Link>)
    requires Rewritten(x, y, turned)
    ensures Acceptable(x) <==> Acceptable(y)
    ensures forall s, t :: Acceptable(x) && Represents(x, s) && Represents(y, t) ==> s == t
  {
    RewrittenIsSame(x, y, turned);
    if Acceptable(x) { SameAcceptance(x, y); }
    if Acceptable(y) { SameAcceptance(y, x); }
    forall s, t | Acceptable(x) && Represents(x, s) && Represents(y, t)
      ensures s == t
    {
      SnapshotUnique(x, y, s, t);
    }
  }

  // ----- indexes and linear scans -----

  function DevicesAt(s: Snapshot, indexes: seq<int>): seq<Device>
    requires forall i :: i in indexes ==> 0 <= i < |s.devices|
  {
    seq(|indexes|, i requires 0 <= i < |indexes| => assert indexes[i] in indexes; s.devices[indexes[i]])
  }

  function HasKey<K(==)>(key: Device -> Option<K>, k: K): Device -> bool {
    d => key(d) == Some(k)
  }

  lemma {:induction false} PositionsScan<K(!new)>(s: Snapshot, key: Device -> Option<K>, k: K, n: nat)
    requires n <= |s.devices|
    ensures forall i :: i in Positions(s.devices, key, k, n) <==> 0 <= i < n && key(s.devices[i]) == Some(k)
    ensures DevicesAt(s, Positions(s.devices, key, k, n)) == Filter(s.devices[..n], HasKey(key, k))
  {
    if n != 0 {
      PositionsScan(s, key, k, n - 1);
      assert s.devices[..n][..n - 1] == s.devices[..n - 1];
      var before := Positions(s.devices, key, k, n - 1);
      var now := Positions(s.devices, key, k, n);
      if key(s.devices[n - 1]) == Some(k) {
        assert DevicesAt(s, now) == DevicesAt(s, before) + [s.devices[n - 1]];
      }
    }
  }

  /** These positions are exactly where a linear scan finds the devices filed under k. */
  ghost predicate Scans<K(!new)>(s: Snapshot, positions: seq<int>, key: Device -> Option<K>, k: K) {
    && (forall i :: i in positions <==> 0 <= i < |s.devices| && key(s.devices[i]) == Some(k))
    && DevicesAt(s, positions) == Filter(s.devices, HasKey(key, k))
  }

  lemma PositionsAreScan<K(!new)>(s: Snapshot, key: Device -> Option<K>, k: K)
    ensures Scans(s, Positions(s.devices, key, k, |s.devices|), key, k)
  {
    PositionsScan(s, key, k, |s.devices|);
    assert s.devices[..|s.devices|] == s.devices;
  }

  lemma IndexScan<K(!new)>(s: Snapshot, index: map<K, seq<int>>, key: Device -> Option<K>, k: K)
    requires Indexes(index, s.devices, key, |s.devices|)
    ensures Scans(s, Entries(index, k), key, k)
  {
    PositionsAreScan(s, key, k);
  }

  /** DevicesByNUMA, DevicesWithUnknownNUMA, DevicesByPCIeRoot and DevicesByFabricGroup are linear scans. */
  lemma IndexesAreScans(spec: TopologySpec, s: Snapshot, numa: int, root: string, group: string)
    requires Represents(spec, s)
    ensures Scans(s, Entries(s.numaIndex, numa), NumaOf, numa)
    ensures Scans(s, s.unknownNUMA, UnknownNumaOf, true)
    ensures Scans(s, Entries(s.pcieRootIndex, root), RootOf, root)
    ensures Scans(s, Entries(s.fabricGroupIndex, group), GroupOf, group)
  {
    IndexScan(s, s.numaIndex, NumaOf, numa);
    IndexScan(s, s.pcieRootIndex, RootOf, root);
    IndexScan(s, s.fabricGroupIndex, GroupOf, group);
    PositionsAreScan(s, UnknownNumaOf, true);
  }

  /** Every device is filed under its own NUMA node or as unknown, and nowhere else. */
  lemma NumaIndexesPartition(spec: TopologySpec, s: Snapshot, i: nat)
    requires Represents(spec, s) && i < |s.devices|
    ensures i in s.unknownNUMA <==> s.devices[i].numaNode.None?
    ensures forall numa :: i in Entries(s.numaIndex, numa) <==> s.devices[i].numaNode == Some(numa)
  {
    PositionsAreScan(s, UnknownNumaOf, true);
    forall numa
      ensures i in Entries(s.numaIndex, numa) <==> s.devices[i].numaNode == Some(numa)
    {
      IndexScan(s, s.numaIndex, NumaOf, numa);
    }
  }

  // ----- LinkBetween -----

  lemma {:induction false} LastJoinReversed(links: seq<Link>, n: nat, a: string, b: string)
    requires n <= |links|
    ensures LastJoin(links, n, a, b).Some? ==>
              LastJoin(links, n, b, a) == Some(Reversed(LastJoin(links, n, a, b).value))
    ensures LastJoin(links, n, a, b).None? ==> LastJoin(links, n, b, a).None?
  {
    if n != 0 { LastJoinReversed(links, n - 1, a, b); }
  }

  lemma {:induction false} LastJoinIndex(links: seq<Link>, n: nat, a: string, b: string) returns (i: nat)
    requires n <= |links| && LastJoin(links, n, a, b).Some?
    ensures i < n && Joins(links[i], a, b) && LastJoin(links, n, a, b) == Some(Oriented(links[i], a, b))
    ensures forall j :: i < j < n ==> !Joins(links[j], a, b)
  {
    if Joins(links[n - 1], a, b) {
      i := n - 1;
    } else {
      i := LastJoinIndex(links, n - 1, a, b);
    }
  }

  /** LinkBetween is symmetric up to the direction in which the link is written. */
  lemma LinkBetweenSymmetric(s: Snapshot, a: string, b: string)
    requires Built(s)
    ensures LinkBetween(s, a, b).None? <==> LinkBetween(s, b, a).None?
    ensures LinkBetween(s, a, b).Some? ==> LinkBetween(s, b, a) == Some(Reversed(LinkBetween(s, a, b).value))
  {
    var spec :| Acceptable(spec) && Represents(spec, s);
    var ids := IdsOf(s.devices);
    SnapshotLinksDistinct(spec, s);
    if LinkBetween(s, a, b).Some? || LinkBetween(s, b, a).Some? {
      EndpointsListed(s, a, b);
      LastJoinReversed(s.links, |s.links|, a, b);
      LastJoinReversed(s.links, |s.links|, b, a);
    }
  }

  lemma EndpointsListed(s: Snapshot, a: string, b: string)
    requires Adjoins(s.adjacency, IdsOf(s.devices), s.links, |s.links|) && LinksAccepted(s.links, IdsOf(s.devices))
    requires LinkBetween(s, a, b).Some? || LinkBetween(s, b, a).Some?
    ensures a in IdsOf(s.devices) && b in IdsOf(s.devices) && a != b
  {
    if LinkBetween(s, a, b).Some? {
      assert Lookup(s.adjacency, a, b) == LastJoin(s.links, |s.links|, a, b);
      var i := LastJoinIndex(s.links, |s.links|, a, b);
      assert s.links[i] in s.links;
    } else {
      assert Lookup(s.adjacency, b, a) == LastJoin(s.links, |s.links|, b, a);
      var i := LastJoinIndex(s.links, |s.links|, b, a);
      assert s.links[i] in s.links;
    }
  }

  lemma CanonicalOf(spec: TopologySpec, s: Snapshot, c: Link) returns (l: Link)
    requires Represents(spec, s) && c in s.links
    ensures l in spec.links && c == Canonical(l)
  {
    SameElements(s.links, Canonicals(spec.links));
    var i :| 0 <= i < |spec.links| && Canonicals(spec.links)[i] == c;
    l := spec.links[i];
  }

  lemma CanonicalListed(spec: TopologySpec, s: Snapshot, l: Link)
    requires Represents(spec, s) && l in spec.links
    ensures Canonical(l) in s.links
  {
    SameElements(s.links, Canonicals(spec.links));
    var i :| 0 <= i < |spec.links| && spec.links[i] == l;
    assert Canonicals(spec.links)[i] == Canonical(l);
  }

  /** Links between the same devices are ordered by the name of their type. */
  lemma KeyOrderIsTypeOrder(x: Link, y: Link, a: string, b: string)
    requires Joins(x, a, b) && Joins(y, a, b)
    ensures ByKey(x, y) <==> AtMost(LinkTypeName(x.kind), LinkTypeName(y.kind))
  {
    var p, q := Canonical(x), Canonical(y);
    assert p.source == q.source && p.target == q.target by {
      LessTotal(a, b);
      if Less(a, b) { LessAsymmetric(a, b); } else if Less(b, a) { LessAsymmetric(b, a); }
    }
    var prefix := p.source + "\0" + p.target + "\0";
    LessAfterPrefix(prefix, LinkTypeName(y.kind), LinkTypeName(x.kind));
  }

  /**
   LinkBetween finds a link exactly when some link of the spec joins the two devices, and
   then it is the one of greatest type among those joining them.
   */
  lemma LinkBetweenGreatest(spec: TopologySpec, s: Snapshot, a: string, b: string)
    requires Acceptable(spec) && Represents(spec, s)
    ensures LinkBetween(s, a, b).Some? <==> exists l :: l in spec.links && Joins(l, a, b)
    ensures LinkBetween(s, a, b).Some? ==>
              exists l :: && l in spec.links && Joins(l, a, b) && LinkBetween(s, a, b) == Some(Oriented(l, a, b))
                          && forall m :: m in spec.links && Joins(m, a, b) ==>
                             AtMost(LinkTypeName(m.kind), LinkTypeName(l.kind))
  {
    if l :| l in spec.links && Joins(l, a, b) {
      LinkFound(spec, s, l, a, b);
    }
    if LinkBetween(s, a, b).Some? {
      var l := GreatestLink(spec, s, a, b);
    }
  }

  lemma LinkFound(spec: TopologySpec, s: Snapshot, l: Link, a: string, b: string)
    requires Acceptable(spec) && Represents(spec, s) && l in spec.links && Joins(l, a, b)
    ensures LinkBetween(s, a, b).Some?
  {
    PermutedDevices(spec.devices, s.devices);
    CanonicalListed(spec, s, l);
    assert Joins(Canonical(l), a, b);
    assert Lookup(s.adjacency, a, b) == LastJoin(s.links, |s.links|, a, b);
  }

  lemma GreatestLink(spec: TopologySpec, s: Snapshot, a: string, b: string) returns (l: Link)
    requires Acceptable(spec) && Represents(spec, s) && LinkBetween(s, a, b).Some?
    ensures l in spec.links && Joins(l, a, b) && LinkBetween(s, a, b) == Some(Oriented(l, a, b))
    ensures forall m :: m in spec.links && Joins(m, a, b) ==> AtMost(LinkTypeName(m.kind), LinkTypeName(l.kind))
  {
    var i := ReportedLink(spec, s, a, b);
    l := CanonicalOf(spec, s, s.links[i]);
    NoneGreater(spec, s, i, a, b);
  }

  lemma NoneGreater(spec: TopologySpec, s: Snapshot, i: nat, a: string, b: string)
    requires Represents(spec, s) && i < |s.links| && Joins(s.links[i], a, b)
    requires forall j :: i < j < |s.links| ==> !Joins(s.links[j], a, b)
    ensures forall m :: m in spec.links && Joins(m, a, b) ==>
              AtMost(LinkTypeName(m.kind), LinkTypeName(s.links[i].kind))
  {
    forall m | m in spec.links && Joins(m, a, b)
      ensures AtMost(LinkTypeName(m.kind), LinkTypeName(s.links[i].kind))
    {
      CanonicalListed(spec, s, m);
      LaterIsGreater(s.links, Canonical(m), i, a, b);
    }
  }

  /** The position of the canonical link that LinkBetween reports: the last one joining the devices. */
  lemma ReportedLink(spec: TopologySpec, s: Snapshot, a: string, b: string) returns (i: nat)
    requires Acceptable(spec) && Represents(spec, s) && LinkBetween(s, a, b).Some?
    ensures i < |s.links| && Joins(s.links[i], a, b) && LinkBetween(s, a, b) == Some(Oriented(s.links[i], a, b))
    ensures forall j :: i < j < |s.links| ==> !Joins(s.links[j], a, b)
  {
    SnapshotLinksDistinct(spec, s);
    EndpointsListed(s, a, b);
    assert Lookup(s.adjacency, a, b) == LastJoin(s.links, |s.links|, a, b);
    i := LastJoinIndex(s.links, |s.links|, a, b);
  }

  lemma LaterIsGreater(links: seq<Link>, m: Link, i: nat, a: string, b: string)
    requires SortedBy(links, ByKey) && m in links && Joins(m, a, b)
    requires i < |links| && Joins(links[i], a, b) && forall j :: i < j < |links| ==> !Joins(links[j], a, b)
    ensures AtMost(LinkTypeName(m.kind), LinkTypeName(links[i].kind))
  {
    var j :| 0 <= j < |links| && links[j] == m;
    if j < i {
      KeyOrderIsTypeOrder(links[j], links[i], a, b);
    } else {
      LessIrreflexive(LinkTypeName(m.kind));
    }
  }

  // ----- what the scheduler relies on -----

  function IdList(devices: seq<Device>): (ids: seq<string>)
    ensures |ids| == |devices|
    ensures forall i :: 0 <= i < |devices| ==> ids[i] == devices[i].id
  {
    seq(|devices|, i requires 0 <= i < |devices| => devices[i].id)
  }

  /** Strictly increasing in Go's string order. */
  ghost predicate Ascending(s: seq<string>) {
    forall i, j :: 0 <= i < j < |s| ==> Less(s[i], s[j])
  }

  lemma AscendingDistinct(s: seq<string>)
    requires Ascending(s)
    ensures Distinct(s)
  {
    forall i, j | 0 <= i < j < |s|
      ensures s[i] != s[j]
    {
      LessIrreflexive(s[i]);
    }
  }

  /** Devices of a snapshot are valid and listed in strictly increasing order of ID. */
  lemma BuiltDevices(s: Snapshot)
    requires Built(s)
    ensures s.nodeName != ""
    ensures Ascending(IdList(s.devices))
    ensures forall d :: d in s.devices ==> ValidDevice(d)
  {
    var spec :| Acceptable(spec) && Represents(spec, s);
    PermutedDevices(spec.devices, s.devices);
    var ids := IdList(s.devices);
    forall i, j | 0 <= i < j < |ids|
      ensures Less(ids[i], ids[j])
    {
      assert ById(s.devices[i], s.devices[j]) && DeviceId(s.devices[i]) != DeviceId(s.devices[j]);
      LessTotal(ids[i], ids[j]);
    }
  }

  /** Validation by field: what makes a device or a link acceptable, and nothing else. */
  lemma ValidationByField(d: Device, l: Link, ids: set<string>)
    ensures ValidDevice(d) <==>
            && "" !in {d.id, d.product} && QualifiedResourceName(d.resourceName)
            && d.vendor in {NVIDIA, Huawei, AMD} && d.health in {Healthy, Unhealthy, UnknownHealth}
            && 0 <= d.memoryMiB && (d.numaNode == None || d.numaNode.value >= 0)
    ensures ValidLink(l, ids) <==>
            && {l.source, l.target} <= ids && l.source != l.target
            && l.kind in {NVLink, HCCS, XGMI, PCIe} && l.health in {Healthy, Unhealthy, UnknownHealth}
            && 0.0 <= l.bandwidthGBps && 0 <= l.hops
  {
  }

  /** What every snapshot that exists at run time guarantees of each device, field by field. */
  lemma BuiltDeviceFields(s: Snapshot, d: Device)
    requires Built(s) && d in s.devices
    ensures d.id != "" && d.product != "" && '/' in d.resourceName
    ensures d.vendor in {NVIDIA, Huawei, AMD} && d.health in {Healthy, Unhealthy, UnknownHealth}
    ensures d.memoryMiB >= 0 && (d.numaNode.Some? ==> d.numaNode.value >= 0)
  {
    BuiltDevices(s);
  }

  /** And of each link: canonical direction, endpoints among the devices, and sensible fields. */
  lemma BuiltLinkFields(s: Snapshot, l: Link)
    requires Built(s) && l in s.links
    ensures l.source in IdsOf(s.devices) && l.target in IdsOf(s.devices) && Less(l.source, l.target)
    ensures l.kind in {NVLink, HCCS, XGMI, PCIe} && l.health in {Healthy, Unhealthy, UnknownHealth}
    ensures l.bandwidthGBps >= 0.0 && l.hops >= 0
  {
    var spec :| Acceptable(spec) && Represents(spec, s);
    assert ValidLink(l, IdsOf(s.devices)) by {
      SnapshotLinksDistinct(spec, s);
    }
    var k := CanonicalOf(spec, s, l);
    CanonicalAscends(k);
  }

  lemma CanonicalAscends(k: Link)
    requires k.source != k.target
    ensures Less(Canonical(k).source, Canonical(k).target)
  {
    LessTotal(k.source, k.target);
  }
}
