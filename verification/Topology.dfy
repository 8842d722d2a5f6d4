/**
 pkg/topology/snapshot.go: validation and canonicalisation of a topology into an immutable
 snapshot with secondary indexes and a symmetric adjacency map.
 */
module Topology {
  import opened Orders
  import opened Api

  datatype Snapshot = Snapshot(
    nodeName: string,
    observedGeneration: int,
    devices: seq<Device>,
    links: seq<Link>,
    deviceIndex: map<string, int>,
    numaIndex: map<int, seq<int>>,
    unknownNUMA: seq<int>,
    pcieRootIndex: map<string, seq<int>>,
    fabricGroupIndex: map<string, seq<int>>,
    adjacency: map<string, map<string, Link>>)

  datatype BuildError =
    | NodeNameRequired
    | GenerationNotPositive
    | NoDevices
    | InvalidDevice(device: Device)
    | DuplicateDevice(id: string)
    | InvalidLink(link: Link)
    | DuplicateLink(key: string)

  // ----- validation -----

  predicate Lower(c: char) { 'a' <= c <= 'z' || '0' <= c <= '9' }

  predicate Alphanumeric(c: char) { Lower(c) || 'A' <= c <= 'Z' }

  /** A DNS-1123 subdomain: dot-separated labels of lower-case alphanumerics and inner dashes. */
  predicate Subdomain(s: string) {
    && 0 < |s| <= 253
    && Lower(s[0]) && Lower(s[|s| - 1])
    && forall i :: 0 < i < |s| - 1 ==>
         || Lower(s[i])
         || s[i] == '-'
         || (s[i] == '.' && Lower(s[i - 1]) && Lower(s[i + 1]))
  }

  predicate NamePart(s: string) {
    && 0 < |s| <= 63
    && Alphanumeric(s[0]) && Alphanumeric(s[|s| - 1])
    && forall i :: 0 <= i < |s| ==> Alphanumeric(s[i]) || s[i] in "-_."
  }

  /** A Kubernetes qualified name that has a prefix, as extended resource names must. */
  predicate QualifiedResourceName(s: string) {
    exists i :: 0 <= i < |s| && s[i] == '/' && Subdomain(s[..i]) && NamePart(s[i + 1..])
  }

  predicate KnownVendor(v: Vendor) { v.NVIDIA? || v.Huawei? || v.AMD? }

  predicate KnownHealth(h: Health) { h.Healthy? || h.Unhealthy? || h.UnknownHealth? }

  predicate KnownLinkType(t: LinkType) { t.NVLink? || t.HCCS? || t.XGMI? || t.PCIe? }

  predicate ValidDevice(d: Device) {
    && d.id != ""
    && QualifiedResourceName(d.resourceName)
    && KnownVendor(d.vendor)
    && d.product != ""
    && (d.numaNode.Some? ==> d.numaNode.value >= 0)
    && d.memoryMiB >= 0
    && KnownHealth(d.health)
  }

  predicate ValidLink(l: Link, ids: set<string>) {
    && l.source != l.target
    && l.source in ids
    && l.target in ids
    && KnownLinkType(l.kind)
    && l.bandwidthGBps >= 0.0
    && l.hops >= 0
    && KnownHealth(l.health)
  }

  function DeviceId(d: Device): string { d.id }

  function IdsOf(devices: seq<Device>): set<string> {
    set d | d in devices :: d.id
  }

  /** A link written from its smaller to its greater endpoint. */
  function Canonical(l: Link): Link {
    if Less(l.target, l.source) then Reversed(l) else l
  }

  function Reversed(l: Link): Link {
    l.(source := l.target, target := l.source)
  }

  function LinkKey(l: Link): string {
    var c := Canonical(l);
    c.source + "\0" + c.target + "\0" + LinkTypeName(c.kind)
  }

  function Canonicals(links: seq<Link>): (r: seq<Link>)
    ensures |r| == |links|
    ensures forall i :: 0 <= i < |links| ==> r[i] == Canonical(links[i])
  {
    seq(|links|, i requires 0 <= i < |links| => Canonical(links[i]))
  }

  /** The specs that Build accepts, said without reference to any order of checking. */
  predicate Acceptable(spec: TopologySpec) {
    && spec.nodeName != ""
    && spec.observedGeneration >= 1
    && spec.devices != []
    && (forall d :: d in spec.devices ==> ValidDevice(d))
    && DistinctKeys(spec.devices, DeviceId)
    && (forall l :: l in spec.links ==> ValidLink(l, IdsOf(spec.devices)))
    && DistinctKeys(spec.links, LinkKey)
  }

  /** What each rejection says is true of the rejected spec. */
  ghost predicate Justified(spec: TopologySpec, e: BuildError) {
    match e
    case NodeNameRequired => spec.nodeName == ""
    case GenerationNotPositive => spec.observedGeneration < 1
    case NoDevices => spec.devices == []
    case InvalidDevice(d) => d in spec.devices && !ValidDevice(d)
    case DuplicateDevice(id) =>
      exists i, j :: 0 <= i < j < |spec.devices| && spec.devices[i].id == id == spec.devices[j].id
    case InvalidLink(l) => l in spec.links && !ValidLink(l, IdsOf(spec.devices))
    case DuplicateLink(key) =>
      exists i, j :: 0 <= i < j < |spec.links| && LinkKey(spec.links[i]) == key == LinkKey(spec.links[j])
  }

  // ----- indexes -----

  function Entries<K>(index: map<K, seq<int>>, k: K): seq<int> {
    if k in index then index[k] else []
  }

  /** The positions below n of the devices filed under k. */
  function Positions<K(==)>(devices: seq<Device>, key: Device -> Option<K>, k: K, n: nat): seq<int>
    requires n <= |devices|
  {
    if n == 0 then []
    else Positions(devices, key, k, n - 1) + if key(devices[n - 1]) == Some(k) then [n - 1] else []
  }

  function Filed<K>(index: map<K, seq<int>>, key: Option<K>, i: int): map<K, seq<int>> {
    match key
    case None => index
    case Some(k) => index[k := Entries(index, k) + [i]]
  }

  ghost predicate Indexes<K(!new)>(index: map<K, seq<int>>, devices: seq<Device>, key: Device -> Option<K>, n: nat)
    requires n <= |devices|
  {
    && (forall k :: k in index ==> index[k] != [])
    && (forall k {:trigger Entries(index, k)} :: Entries(index, k) == Positions(devices, key, k, n))
  }

  function NumaOf(d: Device): Option<int> { d.numaNode }

  function UnknownNumaOf(d: Device): Option<bool> { if d.numaNode.None? then Some(true) else None }

  function RootOf(d: Device): Option<string> { if d.pcieRoot == "" then None else Some(d.pcieRoot) }

  function GroupOf(d: Device): Option<string> { if d.fabricGroup == "" then None else Some(d.fabricGroup) }

  // ----- adjacency -----

  predicate Joins(l: Link, a: string, b: string) {
    (l.source == a && l.target == b) || (l.source == b && l.target == a)
  }

  function Oriented(l: Link, a: string, b: string): Link {
    l.(source := a, target := b)
  }

  /** The last of the first n links that joins a and b, written from a to b. */
  function LastJoin(links: seq<Link>, n: nat, a: string, b: string): (r: Option<Link>)
    requires n <= |links|
    ensures r.None? <==> forall i :: 0 <= i < n ==> !Joins(links[i], a, b)
  {
    if n == 0 then None
    else if Joins(links[n - 1], a, b) then Some(Oriented(links[n - 1], a, b))
    else LastJoin(links, n - 1, a, b)
  }

  function Lookup(adjacency: map<string, map<string, Link>>, a: string, b: string): Option<Link> {
    if a in adjacency && b in adjacency[a] then Some(adjacency[a][b]) else None
  }

  function LinkBetween(s: Snapshot, a: string, b: string): Option<Link> {
    Lookup(s.adjacency, a, b)
  }

  ghost predicate Adjoins(adjacency: map<string, map<string, Link>>, ids: set<string>, links: seq<Link>, n: nat)
    requires n <= |links|
  {
    && adjacency.Keys == ids
    && (forall a, b {:trigger Lookup(adjacency, a, b)} :: a in ids ==>
          Lookup(adjacency, a, b) == LastJoin(links, n, a, b))
  }

  // ----- what a snapshot of a spec is -----

  predicate ById(x: Device, y: Device) { AtMost(x.id, y.id) }

  predicate ByKey(x: Link, y: Link) { AtMost(LinkKey(x), LinkKey(y)) }

  ghost predicate Represents(spec: TopologySpec, s: Snapshot) {
    && s.nodeName == spec.nodeName
    && s.observedGeneration == spec.observedGeneration
    && multiset(s.devices) == multiset(spec.devices)
    && SortedBy(s.devices, ById)
    && multiset(s.links) == multiset(Canonicals(spec.links))
    && SortedBy(s.links, ByKey)
    && s.deviceIndex.Keys == IdsOf(s.devices)
    && (forall i :: 0 <= i < |s.devices| ==> s.devices[i].id in s.deviceIndex && s.deviceIndex[s.devices[i].id] == i)
    && Indexes(s.numaIndex, s.devices, NumaOf, |s.devices|)
    && s.unknownNUMA == Positions(s.devices, UnknownNumaOf, true, |s.devices|)
    && Indexes(s.pcieRootIndex, s.devices, RootOf, |s.devices|)
    && Indexes(s.fabricGroupIndex, s.devices, GroupOf, |s.devices|)
    && Adjoins(s.adjacency, IdsOf(s.devices), s.links, |s.links|)
  }

  /** Order of devices, order of links and direction of links are all that differ. */
  ghost predicate SameTopology(x: TopologySpec, y: TopologySpec) {
    && x.nodeName == y.nodeName
    && x.observedGeneration == y.observedGeneration
    && multiset(x.devices) == multiset(y.devices)
    && multiset(Canonicals(x.links)) == multiset(Canonicals(y.links))
  }

  lemma IdOrder()
    ensures TotalPreorder(ById)
  {
    forall x: Device, y: Device
      ensures ById(x, y) || ById(y, x)
    {
      if Less(y.id, x.id) { LessAsymmetric(y.id, x.id); }
    }
    forall x: Device, y: Device, z: Device | ById(x, y) && ById(y, z)
      ensures ById(x, z)
    {
      AtMostTransitive(x.id, y.id, z.id);
    }
  }

  lemma KeyOrder()
    ensures TotalPreorder(ByKey)
  {
    forall x: Link, y: Link
      ensures ByKey(x, y) || ByKey(y, x)
    {
      if Less(LinkKey(y), LinkKey(x)) { LessAsymmetric(LinkKey(y), LinkKey(x)); }
    }
    forall x: Link, y: Link, z: Link | ByKey(x, y) && ByKey(y, z)
      ensures ByKey(x, z)
    {
      AtMostTransitive(LinkKey(x), LinkKey(y), LinkKey(z));
    }
  }

  // ----- Build -----

  method Build(spec: TopologySpec) returns (r: Result<Snapshot, BuildError>)
    ensures r.Ok? <==> Acceptable(spec)
    ensures r.Ok? ==> Represents(spec, r.value)
    ensures r.Err? ==> Justified(spec, r.error)
  {
    if spec.nodeName == "" { return Err(NodeNameRequired); }
    if spec.observedGeneration < 1 { return Err(GenerationNotPositive); }
    if |spec.devices| == 0 { return Err(NoDevices); }

    IdOrder();
    var devices := Sort(spec.devices, ById);
    var indexed := IndexDevices(devices);
    if indexed.Err? {
      JustifiedByDevices(spec, devices, indexed.error);
      return Err(indexed.error);
    }

    KeyOrder();
    var sorted := Sort(spec.links, ByKey);
    var connected := ConnectDevices(indexed.value, sorted);
    if connected.Err? {
      JustifiedByLinks(spec, devices, sorted, connected.error);
      return Err(connected.error);
    }
    var s := connected.value.(nodeName := spec.nodeName, observedGeneration := spec.observedGeneration);
    Assembled(spec, devices, sorted, s);
    r := Ok(s);
  }

  lemma Assembled(spec: TopologySpec, devices: seq<Device>, sorted: seq<Link>, s: Snapshot)
    requires spec.nodeName != "" && spec.observedGeneration >= 1 && spec.devices != []
    requires s.nodeName == spec.nodeName && s.observedGeneration == spec.observedGeneration
    requires multiset(devices) == multiset(spec.devices) && SortedBy(devices, ById)
    requires multiset(sorted) == multiset(spec.links) && SortedBy(sorted, ByKey)
    requires s.devices == devices && DevicesAccepted(devices) && DevicesIndexed(s, |devices|)
    requires s.links == Canonicals(sorted) && LinksAccepted(sorted, IdsOf(devices))
    requires Adjoins(s.adjacency, IdsOf(devices), s.links, |sorted|)
    ensures Acceptable(spec) && Represents(spec, s)
  {
    AcceptedWhenSorted(spec, devices, sorted);
    assert multiset(s.links) == multiset(Canonicals(spec.links)) by {
      CanonicalsPermutation(sorted, spec.links);
    }
    assert SortedBy(s.links, ByKey) by {
      CanonicalsSorted(sorted);
    }
    assert s.devices[..|devices|] == devices;
  }

  lemma AcceptedWhenSorted(spec: TopologySpec, devices: seq<Device>, sorted: seq<Link>)
    requires spec.nodeName != "" && spec.observedGeneration >= 1 && spec.devices != []
    requires multiset(devices) == multiset(spec.devices) && DevicesAccepted(devices)
    requires multiset(sorted) == multiset(spec.links) && LinksAccepted(sorted, IdsOf(devices))
    ensures Acceptable(spec)
  {
    PermutedDevices(spec.devices, devices);
    PermutedLinks(spec.links, sorted);
  }

  ghost predicate DevicesAccepted(devices: seq<Device>) {
    && (forall d :: d in devices ==> ValidDevice(d))
    && DistinctKeys(devices, DeviceId)
  }

  ghost predicate LinksAccepted(links: seq<Link>, ids: set<string>) {
    && (forall l :: l in links ==> ValidLink(l, ids))
    && DistinctKeys(links, LinkKey)
  }

  /** The device loop: validation, duplicate detection and the four indexes. */
  method IndexDevices(devices: seq<Device>) returns (r: Result<Snapshot, BuildError>)
    ensures r.Ok? ==> r.value.devices == devices && DevicesAccepted(devices) && DevicesIndexed(r.value, |devices|)
    ensures r.Ok? ==> r.value.adjacency == Unlinked(IdsOf(devices))
    ensures r.Err? ==> DeviceFault(devices, r.error)
  {
    var s := Snapshot("", 0, devices, [], map[], map[], [], map[], map[], map[]);
    IndexStart(s);
    for i := 0 to |devices|
      invariant Indexing(s, devices, i)
    {
      var admitted := Admit(s, devices, i);
      if admitted.Err? {
        return admitted;
      }
      s := admitted.value;
    }
    assert devices[..|devices|] == devices;
    r := Ok(s);
  }

  /** One round of the device loop. */
  method Admit(s: Snapshot, devices: seq<Device>, i: nat) returns (r: Result<Snapshot, BuildError>)
    requires i < |devices| && Indexing(s, devices, i)
    ensures r.Ok? ==> Indexing(r.value, devices, i + 1)
    ensures r.Err? ==> DeviceFault(devices, r.error)
  {
    var device := devices[i];
    if !ValidDevice(device) {
      return Err(InvalidDevice(device));
    }
    if device.id in s.deviceIndex {
      RepeatedId(s, devices, i);
      return Err(DuplicateDevice(device.id));
    }
    IndexRound(s, devices, i);
    return Ok(WithDevice(s, i));
  }

  /** Before round i of the device loop. */
  ghost predicate Indexing(s: Snapshot, devices: seq<Device>, i: nat) {
    && i <= |devices| && s.devices == devices
    && DevicesAccepted(devices[..i])
    && DevicesIndexed(s, i)
    && s.adjacency == Unlinked(IdsOf(devices[..i]))
  }

  lemma IndexStart(s: Snapshot)
    requires s == Snapshot("", 0, s.devices, [], map[], map[], [], map[], map[], map[])
    ensures Indexing(s, s.devices, 0)
  {
    assert s.devices[..0] == [];
  }

  lemma IndexRound(s: Snapshot, devices: seq<Device>, i: nat)
    requires i < |devices| && Indexing(s, devices, i)
    requires ValidDevice(devices[i]) && devices[i].id !in s.deviceIndex
    ensures Indexing(WithDevice(s, i), devices, i + 1)
  {
    AcceptedStep(devices, i);
    IndexedStep(s, i);
    UnlinkedStep(devices, i);
  }

  lemma UnlinkedStep(devices: seq<Device>, i: nat)
    requires i < |devices|
    ensures Unlinked(IdsOf(devices[..i]))[devices[i].id := map[]] == Unlinked(IdsOf(devices[..i + 1]))
  {
    IdsStep(devices, i);
  }

  function Unlinked(ids: set<string>): map<string, map<string, Link>> {
    map id | id in ids :: map[]
  }

  /** The device at position i is entered into every index. */
  function WithDevice(s: Snapshot, i: nat): Snapshot
    requires i < |s.devices|
  {
    var device := s.devices[i];
    s.(
      deviceIndex := s.deviceIndex[device.id := i],
      adjacency := s.adjacency[device.id := map[]],
      unknownNUMA := if device.numaNode.None? then s.unknownNUMA + [i] else s.unknownNUMA,
      numaIndex := Filed(s.numaIndex, NumaOf(device), i),
      pcieRootIndex := Filed(s.pcieRootIndex, RootOf(device), i),
      fabricGroupIndex := Filed(s.fabricGroupIndex, GroupOf(device), i))
  }

  lemma RepeatedId(s: Snapshot, devices: seq<Device>, i: nat)
    requires i < |devices| && Indexing(s, devices, i) && devices[i].id in s.deviceIndex
    ensures DeviceFault(devices, DuplicateDevice(devices[i].id))
  {
    var d :| d in devices[..i] && d.id == devices[i].id;
    var j :| 0 <= j < i && devices[..i][j] == d;
    assert devices[j].id == devices[i].id;
  }

  lemma IdsStep(ds: seq<Device>, n: nat)
    requires n < |ds|
    ensures IdsOf(ds[..n + 1]) == IdsOf(ds[..n]) + {ds[n].id}
  {
    assert ds[..n + 1] == ds[..n] + [ds[n]];
  }

  lemma AcceptedStep(ds: seq<Device>, n: nat)
    requires n < |ds| && DevicesAccepted(ds[..n]) && ValidDevice(ds[n]) && ds[n].id !in IdsOf(ds[..n])
    ensures DevicesAccepted(ds[..n + 1])
  {
    assert ds[..n + 1] == ds[..n] + [ds[n]];
    forall i | 0 <= i < n
      ensures DeviceId(ds[i]) != DeviceId(ds[n])
    {
      assert ds[..n][i] == ds[i];
    }
  }

  lemma IndexedStep(s: Snapshot, n: nat)
    requires n < |s.devices| && DevicesIndexed(s, n) && s.devices[n].id !in s.deviceIndex
    ensures DevicesIndexed(WithDevice(s, n), n + 1)
  {
    var next := WithDevice(s, n);
    assert IdsIndexed(next.deviceIndex, s.devices, n + 1) by {
      IdsIndexedStep(s.deviceIndex, s.devices, n);
    }
    assert Indexes(next.numaIndex, s.devices, NumaOf, n + 1) by {
      FiledStep(s.numaIndex, s.devices, NumaOf, n);
    }
    assert Indexes(next.pcieRootIndex, s.devices, RootOf, n + 1) by {
      FiledStep(s.pcieRootIndex, s.devices, RootOf, n);
    }
    assert Indexes(next.fabricGroupIndex, s.devices, GroupOf, n + 1) by {
      FiledStep(s.fabricGroupIndex, s.devices, GroupOf, n);
    }
    assert next.unknownNUMA == Positions(s.devices, UnknownNumaOf, true, n + 1) by {
      UnknownStep(s.devices, n);
    }
  }

  ghost predicate DevicesIndexed(s: Snapshot, n: nat) {
    && n <= |s.devices|
    && IdsIndexed(s.deviceIndex, s.devices, n)
    && Indexes(s.numaIndex, s.devices, NumaOf, n)
    && s.unknownNUMA == Positions(s.devices, UnknownNumaOf, true, n)
    && Indexes(s.pcieRootIndex, s.devices, RootOf, n)
    && Indexes(s.fabricGroupIndex, s.devices, GroupOf, n)
  }

  ghost predicate IdsIndexed(index: map<string, int>, devices: seq<Device>, n: nat)
    requires n <= |devices|
  {
    && index.Keys == IdsOf(devices[..n])
    && forall i :: 0 <= i < n ==> devices[i].id in index && index[devices[i].id] == i
  }

  lemma IdsIndexedStep(index: map<string, int>, devices: seq<Device>, n: nat)
    requires n < |devices| && IdsIndexed(index, devices, n) && devices[n].id !in index
    ensures IdsIndexed(index[devices[n].id := n], devices, n + 1)
  {
    IdsStep(devices, n);
  }

  ghost predicate DeviceFault(devices: seq<Device>, e: BuildError) {
    || (e.InvalidDevice? && e.device in devices && !ValidDevice(e.device))
    || (e.DuplicateDevice? && exists i, j :: 0 <= i < j < |devices| && devices[i].id == e.id == devices[j].id)
  }

  /** The link loop: validation, duplicate detection, canonical direction and both adjacency entries. */
  method ConnectDevices(indexed: Snapshot, sorted: seq<Link>) returns (r: Result<Snapshot, BuildError>)
    requires indexed.deviceIndex.Keys == IdsOf(indexed.devices[..|indexed.devices|])
    requires indexed.adjacency == Unlinked(IdsOf(indexed.devices))
    ensures r.Ok? ==> LinksAccepted(sorted, IdsOf(indexed.devices))
    ensures r.Ok? ==> r.value == indexed.(links := Canonicals(sorted), adjacency := r.value.adjacency)
    ensures r.Ok? ==> Adjoins(r.value.adjacency, IdsOf(indexed.devices), r.value.links, |sorted|)
    ensures r.Err? ==> LinkFault(sorted, IdsOf(indexed.devices), r.error)
  {
    assert indexed.devices[..|indexed.devices|] == indexed.devices;
    ghost var ids := IdsOf(indexed.devices);
    var links := sorted;
    var adjacency := indexed.adjacency;
    var seenLinks: set<string> := {};
    ConnectStart(sorted, ids);
    for i := 0 to |sorted|
      invariant Connecting(adjacency, links, seenLinks, sorted, ids, i)
    {
      var fault;
      fault, links, adjacency, seenLinks :=
        ConnectOne(adjacency, links, seenLinks, i, indexed.deviceIndex.Keys, sorted);
      if fault.Some? {
        return Err(fault.value);
      }
    }
    ConnectDone(adjacency, links, seenLinks, sorted, ids);
    r := Ok(indexed.(links := links, adjacency := adjacency));
  }

  /** One round of the link loop. */
  method ConnectOne(adjacency: map<string, map<string, Link>>, links: seq<Link>, seenLinks: set<string>, i: nat,
                    ids: set<string>, ghost sorted: seq<Link>)
    returns (fault: Option<BuildError>,
             links': seq<Link>, adjacency': map<string, map<string, Link>>, seenLinks': set<string>)
    requires i < |sorted| && Connecting(adjacency, links, seenLinks, sorted, ids, i)
    ensures fault.None? ==> Connecting(adjacency', links', seenLinks', sorted, ids, i + 1)
    ensures fault.Some? ==> LinkFault(sorted, ids, fault.value)
  {
    links', adjacency', seenLinks' := links, adjacency, seenLinks;
    CurrentLink(adjacency, links, seenLinks, sorted, ids, i);
    var link := links[i];
    if !ValidLink(link, ids) {
      fault := Some(InvalidLink(link));
      return;
    }
    var key := LinkKey(link);
    if key in seenLinks {
      fault := Some(DuplicateLink(key));
      return;
    }
    ConnectRound(adjacency, links, seenLinks, sorted, ids, i);
    fault := None;
    seenLinks' := seenLinks + {key};
    link, adjacency' := Connect(adjacency, link);
    links' := links[i := link];
  }

  /** Turns a link into canonical direction and writes both of its adjacency entries. */
  method Connect(adjacency: map<string, map<string, Link>>, l: Link)
    returns (link: Link, updated: map<string, map<string, Link>>)
    requires l.source in adjacency && l.target in adjacency
    ensures link == Canonical(l) && updated == Connected(adjacency, link)
  {
    link := l;
    if Less(link.target, link.source) {
      link := Reversed(link);
    }
    updated := adjacency[link.source := adjacency[link.source][link.target := link]];
    updated := updated[link.target := updated[link.target][link.source := Reversed(link)]];
  }

  /** Before round i of the link loop. */
  ghost predicate Connecting(adjacency: map<string, map<string, Link>>, links: seq<Link>, seen: set<string>,
                             sorted: seq<Link>, ids: set<string>, i: nat) {
    && i <= |sorted|
    && links == Canonicals(sorted[..i]) + sorted[i..]
    && seen == KeysOf(sorted[..i])
    && LinksAccepted(sorted[..i], ids)
    && Adjoins(adjacency, ids, links, i)
  }

  lemma ConnectStart(sorted: seq<Link>, ids: set<string>)
    ensures Connecting(Unlinked(ids), sorted, {}, sorted, ids, 0)
  {
    assert sorted[..0] == [] && sorted[0..] == sorted;
  }

  /** The link of the round is still as it was sorted, and its key is seen only if it repeats. */
  lemma CurrentLink(adjacency: map<string, map<string, Link>>, links: seq<Link>, seen: set<string>,
                    sorted: seq<Link>, ids: set<string>, i: nat)
    requires i < |sorted| && Connecting(adjacency, links, seen, sorted, ids, i)
    ensures i < |links| && links[i] == sorted[i] && sorted[i] in sorted
    ensures LinkKey(sorted[i]) in seen ==> LinkFault(sorted, ids, DuplicateLink(LinkKey(sorted[i])))
  {
    CanonicalsStep(sorted, i);
    if LinkKey(sorted[i]) in seen {
      RepeatedKey(sorted, i);
    }
  }

  lemma ConnectDone(adjacency: map<string, map<string, Link>>, links: seq<Link>, seen: set<string>,
                    sorted: seq<Link>, ids: set<string>)
    requires Connecting(adjacency, links, seen, sorted, ids, |sorted|)
    ensures links == Canonicals(sorted) && LinksAccepted(sorted, ids) && Adjoins(adjacency, ids, links, |sorted|)
  {
    assert sorted[..|sorted|] == sorted && sorted[|sorted|..] == [];
  }

  lemma ConnectRound(adjacency: map<string, map<string, Link>>, links: seq<Link>, seen: set<string>,
                     sorted: seq<Link>, ids: set<string>, i: nat)
    requires i < |sorted| && Connecting(adjacency, links, seen, sorted, ids, i)
    requires ValidLink(sorted[i], ids) && LinkKey(sorted[i]) !in seen
    ensures links[i] == sorted[i] && links[i].source in adjacency && links[i].target in adjacency
    ensures Connecting(Connected(adjacency, Canonical(links[i])), links[i := Canonical(links[i])],
                       seen + {LinkKey(links[i])}, sorted, ids, i + 1)
  {
    AcceptLink(sorted, ids, i);
    KeysStep(sorted, i);
    CanonicalsStep(sorted, i);
    LinkRound(adjacency, ids, links, i);
  }

  lemma KeysStep(links: seq<Link>, n: nat)
    requires n < |links|
    ensures KeysOf(links[..n + 1]) == KeysOf(links[..n]) + {LinkKey(links[n])}
  {
    assert links[..n + 1] == links[..n] + [links[n]];
  }

  lemma CanonicalsStep(sorted: seq<Link>, n: nat)
    requires n < |sorted|
    ensures (Canonicals(sorted[..n]) + sorted[n..])[n] == sorted[n]
    ensures Canonicals(sorted[..n + 1]) + sorted[n + 1..] ==
            (Canonicals(sorted[..n]) + sorted[n..])[n := Canonical(sorted[n])]
  {
    var x := Canonicals(sorted[..n + 1]) + sorted[n + 1..];
    var y := (Canonicals(sorted[..n]) + sorted[n..])[n := Canonical(sorted[n])];
    forall i | 0 <= i < |sorted|
      ensures x[i] == y[i]
    {
    }
  }

  function KeysOf(links: seq<Link>): set<string> {
    set l | l in links :: LinkKey(l)
  }

  lemma RepeatedKey(links: seq<Link>, i: nat)
    requires i < |links| && LinkKey(links[i]) in KeysOf(links[..i])
    ensures exists j, k :: 0 <= j < k < |links| && LinkKey(links[j]) == LinkKey(links[i]) == LinkKey(links[k])
  {
    var l :| l in links[..i] && LinkKey(l) == LinkKey(links[i]);
    var j :| 0 <= j < i && links[..i][j] == l;
    assert LinkKey(links[j]) == LinkKey(links[i]);
  }

  lemma AcceptLink(sorted: seq<Link>, ids: set<string>, n: nat)
    requires n < |sorted| && LinksAccepted(sorted[..n], ids)
    requires ValidLink(sorted[n], ids) && LinkKey(sorted[n]) !in KeysOf(sorted[..n])
    ensures LinksAccepted(sorted[..n + 1], ids)
  {
    assert sorted[..n + 1] == sorted[..n] + [sorted[n]];
    forall i | 0 <= i < n
      ensures LinkKey(sorted[i]) != LinkKey(sorted[n])
    {
      assert sorted[..n][i] in sorted[..n];
    }
  }

  ghost predicate LinkFault(links: seq<Link>, ids: set<string>, e: BuildError) {
    || (e.InvalidLink? && e.link in links && !ValidLink(e.link, ids))
    || (e.DuplicateLink? && exists i, j :: 0 <= i < j < |links| && LinkKey(links[i]) == e.key == LinkKey(links[j]))
  }

  // ----- lemmas for the loops -----

  lemma FiledStep<K(!new)>(index: map<K, seq<int>>, devices: seq<Device>, key: Device -> Option<K>, n: nat)
    requires n < |devices| && Indexes(index, devices, key, n)
    ensures Indexes(Filed(index, key(devices[n]), n), devices, key, n + 1)
  {
    var filed := Filed(index, key(devices[n]), n);
    forall k
      ensures Entries(filed, k) == Positions(devices, key, k, n + 1)
    {
      assert Entries(index, k) == Positions(devices, key, k, n);
    }
  }

  lemma UnknownStep(devices: seq<Device>, n: nat)
    requires n < |devices|
    ensures Positions(devices, UnknownNumaOf, true, n + 1) ==
            Positions(devices, UnknownNumaOf, true, n) + if devices[n].numaNode.None? then [n] else []
  {
  }

  lemma {:induction false} LastJoinDependsOnPrefix(x: seq<Link>, y: seq<Link>, n: nat, a: string, b: string)
    requires n <= |x| && n <= |y| && x[..n] == y[..n]
    ensures LastJoin(x, n, a, b) == LastJoin(y, n, a, b)
  {
    if n != 0 {
      assert x[n - 1] == x[..n][n - 1] && y[n - 1] == y[..n][n - 1];
      assert x[..n - 1] == x[..n][..n - 1] && y[..n - 1] == y[..n][..n - 1];
      LastJoinDependsOnPrefix(x, y, n - 1, a, b);
    }
  }

  lemma LastJoinSkipsLater(x: seq<Link>, y: seq<Link>, n: nat)
    requires n <= |x| && n <= |y| && x[..n] == y[..n]
    ensures forall a, b :: LastJoin(x, n, a, b) == LastJoin(y, n, a, b)
  {
    forall a, b
      ensures LastJoin(x, n, a, b) == LastJoin(y, n, a, b)
    {
      LastJoinDependsOnPrefix(x, y, n, a, b);
    }
  }

  function Connected(adjacency: map<string, map<string, Link>>, l: Link): map<string, map<string, Link>>
    requires l.source in adjacency && l.target in adjacency
  {
    var forth := adjacency[l.source := adjacency[l.source][l.target := l]];
    forth[l.target := forth[l.target][l.source := Reversed(l)]]
  }

  lemma AddLink(adjacency: map<string, map<string, Link>>, ids: set<string>, links: seq<Link>, n: nat)
    requires n < |links| && Adjoins(adjacency, ids, links, n)
    requires links[n].source in ids && links[n].target in ids && links[n].source != links[n].target
    ensures Adjoins(Connected(adjacency, links[n]), ids, links, n + 1)
  {
    var l := links[n];
    var next := Connected(adjacency, l);
    forall a, b | a in ids
      ensures Lookup(next, a, b) == LastJoin(links, n + 1, a, b)
    {
      assert Lookup(adjacency, a, b) == LastJoin(links, n, a, b);
      if Joins(l, a, b) {
        assert Lookup(next, a, b) == Some(Oriented(l, a, b));
      } else {
        assert Lookup(next, a, b) == Lookup(adjacency, a, b);
      }
    }
  }

  lemma LinkRound(adjacency: map<string, map<string, Link>>, ids: set<string>, links: seq<Link>, n: nat)
    requires n < |links| && Adjoins(adjacency, ids, links, n) && ValidLink(links[n], ids)
    ensures Adjoins(Connected(adjacency, Canonical(links[n])), ids, links[n := Canonical(links[n])], n + 1)
  {
    var next := links[n := Canonical(links[n])];
    LastJoinSkipsLater(links, next, n);
    AddLink(adjacency, ids, next, n);
  }

  // ----- permutations -----

  lemma SameElements<T>(s: seq<T>, t: seq<T>)
    requires multiset(s) == multiset(t)
    ensures forall x :: x in s <==> x in t
  {
    forall x
      ensures x in s <==> x in t
    {
      assert x in s <==> x in multiset(s);
      assert x in t <==> x in multiset(t);
    }
  }

  lemma PermutedDevices(x: seq<Device>, y: seq<Device>)
    requires multiset(x) == multiset(y)
    ensures IdsOf(x) == IdsOf(y)
    ensures DistinctKeys(x, DeviceId) <==> DistinctKeys(y, DeviceId)
    ensures forall d :: d in x <==> d in y
  {
    SameElements(x, y);
    if DistinctKeys(x, DeviceId) { DistinctKeysOfPermutation(x, y, DeviceId); }
    if DistinctKeys(y, DeviceId) { DistinctKeysOfPermutation(y, x, DeviceId); }
  }

  lemma CanonicalsWithout(y: seq<Link>, j: nat)
    requires j < |y|
    ensures multiset(Canonicals(y)) == multiset(Canonicals(Without(y, j))) + multiset{Canonical(y[j])}
  {
    assert Canonicals(y) == Canonicals(y[..j]) + [Canonical(y[j])] + Canonicals(y[j + 1..]);
    assert Canonicals(Without(y, j)) == Canonicals(y[..j]) + Canonicals(y[j + 1..]);
  }

  lemma {:induction false} CanonicalsPermutation(x: seq<Link>, y: seq<Link>)
    requires multiset(x) == multiset(y)
    ensures multiset(Canonicals(x)) == multiset(Canonicals(y))
    decreases |x|
  {
    SameLength(x, y);
    if x != [] {
      assert x[0] in multiset(y);
      var j :| 0 <= j < |y| && y[j] == x[0];
      WithoutOne(x, 0);
      WithoutOne(y, j);
      CanonicalsPermutation(Without(x, 0), Without(y, j));
      CanonicalsWithout(x, 0);
      CanonicalsWithout(y, j);
    }
  }

  lemma PermutedLinks(x: seq<Link>, y: seq<Link>)
    requires multiset(x) == multiset(y)
    ensures DistinctKeys(x, LinkKey) <==> DistinctKeys(y, LinkKey)
    ensures forall l :: l in x <==> l in y
    ensures multiset(Canonicals(x)) == multiset(Canonicals(y))
  {
    SameElements(x, y);
    CanonicalsPermutation(x, y);
    if DistinctKeys(x, LinkKey) { DistinctKeysOfPermutation(x, y, LinkKey); }
    if DistinctKeys(y, LinkKey) { DistinctKeysOfPermutation(y, x, LinkKey); }
  }

  lemma CanonicalKey(l: Link)
    ensures LinkKey(Canonical(l)) == LinkKey(l)
    ensures forall ids :: ValidLink(Canonical(l), ids) == ValidLink(l, ids)
  {
    if Less(l.target, l.source) { LessAsymmetric(l.target, l.source); }
  }

  lemma CanonicalsSorted(x: seq<Link>)
    requires SortedBy(x, ByKey)
    ensures SortedBy(Canonicals(x), ByKey)
  {
    forall i, j | 0 <= i < j < |x|
      ensures ByKey(Canonicals(x)[i], Canonicals(x)[j])
    {
      CanonicalKey(x[i]);
      CanonicalKey(x[j]);
      assert ByKey(x[i], x[j]);
    }
  }

  lemma CanonicalsAccepted(x: seq<Link>, ids: set<string>)
    ensures LinksAccepted(x, ids) <==> LinksAccepted(Canonicals(x), ids)
  {
    var c := Canonicals(x);
    forall i | 0 <= i < |x|
      ensures LinkKey(c[i]) == LinkKey(x[i]) && ValidLink(c[i], ids) == ValidLink(x[i], ids)
    {
      CanonicalKey(x[i]);
    }
    SameDistinctKeys(x, c, LinkKey);
    SameForall(x, c, l => ValidLink(l, ids));
  }

  lemma JustifiedByDevices(spec: TopologySpec, devices: seq<Device>, e: BuildError)
    requires multiset(devices) == multiset(spec.devices) && DeviceFault(devices, e)
    ensures Justified(spec, e) && !Acceptable(spec)
  {
    PermutedDevices(spec.devices, devices);
    if e.DuplicateDevice? {
      var i, j :| 0 <= i < j < |devices| && devices[i].id == e.id == devices[j].id;
      var p, q := PositionsOfPair(devices, spec.devices, i, j);
      assert DeviceId(spec.devices[p]) == DeviceId(spec.devices[q]);
    }
  }

  lemma JustifiedByLinks(spec: TopologySpec, devices: seq<Device>, links: seq<Link>, e: BuildError)
    requires multiset(devices) == multiset(spec.devices) && multiset(links) == multiset(spec.links)
    requires LinkFault(links, IdsOf(devices), e)
    ensures Justified(spec, e) && !Acceptable(spec)
  {
    PermutedDevices(spec.devices, devices);
    PermutedLinks(spec.links, links);
    if e.DuplicateLink? {
      var i, j :| 0 <= i < j < |links| && LinkKey(links[i]) == e.key == LinkKey(links[j]);
      var p, q := PositionsOfPair(links, spec.links, i, j);
      assert LinkKey(spec.links[p]) == LinkKey(spec.links[q]);
    }
  }

  /** Two positions of a sequence correspond to two positions of any permutation of it. */
  lemma PositionsOfPair<T>(s: seq<T>, t: seq<T>, i: nat, j: nat) returns (p: nat, q: nat)
    requires multiset(s) == multiset(t) && i < j < |s|
    ensures p < q < |t|
    ensures (t[p] == s[i] && t[q] == s[j]) || (t[p] == s[j] && t[q] == s[i])
  {
    if s[i] == s[j] {
      CountOfTwo(s, i, j);
      p, q := RepeatedElement(t, s[i]);
    } else {
      assert s[i] in multiset(t) && s[j] in multiset(t);
      p :| 0 <= p < |t| && t[p] == s[i];
      q :| 0 <= q < |t| && t[q] == s[j];
      if q < p { p, q := q, p; }
    }
  }
}
