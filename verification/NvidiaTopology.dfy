/**
 parseNVIDIATopology of pkg/discovery/nvidia.go from the row matrix onward, and what the
 discovered topology means to Build and to fabric policies.
 */
module NvidiaTopology {
  import opened Orders
  import opened Api
  import opened Decimals
  import opened Topology
  import opened SnapshotProperties
  import opened Selection
  import opened CliqueDiscovery

  type Rows = map<int, seq<string>>

  datatype ParseError = MissingRows | Asymmetric(left: int, right: int) | Unsupported(code: string)

  function GpuName(n: nat): string { "gpu" + Digits(n) }

  predicate IsNVLink(code: string) { "NV" <= code }

  /** The link type and hop count of a relationship code. */
  function Classify(code: string): Option<(LinkType, int)> {
    if IsNVLink(code) then Some((NVLink, 1))
    else if code == "PIX" then Some((PCIe, 1))
    else if code == "PXB" then Some((PCIe, 2))
    else if code == "PHB" then Some((PCIe, 3))
    else if code == "NODE" then Some((PCIe, 4))
    else if code == "SYS" then Some((PCIe, 5))
    else None
  }

  /** Bonded NVLinks, however many. */
  predicate NvCode(code: string) {
    |code| >= 2 && code[0] == 'N' && code[1] == 'V'
  }

  /** The PCIe relationships from the nearest to the farthest. */
  const PCIE_CODES := ["PIX", "PXB", "PHB", "NODE", "SYS"]

  /** Codes that start with NV are NVLinks of one hop, the PCIe codes are PCIe links of as many hops as their rank. */
  lemma CodesClassified(code: string)
    ensures NvCode(code) ==> Classify(code) == Some((NVLink, 1))
    ensures forall n :: 0 <= n < |PCIE_CODES| && PCIE_CODES[n] == code ==> Classify(code) == Some((PCIe, n + 1))
    ensures Classify(code).Some? <==> NvCode(code) || code in PCIE_CODES
    ensures NvCode(code) ==> code !in PCIE_CODES
  {
    assert IsNVLink(code) <==> NvCode(code);
    assert forall n :: 0 <= n < |PCIE_CODES| ==> !NvCode(PCIE_CODES[n]);
  }

  /** The parser keeps the first count cells of every row of a listed GPU. */
  ghost predicate Trimmed(rows: Rows, count: nat) {
    forall i :: i in rows ==> 0 <= i < count && |rows[i]| == count
  }

  ghost predicate Full(rows: Rows, count: nat) {
    Trimmed(rows, count) && forall i :: 0 <= i < count ==> i in rows
  }

  ghost predicate PairReadable(rows: Rows, count: nat, i: int, j: int)
    requires Full(rows, count) && 0 <= i < count && 0 <= j < count
  {
    rows[i][j] == rows[j][i] && Classify(rows[i][j]).Some?
  }

  /** The matrices that the parser accepts. */
  ghost predicate Readable(rows: Rows, count: nat) {
    Full(rows, count) && forall i, j :: 0 <= i < j < count ==> PairReadable(rows, count, i, j)
  }

  function LinkFor(i: nat, j: nat, code: string): Link
    requires Classify(code).Some?
  {
    Link(GpuName(i), GpuName(j), Classify(code).value.0, 0.0, Classify(code).value.1, UnknownHealth)
  }

  // ----- the pair loops -----

  type Pairs = seq<(int, int)>

  ghost predicate IsLinkOf(rows: Rows, count: nat, l: Link, i: int, j: int) {
    && Full(rows, count) && 0 <= i < j < count && PairReadable(rows, count, i, j)
    && l == LinkFor(i, j, rows[i][j])
  }

  /** The k-th link is that of the k-th pair, and no pair occurs twice. */
  ghost predicate Listed(rows: Rows, count: nat, links: seq<Link>, pairs: Pairs) {
    && |links| == |pairs|
    && Distinct(pairs)
    && (forall k :: 0 <= k < |pairs| ==> IsLinkOf(rows, count, links[k], pairs[k].0, pairs[k].1))
  }

  /** The NVLink matrix holds exactly the listed NVLink pairs, in both directions. */
  ghost predicate Filled(rows: Rows, count: nat, m: Matrix, pairs: Pairs) {
    && Full(rows, count) && |m| == count && Square(m)
    && (forall i, j :: 0 <= i < count && 0 <= j < count ==>
          (m[i][j] <==> ((i, j) in pairs && IsNVLink(rows[i][j])) || ((j, i) in pairs && IsNVLink(rows[j][i]))))
  }

  /** Pairs that the loops have passed when they reach (left, right). */
  ghost predicate Visited(count: nat, left: int, right: int, i: int, j: int) {
    0 <= i < j < count && (i < left || (i == left && j < right))
  }

  ghost predicate Covered(count: nat, left: int, right: int, pairs: Pairs) {
    forall i, j :: (i, j) in pairs <==> Visited(count, left, right, i, j)
  }

  lemma GpuNamesDiffer(a: nat, b: nat)
    ensures GpuName(a) == GpuName(b) ==> a == b
  {
    assert GpuName(a)[3..] == Digits(a) && GpuName(b)[3..] == Digits(b);
    DigitsInjective(a, b);
  }

  /** Exactly one link per unordered pair of devices, and group names for complete NVLink components. */
  ghost predicate Discovered(rows: Rows, count: nat, links: seq<Link>, groups: seq<string>, pairs: Pairs, m: Matrix) {
    && Listed(rows, count, links, pairs)
    && (forall i, j :: (i, j) in pairs <==> 0 <= i < j < count)
    && Filled(rows, count, m, pairs)
    && SymmetricMatrix(m)
    && |groups| == count
    && (forall i, j :: 0 <= i < count && 0 <= j < count && i != j ==>
          (groups[i] == groups[j] && groups[i] != "" <==> Joined(m, i, j) && CompleteAround(m, i)))
    && (forall i :: 0 <= i < count ==> (groups[i] != "" <==> Clustered(m, i)))
  }

  /** What each refusal says of the matrix. */
  ghost predicate ParseFault(rows: Rows, count: nat, e: ParseError) {
    match e
    case MissingRows => !Full(rows, count)
    case Asymmetric(i, j) => Full(rows, count) && 0 <= i < j < count && rows[i][j] != rows[j][i]
    case Unsupported(code) =>
      && Full(rows, count) && Classify(code).None?
      && exists i, j :: 0 <= i < j < count && rows[i][j] == code == rows[j][i]
  }

  method ParseTopology(rows: Rows, count: nat) returns (r: Result<(seq<Link>, seq<string>), ParseError>)
    requires Trimmed(rows, count)
    ensures r.Ok? <==> Readable(rows, count)
    ensures r.Ok? ==> exists pairs, m :: Discovered(rows, count, r.value.0, r.value.1, pairs, m)
    ensures r.Err? ==> ParseFault(rows, count, r.error)
  {
    RowsFull(rows, count);
    if |rows| != count {
      return Err(MissingRows);
    }
    var links: seq<Link> := [];
    var nvlink := seq(count, _ => seq(count, _ => false));
    ghost var pairs: Pairs := [];
    for left := 0 to count
      invariant Covered(count, left, left + 1, pairs)
      invariant Listed(rows, count, links, pairs)
      invariant Filled(rows, count, nvlink, pairs)
    {
      for right := left + 1 to count
        invariant Covered(count, left, right, pairs)
        invariant Listed(rows, count, links, pairs)
        invariant Filled(rows, count, nvlink, pairs)
      {
        var code := rows[left][right];
        if rows[right][left] != code {
          assert !PairReadable(rows, count, left, right);
          return Err(Asymmetric(left, right));
        }
        var known := Classify(code);
        if known.None? {
          assert !PairReadable(rows, count, left, right);
          return Err(Unsupported(code));
        }
        assert Visited(count, left, right + 1, left, right) && !Visited(count, left, right, left, right);
        AddPair(rows, count, links, nvlink, pairs, left, right);
        CoverPair(count, pairs, left, right);
        if IsNVLink(code) {
          nvlink := nvlink[left := nvlink[left][right := true]];
          nvlink := nvlink[right := nvlink[right][left := true]];
        }
        links := links + [Link(GpuName(left), GpuName(right), known.value.0, 0.0, known.value.1, UnknownHealth)];
        pairs := pairs + [(left, right)];
      }
      CoverRow(count, pairs, left);
    }
    AllListed(rows, count, links, nvlink, pairs);
    var groups := CompleteNVLinkGroups(nvlink);
    assert Discovered(rows, count, links, groups, pairs, nvlink);
    return Ok((links, groups));
  }

  lemma RowsFull(rows: Rows, count: nat)
    requires Trimmed(rows, count)
    ensures |rows| == count <==> Full(rows, count)
  {
    assert |rows| == |rows.Keys|;
    BelowExact(rows.Keys, count);
  }

  lemma {:induction false} BelowExact(s: set<int>, n: nat)
    requires forall i :: i in s ==> 0 <= i < n
    ensures |s| == n <==> forall i :: 0 <= i < n ==> i in s
  {
    BelowSize(s, n);
    if n != 0 {
      BelowExact(s - {n - 1}, n - 1);
      if n - 1 in s {
        assert s == (s - {n - 1}) + {n - 1};
      } else {
        BelowSize(s, n - 1);
      }
    }
  }

  function WithPair(m: Matrix, left: nat, right: nat): Matrix
    requires left < |m| && right < |m| && left < |m[right]| && right < |m[left]|
    requires left != right
  {
    var half := m[left := m[left][right := true]];
    half[right := half[right][left := true]]
  }

  lemma AddPair(rows: Rows, count: nat, links: seq<Link>, m: Matrix, pairs: Pairs, left: nat, right: nat)
    requires Full(rows, count) && left < right < count && PairReadable(rows, count, left, right)
    requires Listed(rows, count, links, pairs) && Filled(rows, count, m, pairs) && (left, right) !in pairs
    ensures Listed(rows, count, links + [LinkFor(left, right, rows[left][right])], pairs + [(left, right)])
    ensures Filled(rows, count,
                   if IsNVLink(rows[left][right]) then WithPair(m, left, right) else m,
                   pairs + [(left, right)])
  {
    var n := if IsNVLink(rows[left][right]) then WithPair(m, left, right) else m;
    var more := pairs + [(left, right)];
    forall i, j | 0 <= i < count && 0 <= j < count
      ensures n[i][j] <==> ((i, j) in more && IsNVLink(rows[i][j])) || ((j, i) in more && IsNVLink(rows[j][i]))
    {
      assert (i, j) in more <==> (i, j) in pairs || (i == left && j == right);
      assert (j, i) in more <==> (j, i) in pairs || (j == left && i == right);
    }
  }

  lemma CoverPair(count: nat, pairs: Pairs, left: nat, right: nat)
    requires left < right < count && Covered(count, left, right, pairs)
    ensures Covered(count, left, right + 1, pairs + [(left, right)])
  {
    forall i, j
      ensures (i, j) in pairs + [(left, right)] <==> Visited(count, left, right + 1, i, j)
    {
      assert (i, j) in pairs <==> Visited(count, left, right, i, j);
    }
  }

  lemma CoverRow(count: nat, pairs: Pairs, left: nat)
    requires left < count && Covered(count, left, count, pairs)
    ensures Covered(count, left + 1, left + 2, pairs)
  {
    forall i, j
      ensures (i, j) in pairs <==> Visited(count, left + 1, left + 2, i, j)
    {
      assert (i, j) in pairs <==> Visited(count, left, count, i, j);
    }
  }

  lemma AllListed(rows: Rows, count: nat, links: seq<Link>, m: Matrix, pairs: Pairs)
    requires Full(rows, count) && Covered(count, count, count + 1, pairs)
    requires Listed(rows, count, links, pairs) && Filled(rows, count, m, pairs)
    ensures forall i, j :: (i, j) in pairs <==> 0 <= i < j < count
    ensures Readable(rows, count) && SymmetricMatrix(m)
  {
    forall i, j
      ensures (i, j) in pairs <==> 0 <= i < j < count
    {
      assert (i, j) in pairs <==> Visited(count, count, count + 1, i, j);
    }
    forall i, j | 0 <= i < j < count
      ensures PairReadable(rows, count, i, j)
    {
      assert (i, j) in pairs;
      var k :| 0 <= k < |pairs| && pairs[k] == (i, j);
      assert IsLinkOf(rows, count, links[k], pairs[k].0, pairs[k].1);
    }
    forall i, j | 0 <= i < count && 0 <= j < count
      ensures m[i][j] == m[j][i] && !m[i][i]
    {
      assert m[i][j] <==> ((i, j) in pairs && IsNVLink(rows[i][j])) || ((j, i) in pairs && IsNVLink(rows[j][i]));
      assert m[j][i] <==> ((j, i) in pairs && IsNVLink(rows[j][i])) || ((i, j) in pairs && IsNVLink(rows[i][j]));
      assert (i, i) !in pairs;
    }
  }

  // ----- what Build and the scheduler make of it -----

  const GPU_RESOURCE := "nvidia.com/gpu"

  /** The devices of parseNVIDIAQuery with the discovered groups filled in. */
  function GpuDevice(i: nat, product: string, memory: int, group: string): Device {
    Device(GpuName(i), NVIDIA, product, GPU_RESOURCE, None, "", group, memory, UnknownHealth)
  }

  function GpuDevices(products: seq<string>, memories: seq<int>, groups: seq<string>): (r: seq<Device>)
    requires |products| == |memories| == |groups|
    ensures |r| == |groups|
    ensures forall i :: 0 <= i < |r| ==> r[i] == GpuDevice(i, products[i], memories[i], groups[i])
  {
    seq(|groups|, i requires 0 <= i < |groups| => GpuDevice(i, products[i], memories[i], groups[i]))
  }

  lemma GpuNamePlain(n: nat)
    ensures '\0' !in GpuName(n) && GpuName(n) != ""
  {
    ValueOfDigits(n);
    forall c | c in GpuName(n)
      ensures c != '\0'
    {
      var i :| 0 <= i < |GpuName(n)| && GpuName(n)[i] == c;
      if i >= 3 { assert c == Digits(n)[i - 3]; }
    }
  }

  lemma SeparatorUnique(a: string, b: string, c: string, d: string)
    requires '\0' !in a && '\0' !in c && a + "\0" + b == c + "\0" + d
    ensures a == c && b == d
  {
    var s, t := a + "\0" + b, c + "\0" + d;
    assert s[|a|] == '\0' && t[|c|] == '\0';
    assert forall i :: 0 <= i < |a| ==> s[i] == a[i] && a[i] != '\0';
    assert forall i :: 0 <= i < |c| ==> t[i] == c[i] && c[i] != '\0';
    assert a == s[..|a|] && c == t[..|c|];
    assert b == s[|a| + 1..] && d == t[|c| + 1..];
  }

  lemma KeyTellsEndpoints(x: Link, y: Link)
    requires LinkKey(x) == LinkKey(y)
    requires '\0' !in x.source && '\0' !in x.target && '\0' !in y.source && '\0' !in y.target
    ensures Joins(x, y.source, y.target)
  {
    var p, q := Canonical(x), Canonical(y);
    var u, v := LinkTypeName(p.kind), LinkTypeName(q.kind);
    assert LinkKey(x) == p.source + "\0" + (p.target + "\0" + u);
    assert LinkKey(y) == q.source + "\0" + (q.target + "\0" + v);
    SeparatorUnique(p.source, p.target + "\0" + u, q.source, q.target + "\0" + v);
    SeparatorUnique(p.target, u, q.target, v);
  }

  /** Parsed links pass Build's endpoint, type, bandwidth, hop, health and duplicate checks. */
  lemma ParsedLinksAccepted(rows: Rows, count: nat, links: seq<Link>, pairs: Pairs)
    requires Listed(rows, count, links, pairs)
    ensures LinksAccepted(links, set i | 0 <= i < count :: GpuName(i))
  {
    var ids := set i | 0 <= i < count :: GpuName(i);
    forall l | l in links
      ensures ValidLink(l, ids)
    {
      var k :| 0 <= k < |links| && links[k] == l;
      ParsedLinkValid(rows, count, l, pairs[k].0, pairs[k].1);
    }
    forall k, n | 0 <= k < n < |links|
      ensures LinkKey(links[k]) != LinkKey(links[n])
    {
      ParsedKeysDiffer(rows, count, links, pairs, k, n);
    }
  }

  lemma ParsedLinkValid(rows: Rows, count: nat, l: Link, i: int, j: int)
    requires IsLinkOf(rows, count, l, i, j)
    ensures ValidLink(l, set n | 0 <= n < count :: GpuName(n))
  {
    GpuNamesDiffer(i, j);
  }

  lemma ParsedKeysDiffer(rows: Rows, count: nat, links: seq<Link>, pairs: Pairs, k: nat, n: nat)
    requires Listed(rows, count, links, pairs) && k < n < |links|
    ensures LinkKey(links[k]) != LinkKey(links[n])
  {
    var a, b, c, d := pairs[k].0, pairs[k].1, pairs[n].0, pairs[n].1;
    assert IsLinkOf(rows, count, links[k], a, b) && IsLinkOf(rows, count, links[n], c, d);
    assert pairs[k] != pairs[n];
    GpuNamePlain(a);
    GpuNamePlain(b);
    GpuNamePlain(c);
    GpuNamePlain(d);
    GpuNamesDiffer(a, c);
    GpuNamesDiffer(b, d);
    GpuNamesDiffer(a, d);
    GpuNamesDiffer(b, c);
    if LinkKey(links[k]) == LinkKey(links[n]) {
      KeyTellsEndpoints(links[k], links[n]);
    }
  }

  lemma GpuResourceQualified()
    ensures QualifiedResourceName(GPU_RESOURCE)
  {
    var domain, name := "nvidia.com", "gpu";
    assert GPU_RESOURCE[10] == '/' && GPU_RESOURCE[..10] == domain && GPU_RESOURCE[11..] == name;
    forall i | 0 < i < 9
      ensures Lower(domain[i]) || (i == 6 && domain[i] == '.' && Lower(domain[i - 1]) && Lower(domain[i + 1]))
    {
      assert i == 1 || i == 2 || i == 3 || i == 4 || i == 5 || i == 6 || i == 7 || i == 8;
    }
    assert Subdomain(domain);
    assert NamePart(name);
  }

  /** Everything discovery assembles, for readings of the device query. */
  ghost predicate DiscoveredSpec(rows: Rows, spec: TopologySpec, products: seq<string>, memories: seq<int>,
                                 groups: seq<string>, pairs: Pairs, m: Matrix) {
    && |products| == |memories| == |groups|
    && Discovered(rows, |groups|, spec.links, groups, pairs, m)
    && spec.devices == GpuDevices(products, memories, groups)
    && spec.origin.VendorTool? && !spec.linksNil  // the link list is made, even when it stays empty
  }

  /** A discovered topology has links exactly when the host has two GPUs or more. */
  lemma DiscoveredLinksExist(rows: Rows, spec: TopologySpec, products: seq<string>, memories: seq<int>,
                             groups: seq<string>, pairs: Pairs, m: Matrix)
    requires DiscoveredSpec(rows, spec, products, memories, groups, pairs, m)
    ensures spec.links != [] <==> |groups| >= 2
  {
    if |groups| >= 2 {
      assert (0, 1) in pairs;
    }
    if pairs != [] {
      assert (pairs[0].0, pairs[0].1) in pairs;
    }
  }

  lemma GpuIds(products: seq<string>, memories: seq<int>, groups: seq<string>)
    requires |products| == |memories| == |groups|
    ensures IdsOf(GpuDevices(products, memories, groups)) == set i | 0 <= i < |groups| :: GpuName(i)
    ensures DistinctKeys(GpuDevices(products, memories, groups), DeviceId)
  {
    var ds := GpuDevices(products, memories, groups);
    forall i | 0 <= i < |ds|
      ensures GpuName(i) in IdsOf(ds)
    {
      assert ds[i] in ds && ds[i].id == GpuName(i);
    }
    forall id | id in IdsOf(ds)
      ensures id in set i | 0 <= i < |groups| :: GpuName(i)
    {
      var d :| d in ds && d.id == id;
      var i :| 0 <= i < |ds| && ds[i] == d;
    }
    forall i, j | 0 <= i < j < |ds|
      ensures DeviceId(ds[i]) != DeviceId(ds[j])
    {
      GpuNamesDiffer(i, j);
    }
  }

  /** Build accepts a discovered topology exactly when the query gave every GPU a product and no negative memory. */
  lemma DiscoveredTopologyAccepted(rows: Rows, spec: TopologySpec, products: seq<string>, memories: seq<int>,
                                   groups: seq<string>, pairs: Pairs, m: Matrix)
    requires DiscoveredSpec(rows, spec, products, memories, groups, pairs, m)
    ensures Acceptable(spec) <==>
            && spec.nodeName != "" && spec.observedGeneration >= 1 && |groups| > 0
            && forall i :: 0 <= i < |groups| ==> products[i] != "" && memories[i] >= 0
  {
    GpuIds(products, memories, groups);
    ParsedLinksAccepted(rows, |groups|, spec.links, pairs);
    GpuResourceQualified();
    GpuDevicesValid(products, memories, groups);
  }

  lemma GpuDevicesValid(products: seq<string>, memories: seq<int>, groups: seq<string>)
    requires |products| == |memories| == |groups|
    ensures (forall d :: d in GpuDevices(products, memories, groups) ==> ValidDevice(d)) <==>
            forall i :: 0 <= i < |groups| ==> products[i] != "" && memories[i] >= 0
  {
    GpuResourceQualified();
    var ds := GpuDevices(products, memories, groups);
    forall i | 0 <= i < |ds|
      ensures ValidDevice(ds[i]) <==> products[i] != "" && memories[i] >= 0
    {
      GpuNamePlain(i);
    }
    if forall d :: d in ds ==> ValidDevice(d) {
      forall i | 0 <= i < |ds| ensures products[i] != "" && memories[i] >= 0 {
        assert ds[i] in ds;
      }
    }
  }

  /** What Build's snapshot reports for two GPUs between which the matrix has this code. */
  ghost predicate Reports(code: string, l: Link) {
    && l.bandwidthGBps == 0.0 && l.health.UnknownHealth?
    && (l.kind.NVLink? <==> NvCode(code))
    && (l.kind.NVLink? ==> l.hops == 1)
    && (!l.kind.NVLink? ==> l.kind.PCIe? && 1 <= l.hops <= |PCIE_CODES| && code == PCIE_CODES[l.hops - 1])
  }

  /** Every two GPUs, grouped or not, are joined by the link that their code in the matrix stands for. */
  lemma DiscoveredLinkIsCode(rows: Rows, spec: TopologySpec, products: seq<string>, memories: seq<int>,
                             groups: seq<string>, pairs: Pairs, m: Matrix, s: Snapshot, i: nat, j: nat)
    requires DiscoveredSpec(rows, spec, products, memories, groups, pairs, m) && Acceptable(spec) && Represents(spec, s)
    requires i < |groups| && j < |groups| && i != j
    ensures i in rows && j < |rows[i]|
    ensures LinkBetween(s, GpuName(i), GpuName(j)).Some?
    ensures Reports(rows[i][j], LinkBetween(s, GpuName(i), GpuName(j)).value)
  {
    var low, high := if i < j then i else j, if i < j then j else i;
    assert (low as int, high as int) in pairs;
    var k :| 0 <= k < |pairs| && pairs[k] == (low, high);
    OnlyParsedLink(rows, |groups|, spec, pairs, s, k, i, j);
    assert IsLinkOf(rows, |groups|, spec.links[k], low, high);
    LinkReports(rows[low][high], low, high);
  }

  lemma LinkReports(code: string, i: nat, j: nat)
    requires Classify(code).Some?
    ensures Reports(code, LinkFor(i, j, code)) && forall a, b :: Reports(code, Oriented(LinkFor(i, j, code), a, b))
  {
    CodesClassified(code);
    if !NvCode(code) {
      var n :| 0 <= n < |PCIE_CODES| && PCIE_CODES[n] == code;
    }
  }

  /**
   Two GPUs of a discovered topology, grouped or not, qualify under a policy exactly when their
   code is an NVLink code and the policy allows unknown topology, asks for no bandwidth and
   admits at least one hop.
   */
  lemma DiscoveredPairsQualify(rows: Rows, spec: TopologySpec, products: seq<string>, memories: seq<int>,
                               groups: seq<string>, pairs: Pairs, m: Matrix,
                               s: Snapshot, policy: PolicySpec, i: nat, j: nat)
    requires DiscoveredSpec(rows, spec, products, memories, groups, pairs, m) && Acceptable(spec) && Represents(spec, s)
    requires i < |groups| && j < |groups| && i != j && i in rows && j < |rows[i]|
    ensures Qualified(s, policy, GpuName(i), GpuName(j)) <==>
            && NvCode(rows[i][j])
            && policy.allowUnknownTopology && policy.minimumLinkBandwidthGBps <= 0.0 && policy.maxFabricHops >= 1
  {
    DiscoveredLinkIsCode(rows, spec, products, memories, groups, pairs, m, s, i, j);
  }

  /**
   Devices that share a discovered group qualify pairwise under exactly those policies that
   allow unknown topology, ask for no bandwidth and admit at least one hop.
   */
  lemma DiscoveredGroupsQualify(rows: Rows, spec: TopologySpec, products: seq<string>, memories: seq<int>,
                                groups: seq<string>, pairs: Pairs, m: Matrix,
                                s: Snapshot, policy: PolicySpec, i: nat, j: nat)
    requires DiscoveredSpec(rows, spec, products, memories, groups, pairs, m) && Acceptable(spec) && Represents(spec, s)
    requires i < |groups| && j < |groups| && i != j
    requires spec.devices[i].fabricGroup == spec.devices[j].fabricGroup != ""
    ensures Qualified(s, policy, GpuName(i), GpuName(j)) <==>
            policy.allowUnknownTopology && policy.minimumLinkBandwidthGBps <= 0.0 && policy.maxFabricHops >= 1
  {
    var low, high := if i < j then i else j, if i < j then j else i;
    GroupedPairIsNVLink(rows, |groups|, spec.links, groups, pairs, m, low, high);
    DiscoveredLinkIsCode(rows, spec, products, memories, groups, pairs, m, s, i, j);
    assert PairReadable(rows, |groups|, low, high);
    CodesClassified(rows[i][j]);
    DiscoveredPairsQualify(rows, spec, products, memories, groups, pairs, m, s, policy, i, j);
  }

  lemma GroupedPairIsNVLink(rows: Rows, count: nat, links: seq<Link>, groups: seq<string>, pairs: Pairs, m: Matrix,
                            i: nat, j: nat)
    requires Discovered(rows, count, links, groups, pairs, m) && i < j < count && groups[i] == groups[j] != ""
    ensures (i as int, j as int) in pairs && IsNVLink(rows[i][j])
  {
    JoinedFacts(m);
    assert Joined(m, i, j) && CompleteAround(m, i);
    assert Wired(m)(i, j);
    assert m[i][j] && (j as int, i as int) !in pairs;
  }

  lemma OnlyParsedLink(rows: Rows, count: nat, spec: TopologySpec, pairs: Pairs, s: Snapshot, k: nat, i: nat, j: nat)
    requires Listed(rows, count, spec.links, pairs) && Acceptable(spec) && Represents(spec, s)
    requires k < |pairs| && (pairs[k] == (i as int, j as int) || pairs[k] == (j as int, i as int))
    ensures LinkBetween(s, GpuName(i), GpuName(j)) == Some(Oriented(spec.links[k], GpuName(i), GpuName(j)))
  {
    var a, b := GpuName(i), GpuName(j);
    assert IsLinkOf(rows, count, spec.links[k], pairs[k].0, pairs[k].1);
    assert spec.links[k] in spec.links && Joins(spec.links[k], a, b);
    LinkFound(spec, s, spec.links[k], a, b);
    var l := GreatestLink(spec, s, a, b);
    var n :| 0 <= n < |spec.links| && spec.links[n] == l;
    assert IsLinkOf(rows, count, l, pairs[n].0, pairs[n].1);
    GpuNamesDiffer(pairs[n].0, i);
    GpuNamesDiffer(pairs[n].0, j);
    GpuNamesDiffer(pairs[n].1, i);
    GpuNamesDiffer(pairs[n].1, j);
    assert pairs[n] == pairs[k];
    assert n == k;
  }
}
