/**
 The scoring half of pkg/plugin/topologyfit/evaluate.go and validatePolicy of plugin.go, with
 Go's fixed-width arithmetic where it can be observed.
 */
module Scoring {
  import opened Orders
  import opened GoIntegers
  import opened Api
  import opened Topology
  import opened SnapshotProperties
  import opened Paths
  import opened Cliques
  import opened Groups
  import opened Selection

  // ----- percentages -----

  function RawPercentage(numerator: int, denominator: int): int {
    if denominator <= 0 || numerator <= 0 then 0 else GoDiv(Wrap64(numerator * 100), denominator)
  }

  function Percentage(numerator: int, denominator: int): int {
    if RawPercentage(numerator, denominator) > 100 then 100 else RawPercentage(numerator, denominator)
  }

  /** Up to its denominator a percentage is at most 100, even when the product overflows int64. */
  lemma PercentageUnclamped(numerator: int, denominator: int)
    requires numerator <= denominator
    ensures RawPercentage(numerator, denominator) <= 100
    ensures numerator * 100 < TWO63 && numerator >= 0 ==> RawPercentage(numerator, denominator) >= 0
    ensures numerator * 100 < TWO63 && 0 < numerator ==>
              RawPercentage(numerator, denominator) == numerator * 100 / denominator
  {
    if 0 < numerator {
      var product := numerator * 100;
      assert product <= 100 * denominator;
      assert Wrap64(product) <= product by {
        assert Wrap64(product) == product || product >= TWO63;
      }
      DivAtMost(Wrap64(product), denominator, 100);
    }
  }

  // ----- features -----

  datatype Features = Features(locality: int, fabric: int, fragmentation: int, headroom: int)

  function RowCount(g: Graph, x: string, others: seq<string>): (n: nat)
    ensures n <= |others|
  {
    if others == [] then 0 else (if g(x, others[0]) then 1 else 0) + RowCount(g, x, others[1..])
  }

  /** The number of unordered pairs of devices joined by a qualifying link. */
  function EdgeCount(g: Graph, ids: seq<string>): nat {
    if ids == [] then 0 else RowCount(g, ids[0], ids[1..]) + EdgeCount(g, ids[1..])
  }

  function PossibleEdges(n: nat): nat { n * (n - 1) / 2 }

  lemma PossibleStep(n: nat)
    ensures PossibleEdges(n + 1) == PossibleEdges(n) + n
  {
    assert (n + 1) * n == n * (n - 1) + 2 * n;
  }

  lemma {:induction false} FullRow(g: Graph, x: string, others: seq<string>)
    ensures RowCount(g, x, others) == |others| <==> forall i :: 0 <= i < |others| ==> g(x, others[i])
  {
    if others != [] {
      FullRow(g, x, others[1..]);
      assert forall i :: 0 < i < |others| ==> others[i] == others[1..][i - 1];
    }
  }

  ghost predicate AllPairs(g: Graph, ids: seq<string>) {
    forall i, j :: 0 <= i < j < |ids| ==> g(ids[i], ids[j])
  }

  /** Qualified edges never exceed n(n-1)/2 and reach it exactly when every pair qualifies. */
  lemma {:induction false} EdgesBounded(g: Graph, ids: seq<string>)
    ensures EdgeCount(g, ids) <= PossibleEdges(|ids|)
    ensures EdgeCount(g, ids) == PossibleEdges(|ids|) <==> AllPairs(g, ids)
  {
    if ids != [] {
      var rest := ids[1..];
      EdgesBounded(g, rest);
      PossibleStep(|rest|);
      FullRow(g, ids[0], rest);
      assert AllPairs(g, ids) <==> AllPairs(g, rest) && forall i :: 0 <= i < |rest| ==> g(ids[0], rest[i]) by {
        PairsSplit(g, ids);
      }
    }
  }

  lemma PairsSplit(g: Graph, ids: seq<string>)
    requires ids != []
    ensures AllPairs(g, ids) <==> AllPairs(g, ids[1..]) && forall i :: 0 <= i < |ids[1..]| ==> g(ids[0], ids[1..][i])
  {
    var rest := ids[1..];
    if AllPairs(g, ids) {
      forall i, j | 0 <= i < j < |rest| ensures g(rest[i], rest[j]) {
        assert g(ids[i + 1], ids[j + 1]);
      }
      forall i | 0 <= i < |rest| ensures g(ids[0], rest[i]) {
        assert g(ids[0], ids[i + 1]);
      }
    }
    if AllPairs(g, rest) && forall i :: 0 <= i < |rest| ==> g(ids[0], rest[i]) {
      forall i, j | 0 <= i < j < |ids| ensures g(ids[i], ids[j]) {
        assert ids[j] == rest[j - 1];
        if i > 0 { assert ids[i] == rest[i - 1]; }
      }
    }
  }

  function Max(x: int, y: int): int { if x > y then x else y }

  ghost predicate FeaturesOf(s: Snapshot, devices: seq<Device>, policy: PolicySpec,
                             requested: int, remaining: int, allocatable: int, f: Features) {
    && (exists numa: nat, root: nat ::
          && LargestGroup(devices, NumaKey(policy.allowUnknownTopology), numa)
          && LargestGroup(devices, RootKey(policy.allowUnknownTopology), root)
          && f.locality == Percentage(Max(numa, root), |devices|))
    && f.fabric == Percentage(EdgeCount(Fabric(s, policy), IdList(devices)), PossibleEdges(|devices|))
    && f.fragmentation == Percentage(requested, |devices|)
    && f.headroom == Percentage(remaining - requested, allocatable)
  }

  /** The same features as bare quotients, without percentage's upper clamp. */
  ghost predicate PlainFeatures(s: Snapshot, devices: seq<Device>, policy: PolicySpec,
                                requested: int, remaining: int, allocatable: int, f: Features) {
    && (exists numa: nat, root: nat ::
          && LargestGroup(devices, NumaKey(policy.allowUnknownTopology), numa)
          && LargestGroup(devices, RootKey(policy.allowUnknownTopology), root)
          && f.locality == RawPercentage(Max(numa, root), |devices|))
    && f.fabric == RawPercentage(EdgeCount(Fabric(s, policy), IdList(devices)), PossibleEdges(|devices|))
    && f.fragmentation == RawPercentage(requested, |devices|)
    && f.headroom == RawPercentage(remaining - requested, allocatable)
  }

  method ScoreFeatures(s: Snapshot, devices: seq<Device>, policy: PolicySpec,
                       requested: int, remaining: int, allocatable: int) returns (f: Features)
    ensures FeaturesOf(s, devices, policy, requested, remaining, allocatable, f)
  {
    var localityGroup := MaxNumaGroup(devices, policy.allowUnknownTopology);
    ghost var numa := localityGroup;
    var pcieGroup := MaxRootGroup(devices, policy.allowUnknownTopology);
    if pcieGroup > localityGroup {
      localityGroup := pcieGroup;
    }
    assert localityGroup == Max(numa, pcieGroup);
    var edges := CountEdges(Fabric(s, policy), IdList(devices));
    f := Features(
      Percentage(localityGroup, |devices|),
      Percentage(edges, |devices| * (|devices| - 1) / 2),
      Percentage(requested, |devices|),
      Percentage(remaining - requested, allocatable));
  }

  method MaxRootGroup(devices: seq<Device>, allowUnknown: bool) returns (m: nat)
    ensures LargestGroup(devices, RootKey(allowUnknown), m)
  {
    var key := (d: Device) => d.pcieRoot;
    m := MaxStringGroup(devices, key, allowUnknown);
    var filed: Key<string> := d => if key(d) == "" && !allowUnknown then None else Some(key(d));
    assert SameClasses(devices, filed, RootKey(allowUnknown));
    SameLargest(devices, filed, RootKey(allowUnknown), m);
  }

  /** The two nested loops over device pairs. */
  method CountEdges(g: Graph, ids: seq<string>) returns (edges: nat)
    ensures edges == EdgeCount(g, ids)
  {
    edges := 0;
    for left := 0 to |ids|
      invariant edges + EdgeCount(g, ids[left..]) == EdgeCount(g, ids)
    {
      assert ids[left..][0] == ids[left] && ids[left..][1..] == ids[left + 1..];
      for right := left + 1 to |ids|
        invariant edges + RowCount(g, ids[left], ids[right..]) + EdgeCount(g, ids[left + 1..]) == EdgeCount(g, ids)
      {
        assert ids[right..][0] == ids[right] && ids[right..][1..] == ids[right + 1..];
        if g(ids[left], ids[right]) {
          edges := edges + 1;
        }
      }
    }
  }

  // ----- the weighted score -----

  const MIN_SCORE := 0
  const MAX_SCORE := 100

  function RawScore(f: Features, w: ScoreWeights): int {
    GoDiv(f.locality * w.locality + f.fabric * w.fabric +
          f.fragmentation * w.fragmentation + f.headroom * w.headroom, 100)
  }

  function WeightedScore(f: Features, w: ScoreWeights): int {
    if RawScore(f, w) < MIN_SCORE then MIN_SCORE else if RawScore(f, w) > MAX_SCORE then MAX_SCORE else RawScore(f, w)
  }

  /** This is the score of a node that offers these devices and capacities. */
  ghost predicate Scores(s: Snapshot, devices: seq<Device>, policy: PolicySpec,
                         requested: int, remaining: int, allocatable: int, score: int) {
    exists f ::
      && FeaturesOf(s, devices, policy, requested, remaining, allocatable, f)
      && score == WeightedScore(f, policy.weights)
  }

  method Score(s: Snapshot, devices: seq<Device>, policy: PolicySpec,
               requested: int, remaining: int, allocatable: int) returns (score: int)
    ensures Scores(s, devices, policy, requested, remaining, allocatable, score)
  {
    var f := ScoreFeatures(s, devices, policy, requested, remaining, allocatable);
    score := WeightedScore(f, policy.weights);
  }

  predicate Nonnegative(w: ScoreWeights) {
    w.locality >= 0 && w.fabric >= 0 && w.fragmentation >= 0 && w.headroom >= 0
  }

  predicate AtMost100(w: ScoreWeights) {
    w.locality <= 100 && w.fabric <= 100 && w.fragmentation <= 100 && w.headroom <= 100
  }

  /** The sum as Go computes it, wrapping after each addition. */
  function Int32Sum(w: ScoreWeights): int {
    Wrap32(Wrap32(Wrap32(w.locality + w.fabric) + w.fragmentation) + w.headroom)
  }

  function WeightSum(w: ScoreWeights): int {
    w.locality + w.fabric + w.fragmentation + w.headroom
  }

  predicate Within(f: Features, low: int, high: int) {
    && low <= f.locality <= high && low <= f.fabric <= high
    && low <= f.fragmentation <= high && low <= f.headroom <= high
  }

  lemma ScaleAtMost(x: int, w: int)
    requires w >= 0 && x <= 100
    ensures x * w <= 100 * w
    ensures x >= 0 ==> x * w >= 0
  {
    assert (100 - x) * w >= 0;
  }

  lemma RawScoreBounded(f: Features, w: ScoreWeights)
    requires Nonnegative(w) && WeightSum(w) == 100
    requires f.locality <= 100 && f.fabric <= 100 && f.fragmentation <= 100 && f.headroom <= 100
    ensures RawScore(f, w) <= 100
    ensures Within(f, 0, 100) ==> RawScore(f, w) >= 0
  {
    ScaleAtMost(f.locality, w.locality);
    ScaleAtMost(f.fabric, w.fabric);
    ScaleAtMost(f.fragmentation, w.fragmentation);
    ScaleAtMost(f.headroom, w.headroom);
    var total := f.locality * w.locality + f.fabric * w.fabric +
                 f.fragmentation * w.fragmentation + f.headroom * w.headroom;
    assert total <= 100 * WeightSum(w);
    DivAtMost(total, 100, 100);
  }

  lemma LargestAtMost<K(!new)>(devices: seq<Device>, key: Key<K>, m: nat)
    requires LargestGroup(devices, key, m)
    ensures m <= |devices|
  {
    if m != 0 {
      var x :| |Members(devices, key, x)| == m;
      FilterShorter(devices, HasKey(key, x));
    }
  }

  lemma {:induction false} FilterShorter<T(!new)>(s: seq<T>, keep: T -> bool)
    ensures |Filter(s, keep)| <= |s|
  {
    if s != [] { FilterShorter(s[..|s| - 1], keep); }
  }

  /** The request fits the offered devices and the node's remaining scalar capacity. */
  predicate Fits(devices: seq<Device>, requested: int, remaining: int, allocatable: int) {
    1 <= requested <= |devices| && requested <= remaining <= allocatable
  }

  /**
   For a request that fits, and weights that add up to 100, neither a feature nor the score
   ever needs its upper clamp; and while no product overflows int64 the features lie in 0..100
   and the lower clamp is idle too.
   */
  lemma ScoreNeedsNoUpperClamp(s: Snapshot, devices: seq<Device>, policy: PolicySpec,
                               requested: int, remaining: int, allocatable: int, f: Features, w: ScoreWeights)
    requires Fits(devices, requested, remaining, allocatable)
    requires FeaturesOf(s, devices, policy, requested, remaining, allocatable, f)
    requires Nonnegative(w) && WeightSum(w) == 100
    ensures PlainFeatures(s, devices, policy, requested, remaining, allocatable, f)
    ensures RawScore(f, w) <= 100
    ensures allocatable * 100 < TWO63 && |devices| * 100 < TWO63 && PossibleEdges(|devices|) * 100 < TWO63 ==>
              Within(f, 0, 100) && WeightedScore(f, w) == RawScore(f, w)
  {
    var numa: nat, root: nat :| && LargestGroup(devices, NumaKey(policy.allowUnknownTopology), numa)
                      && LargestGroup(devices, RootKey(policy.allowUnknownTopology), root)
                      && f.locality == Percentage(Max(numa, root), |devices|);
    assert Max(numa, root) <= |devices| by {
      LargestAtMost(devices, NumaKey(policy.allowUnknownTopology), numa);
      LargestAtMost(devices, RootKey(policy.allowUnknownTopology), root);
    }
    FeatureBounds(Max(numa, root), |devices|, f.locality);
    assert EdgeCount(Fabric(s, policy), IdList(devices)) <= PossibleEdges(|devices|) by {
      EdgesBounded(Fabric(s, policy), IdList(devices));
    }
    FeatureBounds(EdgeCount(Fabric(s, policy), IdList(devices)), PossibleEdges(|devices|), f.fabric);
    FeatureBounds(requested, |devices|, f.fragmentation);
    FeatureBounds(remaining - requested, allocatable, f.headroom);
    RawScoreBounded(f, w);
  }

  lemma LargestUnique<K(!new)>(devices: seq<Device>, key: Key<K>, m: nat, n: nat)
    requires LargestGroup(devices, key, m) && LargestGroup(devices, key, n)
    ensures m == n
  {
    if m != 0 {
      var x :| |Members(devices, key, x)| == m;
    }
    if n != 0 {
      var y :| |Members(devices, key, y)| == n;
    }
  }

  /** A node has one score: the inputs determine all four features. */
  lemma FeaturesDetermined(s: Snapshot, devices: seq<Device>, policy: PolicySpec,
                           requested: int, remaining: int, allocatable: int, f: Features, g: Features)
    requires FeaturesOf(s, devices, policy, requested, remaining, allocatable, f)
    requires FeaturesOf(s, devices, policy, requested, remaining, allocatable, g)
    ensures f == g
  {
    var byNuma, byRoot := NumaKey(policy.allowUnknownTopology), RootKey(policy.allowUnknownTopology);
    var numa: nat, root: nat :| LargestGroup(devices, byNuma, numa) && LargestGroup(devices, byRoot, root)
                                && f.locality == Percentage(Max(numa, root), |devices|);
    var numa': nat, root': nat :| LargestGroup(devices, byNuma, numa') && LargestGroup(devices, byRoot, root')
                                  && g.locality == Percentage(Max(numa', root'), |devices|);
    LargestUnique(devices, byNuma, numa, numa');
    LargestUnique(devices, byRoot, root, root');
  }

  lemma FeatureBounds(numerator: nat, denominator: int, feature: int)
    requires numerator <= denominator && feature == Percentage(numerator, denominator)
    ensures feature == RawPercentage(numerator, denominator) && feature <= 100
    ensures denominator * 100 < TWO63 ==> feature >= 0
  {
    PercentageUnclamped(numerator, denominator);
  }

  /**
   With at least two devices the fabric feature is 100 exactly when every pair qualifies, and
   then clique selection succeeds for every request up to the number of devices.
   */
  lemma FullFabricScore(s: Snapshot, devices: seq<Device>, policy: PolicySpec)
    requires Built(s) && Offered(s, devices) && |devices| >= 2 && PossibleEdges(|devices|) * 100 < TWO63
    ensures var feature := Percentage(EdgeCount(Fabric(s, policy), IdList(devices)), PossibleEdges(|devices|));
            feature == 100 <==> AllPairs(Fabric(s, policy), IdList(devices))
    ensures AllPairs(Fabric(s, policy), IdList(devices)) ==>
              forall k :: 1 <= k <= |devices| ==> Feasible(s, devices, policy.(topologyMode := FabricClique), k)
  {
    var g, ids := Fabric(s, policy), IdList(devices);
    EdgesBounded(g, ids);
    PossibleStep(|devices| - 1);
    PercentageOfAll(EdgeCount(g, ids), PossibleEdges(|devices|));
    if AllPairs(g, ids) {
      forall k | 1 <= k <= |devices|
        ensures Feasible(s, devices, policy.(topologyMode := FabricClique), k)
      {
        SameEdges(s, policy, FabricClique, ids);
        FullCliqueFeasible(s, devices, policy.(topologyMode := FabricClique), k);
      }
    }
  }

  lemma SameEdges(s: Snapshot, policy: PolicySpec, mode: TopologyMode, ids: seq<string>)
    ensures AllPairs(Fabric(s, policy), ids) <==> AllPairs(Fabric(s, policy.(topologyMode := mode)), ids)
  {
    var g, h := Fabric(s, policy), Fabric(s, policy.(topologyMode := mode));
    assert forall a, b :: g(a, b) <==> h(a, b);
  }

  lemma PercentageOfAll(e: nat, p: nat)
    requires p >= 1 && e <= p && p * 100 < TWO63
    ensures Percentage(e, p) == 100 <==> e == p
  {
    PercentageUnclamped(e, p);
    QuotientOfHundred(e, p);
  }

  lemma QuotientOfHundred(e: nat, p: nat)
    requires 1 <= p && e <= p
    ensures e * 100 / p >= 100 <==> e == p
  {
    var q := e * 100 / p;
    assert q * p <= e * 100 < (q + 1) * p;
    if q >= 100 {
      ScaleUp(100, q, p);
    } else {
      ScaleUp(q + 1, 100, p);
    }
  }

  lemma ScaleUp(a: int, b: int, p: nat)
    requires a <= b
    ensures a * p <= b * p
  {
    assert (b - a) * p >= 0;
  }

  lemma FullCliqueFeasible(s: Snapshot, devices: seq<Device>, policy: PolicySpec, k: int)
    requires Built(s) && Offered(s, devices) && policy.topologyMode.FabricClique?
    requires AllPairs(Fabric(s, policy), IdList(devices))
    requires 1 <= k <= |devices|
    ensures Feasible(s, devices, policy, k)
  {
    var g, ids := Fabric(s, policy), IdList(devices);
    FabricSymmetric(s, policy);
    PrefixCliqueFound(g, ids, k);
  }

  lemma PrefixCliqueFound(g: Graph, ids: seq<string>, k: nat)
    requires Symmetric(g) && Ascending(ids) && AllPairs(g, ids) && 1 <= k <= |ids|
    ensures LeastClique(g, k, [], ids) != []
  {
    PrefixClique(g, ids, k);
    CliqueSearchExact(g, ids, k);
  }

  lemma PrefixClique(g: Graph, ids: seq<string>, k: nat)
    requires Symmetric(g) && Ascending(ids) && AllPairs(g, ids) && k <= |ids|
    ensures exists c: set<string> :: |c| == k && c <= Elements(ids) && CliqueSet(g, c)
  {
    var chosen := ids[..k];
    AscendingDistinct(chosen);
    DistinctSize(chosen);
    forall a, b | a in Elements(chosen) && b in Elements(chosen) && a != b
      ensures g(a, b)
    {
      var i :| 0 <= i < k && ids[i] == a;
      var j :| 0 <= j < k && ids[j] == b;
      if i < j {
        assert g(ids[i], ids[j]);
      } else {
        assert g(ids[j], ids[i]);
      }
    }
    assert |Elements(chosen)| == k && Elements(chosen) <= Elements(ids) && CliqueSet(g, Elements(chosen));
  }

  // ----- validatePolicy -----

  predicate Int32Weights(w: ScoreWeights) {
    Int32(w.locality) && Int32(w.fabric) && Int32(w.fragmentation) && Int32(w.headroom)
  }

  predicate PolicyAccepted(p: PolicySpec) {
    && (p.draDeviceCount.Some? ==>
          p.draDeviceCount.value >= 1 && !p.topologyMode.FabricConnected? && !p.allowUnknownTopology)
    && !p.vendor.OtherVendor?
    && p.minimumMemoryMiB >= 0 && p.minimumLinkBandwidthGBps >= 0.0 && p.maxFabricHops >= 0
    && (forall i :: 0 <= i < |p.products| ==> p.products[i] != "")
    && !p.topologyMode.OtherMode?
    && !p.failurePolicy.OtherFailure?
    && Nonnegative(p.weights)
    && Int32Sum(p.weights) == 100
  }

  method ValidatePolicy(p: PolicySpec) returns (ok: bool)
    ensures ok <==> PolicyAccepted(p)
  {
    if p.draDeviceCount.Some? {
      if p.draDeviceCount.value < 1 { return false; }
      if p.topologyMode.FabricConnected? || p.allowUnknownTopology { return false; }
    }
    match p.vendor {
      case NoVendor | AnyVendor | NVIDIA | Huawei | AMD =>
      case OtherVendor(_) => return false;
    }
    if p.minimumMemoryMiB < 0 || p.minimumLinkBandwidthGBps < 0.0 || p.maxFabricHops < 0 { return false; }
    for i := 0 to |p.products|
      invariant forall j :: 0 <= j < i ==> p.products[j] != ""
    {
      if p.products[i] == "" { return false; }
    }
    if p.topologyMode.OtherMode? { return false; }
    if !p.failurePolicy.FailClosed? && !p.failurePolicy.ToleratesMissing? { return false; }
    var w := p.weights;
    if w.locality < 0 || w.fabric < 0 || w.fragmentation < 0 || w.headroom < 0
       || Wrap32(Wrap32(Wrap32(w.locality + w.fabric) + w.fragmentation) + w.headroom) != 100 {
      return false;
    }
    return true;
  }

  /** A policy is refused for exactly these reasons. */
  lemma PolicyRefusals(p: PolicySpec)
    ensures !PolicyAccepted(p) <==>
            || (p.draDeviceCount.Some? && (p.draDeviceCount.value <= 0 || p.topologyMode == FabricConnected))
            || (p.draDeviceCount.Some? && p.allowUnknownTopology)
            || p.vendor !in {NoVendor, AnyVendor, NVIDIA, Huawei, AMD}
            || p.minimumMemoryMiB < 0 || p.minimumLinkBandwidthGBps < 0.0 || p.maxFabricHops < 0 || "" in p.products
            || p.topologyMode !in {SingleNUMA, SamePCIeRoot, FabricClique, FabricConnected, BestEffort}
            || p.failurePolicy !in {FailClosed, ToleratesMissing}
            || p.weights.locality < 0 || p.weights.fabric < 0 || p.weights.fragmentation < 0 || p.weights.headroom < 0
            || Int32Sum(p.weights) != 100
  {
    if "" in p.products {
      var i :| 0 <= i < |p.products| && p.products[i] == "";
    }
  }

  lemma WrappedSum(w: ScoreWeights)
    requires Int32Weights(w) && Nonnegative(w)
    ensures Int32Sum(w) == 100 <==> WeightSum(w) == 100 || WeightSum(w) == TWO32 + 100
  {
    var first := w.locality + w.fabric;
    var second := Wrap32(first) + w.fragmentation;
    Wrap32Once(first);
    Wrap32Once(second);
    Wrap32Once(Wrap32(second) + w.headroom);
  }

  /**
   The int32 sum test alone does not make the weights add up to 100: it does so exactly when
   each weight is at most 100, which is also exactly when no score can exceed 100.
   */
  lemma WeightsDecideTheClamp(p: PolicySpec)
    requires Int32Weights(p.weights) && PolicyAccepted(p)
    ensures WeightSum(p.weights) == 100 <==> AtMost100(p.weights)
    ensures (forall f :: Within(f, 0, 100) ==> RawScore(f, p.weights) <= 100) <==> AtMost100(p.weights)
  {
    var w := p.weights;
    WrappedSum(w);
    if AtMost100(w) {
      forall f | Within(f, 0, 100)
        ensures RawScore(f, w) <= 100
      {
        RawScoreBounded(f, w);
      }
    } else {
      var full := Features(100, 100, 100, 100);
      assert Within(full, 0, 100);
      assert RawScore(full, w) == WeightSum(w);
    }
  }

  /** Weights that pass the int32 test and yet add up to 4294967396. */
  lemma WrappedWeightsAccepted(p: PolicySpec)
    requires p.draDeviceCount.None? && p.vendor.AnyVendor? && p.products == [] && p.minimumMemoryMiB == 0
    requires p.minimumLinkBandwidthGBps == 0.0 && p.maxFabricHops == 0
    requires p.topologyMode.BestEffort? && p.failurePolicy.FailClosed?
    requires p.weights == ScoreWeights(TWO31 - 1, TWO31 - 1, 102, 0)
    ensures PolicyAccepted(p) && Int32Weights(p.weights) && WeightSum(p.weights) != 100
    ensures RawScore(Features(100, 0, 0, 0), p.weights) > 100
  {
    WrappedSum(p.weights);
  }
}
