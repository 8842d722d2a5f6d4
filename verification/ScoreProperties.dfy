/**
 What the features and the score of pkg/plugin/topologyfit/evaluate.go mean: each weight goes
 with its own feature, and each feature reaches its extremes in the case it stands for.
 */
module ScoreProperties {
  import opened Orders
  import opened GoIntegers
  import opened Api
  import opened Topology
  import opened SnapshotProperties
  import opened Groups
  import opened Scoring

  predicate NoNegative(f: Features) {
    f.locality >= 0 && f.fabric >= 0 && f.fragmentation >= 0 && f.headroom >= 0
  }

  lemma Product(x: int, y: int)
    requires x >= 0 && y >= 0
    ensures x * y >= 0
  {
  }

  lemma SumNonnegative(f: Features, w: ScoreWeights)
    requires NoNegative(f) && Nonnegative(w)
    ensures Weighted(f, w) >= 0
  {
    Product(f.locality, w.locality);
    Product(f.fabric, w.fabric);
    Product(f.fragmentation, w.fragmentation);
    Product(f.headroom, w.headroom);
  }

  /** The sum that the score divides by 100. */
  function Weighted(f: Features, w: ScoreWeights): int {
    f.locality * w.locality + f.fabric * w.fabric + f.fragmentation * w.fragmentation + f.headroom * w.headroom
  }

  lemma HundredsMore(total: int, d: int)
    requires total >= 0 && d >= 0
    ensures GoDiv(total + 100 * d, 100) == GoDiv(total, 100) + d
  {
  }

  lemma Distribute(x: int, d: int, w: int)
    ensures (x + 100 * d) * w == x * w + 100 * (d * w)
  {
  }

  /** Raising one feature by d hundreds raises the score by d times the weight of that feature. */
  lemma EachWeightItsFeature(f: Features, w: ScoreWeights, d: nat)
    requires NoNegative(f) && Nonnegative(w)
    ensures RawScore(Features(0, 0, 0, 0), w) == 0
    ensures RawScore(f.(locality := f.locality + 100 * d), w) == RawScore(f, w) + d * w.locality
    ensures RawScore(f.(fabric := f.fabric + 100 * d), w) == RawScore(f, w) + d * w.fabric
    ensures RawScore(f.(fragmentation := f.fragmentation + 100 * d), w) == RawScore(f, w) + d * w.fragmentation
    ensures RawScore(f.(headroom := f.headroom + 100 * d), w) == RawScore(f, w) + d * w.headroom
  {
    SumNonnegative(f, w);
    RaiseLocality(f, w, d);
    RaiseFabric(f, w, d);
    RaiseFragmentation(f, w, d);
    RaiseHeadroom(f, w, d);
  }

  lemma RaiseLocality(f: Features, w: ScoreWeights, d: nat)
    requires Nonnegative(w) && Weighted(f, w) >= 0
    ensures RawScore(f.(locality := f.locality + 100 * d), w) == RawScore(f, w) + d * w.locality
  {
    Distribute(f.locality, d, w.locality);
    Product(d, w.locality);
    HundredsMore(Weighted(f, w), d * w.locality);
  }

  lemma RaiseFabric(f: Features, w: ScoreWeights, d: nat)
    requires Nonnegative(w) && Weighted(f, w) >= 0
    ensures RawScore(f.(fabric := f.fabric + 100 * d), w) == RawScore(f, w) + d * w.fabric
  {
    Distribute(f.fabric, d, w.fabric);
    Product(d, w.fabric);
    HundredsMore(Weighted(f, w), d * w.fabric);
  }

  lemma RaiseFragmentation(f: Features, w: ScoreWeights, d: nat)
    requires Nonnegative(w) && Weighted(f, w) >= 0
    ensures RawScore(f.(fragmentation := f.fragmentation + 100 * d), w) == RawScore(f, w) + d * w.fragmentation
  {
    Distribute(f.fragmentation, d, w.fragmentation);
    Product(d, w.fragmentation);
    HundredsMore(Weighted(f, w), d * w.fragmentation);
  }

  lemma RaiseHeadroom(f: Features, w: ScoreWeights, d: nat)
    requires Nonnegative(w) && Weighted(f, w) >= 0
    ensures RawScore(f.(headroom := f.headroom + 100 * d), w) == RawScore(f, w) + d * w.headroom
  {
    Distribute(f.headroom, d, w.headroom);
    Product(d, w.headroom);
    HundredsMore(Weighted(f, w), d * w.headroom);
  }

  /** With the whole weight on one feature, the score is that feature. */
  lemma SoleWeight(f: Features)
    requires Within(f, 0, 100)
    ensures WeightedScore(f, ScoreWeights(100, 0, 0, 0)) == f.locality
    ensures WeightedScore(f, ScoreWeights(0, 100, 0, 0)) == f.fabric
    ensures WeightedScore(f, ScoreWeights(0, 0, 100, 0)) == f.fragmentation
    ensures WeightedScore(f, ScoreWeights(0, 0, 0, 100)) == f.headroom
  {
  }

  /** All devices share a group of this key. */
  ghost predicate AllInOneGroup<K(!new)>(devices: seq<Device>, key: Key<K>) {
    exists x :: AllHaveKey(devices, key, x)
  }

  ghost predicate AllHaveKey<K(!new)>(devices: seq<Device>, key: Key<K>, x: K) {
    forall d :: d in devices ==> key(d) == Some(x)
  }

  lemma WholeGroup<K(!new)>(devices: seq<Device>, key: Key<K>, m: nat)
    requires LargestGroup(devices, key, m) && devices != []
    ensures m == |devices| <==> AllInOneGroup(devices, key)
  {
    if m == |devices| {
      var x :| |Members(devices, key, x)| == m;
      FullFilter(devices, HasKey(key, x));
      assert AllHaveKey(devices, key, x);
    }
    if AllInOneGroup(devices, key) {
      var x :| AllHaveKey(devices, key, x);
      KeepsAll(devices, HasKey(key, x));
      assert |Members(devices, key, x)| == |devices|;
      LargestAtMost(devices, key, m);
    }
  }

  lemma {:induction false} FullFilter(devices: seq<Device>, keep: Device -> bool)
    requires |Filter(devices, keep)| == |devices|
    ensures forall d :: d in devices ==> keep(d)
  {
    if devices != [] {
      var n := |devices| - 1;
      FilterShorter(devices[..n], keep);
      FullFilter(devices[..n], keep);
      assert devices == devices[..n] + [devices[n]];
    }
  }

  lemma {:induction false} KeepsAll(devices: seq<Device>, keep: Device -> bool)
    requires forall d :: d in devices ==> keep(d)
    ensures |Filter(devices, keep)| == |devices|
  {
    if devices != [] {
      KeepsAll(devices[..|devices| - 1], keep);
    }
  }

  /**
   For a request that fits, and short of int64 overflow: locality is 100 exactly if all offered
   devices share a NUMA node or a PCIe root, and fragmentation exactly if the request takes all
   of them; headroom is never 100, and 0 if the request takes the last of the capacity.
   */
  lemma FeatureExtremes(s: Snapshot, devices: seq<Device>, policy: PolicySpec,
                        requested: int, remaining: int, allocatable: int, f: Features)
    requires Fits(devices, requested, remaining, allocatable)
    requires FeaturesOf(s, devices, policy, requested, remaining, allocatable, f)
    requires allocatable * 100 < TWO63 && |devices| * 100 < TWO63
    ensures f.locality == 100 <==>
            || AllInOneGroup(devices, NumaKey(policy.allowUnknownTopology))
            || AllInOneGroup(devices, RootKey(policy.allowUnknownTopology))
    ensures f.fragmentation == 100 <==> requested == |devices|
    ensures f.headroom != 100
    ensures remaining == requested ==> f.headroom == 0
  {
    var numa: nat, root: nat :| && LargestGroup(devices, NumaKey(policy.allowUnknownTopology), numa)
                                && LargestGroup(devices, RootKey(policy.allowUnknownTopology), root)
                                && f.locality == Percentage(Max(numa, root), |devices|);
    WholeGroup(devices, NumaKey(policy.allowUnknownTopology), numa);
    WholeGroup(devices, RootKey(policy.allowUnknownTopology), root);
    LargestAtMost(devices, NumaKey(policy.allowUnknownTopology), numa);
    LargestAtMost(devices, RootKey(policy.allowUnknownTopology), root);
    PercentageOfAll(Max(numa, root), |devices|);
    PercentageOfAll(requested, |devices|);
    PercentageOfAll(remaining - requested, allocatable);
    PercentageUnclamped(remaining - requested, allocatable);
  }
}
