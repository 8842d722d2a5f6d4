/**
 selectDeviceGroup of pkg/plugin/topologyfit/selection.go and the group maxima of
 evaluate.go: best-fit choice among groups of devices that share a key.
 */
module Groups {
  import opened Orders
  import opened Api
  import opened Decimals
  import opened SnapshotProperties

  type Key<!K> = Device -> Option<K>

  /** The devices filed under x, in device order. */
  function Members<K(==)>(devices: seq<Device>, key: Key<K>, x: K): seq<Device> {
    Filter(devices, HasKey(key, x))
  }

  /** firstDeviceIDs */
  function FirstIds(devices: seq<Device>, k: nat): (ids: seq<string>)
    requires k <= |devices|
  {
    IdList(devices[..k])
  }

  // ----- the best-fit group -----

  /** Smaller groups first, then by key. */
  predicate Before(devices: seq<Device>, key: Key<string>, x: string, y: string) {
    var m, n := |Members(devices, key, x)|, |Members(devices, key, y)|;
    m < n || (m == n && AtMost(x, y))
  }

  ghost predicate BestFit(devices: seq<Device>, key: Key<string>, k: nat, x: string) {
    && |Members(devices, key, x)| >= k
    && forall y :: |Members(devices, key, y)| >= k ==> Before(devices, key, x, y)
  }

  /** The best-fit key among those of the first n devices. */
  function BestKey(devices: seq<Device>, key: Key<string>, k: nat, n: nat): Option<string>
    requires n <= |devices|
  {
    if n == 0 then None
    else
      var best := BestKey(devices, key, k, n - 1);
      var next := key(devices[n - 1]);
      if next.None? || |Members(devices, key, next.value)| < k then best
      else if best.None? || Before(devices, key, next.value, best.value) then next
      else best
  }

  function GroupSelection(devices: seq<Device>, key: Key<string>, k: nat): seq<string> {
    match BestKey(devices, key, k, |devices|)
    case None => []
    case Some(x) =>
      var group := Members(devices, key, x);
      if k <= |group| then FirstIds(group, k) else []
  }

  lemma BeforeTotal(devices: seq<Device>, key: Key<string>, x: string, y: string)
    ensures Before(devices, key, x, y) || Before(devices, key, y, x)
  {
    if Less(x, y) { LessAsymmetric(x, y); }
  }

  lemma BeforeTransitive(devices: seq<Device>, key: Key<string>, x: string, y: string, z: string)
    requires Before(devices, key, x, y) && Before(devices, key, y, z)
    ensures Before(devices, key, x, z)
  {
    if AtMost(x, y) && AtMost(y, z) { AtMostTransitive(x, y, z); }
  }

  lemma BeforeOrder(devices: seq<Device>, key: Key<string>)
    ensures TotalPreorder((x, y) => Before(devices, key, x, y))
  {
    forall x, y
      ensures Before(devices, key, x, y) || Before(devices, key, y, x)
    {
      BeforeTotal(devices, key, x, y);
    }
    forall x, y, z | Before(devices, key, x, y) && Before(devices, key, y, z)
      ensures Before(devices, key, x, z)
    {
      BeforeTransitive(devices, key, x, y, z);
    }
  }

  lemma {:induction false} BestKeyResult(devices: seq<Device>, key: Key<string>, k: nat, n: nat)
    requires n <= |devices|
    ensures var best := BestKey(devices, key, k, n);
            && (best.Some? ==> |Members(devices, key, best.value)| >= k)
            && forall i :: && 0 <= i < n && key(devices[i]).Some?
                           && |Members(devices, key, key(devices[i]).value)| >= k ==>
                 best.Some? && Before(devices, key, best.value, key(devices[i]).value)
  {
    if n != 0 {
      BestKeyResult(devices, key, k, n - 1);
      var earlier, best := BestKey(devices, key, k, n - 1), BestKey(devices, key, k, n);
      var next := key(devices[n - 1]);
      forall i | 0 <= i < n && key(devices[i]).Some? && |Members(devices, key, key(devices[i]).value)| >= k
        ensures best.Some? && Before(devices, key, best.value, key(devices[i]).value)
      {
        var x := key(devices[i]).value;
        if i == n - 1 {
          LessIrreflexive(x);
          if earlier.Some? { BeforeTotal(devices, key, x, earlier.value); }
        } else if best != earlier {
          BeforeTransitive(devices, key, best.value, earlier.value, x);
        }
      }
    }
  }

  lemma InhabitedKey<K(!new)>(devices: seq<Device>, key: Key<K>, x: K)
    requires Members(devices, key, x) != []
    ensures exists i :: 0 <= i < |devices| && key(devices[i]) == Some(x)
  {
    var d := Members(devices, key, x)[0];
    FilterExact(devices, HasKey(key, x));
    assert d in devices && HasKey(key, x)(d);
  }

  /** There is a best-fit group exactly when some group is large enough, and BestKey finds it. */
  lemma BestKeyIsBestFit(devices: seq<Device>, key: Key<string>, k: nat)
    requires k >= 1
    ensures var best := BestKey(devices, key, k, |devices|);
            && (best.Some? ==> BestFit(devices, key, k, best.value))
            && (best.None? ==> forall x :: |Members(devices, key, x)| < k)
  {
    BestKeyResult(devices, key, k, |devices|);
    forall x | |Members(devices, key, x)| >= k
      ensures BestKey(devices, key, k, |devices|).Some?
      ensures Before(devices, key, BestKey(devices, key, k, |devices|).value, x)
    {
      InhabitedKey(devices, key, x);
    }
  }

  lemma BestFitUnique(devices: seq<Device>, key: Key<string>, k: nat, x: string, y: string)
    requires BestFit(devices, key, k, x) && BestFit(devices, key, k, y)
    ensures x == y
  {
    LessTotal(x, y);
    assert Before(devices, key, x, y) && Before(devices, key, y, x);
  }

  // ----- the choice as the scheduler makes it -----

  ghost predicate Grouped(groups: map<string, seq<Device>>, devices: seq<Device>, key: Key<string>) {
    && (forall x :: x in groups ==> groups[x] == Members(devices, key, x) && groups[x] != [])
    && (forall x :: x !in groups ==> Members(devices, key, x) == [])
  }

  method SelectDeviceGroup(devices: seq<Device>, key: Key<string>, k: nat) returns (r: seq<string>)
    requires k >= 1
    ensures r == GroupSelection(devices, key, k)
  {
    var groups: map<string, seq<Device>> := map[];
    for i := 0 to |devices|
      invariant Grouped(groups, devices[..i], key)
    {
      GroupStep(groups, devices, key, i);
      var tag := key(devices[i]);
      if tag.Some? {
        groups := groups[tag.value := (if tag.value in groups then groups[tag.value] else []) + [devices[i]]];
      }
    }
    assert devices[..|devices|] == devices;

    var keys: seq<string> := [];
    var rest := groups.Keys;  // map iteration, in an order Go does not fix
    while rest != {}
      invariant rest <= groups.Keys
      invariant forall x :: x in keys <==> x in groups && x !in rest && |groups[x]| >= k
      decreases rest
    {
      var x :| x in rest;
      rest := rest - {x};
      if |groups[x]| >= k {
        keys := keys + [x];
      }
    }
    ghost var large := keys;
    BeforeOrder(devices, key);
    keys := Sort(keys, (x, y) => Before(devices, key, x, y));
    BestKeyIsBestFit(devices, key, k);
    if |keys| == 0 {
      assert multiset(large) == multiset{};
      assert large == [];
      return [];
    }
    FirstIsBestFit(devices, key, k, large, keys);
    BestFitUnique(devices, key, k, keys[0], BestKey(devices, key, k, |devices|).value);
    r := FirstIds(groups[keys[0]], k);
  }

  lemma GroupStep(groups: map<string, seq<Device>>, devices: seq<Device>, key: Key<string>, i: nat)
    requires i < |devices| && Grouped(groups, devices[..i], key)
    ensures var tag := key(devices[i]);
            tag.None? ==> Grouped(groups, devices[..i + 1], key)
    ensures var tag := key(devices[i]);
            tag.Some? ==>
              Grouped(groups[tag.value := (if tag.value in groups then groups[tag.value] else []) + [devices[i]]],
                      devices[..i + 1], key)
  {
    assert devices[..i + 1][..i] == devices[..i];
  }

  lemma FirstIsBestFit(devices: seq<Device>, key: Key<string>, k: nat, large: seq<string>, keys: seq<string>)
    requires k >= 1 && multiset(large) == multiset(keys) && keys != []
    requires SortedBy(keys, (x, y) => Before(devices, key, x, y))
    requires forall x :: x in large <==> |Members(devices, key, x)| >= k
    ensures keys[0] in large && BestFit(devices, key, k, keys[0])
    ensures BestKey(devices, key, k, |devices|).Some?
  {
    assert keys[0] in multiset(large);
    forall y | |Members(devices, key, y)| >= k
      ensures Before(devices, key, keys[0], y)
    {
      assert y in large && y in multiset(keys);
      var j :| 0 <= j < |keys| && keys[j] == y;
      if j == 0 { LessIrreflexive(y); }
    }
    BestKeyIsBestFit(devices, key, k);
  }

  /**
   Group selection is best-fit: it yields the first k devices of the smallest group that has
   at least k members, ties broken by key, whatever the map iteration order.
   */
  lemma GroupSelectionBestFit(devices: seq<Device>, key: Key<string>, k: nat)
    requires k >= 1
    ensures GroupSelection(devices, key, k) != [] <==> exists x :: |Members(devices, key, x)| >= k
    ensures GroupSelection(devices, key, k) != [] ==> exists x :: BestFit(devices, key, k, x)
    ensures forall x :: BestFit(devices, key, k, x) ==>
              GroupSelection(devices, key, k) == FirstIds(Members(devices, key, x), k)
  {
    BestKeyIsBestFit(devices, key, k);
    var best := BestKey(devices, key, k, |devices|);
    forall x | BestFit(devices, key, k, x)
      ensures GroupSelection(devices, key, k) == FirstIds(Members(devices, key, x), k)
    {
      BestFitUnique(devices, key, k, x, best.value);
    }
  }

  // ----- group maxima -----

  /** m is the size of the largest group. */
  ghost predicate LargestGroup<K(!new)>(devices: seq<Device>, key: Key<K>, m: nat) {
    && (forall x :: |Members(devices, key, x)| <= m)
    && (m == 0 || exists x :: |Members(devices, key, x)| == m)
  }

  ghost predicate Counted<K(!new)>(counts: map<K, nat>, devices: seq<Device>, key: Key<K>) {
    forall x {:trigger Members(devices, key, x)} :: |Members(devices, key, x)| == if x in counts then counts[x] else 0
  }

  /** The NUMA node of a device; unknown nodes form a group of their own when allowed. */
  function NumaKey(allowUnknown: bool): Key<Option<int>> {
    (d: Device) => if d.numaNode.None? && !allowUnknown then None else Some(d.numaNode)
  }

  /** The PCIe root of a device; devices without one form a group of their own when allowed. */
  function RootKey(allowUnknown: bool): Key<string> {
    (d: Device) => if d.pcieRoot == "" && !allowUnknown then None else Some(d.pcieRoot)
  }

  method MaxNumaGroup(devices: seq<Device>, allowUnknown: bool) returns (maximum: nat)
    ensures LargestGroup(devices, NumaKey(allowUnknown), maximum)
  {
    var groups: map<int, nat> := map[];
    var unknown: nat := 0;
    maximum := 0;
    ghost var counts: map<Option<int>, nat> := map[];
    for i := 0 to |devices|
      invariant NumaTally(counts, groups, unknown, maximum, devices[..i], allowUnknown)
    {
      NumaRound(counts, groups, unknown, maximum, devices, allowUnknown, i);
      var device := devices[i];
      if device.numaNode.None? {
        if allowUnknown {
          unknown := unknown + 1;
          counts := counts[None := unknown];
        }
      } else {
        var n := device.numaNode.value;
        var count := (if n in groups then groups[n] else 0) + 1;
        groups := groups[n := count];
        counts := counts[Some(n) := count];
        if count > maximum {
          maximum := count;
        }
      }
    }
    assert devices[..|devices|] == devices;
    if unknown > maximum {
      maximum := unknown;
    }
  }

  /** The per-node counters and the counter of unknown nodes, as one tally. */
  ghost predicate NumaTally(counts: map<Option<int>, nat>, groups: map<int, nat>, unknown: nat, maximum: nat,
                            devices: seq<Device>, allowUnknown: bool) {
    && (forall n :: Some(n) in counts <==> n in groups)
    && (forall n :: n in groups ==> counts[Some(n)] == groups[n])
    && unknown == (if None in counts then counts[None] else 0)
    && Counted(counts, devices, NumaKey(allowUnknown))
    && LargestGroup(devices, NumaKey(allowUnknown), if unknown > maximum then unknown else maximum)
  }

  lemma NumaRound(counts: map<Option<int>, nat>, groups: map<int, nat>, unknown: nat, maximum: nat,
                  devices: seq<Device>, allowUnknown: bool, i: nat)
    requires i < |devices| && NumaTally(counts, groups, unknown, maximum, devices[..i], allowUnknown)
    ensures devices[i].numaNode.None? && !allowUnknown ==>
              NumaTally(counts, groups, unknown, maximum, devices[..i + 1], allowUnknown)
    ensures devices[i].numaNode.None? && allowUnknown ==>
              NumaTally(counts[None := unknown + 1], groups, unknown + 1, maximum, devices[..i + 1], allowUnknown)
    ensures devices[i].numaNode.Some? ==>
              var n := devices[i].numaNode.value;
              var count := (if n in groups then groups[n] else 0) + 1;
              NumaTally(counts[Some(n) := count], groups[n := count], unknown,
                        if count > maximum then count else maximum,
                        devices[..i + 1], allowUnknown)
  {
    var best := if unknown > maximum then unknown else maximum;
    var next := NumaKey(allowUnknown)(devices[i]);
    CountStep(counts, devices, NumaKey(allowUnknown), i, best);
    if devices[i].numaNode.Some? {
      assert next == Some(devices[i].numaNode);
    } else if allowUnknown {
      assert next == Some(None);
    } else {
      assert next == None;
    }
  }

  method MaxStringGroup(devices: seq<Device>, key: Device -> string, allowUnknown: bool) returns (maximum: nat)
    ensures LargestGroup(devices, d => if key(d) == "" && !allowUnknown then None else Some(key(d)), maximum)
  {
    ghost var filed := d => if key(d) == "" && !allowUnknown then None else Some(key(d));
    var groups: map<string, nat> := map[];
    maximum := 0;
    for i := 0 to |devices|
      invariant Counted(groups, devices[..i], filed)
      invariant LargestGroup(devices[..i], filed, maximum)
    {
      assert devices[..i + 1][..i] == devices[..i];
      var value := key(devices[i]);
      CountStep(groups, devices, filed, i, maximum);
      if value == "" && !allowUnknown {
        continue;
      }
      var count := (if value in groups then groups[value] else 0) + 1;
      groups := groups[value := count];
      if count > maximum {
        maximum := count;
      }
    }
    assert devices[..|devices|] == devices;
  }

  lemma CountStep<K(!new)>(counts: map<K, nat>, devices: seq<Device>, key: Key<K>, i: nat, m: nat)
    requires i < |devices| && Counted(counts, devices[..i], key) && LargestGroup(devices[..i], key, m)
    ensures var next := key(devices[i]);
            next.None? ==> Counted(counts, devices[..i + 1], key) && LargestGroup(devices[..i + 1], key, m)
    ensures var next := key(devices[i]);
            next.Some? ==>
              var count := (if next.value in counts then counts[next.value] else 0) + 1;
              && Counted(counts[next.value := count], devices[..i + 1], key)
              && LargestGroup(devices[..i + 1], key, if count > m then count else m)
  {
    var next := key(devices[i]);
    forall x
      ensures |Members(devices[..i + 1], key, x)| ==
              (if x in counts then counts[x] else 0) + if next == Some(x) then 1 else 0
      ensures next != Some(x) ==> Members(devices[..i + 1], key, x) == Members(devices[..i], key, x)
    {
      assert devices[..i + 1][..i] == devices[..i];
      assert |Members(devices[..i], key, x)| == if x in counts then counts[x] else 0;
    }
    if next.None? || (if next.value in counts then counts[next.value] else 0) < m {
      if m != 0 {
        var x :| |Members(devices[..i], key, x)| == m;
        assert |Members(devices[..i + 1], key, x)| == m;
      }
    } else {
      assert |Members(devices[..i], key, next.value)| <= m;
    }
  }

  // ----- selection succeeds up to the maximum -----

  lemma SelectionUpToLargest(devices: seq<Device>, key: Key<string>, m: nat, k: nat)
    requires k >= 1 && LargestGroup(devices, key, m)
    ensures GroupSelection(devices, key, k) != [] <==> k <= m
  {
    GroupSelectionBestFit(devices, key, k);
  }

  /** The two keys divide the devices in the same way. */
  ghost predicate SameClasses<J(!new), K(!new)>(devices: seq<Device>, key: Key<J>, other: Key<K>) {
    && (forall d :: d in devices ==> (key(d).None? <==> other(d).None?))
    && (forall d, e :: d in devices && e in devices && key(d).Some? && key(e).Some? ==>
          (key(d) == key(e) <==> other(d) == other(e)))
  }

  lemma {:induction false} SameFilter<T(!new)>(s: seq<T>, p: T -> bool, q: T -> bool)
    requires forall x :: x in s ==> p(x) == q(x)
    ensures Filter(s, p) == Filter(s, q)
  {
    if s != [] { SameFilter(s[..|s| - 1], p, q); }
  }

  lemma SameMembers<J(!new), K(!new)>(devices: seq<Device>, key: Key<J>, other: Key<K>, d: Device)
    requires SameClasses(devices, key, other) && d in devices && key(d).Some?
    ensures Members(devices, key, key(d).value) == Members(devices, other, other(d).value)
  {
    SameFilter(devices, HasKey(key, key(d).value), HasKey(other, other(d).value));
  }

  lemma SameLargest<J(!new), K(!new)>(devices: seq<Device>, key: Key<J>, other: Key<K>, m: nat)
    requires SameClasses(devices, key, other) && LargestGroup(devices, key, m)
    ensures LargestGroup(devices, other, m)
  {
    forall y | Members(devices, other, y) != []
      ensures |Members(devices, other, y)| <= m
    {
      var d := Members(devices, other, y)[0];
      FilterExact(devices, HasKey(other, y));
      assert d in devices && HasKey(other, y)(d);
      SameMembers(devices, key, other, d);
    }
    if m != 0 {
      var x :| |Members(devices, key, x)| == m;
      var d := Members(devices, key, x)[0];
      FilterExact(devices, HasKey(key, x));
      assert d in devices && HasKey(key, x)(d);
      SameMembers(devices, key, other, d);
    }
  }

  // ----- NUMA nodes -----

  const UNKNOWN := "~unknown"

  function NumaLabel(allowUnknown: bool): Key<string> {
    (d: Device) =>
      if d.numaNode.None? then (if allowUnknown then Some(UNKNOWN) else None)
      else Some("numa:" + TenWide(d.numaNode.value))
  }

  lemma NumaLabelsDivideByNode(devices: seq<Device>, allowUnknown: bool)
    ensures SameClasses(devices, NumaKey(allowUnknown), NumaLabel(allowUnknown))
  {
    forall d: Device, e: Device | d.numaNode.Some? && e.numaNode.Some?
      ensures "numa:" + TenWide(d.numaNode.value) == "numa:" + TenWide(e.numaNode.value) <==> d.numaNode == e.numaNode
    {
      var x, y := "numa:" + TenWide(d.numaNode.value), "numa:" + TenWide(e.numaNode.value);
      assert x[5..] == TenWide(d.numaNode.value) && y[5..] == TenWide(e.numaNode.value);
      TenWideInjective(d.numaNode.value, e.numaNode.value);
    }
    forall d: Device | d.numaNode.Some?
      ensures "numa:" + TenWide(d.numaNode.value) != UNKNOWN
    {
      assert ("numa:" + TenWide(d.numaNode.value))[0] == 'n' && UNKNOWN[0] == '~';
    }
  }

  /** Single-NUMA selection succeeds exactly up to what maxNUMAGroup reports. */
  lemma NumaSelectionMatchesMaximum(devices: seq<Device>, allowUnknown: bool, m: nat, k: nat)
    requires k >= 1 && LargestGroup(devices, NumaKey(allowUnknown), m)
    ensures GroupSelection(devices, NumaLabel(allowUnknown), k) != [] <==> k <= m
  {
    NumaLabelsDivideByNode(devices, allowUnknown);
    SameLargest(devices, NumaKey(allowUnknown), NumaLabel(allowUnknown), m);
    SelectionUpToLargest(devices, NumaLabel(allowUnknown), m, k);
  }

  // ----- PCIe roots -----

  function RootLabel(allowUnknown: bool): Key<string> {
    (d: Device) =>
      if d.pcieRoot == "" then (if allowUnknown then Some(UNKNOWN) else None)
      else Some(d.pcieRoot)
  }

  /** Devices without a root, and devices whose root is literally the label given to those. */
  function Rootless(devices: seq<Device>): nat { |Filter(devices, (d: Device) => d.pcieRoot == "")| }

  function Mislabelled(devices: seq<Device>): nat { |Filter(devices, (d: Device) => d.pcieRoot == UNKNOWN)| }

  function Either<T>(p: T -> bool, q: T -> bool): T -> bool {
    x => p(x) || q(x)
  }

  lemma {:induction false} FilterEither<T(!new)>(s: seq<T>, p: T -> bool, q: T -> bool)
    requires forall x :: x in s ==> !(p(x) && q(x))
    ensures |Filter(s, Either(p, q))| == |Filter(s, p)| + |Filter(s, q)|
  {
    if s != [] { FilterEither(s[..|s| - 1], p, q); }
  }

  lemma RootLabelGroups(devices: seq<Device>, allowUnknown: bool, x: string)
    ensures x != UNKNOWN && x != "" ==>
              Members(devices, RootLabel(allowUnknown), x) == Members(devices, RootKey(allowUnknown), x)
    ensures x == "" ==> Members(devices, RootLabel(allowUnknown), x) == []
    ensures |Members(devices, RootLabel(allowUnknown), UNKNOWN)| ==
            Mislabelled(devices) + if allowUnknown then Rootless(devices) else 0
    ensures |Members(devices, RootKey(allowUnknown), UNKNOWN)| == Mislabelled(devices)
    ensures |Members(devices, RootKey(allowUnknown), "")| == if allowUnknown then Rootless(devices) else 0
  {
    var tag, key := RootLabel(allowUnknown), RootKey(allowUnknown);
    var bare, literal := (d: Device) => d.pcieRoot == "", (d: Device) => d.pcieRoot == UNKNOWN;
    if x != UNKNOWN && x != "" {
      SameFilter(devices, HasKey(tag, x), HasKey(key, x));
    }
    if x == "" {
      SameFilter(devices, HasKey(tag, x), (d: Device) => false);
      NothingKept(devices);
    }
    SameFilter(devices, HasKey(key, UNKNOWN), literal);
    if allowUnknown {
      SameFilter(devices, HasKey(key, ""), bare);
      FilterEither(devices, bare, literal);
      SameFilter(devices, HasKey(tag, UNKNOWN), Either(bare, literal));
    } else {
      SameFilter(devices, HasKey(key, ""), (d: Device) => false);
      NothingKept(devices);
      SameFilter(devices, HasKey(tag, UNKNOWN), literal);
    }
  }

  lemma {:induction false} NothingKept(devices: seq<Device>)
    ensures Filter(devices, (d: Device) => false) == []
  {
    if devices != [] {
      NothingKept(devices[..|devices| - 1]);
      SameFilter(devices[..|devices| - 1], (d: Device) => false, (d: Device) => false);
    }
  }

  /** No device claims the reserved label, or the merged group is no larger than some other group. */
  ghost predicate LabelHarmless(devices: seq<Device>, allowUnknown: bool, m: nat) {
    || !allowUnknown || Rootless(devices) == 0 || Mislabelled(devices) == 0
    || Rootless(devices) + Mislabelled(devices) <= m
  }

  lemma LargestRootLabel(devices: seq<Device>, allowUnknown: bool, m: nat)
    requires LargestGroup(devices, RootKey(allowUnknown), m)
    ensures var merged := Mislabelled(devices) + if allowUnknown then Rootless(devices) else 0;
            LargestGroup(devices, RootLabel(allowUnknown), if merged > m then merged else m)
  {
    var tag, key := RootLabel(allowUnknown), RootKey(allowUnknown);
    var merged := Mislabelled(devices) + if allowUnknown then Rootless(devices) else 0;
    RootLabelGroups(devices, allowUnknown, UNKNOWN);
    forall x
      ensures |Members(devices, tag, x)| <= if merged > m then merged else m
    {
      RootLabelGroups(devices, allowUnknown, x);
    }
    if merged <= m && m != 0 {
      var x :| |Members(devices, key, x)| == m;
      RootLabelGroups(devices, allowUnknown, x);
      if x == "" || x == UNKNOWN {
        assert |Members(devices, tag, UNKNOWN)| == m;
      } else {
        assert |Members(devices, tag, x)| == m;
      }
    }
  }

  /**
   Same-root selection succeeds exactly up to what maxStringGroup reports, for every request,
   if and only if the reserved label for unknown roots does no harm.
   */
  lemma RootSelectionMatchesMaximum(devices: seq<Device>, allowUnknown: bool, m: nat)
    requires LargestGroup(devices, RootKey(allowUnknown), m)
    ensures (forall k: nat :: k >= 1 ==> (GroupSelection(devices, RootLabel(allowUnknown), k) != [] <==> k <= m))
            <==> LabelHarmless(devices, allowUnknown, m)
  {
    var merged := Mislabelled(devices) + if allowUnknown then Rootless(devices) else 0;
    var largest := if merged > m then merged else m;
    LargestRootLabel(devices, allowUnknown, m);
    RootLabelGroups(devices, allowUnknown, "");
    forall k: nat | k >= 1
      ensures GroupSelection(devices, RootLabel(allowUnknown), k) != [] <==> k <= largest
    {
      SelectionUpToLargest(devices, RootLabel(allowUnknown), largest, k);
    }
    if largest > m {
      assert GroupSelection(devices, RootLabel(allowUnknown), largest) != [];
    }
  }

  lemma FilterPair<T(!new)>(x: T, y: T, p: T -> bool)
    ensures Filter([x, y], p) == (if p(x) then [x] else []) + (if p(y) then [y] else [])
  {
    assert [x, y][..1] == [x] && [x][..0] == [];
    assert Filter([x], p) == if p(x) then [x] else [];
  }

  /** A host where the label does harm: two devices, one without a root and one whose root is "~unknown". */
  lemma ReservedRootCounterexample(d: Device, e: Device)
    requires d.pcieRoot == "" && e.pcieRoot == UNKNOWN
    ensures LargestGroup([d, e], RootKey(true), 1)
    ensures GroupSelection([d, e], RootLabel(true), 2) != []
  {
    assert d.pcieRoot != e.pcieRoot;
    forall x
      ensures |Members([d, e], RootKey(true), x)| <= 1
    {
      FilterPair(d, e, HasKey(RootKey(true), x));
    }
    FilterPair(d, e, HasKey(RootKey(true), ""));
    assert |Members([d, e], RootKey(true), "")| == 1;
    FilterPair(d, e, HasKey(RootLabel(true), UNKNOWN));
    GroupSelectionBestFit([d, e], RootLabel(true), 2);
  }
}
