/**
 Compiling a placement policy into DRA selectors loses no safety: device selectors and
 same-NUMA or same-root constraints are exact, and fabric selectors are conservative.
 */
module TranslationProperties {
  import opened Orders
  import opened Api
  import opened Topology
  import opened SnapshotProperties
  import opened Cliques
  import opened Groups
  import opened Selection
  import opened Scoring
  import opened Scheduling
  import opened Translation

  /** The allocator considers a device only if every selector matches. */
  ghost predicate PassesAll(selectors: seq<Selector>, attributes: Attributes) {
    forall i :: 0 <= i < |selectors| ==> Matches(selectors[i], attributes)
  }

  lemma PassesSplit(x: seq<Selector>, y: seq<Selector>, attributes: Attributes)
    ensures PassesAll(x + y, attributes) <==> PassesAll(x, attributes) && PassesAll(y, attributes)
  {
    if PassesAll(x + y, attributes) {
      forall i | 0 <= i < |x| ensures Matches(x[i], attributes) { assert (x + y)[i] == x[i]; }
      forall i | 0 <= i < |y| ensures Matches(y[i], attributes) { assert (x + y)[|x| + i] == y[i]; }
    }
  }

  // ----- device selectors -----

  /** The cycle data of a pod that requests the device's own resource under the policy. */
  function OwnRequest(policy: PolicySpec, d: Device): CycleData {
    CycleData(true, "", policy, d.resourceName, 1)
  }

  lemma BaseAttributes(generation: int, d: Device, facts: map<string, Facts>)
    ensures var a := AttributesOf(generation, d, facts);
            && HealthAttr in a && a[HealthAttr] == HealthValue(d.health)
            && VendorAttr in a && a[VendorAttr] == VendorValue(d.vendor)
            && ProductAttr in a && a[ProductAttr] == Text(d.product)
            && MemoryAttr in a && a[MemoryAttr] == Number(d.memoryMiB)
            && ResourceNameAttr in a && a[ResourceNameAttr] == Text(d.resourceName)
            && GenerationAttr in a && a[GenerationAttr] == Number(generation)
  {
  }

  lemma PlaceAttributes(generation: int, d: Device, facts: map<string, Facts>)
    ensures var a := AttributesOf(generation, d, facts);
            && (NumaAttr in a <==> d.numaNode.Some?) && (NumaAttr in a ==> a[NumaAttr] == Number(d.numaNode.value))
            && (PcieRootAttr in a <==> d.pcieRoot != "") && (PcieRootAttr in a ==> a[PcieRootAttr] == Text(d.pcieRoot))
            && (FabricGroupAttr in a <==> d.fabricGroup != "")
            && (FabricGroupAttr in a ==> a[FabricGroupAttr] == Text(d.fabricGroup))
  {
  }

  lemma FabricAttributes(generation: int, d: Device, facts: map<string, Facts>)
    ensures var a := AttributesOf(generation, d, facts);
            && (FabricBandwidthAttr in a <==> d.id in facts)
            && (FabricHopsAttr in a <==> d.id in facts)
            && (FabricTypeAttr in a <==> d.id in facts)
            && (FabricTypeAttr in a ==> a[FabricTypeAttr] == TypeValue(facts[d.id].kind))
            && (d.id in facts ==> a[FabricBandwidthAttr] == Number(Floor(facts[d.id].minBandwidth))
                                  && a[FabricHopsAttr] == Number(facts[d.id].maxHops))
  {
  }

  lemma AttributeFacts(generation: int, d: Device, facts: map<string, Facts>)
    ensures var a := AttributesOf(generation, d, facts);
            && HealthAttr in a && a[HealthAttr] == HealthValue(d.health)
            && VendorAttr in a && a[VendorAttr] == VendorValue(d.vendor)
            && ProductAttr in a && a[ProductAttr] == Text(d.product)
            && MemoryAttr in a && a[MemoryAttr] == Number(d.memoryMiB)
            && ResourceNameAttr in a && a[ResourceNameAttr] == Text(d.resourceName)
            && GenerationAttr in a && a[GenerationAttr] == Number(generation)
    ensures var a := AttributesOf(generation, d, facts);
            && (NumaAttr in a <==> d.numaNode.Some?) && (NumaAttr in a ==> a[NumaAttr] == Number(d.numaNode.value))
            && (PcieRootAttr in a <==> d.pcieRoot != "") && (PcieRootAttr in a ==> a[PcieRootAttr] == Text(d.pcieRoot))
            && (FabricGroupAttr in a <==> d.fabricGroup != "")
            && (FabricGroupAttr in a ==> a[FabricGroupAttr] == Text(d.fabricGroup))
    ensures var a := AttributesOf(generation, d, facts);
            && (FabricBandwidthAttr in a <==> d.id in facts)
            && (FabricHopsAttr in a <==> d.id in facts)
            && (FabricTypeAttr in a <==> d.id in facts)
            && (FabricTypeAttr in a ==> a[FabricTypeAttr] == TypeValue(facts[d.id].kind))
            && (d.id in facts ==> a[FabricBandwidthAttr] == Number(Floor(facts[d.id].minBandwidth))
                                  && a[FabricHopsAttr] == Number(facts[d.id].maxHops))
  {
    BaseAttributes(generation, d, facts);
    PlaceAttributes(generation, d, facts);
    FabricAttributes(generation, d, facts);
  }

  lemma ProductListed(products: seq<string>, product: string)
    ensures Text(product) in ProductValues(products) <==> product in products
  {
    if product in products {
      var i :| 0 <= i < |products| && products[i] == product;
      assert ProductValues(products)[i] == Text(product);
    }
  }

  /**
   The health, vendor, product and memory selectors keep exactly the devices that
   eligibleDevices keeps for their own resource name.
   */
  lemma DeviceSelectorsExact(policy: PolicySpec, d: Device, generation: int, facts: map<string, Facts>)
    requires Translatable(policy) && ValidDevice(d)
    ensures PassesAll(DeviceSelectors(policy), AttributesOf(generation, d, facts)) <==>
              Eligible(OwnRequest(policy, d), d)
  {
    var a := AttributesOf(generation, d, facts);
    AttributeFacts(generation, d, facts);
    ProductListed(policy.products, d.product);
    var health := [Equals(HealthAttr, HealthValue(Healthy))];
    var vendor, product, memory := VendorSelectors(policy), ProductSelectors(policy), MemorySelectors(policy);
    PassesSplit(health, vendor, a);
    PassesSplit(health + vendor, product, a);
    PassesSplit(health + vendor + product, memory, a);
    assert PassesAll(health, a) <==> d.health.Healthy? by {
      assert PassesAll(health, a) <==> Matches(health[0], a);
    }
    assert PassesAll(vendor, a) <==>
        (policy.vendor.NoVendor? || policy.vendor.AnyVendor? || d.vendor == policy.vendor) by {
      if vendor != [] { assert PassesAll(vendor, a) <==> Matches(vendor[0], a); }
    }
    assert PassesAll(product, a) <==> (policy.products == [] || d.product in policy.products) by {
      if product != [] { assert PassesAll(product, a) <==> Matches(product[0], a); }
    }
    assert PassesAll(memory, a) <==> d.memoryMiB >= policy.minimumMemoryMiB by {
      if memory != [] { assert PassesAll(memory, a) <==> Matches(memory[0], a); }
    }
  }

  /** The scheduler admits a policy with DRA parameters exactly if it is sound without them and can be compiled. */
  lemma AdmittedMeansTranslatable(policy: PolicySpec)
    requires policy.draDeviceCount.Some?
    ensures PolicyAccepted(policy) <==> PolicyAccepted(policy.(draDeviceCount := None)) && Translatable(policy)
  {
  }

  // ----- fabric selectors -----

  lemma FloorCeil(low: real, bandwidth: real, minimum: real)
    requires low <= bandwidth && Floor(low) >= Ceil(minimum)
    ensures bandwidth >= minimum
  {
    assert Floor(low) as real <= low;
    assert (-minimum).Floor as real <= -minimum;
  }

  lemma LinkCounts(spec: TopologySpec, byId: map<string, Device>, l: Link, d: Device, e: Device)
    requires IndexOf(spec.devices, byId) && d in spec.devices && e in spec.devices
    requires l in spec.links && Joins(l, d.id, e.id) && l.health.Healthy? && !l.kind.PCIe?
    requires d.fabricGroup == e.fabricGroup != ""
    ensures Counts(byId, spec.links, l, d.id)
  {
    var i :| 0 <= i < |spec.devices| && spec.devices[i] == d;
    var j :| 0 <= j < |spec.devices| && spec.devices[j] == e;
    assert byId[d.id] == d && byId[e.id] == e;
  }

  /**
   Translation is conservative: for every accepted topology and every translatable fabric-clique
   policy, a healthy non-PCIe link between two devices that pass the generated selectors and
   share a fabric group satisfies the policy's own link test.
   */
  lemma FabricSelectorsConservative(spec: TopologySpec, r: seq<Published>, byId: map<string, Device>,
                                    facts: map<string, Facts>, policy: PolicySpec, l: Link, i: nat, j: nat)
    requires Acceptable(spec) && Publishes(spec, r, byId, facts)
    requires Translatable(policy) && policy.topologyMode.FabricClique?
    requires i < |spec.devices| && j < |spec.devices|
    requires PassesAll(FabricSelectors(policy), r[i].attributes)
    requires spec.devices[i].fabricGroup == spec.devices[j].fabricGroup != ""
    requires l in spec.links && Joins(l, spec.devices[i].id, spec.devices[j].id) && l.health.Healthy? && !l.kind.PCIe?
    ensures QualifiesFabricLink(l, policy)
  {
    var d := spec.devices[i];
    assert Counts(byId, spec.links, l, d.id) by {
      LinkCounts(spec, byId, l, d, spec.devices[j]);
    }
    assert FactAt(byId, spec.links, facts, d.id);
    assert d.id in facts && facts[d.id].minBandwidth <= l.bandwidthGBps && l.hops <= facts[d.id].maxHops;
    assert l.bandwidthGBps >= 0.0 by {
      assert ValidLink(l, IdsOf(spec.devices));
    }
    SelectedFacts(policy, spec.observedGeneration, d, facts);
    if policy.minimumLinkBandwidthGBps > 0.0 {
      FloorCeil(facts[d.id].minBandwidth, l.bandwidthGBps, policy.minimumLinkBandwidthGBps);
    }
  }

  /** What passing the fabric selectors says of a device's facts. */
  lemma SelectedFacts(policy: PolicySpec, generation: int, d: Device, facts: map<string, Facts>)
    requires policy.topologyMode.FabricClique? && d.id in facts
    requires PassesAll(FabricSelectors(policy), AttributesOf(generation, d, facts))
    ensures facts[d.id].maxHops <= policy.maxFabricHops
    ensures policy.minimumLinkBandwidthGBps > 0.0 ==>
              Floor(facts[d.id].minBandwidth) >= Ceil(policy.minimumLinkBandwidthGBps)
  {
    var selectors, a := FabricSelectors(policy), AttributesOf(generation, d, facts);
    AttributeFacts(generation, d, facts);
    assert Matches(selectors[|selectors| - 1], a);
    if policy.minimumLinkBandwidthGBps > 0.0 {
      assert Matches(selectors[0], a);
    }
  }

  /**
   Exactly what the fabric selectors let through: devices with at least one healthy fabric link
   inside their group, all of which keep to the hop limit and reach the bandwidth limit rounded
   up to a whole number.
   */
  lemma FabricSelectorsExact(spec: TopologySpec, r: seq<Published>, byId: map<string, Device>,
                             facts: map<string, Facts>, policy: PolicySpec, i: nat)
    requires Acceptable(spec) && Publishes(spec, r, byId, facts) && i < |spec.devices|
    requires policy.topologyMode.FabricClique? && policy.maxFabricHops >= 0
    ensures PassesAll(FabricSelectors(policy), r[i].attributes) <==>
            && (exists l :: Counts(byId, spec.links, l, spec.devices[i].id))
            && (forall l :: Counts(byId, spec.links, l, spec.devices[i].id) ==>
                  && l.hops <= policy.maxFabricHops
                  && (policy.minimumLinkBandwidthGBps > 0.0 ==>
                        l.bandwidthGBps >= Ceil(policy.minimumLinkBandwidthGBps) as real))
  {
    var d := spec.devices[i];
    assert FactAt(byId, spec.links, facts, d.id);
    SelectedFactsExact(policy, spec.observedGeneration, d, facts);
    if d.id in facts {
      Rounding(facts[d.id].minBandwidth, Ceil(policy.minimumLinkBandwidthGBps));
    }
  }

  /** Floor is the greatest whole number not above, and Ceil the least not below. */
  lemma Rounding(r: real, n: int)
    ensures Floor(r) >= n <==> r >= n as real
    ensures Ceil(r) <= n <==> r <= n as real
  {
    assert (-r).Floor >= -n <==> -r >= (-n) as real;
  }

  lemma SelectedFactsExact(policy: PolicySpec, generation: int, d: Device, facts: map<string, Facts>)
    requires policy.topologyMode.FabricClique?
    ensures PassesAll(FabricSelectors(policy), AttributesOf(generation, d, facts)) <==>
            && d.id in facts && facts[d.id].maxHops <= policy.maxFabricHops
            && (policy.minimumLinkBandwidthGBps > 0.0 ==>
                  Floor(facts[d.id].minBandwidth) >= Ceil(policy.minimumLinkBandwidthGBps))
  {
    var selectors, a := FabricSelectors(policy), AttributesOf(generation, d, facts);
    AttributeFacts(generation, d, facts);
    assert PassesAll(selectors, a) ==> Matches(selectors[|selectors| - 1], a) && Matches(selectors[0], a);
  }

  /** These devices of the spec pass all selectors and agree on the match attribute: an allocation of the template. */
  ghost predicate Allocation(r: seq<Published>, policy: PolicySpec, chosen: set<int>) {
    && (forall i :: i in chosen ==>
          0 <= i < |r| && PassesAll(DeviceSelectors(policy) + FabricSelectors(policy), r[i].attributes))
    && (MatchAttributeFor(policy).Some? ==>
          var name := MatchAttributeFor(policy).value;
          && (forall i :: i in chosen ==> 0 <= i < |r| && name in r[i].attributes)
          && (forall i, j :: i in chosen && j in chosen ==> r[i].attributes[name] == r[j].attributes[name]))
  }

  function ChosenIds(spec: TopologySpec, chosen: set<int>): set<string> {
    set i | i in chosen && 0 <= i < |spec.devices| :: spec.devices[i].id
  }

  /**
   A fabric-clique allocation is a clique in the scheduler's sense exactly when the link that
   LinkBetween reports for each of its pairs is a healthy non-PCIe link.
   */
  lemma AllocationIsCliqueWhenLinked(spec: TopologySpec, s: Snapshot, r: seq<Published>, byId: map<string, Device>,
                                     facts: map<string, Facts>, policy: PolicySpec, chosen: set<int>)
    requires Acceptable(spec) && Represents(spec, s) && Publishes(spec, r, byId, facts)
    requires Translatable(policy) && policy.topologyMode.FabricClique? && Allocation(r, policy, chosen)
    ensures CliqueSet(Fabric(s, policy), ChosenIds(spec, chosen)) <==> FabricLinked(s, ChosenIds(spec, chosen))
  {
    var ids := ChosenIds(spec, chosen);
    if FabricLinked(s, ids) {
      forall a, b | a in ids && b in ids && a != b
        ensures Qualified(s, policy, a, b)
      {
        var i :| i in chosen && 0 <= i < |spec.devices| && spec.devices[i].id == a;
        var j :| j in chosen && 0 <= j < |spec.devices| && spec.devices[j].id == b;
        PairQualifies(spec, s, r, byId, facts, policy, chosen, i, j);
      }
    }
    if CliqueSet(Fabric(s, policy), ids) {
      forall a, b | a in ids && b in ids && a != b
        ensures FabricPair(s, a, b)
      {
        assert Fabric(s, policy)(a, b);
      }
    }
  }

  ghost predicate FabricPair(s: Snapshot, a: string, b: string) {
    var l := LinkBetween(s, a, b);
    l.Some? && l.value.health.Healthy? && !l.value.kind.PCIe?
  }

  ghost predicate FabricLinked(s: Snapshot, ids: set<string>) {
    forall a, b :: a in ids && b in ids && a != b ==> FabricPair(s, a, b)
  }

  lemma PairQualifies(spec: TopologySpec, s: Snapshot, r: seq<Published>, byId: map<string, Device>,
                      facts: map<string, Facts>, policy: PolicySpec, chosen: set<int>, i: int, j: int)
    requires Acceptable(spec) && Represents(spec, s) && Publishes(spec, r, byId, facts)
    requires Translatable(policy) && policy.topologyMode.FabricClique? && Allocation(r, policy, chosen)
    requires i in chosen && j in chosen && 0 <= i < |spec.devices| && 0 <= j < |spec.devices|
    requires FabricPair(s, spec.devices[i].id, spec.devices[j].id)
    ensures Qualified(s, policy, spec.devices[i].id, spec.devices[j].id)
  {
    var l := GreatestLink(spec, s, spec.devices[i].id, spec.devices[j].id);
    AllocatedPair(spec, r, byId, facts, policy, chosen, i, j);
    FabricSelectorsConservative(spec, r, byId, facts, policy, l, i, j);
  }

  lemma AllocatedPair(spec: TopologySpec, r: seq<Published>, byId: map<string, Device>, facts: map<string, Facts>,
                      policy: PolicySpec, chosen: set<int>, i: int, j: int)
    requires Publishes(spec, r, byId, facts) && policy.topologyMode.FabricClique? && Allocation(r, policy, chosen)
    requires i in chosen && j in chosen && 0 <= i < |spec.devices| && 0 <= j < |spec.devices|
    ensures PassesAll(FabricSelectors(policy), r[i].attributes)
    ensures spec.devices[i].fabricGroup == spec.devices[j].fabricGroup != ""
  {
    assert PassesAll(FabricSelectors(policy), r[i].attributes) by {
      PassesSplit(DeviceSelectors(policy), FabricSelectors(policy), r[i].attributes);
    }
    assert FabricGroupAttr in r[i].attributes && r[i].attributes[FabricGroupAttr] == r[j].attributes[FabricGroupAttr];
    AttributeFacts(spec.observedGeneration, spec.devices[i], facts);
    AttributeFacts(spec.observedGeneration, spec.devices[j], facts);
  }

  /** No two links of the spec join the same devices. */
  ghost predicate OneLinkPerPair(spec: TopologySpec) {
    forall k, l :: k in spec.links && l in spec.links && Joins(k, l.source, l.target) ==> k == l
  }

  /** With one link per pair, any allocation that healthy fabric links join pairwise is a clique. */
  lemma LinkedAllocationIsClique(spec: TopologySpec, s: Snapshot, r: seq<Published>, byId: map<string, Device>,
                                 facts: map<string, Facts>, policy: PolicySpec, chosen: set<int>)
    requires Acceptable(spec) && Represents(spec, s) && Publishes(spec, r, byId, facts) && OneLinkPerPair(spec)
    requires Translatable(policy) && policy.topologyMode.FabricClique? && Allocation(r, policy, chosen)
    requires forall a, b :: a in ChosenIds(spec, chosen) && b in ChosenIds(spec, chosen) && a != b ==>
               exists l :: l in spec.links && Joins(l, a, b) && l.health.Healthy? && !l.kind.PCIe?
    ensures CliqueSet(Fabric(s, policy), ChosenIds(spec, chosen))
  {
    var ids := ChosenIds(spec, chosen);
    forall a, b | a in ids && b in ids && a != b
      ensures FabricPair(s, a, b)
    {
      var l :| l in spec.links && Joins(l, a, b) && l.health.Healthy? && !l.kind.PCIe?;
      SoleLink(spec, s, l, a, b);
    }
    AllocationIsCliqueWhenLinked(spec, s, r, byId, facts, policy, chosen);
  }

  lemma SoleLink(spec: TopologySpec, s: Snapshot, l: Link, a: string, b: string)
    requires Acceptable(spec) && Represents(spec, s) && OneLinkPerPair(spec) && l in spec.links && Joins(l, a, b)
    ensures LinkBetween(s, a, b) == Some(Oriented(l, a, b))
  {
    LinkFound(spec, s, l, a, b);
    var k := GreatestLink(spec, s, a, b);
    assert Joins(k, l.source, l.target);
  }

  lemma PcieBeforeOthers(kind: LinkType)
    requires KnownLinkType(kind) && AtMost("pcie", LinkTypeName(kind))
    ensures kind.PCIe? || kind.XGMI?
  {
    assert "pcie"[0] == 'p' && "nvlink"[0] == 'n' && "hccs"[0] == 'h';
  }

  /**
   With several links per pair this fails: a PCIe link hides any NVLink or HCCS link between
   the same devices, so that no policy accepts the pair, however healthy the hidden link is.
   */
  lemma PcieLinkHidesFabricLink(spec: TopologySpec, s: Snapshot, policy: PolicySpec, fabric: Link, pcie: Link,
                                a: string, b: string)
    requires Acceptable(spec) && Represents(spec, s)
    requires fabric in spec.links && Joins(fabric, a, b) && fabric.health.Healthy?
             && (fabric.kind.NVLink? || fabric.kind.HCCS?)
    requires pcie in spec.links && Joins(pcie, a, b) && pcie.kind.PCIe?
    requires forall l :: l in spec.links && Joins(l, a, b) ==> !l.kind.XGMI?
    ensures !Qualified(s, policy, a, b)
  {
    LinkFound(spec, s, pcie, a, b);
    var l := GreatestLink(spec, s, a, b);
    assert ValidLink(l, IdsOf(spec.devices));
    PcieBeforeOthers(l.kind);
  }

  /** Any devices that pass the device selectors are an allocation of a best-effort template, and nothing else is. */
  lemma BestEffortAllocations(r: seq<Published>, policy: PolicySpec, chosen: set<int>)
    requires Translatable(policy) && policy.topologyMode.BestEffort?
    ensures Allocation(r, policy, chosen) <==>
            forall i :: i in chosen ==> 0 <= i < |r| && PassesAll(DeviceSelectors(policy), r[i].attributes)
  {
    assert DeviceSelectors(policy) + FabricSelectors(policy) == DeviceSelectors(policy);
  }

  // ----- match constraints -----

  lemma ChosenDevice(spec: TopologySpec, chosen: set<int>, d: Device)
    requires Acceptable(spec) && d in spec.devices
    requires forall i :: i in chosen ==> 0 <= i < |spec.devices|
    ensures d.id in ChosenIds(spec, chosen) <==> exists i :: i in chosen && spec.devices[i] == d
  {
    if d.id in ChosenIds(spec, chosen) {
      var i :| i in chosen && spec.devices[i].id == d.id;
      var j :| 0 <= j < |spec.devices| && spec.devices[j] == d;
      assert DeviceId(spec.devices[i]) == DeviceId(spec.devices[j]);
    }
  }

  /** The constraint part of an allocation: all chosen devices carry the attribute, with one value. */
  ghost predicate Agree(r: seq<Published>, name: AttrName, chosen: set<int>)
    requires forall i :: i in chosen ==> 0 <= i < |r|
  {
    && (forall i :: i in chosen ==> name in r[i].attributes)
    && (forall i, j :: i in chosen && j in chosen && name in r[i].attributes && name in r[j].attributes ==>
          r[i].attributes[name] == r[j].attributes[name])
  }

  /** All chosen devices have the key, with one value. */
  ghost predicate OneKey<K(!new)>(devices: seq<Device>, key: Key<K>, ids: set<string>) {
    && (forall d :: d in devices && d.id in ids ==> key(d).Some?)
    && (forall d, e :: d in devices && e in devices && d.id in ids && e.id in ids ==> key(d) == key(e))
  }

  ghost predicate OneKeyAt<K(!new)>(devices: seq<Device>, key: Key<K>, chosen: set<int>)
    requires forall i :: i in chosen ==> 0 <= i < |devices|
  {
    forall i, j :: i in chosen && j in chosen ==> key(devices[i]).Some? && key(devices[i]) == key(devices[j])
  }

  lemma OneKeyByPosition<K(!new)>(spec: TopologySpec, key: Key<K>, chosen: set<int>)
    requires Acceptable(spec)
    requires forall i :: i in chosen ==> 0 <= i < |spec.devices|
    ensures OneKeyAt(spec.devices, key, chosen) <==> OneKey(spec.devices, key, ChosenIds(spec, chosen))
  {
    var ids := ChosenIds(spec, chosen);
    if OneKeyAt(spec.devices, key, chosen) {
      forall d, e | d in spec.devices && e in spec.devices && d.id in ids && e.id in ids
        ensures key(d).Some? && key(d) == key(e)
      {
        ChosenDevice(spec, chosen, d);
        ChosenDevice(spec, chosen, e);
      }
    }
    if OneKey(spec.devices, key, ids) {
      forall i | i in chosen
        ensures spec.devices[i] in spec.devices && spec.devices[i].id in ids
      {
      }
    }
  }

  lemma NumaAgrees(spec: TopologySpec, r: seq<Published>, byId: map<string, Device>, facts: map<string, Facts>,
                   chosen: set<int>)
    requires Publishes(spec, r, byId, facts)
    requires forall i :: i in chosen ==> 0 <= i < |r|
    ensures Agree(r, NumaAttr, chosen) <==> OneKeyAt(spec.devices, NumaOf, chosen)
  {
    forall i | i in chosen
      ensures NumaAttr in r[i].attributes <==> spec.devices[i].numaNode.Some?
      ensures NumaAttr in r[i].attributes ==> r[i].attributes[NumaAttr] == Number(spec.devices[i].numaNode.value)
    {
      AttributeFacts(spec.observedGeneration, spec.devices[i], facts);
    }
  }

  lemma RootAgrees(spec: TopologySpec, r: seq<Published>, byId: map<string, Device>, facts: map<string, Facts>,
                   chosen: set<int>)
    requires Publishes(spec, r, byId, facts)
    requires forall i :: i in chosen ==> 0 <= i < |r|
    ensures Agree(r, PcieRootAttr, chosen) <==> OneKeyAt(spec.devices, RootOf, chosen)
  {
    forall i | i in chosen
      ensures PcieRootAttr in r[i].attributes <==> spec.devices[i].pcieRoot != ""
      ensures PcieRootAttr in r[i].attributes ==> r[i].attributes[PcieRootAttr] == Text(spec.devices[i].pcieRoot)
    {
      AttributeFacts(spec.observedGeneration, spec.devices[i], facts);
    }
  }

  lemma OneKeyIsMode(devices: seq<Device>, ids: set<string>)
    ensures OneKey(devices, NumaOf, ids) <==> OneNode(devices, false, ids)
    ensures OneKey(devices, RootOf, ids) <==> OneRoot(devices, false, ids)
  {
  }

  /** The same-NUMA and same-root constraints of the template are exactly the scheduler's topology modes. */
  lemma MatchConstraintsExact(spec: TopologySpec, s: Snapshot, r: seq<Published>, byId: map<string, Device>,
                              facts: map<string, Facts>, policy: PolicySpec, chosen: set<int>)
    requires Acceptable(spec) && Publishes(spec, r, byId, facts) && Translatable(policy)
    requires policy.topologyMode.SingleNUMA? || policy.topologyMode.SamePCIeRoot?
    requires forall i :: i in chosen ==> 0 <= i < |r|
    ensures Agree(r, MatchAttributeFor(policy).value, chosen) <==>
              MeetsMode(s, spec.devices, policy, ChosenIds(spec, chosen))
  {
    OneKeyIsMode(spec.devices, ChosenIds(spec, chosen));
    if policy.topologyMode.SingleNUMA? {
      NumaAgrees(spec, r, byId, facts, chosen);
      OneKeyByPosition(spec, NumaOf, chosen);
    } else {
      RootAgrees(spec, r, byId, facts, chosen);
      OneKeyByPosition(spec, RootOf, chosen);
    }
  }

}
