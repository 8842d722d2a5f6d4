/**
 Two devices joined by an NVLink and a PCIe link: an allocation that the fabric-clique template
 admits, and that the scheduler does not take for a clique.
 */
module ParallelLinks {
  import opened Orders
  import opened Api
  import opened Topology
  import opened Cliques
  import opened Selection
  import opened Translation
  import opened TranslationProperties

  const LEFT := Device("a", NVIDIA, "p", "r/x", None, "", "g", 1, Healthy)
  const RIGHT := Device("b", NVIDIA, "p", "r/x", None, "", "g", 1, Healthy)
  const FAST := Link("a", "b", NVLink, 1.0, 1, Healthy)
  const SLOW := Link("a", "b", PCIe, 1.0, 1, Healthy)
  const HOST := TopologySpec("n", 1, VendorTool, [LEFT, RIGHT], [FAST, SLOW], false)
  const POLICY := PolicySpec(
    NoVendor, [], 0, FabricClique, 1.0, 1, false, ScoreWeights(25, 25, 25, 25), FailClosed, Some(2))

  const BY_ID := map["a" := LEFT, "b" := RIGHT]
  const FACTS := map["a" := Facts(NVLink, 1.0, 1), "b" := Facts(NVLink, 1.0, 1)]
  const SLICE := [Published("a", AttributesOf(1, LEFT, FACTS)), Published("b", AttributesOf(1, RIGHT, FACTS))]

  lemma HostAcceptable()
    ensures Acceptable(HOST)
  {
    HostDevices();
    HostLinks();
  }

  lemma HostDevices()
    ensures forall d :: d in HOST.devices ==> ValidDevice(d)
    ensures DistinctKeys(HOST.devices, DeviceId) && IdsOf(HOST.devices) == {"a", "b"}
  {
    ResourceQualified();
    assert LEFT in HOST.devices && RIGHT in HOST.devices;
  }

  lemma ResourceQualified()
    ensures QualifiedResourceName("r/x")
  {
    var s := "r/x";
    assert s[1] == '/' && s[..1] == "r" && s[2..] == "x";
    assert Subdomain("r") && NamePart("x");
  }

  lemma HostLinks()
    ensures forall l :: l in HOST.links ==> ValidLink(l, {"a", "b"})
    ensures DistinctKeys(HOST.links, LinkKey)
  {
    assert LinkKey(FAST) != LinkKey(SLOW) by {
      KeyEndsInType(FAST, SLOW);
    }
  }

  lemma KeyEndsInType(k: Link, l: Link)
    requires k.(kind := l.kind) == l && LinkTypeName(k.kind) != LinkTypeName(l.kind)
    ensures LinkKey(k) != LinkKey(l)
  {
    var c := Canonical(k);
    var prefix := c.source + "\0" + c.target + "\0";
    assert LinkKey(k) == prefix + LinkTypeName(k.kind) && LinkKey(l) == prefix + LinkTypeName(l.kind);
    assert LinkKey(k)[|prefix|..] == LinkTypeName(k.kind) && LinkKey(l)[|prefix|..] == LinkTypeName(l.kind);
  }

  lemma HostPublished()
    ensures Publishes(HOST, SLICE, BY_ID, FACTS)
  {
    forall id
      ensures FactAt(BY_ID, HOST.links, FACTS, id)
    {
      HostFacts(id);
    }
  }

  lemma HostFacts(id: string)
    ensures FactAt(BY_ID, HOST.links, FACTS, id)
  {
    assert HOST.links[..1] == [FAST] && [FAST][..0] == [];
    assert forall l :: Counts(BY_ID, HOST.links, l, id) <==> l == FAST && (id == "a" || id == "b");
    if id == "a" || id == "b" {
      assert Counts(BY_ID, HOST.links, FAST, id);
    }
    assert LastType(BY_ID, [FAST], id) == if id == "a" || id == "b" then Some(NVLink) else None;
  }

  lemma HostAllocated()
    ensures Translatable(POLICY) && Allocation(SLICE, POLICY, {0, 1})
  {
    HostPasses(LEFT);
    HostPasses(RIGHT);
  }

  lemma HostPasses(d: Device)
    requires d == LEFT || d == RIGHT
    ensures PassesAll(DeviceSelectors(POLICY) + FabricSelectors(POLICY), AttributesOf(1, d, FACTS))
    ensures FabricGroupAttr in AttributesOf(1, d, FACTS) && AttributesOf(1, d, FACTS)[FabricGroupAttr] == Text("g")
  {
    AttributeFacts(1, d, FACTS);
    assert DeviceSelectors(POLICY) == [Equals(HealthAttr, HealthValue(Healthy))];
    assert FabricSelectors(POLICY) == [AtLeast(FabricBandwidthAttr, 1), UpTo(FabricHopsAttr, 1)];
  }

  lemma HostNoClique(s: Snapshot)
    requires Acceptable(HOST) && Represents(HOST, s)
    ensures !CliqueSet(Fabric(s, POLICY), ChosenIds(HOST, {0, 1}))
  {
    HostPair();
    HiddenPairNoClique(HOST, s, POLICY, FAST, SLOW, "a", "b", ChosenIds(HOST, {0, 1}));
  }

  lemma HostPair()
    ensures ChosenIds(HOST, {0, 1}) == {"a", "b"}
    ensures FAST in HOST.links && SLOW in HOST.links
    ensures forall l :: l in HOST.links ==> !l.kind.XGMI?
  {
    assert HOST.devices[0].id == "a" && HOST.devices[1].id == "b";
    assert HOST.links[0] == FAST && HOST.links[1] == SLOW;
  }

  lemma HiddenPairNoClique(spec: TopologySpec, s: Snapshot, policy: PolicySpec, fabric: Link, pcie: Link,
                           a: string, b: string, ids: set<string>)
    requires Acceptable(spec) && Represents(spec, s) && a in ids && b in ids && a != b
    requires fabric in spec.links && Joins(fabric, a, b) && fabric.health.Healthy? && fabric.kind.NVLink?
    requires pcie in spec.links && Joins(pcie, a, b) && pcie.kind.PCIe?
    requires forall l :: l in spec.links ==> !l.kind.XGMI?
    ensures !CliqueSet(Fabric(s, policy), ids)
  {
    PcieLinkHidesFabricLink(spec, s, policy, fabric, pcie, a, b);
    assert !Fabric(s, policy)(a, b);
  }

  /**
   Build accepts the host, and its two devices are an allocation of the template compiled from
   the policy; yet they are no clique on any snapshot of the host, healthy as their NVLink is.
   */
  lemma AllocationNeedNotBeClique()
    ensures Acceptable(HOST) && Publishes(HOST, SLICE, BY_ID, FACTS)
    ensures Translatable(POLICY) && Allocation(SLICE, POLICY, {0, 1})
    ensures QualifiesFabricLink(FAST, POLICY)
    ensures forall s :: Represents(HOST, s) ==> !CliqueSet(Fabric(s, POLICY), ChosenIds(HOST, {0, 1}))
  {
    HostAcceptable();
    HostPublished();
    HostAllocated();
    forall s | Represents(HOST, s)
      ensures !CliqueSet(Fabric(s, POLICY), ChosenIds(HOST, {0, 1}))
    {
      HostNoClique(s);
    }
  }
}
