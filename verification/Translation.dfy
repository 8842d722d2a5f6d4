/**
 pkg/dra/resources.go and pkg/controller/policy/transform.go: publishing a topology as device
 attributes, and compiling a placement policy into attribute selectors.  CEL expressions are
 kept as syntax trees; a selector over a missing attribute does not match.
 */
module Translation {
  import opened Orders
  import opened Api
  import opened Topology

  // ----- attributes -----

  datatype AttrName =
    | VendorAttr | ProductAttr | ResourceNameAttr | MemoryAttr | HealthAttr | GenerationAttr
    | NumaAttr | PcieRootAttr | FabricGroupAttr
    | FabricTypeAttr | FabricBandwidthAttr | FabricHopsAttr

  datatype AttrValue =
    | VendorValue(vendor: Vendor)
    | HealthValue(health: Health)
    | TypeValue(kind: LinkType)
    | Text(text: string)
    | Number(number: int)

  type Attributes = map<AttrName, AttrValue>

  datatype Published = Published(name: string, attributes: Attributes)

  function Floor(r: real): int { r.Floor }

  function Ceil(r: real): int { -(-r).Floor }

  // ----- per-device fabric facts -----

  datatype Facts = Facts(kind: LinkType, minBandwidth: real, maxHops: int)

  /** The fabric group of the device with this ID, empty if there is none. */
  function GroupById(byId: map<string, Device>, id: string): string {
    if id in byId then byId[id].fabricGroup else ""
  }

  /** A healthy fabric link inside one group. */
  predicate InsideGroup(byId: map<string, Device>, l: Link) {
    && !l.kind.PCIe? && l.health.Healthy?
    && GroupById(byId, l.source) != ""
    && GroupById(byId, l.source) == GroupById(byId, l.target)
  }

  predicate Touches(l: Link, id: string) { l.source == id || l.target == id }

  /** One of the links is a healthy fabric link of the device inside its group. */
  predicate Counts(byId: map<string, Device>, links: seq<Link>, l: Link, id: string) {
    l in links && InsideGroup(byId, l) && Touches(l, id)
  }

  /** The type of the last of the links that is a healthy fabric link of the device inside its group. */
  function LastType(byId: map<string, Device>, links: seq<Link>, id: string): Option<LinkType> {
    if links == [] then None
    else
      var last := links[|links| - 1];
      if InsideGroup(byId, last) && Touches(last, id) then Some(last.kind)
      else LastType(byId, links[..|links| - 1], id)
  }

  /**
   The facts of a device bound every healthy link it has inside its group, and are attained;
   the type is that of the last such link.
   */
  ghost predicate FactAt(byId: map<string, Device>, links: seq<Link>, facts: map<string, Facts>, id: string) {
    && (id in facts <==> exists l :: Counts(byId, links, l, id))
    && (id in facts ==>
          && LastType(byId, links, id) == Some(facts[id].kind)
          && (forall l :: Counts(byId, links, l, id) ==> facts[id].minBandwidth <= l.bandwidthGBps)
          && (forall l :: Counts(byId, links, l, id) ==> l.hops <= facts[id].maxHops)
          && (exists l :: Counts(byId, links, l, id) && facts[id].minBandwidth == l.bandwidthGBps)
          && (facts[id].maxHops == 0 || exists l :: Counts(byId, links, l, id) && facts[id].maxHops == l.hops))
  }

  ghost predicate FactsBound(byId: map<string, Device>, links: seq<Link>, facts: map<string, Facts>) {
    forall id :: FactAt(byId, links, facts, id)
  }

  function Updated(facts: map<string, Facts>, id: string, l: Link): map<string, Facts> {
    var old' := if id in facts then facts[id] else Facts(l.kind, l.bandwidthGBps, 0);
    facts[id := Facts(l.kind,
                      if l.bandwidthGBps < old'.minBandwidth then l.bandwidthGBps else old'.minBandwidth,
                      if l.hops > old'.maxHops then l.hops else old'.maxHops)]
  }

  /** A look-up table of the devices. */
  ghost predicate IndexOf(devices: seq<Device>, byId: map<string, Device>) {
    && (forall i :: 0 <= i < |devices| ==> devices[i].id in byId && byId[devices[i].id] == devices[i])
    && (forall id :: id in byId ==> byId[id] in devices && byId[id].id == id)
  }

  method IndexById(devices: seq<Device>) returns (byId: map<string, Device>)
    requires DistinctKeys(devices, DeviceId)
    ensures IndexOf(devices, byId)
  {
    byId := map[];
    for i := 0 to |devices|
      invariant IndexOf(devices[..i], byId)
    {
      IndexStep(devices, byId, i);
      byId := byId[devices[i].id := devices[i]];
    }
    assert devices[..|devices|] == devices;
  }

  lemma IndexStep(devices: seq<Device>, byId: map<string, Device>, i: nat)
    requires i < |devices| && DistinctKeys(devices, DeviceId) && IndexOf(devices[..i], byId)
    ensures IndexOf(devices[..i + 1], byId[devices[i].id := devices[i]])
  {
    var more := devices[..i + 1];
    assert more == devices[..i] + [devices[i]];
    forall j | 0 <= j < i
      ensures devices[j].id != devices[i].id && devices[..i][j] == devices[j]
    {
      assert DeviceId(devices[j]) != DeviceId(devices[i]);
    }
  }

  method FabricFacts(byId: map<string, Device>, links: seq<Link>) returns (facts: map<string, Facts>)
    ensures FactsBound(byId, links, facts)
  {
    facts := map[];
    for i := 0 to |links|
      invariant FactsBound(byId, links[..i], facts)
    {
      var link := links[i];
      FactsStep(byId, links, facts, i);
      if !link.kind.PCIe? && link.health.Healthy? {
        var left, right := GroupById(byId, link.source), GroupById(byId, link.target);
        if left != "" && left == right {
          facts := Updated(facts, link.source, link);
          facts := Updated(facts, link.target, link);
        }
      }
    }
    assert links[..|links|] == links;
  }

  lemma FactsStep(byId: map<string, Device>, links: seq<Link>, facts: map<string, Facts>, i: nat)
    requires i < |links| && FactsBound(byId, links[..i], facts)
    ensures !InsideGroup(byId, links[i]) ==> FactsBound(byId, links[..i + 1], facts)
    ensures InsideGroup(byId, links[i]) ==>
              FactsBound(byId, links[..i + 1],
                         Updated(Updated(facts, links[i].source, links[i]), links[i].target, links[i]))
  {
    var l, before, more := links[i], links[..i], links[..i + 1];
    assert more == before + [l];
    var next := if InsideGroup(byId, l) then Updated(Updated(facts, l.source, l), l.target, l) else facts;
    forall id
      ensures FactAt(byId, more, next, id)
    {
      assert FactAt(byId, before, facts, id);
      if InsideGroup(byId, l) {
        FactStepAt(byId, before, facts, l, id);
      } else {
        FactSkipAt(byId, before, facts, l, id);
      }
    }
  }

  lemma FactSkipAt(byId: map<string, Device>, links: seq<Link>, facts: map<string, Facts>, l: Link, id: string)
    requires FactAt(byId, links, facts, id) && !(InsideGroup(byId, l) && Touches(l, id))
    ensures FactAt(byId, links + [l], facts, id)
  {
    assert (links + [l])[..|links|] == links;
    assert forall k :: Counts(byId, links + [l], k, id) <==> Counts(byId, links, k, id);
  }

  lemma FactStepAt(byId: map<string, Device>, links: seq<Link>, facts: map<string, Facts>, l: Link, id: string)
    requires FactAt(byId, links, facts, id) && InsideGroup(byId, l)
    ensures FactAt(byId, links + [l], Updated(Updated(facts, l.source, l), l.target, l), id)
  {
    var next, more := Updated(Updated(facts, l.source, l), l.target, l), links + [l];
    if !Touches(l, id) {
      FactSkipAt(byId, links, facts, l, id);
      assert id in next <==> id in facts;
    } else {
      assert forall k :: Counts(byId, more, k, id) <==> Counts(byId, links, k, id) || k == l;
      assert Counts(byId, more, l, id);
      assert next[id] == Updated(facts, id, l)[id];
      if id in facts {
        var m :| Counts(byId, links, m, id) && facts[id].minBandwidth == m.bandwidthGBps;
        assert Counts(byId, more, m, id);
        if facts[id].maxHops != 0 {
          var h :| Counts(byId, links, h, id) && facts[id].maxHops == h.hops;
          assert Counts(byId, more, h, id);
        }
      }
    }
  }

  // ----- publishing -----

  function AttributesOf(generation: int, d: Device, facts: map<string, Facts>): Attributes {
    var base := map[
      VendorAttr := VendorValue(d.vendor),
      ProductAttr := Text(d.product),
      ResourceNameAttr := Text(d.resourceName),
      MemoryAttr := Number(d.memoryMiB),
      HealthAttr := HealthValue(d.health),
      GenerationAttr := Number(generation)];
    var numa := if d.numaNode.Some? then base[NumaAttr := Number(d.numaNode.value)] else base;
    var root := if d.pcieRoot != "" then numa[PcieRootAttr := Text(d.pcieRoot)] else numa;
    var group := if d.fabricGroup != "" then root[FabricGroupAttr := Text(d.fabricGroup)] else root;
    if d.id in facts then
      group[FabricTypeAttr := TypeValue(facts[d.id].kind)]
           [FabricBandwidthAttr := Number(Floor(facts[d.id].minBandwidth))]
           [FabricHopsAttr := Number(facts[d.id].maxHops)]
    else group
  }

  /** The devices of a spec as they appear in its resource slice. */
  ghost predicate Publishes(spec: TopologySpec, r: seq<Published>,
                            byId: map<string, Device>, facts: map<string, Facts>) {
    && IndexOf(spec.devices, byId)
    && FactsBound(byId, spec.links, facts)
    && |r| == |spec.devices|
    && forall i :: 0 <= i < |r| ==>
         r[i] == Published(spec.devices[i].id, AttributesOf(spec.observedGeneration, spec.devices[i], facts))
  }

  method PublishDevices(generation: int, devices: seq<Device>, facts: map<string, Facts>)
    returns (published: seq<Published>)
    ensures |published| == |devices|
    ensures forall i :: 0 <= i < |devices| ==>
              published[i] == Published(devices[i].id, AttributesOf(generation, devices[i], facts))
  {
    published := [];
    for i := 0 to |devices|
      invariant |published| == i
      invariant forall j :: 0 <= j < i ==>
                  published[j] == Published(devices[j].id, AttributesOf(generation, devices[j], facts))
    {
      published := published + [Published(devices[i].id, AttributesOf(generation, devices[i], facts))];
    }
  }

  /** The resources of a topology: one pool, named after the node, with one slice of devices. */
  method ResourcesForTopology(spec: Option<TopologySpec>)
    returns (r: Result<map<string, seq<Published>>, Option<BuildError>>)
    ensures r.Ok? <==> spec.Some? && Acceptable(spec.value)
    ensures r.Ok? ==>
              && r.value.Keys == {spec.value.nodeName}
              && exists byId, facts :: Publishes(spec.value, r.value[spec.value.nodeName], byId, facts)
  {
    if spec.None? {
      return Err(None);
    }
    var built := Build(spec.value);
    if built.Err? {
      return Err(Some(built.error));
    }
    var devices := spec.value.devices;
    var byId := IndexById(devices);
    var facts := FabricFacts(byId, spec.value.links);
    var published := PublishDevices(spec.value.observedGeneration, devices, facts);
    assert Publishes(spec.value, published, byId, facts);
    return Ok(map[spec.value.nodeName := published]);
  }

  // ----- selectors -----

  datatype Selector =
    | Equals(name: AttrName, value: AttrValue)
    | OneOf(name: AttrName, values: seq<AttrValue>)
    | AtLeast(name: AttrName, bound: int)
    | UpTo(name: AttrName, bound: int)

  predicate Matches(sel: Selector, attributes: Attributes) {
    && sel.name in attributes
    && match sel
       case Equals(name, value) => attributes[name] == value
       case OneOf(name, values) => attributes[name] in values
       case AtLeast(name, bound) => attributes[name].Number? && attributes[name].number >= bound
       case UpTo(name, bound) => attributes[name].Number? && attributes[name].number <= bound
  }

  datatype PolicyObject = PolicyObject(namespace: string, name: string, uid: string, spec: PolicySpec)

  datatype OwnerReference = OwnerReference(
    apiVersion: string,
    kind: string,
    name: string,
    uid: string,
    controller: bool,
    blockOwnerDeletion: bool)

  /** A request for an exact number of devices of a class that pass all selectors. */
  datatype DeviceRequest = DeviceRequest(name: string, deviceClass: string, selectors: seq<Selector>, count: int)

  /** The devices of these requests agree on the attribute. */
  datatype Constraint = Constraint(requests: seq<string>, attribute: AttrName)

  datatype Template = Template(
    namespace: string,
    name: string,
    labels: map<string, string>,
    owner: OwnerReference,
    claimLabels: map<string, string>,
    request: DeviceRequest,
    constraints: seq<Constraint>)

  const DEVICE_CLASS := "bupt-accelerator"
  const REQUEST_NAME := "accelerators"
  const MANAGED_BY_LABEL := "scheduling.bupt.dev/managed-by"
  const MANAGED_BY_VALUE := "accelerator-policy-controller"
  const POLICY_LABEL := "scheduling.bupt.dev/placement-policy"
  const POLICY_VERSION := "scheduling.bupt.dev/v1alpha1"

  datatype TranslateError = DraRequired | CountNotPositive | UnknownTopology | ConnectedUnsupported | ModeUnsupported

  /** The policies that can be compiled. */
  predicate Translatable(p: PolicySpec) {
    && p.draDeviceCount.Some? && p.draDeviceCount.value >= 1
    && !p.allowUnknownTopology
    && !p.topologyMode.FabricConnected? && !p.topologyMode.OtherMode?
  }

  function ProductValues(products: seq<string>): (r: seq<AttrValue>)
    ensures |r| == |products|
    ensures forall i :: 0 <= i < |r| ==> r[i] == Text(products[i])
  {
    seq(|products|, i requires 0 <= i < |products| => Text(products[i]))
  }

  function VendorSelectors(p: PolicySpec): seq<Selector> {
    if p.vendor.NoVendor? || p.vendor.AnyVendor? then [] else [Equals(VendorAttr, VendorValue(p.vendor))]
  }

  function ProductSelectors(p: PolicySpec): seq<Selector> {
    if p.products == [] then [] else [OneOf(ProductAttr, ProductValues(p.products))]
  }

  function MemorySelectors(p: PolicySpec): seq<Selector> {
    if p.minimumMemoryMiB > 0 then [AtLeast(MemoryAttr, p.minimumMemoryMiB)] else []
  }

  function DeviceSelectors(p: PolicySpec): seq<Selector> {
    [Equals(HealthAttr, HealthValue(Healthy))] + VendorSelectors(p) + ProductSelectors(p) + MemorySelectors(p)
  }

  function FabricSelectors(p: PolicySpec): seq<Selector> {
    if !p.topologyMode.FabricClique? then []
    else
      (if p.minimumLinkBandwidthGBps > 0.0
       then [AtLeast(FabricBandwidthAttr, Ceil(p.minimumLinkBandwidthGBps))]
       else []) +
      [UpTo(FabricHopsAttr, p.maxFabricHops)]
  }

  function MatchAttributeFor(p: PolicySpec): Option<AttrName> {
    match p.topologyMode
    case SingleNUMA => Some(NumaAttr)
    case SamePCIeRoot => Some(PcieRootAttr)
    case FabricClique => Some(FabricGroupAttr)
    case _ => None
  }

  /** The template is named after its policy, labelled with it, and dies with it. */
  predicate BelongsTo(t: Template, policy: PolicyObject) {
    && t.namespace == policy.namespace && t.name == policy.name
    && t.labels == map[MANAGED_BY_LABEL := MANAGED_BY_VALUE, POLICY_LABEL := policy.name]
    && t.claimLabels == map[POLICY_LABEL := policy.name]
    && t.owner == OwnerReference(POLICY_VERSION, "AcceleratorPlacementPolicy", policy.name, policy.uid, true, true)
  }

  /** The request and the constraint that compile the policy. */
  predicate Compiles(t: Template, p: PolicySpec)
    requires Translatable(p)
  {
    && t.request ==
       DeviceRequest(REQUEST_NAME, DEVICE_CLASS, DeviceSelectors(p) + FabricSelectors(p), p.draDeviceCount.value)
    && t.constraints == match MatchAttributeFor(p)
                        case None => []
                        case Some(attribute) => [Constraint([REQUEST_NAME], attribute)]
  }

  /** The selectors that do not depend on the topology mode. */
  method SelectDevices(p: PolicySpec) returns (selectors: seq<Selector>)
    ensures selectors == DeviceSelectors(p)
  {
    selectors := [Equals(HealthAttr, HealthValue(Healthy))];
    if !p.vendor.NoVendor? && !p.vendor.AnyVendor? {
      selectors := selectors + [Equals(VendorAttr, VendorValue(p.vendor))];
    }
    if |p.products| > 0 {
      var products: seq<AttrValue> := [];
      for i := 0 to |p.products|
        invariant products == ProductValues(p.products[..i])
      {
        products := products + [Text(p.products[i])];
      }
      assert p.products[..|p.products|] == p.products;
      selectors := selectors + [OneOf(ProductAttr, products)];
    }
    if p.minimumMemoryMiB > 0 {
      selectors := selectors + [AtLeast(MemoryAttr, p.minimumMemoryMiB)];
    }
  }

  method ResourceClaimTemplateForPolicy(policy: Option<PolicyObject>) returns (r: Result<Template, TranslateError>)
    ensures r.Ok? <==> policy.Some? && Translatable(policy.value.spec)
    ensures r.Ok? ==> BelongsTo(r.value, policy.value) && Compiles(r.value, policy.value.spec)
  {
    if policy.None? || policy.value.spec.draDeviceCount.None? { return Err(DraRequired); }
    var p := policy.value.spec;
    if p.draDeviceCount.value < 1 { return Err(CountNotPositive); }
    if p.allowUnknownTopology { return Err(UnknownTopology); }
    var selectors := SelectDevices(p);
    var matchAttribute: Option<AttrName> := None;
    match p.topologyMode {
      case SingleNUMA => matchAttribute := Some(NumaAttr);
      case SamePCIeRoot => matchAttribute := Some(PcieRootAttr);
      case FabricClique =>
        matchAttribute := Some(FabricGroupAttr);
        if p.minimumLinkBandwidthGBps > 0.0 {
          selectors := selectors + [AtLeast(FabricBandwidthAttr, Ceil(p.minimumLinkBandwidthGBps))];
        }
        selectors := selectors + [UpTo(FabricHopsAttr, p.maxFabricHops)];
      case BestEffort =>
      case FabricConnected => return Err(ConnectedUnsupported);
      case OtherMode(_) => return Err(ModeUnsupported);
    }
    var constraints: seq<Constraint> := [];
    if matchAttribute.Some? {
      constraints := [Constraint([REQUEST_NAME], matchAttribute.value)];
    }
    var name := policy.value.name;
    return Ok(Template(
                policy.value.namespace, name,
                map[MANAGED_BY_LABEL := MANAGED_BY_VALUE, POLICY_LABEL := name],
                OwnerReference(POLICY_VERSION, "AcceleratorPlacementPolicy", name, policy.value.uid, true, true),
                map[POLICY_LABEL := name],
                DeviceRequest(REQUEST_NAME, DEVICE_CLASS, selectors, p.draDeviceCount.value),
                constraints));
  }
}
