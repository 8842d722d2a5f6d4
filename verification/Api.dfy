/**
 The custom resources of the scheduler.  Go's string enumerations become datatypes whose
 last constructor stands for every other text, so that the validation code keeps its job.
 */
module Api {
  import opened Orders

  /** Durations and times are counted in nanoseconds. */
  const SECOND := 1_000_000_000

  datatype Vendor = NoVendor | AnyVendor | NVIDIA | Huawei | AMD | OtherVendor(text: string)

  datatype Health = Healthy | Unhealthy | UnknownHealth | OtherHealth(text: string)

  datatype LinkType = NVLink | HCCS | XGMI | PCIe | OtherLink(text: string)

  datatype TopologySource = Fixture | NFD | VendorTool | DRASource | OtherSource(text: string)

  datatype TopologyMode =
    | SingleNUMA
    | SamePCIeRoot
    | FabricClique
    | FabricConnected
    | BestEffort
    | OtherMode(text: string)

  datatype FailurePolicy = FailClosed | ToleratesMissing | OtherFailure(text: string)

  datatype Device = Device(
    id: string,
    vendor: Vendor,
    product: string,
    resourceName: string,
    numaNode: Option<int>,
    pcieRoot: string,
    fabricGroup: string,
    memoryMiB: int,
    health: Health)

  datatype Link = Link(
    source: string,
    target: string,
    kind: LinkType,
    bandwidthGBps: real,
    hops: int,
    health: Health)

  datatype TopologySpec = TopologySpec(
    nodeName: string,
    observedGeneration: int,
    origin: TopologySource,
    devices: seq<Device>,
    links: seq<Link>,
    linksNil: bool)  // the link list is Go's nil slice rather than an empty one

  datatype ScoreWeights = ScoreWeights(locality: int, fabric: int, fragmentation: int, headroom: int)

  datatype PolicySpec = PolicySpec(
    vendor: Vendor,
    products: seq<string>,
    minimumMemoryMiB: int,
    topologyMode: TopologyMode,
    minimumLinkBandwidthGBps: real,
    maxFabricHops: int,
    allowUnknownTopology: bool,
    weights: ScoreWeights,
    failurePolicy: FailurePolicy,
    draDeviceCount: Option<int>)

  datatype ConditionStatus = ConditionTrue | ConditionFalse | ConditionUnknown

  datatype Condition = Condition(status: ConditionStatus, observedGeneration: int, reason: string, message: string)

  /** The Ready condition and the heartbeat, in nanoseconds since Go's zero time. */
  datatype TopologyStatus = TopologyStatus(ready: Option<Condition>, lastHeartbeat: Option<int>)

  datatype TopologyObject = TopologyObject(
    resourceVersion: int,
    generation: int,
    managedBy: string,
    provider: string,
    spec: TopologySpec,
    status: TopologyStatus)

  /** The text of a link type, as it enters link keys. */
  function LinkTypeName(kind: LinkType): string {
    match kind
    case NVLink => "nvlink"
    case HCCS => "hccs"
    case XGMI => "xgmi"
    case PCIe => "pcie"
    case OtherLink(text) => text
  }
}
