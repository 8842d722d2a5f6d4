/**
 pkg/dra/driver.go: the DRA driver's in-memory maps, its state file and its CDI files.  Every
 file operation may succeed, fail, or be cut short by a crash of the process.
 */
module Driver {
  import opened Orders

  // ----- claims -----

  datatype AllocatedDevice = AllocatedDevice(request: string, pool: string, device: string, shareId: string)

  datatype PreparedClaim = PreparedClaim(
    namespace: string,
    name: string,
    uid: string,
    devices: seq<AllocatedDevice>,
    cdiFile: StablePath,
    cdiId: string)

  datatype AllocationResult = AllocationResult(
    driver: string,
    pool: string,
    device: string,
    request: string,
    shareId: Option<string>)

  datatype Claim = Claim(namespace: string, name: string, uid: string, allocation: Option<seq<AllocationResult>>)

  datatype KubeletDevice = KubeletDevice(
    requests: seq<string>,
    pool: string,
    device: string,
    shareId: Option<string>,
    cdiIds: seq<string>)

  /** The name under which the driver publishes devices, and the node whose pool it serves. */
  datatype Config = Config(driverName: string, nodeName: string)

  function DeviceKey(d: AllocatedDevice): string {
    d.pool + "/" + d.device
  }

  function KeysOf(devices: seq<AllocatedDevice>): set<string> {
    set d | d in devices :: DeviceKey(d)
  }

  // ----- files -----

  datatype FilePath = StateFile | CdiFile(uid: string) | Temporary(of: FilePath)

  /** Paths that are read back; every other path is one of atomicWrite's temporary files. */
  type StablePath = p: FilePath | !p.Temporary? witness StateFile

  datatype Content =
    | Saved(version: int, claims: map<string, PreparedClaim>)
    | CdiSpec(cdiVersion: string, kind: string, deviceName: string, env: seq<string>)
    | Garbage

  type Disk = map<FilePath, Content>

  /** Files that some later read may look at; temporary files are only ever written and renamed. */
  function Durable(files: Disk): Disk {
    map p | p in files && !p.Temporary? :: files[p]
  }

  datatype Fate = Done | Failed | Crashed

  class FileSystem {
    var files: Disk
    var faults: nat  // operations so far that failed or were cut short

    constructor (files: Disk)
      ensures this.files == files && faults == 0
    {
      this.files, faults := files, 0;
    }

    /** os.WriteFile: unless it succeeds, the file may be left absent, truncated or half written. */
    method WriteFile(path: FilePath, content: Content) returns (fate: Fate)
      modifies this
      ensures fate.Done? ==> files == old(files)[path := content]
      ensures !fate.Done? ==> files - {path} == old(files) - {path}
      ensures faults == if fate.Done? then old(faults) else old(faults) + 1
    {
      if * {
        files := files[path := content];
        return Done;
      }
      faults := faults + 1;
      if * {
        files := files[path := Garbage];
      }
      if * {
        return Failed;
      }
      return Crashed;
    }

    /** os.Rename: atomic, so a crash leaves the state before or after. */
    method Rename(from: FilePath, to: FilePath) returns (fate: Fate)
      requires from in files && from != to
      modifies this
      ensures fate.Done? ==> files == (old(files) - {from})[to := old(files)[from]]
      ensures fate.Failed? ==> files == old(files)
      ensures fate.Crashed? ==> files == old(files) || files == (old(files) - {from})[to := old(files)[from]]
      ensures faults == if fate.Done? then old(faults) else old(faults) + 1
    {
      faults := faults + 1;
      if * {
        return Failed;
      }
      if * {
        return Crashed;
      }
      files := (files - {from})[to := files[from]];
      if * {
        return Crashed;
      }
      faults := faults - 1;
      return Done;
    }

    /** os.Remove, with a missing file counted as removed. */
    method Remove(path: FilePath) returns (fate: Fate)
      modifies this
      ensures fate.Done? ==> files == old(files) - {path}
      ensures fate.Failed? ==> files == old(files)
      ensures fate.Crashed? ==> files == old(files) || files == old(files) - {path}
      ensures faults == if fate.Done? then old(faults) else old(faults) + 1
    {
      faults := faults + 1;
      if * {
        return Failed;
      }
      if * {
        return Crashed;
      }
      files := files - {path};
      if * {
        return Crashed;
      }
      faults := faults - 1;
      return Done;
    }

    /** os.ReadFile: no answer when the read itself fails. */
    method ReadFile(path: FilePath) returns (r: Option<Option<Content>>)
      modifies this
      ensures files == old(files)
      ensures r == None || r == Some(if path in files then Some(files[path]) else None)
      ensures faults == if r == None then old(faults) + 1 else old(faults)
    {
      if * {
        faults := faults + 1;
        return None;
      }
      return Some(if path in files then Some(files[path]) else None);
    }

    /** atomicWrite: readers see the old content or the new, never anything else. */
    method AtomicWrite(path: FilePath, content: Content) returns (fate: Fate)
      requires !path.Temporary?
      modifies this
      ensures fate.Done? ==> Durable(files) == Durable(old(files))[path := content]
      ensures fate.Failed? ==> Durable(files) == Durable(old(files))
      ensures fate.Crashed? ==>
                Durable(files) == Durable(old(files)) || Durable(files) == Durable(old(files))[path := content]
      ensures faults >= old(faults) && (fate.Done? <==> faults == old(faults))
    {
      var temporary := Temporary(path);
      fate := WriteFile(temporary, content);
      DurableIgnoresTemporary(old(files), files, temporary);
      if !fate.Done? {
        return fate;
      }
      label written:
      fate := Rename(temporary, path);
      if fate.Failed? {
        var cleanup := Remove(temporary);
        DurableIgnoresTemporary(old@written(files), files, temporary);
        if cleanup.Crashed? {
          return Crashed;
        }
      }
    }
  }

  lemma DurableIgnoresTemporary(before: Disk, after: Disk, path: FilePath)
    requires path.Temporary? && before - {path} == after - {path}
    ensures Durable(before) == Durable(after)
  {
    forall p: FilePath | !p.Temporary?
      ensures p in before <==> p in after
      ensures p in before ==> before[p] == after[p]
    {
      assert p in before - {path} <==> p in after - {path};
      if p in before { assert (before - {path})[p] == (after - {path})[p]; }
    }
    assert Durable(before).Keys == Durable(after).Keys;
  }

  // ----- what is written -----

  const STATE_VERSION := 1

  function Join(parts: seq<string>, separator: string): string {
    if parts == [] then ""
    else if |parts| == 1 then parts[0]
    else parts[0] + separator + Join(parts[1..], separator)
  }

  function KeyList(devices: seq<AllocatedDevice>): (keys: seq<string>)
    ensures |keys| == |devices|
    ensures forall i :: 0 <= i < |devices| ==> keys[i] == DeviceKey(devices[i])
  {
    seq(|devices|, i requires 0 <= i < |devices| => DeviceKey(devices[i]))
  }

  function CdiFor(cfg: Config, p: PreparedClaim): Content {
    CdiSpec("0.3.0", cfg.driverName + "/device", "claim-" + p.uid,
            ["BUPT_DRA_CLAIM_UID=" + p.uid, "BUPT_DRA_DEVICE_IDS=" + Join(KeyList(p.devices), ",")])
  }

  function SavedClaims(disk: Disk): map<string, PreparedClaim> {
    if StateFile in disk && disk[StateFile].Saved? then disk[StateFile].claims else map[]
  }

  function KubeletDevices(p: PreparedClaim): (r: seq<KubeletDevice>)
    ensures |r| == |p.devices|
    ensures forall i :: 0 <= i < |r| ==> r[i].pool == p.devices[i].pool && r[i].device == p.devices[i].device
    ensures forall i :: 0 <= i < |r| ==> r[i].requests == [p.devices[i].request]
    ensures forall i :: 0 <= i < |r| ==>
              r[i].shareId == if p.devices[i].shareId == "" then None else Some(p.devices[i].shareId)
    ensures forall i :: 0 <= i < |r| ==> r[i].cdiIds == if i == 0 then [p.cdiId] else []
  {
    seq(|p.devices|, i requires 0 <= i < |p.devices| =>
      var a := p.devices[i];
      KubeletDevice([a.request], a.pool, a.device,
                    if a.shareId == "" then None else Some(a.shareId),
                    if i == 0 then [p.cdiId] else []))
  }

  // ----- memory -----

  datatype Memory = Memory(prepared: map<string, PreparedClaim>, owners: map<string, string>)

  function Owned(keys: set<string>, uid: string): map<string, string> {
    map k | k in keys :: uid
  }

  function Holding(m: Memory, p: PreparedClaim): Memory {
    Memory(m.prepared[p.uid := p], m.owners + Owned(KeysOf(p.devices), p.uid))
  }

  function Dropping(m: Memory, p: PreparedClaim): Memory {
    Memory(m.prepared - {p.uid}, m.owners - KeysOf(p.devices))
  }

  /** owners is the exact inverse of prepared. */
  ghost predicate Inverse(m: Memory) {
    OwnsAll(m) && OwnsOnly(m)
  }

  ghost predicate OwnsAll(m: Memory) {
    forall u, k :: u in m.prepared && k in KeysOf(m.prepared[u].devices) ==> k in m.owners && m.owners[k] == u
  }

  ghost predicate OwnsOnly(m: Memory) {
    forall k :: k in m.owners ==> m.owners[k] in m.prepared && k in KeysOf(m.prepared[m.owners[k]].devices)
  }

  /** Claims are filed under their own, non-empty UID and know their CDI file. */
  ghost predicate Filed(claims: map<string, PreparedClaim>) {
    forall u :: u in claims ==> u != "" && claims[u].uid == u && claims[u].cdiFile == CdiFile(u)
  }

  lemma DropUndoesHold(m: Memory, p: PreparedClaim)
    requires Inverse(m) && p.uid !in m.prepared
    requires forall k :: k in KeysOf(p.devices) ==> k !in m.owners || m.owners[k] == p.uid
    ensures Dropping(Holding(m, p), p) == m
  {
    assert forall k :: k in KeysOf(p.devices) ==> k !in m.owners;
    assert Dropping(Holding(m, p), p).prepared == m.prepared;
    assert Dropping(Holding(m, p), p).owners == m.owners;
  }

  lemma HoldUndoesDrop(m: Memory, p: PreparedClaim)
    requires Inverse(m) && p.uid in m.prepared && m.prepared[p.uid] == p
    ensures Holding(Dropping(m, p), p) == m
  {
    var keys := KeysOf(p.devices);
    assert forall k :: k in keys ==> k in m.owners && m.owners[k] == p.uid;
    RestoreOwners(m.owners, keys, p.uid);
    assert (m.prepared - {p.uid})[p.uid := p] == m.prepared;
  }

  lemma RestoreOwners(owners: map<string, string>, keys: set<string>, uid: string)
    requires forall k :: k in keys ==> k in owners && owners[k] == uid
    ensures (owners - keys) + Owned(keys, uid) == owners
  {
  }

  // ----- reading the allocation -----

  datatype PrepareError =
    | ClaimRequired
    | NotAllocated
    | WrongPool(device: string)
    | NothingForDriver
    | AllocationChanged
    | DeviceTaken(key: string, owner: string)
    | WriteFailed

  predicate ByPoolAndDevice(x: AllocatedDevice, y: AllocatedDevice) {
    if x.pool != y.pool then Less(x.pool, y.pool) else AtMost(x.device, y.device)
  }

  /** The results addressed to this driver, in the claim's order. */
  function Mine(cfg: Config, results: seq<AllocationResult>): seq<AllocatedDevice> {
    if results == [] then []
    else
      var n := |results| - 1;
      var r := results[n];
      Mine(cfg, results[..n]) +
      if r.driver == cfg.driverName
      then [AllocatedDevice(r.request, r.pool, r.device, if r.shareId.Some? then r.shareId.value else "")]
      else []
  }

  ghost predicate OnThisNode(cfg: Config, devices: seq<AllocatedDevice>) {
    forall d :: d in devices ==> d.pool == cfg.nodeName
  }

  /** The sorted devices that a claim allocates here. */
  ghost predicate Allocates(cfg: Config, claim: Claim, devices: seq<AllocatedDevice>) {
    && claim.uid != ""
    && claim.allocation.Some?
    && devices != []
    && multiset(devices) == multiset(Mine(cfg, claim.allocation.value))
    && SortedBy(devices, ByPoolAndDevice)
    && OnThisNode(cfg, devices)
  }

  method ReadAllocation(cfg: Config, claim: Option<Claim>) returns (r: Result<seq<AllocatedDevice>, PrepareError>)
    ensures r.Ok? ==> claim.Some? && Allocates(cfg, claim.value, r.value)
    ensures r.Err? ==>
              match r.error
              case ClaimRequired => claim.None? || claim.value.uid == ""
              case NotAllocated => claim.Some? && claim.value.allocation.None?
              case WrongPool(_) => claim.Some? && claim.value.allocation.Some?
                                   && !OnThisNode(cfg, Mine(cfg, claim.value.allocation.value))
              case NothingForDriver => claim.Some? && claim.value.allocation.Some?
                                       && Mine(cfg, claim.value.allocation.value) == []
              case _ => false
  {
    if claim.None? || claim.value.uid == "" {
      return Err(ClaimRequired);
    }
    if claim.value.allocation.None? {
      return Err(NotAllocated);
    }
    var results := claim.value.allocation.value;
    var mine: seq<AllocatedDevice> := [];
    for i := 0 to |results|
      invariant mine == Mine(cfg, results[..i])
      invariant OnThisNode(cfg, mine)
    {
      assert results[..i + 1][..i] == results[..i];
      var result := results[i];
      if result.driver != cfg.driverName {
        continue;
      }
      if result.pool != cfg.nodeName {
        MineKeeps(cfg, results, i);
        return Err(WrongPool(result.device));
      }
      var shareId := if result.shareId.Some? then result.shareId.value else "";
      mine := mine + [AllocatedDevice(result.request, result.pool, result.device, shareId)];
    }
    assert results[..|results|] == results;
    if |mine| == 0 {
      return Err(NothingForDriver);
    }
    PoolOrder();
    var sorted := Sort(mine, ByPoolAndDevice);
    SortedNonempty(cfg, mine, sorted);
    return Ok(sorted);
  }

  lemma SortedNonempty(cfg: Config, x: seq<AllocatedDevice>, y: seq<AllocatedDevice>)
    requires multiset(x) == multiset(y) && x != [] && OnThisNode(cfg, x)
    ensures y != [] && OnThisNode(cfg, y)
  {
    SameLength(x, y);
    forall d | d in y
      ensures d.pool == cfg.nodeName
    {
      assert d in multiset(x);
    }
  }

  lemma {:induction false} MineKeeps(cfg: Config, results: seq<AllocationResult>, i: nat)
    requires i < |results| && results[i].driver == cfg.driverName && results[i].pool != cfg.nodeName
    ensures !OnThisNode(cfg, Mine(cfg, results))
  {
    var n := |results| - 1;
    if i == n {
      var last := Mine(cfg, results)[|Mine(cfg, results)| - 1];
      assert last in Mine(cfg, results) && last.pool != cfg.nodeName;
    } else {
      MineKeeps(cfg, results[..n], i);
      var d :| d in Mine(cfg, results[..n]) && d.pool != cfg.nodeName;
      assert d in Mine(cfg, results);
    }
  }

  lemma PoolOrder()
    ensures TotalPreorder(ByPoolAndDevice)
  {
    forall x: AllocatedDevice, y: AllocatedDevice
      ensures ByPoolAndDevice(x, y) || ByPoolAndDevice(y, x)
    {
      LessTotal(x.pool, y.pool);
      if Less(x.device, y.device) { LessAsymmetric(x.device, y.device); }
    }
    forall x: AllocatedDevice, y: AllocatedDevice, z: AllocatedDevice | ByPoolAndDevice(x, y) && ByPoolAndDevice(y, z)
      ensures ByPoolAndDevice(x, z)
    {
      if x.pool != y.pool && y.pool != z.pool {
        LessTransitive(x.pool, y.pool, z.pool);
        LessIrreflexive(x.pool);
      } else if x.pool == y.pool && y.pool == z.pool {
        AtMostTransitive(x.device, y.device, z.device);
      }
    }
  }

  // ----- the outcomes of each operation -----

  datatype PrepareOutcome = Prepared(devices: seq<KubeletDevice>) | Refused(error: PrepareError) | Halted

  datatype UnprepareOutcome = Unprepared | Kept | Interrupted

  datatype LoadOutcome = Loaded | Rejected(reason: LoadError) | Cut

  datatype LoadError =
    | Unreadable
    | Undecodable
    | BadVersion
    | BadKey(key: string)
    | SharedDevice(key: string)
    | CdiFailed

  function NewClaim(cfg: Config, claim: Claim, devices: seq<AllocatedDevice>): PreparedClaim {
    PreparedClaim(claim.namespace, claim.name, claim.uid, devices, CdiFile(claim.uid),
                  cfg.driverName + "/device=claim-" + claim.uid)
  }

  /** No device of the list is owned by another claim. */
  ghost predicate Free(m: Memory, uid: string, devices: seq<AllocatedDevice>) {
    forall d :: d in devices ==>
      DeviceKey(d) !in m.owners || m.owners[DeviceKey(d)] == "" || m.owners[DeviceKey(d)] == uid
  }

  /** The disks differ at most in one file. */
  ghost predicate SameBut(x: Disk, y: Disk, path: FilePath) {
    x - {path} == y - {path}
  }

  function WithState(disk: Disk, claims: map<string, PreparedClaim>): Disk {
    disk[StateFile := Saved(STATE_VERSION, claims)]
  }

  ghost predicate PrepareDone(cfg: Config, claim: Claim, devices: seq<AllocatedDevice>, m: Memory, disk: Disk,
                              m': Memory, disk': Disk, ds: seq<KubeletDevice>) {
    && Allocates(cfg, claim, devices)
    && if claim.uid in m.prepared then
         var p := m.prepared[claim.uid];
         && devices == p.devices
         && m' == m
         && disk' == disk[p.cdiFile := CdiFor(cfg, p)]
         && ds == KubeletDevices(p)
       else
         var p := NewClaim(cfg, claim, devices);
         && Free(m, claim.uid, devices)
         && m' == Holding(m, p)
         && disk' == WithState(disk[p.cdiFile := CdiFor(cfg, p)], m'.prepared)
         && ds == KubeletDevices(p)
  }

  ghost predicate PrepareCut(cfg: Config, claim: Claim, devices: seq<AllocatedDevice>, m: Memory, disk: Disk,
                             disk': Disk) {
    && Allocates(cfg, claim, devices)
    && (|| SameBut(disk, disk', CdiFile(claim.uid))
        || (&& claim.uid !in m.prepared && Free(m, claim.uid, devices)
            && SameBut(WithState(disk, Holding(m, NewClaim(cfg, claim, devices)).prepared), disk', CdiFile(claim.uid))))
  }

  ghost predicate PrepareStep(cfg: Config, claim: Option<Claim>, m: Memory, disk: Disk, m': Memory, disk': Disk,
                              r: PrepareOutcome) {
    match r
    case Prepared(ds) => claim.Some? && exists devices :: PrepareDone(cfg, claim.value, devices, m, disk, m', disk', ds)
    case Halted => claim.Some? && exists devices :: PrepareCut(cfg, claim.value, devices, m, disk, disk')
    case Refused(e) =>
      && m' == m
      && if e.WriteFailed? && claim.Some? && claim.value.uid !in m.prepared
         then SameBut(disk, disk', CdiFile(claim.value.uid))
         else disk' == disk
  }

  /** A refusal names what is wrong with the claim; only a failed write is not the claim's fault. */
  ghost predicate RefusalExplained(cfg: Config, claim: Option<Claim>, m: Memory, e: PrepareError) {
    match e
    case ClaimRequired => claim.None? || claim.value.uid == ""
    case NotAllocated => claim.Some? && claim.value.allocation.None?
    case WrongPool(_) =>
      claim.Some? && claim.value.allocation.Some? && !OnThisNode(cfg, Mine(cfg, claim.value.allocation.value))
    case NothingForDriver =>
      claim.Some? && claim.value.allocation.Some? && Mine(cfg, claim.value.allocation.value) == []
    case AllocationChanged =>
      && claim.Some? && claim.value.uid in m.prepared
      && exists devices :: Allocates(cfg, claim.value, devices) && devices != m.prepared[claim.value.uid].devices
    case DeviceTaken(key, owner) =>
      && claim.Some? && key in m.owners && m.owners[key] == owner && owner != claim.value.uid
      && exists devices :: Allocates(cfg, claim.value, devices) && key in KeysOf(devices)
    case WriteFailed => claim.Some?
  }

  ghost predicate UnprepareStep(cfg: Config, uid: string, m: Memory, disk: Disk, m': Memory, disk': Disk,
                                r: UnprepareOutcome) {
    if uid !in m.prepared then r.Unprepared? && m' == m && disk' == disk
    else
      var p := m.prepared[uid];
      match r
      case Unprepared => m' == Dropping(m, p) && disk' == WithState(disk - {p.cdiFile}, m'.prepared)
      case Kept =>
        && m' == m && SameBut(disk, disk', p.cdiFile)
        && (p.cdiFile in disk' ==>
              disk'[p.cdiFile] == CdiFor(cfg, p) || (p.cdiFile in disk && disk'[p.cdiFile] == disk[p.cdiFile]))
      case Interrupted =>
        SameBut(disk, disk', p.cdiFile) || SameBut(WithState(disk, Dropping(m, p).prepared), disk', p.cdiFile)
  }

  /** No device appears twice: neither in two claims nor within one. */
  ghost predicate NoSharing(claims: map<string, PreparedClaim>) {
    NoRepeat(claims) && Apart(claims)
  }

  /** No claim names a device twice. */
  ghost predicate NoRepeat(claims: map<string, PreparedClaim>) {
    forall u :: u in claims ==> Distinct(KeyList(claims[u].devices))
  }

  /** No two claims name the same device. */
  ghost predicate Apart(claims: map<string, PreparedClaim>) {
    forall u, v :: u in claims && v in claims && u != v ==> KeysOf(claims[u].devices) !! KeysOf(claims[v].devices)
  }

  ghost predicate ProperKeys(claims: map<string, PreparedClaim>) {
    forall u :: u in claims ==> u != "" && claims[u].uid == u
  }

  /** Outside the CDI files of the saved claims, nothing changes. */
  ghost predicate OnlyCdi(claims: map<string, PreparedClaim>, disk: Disk, disk': Disk) {
    forall path :: (forall u :: u in claims ==> claims[u].cdiFile != path) ==>
      (path in disk <==> path in disk') && (path in disk ==> disk[path] == disk'[path])
  }

  ghost predicate CdiWritten(cfg: Config, claims: map<string, PreparedClaim>, disk: Disk) {
    forall u :: u in claims ==> claims[u].cdiFile in disk && disk[claims[u].cdiFile] == CdiFor(cfg, claims[u])
  }

  ghost predicate LoadStep(cfg: Config, disk: Disk, m': Memory, disk': Disk, r: LoadOutcome) {
    var claims := SavedClaims(disk);
    && OnlyCdi(claims, disk, disk')
    && match r
       case Loaded =>
         && m'.prepared == claims && Inverse(m') && ProperKeys(claims) && NoSharing(claims)
         && (StateFile in disk ==> disk[StateFile].Saved? && disk[StateFile].version == STATE_VERSION)
         && (Filed(claims) ==> CdiWritten(cfg, claims, disk'))
       case Rejected(Undecodable) => StateFile in disk && !disk[StateFile].Saved?
       case Rejected(BadVersion) =>
         StateFile in disk && disk[StateFile].Saved? && disk[StateFile].version != STATE_VERSION
       case Rejected(BadKey(k)) => k in claims && (k == "" || claims[k].uid != k)
       case Rejected(SharedDevice(_)) => !NoSharing(claims)
       case _ => true
  }

  // ----- the driver -----

  class DraDriver {
    const cfg: Config
    const fs: FileSystem
    var prepared: map<string, PreparedClaim>
    var owners: map<string, string>

    ghost function Now(): Memory
      reads this
    {
      Memory(prepared, owners)
    }

    ghost function OnDisk(): Disk
      reads fs
    {
      Durable(fs.files)
    }

    /** A driver process before it has loaded its state. */
    constructor (cfg: Config, fs: FileSystem)
      ensures this.cfg == cfg && this.fs == fs && Now() == Memory(map[], map[])
    {
      this.cfg, this.fs := cfg, fs;
      prepared, owners := map[], map[];
    }

    method Persist() returns (fate: Fate)
      modifies fs
      ensures fate.Done? ==> OnDisk() == WithState(old(OnDisk()), prepared)
      ensures fate.Failed? ==> OnDisk() == old(OnDisk())
      ensures fate.Crashed? ==> OnDisk() == old(OnDisk()) || OnDisk() == WithState(old(OnDisk()), prepared)
      ensures fs.faults >= old(fs.faults) && (fate.Done? <==> fs.faults == old(fs.faults))
    {
      fate := fs.AtomicWrite(StateFile, Saved(STATE_VERSION, prepared));
    }

    method WriteCdi(p: PreparedClaim) returns (fate: Fate)
      modifies fs
      ensures fate.Done? ==> OnDisk() == old(OnDisk())[p.cdiFile := CdiFor(cfg, p)]
      ensures fate.Failed? ==> OnDisk() == old(OnDisk())
      ensures fate.Crashed? ==> OnDisk() == old(OnDisk()) || OnDisk() == old(OnDisk())[p.cdiFile := CdiFor(cfg, p)]
      ensures fs.faults >= old(fs.faults) && (fate.Done? <==> fs.faults == old(fs.faults))
    {
      fate := fs.AtomicWrite(p.cdiFile, CdiFor(cfg, p));
    }

    method RemoveCdi(p: PreparedClaim) returns (fate: Fate)
      modifies fs
      ensures fate.Done? ==> OnDisk() == old(OnDisk()) - {p.cdiFile}
      ensures fate.Failed? ==> OnDisk() == old(OnDisk())
      ensures fate.Crashed? ==> OnDisk() == old(OnDisk()) || OnDisk() == old(OnDisk()) - {p.cdiFile}
      ensures fs.faults >= old(fs.faults) && (fate.Done? <==> fs.faults == old(fs.faults))
    {
      fate := fs.Remove(p.cdiFile);
      DurableWithout(old(fs.files), p.cdiFile);
    }

    method PrepareClaim(claim: Option<Claim>) returns (r: PrepareOutcome)
      requires Inverse(Now()) && Filed(prepared)
      modifies this, fs
      ensures PrepareStep(cfg, claim, old(Now()), old(OnDisk()), Now(), OnDisk(), r)
      ensures r.Refused? ==> RefusalExplained(cfg, claim, old(Now()), r.error)
      ensures fs.faults == old(fs.faults) ==> !r.Halted? && r != Refused(WriteFailed)
    {
      var allocation := ReadAllocation(cfg, claim);
      if allocation.Err? {
        return Refused(allocation.error);
      }
      var devices := allocation.value;
      var uid := claim.value.uid;
      if uid in prepared {
        r := PrepareAgain(claim.value, devices);
        return;
      }
      var taken := FindTaken(devices, uid);
      if taken.Some? {
        return Refused(DeviceTaken(taken.value, owners[taken.value]));
      }
      r := PrepareNew(claim.value, devices);
    }

    /** The branch of prepareClaim for a claim that is already prepared. */
    method PrepareAgain(claim: Claim, devices: seq<AllocatedDevice>) returns (r: PrepareOutcome)
      requires Filed(prepared) && claim.uid in prepared && Allocates(cfg, claim, devices)
      modifies fs
      ensures PrepareStep(cfg, Some(claim), old(Now()), old(OnDisk()), Now(), OnDisk(), r)
      ensures r.Refused? ==> RefusalExplained(cfg, Some(claim), Now(), r.error)
      ensures fs.faults == old(fs.faults) ==> !r.Halted? && r != Refused(WriteFailed)
    {
      var existing := prepared[claim.uid];
      if existing.devices != devices {
        return Refused(AllocationChanged);
      }
      var fate := WriteCdi(existing);
      if fate.Crashed? {
        CutAgain(cfg, claim, devices, Now(), old(OnDisk()), OnDisk());
        return Halted;
      }
      if fate.Failed? {
        return Refused(WriteFailed);
      }
      assert PrepareDone(cfg, claim, devices, Now(), old(OnDisk()), Now(), OnDisk(), KubeletDevices(existing));
      return Prepared(KubeletDevices(existing));
    }

    method FindTaken(devices: seq<AllocatedDevice>, uid: string) returns (taken: Option<string>)
      ensures taken.None? <==> Free(Now(), uid, devices)
      ensures taken.Some? ==> taken.value in KeysOf(devices) && taken.value in owners && owners[taken.value] != uid
    {
      for i := 0 to |devices|
        invariant Free(Now(), uid, devices[..i])
      {
        assert devices[..i + 1] == devices[..i] + [devices[i]];
        var key := DeviceKey(devices[i]);
        if key in owners && owners[key] != "" && owners[key] != uid {
          assert devices[i] in devices;
          return Some(key);
        }
      }
      assert devices[..|devices|] == devices;
      return None;
    }

    /** The branch of prepareClaim that writes the CDI file, takes ownership and persists it, or rolls back. */
    method PrepareNew(claim: Claim, devices: seq<AllocatedDevice>) returns (r: PrepareOutcome)
      requires Inverse(Now()) && Filed(prepared) && claim.uid !in prepared
      requires Allocates(cfg, claim, devices) && Free(Now(), claim.uid, devices)
      modifies this, fs
      ensures PrepareStep(cfg, Some(claim), old(Now()), old(OnDisk()), Now(), OnDisk(), r)
      ensures r.Refused? ==> r.error.WriteFailed?
      ensures fs.faults == old(fs.faults) ==> r.Prepared?
    {
      var p := NewClaim(cfg, claim, devices);
      ghost var m, disk := Now(), OnDisk();
      FreeKeys(m, p);
      var fate := WriteCdi(p);
      if fate.Crashed? {
        CutBefore(cfg, claim, devices, m, disk, OnDisk());
        return Halted;
      }
      if fate.Failed? {
        return Refused(WriteFailed);
      }
      prepared := prepared[p.uid := p];
      owners := owners + Owned(KeysOf(devices), p.uid);
      assert Now() == Holding(m, p);
      fate := Persist();
      if fate.Crashed? {
        CutLate(cfg, claim, devices, m, disk, OnDisk());
        return Halted;
      }
      if fate.Failed? {
        prepared := prepared - {p.uid};
        owners := owners - KeysOf(devices);
        DropUndoesHold(m, p);
        var cleanup := RemoveCdi(p);
        WithoutOverwritten(disk, p.cdiFile, CdiFor(cfg, p));
        if cleanup.Crashed? {
          CutBefore(cfg, claim, devices, m, disk, OnDisk());
          return Halted;
        }
        return Refused(WriteFailed);
      }
      assert PrepareDone(cfg, claim, devices, m, disk, Now(), OnDisk(), KubeletDevices(p));
      return Prepared(KubeletDevices(p));
    }

    method UnprepareClaim(uid: string) returns (r: UnprepareOutcome)
      requires Inverse(Now()) && Filed(prepared)
      modifies this, fs
      ensures UnprepareStep(cfg, uid, old(Now()), old(OnDisk()), Now(), OnDisk(), r)
      ensures fs.faults == old(fs.faults) ==> r.Unprepared?
    {
      if uid !in prepared {
        return Unprepared;
      }
      var p := prepared[uid];
      ghost var m, disk := Now(), OnDisk();
      WithoutOverwritten(disk, p.cdiFile, CdiFor(cfg, p));
      WithoutAndState(disk, p.cdiFile, Dropping(m, p).prepared);
      var fate := RemoveCdi(p);
      if fate.Crashed? {
        return Interrupted;
      }
      if fate.Failed? {
        return Kept;
      }
      prepared := prepared - {uid};
      owners := owners - KeysOf(p.devices);
      assert Now() == Dropping(m, p);
      fate := Persist();
      if fate.Crashed? {
        return Interrupted;
      }
      if fate.Failed? {
        prepared := prepared[uid := p];
        owners := owners + Owned(KeysOf(p.devices), uid);
        HoldUndoesDrop(m, p);
        fate := WriteCdi(p);
        if fate.Crashed? {
          return Interrupted;
        }
        return Kept;
      }
      return Unprepared;
    }
  }

  // ----- loading -----

  /** The saved claims handled so far are in memory, and disjoint. */
  ghost predicate Partly(claims: map<string, PreparedClaim>, rest: set<string>, m: Memory) {
    && m.prepared == claims - rest
    && ProperKeys(m.prepared) && NoSharing(m.prepared) && Inverse(m)
  }

  ghost predicate CdiPartly(cfg: Config, claims: map<string, PreparedClaim>, rest: set<string>, disk: Disk,
                            disk': Disk) {
    && OnlyCdi(claims, disk, disk')
    && (Filed(claims) ==> CdiWritten(cfg, claims - rest, disk'))
  }

  /** No device repeats or already has an owner. */
  ghost predicate Takable(owners: map<string, string>, devices: seq<AllocatedDevice>) {
    Distinct(KeyList(devices)) && KeysOf(devices) !! owners.Keys
  }

  /** The inner loop of load: takes ownership of one claim's devices, refusing any that has an owner. */
  method TakeOwnership(owners: map<string, string>, devices: seq<AllocatedDevice>, uid: string)
    returns (r: Result<map<string, string>, string>)
    requires uid != "" && forall k :: k in owners ==> owners[k] != ""
    ensures r.Ok? <==> Takable(owners, devices)
    ensures r.Ok? ==> r.value == owners + Owned(KeysOf(devices), uid)
  {
    var updated := owners;
    ghost var keys: set<string> := {};
    for i := 0 to |devices|
      invariant keys == KeysOf(devices[..i])
      invariant Takable(owners, devices[..i])
      invariant updated == owners + Owned(keys, uid)
    {
      var key := DeviceKey(devices[i]);
      TakeStep(owners, devices, i);
      OwnedStep(owners, keys, key, uid);
      if key in updated && updated[key] != "" {
        return Err(key);
      }
      keys := keys + {key};
      updated := updated[key := uid];
    }
    assert devices[..|devices|] == devices;
    return Ok(updated);
  }

  lemma OwnedStep(owners: map<string, string>, keys: set<string>, key: string, uid: string)
    requires uid != "" && forall k :: k in owners ==> owners[k] != ""
    ensures var updated := owners + Owned(keys, uid);
            && (key in updated && updated[key] != "" <==> key in owners || key in keys)
            && updated[key := uid] == owners + Owned(keys + {key}, uid)
  {
  }

  lemma TakeStep(owners: map<string, string>, devices: seq<AllocatedDevice>, i: nat)
    requires i < |devices| && Takable(owners, devices[..i])
    ensures var key := DeviceKey(devices[i]);
            if key in owners || key in KeysOf(devices[..i]) then !Takable(owners, devices)
            else Takable(owners, devices[..i + 1])
    ensures KeysOf(devices[..i + 1]) == KeysOf(devices[..i]) + {DeviceKey(devices[i])}
  {
    KeysStep(devices, i);
  }

  lemma KeysStep(devices: seq<AllocatedDevice>, i: nat)
    requires i < |devices|
    ensures KeysOf(devices[..i + 1]) == KeysOf(devices[..i]) + {DeviceKey(devices[i])}
    ensures Distinct(KeyList(devices[..i])) ==>
              (Distinct(KeyList(devices[..i + 1])) <==> DeviceKey(devices[i]) !in KeysOf(devices[..i]))
    ensures Distinct(KeyList(devices)) ==> DeviceKey(devices[i]) !in KeysOf(devices[..i])
    ensures DeviceKey(devices[i]) in KeysOf(devices)
  {
    assert devices[..i + 1] == devices[..i] + [devices[i]];
    assert devices[i] in devices;
    var keys := KeyList(devices[..i + 1]);
    forall j | 0 <= j < i
      ensures keys[j] == KeyList(devices)[j] == KeyList(devices[..i])[j] && keys[j] in KeysOf(devices[..i])
    {
      assert devices[..i][j] in devices[..i];
    }
    if DeviceKey(devices[i]) in KeysOf(devices[..i]) {
      var d :| d in devices[..i] && DeviceKey(d) == DeviceKey(devices[i]);
      var j :| 0 <= j < i && devices[..i][j] == d;
      assert keys[j] == keys[i] && KeyList(devices)[j] == KeyList(devices)[i];
    }
  }

  /** The first half of a round of load's loop: checks the saved claim under `key` and takes its devices. */
  method AdoptClaim(d: DraDriver, claims: map<string, PreparedClaim>, key: string, ghost rest: set<string>)
    returns (fault: Option<LoadError>)
    requires key in rest && rest <= claims.Keys && Partly(claims, rest, d.Now())
    modifies d
    ensures fault.None? ==> Partly(claims, rest - {key}, d.Now())
    ensures fault.Some? ==>
              || (fault.value == BadKey(key) && (key == "" || claims[key].uid != key))
              || (fault.value.SharedDevice? && !NoSharing(claims))
  {
    var p := claims[key];
    if p.uid != key || p.uid == "" {
      return Some(BadKey(key));
    }
    OwnersProper(d.Now());
    var taken := TakeOwnership(d.owners, p.devices, p.uid);
    if taken.Err? {
      OverlapFound(claims, rest, d.Now(), key);
      return Some(SharedDevice(taken.error));
    }
    ghost var held := Holding(d.Now(), p);
    LoadOne(claims, rest, d.Now(), key);
    d.owners := taken.value;
    d.prepared := d.prepared[p.uid := p];
    assert d.Now() == held;
    return None;
  }

  /** One round of load's loop: adopts the saved claim under `key` and writes its CDI file. */
  method LoadClaim(d: DraDriver, claims: map<string, PreparedClaim>, key: string, ghost rest: set<string>,
                   ghost disk: Disk)
    returns (r: LoadOutcome)
    requires key in rest && rest <= claims.Keys
    requires Partly(claims, rest, d.Now()) && CdiPartly(d.cfg, claims, rest, disk, d.OnDisk())
    modifies d, d.fs
    ensures OnlyCdi(claims, disk, d.OnDisk())
    ensures r.Loaded? ==> Partly(claims, rest - {key}, d.Now())
    ensures r.Loaded? ==> CdiPartly(d.cfg, claims, rest - {key}, disk, d.OnDisk())
    ensures r.Rejected? ==>
              || (r.reason == BadKey(key) && (key == "" || claims[key].uid != key))
              || (r.reason.SharedDevice? && !NoSharing(claims))
              || r.reason == CdiFailed
    ensures d.fs.faults >= old(d.fs.faults)
    ensures d.fs.faults == old(d.fs.faults) ==> !r.Cut? && r != Rejected(CdiFailed)
  {
    var fault := AdoptClaim(d, claims, key, rest);
    if fault.Some? {
      return Rejected(fault.value);
    }
    ghost var before := d.OnDisk();
    var fate := d.WriteCdi(claims[key]);
    if fate.Crashed? {
      CdiTouched(claims, disk, before, d.OnDisk(), key);
      return Cut;
    }
    if fate.Failed? {
      return Rejected(CdiFailed);
    }
    CdiOne(d.cfg, claims, rest, disk, before, key);
    return Loaded;
  }

  /** NewDriver's load: the state file becomes memory, and every claim's CDI file is written again. */
  method Load(d: DraDriver) returns (r: LoadOutcome)
    requires d.Now() == Memory(map[], map[])
    modifies d, d.fs
    ensures LoadStep(d.cfg, old(d.OnDisk()), d.Now(), d.OnDisk(), r)
    ensures d.fs.faults == old(d.fs.faults) ==> !r.Cut? && r != Rejected(Unreadable) && r != Rejected(CdiFailed)
  {
    ghost var disk := d.OnDisk();
    var read := d.fs.ReadFile(StateFile);
    if read.None? {
      return Rejected(Unreadable);
    }
    if read.value.None? {
      return Loaded;
    }
    var content := read.value.value;
    if !content.Saved? {
      return Rejected(Undecodable);
    }
    if content.version != STATE_VERSION {
      return Rejected(BadVersion);
    }
    var claims := content.claims;
    assert claims == SavedClaims(disk);
    var rest := claims.Keys;  // map iteration, in an order Go does not fix
    assert claims - rest == map[];
    while rest != {}
      invariant rest <= claims.Keys
      invariant Partly(claims, rest, d.Now())
      invariant CdiPartly(d.cfg, claims, rest, disk, d.OnDisk())
      invariant d.fs.faults >= old(d.fs.faults)
      decreases rest
    {
      var key :| key in rest;
      r := LoadClaim(d, claims, key, rest, disk);
      if !r.Loaded? {
        return;
      }
      rest := rest - {key};
    }
    LoadEnds(d.cfg, disk, d.Now(), d.OnDisk());
    return Loaded;
  }

  lemma LoadEnds(cfg: Config, disk: Disk, m: Memory, disk': Disk)
    requires StateFile in disk && disk[StateFile].Saved? && disk[StateFile].version == STATE_VERSION
    requires Partly(SavedClaims(disk), {}, m) && CdiPartly(cfg, SavedClaims(disk), {}, disk, disk')
    ensures LoadStep(cfg, disk, m, disk', Loaded)
  {
    assert SavedClaims(disk) - {} == SavedClaims(disk);
  }

  lemma OwnersProper(m: Memory)
    requires Inverse(m) && ProperKeys(m.prepared)
    ensures forall k :: k in m.owners ==> m.owners[k] != ""
  {
  }

  lemma OverlapFound(claims: map<string, PreparedClaim>, rest: set<string>, m: Memory, key: string)
    requires key in rest && rest <= claims.Keys && Partly(claims, rest, m)
    requires !Takable(m.owners, claims[key].devices)
    ensures !NoSharing(claims)
  {
    if Distinct(KeyList(claims[key].devices)) {
      var k :| k in KeysOf(claims[key].devices) && k in m.owners;
      var u := m.owners[k];
      assert u in claims && u != key && claims[u] == m.prepared[u];
      assert k in KeysOf(claims[u].devices) * KeysOf(claims[key].devices);
    }
  }

  lemma LoadOne(claims: map<string, PreparedClaim>, rest: set<string>, m: Memory, key: string)
    requires key in rest && rest <= claims.Keys && Partly(claims, rest, m)
    requires key != "" && claims[key].uid == key
    requires Takable(m.owners, claims[key].devices)
    ensures Partly(claims, rest - {key}, Holding(m, claims[key]))
  {
    var p := claims[key];
    var n := Holding(m, p);
    assert n.prepared == claims - (rest - {key});
    HoldInverse(m, p);
    forall u, v | u in n.prepared && v in n.prepared && u != v
      ensures KeysOf(n.prepared[u].devices) !! KeysOf(n.prepared[v].devices)
    {
      if u == key {
        OwnedKeys(m, v);
      } else if v == key {
        OwnedKeys(m, u);
      }
    }
  }

  lemma OwnedKeys(m: Memory, u: string)
    requires Inverse(m) && u in m.prepared
    ensures KeysOf(m.prepared[u].devices) <= m.owners.Keys
  {
  }

  /** Taking devices that nobody owns keeps the maps inverse. */
  lemma HoldInverse(m: Memory, p: PreparedClaim)
    requires Inverse(m) && p.uid !in m.prepared && KeysOf(p.devices) !! m.owners.Keys
    ensures Inverse(Holding(m, p))
  {
    HoldOwnsAll(m, p);
    HoldOwnsOnly(m, p);
  }

  lemma HoldOwnsAll(m: Memory, p: PreparedClaim)
    requires OwnsAll(m) && KeysOf(p.devices) !! m.owners.Keys
    ensures OwnsAll(Holding(m, p))
  {
    var n := Holding(m, p);
    forall u, k | u in n.prepared && k in KeysOf(n.prepared[u].devices)
      ensures k in n.owners && n.owners[k] == u
    {
      if u != p.uid {
        assert k in m.owners && m.owners[k] == u;
      }
    }
  }

  lemma HoldOwnsOnly(m: Memory, p: PreparedClaim)
    requires OwnsOnly(m) && p.uid !in m.prepared
    ensures OwnsOnly(Holding(m, p))
  {
    var n := Holding(m, p);
    forall k | k in n.owners
      ensures n.owners[k] in n.prepared && k in KeysOf(n.prepared[n.owners[k]].devices)
    {
      if k !in KeysOf(p.devices) {
        assert k in m.owners && n.owners[k] == m.owners[k];
      }
    }
  }

  lemma CdiTouched(claims: map<string, PreparedClaim>, disk: Disk, before: Disk, after: Disk, key: string)
    requires OnlyCdi(claims, disk, before) && key in claims
    requires after - {claims[key].cdiFile} == before - {claims[key].cdiFile}
    ensures OnlyCdi(claims, disk, after)
  {
    var touched := claims[key].cdiFile;
    forall path | path != touched
      ensures path in before <==> path in after
      ensures path in before ==> before[path] == after[path]
    {
      assert path in before - {touched} <==> path in after - {touched};
      if path in before { assert (before - {touched})[path] == (after - {touched})[path]; }
    }
  }

  lemma CdiOne(cfg: Config, claims: map<string, PreparedClaim>, rest: set<string>, disk: Disk, before: Disk,
               key: string)
    requires key in rest && rest <= claims.Keys && CdiPartly(cfg, claims, rest, disk, before)
    ensures CdiPartly(cfg, claims, rest - {key}, disk, before[claims[key].cdiFile := CdiFor(cfg, claims[key])])
  {
    var p := claims[key];
    var after := before[p.cdiFile := CdiFor(cfg, p)];
    WithoutOverwritten(before, p.cdiFile, CdiFor(cfg, p));
    CdiTouched(claims, disk, before, after, key);
    if Filed(claims) {
      forall u | u in claims - (rest - {key})
        ensures claims[u].cdiFile in after && after[claims[u].cdiFile] == CdiFor(cfg, claims[u])
      {
        if u != key {
          assert u in claims - rest;
        }
      }
    }
  }

  // ----- facts about disks -----

  lemma DurableWithout(files: Disk, path: FilePath)
    ensures Durable(files - {path}) == Durable(files) - {path}
  {
  }

  lemma WithoutOverwritten(disk: Disk, path: FilePath, content: Content)
    ensures SameBut(disk, disk[path := content], path) && SameBut(disk, disk - {path}, path)
    ensures SameBut(disk, disk[path := content] - {path}, path)
    ensures (disk - {path})[path := content] - {path} == disk - {path}
  {
  }

  lemma WithoutAndState(disk: Disk, path: FilePath, claims: map<string, PreparedClaim>)
    requires path.CdiFile?
    ensures SameBut(WithState(disk, claims), WithState(disk - {path}, claims), path)
  {
  }

  lemma FreeKeys(m: Memory, p: PreparedClaim)
    requires Inverse(m) && Filed(m.prepared) && p.uid !in m.prepared && Free(m, p.uid, p.devices)
    ensures forall k :: k in KeysOf(p.devices) ==> k !in m.owners
  {
    forall k | k in KeysOf(p.devices)
      ensures k !in m.owners
    {
      var d :| d in p.devices && DeviceKey(d) == k;
    }
  }

  lemma CutAgain(cfg: Config, claim: Claim, devices: seq<AllocatedDevice>, m: Memory, disk: Disk, disk': Disk)
    requires Allocates(cfg, claim, devices) && Filed(m.prepared) && claim.uid in m.prepared
    requires disk' == disk || disk' == disk[CdiFile(claim.uid) := CdiFor(cfg, m.prepared[claim.uid])]
    ensures PrepareCut(cfg, claim, devices, m, disk, disk')
  {
    WithoutOverwritten(disk, CdiFile(claim.uid), CdiFor(cfg, m.prepared[claim.uid]));
  }

  lemma CutBefore(cfg: Config, claim: Claim, devices: seq<AllocatedDevice>, m: Memory, disk: Disk, disk': Disk)
    requires Allocates(cfg, claim, devices)
    requires var c := CdiFor(cfg, NewClaim(cfg, claim, devices));
             || disk' == disk
             || disk' == disk[CdiFile(claim.uid) := c]
             || disk' == disk[CdiFile(claim.uid) := c] - {CdiFile(claim.uid)}
    ensures PrepareCut(cfg, claim, devices, m, disk, disk')
  {
    WithoutOverwritten(disk, CdiFile(claim.uid), CdiFor(cfg, NewClaim(cfg, claim, devices)));
  }

  lemma CutLate(cfg: Config, claim: Claim, devices: seq<AllocatedDevice>, m: Memory, disk: Disk, disk': Disk)
    requires Allocates(cfg, claim, devices) && claim.uid !in m.prepared && Free(m, claim.uid, devices)
    requires var p := NewClaim(cfg, claim, devices);
             var written := disk[p.cdiFile := CdiFor(cfg, p)];
             disk' == written || disk' == WithState(written, Holding(m, p).prepared)
    ensures PrepareCut(cfg, claim, devices, m, disk, disk')
  {
    var p := NewClaim(cfg, claim, devices);
    var path, cdi, claims := CdiFile(claim.uid), CdiFor(cfg, p), Holding(m, p).prepared;
    if disk' == disk[path := cdi] {
      assert SameBut(disk, disk', path) by {
        WithoutOverwritten(disk, path, cdi);
      }
    } else {
      assert SameBut(WithState(disk, claims), disk', path) by {
        StateAndFile(disk, path, cdi, claims);
        WithoutOverwritten(WithState(disk, claims), path, cdi);
      }
    }
  }

  /** Writing the state file and writing another file commute. */
  lemma StateAndFile(disk: Disk, path: FilePath, content: Content, claims: map<string, PreparedClaim>)
    requires path != StateFile
    ensures WithState(disk[path := content], claims) == WithState(disk, claims)[path := content]
  {
  }

}
