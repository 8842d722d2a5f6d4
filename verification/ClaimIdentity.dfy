/**
 Device identity from the claim's allocation, through the kubelet response and the CDI file,
 to the container's environment.
 */
module ClaimIdentity {
  import opened Orders
  import opened Driver
  import opened DriverRuns

  // ----- what the container sees -----

  /** os.Getenv over a list of NAME=value entries. */
  function Getenv(env: seq<string>, name: string): string {
    if env == [] then ""
    else if name + "=" <= env[0] then env[0][|name| + 1..]
    else Getenv(env[1..], name)
  }

  /** strings.Split for a one-character separator. */
  function Split(s: string, separator: char): (parts: seq<string>)
    ensures parts != []
  {
    if s == "" then [""]
    else if s[0] == separator then [""] + Split(s[1..], separator)
    else
      var rest := Split(s[1..], separator);
      [[s[0]] + rest[0]] + rest[1..]
  }

  lemma {:induction false} SplitPlain(s: string, separator: char)
    requires separator !in s
    ensures Split(s, separator) == [s]
  {
    if s != "" {
      assert s == [s[0]] + s[1..];
      SplitPlain(s[1..], separator);
    }
  }

  lemma {:induction false} SplitAfter(s: string, t: string, separator: char)
    requires separator !in s
    ensures Split(s + [separator] + t, separator) == [s] + Split(t, separator)
  {
    if s == "" {
      assert s + [separator] + t == [separator] + t;
      assert ([separator] + t)[1..] == t;
    } else {
      assert s == [s[0]] + s[1..];
      SplitAfter(s[1..], t, separator);
      var whole := s + [separator] + t;
      assert whole[0] == s[0] && whole[1..] == s[1..] + [separator] + t;
    }
  }

  function Commas(s: string): nat {
    if s == "" then 0 else (if s[0] == ',' then 1 else 0) + Commas(s[1..])
  }

  lemma {:induction false} SplitCount(s: string)
    ensures |Split(s, ',')| == Commas(s) + 1
  {
    if s != "" { SplitCount(s[1..]); }
  }

  lemma {:induction false} CommasAppend(s: string, t: string)
    ensures Commas(s + t) == Commas(s) + Commas(t)
  {
    if s == "" {
      assert s + t == t;
    } else {
      CommasAppend(s[1..], t);
      assert (s + t)[1..] == s[1..] + t;
    }
  }

  lemma {:induction false} CommaCounted(s: string)
    ensures Commas(s) == 0 <==> ',' !in s
  {
    if s != "" {
      CommaCounted(s[1..]);
      assert s == [s[0]] + s[1..];
    }
  }

  ghost predicate CommaFree(parts: seq<string>) {
    forall i :: 0 <= i < |parts| ==> ',' !in parts[i]
  }

  lemma {:induction false} JoinedCommas(parts: seq<string>)
    requires parts != []
    ensures Commas(Join(parts, ",")) >= |parts| - 1
    ensures !CommaFree(parts) ==> Commas(Join(parts, ",")) > |parts| - 1
  {
    CommaCounted(parts[0]);
    if |parts| > 1 {
      JoinedCommas(parts[1..]);
      CommasAppend(parts[0], ",");
      CommasAppend(parts[0] + ",", Join(parts[1..], ","));
      assert forall i :: 0 < i < |parts| ==> parts[i] == parts[1..][i - 1];
    }
  }

  lemma {:induction false} SplitJoined(parts: seq<string>)
    requires parts != [] && CommaFree(parts)
    ensures Split(Join(parts, ","), ',') == parts
  {
    SplitPlain(parts[0], ',');
    if |parts| == 1 {
      assert parts == [parts[0]];
    } else {
      assert forall i :: 0 <= i < |parts[1..]| ==> parts[1..][i] == parts[i + 1];
      SplitJoined(parts[1..]);
      SplitAfter(parts[0], Join(parts[1..], ","), ',');
      assert parts == [parts[0]] + parts[1..];
    }
  }

  /** Splitting the joined list gives the list back exactly when no entry contains a comma. */
  lemma SplitInvertsJoin(parts: seq<string>)
    requires parts != []
    ensures Split(Join(parts, ","), ',') == parts <==> CommaFree(parts)
  {
    if CommaFree(parts) {
      SplitJoined(parts);
    } else {
      SplitCount(Join(parts, ","));
      JoinedCommas(parts);
    }
  }

  /** The device IDs that a container finds in its environment. */
  function ContainerIds(cdi: Content): seq<string>
    requires cdi.CdiSpec?
  {
    Split(Getenv(cdi.env, "BUPT_DRA_DEVICE_IDS"), ',')
  }

  lemma EnvironmentOf(cfg: Config, p: PreparedClaim)
    ensures Getenv(CdiFor(cfg, p).env, "BUPT_DRA_CLAIM_UID") == p.uid
    ensures Getenv(CdiFor(cfg, p).env, "BUPT_DRA_DEVICE_IDS") == Join(KeyList(p.devices), ",")
  {
    var env := CdiFor(cfg, p).env;
    var uidName, idsName := "BUPT_DRA_CLAIM_UID", "BUPT_DRA_DEVICE_IDS";
    assert env[0][9] == 'C' && (idsName + "=")[9] == 'D';
    assert env[0] == (uidName + "=") + p.uid;
    assert env[0][|uidName| + 1..] == p.uid;
    assert env[1..][0] == (idsName + "=") + Join(KeyList(p.devices), ",");
    assert env[1..][0][|idsName| + 1..] == Join(KeyList(p.devices), ",");
  }

  // ----- identity along the way -----

  function KubeletIds(ds: seq<KubeletDevice>): (ids: seq<string>)
    ensures |ids| == |ds|
    ensures forall i :: 0 <= i < |ds| ==> ids[i] == ds[i].pool + "/" + ds[i].device
  {
    seq(|ds|, i requires 0 <= i < |ds| => ds[i].pool + "/" + ds[i].device)
  }

  lemma SortedKeys(cfg: Config, devices: seq<AllocatedDevice>)
    requires SortedBy(devices, ByPoolAndDevice) && OnThisNode(cfg, devices)
    ensures SortedBy(KeyList(devices), AtMost)
  {
    forall i, j | 0 <= i < j < |devices|
      ensures AtMost(KeyList(devices)[i], KeyList(devices)[j])
    {
      assert devices[i] in devices && devices[j] in devices;
      assert ByPoolAndDevice(devices[i], devices[j]);
      var prefix := cfg.nodeName + "/";
      LessAfterPrefix(prefix, devices[j].device, devices[i].device);
    }
  }

  lemma {:induction false} KeysPermutation(x: seq<AllocatedDevice>, y: seq<AllocatedDevice>)
    requires multiset(x) == multiset(y)
    ensures multiset(KeyList(x)) == multiset(KeyList(y))
    decreases |x|
  {
    SameLength(x, y);
    if x != [] {
      assert x[0] in multiset(y);
      var j :| 0 <= j < |y| && y[j] == x[0];
      WithoutOne(x, 0);
      WithoutOne(y, j);
      KeysPermutation(Without(x, 0), Without(y, j));
      KeysWithout(x, 0);
      KeysWithout(y, j);
    }
  }

  lemma KeysWithout(y: seq<AllocatedDevice>, j: nat)
    requires j < |y|
    ensures multiset(KeyList(y)) == multiset(KeyList(Without(y, j))) + multiset{DeviceKey(y[j])}
  {
    assert KeyList(y) == KeyList(y[..j]) + [DeviceKey(y[j])] + KeyList(y[j + 1..]);
    assert KeyList(Without(y, j)) == KeyList(y[..j]) + KeyList(y[j + 1..]);
  }

  /**
   For every successful prepare, the pool/device IDs of this driver's allocation results, of
   the kubelet response and, when no ID contains a comma, of the container's environment are
   one and the same list in string order; with a comma in some ID the container sees others.
   */
  lemma IdentityPreserved(cfg: Config, claim: Claim, s: System, devices: seq<AllocatedDevice>,
                          m': Memory, disk': Disk, ds: seq<KubeletDevice>)
    requires Good(cfg, s) && s.memory.Some?
    requires PrepareDone(cfg, claim, devices, s.memory.value, s.disk, m', disk', ds)
    ensures multiset(KeyList(devices)) == multiset(KeyList(Mine(cfg, claim.allocation.value)))
    ensures SortedBy(KeyList(devices), AtMost)
    ensures KubeletIds(ds) == KeyList(devices)
    ensures CdiFile(claim.uid) in disk' && disk'[CdiFile(claim.uid)].CdiSpec?
    ensures ContainerIds(disk'[CdiFile(claim.uid)]) == KeyList(devices) <==> CommaFree(KeyList(devices))
  {
    assert multiset(KeyList(devices)) == multiset(KeyList(Mine(cfg, claim.allocation.value))) by {
      KeysPermutation(devices, Mine(cfg, claim.allocation.value));
    }
    assert SortedBy(KeyList(devices), AtMost) by {
      SortedKeys(cfg, devices);
    }
    var p := PreparedCdi(cfg, claim, s, devices, m', disk', ds);
    assert ContainerIds(CdiFor(cfg, p)) == KeyList(devices) <==> CommaFree(KeyList(devices)) by {
      EnvironmentOf(cfg, p);
      SplitInvertsJoin(KeyList(devices));
    }
  }

  /** The prepared claim that the response and the CDI file speak of. */
  lemma PreparedCdi(cfg: Config, claim: Claim, s: System, devices: seq<AllocatedDevice>,
                    m': Memory, disk': Disk, ds: seq<KubeletDevice>) returns (p: PreparedClaim)
    requires Good(cfg, s) && s.memory.Some?
    requires PrepareDone(cfg, claim, devices, s.memory.value, s.disk, m', disk', ds)
    ensures p.devices == devices && devices != [] && ds == KubeletDevices(p)
    ensures CdiFile(claim.uid) in disk' && disk'[CdiFile(claim.uid)] == CdiFor(cfg, p)
    ensures p.uid == claim.uid
    ensures || p == NewClaim(cfg, claim, devices)
            || (claim.uid in SavedClaims(s.disk) && p == SavedClaims(s.disk)[claim.uid])
  {
    p := if claim.uid in s.memory.value.prepared then s.memory.value.prepared[claim.uid]
         else NewClaim(cfg, claim, devices);
    assert p.cdiFile == CdiFile(claim.uid);
  }

  /**
   In every run, also after restarts, the response to a successful prepare names one CDI
   device, on its first entry: exactly the one that the claim's CDI file defines.
   */
  lemma ResponseNamesCdiDevice(cfg: Config, states: seq<System>, events: seq<Event>, i: nat, claim: Claim,
                               devices: seq<AllocatedDevice>, m': Memory, disk': Disk, ds: seq<KubeletDevice>)
    requires IsRun(cfg, states, events) && i < |states| && states[0] == System(None, map[])
    requires states[i].memory.Some?
    requires PrepareDone(cfg, claim, devices, states[i].memory.value, states[i].disk, m', disk', ds)
    ensures CdiFile(claim.uid) in disk' && disk'[CdiFile(claim.uid)].CdiSpec?
    ensures ds != [] && ds[0].cdiIds == [CdiName(disk'[CdiFile(claim.uid)])]
    ensures forall j :: 0 < j < |ds| ==> ds[j].cdiIds == []
    ensures Getenv(disk'[CdiFile(claim.uid)].env, "BUPT_DRA_CLAIM_UID") == claim.uid
  {
    RunKeepsNamed(cfg, states, events, i);
    NamedResponse(cfg, claim, states[i], devices, m', disk', ds);
  }

  lemma NamedResponse(cfg: Config, claim: Claim, s: System, devices: seq<AllocatedDevice>,
                      m': Memory, disk': Disk, ds: seq<KubeletDevice>)
    requires Good(cfg, s) && s.memory.Some? && Named(cfg, SavedClaims(s.disk))
    requires PrepareDone(cfg, claim, devices, s.memory.value, s.disk, m', disk', ds)
    ensures CdiFile(claim.uid) in disk' && disk'[CdiFile(claim.uid)].CdiSpec?
    ensures ds != [] && ds[0].cdiIds == [CdiName(disk'[CdiFile(claim.uid)])]
    ensures forall j :: 0 < j < |ds| ==> ds[j].cdiIds == []
    ensures Getenv(disk'[CdiFile(claim.uid)].env, "BUPT_DRA_CLAIM_UID") == claim.uid
  {
    var p := PreparedCdi(cfg, claim, s, devices, m', disk', ds);
    NewClaimNamed(cfg, claim, devices);
    assert p.cdiId == CdiName(CdiFor(cfg, p));
    EnvironmentOf(cfg, p);
  }

  /** The entry of the response reports this allocation result. */
  ghost predicate Answers(cfg: Config, r: AllocationResult, k: KubeletDevice) {
    && r.driver == cfg.driverName && r.pool == cfg.nodeName
    && k.pool == r.pool && k.device == r.device && k.requests == [r.request]
    && (k.shareId.Some? ==> k.shareId == r.shareId)
    && (k.shareId.None? ==> r.shareId.None? || r.shareId.value == "")
  }

  lemma ResponseFields(cfg: Config, claim: Claim, m: Memory, disk: Disk, devices: seq<AllocatedDevice>,
                       m': Memory, disk': Disk, ds: seq<KubeletDevice>)
    requires PrepareDone(cfg, claim, devices, m, disk, m', disk', ds)
    ensures |ds| == |devices|
    ensures forall i :: 0 <= i < |ds| ==>
              && ds[i].pool == devices[i].pool && ds[i].device == devices[i].device
              && ds[i].requests == [devices[i].request]
              && ds[i].shareId == if devices[i].shareId == "" then None else Some(devices[i].shareId)
  {
  }

  /** Every entry of the response reports a result of the claim for this driver and node. */
  lemma ResponseMatchesAllocation(cfg: Config, claim: Claim, m: Memory, disk: Disk, devices: seq<AllocatedDevice>,
                                  m': Memory, disk': Disk, ds: seq<KubeletDevice>, i: nat)
    requires PrepareDone(cfg, claim, devices, m, disk, m', disk', ds) && i < |ds|
    ensures exists r :: r in claim.allocation.value && Answers(cfg, r, ds[i])
  {
    ResponseFields(cfg, claim, m, disk, devices, m', disk', ds);
    var d := devices[i];
    assert d in devices && d.pool == cfg.nodeName;
    assert d in Mine(cfg, claim.allocation.value) by {
      assert d in multiset(devices);
    }
    var r := ResultBehind(cfg, claim.allocation.value, d);
    assert Answers(cfg, r, ds[i]);
  }

  lemma {:induction false} ResultBehind(cfg: Config, results: seq<AllocationResult>, d: AllocatedDevice)
    returns (r: AllocationResult)
    requires d in Mine(cfg, results)
    ensures r in results && r.driver == cfg.driverName
    ensures d == AllocatedDevice(r.request, r.pool, r.device, if r.shareId.Some? then r.shareId.value else "")
  {
    var n := |results| - 1;
    if d in Mine(cfg, results[..n]) {
      r := ResultBehind(cfg, results[..n], d);
    } else {
      r := results[n];
    }
  }

  /** Conversely, every result for this driver is reported, and no more entries than results. */
  lemma EveryResultAnswered(cfg: Config, claim: Claim, m: Memory, disk: Disk, devices: seq<AllocatedDevice>,
                            m': Memory, disk': Disk, ds: seq<KubeletDevice>)
    requires PrepareDone(cfg, claim, devices, m, disk, m', disk', ds)
    ensures |ds| == |Filter(claim.allocation.value, (r: AllocationResult) => r.driver == cfg.driverName)|
    ensures forall r :: r in claim.allocation.value && r.driver == cfg.driverName ==>
              exists i :: 0 <= i < |ds| && Answers(cfg, r, ds[i])
  {
    var results := claim.allocation.value;
    ResponseFields(cfg, claim, m, disk, devices, m', disk', ds);
    MineCount(cfg, results);
    SameLength(devices, Mine(cfg, results));
    forall r | r in results && r.driver == cfg.driverName
      ensures exists i :: 0 <= i < |ds| && Answers(cfg, r, ds[i])
    {
      var d := AllocatedDevice(r.request, r.pool, r.device, if r.shareId.Some? then r.shareId.value else "");
      assert d in multiset(devices) by {
        MineHas(cfg, results, r);
      }
      var i :| 0 <= i < |devices| && devices[i] == d;
      assert devices[i] in devices && d.pool == cfg.nodeName;
      assert Answers(cfg, r, ds[i]);
    }
  }

  lemma {:induction false} MineCount(cfg: Config, results: seq<AllocationResult>)
    ensures |Mine(cfg, results)| == |Filter(results, (r: AllocationResult) => r.driver == cfg.driverName)|
  {
    if results != [] { MineCount(cfg, results[..|results| - 1]); }
  }

  lemma {:induction false} MineHas(cfg: Config, results: seq<AllocationResult>, r: AllocationResult)
    requires r in results && r.driver == cfg.driverName
    ensures AllocatedDevice(r.request, r.pool, r.device, if r.shareId.Some? then r.shareId.value else "")
            in Mine(cfg, results)
  {
    var n := |results| - 1;
    if results[n] != r {
      assert results == results[..n] + [results[n]];
      MineHas(cfg, results[..n], r);
    }
  }

  // ----- preparing again -----

  lemma {:induction false} SortedDevicesUnique(cfg: Config, x: seq<AllocatedDevice>, y: seq<AllocatedDevice>)
    requires multiset(x) == multiset(y) && SortedBy(x, ByPoolAndDevice) && SortedBy(y, ByPoolAndDevice)
    requires OnThisNode(cfg, x) && Distinct(KeyList(x))
    ensures x == y
  {
    forall d, e | d in x && e in x && ByPoolAndDevice(d, e) && ByPoolAndDevice(e, d)
      ensures d == e
    {
      LessTotal(d.device, e.device);
      var i :| 0 <= i < |x| && x[i] == d;
      var j :| 0 <= j < |x| && x[j] == e;
      assert KeyList(x)[i] == KeyList(x)[j];
    }
    SortedUnique(x, y, ByPoolAndDevice);
  }

  /** Two readings of the same claim, its results listed in any order. */
  ghost predicate SameAllocation(cfg: Config, x: Claim, y: Claim) {
    && x.uid == y.uid && x.allocation.Some? && y.allocation.Some?
    && multiset(Mine(cfg, x.allocation.value)) == multiset(Mine(cfg, y.allocation.value))
  }

  /**
   Preparing a prepared claim again, its results listed in any order, is never refused for the
   allocation, answers with the same devices, and changes no ownership.
   */
  lemma PreparingAgainIsIdempotent(cfg: Config, first: Claim, again: Claim, s: System, devices: seq<AllocatedDevice>,
                                   m: Memory, disk: Disk, ds: seq<KubeletDevice>,
                                   m': Memory, disk': Disk, r: PrepareOutcome)
    requires Good(cfg, s) && s.memory.Some? && AllocatesOnce(cfg, first)
    requires PrepareDone(cfg, first, devices, s.memory.value, s.disk, m, disk, ds)
    requires SameAllocation(cfg, first, again)
    requires PrepareStep(cfg, Some(again), m, disk, m', disk', r)
    requires r.Refused? ==> RefusalExplained(cfg, Some(again), m, r.error)
    ensures r.Prepared? ==> r.devices == ds && m' == m
    ensures r.Refused? ==> r.error.WriteFailed? && m' == m && disk' == disk
  {
    AfterPrepare(cfg, first, s, devices, m, disk, ds);
    KeysDistinct(cfg, first, devices);
    OneReading(cfg, first, again, devices);
    match r {
      case Prepared(answer) =>
        var other :| PrepareDone(cfg, again, other, m, disk, m', disk', answer);
      case Refused(e) => AgainNotRefused(cfg, first, again, devices, m, e);
      case Halted =>
    }
  }

  lemma AfterPrepare(cfg: Config, first: Claim, s: System, devices: seq<AllocatedDevice>,
                     m: Memory, disk: Disk, ds: seq<KubeletDevice>)
    requires Good(cfg, s) && s.memory.Some?
    requires PrepareDone(cfg, first, devices, s.memory.value, s.disk, m, disk, ds)
    ensures first.uid in m.prepared && m.prepared[first.uid].devices == devices
            && ds == KubeletDevices(m.prepared[first.uid])
    ensures forall k :: k in KeysOf(devices) ==> k in m.owners && m.owners[k] == first.uid
  {
    PreparedGood(cfg, first, devices, s.memory.value, s.disk, m, disk, ds);
  }

  lemma OneReading(cfg: Config, first: Claim, again: Claim, devices: seq<AllocatedDevice>)
    requires Allocates(cfg, first, devices) && SameAllocation(cfg, first, again) && Distinct(KeyList(devices))
    ensures forall other :: Allocates(cfg, again, other) ==> other == devices
  {
    forall other | Allocates(cfg, again, other)
      ensures other == devices
    {
      SortedDevicesUnique(cfg, devices, other);
    }
  }

  lemma AgainNotRefused(cfg: Config, first: Claim, again: Claim, devices: seq<AllocatedDevice>, m: Memory,
                        e: PrepareError)
    requires Allocates(cfg, first, devices) && SameAllocation(cfg, first, again)
    requires forall other :: Allocates(cfg, again, other) ==> other == devices
    requires first.uid in m.prepared && m.prepared[first.uid].devices == devices
    requires forall k :: k in KeysOf(devices) ==> k in m.owners && m.owners[k] == first.uid
    requires RefusalExplained(cfg, Some(again), m, e)
    ensures e.WriteFailed?
  {
    SameLength(devices, Mine(cfg, again.allocation.value));
    SortedNonempty(cfg, devices, Mine(cfg, again.allocation.value));
  }
}
