/**
 The DRA driver over every run: preparing, unpreparing, failed writes, crashes between any two
 file effects, and restarts.
 */
module DriverRuns {
  import opened Orders
  import opened Driver

  /** The process, absent while it is down, and the files it left behind. */
  datatype System = System(memory: Option<Memory>, disk: Disk)

  datatype Event = PrepareEvent(claim: Claim) | UnprepareEvent(uid: string) | StartEvent | KillEvent

  ghost predicate PrepareTransition(cfg: Config, claim: Claim, s: System, t: System) {
    s.memory.Some? &&
    exists m, r :: && PrepareStep(cfg, Some(claim), s.memory.value, s.disk, m, t.disk, r)
                   && t.memory == if r.Halted? then None else Some(m)
  }

  ghost predicate UnprepareTransition(cfg: Config, uid: string, s: System, t: System) {
    s.memory.Some? &&
    exists m, r :: && UnprepareStep(cfg, uid, s.memory.value, s.disk, m, t.disk, r)
                   && t.memory == if r.Interrupted? then None else Some(m)
  }

  ghost predicate StartTransition(cfg: Config, s: System, t: System) {
    s.memory.None? &&
    exists m, r :: && LoadStep(cfg, s.disk, m, t.disk, r)
                   && t.memory == if r.Loaded? then Some(m) else None
  }

  ghost predicate Transition(cfg: Config, s: System, e: Event, t: System) {
    match e
    case PrepareEvent(claim) => PrepareTransition(cfg, claim, s, t)
    case UnprepareEvent(uid) => UnprepareTransition(cfg, uid, s, t)
    case StartEvent => StartTransition(cfg, s, t)
    case KillEvent => t == System(None, s.disk)
  }

  ghost predicate IsRun(cfg: Config, states: seq<System>, events: seq<Event>) {
    && |states| == |events| + 1
    && forall i :: 0 <= i < |events| ==> Transition(cfg, states[i], events[i], states[i + 1])
  }

  /** The claim names no device of this driver twice. */
  ghost predicate AllocatesOnce(cfg: Config, claim: Claim) {
    claim.allocation.Some? ==> DistinctKeys(Mine(cfg, claim.allocation.value), DeviceKey)
  }

  // ----- the invariant -----

  /** What the state file always says: claims under their own UID, no device in two of them. */
  ghost predicate GoodDisk(disk: Disk) {
    && Filed(SavedClaims(disk))
    && Apart(SavedClaims(disk))
    && (StateFile in disk ==> disk[StateFile].Saved? && disk[StateFile].version == STATE_VERSION)
  }

  /** A CDI file of a prepared claim, when present, carries that claim's devices. */
  ghost predicate CdiAccurate(cfg: Config, claims: map<string, PreparedClaim>, disk: Disk) {
    forall u :: u in claims && claims[u].cdiFile in disk ==> disk[claims[u].cdiFile] == CdiFor(cfg, claims[u])
  }

  ghost predicate Good(cfg: Config, s: System) {
    && GoodDisk(s.disk)
    && (s.memory.Some? ==>
          && s.memory.value.prepared == SavedClaims(s.disk)
          && Inverse(s.memory.value)
          && CdiAccurate(cfg, SavedClaims(s.disk), s.disk))
  }

  lemma SameState(x: Disk, y: Disk, path: FilePath)
    requires SameBut(x, y, path) && path != StateFile
    ensures SavedClaims(x) == SavedClaims(y) && (GoodDisk(x) <==> GoodDisk(y))
  {
    assert StateFile in x <==> StateFile in x - {path};
    assert StateFile in y <==> StateFile in y - {path};
    if StateFile in x {
      assert (x - {path})[StateFile] == (y - {path})[StateFile];
    }
  }

  lemma SameElsewhere(x: Disk, y: Disk, path: FilePath, other: FilePath)
    requires SameBut(x, y, path) && other != path
    ensures other in x <==> other in y
    ensures other in x ==> x[other] == y[other]
  {
    assert other in x <==> other in x - {path};
    assert other in y <==> other in y - {path};
    if other in x {
      assert (x - {path})[other] == (y - {path})[other];
    }
  }

  // ----- preparing -----

  lemma KeysDistinct(cfg: Config, claim: Claim, devices: seq<AllocatedDevice>)
    requires Allocates(cfg, claim, devices)
    ensures AllocatesOnce(cfg, claim) <==> Distinct(KeyList(devices))
  {
    var mine := Mine(cfg, claim.allocation.value);
    if AllocatesOnce(cfg, claim) {
      DistinctKeysOfPermutation(mine, devices, DeviceKey);
    }
    if Distinct(KeyList(devices)) {
      forall i, j | 0 <= i < j < |devices|
        ensures DeviceKey(devices[i]) != DeviceKey(devices[j])
      {
        assert KeyList(devices)[i] != KeyList(devices)[j];
      }
      DistinctKeysOfPermutation(devices, mine, DeviceKey);
    }
  }

  lemma NewClaimUnowned(cfg: Config, claim: Claim, devices: seq<AllocatedDevice>, m: Memory)
    requires Inverse(m) && Filed(m.prepared) && claim.uid !in m.prepared && Free(m, claim.uid, devices)
    ensures KeysOf(devices) !! m.owners.Keys
  {
    FreeKeys(m, NewClaim(cfg, claim, devices));
  }

  lemma PrepareKeepsGood(cfg: Config, claim: Claim, s: System, t: System)
    requires Good(cfg, s) && PrepareTransition(cfg, claim, s, t)
    ensures Good(cfg, t)
  {
    var m, disk := s.memory.value, s.disk;
    var m', r :| && PrepareStep(cfg, Some(claim), m, disk, m', t.disk, r)
                 && t.memory == if r.Halted? then None else Some(m');
    match r {
      case Prepared(ds) =>
        var devices :| PrepareDone(cfg, claim, devices, m, disk, m', t.disk, ds);
        PreparedGood(cfg, claim, devices, m, disk, m', t.disk, ds);
      case Refused(e) =>
        RefusedGood(cfg, claim, m, disk, t.disk);
      case Halted =>
        var devices :| PrepareCut(cfg, claim, devices, m, disk, t.disk);
        HaltedGood(cfg, claim, devices, m, disk, t.disk);
    }
  }

  lemma PreparedGood(cfg: Config, claim: Claim, devices: seq<AllocatedDevice>, m: Memory, disk: Disk,
                     m': Memory, disk': Disk, ds: seq<KubeletDevice>)
    requires Good(cfg, System(Some(m), disk))
    requires PrepareDone(cfg, claim, devices, m, disk, m', disk', ds)
    ensures Good(cfg, System(Some(m'), disk'))
  {
    if claim.uid in m.prepared {
      AgainGood(cfg, m, disk, claim.uid);
    } else {
      NewClaimUnowned(cfg, claim, devices, m);
      NewGood(cfg, m, disk, NewClaim(cfg, claim, devices));
    }
  }

  lemma AgainGood(cfg: Config, m: Memory, disk: Disk, uid: string)
    requires Good(cfg, System(Some(m), disk)) && uid in m.prepared
    ensures Good(cfg, System(Some(m), disk[m.prepared[uid].cdiFile := CdiFor(cfg, m.prepared[uid])]))
  {
    var p := m.prepared[uid];
    WithoutOverwritten(disk, p.cdiFile, CdiFor(cfg, p));
    SameState(disk, disk[p.cdiFile := CdiFor(cfg, p)], p.cdiFile);
  }

  lemma NewGood(cfg: Config, m: Memory, disk: Disk, p: PreparedClaim)
    requires Good(cfg, System(Some(m), disk)) && p.uid !in m.prepared && p.uid != "" && p.cdiFile == CdiFile(p.uid)
    requires KeysOf(p.devices) !! m.owners.Keys
    ensures Good(cfg, System(Some(Holding(m, p)), WithState(disk[p.cdiFile := CdiFor(cfg, p)], Holding(m, p).prepared)))
  {
    HoldInverse(m, p);
    NewCdi(cfg, m, disk, p);
    NewFiled(m.prepared, p);
    SavedIsGood(cfg, Holding(m, p), disk[p.cdiFile := CdiFor(cfg, p)]);
  }

  /** A device has one owner, so claims whose devices are all owned are apart. */
  lemma OwnersKeepApart(m: Memory)
    requires OwnsAll(m)
    ensures Apart(m.prepared)
  {
    forall u, v | u in m.prepared && v in m.prepared && u != v
      ensures KeysOf(m.prepared[u].devices) !! KeysOf(m.prepared[v].devices)
    {
      forall k | k in KeysOf(m.prepared[u].devices)
        ensures k !in KeysOf(m.prepared[v].devices)
      {
        assert m.owners[k] == u;
      }
    }
  }

  lemma NewFiled(claims: map<string, PreparedClaim>, p: PreparedClaim)
    requires Filed(claims) && p.uid != "" && p.cdiFile == CdiFile(p.uid)
    ensures Filed(claims[p.uid := p])
  {
  }

  lemma SavedIsGood(cfg: Config, n: Memory, disk: Disk)
    requires Inverse(n) && Filed(n.prepared) && CdiAccurate(cfg, n.prepared, WithState(disk, n.prepared))
    ensures Good(cfg, System(Some(n), WithState(disk, n.prepared)))
  {
    OwnersKeepApart(n);
    assert SavedClaims(WithState(disk, n.prepared)) == n.prepared;
  }

  lemma NewCdi(cfg: Config, m: Memory, disk: Disk, p: PreparedClaim)
    requires Filed(m.prepared) && CdiAccurate(cfg, m.prepared, disk) && p.cdiFile == CdiFile(p.uid)
    ensures CdiAccurate(cfg, Holding(m, p).prepared,
                        WithState(disk[p.cdiFile := CdiFor(cfg, p)], Holding(m, p).prepared))
  {
  }

  lemma RefusedGood(cfg: Config, claim: Claim, m: Memory, disk: Disk, disk': Disk)
    requires Good(cfg, System(Some(m), disk))
    requires disk' == disk || (claim.uid !in m.prepared && SameBut(disk, disk', CdiFile(claim.uid)))
    ensures Good(cfg, System(Some(m), disk'))
  {
    if disk' != disk {
      SameState(disk, disk', CdiFile(claim.uid));
      forall u | u in m.prepared && m.prepared[u].cdiFile in disk'
        ensures disk'[m.prepared[u].cdiFile] == CdiFor(cfg, m.prepared[u])
      {
        SameElsewhere(disk, disk', CdiFile(claim.uid), CdiFile(u));
      }
    }
  }

  lemma HaltedGood(cfg: Config, claim: Claim, devices: seq<AllocatedDevice>, m: Memory, disk: Disk, disk': Disk)
    requires Good(cfg, System(Some(m), disk))
    requires PrepareCut(cfg, claim, devices, m, disk, disk')
    ensures GoodDisk(disk')
    ensures || SavedClaims(disk') == SavedClaims(disk)
            || (&& claim.uid !in SavedClaims(disk)
                && SavedClaims(disk') == SavedClaims(disk)[claim.uid := NewClaim(cfg, claim, devices)])
  {
    if SameBut(disk, disk', CdiFile(claim.uid)) {
      SameState(disk, disk', CdiFile(claim.uid));
    } else {
      var p := NewClaim(cfg, claim, devices);
      var middle := WithState(disk, Holding(m, p).prepared);
      assert Apart(Holding(m, p).prepared) by {
        NewClaimUnowned(cfg, claim, devices, m);
        HoldInverse(m, p);
        OwnersKeepApart(Holding(m, p));
      }
      assert GoodDisk(middle) by {
        NewFiled(m.prepared, p);
        assert SavedClaims(middle) == Holding(m, p).prepared;
      }
      SameState(middle, disk', CdiFile(claim.uid));
    }
  }

  // ----- unpreparing -----

  lemma DroppingGood(m: Memory, uid: string)
    requires Inverse(m) && Filed(m.prepared) && uid in m.prepared
    ensures Inverse(Dropping(m, m.prepared[uid]))
    ensures Apart(Dropping(m, m.prepared[uid]).prepared) && Filed(Dropping(m, m.prepared[uid]).prepared)
  {
    DropInverse(m, m.prepared[uid]);
    OwnersKeepApart(Dropping(m, m.prepared[uid]));
  }

  lemma DropInverse(m: Memory, p: PreparedClaim)
    requires Inverse(m) && p.uid in m.prepared && m.prepared[p.uid] == p
    ensures Inverse(Dropping(m, p))
  {
    DropOwnsAll(m, p);
    DropOwnsOnly(m, p);
  }

  lemma DropOwnsAll(m: Memory, p: PreparedClaim)
    requires OwnsAll(m) && p.uid in m.prepared && m.prepared[p.uid] == p
    ensures OwnsAll(Dropping(m, p))
  {
    var n := Dropping(m, p);
    forall u, k | u in n.prepared && k in KeysOf(n.prepared[u].devices)
      ensures k in n.owners && n.owners[k] == u
    {
      assert k in m.owners && m.owners[k] == u;
      assert k !in KeysOf(p.devices);
    }
  }

  lemma DropOwnsOnly(m: Memory, p: PreparedClaim)
    requires Inverse(m) && p.uid in m.prepared && m.prepared[p.uid] == p
    ensures OwnsOnly(Dropping(m, p))
  {
    var n := Dropping(m, p);
    forall k | k in n.owners
      ensures n.owners[k] in n.prepared && k in KeysOf(n.prepared[n.owners[k]].devices)
    {
      assert k in m.owners && n.owners[k] == m.owners[k];
    }
  }

  lemma UnprepareKeepsGood(cfg: Config, uid: string, s: System, t: System)
    requires Good(cfg, s) && UnprepareTransition(cfg, uid, s, t)
    ensures Good(cfg, t)
  {
    var m, disk := s.memory.value, s.disk;
    var m', r :| && UnprepareStep(cfg, uid, m, disk, m', t.disk, r)
                 && t.memory == if r.Interrupted? then None else Some(m');
    if uid in m.prepared {
      var p := m.prepared[uid];
      DroppingGood(m, uid);
      match r {
        case Unprepared =>
          assert SavedClaims(t.disk) == m'.prepared;
        case Kept =>
          SameState(disk, t.disk, p.cdiFile);
          KeptCdi(cfg, m, disk, t.disk, uid);
        case Interrupted =>
          InterruptedGood(m, disk, t.disk, uid);
      }
    }
  }

  lemma KeptCdi(cfg: Config, m: Memory, disk: Disk, disk': Disk, uid: string)
    requires Filed(m.prepared) && CdiAccurate(cfg, m.prepared, disk) && uid in m.prepared
    requires SameBut(disk, disk', CdiFile(uid))
    requires CdiFile(uid) in disk' ==>
               disk'[CdiFile(uid)] == CdiFor(cfg, m.prepared[uid])
               || (CdiFile(uid) in disk && disk'[CdiFile(uid)] == disk[CdiFile(uid)])
    ensures CdiAccurate(cfg, m.prepared, disk')
  {
    forall u | u in m.prepared && m.prepared[u].cdiFile in disk'
      ensures disk'[m.prepared[u].cdiFile] == CdiFor(cfg, m.prepared[u])
    {
      if u != uid {
        SameElsewhere(disk, disk', CdiFile(uid), CdiFile(u));
      }
    }
  }

  lemma InterruptedGood(m: Memory, disk: Disk, disk': Disk, uid: string)
    requires GoodDisk(disk) && m.prepared == SavedClaims(disk) && Inverse(m) && uid in m.prepared
    requires var p := m.prepared[uid];
             SameBut(disk, disk', p.cdiFile) || SameBut(WithState(disk, Dropping(m, p).prepared), disk', p.cdiFile)
    ensures GoodDisk(disk')
    ensures SavedClaims(disk') == SavedClaims(disk) || SavedClaims(disk') == SavedClaims(disk) - {uid}
  {
    var p := m.prepared[uid];
    DroppingGood(m, uid);
    if SameBut(disk, disk', p.cdiFile) {
      SameState(disk, disk', p.cdiFile);
    } else {
      SameState(WithState(disk, Dropping(m, p).prepared), disk', p.cdiFile);
    }
  }

  // ----- restarting -----

  lemma OnlyCdiKeepsState(disk: Disk, disk': Disk)
    requires Filed(SavedClaims(disk)) && OnlyCdi(SavedClaims(disk), disk, disk')
    ensures SavedClaims(disk') == SavedClaims(disk) && (GoodDisk(disk) ==> GoodDisk(disk'))
  {
    var claims := SavedClaims(disk);
    assert forall u :: u in claims ==> claims[u].cdiFile != StateFile;
    assert StateFile in disk <==> StateFile in disk';
  }

  lemma StartKeepsGood(cfg: Config, s: System, t: System)
    requires Good(cfg, s) && StartTransition(cfg, s, t)
    ensures Good(cfg, t) && SavedClaims(t.disk) == SavedClaims(s.disk)
    ensures t.memory.Some? ==> CdiWritten(cfg, SavedClaims(t.disk), t.disk)
  {
    OnlyCdiKeepsState(s.disk, t.disk);
  }

  /** Loading succeeded, or a file operation failed or crashed. */
  predicate UpToFiles(r: LoadOutcome) {
    r.Loaded? || r.Cut? || r == Rejected(Unreadable) || r == Rejected(CdiFailed)
  }

  /** With a good state file without repeated devices, only a file operation that fails or crashes can fail a start. */
  lemma StartNeedsOnlyFiles(cfg: Config, disk: Disk, m: Memory, disk': Disk, r: LoadOutcome)
    requires GoodDisk(disk) && NoRepeat(SavedClaims(disk)) && LoadStep(cfg, disk, m, disk', r)
    ensures UpToFiles(r)
  {
  }

  /** Some start from these files succeeds. */
  ghost predicate CanLoad(cfg: Config, disk: Disk) {
    exists m, disk' :: LoadStep(cfg, disk, m, disk', Loaded)
  }

  /** Every start from these files succeeds unless a file operation fails or crashes. */
  ghost predicate OnlyFilesFail(cfg: Config, disk: Disk) {
    forall m, disk', r :: LoadStep(cfg, disk, m, disk', r) ==> UpToFiles(r)
  }

  /** The owner of every device of claims that are apart. */
  ghost function OwnersOf(claims: map<string, PreparedClaim>): map<string, string> {
    map k | k in (set u, k | u in claims && k in KeysOf(claims[u].devices) :: k) :: Holder(claims, k)
  }

  ghost function Holder(claims: map<string, PreparedClaim>, k: string): (u: string)
    requires exists u :: u in claims && k in KeysOf(claims[u].devices)
    ensures u in claims && k in KeysOf(claims[u].devices)
  {
    var u :| u in claims && k in KeysOf(claims[u].devices); u
  }

  lemma OwnersOfInverse(claims: map<string, PreparedClaim>)
    requires Apart(claims)
    ensures Inverse(Memory(claims, OwnersOf(claims)))
  {
    forall u, k | u in claims && k in KeysOf(claims[u].devices)
      ensures k in OwnersOf(claims) && OwnersOf(claims)[k] == u
    {
      assert k in KeysOf(claims[Holder(claims, k)].devices);
    }
  }

  ghost function AllCdi(cfg: Config, claims: map<string, PreparedClaim>): Disk {
    map path: FilePath | path in (set u | u in claims :: CdiFile(u)) :: CdiFor(cfg, claims[path.uid])
  }

  lemma AllCdiWritten(cfg: Config, claims: map<string, PreparedClaim>, disk: Disk)
    requires Filed(claims)
    ensures OnlyCdi(claims, disk, disk + AllCdi(cfg, claims)) && CdiWritten(cfg, claims, disk + AllCdi(cfg, claims))
  {
    forall u | u in claims
      ensures CdiFile(u) in AllCdi(cfg, claims) && AllCdi(cfg, claims)[CdiFile(u)] == CdiFor(cfg, claims[u])
    {
    }
  }

  /** The start that succeeds: every claim gets its owners back and its CDI file written again. */
  lemma GoodLoads(cfg: Config, disk: Disk)
    requires GoodDisk(disk) && NoRepeat(SavedClaims(disk))
    ensures CanLoad(cfg, disk)
  {
    var claims := SavedClaims(disk);
    OwnersOfInverse(claims);
    AllCdiWritten(cfg, claims, disk);
    LoadedOnce(cfg, Memory(claims, OwnersOf(claims)), disk, disk + AllCdi(cfg, claims));
  }

  lemma LoadedOnce(cfg: Config, m: Memory, disk: Disk, disk': Disk)
    requires LoadStep(cfg, disk, m, disk', Loaded)
    ensures CanLoad(cfg, disk)
  {
  }

  lemma OnlyFilesFailGood(cfg: Config, disk: Disk)
    requires GoodDisk(disk) && NoRepeat(SavedClaims(disk))
    ensures OnlyFilesFail(cfg, disk)
  {
    forall m, disk', r | LoadStep(cfg, disk, m, disk', r)
      ensures UpToFiles(r)
    {
      StartNeedsOnlyFiles(cfg, disk, m, disk', r);
    }
  }

  lemma SharedFails(cfg: Config, disk: Disk)
    requires !NoSharing(SavedClaims(disk))
    ensures !CanLoad(cfg, disk) && !OnlyFilesFail(cfg, disk)
  {
    assert LoadStep(cfg, disk, Memory(map[], map[]), disk, Rejected(SharedDevice("")));
  }

  /** A good state file can be loaded, up to file faults, if and only if none of its claims names a device twice. */
  lemma LoadableIffNoRepeat(cfg: Config, disk: Disk)
    requires GoodDisk(disk)
    ensures CanLoad(cfg, disk) <==> NoRepeat(SavedClaims(disk))
    ensures OnlyFilesFail(cfg, disk) <==> NoRepeat(SavedClaims(disk))
  {
    if NoRepeat(SavedClaims(disk)) {
      GoodLoads(cfg, disk);
      OnlyFilesFailGood(cfg, disk);
    } else {
      SharedFails(cfg, disk);
    }
  }

  // ----- every run -----

  lemma TransitionKeepsGood(cfg: Config, s: System, e: Event, t: System)
    requires Good(cfg, s) && Transition(cfg, s, e, t)
    ensures Good(cfg, t)
  {
    match e {
      case PrepareEvent(claim) => PrepareKeepsGood(cfg, claim, s, t);
      case UnprepareEvent(uid) => UnprepareKeepsGood(cfg, uid, s, t);
      case StartEvent => StartKeepsGood(cfg, s, t);
      case KillEvent =>
    }
  }

  lemma {:induction false} RunKeepsGood(cfg: Config, states: seq<System>, events: seq<Event>, i: nat)
    requires IsRun(cfg, states, events) && i < |states| && Good(cfg, states[0])
    ensures Good(cfg, states[i])
  {
    if i != 0 {
      RunKeepsGood(cfg, states, events, i - 1);
      TransitionKeepsGood(cfg, states[i - 1], events[i - 1], states[i]);
    }
  }

  /** No pool and device belong to two of these claims. */
  ghost predicate OwnedOnce(claims: map<string, PreparedClaim>) {
    forall u, v, d, e | u in claims && v in claims && d in claims[u].devices && e in claims[v].devices
      :: d.pool == e.pool && d.device == e.device ==> u == v
  }

  lemma ApartOwnedOnce(claims: map<string, PreparedClaim>)
    requires Apart(claims)
    ensures OwnedOnce(claims)
  {
    forall u, v, d, e | u in claims && v in claims && d in claims[u].devices && e in claims[v].devices
      && d.pool == e.pool && d.device == e.device
      ensures u == v
    {
      assert DeviceKey(d) in KeysOf(claims[u].devices) && DeviceKey(e) in KeysOf(claims[v].devices);
      assert DeviceKey(d) == DeviceKey(e);
    }
  }

  /**
   Over every run from an empty disk, whatever the claims name: no pool and device is ever
   owned by two claims, in memory or in the state file; while the process is up, its memory is
   exactly the state file, owners is the exact inverse of prepared, and every CDI file of a
   prepared claim that is present carries that claim's devices.
   */
  lemma EveryRunKeepsOwnership(cfg: Config, states: seq<System>, events: seq<Event>, i: nat)
    requires IsRun(cfg, states, events) && i < |states| && states[0] == System(None, map[])
    ensures OwnedOnce(SavedClaims(states[i].disk))
    ensures states[i].memory.Some? ==>
              && states[i].memory.value.prepared == SavedClaims(states[i].disk)
              && Inverse(states[i].memory.value)
              && CdiAccurate(cfg, SavedClaims(states[i].disk), states[i].disk)
  {
    RunKeepsGood(cfg, states, events, i);
    ApartOwnedOnce(SavedClaims(states[i].disk));
  }

  /** At every point of every run, the files can be loaded, up to file faults, iff no saved claim repeats a device. */
  lemma EveryRunLoadable(cfg: Config, states: seq<System>, events: seq<Event>, i: nat)
    requires IsRun(cfg, states, events) && i < |states| && states[0] == System(None, map[])
    ensures CanLoad(cfg, states[i].disk) <==> NoRepeat(SavedClaims(states[i].disk))
    ensures OnlyFilesFail(cfg, states[i].disk) <==> NoRepeat(SavedClaims(states[i].disk))
  {
    RunKeepsGood(cfg, states, events, i);
    LoadableIffNoRepeat(cfg, states[i].disk);
  }

  // ----- all or nothing -----

  /** What the operation would leave prepared if it completed. */
  ghost predicate Intended(cfg: Config, e: Event,
                           before: map<string, PreparedClaim>, after: map<string, PreparedClaim>) {
    match e
    case PrepareEvent(claim) =>
      && claim.uid !in before
      && exists devices :: Allocates(cfg, claim, devices) && after == before[claim.uid := NewClaim(cfg, claim, devices)]
    case UnprepareEvent(uid) => after == before - {uid}
    case _ => false
  }

  /**
   Prepare and Unprepare are all or nothing: the state file afterwards is what it was or what
   the operation intends, whether it succeeded, failed or crashed; and a driver that is still
   up holds exactly what the state file says.
   */
  lemma OperationsAreAtomic(cfg: Config, s: System, e: Event, t: System)
    requires Good(cfg, s) && Transition(cfg, s, e, t)
    requires e.PrepareEvent? || e.UnprepareEvent?
    ensures SavedClaims(t.disk) == SavedClaims(s.disk) || Intended(cfg, e, SavedClaims(s.disk), SavedClaims(t.disk))
    ensures t.memory.Some? ==> t.memory.value.prepared == SavedClaims(t.disk)
    ensures t.memory.Some? && SavedClaims(t.disk) == SavedClaims(s.disk) ==> t.memory == s.memory
  {
    TransitionKeepsGood(cfg, s, e, t);
    if e.PrepareEvent? {
      PrepareAtomic(cfg, e.claim, s, t);
    } else {
      UnprepareAtomic(cfg, e.uid, s, t);
    }
    if t.memory.Some? && SavedClaims(t.disk) == SavedClaims(s.disk) {
      InverseUnique(t.memory.value, s.memory.value);
    }
  }

  /** Ownership is determined by what is prepared. */
  lemma InverseUnique(m: Memory, n: Memory)
    requires Inverse(m) && Inverse(n) && m.prepared == n.prepared
    ensures m == n
  {
    forall k
      ensures k in m.owners <==> k in n.owners
      ensures k in m.owners ==> m.owners[k] == n.owners[k]
    {
    }
    assert m.owners.Keys == n.owners.Keys;
  }

  lemma PrepareAtomic(cfg: Config, claim: Claim, s: System, t: System)
    requires Good(cfg, s) && PrepareTransition(cfg, claim, s, t)
    ensures || SavedClaims(t.disk) == SavedClaims(s.disk)
            || Intended(cfg, PrepareEvent(claim), SavedClaims(s.disk), SavedClaims(t.disk))
  {
    var m, disk := s.memory.value, s.disk;
    var m', r :| && PrepareStep(cfg, Some(claim), m, disk, m', t.disk, r)
                 && t.memory == if r.Halted? then None else Some(m');
    match r {
      case Prepared(ds) =>
        var devices :| PrepareDone(cfg, claim, devices, m, disk, m', t.disk, ds);
        DoneAtomic(cfg, claim, devices, m, disk, m', t.disk, ds);
      case Refused(e) =>
        FailureChangesNothing(cfg, claim, "", m, disk, m', t.disk, e);
      case Halted =>
        var devices :| PrepareCut(cfg, claim, devices, m, disk, t.disk);
        HaltedGood(cfg, claim, devices, m, disk, t.disk);
    }
  }

  lemma DoneAtomic(cfg: Config, claim: Claim, devices: seq<AllocatedDevice>, m: Memory, disk: Disk,
                   m': Memory, disk': Disk, ds: seq<KubeletDevice>)
    requires Filed(m.prepared) && m.prepared == SavedClaims(disk)
    requires PrepareDone(cfg, claim, devices, m, disk, m', disk', ds)
    ensures SavedClaims(disk') == SavedClaims(disk)
            || Intended(cfg, PrepareEvent(claim), SavedClaims(disk), SavedClaims(disk'))
  {
    if claim.uid in m.prepared {
      WithoutOverwritten(disk, CdiFile(claim.uid), CdiFor(cfg, m.prepared[claim.uid]));
      SameState(disk, disk', CdiFile(claim.uid));
    }
  }

  lemma UnprepareAtomic(cfg: Config, uid: string, s: System, t: System)
    requires Good(cfg, s) && UnprepareTransition(cfg, uid, s, t)
    ensures SavedClaims(t.disk) == SavedClaims(s.disk) || SavedClaims(t.disk) == SavedClaims(s.disk) - {uid}
  {
    var m, disk := s.memory.value, s.disk;
    var m', r :| && UnprepareStep(cfg, uid, m, disk, m', t.disk, r)
                 && t.memory == if r.Interrupted? then None else Some(m');
    if uid in m.prepared {
      var p := m.prepared[uid];
      match r {
        case Unprepared =>
        case Kept => SameState(disk, t.disk, p.cdiFile);
        case Interrupted => InterruptedGood(m, disk, t.disk, uid);
      }
    }
  }

  /** A refused prepare or a failed unprepare leaves memory and the state file as they were. */
  lemma FailureChangesNothing(cfg: Config, claim: Claim, uid: string, m: Memory, disk: Disk, m': Memory, disk': Disk,
                              e: PrepareError)
    requires Filed(m.prepared)
    requires PrepareStep(cfg, Some(claim), m, disk, m', disk', Refused(e))
             || UnprepareStep(cfg, uid, m, disk, m', disk', Kept)
    ensures m' == m && SavedClaims(disk') == SavedClaims(disk)
  {
    if PrepareStep(cfg, Some(claim), m, disk, m', disk', Refused(e)) {
      if disk' != disk { SameState(disk, disk', CdiFile(claim.uid)); }
    } else {
      SameState(disk, disk', m.prepared[uid].cdiFile);
    }
  }

  // ----- what a completed operation has done -----

  /** After a successful prepare the claim is in memory and state file, owns its devices, and has its CDI file. */
  lemma PrepareAccomplishes(cfg: Config, claim: Claim, s: System, devices: seq<AllocatedDevice>,
                            m': Memory, disk': Disk, ds: seq<KubeletDevice>)
    requires Good(cfg, s) && s.memory.Some?
    requires PrepareDone(cfg, claim, devices, s.memory.value, s.disk, m', disk', ds)
    ensures claim.uid in m'.prepared && m'.prepared[claim.uid].devices == devices
    ensures claim.uid in SavedClaims(disk') && SavedClaims(disk')[claim.uid] == m'.prepared[claim.uid]
    ensures forall d :: d in devices ==> DeviceKey(d) in m'.owners && m'.owners[DeviceKey(d)] == claim.uid
    ensures CdiFile(claim.uid) in disk' && disk'[CdiFile(claim.uid)] == CdiFor(cfg, m'.prepared[claim.uid])
    ensures forall u :: u in s.memory.value.prepared ==>
              u in m'.prepared && m'.prepared[u] == s.memory.value.prepared[u]
  {
    assert Good(cfg, System(Some(m'), disk')) by {
      PreparedGood(cfg, claim, devices, s.memory.value, s.disk, m', disk', ds);
    }
    PreparedClaimKept(cfg, claim, s.memory.value, s.disk, devices, m', disk', ds);
    OwnsItsDevices(m', claim.uid);
  }

  lemma PreparedClaimKept(cfg: Config, claim: Claim, m: Memory, disk: Disk, devices: seq<AllocatedDevice>,
                          m': Memory, disk': Disk, ds: seq<KubeletDevice>)
    requires Filed(m.prepared) && PrepareDone(cfg, claim, devices, m, disk, m', disk', ds)
    ensures claim.uid in m'.prepared && m'.prepared[claim.uid].devices == devices
    ensures CdiFile(claim.uid) in disk' && disk'[CdiFile(claim.uid)] == CdiFor(cfg, m'.prepared[claim.uid])
    ensures forall u :: u in m.prepared ==> u in m'.prepared && m'.prepared[u] == m.prepared[u]
  {
  }

  lemma OwnsItsDevices(m: Memory, uid: string)
    requires OwnsAll(m) && uid in m.prepared
    ensures forall d :: d in m.prepared[uid].devices ==> DeviceKey(d) in m.owners && m.owners[DeviceKey(d)] == uid
  {
    forall d | d in m.prepared[uid].devices
      ensures DeviceKey(d) in m.owners && m.owners[DeviceKey(d)] == uid
    {
      assert DeviceKey(d) in KeysOf(m.prepared[uid].devices);
    }
  }

  /** After a successful unprepare nothing of the claim is left, and every other claim keeps all it had. */
  lemma UnprepareAccomplishes(cfg: Config, uid: string, s: System, m': Memory, disk': Disk)
    requires Good(cfg, s) && s.memory.Some?
    requires UnprepareStep(cfg, uid, s.memory.value, s.disk, m', disk', Unprepared)
    ensures uid !in m'.prepared && uid !in SavedClaims(disk')
    ensures forall k :: k in m'.owners ==> m'.owners[k] != uid
    ensures uid in s.memory.value.prepared ==> CdiFile(uid) !in disk'
    ensures forall u :: u in s.memory.value.prepared && u != uid ==>
              && u in m'.prepared && m'.prepared[u] == s.memory.value.prepared[u]
              && (CdiFile(u) in s.disk ==> CdiFile(u) in disk' && disk'[CdiFile(u)] == s.disk[CdiFile(u)])
    ensures forall k :: k in s.memory.value.owners && s.memory.value.owners[k] != uid ==>
              k in m'.owners && m'.owners[k] == s.memory.value.owners[k]
  {
    var m := s.memory.value;
    if uid in m.prepared {
      DropLeaves(m, uid);
      DropFiles(s.disk, uid, m'.prepared);
    }
  }

  lemma DropLeaves(m: Memory, uid: string)
    requires Inverse(m) && Filed(m.prepared) && uid in m.prepared
    ensures var n := Dropping(m, m.prepared[uid]);
            && n.prepared == m.prepared - {uid}
            && (forall k :: k in n.owners ==> n.owners[k] != uid)
            && (forall k :: k in m.owners && m.owners[k] != uid ==> k in n.owners && n.owners[k] == m.owners[k])
  {
    var p := m.prepared[uid];
    forall k | k in m.owners
      ensures k in KeysOf(p.devices) <==> m.owners[k] == uid
    {
      assert k in KeysOf(m.prepared[m.owners[k]].devices);
    }
  }

  lemma DropFiles(disk: Disk, uid: string, claims: map<string, PreparedClaim>)
    ensures var disk' := WithState(disk - {CdiFile(uid)}, claims);
            && CdiFile(uid) !in disk' && SavedClaims(disk') == claims
            && forall u :: u != uid && CdiFile(u) in disk ==>
                 CdiFile(u) in disk' && disk'[CdiFile(u)] == disk[CdiFile(u)]
  {
  }

  // ----- CDI names -----

  /** The fully qualified name of the device that a CDI file defines. */
  function CdiName(cdi: Content): string
    requires cdi.CdiSpec?
  {
    cdi.kind + "=" + cdi.deviceName
  }

  /** Every claim carries the name that its own CDI file defines. */
  ghost predicate Named(cfg: Config, claims: map<string, PreparedClaim>) {
    forall u :: u in claims ==> claims[u].cdiId == CdiName(CdiFor(cfg, claims[u]))
  }

  lemma NewClaimNamed(cfg: Config, claim: Claim, devices: seq<AllocatedDevice>)
    ensures NewClaim(cfg, claim, devices).cdiId == CdiName(CdiFor(cfg, NewClaim(cfg, claim, devices)))
  {
    assert "/device=claim-" == "/device" + "=" + "claim-";
    assert cfg.driverName + "/device=claim-" + claim.uid == cfg.driverName + "/device" + "=" + ("claim-" + claim.uid);
  }

  lemma TransitionKeepsNamed(cfg: Config, s: System, e: Event, t: System)
    requires Good(cfg, s) && Transition(cfg, s, e, t) && Named(cfg, SavedClaims(s.disk))
    ensures Named(cfg, SavedClaims(t.disk))
  {
    match e {
      case PrepareEvent(claim) =>
        OperationsAreAtomic(cfg, s, e, t);
        if SavedClaims(t.disk) != SavedClaims(s.disk) {
          var devices :| Allocates(cfg, claim, devices)
                         && SavedClaims(t.disk) == SavedClaims(s.disk)[claim.uid := NewClaim(cfg, claim, devices)];
          NewClaimNamed(cfg, claim, devices);
        }
      case UnprepareEvent(_) => OperationsAreAtomic(cfg, s, e, t);
      case StartEvent => StartKeepsGood(cfg, s, t);
      case KillEvent =>
    }
  }

  lemma {:induction false} RunKeepsNamed(cfg: Config, states: seq<System>, events: seq<Event>, i: nat)
    requires IsRun(cfg, states, events) && i < |states| && states[0] == System(None, map[])
    ensures Good(cfg, states[i]) && Named(cfg, SavedClaims(states[i].disk))
  {
    RunKeepsGood(cfg, states, events, i);
    if i != 0 {
      RunKeepsNamed(cfg, states, events, i - 1);
      TransitionKeepsNamed(cfg, states[i - 1], events[i - 1], states[i]);
    }
  }

  // ----- crash and recovery -----

  /** While the process is down, no number of failed or interrupted starts changes the state file. */
  lemma {:induction false} StartsKeepState(cfg: Config, states: seq<System>, events: seq<Event>, i: nat)
    requires IsRun(cfg, states, events) && i < |states| && Good(cfg, states[0])
    requires forall j :: 0 <= j < |events| ==> events[j].StartEvent? || events[j].KillEvent?
    ensures Good(cfg, states[i]) && SavedClaims(states[i].disk) == SavedClaims(states[0].disk)
  {
    if i != 0 {
      StartsKeepState(cfg, states, events, i - 1);
      assert Transition(cfg, states[i - 1], events[i - 1], states[i]);
      TransitionKeepsGood(cfg, states[i - 1], events[i - 1], states[i]);
      if events[i - 1].StartEvent? {
        StartKeepsGood(cfg, states[i - 1], states[i]);
      }
    }
  }

  /**
   What was acknowledged is durable: whatever a driver holds while it is up, the first
   successful start after any kills and failed starts brings back exactly that.
   */
  lemma AcknowledgedIsDurable(cfg: Config, states: seq<System>, events: seq<Event>, recovered: System)
    requires IsRun(cfg, states, events) && Good(cfg, states[0]) && states[0].memory.Some?
    requires forall j :: 0 <= j < |events| ==> events[j].StartEvent? || events[j].KillEvent?
    requires Transition(cfg, states[|events|], StartEvent, recovered) && recovered.memory.Some?
    ensures recovered.memory == states[0].memory
    ensures CdiWritten(cfg, recovered.memory.value.prepared, recovered.disk)
  {
    StartsKeepState(cfg, states, events, |events|);
    StartKeepsGood(cfg, states[|events|], recovered);
    InverseUnique(recovered.memory.value, states[0].memory.value);
  }

  /**
   Whenever an operation is cut short, then after any number of failed restarts the first
   successful one brings back exactly the memory before the operation or exactly the memory
   the operation was to produce, with a CDI file written for every reloaded claim; and if the
   operation returned, exactly the memory it returned with.
   */
  lemma RecoveryIsBeforeOrAfter(cfg: Config, s: System, e: Event, states: seq<System>, events: seq<Event>,
                                recovered: System)
    requires Good(cfg, s) && s.memory.Some?
    requires e.PrepareEvent? || e.UnprepareEvent?
    requires IsRun(cfg, states, events) && Transition(cfg, s, e, states[0])
    requires forall j :: 0 <= j < |events| ==> events[j].StartEvent? || events[j].KillEvent?
    requires Transition(cfg, states[|events|], StartEvent, recovered) && recovered.memory.Some?
    ensures recovered.memory == s.memory || Intended(cfg, e, s.memory.value.prepared, recovered.memory.value.prepared)
    ensures states[0].memory.Some? ==> recovered.memory == states[0].memory
    ensures Inverse(recovered.memory.value) && CdiWritten(cfg, recovered.memory.value.prepared, recovered.disk)
  {
    if states[0].memory.Some? {
      TransitionKeepsGood(cfg, s, e, states[0]);
      AcknowledgedIsDurable(cfg, states, events, recovered);
    }
    OperationsAreAtomic(cfg, s, e, states[0]);
    TransitionKeepsGood(cfg, s, e, states[0]);
    StartsKeepState(cfg, states, events, |events|);
    StartKeepsGood(cfg, states[|events|], recovered);
    if recovered.memory.value.prepared == s.memory.value.prepared {
      InverseUnique(recovered.memory.value, s.memory.value);
    }
  }

  // ----- claims that name a device twice -----

  /**
   prepareClaim accepts a claim that names a device twice.  If no claim prepared before does,
   the state file it then writes can be loaded again if and only if this one does not either:
   then only file faults stand in the way of a start, and otherwise no start succeeds.
   */
  lemma RestartableIffNoRepeat(cfg: Config, claim: Claim, s: System, devices: seq<AllocatedDevice>,
                               m': Memory, disk': Disk, ds: seq<KubeletDevice>)
    requires Good(cfg, s) && s.memory.Some? && claim.uid !in s.memory.value.prepared
    requires NoRepeat(s.memory.value.prepared)
    requires PrepareDone(cfg, claim, devices, s.memory.value, s.disk, m', disk', ds)
    ensures AllocatesOnce(cfg, claim) <==> CanLoad(cfg, disk')
    ensures AllocatesOnce(cfg, claim) <==> OnlyFilesFail(cfg, disk')
  {
    assert GoodDisk(disk') by {
      PreparedGood(cfg, claim, devices, s.memory.value, s.disk, m', disk', ds);
    }
    assert AllocatesOnce(cfg, claim) <==> NoRepeat(SavedClaims(disk')) by {
      KeysDistinct(cfg, claim, devices);
      NewRepeats(s.memory.value.prepared, NewClaim(cfg, claim, devices));
      assert SavedClaims(disk') == m'.prepared;
    }
    LoadableIffNoRepeat(cfg, disk');
  }

  lemma NewRepeats(claims: map<string, PreparedClaim>, p: PreparedClaim)
    requires NoRepeat(claims) && p.uid !in claims
    ensures NoRepeat(claims[p.uid := p]) <==> Distinct(KeyList(p.devices))
  {
    assert p.uid in claims[p.uid := p];
  }

  /** Such a claim: one device listed under two requests. */
  lemma RepeatedDeviceAccepted(cfg: Config)
    ensures !AllocatesOnce(cfg, TwiceListed(cfg))
    ensures exists devices, m, disk, ds ::
              PrepareDone(cfg, TwiceListed(cfg), devices, Memory(map[], map[]), map[], m, disk, ds)
  {
    var claim := TwiceListed(cfg);
    var devices := [AllocatedDevice("a", cfg.nodeName, "gpu0", ""), AllocatedDevice("b", cfg.nodeName, "gpu0", "")];
    assert Mine(cfg, claim.allocation.value) == devices by {
      TwiceMine(cfg);
    }
    assert DeviceKey(devices[0]) == DeviceKey(devices[1]);
    assert Allocates(cfg, claim, devices) by {
      LessIrreflexive("gpu0");
    }
    var p := NewClaim(cfg, claim, devices);
    var m := Holding(Memory(map[], map[]), p);
    var empty: Disk := map[];
    var disk := WithState(empty[p.cdiFile := CdiFor(cfg, p)], m.prepared);
    assert PrepareDone(cfg, claim, devices, Memory(map[], map[]), empty, m, disk, KubeletDevices(p));
  }

  function ResultFor(cfg: Config, request: string): AllocationResult {
    AllocationResult(cfg.driverName, cfg.nodeName, "gpu0", request, None)
  }

  function TwiceListed(cfg: Config): Claim {
    Claim("default", "twice", "uid", Some([ResultFor(cfg, "a"), ResultFor(cfg, "b")]))
  }

  lemma TwiceMine(cfg: Config)
    ensures Mine(cfg, TwiceListed(cfg).allocation.value) ==
            [AllocatedDevice("a", cfg.nodeName, "gpu0", ""), AllocatedDevice("b", cfg.nodeName, "gpu0", "")]
  {
    var results := [ResultFor(cfg, "a"), ResultFor(cfg, "b")];
    assert results[..1] == [ResultFor(cfg, "a")] && results[..1][..0] == [];
    assert Mine(cfg, results[..1]) == [AllocatedDevice("a", cfg.nodeName, "gpu0", "")];
  }

}
