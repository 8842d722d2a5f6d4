/**
 pkg/discovery/agent.go and pkg/controller/topology/controller.go: several writers of one
 versioned object.  The API server applies a write only when its resource version is current,
 raises the generation exactly when the spec changes, and keeps the status endpoint and the
 main endpoint from writing each other's part.
 */
module Protocol {
  import opened Orders
  import opened GoIntegers
  import opened Api
  import opened Topology

  // ----- the API server -----

  /** The stored object, and the last resource version handed out. */
  datatype Server = Server(stored: Option<TopologyObject>, clock: int)

  /** What a caller hears; after Unavailable the write may or may not have been applied. */
  datatype Answer = Accepted | NotFound | Conflict | AlreadyExists | Unavailable

  /** metav1.Time is stored with a precision of one second. */
  function StoredTime(t: int): int { t - t % SECOND }

  function StoredStatus(s: TopologyStatus): TopologyStatus {
    match s.lastHeartbeat
    case None => s
    case Some(t) => s.(lastHeartbeat := Some(StoredTime(t)))
  }

  /** An empty link list is omitted from the stored form, and reads back as a nil one. */
  function StoredSpec(spec: TopologySpec): TopologySpec {
    spec.(linksNil := spec.links == [])
  }

  function Created(sv: Server, topo: TopologyObject): Server {
    if sv.stored.Some? then sv
    else Server(Some(topo.(resourceVersion := sv.clock + 1, generation := 1, spec := StoredSpec(topo.spec),
                           status := TopologyStatus(None, None))),
                sv.clock + 1)
  }

  predicate Current(sv: Server, topo: TopologyObject) {
    sv.stored.Some? && sv.stored.value.resourceVersion == topo.resourceVersion
  }

  function Updated(sv: Server, topo: TopologyObject): Server {
    if !Current(sv, topo) then sv
    else
      var before := sv.stored.value;
      Server(Some(topo.(resourceVersion := sv.clock + 1,
                        generation := if StoredSpec(topo.spec) == before.spec then before.generation
                                      else before.generation + 1,
                        spec := StoredSpec(topo.spec),
                        status := before.status)),
             sv.clock + 1)
  }

  function StatusUpdated(sv: Server, topo: TopologyObject): Server {
    if !Current(sv, topo) then sv
    else
      var before := sv.stored.value;
      Server(Some(before.(resourceVersion := sv.clock + 1, status := StoredStatus(topo.status))), sv.clock + 1)
  }

  function Removed(sv: Server): Server {
    Server(None, sv.clock + 1)
  }

  // ----- the agent -----

  const MANAGER := "accelerator-topology-discovery"

  /** specContentEqual: everything but the observed generation, down to nil against empty link lists. */
  predicate SameContent(x: TopologySpec, y: TopologySpec) {
    x.(observedGeneration := 0) == y.(observedGeneration := 0)
  }

  /** The same topology once stored. */
  predicate SameStoredContent(x: TopologySpec, y: TopologySpec) {
    SameContent(StoredSpec(x), StoredSpec(y))
  }

  /** int64 increment that falls back to 1 when it leaves the positive range. */
  function NextGeneration(g: int): int {
    var next := Wrap64(g + 1);
    if next < 1 then 1 else next
  }

  /** validateOwnership */
  predicate MayWrite(current: TopologyObject, discovered: TopologySpec, provider: string) {
    && (current.managedBy == "" || current.managedBy == MANAGER)
    && (current.provider == "" || current.provider == provider)
    && (current.managedBy != "" || SameContent(current.spec, discovered))
  }

  /** What the agent writes after reading the current object. */
  function Reconciled(current: TopologyObject, discovered: TopologySpec, provider: string): TopologyObject {
    current.(
      spec := if SameContent(current.spec, discovered) then current.spec
              else discovered.(observedGeneration := NextGeneration(current.spec.observedGeneration)),
      managedBy := MANAGER,
      provider := provider)
  }

  function FirstVersion(discovered: TopologySpec, provider: string): TopologyObject {
    TopologyObject(0, 0, MANAGER, provider, discovered.(observedGeneration := 1), TopologyStatus(None, None))
  }

  // ----- the status controller -----

  const HEARTBEAT_INTERVAL := 30 * SECOND

  function ReadyCondition(topo: TopologyObject, message: string): Condition {
    if Acceptable(topo.spec)
    then Condition(ConditionTrue, topo.generation, "ValidTopology", "topology graph passed validation")
    else Condition(ConditionFalse, topo.generation, "InvalidTopology", message)
  }

  /** sync has nothing to write: the condition is current and the heartbeat young. */
  predicate UpToDate(topo: TopologyObject, now: int, message: string) {
    && topo.status.ready == Some(ReadyCondition(topo, message))
    && topo.status.lastHeartbeat.Some?
    && now - topo.status.lastHeartbeat.value < HEARTBEAT_INTERVAL
  }

  function Synced(topo: TopologyObject, now: int, message: string): TopologyObject {
    topo.(status := TopologyStatus(Some(ReadyCondition(topo, message)), Some(now)))
  }

  // ----- steps of all writers -----

  /** The server, and every version of the object that was ever stored. */
  datatype World = World(server: Server, versions: set<TopologyObject>)

  datatype Step =
    | AgentCreate(discovered: TopologySpec, provider: string)
    | AgentUpdate(read: TopologyObject, discovered: TopologySpec, provider: string)
    | StatusWrite(cached: TopologyObject, now: int, message: string)
    | OtherWrite(topo: TopologyObject)
    | Remove

  /** Agents and controllers act on some version they once read; informers may deliver any of them. */
  predicate Enabled(w: World, step: Step) {
    match step
    case AgentUpdate(read, discovered, provider) => read in w.versions && MayWrite(read, discovered, provider)
    case StatusWrite(cached, _, _) => cached in w.versions
    case _ => true
  }

  function ServerAfter(sv: Server, step: Step): Server {
    match step
    case AgentCreate(discovered, provider) => Created(sv, FirstVersion(discovered, provider))
    case AgentUpdate(read, discovered, provider) => Updated(sv, Reconciled(read, discovered, provider))
    case StatusWrite(cached, now, message) =>
      if UpToDate(cached, now, message) then sv else StatusUpdated(sv, Synced(cached, now, message))
    case OtherWrite(topo) => Updated(sv, topo)
    case Remove => Removed(sv)
  }

  function Recorded(versions: set<TopologyObject>, sv: Server): World {
    World(sv, if sv.stored.Some? then versions + {sv.stored.value} else versions)
  }

  function Next(w: World, step: Step): World {
    if Enabled(w, step) then Recorded(w.versions, ServerAfter(w.server, step)) else w
  }

  function RunFrom(w: World, steps: seq<Step>): World {
    if steps == [] then w else Next(RunFrom(w, steps[..|steps| - 1]), steps[|steps| - 1])
  }

  lemma {:induction false} RunConcat(w: World, x: seq<Step>, y: seq<Step>)
    ensures RunFrom(RunFrom(w, x), y) == RunFrom(w, x + y)
  {
    if y == [] {
      assert x + y == x;
    } else {
      var n := |y| - 1;
      RunConcat(w, x, y[..n]);
      assert (x + y)[..|x + y| - 1] == x + y[..n];
    }
  }

  // ----- the writers as programs -----

  /** A request is answered, lost on its way, or carried out without an answer. */
  datatype Fate = Heard | Lost | Unheard

  class ApiServer {
    var server: Server
    var versions: set<TopologyObject>

    ghost function Now(): World
      reads this
    {
      World(server, versions)
    }

    /** Reads the object, unless the server cannot be reached. */
    method Get() returns (r: Result<Option<TopologyObject>, Answer>)
      ensures r.Ok? ==> r.value == server.stored
      ensures r.Err? ==> r.error.Unavailable?
    {
      var reached: bool := *;
      r := if reached then Ok(server.stored) else Err(Unavailable);
    }

    method Create(topo: TopologyObject) returns (a: Answer)
      modifies this
      ensures a.Accepted? ==> old(server).stored.None?
      ensures a.AlreadyExists? ==> old(server).stored.Some?
      ensures a.Accepted? || a.AlreadyExists? || a.Unavailable?
      ensures || (server == Created(old(server), topo) && Now() == Recorded(old(versions), server))
              || (a.Unavailable? && Now() == old(Now()))
    {
      var fate: Fate := *;
      if fate.Lost? {
        return Unavailable;
      }
      a := if fate.Unheard? then Unavailable else if server.stored.Some? then AlreadyExists else Accepted;
      server := Created(server, topo);
      versions := Recorded(versions, server).versions;
    }

    method Update(topo: TopologyObject) returns (a: Answer)
      modifies this
      ensures a.Accepted? ==> Current(old(server), topo)
      ensures a.NotFound? ==> old(server).stored.None?
      ensures a.Conflict? ==> old(server).stored.Some? && !Current(old(server), topo)
      ensures !a.AlreadyExists?
      ensures || (server == Updated(old(server), topo) && Now() == Recorded(old(versions), server))
              || (a.Unavailable? && Now() == old(Now()))
    {
      var fate: Fate := *;
      if fate.Lost? {
        return Unavailable;
      }
      a := if fate.Unheard? then Unavailable
           else if server.stored.None? then NotFound
           else if !Current(server, topo) then Conflict
           else Accepted;
      server := Updated(server, topo);
      versions := Recorded(versions, server).versions;
    }

    method UpdateStatus(topo: TopologyObject) returns (a: Answer)
      modifies this
      ensures a.Accepted? ==> Current(old(server), topo)
      ensures || (server == StatusUpdated(old(server), topo) && Now() == Recorded(old(versions), server))
              || (a.Unavailable? && Now() == old(Now()))
    {
      var fate: Fate := *;
      if fate.Lost? {
        return Unavailable;
      }
      a := if fate.Unheard? then Unavailable
           else if server.stored.None? then NotFound
           else if !Current(server, topo) then Conflict
           else Accepted;
      server := StatusUpdated(server, topo);
      versions := Recorded(versions, server).versions;
    }

    /** Everybody else, for any number of steps. */
    method Interfere() returns (ghost steps: seq<Step>)
      modifies this
      ensures Now() == RunFrom(old(Now()), steps)
      ensures old(versions) <= versions
    {
      steps := [];
      var rounds: nat := *;
      while rounds > 0
        invariant Now() == RunFrom(old(Now()), steps)
        invariant old(versions) <= versions
      {
        var step: Step := *;
        assert (steps + [step])[..|steps|] == steps;
        steps := steps + [step];
        var w := Next(World(server, versions), step);
        server, versions := w.server, w.versions;
        rounds := rounds - 1;
      }
    }
  }

  /** The stored object is among the versions ever stored. */
  predicate Remembers(w: World) {
    w.server.stored.Some? ==> w.server.stored.value in w.versions
  }

  lemma {:induction false} RunRemembers(w: World, steps: seq<Step>)
    requires Remembers(w)
    ensures Remembers(RunFrom(w, steps)) && w.versions <= RunFrom(w, steps).versions
  {
    if steps != [] { RunRemembers(w, steps[..|steps| - 1]); }
  }

  datatype ReconcileResult = Reconciliation | DiscoveryFailed | WrongNode | NotOwner | ApiFailure(answer: Answer)

  const RETRY_STEPS := 5

  /** Agent.Reconcile: read, decide, write; retried on conflict while all other writers keep going. */
  method Reconcile(api: ApiServer, found: Option<TopologySpec>, provider: string, nodeName: string)
    returns (r: ReconcileResult, ghost steps: seq<Step>, ghost conflicts: nat)
    requires Remembers(api.Now())
    modifies api
    ensures api.Now() == RunFrom(old(api.Now()), steps)
    ensures conflicts <= 5 && (r == ApiFailure(Conflict) <==> conflicts == 5)
    ensures r.DiscoveryFailed? || r.WrongNode? ==> steps == []
    ensures r.ApiFailure? ==> !r.answer.Accepted?
    ensures r.NotOwner? ==> found.Some? && exists read :: read in api.versions && !MayWrite(read, found.value, provider)
    ensures r.Reconciliation? ==>
              && found.Some? && found.value.nodeName == nodeName
              && api.server.stored.Some?
              && SameStoredContent(api.server.stored.value.spec, found.value)
              && api.server.stored.value.managedBy == MANAGER && api.server.stored.value.provider == provider
  {
    steps := [];
    if found.None? {
      return DiscoveryFailed, steps, 0;
    }
    var discovered := found.value;
    if discovered.nodeName != nodeName {
      return WrongNode, steps, 0;
    }
    var attempts := 0;
    while attempts < RETRY_STEPS
      invariant attempts <= RETRY_STEPS
      invariant api.Now() == RunFrom(old(api.Now()), steps)
    {
      ghost var before := api.Interfere();
      RunConcat(old(api.Now()), steps, before);
      steps := steps + before;
      RunRemembers(old(api.Now()), steps);
      var got := api.Get();
      if got.Err? {
        return ApiFailure(got.error), steps, attempts;
      }
      var current := got.value;
      ghost var between := api.Interfere();
      RunConcat(old(api.Now()), steps, between);
      steps := steps + between;
      ghost var w := api.Now();
      if current.None? {
        var answer := api.Create(FirstVersion(discovered, provider));
        if api.Now() != w {
          assert api.Now() == Next(w, AgentCreate(discovered, provider));
          steps := Extended(old(api.Now()), steps, AgentCreate(discovered, provider));
        }
        return if answer.Accepted? then Reconciliation else ApiFailure(answer), steps, attempts;
      }
      if !MayWrite(current.value, discovered, provider) {
        return NotOwner, steps, attempts;
      }
      var answer := api.Update(Reconciled(current.value, discovered, provider));
      if api.Now() != w {
        assert api.Now() == Next(w, AgentUpdate(current.value, discovered, provider));
        steps := Extended(old(api.Now()), steps, AgentUpdate(current.value, discovered, provider));
      }
      if answer.Accepted? {
        return Reconciliation, steps, attempts;
      }
      if !answer.Conflict? {
        return ApiFailure(answer), steps, attempts;
      }
      attempts := attempts + 1;
    }
    return ApiFailure(Conflict), steps, attempts;
  }

  ghost function Extended(w: World, steps: seq<Step>, step: Step): (r: seq<Step>)
    ensures RunFrom(w, r) == Next(RunFrom(w, steps), step)
  {
    assert (steps + [step])[..|steps|] == steps;
    steps + [step]
  }

  /** Controller.sync on the lister's version of the object. */
  method Sync(api: ApiServer, cached: Option<TopologyObject>, now: int, errorText: string) returns (ok: bool)
    requires cached.Some? ==> cached.value in api.versions
    modifies api
    ensures cached.None? ==> ok && api.Now() == old(api.Now())
    ensures cached.Some? && Remembers(old(api.Now())) ==>
              || api.Now() == Next(old(api.Now()), StatusWrite(cached.value, now, errorText))
              || (!ok && api.Now() == old(api.Now()))
    ensures cached.Some? && ok ==> UpToDate(cached.value, now, errorText) || Current(old(api.server), cached.value)
  {
    if cached.None? {
      return true;
    }
    var topo := cached.value;
    var condition := Condition(ConditionTrue, topo.generation, "ValidTopology", "topology graph passed validation");
    var built := Build(topo.spec);
    if built.Err? {
      condition := Condition(ConditionFalse, topo.generation, "InvalidTopology", errorText);
    }
    assert condition == ReadyCondition(topo, errorText);
    if topo.status.ready == Some(condition) && topo.status.lastHeartbeat.Some?
       && now - topo.status.lastHeartbeat.value < HEARTBEAT_INTERVAL {
      return true;
    }
    var answer := api.UpdateStatus(topo.(status := TopologyStatus(Some(condition), Some(now))));
    return answer.Accepted?;
  }
}
