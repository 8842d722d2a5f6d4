/**
 pkg/plugin/topologyfit/ledger.go: advisory reservations, kept by pod and by device.  Each
 method runs under the ledger's lock, so each is one atomic step.
 */
module Ledger {
  import opened Orders

  datatype Reservation = Reservation(podKey: string, nodeName: string, deviceIds: seq<string>)

  datatype Refusal =
    | KeysRequired
    | ReservedElsewhere(nodeName: string)
    | NoCombination
    | EmptyDeviceId
    | DuplicateDeviceId(id: string)
    | AlreadyOwned(id: string, owner: string)

  /** The two maps: reservations by pod, and owners by node and device. */
  datatype State = State(byPod: map<string, Reservation>, deviceOwner: map<string, map<string, string>>)

  const EMPTY := State(map[], map[])

  function OwnersOn(l: State, node: string): map<string, string> {
    if node in l.deviceOwner then l.deviceOwner[node] else map[]
  }

  function Blocked(l: State, node: string): set<string> {
    OwnersOn(l, node).Keys
  }

  /** What Filter excludes: devices on the node owned by other pods. */
  function BlockedForOthers(l: State, node: string, pod: string): set<string> {
    set d | d in OwnersOn(l, node) && OwnersOn(l, node)[d] != pod
  }

  // ----- the invariant -----

  ghost predicate ProperReservation(p: string, r: Reservation) {
    && p != "" && r.podKey == p && r.nodeName != ""
    && r.deviceIds != [] && Distinct(r.deviceIds) && "" !in r.deviceIds
  }

  /** Every reserved device is owned by its pod. */
  ghost predicate Recorded(l: State) {
    forall p, d :: p in l.byPod && d in l.byPod[p].deviceIds ==>
      d in OwnersOn(l, l.byPod[p].nodeName) && OwnersOn(l, l.byPod[p].nodeName)[d] == p
  }

  /** Every owned device is reserved by its owner. */
  ghost predicate Backed(l: State) {
    forall n, d :: d in OwnersOn(l, n) ==>
      var p := OwnersOn(l, n)[d];
      p in l.byPod && l.byPod[p].nodeName == n && d in l.byPod[p].deviceIds
  }

  /** The maps are mutual inverses, and no inner map is empty. */
  ghost predicate Consistent(l: State) {
    && (forall p :: p in l.byPod ==> ProperReservation(p, l.byPod[p]))
    && Recorded(l)
    && Backed(l)
    && (forall n :: n in l.deviceOwner ==> l.deviceOwner[n] != map[])
  }

  // ----- Reserve and Release on values -----

  /** The checks made on the selector's answer. */
  predicate Grantable(l: State, node: string, ids: seq<string>) {
    ids != [] && Unowned(OwnersOn(l, node), ids)
  }

  /** Proper IDs, without repetition, none of which has an owner. */
  predicate Unowned(owners: map<string, string>, ids: seq<string>) {
    && (forall i :: 0 <= i < |ids| ==> ids[i] != "" && (ids[i] !in owners || owners[ids[i]] == ""))
    && (forall i, j :: 0 <= i < j < |ids| ==> ids[i] != ids[j])
  }

  ghost predicate FaultIn(owners: map<string, string>, ids: seq<string>, e: Refusal) {
    match e
    case EmptyDeviceId => "" in ids
    case DuplicateDeviceId(id) => exists i, j :: 0 <= i < j < |ids| && ids[i] == id == ids[j]
    case AlreadyOwned(id, owner) => id in ids && id in owners && owners[id] == owner != ""
    case _ => false
  }

  method CheckSelection(owners: map<string, string>, ids: seq<string>) returns (fault: Option<Refusal>)
    ensures fault.None? <==> Unowned(owners, ids)
    ensures fault.Some? ==> FaultIn(owners, ids, fault.value)
  {
    var seen: set<string> := {};
    for i := 0 to |ids|
      invariant seen == set j | 0 <= j < i :: ids[j]
      invariant Unowned(owners, ids[..i])
    {
      var id := ids[i];
      assert ids[..i + 1] == ids[..i] + [id];
      if id == "" {
        return Some(EmptyDeviceId);
      }
      if id in seen {
        return Some(DuplicateDeviceId(id));
      }
      seen := seen + {id};
      if id in owners && owners[id] != "" {
        return Some(AlreadyOwned(id, owners[id]));
      }
    }
    assert ids[..|ids|] == ids;
    return None;
  }

  method RecordOwners(owners: map<string, string>, ids: seq<string>, pod: string) returns (updated: map<string, string>)
    ensures updated == owners + (map d | d in ids :: pod)
  {
    updated := owners;
    for i := 0 to |ids|
      invariant updated == owners + (map d | d in ids[..i] :: pod)
    {
      assert ids[..i + 1] == ids[..i] + [ids[i]];
      updated := updated[ids[i] := pod];
    }
    assert ids[..|ids|] == ids;
  }

  function Granted(l: State, pod: string, node: string, ids: seq<string>): State {
    State(
      l.byPod[pod := Reservation(pod, node, ids)],
      l.deviceOwner[node := OwnersOn(l, node) + (map d | d in ids :: pod)])
  }

  predicate Accepts(l: State, pod: string, node: string, ids: seq<string>) {
    && pod != "" && node != ""
    && if pod in l.byPod then l.byPod[pod].nodeName == node else Grantable(l, node, ids)
  }

  function AfterReserve(l: State, pod: string, node: string, ids: seq<string>): State {
    if Accepts(l, pod, node, ids) && pod !in l.byPod then Granted(l, pod, node, ids) else l
  }

  function AfterRelease(l: State, pod: string): State {
    if pod !in l.byPod then l
    else
      var r := l.byPod[pod];
      var rest := OwnersOn(l, r.nodeName) - Elements(r.deviceIds);
      State(l.byPod - {pod}, if rest == map[] then l.deviceOwner - {r.nodeName} else l.deviceOwner[r.nodeName := rest])
  }

  ghost predicate RefusalJustified(l: State, pod: string, node: string, ids: seq<string>, e: Refusal) {
    match e
    case KeysRequired => pod == "" || node == ""
    case ReservedElsewhere(n) => pod in l.byPod && l.byPod[pod].nodeName == n != node
    case NoCombination => ids == []
    case _ => FaultIn(OwnersOn(l, node), ids, e)
  }

  // ----- the ledger -----

  class ReservationLedger {
    var byPod: map<string, Reservation>
    var deviceOwner: map<string, map<string, string>>

    ghost function Now(): State
      reads this
    {
      State(byPod, deviceOwner)
    }

    constructor ()
      ensures Now() == EMPTY
    {
      byPod := map[];
      deviceOwner := map[];
    }

    method Reserve(pod: string, node: string, select: set<string> -> seq<string>)
      returns (r: Result<Reservation, Refusal>)
      modifies this
      ensures Now() == AfterReserve(old(Now()), pod, node, select(Blocked(old(Now()), node)))
      ensures r.Ok? <==> Accepts(old(Now()), pod, node, select(Blocked(old(Now()), node)))
      ensures r.Ok? ==> pod in byPod && r.value == byPod[pod]
      ensures r.Err? ==> RefusalJustified(old(Now()), pod, node, select(Blocked(old(Now()), node)), r.error)
    {
      if pod == "" || node == "" {
        return Err(KeysRequired);
      }
      if pod in byPod {
        var existing := byPod[pod];
        if existing.nodeName != node {
          return Err(ReservedElsewhere(existing.nodeName));
        }
        return Ok(existing);
      }
      var owners := if node in deviceOwner then deviceOwner[node] else map[];
      var ids := select(owners.Keys);
      if |ids| == 0 {
        return Err(NoCombination);
      }
      var fault := CheckSelection(owners, ids);
      if fault.Some? {
        return Err(fault.value);
      }
      var created := Reservation(pod, node, ids);
      byPod := byPod[pod := created];
      var updated := RecordOwners(owners, ids, pod);
      deviceOwner := deviceOwner[node := updated];
      return Ok(created);
    }

    method Release(pod: string)
      modifies this
      ensures Now() == AfterRelease(old(Now()), pod)
    {
      if pod !in byPod {
        return;
      }
      var reserved := byPod[pod];
      var node := reserved.nodeName;
      byPod := byPod - {pod};
      var owners := if node in deviceOwner then deviceOwner[node] else map[];
      var rest := owners;
      for i := 0 to |reserved.deviceIds|
        invariant rest == owners - Elements(reserved.deviceIds[..i])
      {
        assert reserved.deviceIds[..i + 1] == reserved.deviceIds[..i] + [reserved.deviceIds[i]];
        rest := rest - {reserved.deviceIds[i]};
      }
      assert reserved.deviceIds[..|reserved.deviceIds|] == reserved.deviceIds;
      if |rest| == 0 {
        assert rest == map[];
        deviceOwner := deviceOwner - {node};
      } else {
        deviceOwner := deviceOwner[node := rest];
      }
    }

    method Get(pod: string) returns (r: Option<Reservation>)
      ensures r == if pod in byPod then Some(byPod[pod]) else None
    {
      r := if pod in byPod then Some(byPod[pod]) else None;
    }

    method ReservedDeviceIds(node: string, excluded: string) returns (reserved: set<string>)
      ensures reserved == BlockedForOthers(Now(), node, excluded)
    {
      var owners := if node in deviceOwner then deviceOwner[node] else map[];
      reserved := {};
      var rest := owners.Keys;
      while rest != {}
        invariant rest <= owners.Keys
        invariant reserved == set d | d in owners && d !in rest && owners[d] != excluded
        decreases rest
      {
        var d :| d in rest;
        rest := rest - {d};
        if owners[d] != excluded {
          reserved := reserved + {d};
        }
      }
    }
  }

  // ----- every step keeps the invariant -----

  lemma OwnersNonempty(l: State, node: string)
    requires Consistent(l)
    ensures forall d :: d in OwnersOn(l, node) ==> OwnersOn(l, node)[d] != ""
  {
    forall d | d in OwnersOn(l, node)
      ensures OwnersOn(l, node)[d] != ""
    {
      assert ProperReservation(OwnersOn(l, node)[d], l.byPod[OwnersOn(l, node)[d]]);
    }
  }

  lemma GrantedRecorded(l: State, pod: string, node: string, ids: seq<string>)
    requires Consistent(l) && pod !in l.byPod && Grantable(l, node, ids)
    ensures Recorded(Granted(l, pod, node, ids))
  {
    var m := Granted(l, pod, node, ids);
    OwnersNonempty(l, node);
    forall p, d | p in m.byPod && d in m.byPod[p].deviceIds
      ensures d in OwnersOn(m, m.byPod[p].nodeName) && OwnersOn(m, m.byPod[p].nodeName)[d] == p
    {
      if p != pod {
        assert d in OwnersOn(l, l.byPod[p].nodeName) && OwnersOn(l, l.byPod[p].nodeName)[d] == p;
      }
    }
  }

  lemma GrantedBacked(l: State, pod: string, node: string, ids: seq<string>)
    requires Consistent(l) && pod !in l.byPod && Grantable(l, node, ids)
    ensures Backed(Granted(l, pod, node, ids))
  {
    var m := Granted(l, pod, node, ids);
    forall n, d | d in OwnersOn(m, n)
      ensures var p := OwnersOn(m, n)[d]; p in m.byPod && m.byPod[p].nodeName == n && d in m.byPod[p].deviceIds
    {
      if n != node || d !in ids {
        assert d in OwnersOn(l, n) && OwnersOn(m, n)[d] == OwnersOn(l, n)[d];
      }
    }
  }

  lemma GrantedConsistent(l: State, pod: string, node: string, ids: seq<string>)
    requires Consistent(l) && pod != "" && node != "" && pod !in l.byPod && Grantable(l, node, ids)
    ensures Consistent(Granted(l, pod, node, ids))
  {
    GrantedRecorded(l, pod, node, ids);
    GrantedBacked(l, pod, node, ids);
    assert ids[0] in OwnersOn(Granted(l, pod, node, ids), node);
  }

  lemma ReleasedConsistent(l: State, pod: string)
    requires Consistent(l)
    ensures Consistent(AfterRelease(l, pod))
  {
    if pod in l.byPod {
      var m := AfterRelease(l, pod);
      forall p, d | p in m.byPod && d in m.byPod[p].deviceIds
        ensures d in OwnersOn(m, m.byPod[p].nodeName) && OwnersOn(m, m.byPod[p].nodeName)[d] == p
      {
        var n := l.byPod[p].nodeName;
        assert d in OwnersOn(l, n) && OwnersOn(l, n)[d] == p;
        if n == l.byPod[pod].nodeName {
          NotShared(l, p, pod, d);
        }
      }
      forall n, d | d in OwnersOn(m, n)
        ensures var p := OwnersOn(m, n)[d]; p in m.byPod && m.byPod[p].nodeName == n && d in m.byPod[p].deviceIds
      {
        assert d in OwnersOn(l, n) && OwnersOn(m, n)[d] == OwnersOn(l, n)[d];
      }
    }
  }

  /** Two pods never hold the same device of a node. */
  lemma NotShared(l: State, p: string, q: string, d: string)
    requires Consistent(l) && p in l.byPod && q in l.byPod && p != q && l.byPod[p].nodeName == l.byPod[q].nodeName
    requires d in l.byPod[p].deviceIds
    ensures d !in l.byPod[q].deviceIds
  {
    assert OwnersOn(l, l.byPod[p].nodeName)[d] == p;
  }

  /** Reserve keeps the maps consistent, and changes nothing when it fails. */
  lemma ReserveKeepsConsistent(l: State, pod: string, node: string, ids: seq<string>)
    requires Consistent(l)
    ensures Consistent(AfterReserve(l, pod, node, ids))
    ensures !Accepts(l, pod, node, ids) ==> AfterReserve(l, pod, node, ids) == l
  {
    if Accepts(l, pod, node, ids) && pod !in l.byPod {
      GrantedConsistent(l, pod, node, ids);
    }
  }

  /** Release exactly undoes a Reserve that created a reservation. */
  lemma ReleaseUndoesReserve(l: State, pod: string, node: string, ids: seq<string>)
    requires Consistent(l) && pod !in l.byPod && Accepts(l, pod, node, ids)
    ensures AfterRelease(AfterReserve(l, pod, node, ids), pod) == l
  {
    GrantedOwners(l, pod, node, ids);
    DeviceOwnerRestored(l.deviceOwner, node, OwnersOn(Granted(l, pod, node, ids), node));
    assert Granted(l, pod, node, ids).byPod - {pod} == l.byPod;
  }

  lemma GrantedOwners(l: State, pod: string, node: string, ids: seq<string>)
    requires Consistent(l) && Grantable(l, node, ids)
    ensures OwnersOn(Granted(l, pod, node, ids), node) - Elements(ids) == OwnersOn(l, node)
  {
    OwnersNonempty(l, node);
  }

  /** Putting a node's inner map back, or dropping it when it was absent, restores the outer map. */
  lemma DeviceOwnerRestored(owners: map<string, map<string, string>>, node: string, inner: map<string, string>)
    requires node in owners ==> owners[node] != map[]
    ensures if node in owners then owners[node := inner][node := owners[node]] == owners
            else owners[node := inner] - {node} == owners
  {
  }

  /** After Release, the pod holds nothing on any node. */
  lemma NothingHeldAfterRelease(l: State, pod: string)
    requires Consistent(l)
    ensures pod !in AfterRelease(l, pod).byPod
    ensures forall n, d :: d in OwnersOn(AfterRelease(l, pod), n) ==> OwnersOn(AfterRelease(l, pod), n)[d] != pod
  {
    ReleasedConsistent(l, pod);
  }
}
