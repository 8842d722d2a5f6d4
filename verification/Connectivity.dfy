/**
 selectFabricConnected of pkg/plugin/topologyfit/selection.go: a bounded breadth-first search
 from each device in turn, proved exact with respect to connected components.
 */
module Connectivity {
  import opened Orders
  import opened Paths
  import opened Cliques

  // ----- the search -----

  function Unvisited(g: Graph, ids: seq<string>, visited: set<string>, current: string): seq<string> {
    Filter(ids, c => c !in visited && g(current, c))
  }

  /** Sorted by insertion; sort.Strings yields the same list, since equal strings are indistinguishable. */
  function SortedStrings(s: seq<string>): (r: seq<string>)
    ensures multiset(r) == multiset(s)
  {
    if s == [] then []
    else
      assert s == [s[0]] + s[1..];
      InsertString(SortedStrings(s[1..]), s[0])
  }

  function InsertString(s: seq<string>, x: string): (r: seq<string>)
    ensures multiset(r) == multiset(s) + multiset{x}
  {
    if s == [] || AtMost(x, s[0]) then [x] + s
    else
      assert s == [s[0]] + s[1..];
      [s[0]] + InsertString(s[1..], x)
  }

  /** The breadth-first loop: queue, selected and visited change together. */
  function Explore(g: Graph, ids: seq<string>, k: nat, visited: set<string>, queue: seq<string>,
                   selected: seq<string>): seq<string>
    decreases k - |selected|
  {
    if queue == [] || |selected| >= k then selected
    else
      var neighbors := SortedStrings(Unvisited(g, ids, visited, queue[0]));
      Explore(g, ids, k, visited + Elements(neighbors), queue[1..] + neighbors, selected + [queue[0]])
  }

  function ExploreFrom(g: Graph, ids: seq<string>, k: nat, start: string): seq<string> {
    Explore(g, ids, k, {start}, [start], [])
  }

  /** Tries every start in order; the empty list when none yields k devices. */
  function FirstConnected(g: Graph, ids: seq<string>, k: nat, starts: seq<string>): seq<string> {
    if starts == [] then []
    else
      var found := ExploreFrom(g, ids, k, starts[0]);
      if |found| == k then found else FirstConnected(g, ids, k, starts[1..])
  }

  method SelectFabricConnected(g: Graph, ids: seq<string>, k: nat) returns (r: seq<string>)
    requires k >= 1
    ensures r == FirstConnected(g, ids, k, ids)
  {
    for s := 0 to |ids|
      invariant FirstConnected(g, ids, k, ids) == FirstConnected(g, ids, k, ids[s..])
    {
      var start := ids[s];
      assert ids[s..][0] == start && ids[s..][1..] == ids[s + 1..];
      var visited := {start};
      var queue := [start];
      var selected := [];
      while |queue| > 0 && |selected| < k
        invariant Explore(g, ids, k, visited, queue, selected) == ExploreFrom(g, ids, k, start)
        decreases k - |selected|
      {
        var current := queue[0];
        queue := queue[1..];
        selected := selected + [current];
        var neighbors := Neighbors(g, ids, visited, current);
        visited := visited + Elements(neighbors);
        queue := queue + neighbors;
      }
      if |selected| == k {
        return selected;
      }
    }
    r := [];
  }

  /** The loop that collects the unvisited neighbours of a device, and their sorting. */
  method Neighbors(g: Graph, ids: seq<string>, visited: set<string>, current: string) returns (sorted: seq<string>)
    ensures sorted == SortedStrings(Unvisited(g, ids, visited, current))
  {
    var neighbors := [];
    for c := 0 to |ids|
      invariant neighbors == Unvisited(g, ids[..c], visited, current)
    {
      assert ids[..c + 1][..c] == ids[..c];
      if ids[c] !in visited && g(current, ids[c]) {
        neighbors := neighbors + [ids[c]];
      }
    }
    assert ids[..|ids|] == ids;
    StringOrder();
    sorted := Sort(neighbors, AtMost);
    SortedStringsUnique(neighbors, sorted);
  }

  lemma StringOrder()
    ensures TotalPreorder(AtMost)
  {
    forall x, y
      ensures AtMost(x, y) || AtMost(y, x)
    {
      if Less(x, y) { LessAsymmetric(x, y); }
    }
    forall x, y, z | AtMost(x, y) && AtMost(y, z)
      ensures AtMost(x, z)
    {
      AtMostTransitive(x, y, z);
    }
  }

  lemma {:induction false} InsertStringSorted(s: seq<string>, x: string)
    requires SortedBy(s, AtMost)
    ensures SortedBy(InsertString(s, x), AtMost)
  {
    if s != [] && !AtMost(x, s[0]) {
      var rest := InsertString(s[1..], x);
      InsertStringSorted(s[1..], x);
      LessAsymmetric(s[0], x);
      forall j | 0 <= j < |rest|
        ensures AtMost(s[0], rest[j])
      {
        assert rest[j] in multiset(rest);
        assert rest[j] == x || rest[j] in multiset(s[1..]);
      }
    } else if s != [] {
      forall j | 0 <= j < |s|
        ensures AtMost(x, s[j])
      {
        if j > 0 { AtMostTransitive(x, s[0], s[j]); }
      }
    }
  }

  lemma {:induction false} SortedStringsSorted(s: seq<string>)
    ensures SortedBy(SortedStrings(s), AtMost)
  {
    if s != [] {
      SortedStringsSorted(s[1..]);
      InsertStringSorted(SortedStrings(s[1..]), s[0]);
    }
  }

  lemma SortedStringsUnique(s: seq<string>, t: seq<string>)
    requires multiset(s) == multiset(t) && SortedBy(t, AtMost)
    ensures t == SortedStrings(s)
  {
    SortedStringsSorted(s);
    forall x, y | AtMost(x, y) && AtMost(y, x)
      ensures x == y
    {
      LessTotal(x, y);
    }
    SortedUnique(t, SortedStrings(s), AtMost);
  }

  // ----- the invariant of the search -----

  /** Every listed device but the first is linked to an earlier one. */
  ghost predicate Grown(g: Graph, s: seq<string>) {
    forall i :: 0 < i < |s| ==> LinkedBefore(g, s, i)
  }

  ghost predicate LinkedBefore(g: Graph, s: seq<string>, i: nat)
    requires i < |s|
  {
    exists j :: 0 <= j < i && g(s[j], s[i])
  }

  ghost predicate Closed(g: Graph, ids: seq<string>, from: seq<string>, visited: set<string>) {
    forall x, y :: x in from && y in ids && g(x, y) ==> y in visited
  }

  /** Everything met so far, in the order in which it was met. */
  ghost predicate Met(g: Graph, ids: seq<string>, start: string, visited: set<string>, all: seq<string>) {
    && Distinct(all)
    && visited == Elements(all)
    && visited <= Elements(ids)
    && all != [] && all[0] == start
    && Grown(g, all)
  }

  ghost predicate Exploring(g: Graph, ids: seq<string>, start: string, visited: set<string>, queue: seq<string>,
                            selected: seq<string>) {
    Met(g, ids, start, visited, selected + queue) && Closed(g, ids, selected, visited)
  }

  lemma NewNeighbors(g: Graph, ids: seq<string>, visited: set<string>, current: string)
    requires Distinct(ids)
    ensures var n := SortedStrings(Unvisited(g, ids, visited, current));
            && Distinct(n)
            && (forall c :: c in n <==> c in ids && c !in visited && g(current, c))
  {
    var raw := Unvisited(g, ids, visited, current);
    var n := SortedStrings(raw);
    FilterExact(ids, c => c !in visited && g(current, c));
    FilterDistinct(ids, c => c !in visited && g(current, c));
    DistinctKeysOfPermutation(raw, n, x => x);
    forall c
      ensures c in n <==> c in raw
    {
      assert c in n <==> c in multiset(n);
      assert c in raw <==> c in multiset(raw);
    }
  }

  lemma {:induction false} FilterDistinct(s: seq<string>, keep: string -> bool)
    requires Distinct(s)
    ensures Distinct(Filter(s, keep))
  {
    FilterSorted(s, keep, (x, y) => x != y);
  }

  lemma ExploringStep(g: Graph, ids: seq<string>, start: string, visited: set<string>, queue: seq<string>,
                      selected: seq<string>)
    requires Distinct(ids) && queue != [] && Exploring(g, ids, start, visited, queue, selected)
    ensures var n := SortedStrings(Unvisited(g, ids, visited, queue[0]));
            Exploring(g, ids, start, visited + Elements(n), queue[1..] + n, selected + [queue[0]])
  {
    var current := queue[0];
    var n := SortedStrings(Unvisited(g, ids, visited, current));
    NewNeighbors(g, ids, visited, current);
    Regroup(selected, queue, n);
    assert Met(g, ids, start, visited + Elements(n), selected + queue + n) by {
      MeetMore(g, ids, start, visited, selected + queue, |selected|, n);
    }
    assert Closed(g, ids, selected + [current], visited + Elements(n)) by {
      CloseCurrent(g, ids, selected, visited, current, n);
    }
  }

  lemma Regroup(selected: seq<string>, queue: seq<string>, n: seq<string>)
    requires queue != []
    ensures (selected + [queue[0]]) + (queue[1..] + n) == selected + queue + n
    ensures (selected + queue)[|selected|] == queue[0]
  {
  }

  lemma MeetMore(g: Graph, ids: seq<string>, start: string, visited: set<string>, all: seq<string>, c: nat,
                 n: seq<string>)
    requires Met(g, ids, start, visited, all) && c < |all| && Distinct(n)
    requires forall x :: x in n ==> x in ids && x !in visited && g(all[c], x)
    ensures Met(g, ids, start, visited + Elements(n), all + n)
  {
    AppendDistinct(all, n);
    AppendGrown(g, all, c, n);
    AppendElements(all, n);
  }

  lemma AppendElements(s: seq<string>, n: seq<string>)
    ensures Elements(s + n) == Elements(s) + Elements(n)
  {
  }

  lemma CloseCurrent(g: Graph, ids: seq<string>, selected: seq<string>, visited: set<string>, current: string,
                     n: seq<string>)
    requires Closed(g, ids, selected, visited)
    requires forall c :: c in n <==> c in ids && c !in visited && g(current, c)
    ensures Closed(g, ids, selected + [current], visited + Elements(n))
  {
    forall x, y | x in selected + [current] && y in ids && g(x, y)
      ensures y in visited + Elements(n)
    {
      if x != current { assert x in selected; }
    }
  }

  lemma AppendDistinct(s: seq<string>, n: seq<string>)
    requires Distinct(s) && Distinct(n) && forall x :: x in n ==> x !in s
    ensures Distinct(s + n)
  {
    forall i, j | 0 <= i < j < |s + n|
      ensures (s + n)[i] != (s + n)[j]
    {
      if i < |s| <= j { assert (s + n)[j] in n; }
    }
  }

  lemma AppendGrown(g: Graph, s: seq<string>, c: nat, n: seq<string>)
    requires Grown(g, s) && c < |s| && forall x :: x in n ==> g(s[c], x)
    ensures Grown(g, s + n)
  {
    forall i | 0 < i < |s + n|
      ensures LinkedBefore(g, s + n, i)
    {
      if i < |s| {
        assert LinkedBefore(g, s, i);
        var j :| 0 <= j < i && g(s[j], s[i]);
        assert (s + n)[j] == s[j];
      } else {
        assert (s + n)[i] in n && (s + n)[c] == s[c];
      }
    }
  }

  lemma {:induction false} ExploreResult(g: Graph, ids: seq<string>, k: nat, start: string,
                                         visited: set<string>, queue: seq<string>, selected: seq<string>)
    requires Distinct(ids) && k >= 1 && |selected| <= k && Exploring(g, ids, start, visited, queue, selected)
    ensures var r := Explore(g, ids, k, visited, queue, selected);
            && Distinct(r) && Elements(r) <= Elements(ids) && Grown(g, r)
            && r != [] && r[0] == start && |r| <= k
            && (|r| < k ==> Closed(g, ids, r, Elements(r)))
    decreases k - |selected|
  {
    if queue == [] || |selected| >= k {
      var all := selected + queue;
      assert forall i :: 0 <= i < |selected| ==> all[i] == selected[i];
      forall i | 0 < i < |selected|
        ensures LinkedBefore(g, selected, i)
      {
        assert LinkedBefore(g, all, i);
        var j :| 0 <= j < i && g(all[j], all[i]);
        assert selected[j] == all[j];
      }
      if queue == [] { assert all == selected; }
    } else {
      ExploringStep(g, ids, start, visited, queue, selected);
      var n := SortedStrings(Unvisited(g, ids, visited, queue[0]));
      ExploreResult(g, ids, k, start, visited + Elements(n), queue[1..] + n, selected + [queue[0]]);
    }
  }

  lemma ExploreFromResult(g: Graph, ids: seq<string>, k: nat, start: string)
    requires Distinct(ids) && k >= 1 && start in ids
    ensures var r := ExploreFrom(g, ids, k, start);
            && Distinct(r) && Elements(r) <= Elements(ids) && Grown(g, r)
            && r != [] && r[0] == start && |r| <= k
            && (|r| < k ==> |Component(g, Elements(ids), start)| < k)
  {
    assert [] + [start] == [start];
    ExploreResult(g, ids, k, start, {start}, [start], []);
    var r := ExploreFrom(g, ids, k, start);
    if |r| < k {
      forall b | b in Component(g, Elements(ids), start)
        ensures b in Elements(r)
      {
        var p :| Path(g, Elements(ids), start, b, p);
        ClosedKeeps(g, Elements(ids), Elements(r), start, b, p);
      }
      DistinctSize(r);
      SubsetSize(Component(g, Elements(ids), start), Elements(r));
    }
  }

  lemma {:induction false} SubsetSize<T>(s: set<T>, t: set<T>)
    requires s <= t
    ensures |s| <= |t|
  {
    if s != {} {
      var x :| x in s;
      SubsetSize(s - {x}, t - {x});
    }
  }

  // ----- growth gives connected prefixes -----

  lemma {:induction false} GrownReach(g: Graph, s: seq<string>, i: nat)
    requires Grown(g, s) && i < |s|
    ensures Reachable(g, Elements(s), s[0], s[i])
  {
    if i == 0 {
      ReachSelf(g, Elements(s), s[0]);
    } else {
      assert LinkedBefore(g, s, i);
      var j :| 0 <= j < i && g(s[j], s[i]);
      GrownReach(g, s, j);
      ReachStep(g, Elements(s), s[0], s[j], s[i]);
    }
  }

  lemma GrownConnected(g: Graph, s: seq<string>)
    requires Symmetric(g) && Grown(g, s)
    ensures ConnectedSet(g, Elements(s))
  {
    forall a, b | a in s && b in s
      ensures Reachable(g, Elements(s), a, b)
    {
      var i :| 0 <= i < |s| && s[i] == a;
      var j :| 0 <= j < |s| && s[j] == b;
      GrownReach(g, s, i);
      GrownReach(g, s, j);
      ReachBack(g, Elements(s), s[0], a);
      ReachTransitive(g, Elements(s), a, s[0], b);
    }
  }

  lemma GrownPrefix(g: Graph, s: seq<string>, n: nat)
    requires Grown(g, s) && n <= |s|
    ensures Grown(g, s[..n])
  {
    forall i | 0 < i < n
      ensures LinkedBefore(g, s[..n], i)
    {
      assert LinkedBefore(g, s, i);
      var j :| 0 <= j < i && g(s[j], s[i]);
      assert s[..n][j] == s[j];
    }
  }

  // ----- exactness -----

  lemma {:induction false} FirstConnectedResult(g: Graph, ids: seq<string>, k: nat, starts: seq<string>)
    requires Distinct(ids) && k >= 1 && Elements(starts) <= Elements(ids)
    ensures var r := FirstConnected(g, ids, k, starts);
            && (r != [] ==> |r| == k && Distinct(r) && Elements(r) <= Elements(ids) && Grown(g, r))
            && (r == [] ==> forall a :: a in starts ==> |Component(g, Elements(ids), a)| < k)
  {
    if starts != [] {
      assert starts[0] in Elements(starts);
      ExploreFromResult(g, ids, k, starts[0]);
      assert Elements(starts[1..]) <= Elements(starts);
      FirstConnectedResult(g, ids, k, starts[1..]);
      assert starts == [starts[0]] + starts[1..];
    }
  }

  lemma ComponentHolds(g: Graph, within: set<string>, s: set<string>, a: string)
    requires ConnectedSet(g, s) && s <= within && a in s
    ensures s <= Component(g, within, a)
  {
    forall b | b in s
      ensures Reachable(g, within, a, b)
    {
      assert Reachable(g, s, a, b);
      ReachWider(g, s, within, a, b);
    }
  }

  /**
   The connected search is exact: a result is k distinct listed devices each of whose
   prefixes is connected by qualifying links, and there is none exactly when every component
   has fewer than k devices.
   */
  lemma ConnectedSearchExact(g: Graph, ids: seq<string>, k: nat)
    requires k >= 1 && Symmetric(g) && Distinct(ids)
    ensures var r := FirstConnected(g, ids, k, ids);
            r != [] ==> && |r| == k && Distinct(r) && Elements(r) <= Elements(ids)
                        && forall n :: 0 <= n <= k ==> ConnectedSet(g, Elements(r[..n]))
    ensures FirstConnected(g, ids, k, ids) == [] <==> forall a :: a in ids ==> |Component(g, Elements(ids), a)| < k
  {
    var r := FirstConnected(g, ids, k, ids);
    FirstConnectedResult(g, ids, k, ids);
    if r != [] {
      forall n | 0 <= n <= k
        ensures ConnectedSet(g, Elements(r[..n]))
      {
        GrownPrefix(g, r, n);
        GrownConnected(g, r[..n]);
      }
      assert r[..k] == r;
      assert r[0] in Elements(r);
      ComponentHolds(g, Elements(ids), Elements(r), r[0]);
      DistinctSize(r);
      SubsetSize(Elements(r), Component(g, Elements(ids), r[0]));
    }
  }

  /** Equivalently, it succeeds exactly when some connected set has at least k of the devices. */
  lemma ConnectedSearchFindsSets(g: Graph, ids: seq<string>, k: nat)
    requires k >= 1 && Symmetric(g) && Distinct(ids)
    ensures FirstConnected(g, ids, k, ids) != [] <==>
            exists s: set<string> :: |s| >= k && s <= Elements(ids) && ConnectedSet(g, s)
  {
    ConnectedSearchExact(g, ids, k);
    var r := FirstConnected(g, ids, k, ids);
    if r != [] {
      assert r[..k] == r;
      DistinctSize(r);
      assert |Elements(r)| >= k && Elements(r) <= Elements(ids) && ConnectedSet(g, Elements(r));
    }
    if s: set<string> :| |s| >= k && s <= Elements(ids) && ConnectedSet(g, s) {
      assert s != {};
      var a :| a in s;
      ComponentHolds(g, Elements(ids), s, a);
      SubsetSize(s, Component(g, Elements(ids), a));
      assert a in ids;
    }
  }
}
