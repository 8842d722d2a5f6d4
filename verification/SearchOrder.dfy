/**
 Which connected set selectFabricConnected of pkg/plugin/topologyfit/selection.go returns: the
 breadth-first order from the first device whose component is large enough, stated without
 reference to the search.
 */
module SearchOrder {
  import opened Orders
  import opened Paths
  import opened Cliques
  import opened Connectivity

  /**
   The n-th device is met from the p-th: of all devices not listed before it, it is the first
   one linked to the earliest possible listed device, in ID order.
   */
  ghost predicate MetFrom(g: Graph, ids: seq<string>, all: seq<string>, n: int, p: int) {
    && 0 <= p < n < |all| && all[n] in ids && g(all[p], all[n])
    && forall q, y :: 0 <= q < n && y in ids && y !in all[..n] && g(all[q], y) ==>
         p < q || (p == q && AtMost(all[n], y))
  }

  ghost predicate Follows(g: Graph, ids: seq<string>, all: seq<string>, n: int) {
    exists p :: MetFrom(g, ids, all, n, p)
  }

  ghost predicate InOrder(g: Graph, ids: seq<string>, all: seq<string>) {
    forall n :: 0 < n < |all| ==> Follows(g, ids, all, n)
  }

  // ----- the search keeps to that order -----

  lemma MetFromPrefix(g: Graph, ids: seq<string>, x: seq<string>, y: seq<string>, n: int, p: int)
    requires MetFrom(g, ids, x, n, p) && n < |y| && x[..n + 1] == y[..n + 1]
    ensures MetFrom(g, ids, y, n, p)
  {
    assert x[..n] == x[..n + 1][..n] && y[..n] == y[..n + 1][..n];
    assert forall i :: 0 <= i <= n ==> x[i] == x[..n + 1][i] == y[..n + 1][i] == y[i];
  }

  lemma OrderOfPrefix(g: Graph, ids: seq<string>, all: seq<string>, k: nat)
    requires InOrder(g, ids, all) && k <= |all|
    ensures InOrder(g, ids, all[..k])
  {
    forall n | 0 < n < k
      ensures Follows(g, ids, all[..k], n)
    {
      assert Follows(g, ids, all, n);
      var p :| MetFrom(g, ids, all, n, p);
      assert all[..k][..n + 1] == all[..n + 1];
      MetFromPrefix(g, ids, all, all[..k], n, p);
    }
  }

  /** Listing the sorted unlisted neighbours of the first unexplored device keeps the order. */
  lemma OrderGrows(g: Graph, ids: seq<string>, all: seq<string>, c: nat, more: seq<string>)
    requires InOrder(g, ids, all) && c < |all| && Closed(g, ids, all[..c], Elements(all))
    requires SortedBy(more, AtMost)
    requires forall y :: y in more <==> y in ids && y !in Elements(all) && g(all[c], y)
    ensures InOrder(g, ids, all + more)
  {
    var next := all + more;
    forall n | 0 < n < |next|
      ensures Follows(g, ids, next, n)
    {
      if n < |all| {
        assert Follows(g, ids, all, n);
        var p :| MetFrom(g, ids, all, n, p);
        assert next[..n + 1] == all[..n + 1];
        MetFromPrefix(g, ids, all, next, n, p);
      } else {
        NewInOrder(g, ids, all, c, more, n - |all|);
      }
    }
  }

  lemma NewInOrder(g: Graph, ids: seq<string>, all: seq<string>, c: nat, more: seq<string>, i: nat)
    requires c < |all| && i < |more| && Closed(g, ids, all[..c], Elements(all))
    requires SortedBy(more, AtMost)
    requires forall y :: y in more <==> y in ids && y !in Elements(all) && g(all[c], y)
    ensures MetFrom(g, ids, all + more, |all| + i, c)
  {
    var next, n := all + more, |all| + i;
    assert next[n] == more[i] && more[i] in more && next[c] == all[c];
    assert next[..n] == all + more[..i];
    ExploredClosed(g, ids, all, more, c);
    forall q, y | 0 <= q < n && y in ids && y !in next[..n] && g(next[q], y)
      ensures c < q || (c == q && AtMost(next[n], y))
    {
      assert y !in all && y !in more[..i];
      if q == c {
        var j :| 0 <= j < |more| && more[j] == y;
        assert forall h :: 0 <= h < i ==> more[h] == more[..i][h];
        if j == i { LessIrreflexive(y); }
      }
    }
  }

  lemma ExploredClosed(g: Graph, ids: seq<string>, all: seq<string>, more: seq<string>, c: nat)
    requires c < |all| && Closed(g, ids, all[..c], Elements(all))
    ensures forall q, y :: 0 <= q < c && y in ids && g((all + more)[q], y) ==> y in all
  {
    forall q, y | 0 <= q < c && y in ids && g((all + more)[q], y)
      ensures y in all
    {
      assert (all + more)[q] == all[..c][q];
    }
  }

  lemma {:induction false} ExploreInOrder(g: Graph, ids: seq<string>, k: nat, start: string,
                                          visited: set<string>, queue: seq<string>, selected: seq<string>)
    requires Distinct(ids) && k >= 1 && |selected| <= k && Exploring(g, ids, start, visited, queue, selected)
    requires InOrder(g, ids, selected + queue)
    ensures InOrder(g, ids, Explore(g, ids, k, visited, queue, selected))
    decreases k - |selected|
  {
    var all := selected + queue;
    if queue == [] || |selected| >= k {
      assert all[..|selected|] == selected;
      OrderOfPrefix(g, ids, all, |selected|);
    } else {
      var more := SortedStrings(Unvisited(g, ids, visited, queue[0]));
      assert InOrder(g, ids, all + more) by {
        NewNeighbors(g, ids, visited, queue[0]);
        SortedStringsSorted(Unvisited(g, ids, visited, queue[0]));
        assert all[..|selected|] == selected && all[|selected|] == queue[0];
        OrderGrows(g, ids, all, |selected|, more);
      }
      Regroup(selected, queue, more);
      ExploringStep(g, ids, start, visited, queue, selected);
      ExploreInOrder(g, ids, k, start, visited + Elements(more), queue[1..] + more, selected + [queue[0]]);
    }
  }

  lemma ExploreFromInOrder(g: Graph, ids: seq<string>, k: nat, start: string)
    requires Distinct(ids) && k >= 1 && start in ids
    ensures InOrder(g, ids, ExploreFrom(g, ids, k, start))
  {
    assert [] + [start] == [start];
    ExploreInOrder(g, ids, k, start, {start}, [start], []);
  }

  // ----- the first start that works -----

  /** The i-th listed device is the first whose component holds at least k devices. */
  ghost predicate FirstLarge(g: Graph, ids: seq<string>, k: nat, i: int) {
    && 0 <= i < |ids| && |Component(g, Elements(ids), ids[i])| >= k
    && forall j :: 0 <= j < i ==> |Component(g, Elements(ids), ids[j])| < k
  }

  lemma {:induction false} FirstStart(g: Graph, ids: seq<string>, k: nat, n: nat) returns (i: nat)
    requires Distinct(ids) && k >= 1 && n <= |ids| && FirstConnected(g, ids, k, ids[n..]) != []
    ensures n <= i < |ids| && FirstConnected(g, ids, k, ids[n..]) == ExploreFrom(g, ids, k, ids[i])
    ensures forall j :: n <= j < i ==> |Component(g, Elements(ids), ids[j])| < k
    decreases |ids| - n
  {
    assert n < |ids| && ids[n..][0] == ids[n] && ids[n..][1..] == ids[n + 1..];
    ExploreFromResult(g, ids, k, ids[n]);
    if |ExploreFrom(g, ids, k, ids[n])| == k {
      i := n;
    } else {
      i := FirstStart(g, ids, k, n + 1);
    }
  }

  /**
   The connected search returns devices in breadth-first order, starting at the first listed
   device whose component holds at least k devices.
   */
  lemma SearchIsBreadthFirst(g: Graph, ids: seq<string>, k: nat)
    requires k >= 1 && Symmetric(g) && Distinct(ids) && FirstConnected(g, ids, k, ids) != []
    ensures var r := FirstConnected(g, ids, k, ids);
            && |r| == k && Distinct(r) && InOrder(g, ids, r)
            && exists i :: FirstLarge(g, ids, k, i) && r[0] == ids[i]
  {
    var r := FirstConnected(g, ids, k, ids);
    ConnectedSearchExact(g, ids, k);
    assert ids[0..] == ids;
    var i := FirstStart(g, ids, k, 0);
    ExploreFromInOrder(g, ids, k, ids[i]);
    assert r[0] == ids[i] by {
      ExploreFromResult(g, ids, k, ids[i]);
    }
    LargeComponent(g, ids, r);
    assert FirstLarge(g, ids, k, i);
  }

  lemma LargeComponent(g: Graph, ids: seq<string>, r: seq<string>)
    requires r != [] && Distinct(r) && Elements(r) <= Elements(ids) && ConnectedSet(g, Elements(r[..|r|]))
    ensures |Component(g, Elements(ids), r[0])| >= |r|
  {
    assert r[..|r|] == r && r[0] in Elements(r);
    ComponentHolds(g, Elements(ids), Elements(r), r[0]);
    DistinctSize(r);
    SubsetSize(Elements(r), Component(g, Elements(ids), r[0]));
  }

  // ----- what that order means -----

  /** The order leaves no freedom: it and the first device determine the whole list. */
  lemma {:induction false} OrderDetermines(g: Graph, ids: seq<string>, r: seq<string>, t: seq<string>, n: nat)
    requires Distinct(r) && Distinct(t) && InOrder(g, ids, r) && InOrder(g, ids, t)
    requires 0 < n <= |r| && n <= |t| && r[0] == t[0]
    ensures r[..n] == t[..n]
  {
    if n > 1 {
      OrderDetermines(g, ids, r, t, n - 1);
      assert Follows(g, ids, r, n - 1) && Follows(g, ids, t, n - 1);
      var p :| MetFrom(g, ids, r, n - 1, p);
      var q :| MetFrom(g, ids, t, n - 1, q);
      NotBefore(r, n - 1);
      NotBefore(t, n - 1);
      assert r[..n - 1][p] == t[..n - 1][p] && r[..n - 1][q] == t[..n - 1][q];
      assert p == q && AtMost(r[n - 1], t[n - 1]) && AtMost(t[n - 1], r[n - 1]);
      LessTotal(r[n - 1], t[n - 1]);
      assert r[..n] == r[..n - 1] + [r[n - 1]] && t[..n] == t[..n - 1] + [t[n - 1]];
    }
  }

  lemma NotBefore(s: seq<string>, n: nat)
    requires Distinct(s) && n < |s|
    ensures s[n] !in s[..n]
  {
  }

  /** There is a path of at most n links. */
  ghost predicate WithinLinks(g: Graph, within: set<string>, a: string, b: string, n: nat) {
    exists p :: Path(g, within, a, b, p) && |p| <= n + 1
  }

  /**
   Nearest first: every device of the list is at most as far from the first one as any listed
   device that comes later or is left out.
   */
  lemma {:induction false} NearestFirst(g: Graph, ids: seq<string>, r: seq<string>, j: nat, y: string, n: nat)
    requires Distinct(r) && InOrder(g, ids, r) && j < |r| && r[0] in ids && Elements(r) <= Elements(ids)
    requires y in ids && y !in r[..j] && WithinLinks(g, Elements(ids), r[0], y, n)
    ensures WithinLinks(g, Elements(ids), r[0], r[j], n)
    decreases j
  {
    var within := Elements(ids);
    if j == 0 {
      assert Path(g, within, r[0], r[0], [r[0]]);
    } else {
      var path :| Path(g, within, r[0], y, path) && |path| <= n + 1;
      assert r[0] == r[..j][0];
      var t := LeavesAt(path, r[..j]);
      var q :| 0 <= q < j && r[..j][q] == path[t];
      assert Follows(g, ids, r, j);
      var p :| MetFrom(g, ids, r, j, p);
      assert g(path[t], path[t + 1]) && path[t + 1] in ids;
      assert p <= q;
      assert Path(g, within, r[0], r[q], path[..t + 1]);
      assert WithinLinks(g, within, r[0], r[q], t);
      assert r[q] !in r[..p];
      NearestFirst(g, ids, r, p, r[q], t);
      OneMoreLink(g, within, r[0], r[p], r[j], t, n);
    }
  }

  lemma OneMoreLink(g: Graph, within: set<string>, a: string, b: string, c: string, t: nat, n: nat)
    requires WithinLinks(g, within, a, b, t) && g(b, c) && c in within && t < n
    ensures WithinLinks(g, within, a, c, n)
  {
    var p :| Path(g, within, a, b, p) && |p| <= t + 1;
    assert Path(g, within, a, c, p + [c]);
  }

  /** A path from inside a set to the outside leaves it somewhere. */
  lemma {:induction false} LeavesAt(path: seq<string>, inside: seq<string>) returns (t: nat)
    requires path != [] && path[0] in inside && path[|path| - 1] !in inside
    ensures t + 1 < |path| && path[t] in inside && path[t + 1] !in inside
    decreases |path|
  {
    if path[1] !in inside {
      t := 0;
    } else {
      t := LeavesAt(path[1..], inside);
      t := t + 1;
    }
  }

  /** The p-th device of the list is the first that is linked to the n-th. */
  ghost predicate FirstLinked(g: Graph, r: seq<string>, n: nat, p: nat) {
    p < n < |r| && g(r[p], r[n]) && forall q :: 0 <= q < p ==> !g(r[q], r[n])
  }

  /** Devices stand in the order of the devices they were met from, and those met from one device in ID order. */
  lemma SiblingsInIdOrder(g: Graph, ids: seq<string>, r: seq<string>, a: nat, b: nat, p: nat, q: nat)
    requires Distinct(r) && InOrder(g, ids, r) && Elements(r) <= Elements(ids) && a < b
    requires FirstLinked(g, r, a, p) && FirstLinked(g, r, b, q)
    ensures p <= q && (p == q ==> Less(r[a], r[b]))
  {
    assert Follows(g, ids, r, a);
    var m :| MetFrom(g, ids, r, a, m);
    NotBefore(r, a);
    assert m == p;
    if q < a {
      assert r[b] in Elements(r) && r[b] !in r[..a];
      assert p < q || (p == q && AtMost(r[a], r[b]));
      LessTotal(r[a], r[b]);
    }
  }
}
