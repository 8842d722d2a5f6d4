/**
 selectFabricClique of pkg/plugin/topologyfit/selection.go: a pruned backtracking search,
 proved to return the lexicographically least clique of the requested size.
 */
module Cliques {
  import opened Orders
  import opened SnapshotProperties
  import opened Paths

  type Graph = (string, string) -> bool

  /** Every later member is linked to every earlier one. */
  ghost predicate Clique(g: Graph, s: seq<string>) {
    forall i, j :: 0 <= i < j < |s| ==> g(s[j], s[i])
  }

  /** A set of devices all of whose pairs are linked. */
  ghost predicate CliqueSet(g: Graph, s: set<string>) {
    forall a, b :: a in s && b in s && a != b ==> g(a, b)
  }

  ghost predicate LinkedToAll(g: Graph, c: string, members: seq<string>) {
    forall i :: 0 <= i < |members| ==> g(c, members[i])
  }

  predicate Joinable(g: Graph, c: string, members: seq<string>)
    ensures Joinable(g, c, members) <==> LinkedToAll(g, c, members)
  {
    forall i :: 0 <= i < |members| ==> g(c, members[i])
  }

  /** x comes before y in the lexicographic order of device lists. */
  ghost predicate LexLess(x: seq<string>, y: seq<string>) {
    exists p :: 0 <= p < |x| && p < |y| && x[..p] == y[..p] && Less(x[p], y[p])
  }

  // ----- the search as plain recursion: take the next candidate or leave it -----

  function LeastClique(g: Graph, k: nat, chosen: seq<string>, candidates: seq<string>): seq<string>
    decreases |candidates|
  {
    if |chosen| >= k then chosen
    else if candidates == [] then []
    else
      var taken :=
        if Joinable(g, candidates[0], chosen) then LeastClique(g, k, chosen + [candidates[0]], candidates[1..])
        else [];
      if taken != [] then taken else LeastClique(g, k, chosen, candidates[1..])
  }

  // ----- the search as the scheduler runs it -----

  method SelectFabricClique(g: Graph, ids: seq<string>, k: nat) returns (r: seq<string>)
    requires k >= 1
    ensures r == LeastClique(g, k, [], ids)
  {
    r := Search(g, k, [], ids);
  }

  /** The recursive closure: gives up early when too few candidates are left. */
  method Search(g: Graph, k: nat, chosen: seq<string>, candidates: seq<string>) returns (r: seq<string>)
    requires k >= 1
    ensures r == LeastClique(g, k, chosen, candidates)
    decreases |candidates|
  {
    if |chosen| >= k {
      return chosen;
    }
    if |chosen| + |candidates| < k {
      TooFew(g, k, chosen, candidates);
      return [];
    }
    for index := 0 to |candidates|
      invariant LeastClique(g, k, chosen, candidates) == LeastClique(g, k, chosen, candidates[index..])
    {
      var candidate := candidates[index];
      var connected := true;
      var m := 0;
      while m < |chosen| && connected
        invariant 0 <= m <= |chosen|
        invariant connected ==> LinkedToAll(g, candidate, chosen[..m])
        invariant !connected ==> !LinkedToAll(g, candidate, chosen)
      {
        if !g(candidate, chosen[m]) {
          connected := false;
        }
        m := m + 1;
      }
      assert chosen[..|chosen|] == chosen;
      assert candidates[index..][1..] == candidates[index + 1..];
      if connected {
        var selected := Search(g, k, chosen + [candidate], candidates[index + 1..]);
        if |selected| > 0 {
          return selected;
        }
      }
    }
    r := [];
  }

  lemma {:induction false} TooFew(g: Graph, k: nat, chosen: seq<string>, candidates: seq<string>)
    requires |chosen| + |candidates| < k
    ensures LeastClique(g, k, chosen, candidates) == []
    decreases |candidates|
  {
    if candidates != [] {
      TooFew(g, k, chosen + [candidates[0]], candidates[1..]);
      TooFew(g, k, chosen, candidates[1..]);
    }
  }

  // ----- exactness -----

  ghost predicate Picks(t: seq<string>, from: seq<string>) {
    Ascending(t) && forall x :: x in t ==> x in from
  }

  lemma {:induction false} SearchSound(g: Graph, k: nat, chosen: seq<string>, candidates: seq<string>)
    requires k >= 1 && |chosen| <= k && Clique(g, chosen) && Ascending(candidates)
    ensures var r := LeastClique(g, k, chosen, candidates);
            r != [] ==> && |r| == k && Clique(g, r) && chosen <= r
                        && Picks(r[|chosen|..], candidates)
    decreases |candidates|
  {
    if |chosen| < k && candidates != [] {
      var c, rest := candidates[0], candidates[1..];
      SearchSound(g, k, chosen, rest);
      if Joinable(g, c, chosen) {
        SearchSound(g, k, chosen + [c], rest);
        var r := LeastClique(g, k, chosen + [c], rest);
        if r != [] {
          TakenTail(chosen, c, r, candidates);
        }
      }
    }
  }

  lemma TakenTail(chosen: seq<string>, c: string, r: seq<string>, candidates: seq<string>)
    requires candidates != [] && c == candidates[0] && Ascending(candidates)
    requires chosen + [c] <= r && Picks(r[|chosen| + 1..], candidates[1..])
    ensures Picks(r[|chosen|..], candidates)
  {
    var tail := r[|chosen| + 1..];
    assert r[|chosen|..] == [c] + tail;
    forall i | 0 <= i < |tail|
      ensures Less(c, tail[i]) && tail[i] in candidates
    {
      assert tail[i] in tail;
      var j :| 0 <= j < |candidates[1..]| && candidates[1..][j] == tail[i];
      assert candidates[j + 1] == tail[i];
    }
  }

  lemma PicksAfterHead(t: seq<string>, candidates: seq<string>)
    requires t != [] && candidates != [] && Ascending(candidates) && Picks(t, candidates)
    ensures t[0] == candidates[0] ==> Picks(t[1..], candidates[1..])
    ensures t[0] != candidates[0] ==> Less(candidates[0], t[0]) && Picks(t, candidates[1..])
  {
    assert t[0] in candidates;
    var p :| 0 <= p < |candidates| && candidates[p] == t[0];
    forall i | 0 < i < |t|
      ensures t[i] in candidates[1..]
    {
      assert t[i] in candidates && Less(t[0], t[i]);
      var q :| 0 <= q < |candidates| && candidates[q] == t[i];
      LessIrreflexive(t[0]);
      if q == 0 && p != 0 {
        LessAsymmetric(candidates[0], t[0]);
      }
      assert candidates[1..][q - 1] == t[i];
    }
    assert forall x :: x in t[1..] ==> x in candidates[1..];
    if p != 0 {
      assert candidates[1..][p - 1] == t[0];
    }
  }

  /** No clique of the requested size is missed, and none comes before the result. */
  lemma {:induction false} SearchLeast(g: Graph, k: nat, chosen: seq<string>, candidates: seq<string>, t: seq<string>)
    requires k >= 1 && Clique(g, chosen) && Ascending(candidates)
    requires Picks(t, candidates) && Clique(g, chosen + t) && |chosen + t| == k
    ensures var r := LeastClique(g, k, chosen, candidates);
            r != [] && (r == chosen + t || LexLess(r, chosen + t))
    decreases |candidates|
  {
    if t == [] {
      assert chosen + t == chosen;
    } else {
      assert t[0] in candidates;
      var c, rest := candidates[0], candidates[1..];
      PicksAfterHead(t, candidates);
      if t[0] == c {
        assert chosen + t == chosen + [c] + t[1..];
        ExtendClique(g, chosen, c, t[1..]);
        SearchLeast(g, k, chosen + [c], rest, t[1..]);
      } else {
        SearchLeast(g, k, chosen, rest, t);
        if Joinable(g, c, chosen) {
          HeadDecides(g, k, chosen, c, rest, t);
        }
      }
    }
  }

  lemma ExtendClique(g: Graph, chosen: seq<string>, c: string, t: seq<string>)
    requires Clique(g, chosen + [c] + t)
    ensures Clique(g, chosen + [c]) && Joinable(g, c, chosen)
  {
    var all := chosen + [c] + t;
    forall i, j | 0 <= i < j < |chosen + [c]|
      ensures g((chosen + [c])[j], (chosen + [c])[i])
    {
      assert g(all[j], all[i]);
    }
    forall i | 0 <= i < |chosen|
      ensures g(c, chosen[i])
    {
      assert g(all[|chosen|], all[i]);
    }
  }

  lemma HeadDecides(g: Graph, k: nat, chosen: seq<string>, c: string, rest: seq<string>, t: seq<string>)
    requires k >= 1 && |chosen| < k && Clique(g, chosen) && Ascending(rest) && Joinable(g, c, chosen)
    requires t != [] && Less(c, t[0])
    ensures var r := LeastClique(g, k, chosen + [c], rest); r != [] ==> LexLess(r, chosen + t)
  {
    var r := LeastClique(g, k, chosen + [c], rest);
    SearchSound(g, k, chosen + [c], rest);
    if r != [] {
      var p := |chosen|;
      assert r[..p + 1] == chosen + [c] && (chosen + [c])[p] == c;
      assert r[..p] == r[..p + 1][..p] == chosen;
      assert (chosen + t)[..p] == chosen;
      assert r[p] == c && (chosen + t)[p] == t[0];
    }
  }

  // ----- the same, said about sets of devices -----

  lemma ListingOf(ids: seq<string>, s: set<string>) returns (t: seq<string>)
    requires Ascending(ids) && forall x :: x in s ==> x in ids
    ensures Picks(t, ids) && Elements(t) == s && |t| == |s|
  {
    t := Filter(ids, x => x in s);
    FilterExact(ids, x => x in s);
    FilterSorted(ids, x => x in s, Less);
    assert Elements(t) == s;
    AscendingDistinct(t);
    DistinctSize(t);
  }

  lemma CliqueOfSet(g: Graph, t: seq<string>)
    requires Distinct(t) && CliqueSet(g, Elements(t))
    ensures Clique(g, t)
  {
  }

  lemma SetOfClique(g: Graph, t: seq<string>)
    requires Symmetric(g) && Clique(g, t)
    ensures CliqueSet(g, Elements(t))
  {
    forall a, b | a in t && b in t && a != b
      ensures g(a, b)
    {
      var i :| 0 <= i < |t| && t[i] == a;
      var j :| 0 <= j < |t| && t[j] == b;
      if i < j { assert g(t[j], t[i]); } else { assert g(t[i], t[j]); }
    }
  }

  /**
   The clique search is exact: a result is k distinct listed devices that are pairwise
   linked; there is no result exactly when no such set exists; and every such set, listed in
   device order, is the result or comes after it.
   */
  lemma CliqueSearchExact(g: Graph, ids: seq<string>, k: nat)
    requires k >= 1 && Symmetric(g) && Ascending(ids)
    ensures var r := LeastClique(g, k, [], ids);
            r != [] ==> |r| == k && Picks(r, ids) && CliqueSet(g, Elements(r)) && |Elements(r)| == k
    ensures LeastClique(g, k, [], ids) == [] <==>
            !exists s: set<string> :: |s| == k && s <= Elements(ids) && CliqueSet(g, s)
    ensures forall t :: Picks(t, ids) && |t| == k && CliqueSet(g, Elements(t)) ==>
              t == LeastClique(g, k, [], ids) || LexLess(LeastClique(g, k, [], ids), t)
  {
    var r := LeastClique(g, k, [], ids);
    SearchSound(g, k, [], ids);
    if r != [] {
      assert r[0..] == r;
      SetOfClique(g, r);
      AscendingDistinct(r);
      DistinctSize(r);
      assert Elements(r) <= Elements(ids);
    }
    forall t | Picks(t, ids) && |t| == k && CliqueSet(g, Elements(t))
      ensures r != [] && (t == r || LexLess(r, t))
    {
      AscendingDistinct(t);
      CliqueOfSet(g, t);
      assert [] + t == t;
      SearchLeast(g, k, [], ids, t);
    }
    forall s: set<string> | |s| == k && s <= Elements(ids) && CliqueSet(g, s)
      ensures r != []
    {
      var t := ListingOf(ids, s);
    }
  }
}
