/**
 completeNVLinkGroups of pkg/discovery/nvidia.go: naming the connected components of the
 NVLink matrix that are complete graphs.
 */
module CliqueDiscovery {
  import opened Orders
  import opened Decimals
  import opened Paths

  type Matrix = seq<seq<bool>>

  ghost predicate Square(m: Matrix) {
    forall i :: 0 <= i < |m| ==> |m[i]| == |m|
  }

  /** What the parser fills in: both halves alike, nothing on the diagonal. */
  ghost predicate SymmetricMatrix(m: Matrix) {
    && Square(m)
    && (forall i, j :: 0 <= i < |m| && 0 <= j < |m| ==> m[i][j] == m[j][i])
    && (forall i :: 0 <= i < |m| ==> !m[i][i])
  }

  ghost function Wired(m: Matrix): (int, int) -> bool {
    (i, j) => 0 <= i < |m| && 0 <= j < |m[i]| && m[i][j]
  }

  ghost function All(m: Matrix): set<int> {
    set i {:trigger m[i]} | 0 <= i < |m|
  }

  ghost predicate Joined(m: Matrix, i: int, j: int) {
    Reachable(Wired(m), All(m), i, j)
  }

  /** Any two devices of the component of i are linked. */
  ghost predicate CompleteAround(m: Matrix, i: int) {
    forall a, b :: Joined(m, i, a) && Joined(m, i, b) && a != b ==> Wired(m)(a, b)
  }

  /** The component of i is a complete graph of at least two devices. */
  ghost predicate Clustered(m: Matrix, i: int) {
    CompleteAround(m, i) && exists j :: j != i && Joined(m, i, j)
  }

  function GroupName(n: nat): string {
    "nvlink-clique-" + Digits(n)
  }

  lemma NamesDiffer(a: nat, b: nat)
    ensures GroupName(a) == GroupName(b) ==> a == b
  {
    assert GroupName(a)[14..] == Digits(a) && GroupName(b)[14..] == Digits(b);
    DigitsInjective(a, b);
  }

  // ----- reachability in the matrix -----

  lemma JoinedFacts(m: Matrix)
    requires SymmetricMatrix(m)
    ensures forall i :: 0 <= i < |m| ==> Joined(m, i, i)
    ensures forall i, j :: Joined(m, i, j) ==> Joined(m, j, i) && 0 <= i < |m| && 0 <= j < |m|
    ensures forall i, j, k :: Joined(m, i, j) && Joined(m, j, k) ==> Joined(m, i, k)
  {
    var g, v := Wired(m), All(m);
    assert Symmetric(g);
    forall i | 0 <= i < |m| ensures Joined(m, i, i) {
      ReachSelf(g, v, i);
    }
    forall i, j | Joined(m, i, j) ensures Joined(m, j, i) && 0 <= i < |m| && 0 <= j < |m| {
      ReachBack(g, v, i, j);
      var p :| Path(g, v, i, j, p);
      assert p[0] in v && p[|p| - 1] in v;
    }
    forall i, j, k | Joined(m, i, j) && Joined(m, j, k) ensures Joined(m, i, k) {
      ReachTransitive(g, v, i, j, k);
    }
  }

  lemma JoinedStep(m: Matrix, i: int, j: int, k: int)
    requires Square(m) && Joined(m, i, j) && Wired(m)(j, k) && 0 <= k < |m|
    ensures Joined(m, i, k)
  {
    ReachStep(Wired(m), All(m), i, j, k);
  }

  /** No link leaves the set. */
  ghost predicate ClosedUnder(m: Matrix, s: set<int>) {
    forall x, y :: x in s && Wired(m)(x, y) && 0 <= y < |m| ==> y in s
  }

  lemma ClosedHoldsComponent(m: Matrix, s: set<int>, i: int, j: int)
    requires ClosedUnder(m, s) && i in s && Joined(m, i, j)
    ensures j in s
  {
    var p :| Path(Wired(m), All(m), i, j, p);
    ClosedKeeps(Wired(m), All(m), s, i, j, p);
  }

  // ----- growing one component -----

  ghost function Marked(visited: seq<bool>): set<int> {
    set i | 0 <= i < |visited| && visited[i]
  }

  ghost predicate Members(m: Matrix, component: seq<int>, start: int) {
    && component != [] && component[0] == start
    && Distinct(component)
    && InRange(m, component)
    && (forall c :: c in component ==> Joined(m, start, c))
  }

  ghost predicate InRange(m: Matrix, component: seq<int>) {
    forall k :: 0 <= k < |component| ==> 0 <= component[k] < |m|
  }

  /** Between rounds: what was marked before, plus the component, is marked now. */
  ghost predicate Growing(m: Matrix, before: set<int>, visited: seq<bool>, component: seq<int>, start: int) {
    && |visited| == |m|
    && Members(m, component, start)
    && Marked(visited) == before + Elements(component)
    && before !! Elements(component)
  }

  /** All links of x to devices below y lead to marked devices. */
  ghost predicate RowMarked(m: Matrix, visited: seq<bool>, x: int, y: int)
    requires |visited| == |m|
  {
    forall k :: 0 <= k < y && k < |m| && Wired(m)(x, k) ==> visited[k]
  }

  method GrowComponent(m: Matrix, visited: seq<bool>, start: int) returns (component: seq<int>, visited': seq<bool>)
    requires SymmetricMatrix(m) && |visited| == |m| && 0 <= start < |m| && !visited[start]
    requires ClosedUnder(m, Marked(visited))
    ensures Growing(m, Marked(visited), visited', component, start)
    ensures forall c :: c in component <==> Joined(m, start, c)
    ensures ClosedUnder(m, Marked(visited'))
    ensures forall i :: 0 <= i < |m| && (visited[i] || i == start) ==> visited'[i]
  {
    ghost var before := Marked(visited);
    component := [start];
    visited' := visited[start := true];
    JoinedFacts(m);
    var cursor := 0;
    while cursor < |component|
      invariant 0 <= cursor <= |component|
      invariant Growing(m, before, visited', component, start)
      invariant forall c :: 0 <= c < cursor ==> RowMarked(m, visited', component[c], |m|)
      decreases |m| - |Marked(visited')|, |component| - cursor
    {
      ghost var marked, seen := Marked(visited'), component;
      component, visited' := ScanRow(m, visited', component, cursor, start, before);
      MoreMarked(m, marked, Marked(visited'), seen, component);
      cursor := cursor + 1;
    }
    ComponentClosed(m, before, visited', component, start);
    StillMarked(m, visited, visited', component, start);
  }

  lemma StillMarked(m: Matrix, visited: seq<bool>, visited': seq<bool>, component: seq<int>, start: int)
    requires |visited| == |m| && 0 <= start < |m| && Growing(m, Marked(visited), visited', component, start)
    ensures forall i :: 0 <= i < |m| && (visited[i] || i == start) ==> visited'[i]
  {
    forall i | 0 <= i < |m| && (visited[i] || i == start)
      ensures visited'[i]
    {
      assert component[0] in Elements(component);
      assert i in Marked(visited) + Elements(component);
    }
  }

  lemma MoreMarked(m: Matrix, s: set<int>, t: set<int>, x: seq<int>, y: seq<int>)
    requires s <= t && (forall i :: i in t ==> 0 <= i < |m|) && (s == t ==> x == y)
    ensures |s| <= |t| <= |m| && (|s| == |t| ==> x == y)
  {
    SubsetGrows(s, t);
    BelowSize(t, |m|);
  }

  lemma {:induction false} BelowSize(s: set<int>, n: nat)
    requires forall i :: i in s ==> 0 <= i < n
    ensures |s| <= n
  {
    if n == 0 {
      forall i ensures i !in s {}
      assert s == {};
    } else {
      BelowSize(s - {n - 1}, n - 1);
      assert s <= (s - {n - 1}) + {n - 1};
      SubsetGrows(s, (s - {n - 1}) + {n - 1});
    }
  }

  lemma {:induction false} SubsetGrows(s: set<int>, t: set<int>)
    requires s <= t
    ensures |s| <= |t| && (|s| == |t| ==> s == t)
  {
    assert t == s + (t - s);
    assert |t| == |s| + |t - s|;
  }

  /** The loop over one matrix row. */
  method ScanRow(m: Matrix, visited: seq<bool>, component: seq<int>, cursor: nat, start: int, ghost before: set<int>)
    returns (component': seq<int>, visited': seq<bool>)
    requires SymmetricMatrix(m) && 0 <= start < |m| && cursor < |component|
             && Growing(m, before, visited, component, start)
    requires forall c :: 0 <= c < cursor ==> RowMarked(m, visited, component[c], |m|)
    ensures Growing(m, before, visited', component', start)
    ensures component <= component' && Marked(visited) <= Marked(visited')
    ensures Marked(visited) == Marked(visited') ==> component == component'
    ensures forall c :: 0 <= c <= cursor ==> RowMarked(m, visited', component'[c], |m|)
  {
    component', visited' := component, visited;
    var current := component[cursor];
    for neighbor := 0 to |m|
      invariant Growing(m, before, visited', component', start)
      invariant component <= component' && Marked(visited) <= Marked(visited')
      invariant Marked(visited) == Marked(visited') ==> component == component'
      invariant forall c :: 0 <= c < cursor ==> RowMarked(m, visited', component'[c], |m|)
      invariant RowMarked(m, visited', current, neighbor)
    {
      if m[current][neighbor] && !visited'[neighbor] {
        JoinedStep(m, start, current, neighbor);
        GrowOne(m, before, visited', component', start, neighbor);
        visited' := visited'[neighbor := true];
        component' := component' + [neighbor];
      }
    }
  }

  lemma GrowOne(m: Matrix, before: set<int>, visited: seq<bool>, component: seq<int>, start: int, neighbor: nat)
    requires Growing(m, before, visited, component, start) && 0 <= neighbor < |m| && !visited[neighbor]
             && Joined(m, start, neighbor)
    ensures Growing(m, before, visited[neighbor := true], component + [neighbor], start)
    ensures Marked(visited[neighbor := true]) == Marked(visited) + {neighbor} && neighbor !in Marked(visited)
  {
    assert Marked(visited[neighbor := true]) == Marked(visited) + {neighbor};
    assert neighbor !in Elements(component);
    assert Elements(component + [neighbor]) == Elements(component) + {neighbor};
  }

  lemma ComponentClosed(m: Matrix, before: set<int>, visited: seq<bool>, component: seq<int>, start: int)
    requires SymmetricMatrix(m) && Growing(m, before, visited, component, start)
    requires ClosedUnder(m, before)
    requires forall c :: 0 <= c < |component| ==> RowMarked(m, visited, component[c], |m|)
    ensures forall c :: c in component <==> Joined(m, start, c)
    ensures ClosedUnder(m, Marked(visited))
  {
    var mine := Elements(component);
    forall x, y | x in mine && Wired(m)(x, y) && 0 <= y < |m|
      ensures y in mine
    {
      var i :| 0 <= i < |component| && component[i] == x;
      assert RowMarked(m, visited, component[i], |m|);
      assert y in Marked(visited);
      assert Wired(m)(y, x);
    }
    forall c | Joined(m, start, c)
      ensures c in component
    {
      assert component[0] in mine;
      ClosedHoldsComponent(m, mine, start, c);
    }
  }

  // ----- completeness of one component -----

  ghost predicate PairsLinked(m: Matrix, component: seq<int>, upto: nat)
    requires Square(m) && InRange(m, component) && upto <= |component|
  {
    forall i, j :: 0 <= i < upto && i < j < |component| ==> m[component[i]][component[j]]
  }

  method IsComplete(m: Matrix, component: seq<int>) returns (complete: bool)
    requires Square(m) && InRange(m, component)
    ensures complete <==> |component| > 1 && PairsLinked(m, component, |component|)
  {
    complete := |component| > 1;
    var i := 0;
    while complete && i < |component|
      invariant 0 <= i <= |component|
      invariant complete ==> |component| > 1 && PairsLinked(m, component, i)
      invariant !complete ==> |component| <= 1 || !PairsLinked(m, component, |component|)
    {
      for j := i + 1 to |component|
        invariant complete <==> forall k :: i < k < j ==> m[component[i]][component[k]]
      {
        complete := complete && m[component[i]][component[j]];
      }
      i := i + 1;
    }
  }

  lemma CompleteMeansClustered(m: Matrix, component: seq<int>, start: int)
    requires SymmetricMatrix(m) && Members(m, component, start)
    requires forall c :: c in component <==> Joined(m, start, c)
    ensures |component| > 1 && PairsLinked(m, component, |component|) <==> Clustered(m, start)
  {
    JoinedFacts(m);
    if |component| > 1 && PairsLinked(m, component, |component|) {
      forall a, b | Joined(m, start, a) && Joined(m, start, b) && a != b
        ensures Wired(m)(a, b)
      {
        var i :| 0 <= i < |component| && component[i] == a;
        var j :| 0 <= j < |component| && component[j] == b;
        if i < j { assert m[component[i]][component[j]]; } else { assert m[component[j]][component[i]]; }
      }
      assert component[1] in component && component[1] != start;
    }
    if Clustered(m, start) {
      var j :| j != start && Joined(m, start, j);
      assert j in component;
      forall x, y | 0 <= x < y < |component|
        ensures m[component[x]][component[y]]
      {
        assert component[x] in component && component[y] in component && component[x] != component[y];
        assert Wired(m)(component[x], component[y]);
      }
    }
  }

  // ----- all components -----

  /** The devices marked so far are named as they should be, with names below next. */
  ghost predicate Named(m: Matrix, groups: seq<string>, marked: set<int>, next: nat) {
    && |groups| == |m|
    && (forall i :: 0 <= i < |m| && i !in marked ==> groups[i] == "")
    && (forall i :: 0 <= i < |m| && i in marked ==> (groups[i] != "" <==> Clustered(m, i)))
    && (forall i, j :: 0 <= i < |m| && 0 <= j < |m| && i in marked && Joined(m, i, j) ==> groups[i] == groups[j])
    && (forall i, j :: 0 <= i < |m| && 0 <= j < |m| && groups[i] == groups[j] && groups[i] != "" ==> Joined(m, i, j))
    && (forall i :: 0 <= i < |m| && groups[i] != "" ==> exists n: nat :: n < next && groups[i] == GroupName(n))
  }

  method AssignName(groups: seq<string>, component: seq<int>, name: string) returns (groups': seq<string>)
    requires forall k :: 0 <= k < |component| ==> 0 <= component[k] < |groups|
    ensures |groups'| == |groups|
    ensures forall i :: 0 <= i < |groups| ==> groups'[i] == if i in component then name else groups[i]
  {
    groups' := groups;
    for i := 0 to |component|
      invariant |groups'| == |groups|
      invariant forall j :: 0 <= j < |groups| ==> groups'[j] == if j in component[..i] then name else groups[j]
    {
      assert component[..i + 1] == component[..i] + [component[i]];
      groups' := groups'[component[i] := name];
    }
    assert component[..|component|] == component;
  }

  /**
   Two distinct devices share a non-empty group name exactly when they lie in one connected
   component and that component is a complete graph; every other device has the empty name.
   */
  method CompleteNVLinkGroups(m: Matrix) returns (groups: seq<string>)
    requires SymmetricMatrix(m)
    ensures |groups| == |m|
    ensures forall i, j :: 0 <= i < |m| && 0 <= j < |m| && i != j ==>
              (groups[i] == groups[j] && groups[i] != "" <==> Joined(m, i, j) && CompleteAround(m, i))
    ensures forall i :: 0 <= i < |m| ==> (groups[i] != "" <==> Clustered(m, i))
  {
    groups := seq(|m|, _ => "");
    var visited := seq(|m|, _ => false);
    var groupIndex := 0;
    JoinedFacts(m);
    for start := 0 to |m|
      invariant |visited| == |m|
      invariant forall i :: 0 <= i < start ==> visited[i]
      invariant ClosedUnder(m, Marked(visited))
      invariant Named(m, groups, Marked(visited), groupIndex)
    {
      if visited[start] {
        continue;
      }
      ghost var before := Marked(visited);
      var component;
      component, visited := GrowComponent(m, visited, start);
      var complete := IsComplete(m, component);
      CompleteMeansClustered(m, component, start);
      if complete {
        var named := AssignName(groups, component, GroupName(groupIndex));
        NameComponent(m, groups, named, before, visited, component, start, groupIndex);
        groups := named;
        groupIndex := groupIndex + 1;
      } else {
        SkipComponent(m, groups, before, visited, component, start, groupIndex);
      }
    }
    NamedResult(m, groups, visited, groupIndex);
  }

  lemma SameComponent(m: Matrix, i: int, j: int)
    requires SymmetricMatrix(m) && Joined(m, i, j)
    ensures Clustered(m, i) <==> Clustered(m, j)
    ensures CompleteAround(m, i) <==> CompleteAround(m, j)
  {
    JoinedFacts(m);
    assert forall k :: Joined(m, i, k) <==> Joined(m, j, k);
    if i != j {
      assert Joined(m, i, j) && Joined(m, j, i);
    }
  }

  /** groups becomes named by giving the component of start the next name. */
  ghost predicate Renamed(m: Matrix, groups: seq<string>, named: seq<string>, component: seq<int>, next: nat) {
    |groups| == |named| == |m| && forall i :: 0 <= i < |m| ==>
        named[i] == if i in component then GroupName(next) else groups[i]
  }

  lemma NewNameApart(m: Matrix, groups: seq<string>, named: seq<string>, before: set<int>, component: seq<int>,
                     start: int, next: nat)
    requires SymmetricMatrix(m) && (forall c :: c in component <==> Joined(m, start, c))
    requires Named(m, groups, before, next) && Renamed(m, groups, named, component, next)
    ensures forall i, j :: 0 <= i < |m| && 0 <= j < |m| && named[i] == named[j] && named[i] != "" ==> Joined(m, i, j)
  {
    JoinedFacts(m);
    forall i, j | 0 <= i < |m| && 0 <= j < |m| && named[i] == named[j] && named[i] != ""
      ensures Joined(m, i, j)
    {
      if i in component && j !in component {
        var n: nat :| n < next && groups[j] == GroupName(n);
        NamesDiffer(n, next);
      } else if j in component && i !in component {
        var n: nat :| n < next && groups[i] == GroupName(n);
        NamesDiffer(n, next);
      }
    }
  }

  lemma NewNameUsed(m: Matrix, groups: seq<string>, named: seq<string>, before: set<int>, component: seq<int>,
                    next: nat)
    requires Named(m, groups, before, next) && Renamed(m, groups, named, component, next)
    ensures forall i :: 0 <= i < |m| && named[i] != "" ==> exists n: nat :: n < next + 1 && named[i] == GroupName(n)
  {
    forall i | 0 <= i < |m| && named[i] != ""
      ensures exists n: nat :: n < next + 1 && named[i] == GroupName(n)
    {
      if i !in component {
        var n: nat :| n < next && groups[i] == GroupName(n);
      }
    }
  }

  lemma ComponentClustered(m: Matrix, component: seq<int>, start: int)
    requires SymmetricMatrix(m) && (forall c :: c in component <==> Joined(m, start, c))
    ensures forall i :: i in component ==> (Clustered(m, i) <==> Clustered(m, start))
    ensures forall i, j :: Joined(m, i, j) ==> (i in component <==> j in component)
  {
    JoinedFacts(m);
    forall i | i in component
      ensures Clustered(m, i) <==> Clustered(m, start)
    {
      SameComponent(m, start, i);
    }
  }

  lemma NameComponent(m: Matrix, groups: seq<string>, named: seq<string>, before: set<int>, visited: seq<bool>,
                      component: seq<int>, start: int, next: nat)
    requires SymmetricMatrix(m) && 0 <= start < |m| && Growing(m, before, visited, component, start)
    requires forall c :: c in component <==> Joined(m, start, c)
    requires Named(m, groups, before, next) && Clustered(m, start)
    requires Renamed(m, groups, named, component, next)
    ensures Named(m, named, Marked(visited), next + 1)
  {
    NewNameApart(m, groups, named, before, component, start, next);
    NewNameUsed(m, groups, named, before, component, next);
    NewNameMarked(m, groups, named, before, Marked(visited), component, start, next);
    NewNameAlike(m, groups, named, before, Marked(visited), component, start, next);
  }

  lemma NewNameMarked(m: Matrix, groups: seq<string>, named: seq<string>, before: set<int>, marked: set<int>,
                      component: seq<int>, start: int, next: nat)
    requires SymmetricMatrix(m) && (forall c :: c in component <==> Joined(m, start, c)) && Clustered(m, start)
    requires marked == before + Elements(component) && before !! Elements(component)
    requires Renamed(m, groups, named, component, next)
    requires forall i :: 0 <= i < |m| && i !in before ==> groups[i] == ""
    requires forall i :: 0 <= i < |m| && i in before ==> (groups[i] != "" <==> Clustered(m, i))
    ensures forall i :: 0 <= i < |m| && i !in marked ==> named[i] == ""
    ensures forall i :: 0 <= i < |m| && i in marked ==> (named[i] != "" <==> Clustered(m, i))
  {
    forall i | 0 <= i < |m| && i in marked
      ensures named[i] != "" <==> Clustered(m, i)
    {
      if i in component {
        SameComponent(m, start, i);
      } else {
        assert i in before;
      }
    }
  }

  lemma NewNameAlike(m: Matrix, groups: seq<string>, named: seq<string>, before: set<int>, marked: set<int>,
                     component: seq<int>, start: int, next: nat)
    requires SymmetricMatrix(m) && (forall c :: c in component <==> Joined(m, start, c))
    requires marked == before + Elements(component)
    requires Named(m, groups, before, next) && Renamed(m, groups, named, component, next)
    ensures forall i, j :: 0 <= i < |m| && 0 <= j < |m| && i in marked && Joined(m, i, j) ==> named[i] == named[j]
  {
    ComponentClustered(m, component, start);
    forall i, j | 0 <= i < |m| && 0 <= j < |m| && i in marked && Joined(m, i, j)
      ensures named[i] == named[j]
    {
      if i !in component {
        assert i in before && j !in component;
      }
    }
  }

  lemma SkipComponent(m: Matrix, groups: seq<string>, before: set<int>, visited: seq<bool>,
                      component: seq<int>, start: int, next: nat)
    requires SymmetricMatrix(m) && 0 <= start < |m| && Growing(m, before, visited, component, start)
             && ClosedUnder(m, before)
    requires forall c :: c in component <==> Joined(m, start, c)
    requires Named(m, groups, before, next) && !Clustered(m, start)
    ensures Named(m, groups, Marked(visited), next)
  {
    ComponentClustered(m, component, start);
  }

  lemma NamedResult(m: Matrix, groups: seq<string>, visited: seq<bool>, next: nat)
    requires SymmetricMatrix(m) && |visited| == |m| && (forall i :: 0 <= i < |m| ==> visited[i])
    requires Named(m, groups, Marked(visited), next)
    ensures forall i, j :: 0 <= i < |m| && 0 <= j < |m| && i != j ==>
              (groups[i] == groups[j] && groups[i] != "" <==> Joined(m, i, j) && CompleteAround(m, i))
    ensures forall i :: 0 <= i < |m| ==> (groups[i] != "" <==> Clustered(m, i))
  {
    JoinedFacts(m);
    forall i | 0 <= i < |m| ensures groups[i] != "" <==> Clustered(m, i) {
      assert i in Marked(visited);
    }
  }
}
