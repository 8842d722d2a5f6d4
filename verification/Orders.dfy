/**
 Go's byte order on strings, sorting with respect to an arbitrary total preorder, and
 the few sequence facts the other modules share.
 */
module Orders {

  datatype Option<+T> = None | Some(value: T)

  datatype Result<+T, +E> = Ok(value: T) | Err(error: E)

  // ----- strings -----

  /** Go's `<` on strings (for text, byte order is code-point order). */
  predicate Less(a: string, b: string) {
    if b == [] then false
    else if a == [] then true
    else if a[0] != b[0] then a[0] < b[0]
    else Less(a[1..], b[1..])
  }

  predicate AtMost(a: string, b: string) {
    !Less(b, a)
  }

  lemma {:induction false} LessIrreflexive(a: string)
    ensures !Less(a, a)
  {
    if a != [] { LessIrreflexive(a[1..]); }
  }

  lemma {:induction false} LessTransitive(a: string, b: string, c: string)
    requires Less(a, b) && Less(b, c)
    ensures Less(a, c)
  {
    if a != [] && a[0] == b[0] && b[0] == c[0] {
      LessTransitive(a[1..], b[1..], c[1..]);
    }
  }

  lemma {:induction false} LessTotal(a: string, b: string)
    ensures Less(a, b) || Less(b, a) || a == b
  {
    if a != [] && b != [] && a[0] == b[0] {
      LessTotal(a[1..], b[1..]);
      assert a == [a[0]] + a[1..] && b == [b[0]] + b[1..];
    }
  }

  lemma LessAsymmetric(a: string, b: string)
    requires Less(a, b)
    ensures !Less(b, a)
  {
    if Less(b, a) {
      LessTransitive(a, b, a);
      LessIrreflexive(a);
    }
  }

  lemma AtMostTransitive(a: string, b: string, c: string)
    requires AtMost(a, b) && AtMost(b, c)
    ensures AtMost(a, c)
  {
    LessTotal(a, b);
    LessTotal(b, c);
    if Less(a, b) && Less(b, c) {
      LessTransitive(a, b, c);
    }
    if Less(c, a) {
      if Less(a, b) {
        LessTransitive(c, a, b);
      }
      if Less(b, c) {
        LessTransitive(b, c, a);
      }
      LessIrreflexive(a);
    }
  }

  /** A common prefix does not influence the order. */
  lemma {:induction false} LessAfterPrefix(p: string, a: string, b: string)
    ensures Less(p + a, p + b) == Less(a, b)
  {
    if p == [] {
      assert p + a == a && p + b == b;
    } else {
      assert (p + a)[1..] == p[1..] + a && (p + b)[1..] == p[1..] + b;
      LessAfterPrefix(p[1..], a, b);
    }
  }

  // ----- total preorders and sorting -----

  ghost predicate TotalPreorder<T(!new)>(le: (T, T) -> bool) {
    && (forall x, y :: le(x, y) || le(y, x))
    && (forall x, y, z :: le(x, y) && le(y, z) ==> le(x, z))
  }

  ghost predicate SortedBy<T>(s: seq<T>, le: (T, T) -> bool) {
    forall i, j :: 0 <= i < j < |s| ==> le(s[i], s[j])
  }

  /**
   sort.Slice: some sorted permutation.  Callers learn nothing about the order of
   elements that compare equal, as Go promises nothing about it.
   */
  method Sort<T(!new)>(s: seq<T>, le: (T, T) -> bool) returns (r: seq<T>)
    requires TotalPreorder(le)
    ensures multiset(r) == multiset(s)
    ensures SortedBy(r, le)
  {
    r := [];
    for n := 0 to |s|
      invariant multiset(r) == multiset(s[..n])
      invariant SortedBy(r, le)
    {
      assert s[..n + 1] == s[..n] + [s[n]];
      r := Insert(r, s[n], le);
    }
    assert s[..|s|] == s;
  }

  method Insert<T(!new)>(s: seq<T>, x: T, le: (T, T) -> bool) returns (r: seq<T>)
    requires TotalPreorder(le) && SortedBy(s, le)
    ensures multiset(r) == multiset(s) + multiset{x}
    ensures SortedBy(r, le)
  {
    var n := |s|;
    while 0 < n && !le(s[n - 1], x)
      invariant 0 <= n <= |s|
      invariant forall j :: n <= j < |s| ==> le(x, s[j])
    {
      n := n - 1;
    }
    r := s[..n] + [x] + s[n..];
    assert s == s[..n] + s[n..];
    InsertedSorted(s, x, n, le);
  }

  lemma InsertedSorted<T(!new)>(s: seq<T>, x: T, n: nat, le: (T, T) -> bool)
    requires TotalPreorder(le) && SortedBy(s, le) && n <= |s|
    requires n == 0 || le(s[n - 1], x)
    requires forall j :: n <= j < |s| ==> le(x, s[j])
    ensures SortedBy(s[..n] + [x] + s[n..], le)
  {
    var r := s[..n] + [x] + s[n..];
    forall i | 0 <= i < n
      ensures le(s[i], x)
    {
      if i < n - 1 { assert le(s[i], s[n - 1]); }
    }
    assert forall i :: 0 <= i < |r| ==> r[i] == if i < n then s[i] else if i == n then x else s[i - 1];
  }

  /** Elements that compare equal are equal. */
  ghost predicate Antisymmetric<T(!new)>(s: seq<T>, le: (T, T) -> bool) {
    forall x, y :: x in s && y in s && le(x, y) && le(y, x) ==> x == y
  }

  lemma SortedHeads<T(!new)>(s: seq<T>, t: seq<T>, le: (T, T) -> bool)
    requires multiset(s) == multiset(t) && s != [] && t != []
    requires SortedBy(s, le) && SortedBy(t, le) && Antisymmetric(s, le)
    ensures s[0] == t[0]
  {
    assert t[0] in multiset(s) && s[0] in multiset(t);
    var i :| 0 <= i < |s| && s[i] == t[0];
    var j :| 0 <= j < |t| && t[j] == s[0];
    if i != 0 && j != 0 {
      assert le(s[0], t[0]) && le(t[0], s[0]);
    }
  }

  /** A sorted permutation is unique when comparing equal means being equal. */
  lemma {:induction false} SortedUnique<T(!new)>(s: seq<T>, t: seq<T>, le: (T, T) -> bool)
    requires multiset(s) == multiset(t)
    requires SortedBy(s, le) && SortedBy(t, le) && Antisymmetric(s, le)
    ensures s == t
  {
    SameLength(s, t);
    if s != [] {
      SortedHeads(s, t, le);
      assert multiset(s[1..]) == multiset(t[1..]) by {
        TailMultiset(s);
        TailMultiset(t);
      }
      assert Antisymmetric(s[1..], le);
      SortedUnique(s[1..], t[1..], le);
      assert s == [s[0]] + s[1..] && t == [t[0]] + t[1..];
    }
  }

  lemma TailMultiset<T>(s: seq<T>)
    requires s != []
    ensures multiset(s[1..]) == multiset(s) - multiset{s[0]}
  {
    assert s == [s[0]] + s[1..];
  }

  lemma SameLength<T>(s: seq<T>, t: seq<T>)
    requires multiset(s) == multiset(t)
    ensures |s| == |t|
  {
    assert |multiset(s)| == |s| && |multiset(t)| == |t|;
  }

  function Without<T>(s: seq<T>, i: nat): (r: seq<T>)
    requires i < |s|
    ensures |r| == |s| - 1
  {
    s[..i] + s[i + 1..]
  }

  lemma WithoutOne<T>(s: seq<T>, i: nat)
    requires i < |s|
    ensures multiset(Without(s, i)) == multiset(s) - multiset{s[i]}
  {
    assert s == s[..i] + [s[i]] + s[i + 1..];
  }

  // ----- distinctness -----

  ghost predicate Distinct<T>(s: seq<T>) {
    forall i, j :: 0 <= i < j < |s| ==> s[i] != s[j]
  }

  function Elements<T>(s: seq<T>): set<T> {
    set x | x in s
  }

  lemma {:induction false} DistinctSize<T>(s: seq<T>)
    requires Distinct(s)
    ensures |Elements(s)| == |s|
  {
    if s != [] {
      var n := |s| - 1;
      DistinctSize(s[..n]);
      assert Elements(s) == Elements(s[..n]) + {s[n]};
    }
  }

  /** No two positions hold elements with equal keys. */
  predicate DistinctKeys<T(!new), K(==)>(s: seq<T>, key: T -> K) {
    forall i, j :: 0 <= i < j < |s| ==> key(s[i]) != key(s[j])
  }

  lemma {:induction false} RepeatedElement<T>(s: seq<T>, x: T) returns (i: nat, j: nat)
    requires multiset(s)[x] >= 2
    ensures i < j < |s| && s[i] == x && s[j] == x
  {
    var n := |s| - 1;
    assert s == s[..n] + [s[n]];
    if s[n] == x {
      assert x in multiset(s[..n]);
      i :| 0 <= i < n && s[..n][i] == x;
      j := n;
    } else {
      i, j := RepeatedElement(s[..n], x);
    }
  }

  lemma {:induction false} CountOfTwo<T>(s: seq<T>, i: nat, j: nat)
    requires i < j < |s| && s[i] == s[j]
    ensures multiset(s)[s[i]] >= 2
  {
    assert s == s[..j] + [s[j]] + s[j + 1..];
    assert s[..j][i] == s[i] && s[i] in multiset(s[..j]);
  }

  lemma DistinctKeysOfPermutation<T(!new), K>(s: seq<T>, t: seq<T>, key: T -> K)
    requires multiset(s) == multiset(t) && DistinctKeys(s, key)
    ensures DistinctKeys(t, key)
  {
    forall i, j | 0 <= i < j < |t|
      ensures key(t[i]) != key(t[j])
    {
      if t[i] == t[j] {
        CountOfTwo(t, i, j);
        var p, q := RepeatedElement(s, t[i]);
      } else {
        assert t[i] in multiset(s) && t[j] in multiset(s);
        var p :| 0 <= p < |s| && s[p] == t[i];
        var q :| 0 <= q < |s| && s[q] == t[j];
      }
    }
  }

  lemma SameDistinctKeys<T(!new), K>(x: seq<T>, y: seq<T>, key: T -> K)
    requires |x| == |y| && forall i :: 0 <= i < |x| ==> key(x[i]) == key(y[i])
    ensures DistinctKeys(x, key) <==> DistinctKeys(y, key)
  {
  }

  lemma SameForall<T(!new)>(x: seq<T>, y: seq<T>, p: T -> bool)
    requires |x| == |y| && forall i :: 0 <= i < |x| ==> p(x[i]) == p(y[i])
    ensures (forall e :: e in x ==> p(e)) <==> (forall e :: e in y ==> p(e))
  {
    if forall e :: e in x ==> p(e) {
      assert forall i :: 0 <= i < |y| ==> p(x[i]);
    }
    if forall e :: e in y ==> p(e) {
      assert forall i :: 0 <= i < |x| ==> p(y[i]);
    }
  }

  // ----- filtering -----

  function Filter<T>(s: seq<T>, keep: T -> bool): seq<T> {
    if s == [] then []
    else
      var n := |s| - 1;
      Filter(s[..n], keep) + if keep(s[n]) then [s[n]] else []
  }

  lemma {:induction false} FilterExact<T(!new)>(s: seq<T>, keep: T -> bool)
    ensures forall x :: x in Filter(s, keep) <==> x in s && keep(x)
  {
    if s != [] {
      var n := |s| - 1;
      FilterExact(s[..n], keep);
      assert s == s[..n] + [s[n]];
    }
  }

  /** What is kept stays in order. */
  lemma {:induction false} FilterSorted<T(!new)>(s: seq<T>, keep: T -> bool, le: (T, T) -> bool)
    requires SortedBy(s, le)
    ensures SortedBy(Filter(s, keep), le)
  {
    if s != [] {
      var n := |s| - 1;
      FilterSorted(s[..n], keep, le);
      var r := Filter(s[..n], keep);
      FilterExact(s[..n], keep);
      forall i | 0 <= i < |r|
        ensures le(r[i], s[n])
      {
        assert r[i] in s[..n];
      }
    }
  }
}
