/** Paths, reachability and connected components of a graph given by its adjacency test. */
module Paths {

  ghost predicate Symmetric<T(!new)>(g: (T, T) -> bool) {
    forall a, b :: g(a, b) ==> g(b, a)
  }

  ghost predicate Path<T(!new)>(g: (T, T) -> bool, within: set<T>, a: T, b: T, p: seq<T>) {
    && p != [] && p[0] == a && p[|p| - 1] == b
    && (forall i :: 0 <= i < |p| ==> p[i] in within)
    && (forall i :: 0 <= i < |p| - 1 ==> g(p[i], p[i + 1]))
  }

  ghost predicate Reachable<T(!new)>(g: (T, T) -> bool, within: set<T>, a: T, b: T) {
    exists p :: Path(g, within, a, b, p)
  }

  /** Any two of these devices are joined by a path that stays inside the set. */
  ghost predicate ConnectedSet<T(!new)>(g: (T, T) -> bool, s: set<T>) {
    forall a, b :: a in s && b in s ==> Reachable(g, s, a, b)
  }

  ghost function Component<T(!new)>(g: (T, T) -> bool, within: set<T>, a: T): set<T> {
    set b | b in within && Reachable(g, within, a, b)
  }

  lemma ReachSelf<T(!new)>(g: (T, T) -> bool, within: set<T>, a: T)
    requires a in within
    ensures Reachable(g, within, a, a)
  {
    assert Path(g, within, a, a, [a]);
  }

  lemma ReachStep<T(!new)>(g: (T, T) -> bool, within: set<T>, a: T, b: T, c: T)
    requires Reachable(g, within, a, b) && g(b, c) && c in within
    ensures Reachable(g, within, a, c)
  {
    var p :| Path(g, within, a, b, p);
    assert Path(g, within, a, c, p + [c]);
  }

  lemma ReachTransitive<T(!new)>(g: (T, T) -> bool, within: set<T>, a: T, b: T, c: T)
    requires Reachable(g, within, a, b) && Reachable(g, within, b, c)
    ensures Reachable(g, within, a, c)
  {
    var p :| Path(g, within, a, b, p);
    var q :| Path(g, within, b, c, q);
    assert Path(g, within, a, c, p + q[1..]);
  }

  lemma ReachBack<T(!new)>(g: (T, T) -> bool, within: set<T>, a: T, b: T)
    requires Symmetric(g) && Reachable(g, within, a, b)
    ensures Reachable(g, within, b, a)
  {
    var p :| Path(g, within, a, b, p);
    var q := seq(|p|, i requires 0 <= i < |p| => p[|p| - 1 - i]);
    forall i | 0 <= i < |q| - 1
      ensures g(q[i], q[i + 1])
    {
      assert g(p[|p| - 2 - i], p[|p| - 2 - i + 1]);
    }
    assert Path(g, within, b, a, q);
  }

  lemma ReachWider<T(!new)>(g: (T, T) -> bool, within: set<T>, wider: set<T>, a: T, b: T)
    requires within <= wider && Reachable(g, within, a, b)
    ensures Reachable(g, wider, a, b)
  {
    var p :| Path(g, within, a, b, p);
    assert Path(g, wider, a, b, p);
  }

  /** A set that no link leaves contains everything reachable from its members. */
  lemma {:induction false} ClosedKeeps<T(!new)>(g: (T, T) -> bool, within: set<T>, closed: set<T>, a: T, b: T,
                                                p: seq<T>)
    requires Path(g, within, a, b, p) && a in closed
    requires forall x, y :: x in closed && y in within && g(x, y) ==> y in closed
    ensures b in closed
    decreases |p|
  {
    if |p| > 1 {
      assert g(p[0], p[1]);
      assert Path(g, within, p[1], b, p[1..]);
      ClosedKeeps(g, within, closed, p[1], b, p[1..]);
    }
  }
}
