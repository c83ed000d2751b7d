/** Taking a bounded number of elements of a set, as a statement with a row limit does. */
module BoundedSets {

  function Least(a: int, b: int): int {
    if a < b then a else b
  }

  /** At most n elements of a set, and as many as there are up to n. */
  ghost predicate IsPart<T>(part: set<T>, s: set<T>, n: nat) {
    part <= s && |part| == Least(|s|, n)
  }

  /** Which elements are taken is left open. */
  method TakeSome<T(==)>(s: set<T>, n: nat) returns (part: set<T>)
    ensures IsPart(part, s, n)
  {
    part := {};
    while |part| < n && part != s
      invariant part <= s && |part| <= n
      decreases |s| - |part|
    {
      Smaller(part, s);
      var x :| x in s - part;
      part := part + {x};
      Smaller(part, s);
    }
    Smaller(part, s);
  }

  lemma Smaller<T>(a: set<T>, b: set<T>)
    requires a <= b
    ensures |b| == |a| + |b - a|
    ensures a != b ==> exists x :: x in b - a
    ensures |a| == |b| ==> a == b
  {
    assert b == a + (b - a);
    if a != b {
      assert b - a != {};
    }
  }
}
