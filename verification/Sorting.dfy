/** Stable sorting and the byte order of names, as the Go standard library provides them. */
module Sorting {
  import opened Sequences

  /** Insertion after every element that x does not precede, which keeps equal elements in order. */
  function Insert<T>(s: seq<T>, x: T, before: (T, T) -> bool): seq<T> {
    if s == [] then [x]
    else
      var last := s[|s| - 1];
      if before(x, last) then Insert(s[..|s| - 1], x, before) + [last] else s + [x]
  }

  function StableSort<T>(s: seq<T>, before: (T, T) -> bool): seq<T> {
    if s == [] then []
    else Insert(StableSort(s[..|s| - 1], before), s[|s| - 1], before)
  }

  /** A strict weak order, restricted to the elements that are sorted. */
  ghost predicate StrictWeakOrder<T(!new)>(s: set<T>, before: (T, T) -> bool) {
    && (forall a :: a in s ==> !before(a, a))
    && (forall a, b, c :: a in s && b in s && c in s && before(a, b) && before(b, c) ==> before(a, c))
    && (forall a, b, c :: a in s && b in s && c in s && before(a, c) ==> before(a, b) || before(b, c))
  }

  ghost predicate Ordered<T>(s: seq<T>, before: (T, T) -> bool) {
    forall i, j :: 0 <= i < j < |s| ==> !before(s[j], s[i])
  }

  ghost predicate StrictlyOrdered<T>(s: seq<T>, before: (T, T) -> bool) {
    forall i, j :: 0 <= i < j < |s| ==> before(s[i], s[j]) && !before(s[j], s[i])
  }

  lemma {:induction false} InsertPermutes<T>(s: seq<T>, x: T, before: (T, T) -> bool)
    ensures multiset(Insert(s, x, before)) == multiset(s) + multiset{x}
  {
    if s != [] {
      var front, last := s[..|s| - 1], s[|s| - 1];
      assert s == front + [last];
      InsertPermutes(front, x, before);
    }
  }

  lemma {:induction false} StableSortPermutes<T>(s: seq<T>, before: (T, T) -> bool)
    ensures multiset(StableSort(s, before)) == multiset(s)
  {
    if s != [] {
      var front, last := s[..|s| - 1], s[|s| - 1];
      assert s == front + [last];
      StableSortPermutes(front, before);
      InsertPermutes(StableSort(front, before), last, before);
    }
  }

  lemma SameMembers<T>(s: seq<T>, t: seq<T>)
    requires multiset(s) == multiset(t)
    ensures |s| == |t| && forall x :: x in s <==> x in t
  {
    assert |multiset(s)| == |s| && |multiset(t)| == |t|;
    assert forall x :: x in s <==> x in multiset(s);
    assert forall x :: x in t <==> x in multiset(t);
  }

  lemma StableSortMembers<T>(s: seq<T>, before: (T, T) -> bool)
    ensures |StableSort(s, before)| == |s|
    ensures forall x :: x in StableSort(s, before) <==> x in s
  {
    StableSortPermutes(s, before);
    SameMembers(StableSort(s, before), s);
  }

  lemma {:induction false} InsertMembers<T>(s: seq<T>, x: T, before: (T, T) -> bool, i: nat)
    requires i < |Insert(s, x, before)|
    ensures Insert(s, x, before)[i] == x || Insert(s, x, before)[i] in s
  {
    if s != [] && before(x, s[|s| - 1]) && i < |Insert(s[..|s| - 1], x, before)| {
      InsertMembers(s[..|s| - 1], x, before, i);
    }
  }

  lemma {:induction false} InsertOrders<T(!new)>(all: set<T>, s: seq<T>, x: T, before: (T, T) -> bool)
    requires StrictWeakOrder(all, before) && x in all && forall y :: y in s ==> y in all
    requires Ordered(s, before)
    ensures Ordered(Insert(s, x, before), before)
  {
    if s != [] {
      var n := |s| - 1;
      assert s[n] in s;
      if before(x, s[n]) {
        var r := Insert(s[..n], x, before);
        InsertOrders(all, s[..n], x, before);
        forall i | 0 <= i < |r| ensures !before(s[n], r[i]) {
          InsertMembers(s[..n], x, before, i);
        }
      } else {
        forall i | 0 <= i < n ensures !before(x, s[i]) {
          assert s[i] in s && !before(s[n], s[i]);
        }
      }
    }
  }

  lemma {:induction false} StableSortOrders<T(!new)>(all: set<T>, s: seq<T>, before: (T, T) -> bool)
    requires StrictWeakOrder(all, before) && forall y :: y in s ==> y in all
    ensures Ordered(StableSort(s, before), before)
  {
    if s != [] {
      var front, last := s[..|s| - 1], s[|s| - 1];
      assert s == front + [last];
      StableSortOrders(all, front, before);
      StableSortMembers(front, before);
      InsertOrders(all, StableSort(front, before), last, before);
    }
  }

  /** a stands somewhere before b. */
  ghost predicate Precedes<T>(s: seq<T>, a: T, b: T) {
    exists i, j :: 0 <= i < j < |s| && s[i] == a && s[j] == b
  }

  lemma PrecedesIn<T>(s: seq<T>, t: seq<T>, a: T, b: T)
    requires Precedes(s, a, b)
    ensures Precedes(s + t, a, b)
  {
    var i, j :| 0 <= i < j < |s| && s[i] == a && s[j] == b;
    assert (s + t)[i] == a && (s + t)[j] == b;
  }

  lemma PrecedesLast<T>(s: seq<T>, a: T, b: T)
    ensures Precedes(s + [b], a, b) <==> a in s || Precedes(s, a, b)
    ensures forall c :: c != b ==> (Precedes(s + [b], a, c) <==> Precedes(s, a, c))
  {
    var t := s + [b];
    if i :| 0 <= i < |s| && s[i] == a {
      assert t[i] == a && t[|s|] == b;
    }
    forall c | Precedes(s, a, c) ensures Precedes(t, a, c) {
      PrecedesIn(s, [b], a, c);
    }
    forall c | c != b && Precedes(t, a, c) ensures Precedes(s, a, c) {
      var i, j :| 0 <= i < j < |t| && t[i] == a && t[j] == c;
      assert s[i] == a && s[j] == c;
    }
  }

  /** An inserted element stays behind every element that it does not precede. */
  lemma {:induction false} InsertBehind<T(!new)>(s: seq<T>, x: T, before: (T, T) -> bool, a: T)
    requires a in s && !before(x, a)
    ensures Precedes(Insert(s, x, before), a, x)
  {
    var front, last := s[..|s| - 1], s[|s| - 1];
    assert s == front + [last];
    if before(x, last) {
      InsertBehind(front, x, before, a);
      PrecedesIn(Insert(front, x, before), [last], a, x);
    } else {
      PrecedesLast(s, a, x);
    }
  }

  lemma {:induction false} InsertKeepsOrder<T(!new)>(s: seq<T>, x: T, before: (T, T) -> bool, a: T, b: T)
    requires Precedes(s, a, b)
    ensures Precedes(Insert(s, x, before), a, b)
  {
    var front, last := s[..|s| - 1], s[|s| - 1];
    assert s == front + [last];
    if !before(x, last) {
      PrecedesIn(s, [x], a, b);
    } else if Precedes(front, a, b) {
      InsertKeepsOrder(front, x, before, a, b);
      PrecedesIn(Insert(front, x, before), [last], a, b);
    } else {
      PrecedesLast(front, a, last);
      InsertPermutes(front, x, before);
      assert a in front ==> a in multiset(Insert(front, x, before));
      PrecedesLast(Insert(front, x, before), a, last);
    }
  }

  /** The sort is stable: elements stay in order unless the later one precedes the earlier. */
  lemma {:induction false} StableSortIsStable<T(!new)>(s: seq<T>, before: (T, T) -> bool, a: T, b: T)
    requires Precedes(s, a, b) && !before(b, a)
    ensures Precedes(StableSort(s, before), a, b)
  {
    var front, last := s[..|s| - 1], s[|s| - 1];
    assert s == front + [last];
    StableSortMembers(front, before);
    if Precedes(front, a, b) {
      StableSortIsStable(front, before, a, b);
      InsertKeepsOrder(StableSort(front, before), last, before, a, b);
    } else {
      PrecedesLast(front, a, last);
      InsertBehind(StableSort(front, before), last, before, a);
    }
  }

  /** A strictly ordered arrangement is the only ordered one. */
  lemma {:induction false} OrderedIsUnique<T>(s: seq<T>, t: seq<T>, before: (T, T) -> bool)
    requires multiset(s) == multiset(t)
    requires StrictlyOrdered(s, before) && Ordered(t, before)
    ensures s == t
  {
    SameMembers(s, t);
    if s != [] {
      var n := |s| - 1;
      LastsAgree(s, t, before);
      WithoutLast(s);
      WithoutLast(t);
      OrderedIsUnique(s[..n], t[..n], before);
    }
  }

  lemma WithoutLast<T>(s: seq<T>)
    requires s != []
    ensures multiset(s[..|s| - 1]) == multiset(s) - multiset{s[|s| - 1]}
    ensures s == s[..|s| - 1] + [s[|s| - 1]]
  {
    assert s == s[..|s| - 1] + [s[|s| - 1]];
  }

  lemma LastsAgree<T>(s: seq<T>, t: seq<T>, before: (T, T) -> bool)
    requires s != [] && |s| == |t| && forall x :: x in s <==> x in t
    requires StrictlyOrdered(s, before) && Ordered(t, before)
    ensures s[|s| - 1] == t[|t| - 1]
  {
    var n := |s| - 1;
    assert s[n] in t && t[n] in s;
    var j :| 0 <= j <= n && t[j] == s[n];
    var k :| 0 <= k <= n && s[k] == t[n];
    if k < n {
      assert before(s[k], s[n]);
    }
  }

  lemma {:induction false} DistinctOccurOnce<T>(s: seq<T>, x: T)
    requires Distinct(s)
    ensures multiset(s)[x] <= 1
  {
    if s != [] {
      var n := |s| - 1;
      assert s == s[..n] + [s[n]];
      DistinctOccurOnce(s[..n], x);
      if x == s[n] {
        assert x !in s[..n];
      }
    }
  }

  lemma PermutedDistinct<T>(s: seq<T>, t: seq<T>)
    requires Distinct(s) && multiset(s) == multiset(t)
    ensures Distinct(t)
  {
    forall i, j | 0 <= i < j < |t| ensures t[i] != t[j] {
      var a, b := t[..j], t[j..];
      assert t == a + b;
      assert a[i] == t[i] && b[0] == t[j];
      assert multiset(t) == multiset(a) + multiset(b);
      DistinctOccurOnce(s, t[j]);
      assert t[j] in multiset(b) && t[i] in multiset(a);
    }
  }

  /** Sorting commutes with a map that reflects the order. */
  lemma {:induction false} InsertMaps<S(!new), T(!new)>(s: seq<S>, t: seq<T>, x: S, y: T, f: S -> T,
                                            beforeS: (S, S) -> bool, beforeT: (T, T) -> bool)
    requires |s| == |t| && (forall i :: 0 <= i < |s| ==> t[i] == f(s[i])) && y == f(x)
    requires forall a :: a in s ==> (beforeS(x, a) <==> beforeT(y, f(a)))
    ensures |Insert(s, x, beforeS)| == |Insert(t, y, beforeT)|
    ensures forall i :: 0 <= i < |Insert(s, x, beforeS)| ==> Insert(t, y, beforeT)[i] == f(Insert(s, x, beforeS)[i])
  {
    if s != [] {
      var n := |s| - 1;
      assert s[n] in s;
      if beforeS(x, s[n]) {
        InsertMaps(s[..n], t[..n], x, y, f, beforeS, beforeT);
      }
    }
  }

  lemma {:induction false} StableSortMaps<S(!new), T(!new)>(s: seq<S>, t: seq<T>, f: S -> T,
                                                beforeS: (S, S) -> bool, beforeT: (T, T) -> bool)
    requires |s| == |t| && forall i :: 0 <= i < |s| ==> t[i] == f(s[i])
    requires forall a, b :: a in s && b in s ==> (beforeS(a, b) <==> beforeT(f(a), f(b)))
    ensures |StableSort(s, beforeS)| == |StableSort(t, beforeT)|
    ensures forall i :: 0 <= i < |StableSort(s, beforeS)| ==> StableSort(t, beforeT)[i] == f(StableSort(s, beforeS)[i])
  {
    if s != [] {
      var n := |s| - 1;
      assert s == s[..n] + [s[n]];
      StableSortMaps(s[..n], t[..n], f, beforeS, beforeT);
      StableSortPermutes(s[..n], beforeS);
      var sorted := StableSort(s[..n], beforeS);
      SameMembers(sorted, s[..n]);
      forall a | a in sorted ensures beforeS(s[n], a) <==> beforeT(t[n], f(a)) {
        assert a in s[..n] && a in s && s[n] in s && t[n] == f(s[n]);
      }
      InsertMaps(sorted, StableSort(t[..n], beforeT), s[n], t[n], f, beforeS, beforeT);
    }
  }

  // ----- names -----

  predicate NameLess(a: string, b: string) {
    b != [] && (a == [] || a[0] < b[0] || (a[0] == b[0] && NameLess(a[1..], b[1..])))
  }

  /** The byte order: the shorter of two names that agree, or the one with the smaller byte where they first differ. */
  lemma {:induction false} NameLessIff(a: string, b: string)
    ensures NameLess(a, b)
            <==> exists k :: && 0 <= k <= |a| && k < |b| && a[..k] == b[..k]
                             && (k < |a| ==> a[k] < b[k])
  {
    if a != [] && b != [] && a[0] == b[0] {
      NameLessIff(a[1..], b[1..]);
      if k :| 0 <= k <= |a[1..]| && k < |b[1..]| && a[1..][..k] == b[1..][..k] && (k < |a[1..]| ==> a[1..][k] < b[1..][k]) {
        SameFirst(a, b, k);
      }
      if k :| 0 <= k <= |a| && k < |b| && a[..k] == b[..k] && (k < |a| ==> a[k] < b[k]) {
        assert k > 0;
        assert a[1..][..k - 1] == a[..k][1..] && b[1..][..k - 1] == b[..k][1..];
      }
    } else if b != [] {
      assert a[..0] == b[..0];
      assert forall k :: 0 < k <= |a| && k <= |b| ==> a[..k][0] == a[0] && b[..k][0] == b[0];
    }
  }

  lemma SameFirst(a: string, b: string, k: nat)
    requires a != [] && b != [] && a[0] == b[0]
    requires k <= |a[1..]| && k < |b[1..]| && a[1..][..k] == b[1..][..k]
    ensures a[..k + 1] == b[..k + 1]
    ensures b[k + 1] == b[1..][k] && (k < |a[1..]| ==> a[k + 1] == a[1..][k])
  {
    assert a[..k + 1] == [a[0]] + a[1..][..k] && b[..k + 1] == [b[0]] + b[1..][..k];
  }

  lemma {:induction false} NameLessIrreflexive(a: string)
    ensures !NameLess(a, a)
  {
    if a != [] {
      NameLessIrreflexive(a[1..]);
    }
  }

  lemma {:induction false} NameLessTransitive(a: string, b: string, c: string)
    requires NameLess(a, b) && NameLess(b, c)
    ensures NameLess(a, c)
  {
    if a != [] && a[0] == b[0] && b[0] == c[0] {
      NameLessTransitive(a[1..], b[1..], c[1..]);
    }
  }

  lemma {:induction false} NameLessTotal(a: string, b: string)
    requires a != b
    ensures NameLess(a, b) || NameLess(b, a)
  {
    if a != [] && b != [] && a[0] == b[0] {
      assert a == [a[0]] + a[1..] && b == [b[0]] + b[1..];
      NameLessTotal(a[1..], b[1..]);
    }
  }
}
