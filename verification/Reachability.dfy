/** Paths over finite binary relations on names: node IDs of a canvas, role names of a policy. */
module Reachability {

  type Relation = set<(string, string)>

  ghost predicate IsPath(r: Relation, p: seq<string>) {
    |p| >= 1 && forall i :: 0 <= i < |p| - 1 ==> (p[i], p[i + 1]) in r
  }

  ghost predicate PathBetween(r: Relation, p: seq<string>, a: string, b: string) {
    IsPath(r, p) && p[0] == a && p[|p| - 1] == b
  }

  /** b can be reached from a in zero or more steps. */
  ghost predicate Reaches(r: Relation, a: string, b: string) {
    exists p :: PathBetween(r, p, a, b)
  }

  ghost predicate Closed(r: Relation, s: set<string>) {
    forall a, b :: (a, b) in r && a in s ==> b in s
  }

  ghost predicate Symmetric(r: Relation) {
    forall a, b :: (a, b) in r ==> (b, a) in r
  }

  /** A directed cycle: a walk of at least one step that ends where it began. */
  ghost predicate Cycle(r: Relation, p: seq<string>) {
    |p| >= 2 && IsPath(r, p) && p[0] == p[|p| - 1]
  }

  ghost predicate Acyclic(r: Relation) {
    forall p :: !Cycle(r, p)
  }

  lemma ReachesSelf(r: Relation, a: string)
    ensures Reaches(r, a, a)
  {
    assert PathBetween(r, [a], a, a);
  }

  lemma ReachesTransitive(r: Relation, a: string, b: string, c: string)
    requires Reaches(r, a, b) && Reaches(r, b, c)
    ensures Reaches(r, a, c)
  {
    var p :| PathBetween(r, p, a, b);
    var q :| PathBetween(r, q, b, c);
    assert PathBetween(r, p + q[1..], a, c);
  }

  lemma ReachesStep(r: Relation, a: string, b: string)
    requires (a, b) in r
    ensures Reaches(r, a, b)
  {
    assert PathBetween(r, [a, b], a, b);
  }

  lemma ReachesExtend(r: Relation, a: string, b: string, c: string)
    requires Reaches(r, a, b) && (b, c) in r
    ensures Reaches(r, a, c)
  {
    ReachesStep(r, b, c);
    ReachesTransitive(r, a, b, c);
  }

  lemma ReachesMonotone(r: Relation, r': Relation, a: string, b: string)
    requires r <= r' && Reaches(r, a, b)
    ensures Reaches(r', a, b)
  {
    var p :| PathBetween(r, p, a, b);
    assert PathBetween(r', p, a, b);
  }

  lemma {:induction false} PathStaysInClosed(r: Relation, p: seq<string>, s: set<string>, i: nat)
    requires IsPath(r, p) && Closed(r, s) && p[0] in s && i < |p|
    ensures p[i] in s
  {
    if i > 0 {
      PathStaysInClosed(r, p, s, i - 1);
      assert (p[i - 1], p[i - 1 + 1]) in r;
    }
  }

  /** A set closed under the relation cannot be left. */
  lemma ClosedStays(r: Relation, s: set<string>, a: string, b: string)
    requires Closed(r, s) && a in s && Reaches(r, a, b)
    ensures b in s
  {
    var p :| PathBetween(r, p, a, b);
    PathStaysInClosed(r, p, s, |p| - 1);
  }

  lemma ReachesSymmetric(r: Relation, a: string, b: string)
    requires Symmetric(r) && Reaches(r, a, b)
    ensures Reaches(r, b, a)
  {
    var p :| PathBetween(r, p, a, b);
    var q := seq(|p|, i requires 0 <= i < |p| => p[|p| - 1 - i]);
    forall i | 0 <= i < |q| - 1 ensures (q[i], q[i + 1]) in r {
      var j := |p| - 2 - i;
      assert (p[j], p[j + 1]) in r;
    }
    assert PathBetween(r, q, b, a);
  }

  /** Over a symmetric relation a closed set cannot be entered either. */
  lemma ClosedNotEntered(r: Relation, s: set<string>, a: string, b: string)
    requires Symmetric(r) && Closed(r, s) && a !in s && Reaches(r, a, b)
    ensures b !in s
  {
    ReachesSymmetric(r, a, b);
    if b in s {
      ClosedStays(r, s, b, a);
    }
  }

  /** If every step of r can be simulated by r', so can every path. */
  lemma {:induction false} PathSimulated(r: Relation, r': Relation, p: seq<string>, i: nat)
    requires IsPath(r, p) && i < |p|
    requires forall a, b :: (a, b) in r ==> Reaches(r', a, b)
    ensures Reaches(r', p[0], p[i])
  {
    if i == 0 {
      ReachesSelf(r', p[0]);
    } else {
      PathSimulated(r, r', p, i - 1);
      assert (p[i - 1], p[i - 1 + 1]) in r;
      ReachesTransitive(r', p[0], p[i - 1], p[i]);
    }
  }

  lemma ReachesSimulated(r: Relation, r': Relation, a: string, b: string)
    requires forall x, y :: (x, y) in r ==> Reaches(r', x, y)
    requires Reaches(r, a, b)
    ensures Reaches(r', a, b)
  {
    var p :| PathBetween(r, p, a, b);
    PathSimulated(r, r', p, |p| - 1);
  }

  /** A cycle exists exactly if some arc can be walked back. */
  lemma AcyclicIffNoArcReturns(r: Relation)
    ensures Acyclic(r) <==> forall a, b :: (a, b) in r ==> !Reaches(r, b, a)
  {
    if Acyclic(r) {
      forall a, b | (a, b) in r ensures !Reaches(r, b, a) {
        if Reaches(r, b, a) {
          var p :| PathBetween(r, p, b, a);
          assert Cycle(r, [a] + p);
        }
      }
    }
    if forall a, b :: (a, b) in r ==> !Reaches(r, b, a) {
      forall p ensures !Cycle(r, p) {
        if Cycle(r, p) {
          assert (p[0], p[0 + 1]) in r;
          assert PathBetween(r, p[1..], p[1], p[0]);
        }
      }
    }
  }

  /** A path that uses a newly added arc splits at that arc. */
  lemma {:induction false} PathThroughNewArc(r: Relation, u: string, v: string, p: seq<string>, i: nat)
    requires IsPath(r + {(u, v)}, p) && i < |p|
    ensures Reaches(r, p[0], p[i]) || (Reaches(r, p[0], u) && Reaches(r, v, p[i]))
  {
    if i == 0 {
      ReachesSelf(r, p[0]);
    } else {
      PathThroughNewArc(r, u, v, p, i - 1);
      assert (p[i - 1], p[i - 1 + 1]) in r + {(u, v)};
      if (p[i - 1], p[i]) in r {
        if Reaches(r, p[0], p[i - 1]) {
          ReachesExtend(r, p[0], p[i - 1], p[i]);
        } else {
          ReachesExtend(r, v, p[i - 1], p[i]);
        }
      } else {
        assert p[i - 1] == u && p[i] == v;
        ReachesSelf(r, v);
      }
    }
  }

  /** Adding an arc that does not close a cycle keeps the relation acyclic. */
  lemma AddArcKeepsAcyclic(r: Relation, u: string, v: string)
    requires Acyclic(r) && !Reaches(r, v, u)
    ensures Acyclic(r + {(u, v)})
  {
    var r' := r + {(u, v)};
    forall a, b | (a, b) in r' ensures !Reaches(r', b, a) {
      if Reaches(r', b, a) {
        var p :| PathBetween(r', p, b, a);
        PathThroughNewArc(r, u, v, p, |p| - 1);
        AcyclicIffNoArcReturns(r);
        if (a, b) in r {
          assert Reaches(r, b, u) && Reaches(r, v, a);
          ReachesExtend(r, v, a, b);
          ReachesTransitive(r, v, b, u);
        }
      }
    }
    AcyclicIffNoArcReturns(r');
  }
}
