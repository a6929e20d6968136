/** Reachability along a finite set of directed edges between operation ids. */
module Reachability {

  type Edges = set<(nat, nat)>

  ghost predicate IsPath(edges: Edges, path: seq<nat>) {
    |path| >= 2 && forall i :: 0 <= i < |path| - 1 ==> (path[i], path[i + 1]) in edges
  }

  /** `b` is reached from `a` by one or more edges. */
  ghost predicate Reaches(edges: Edges, a: nat, b: nat) {
    exists path: seq<nat> :: IsPath(edges, path) && path[0] == a && path[|path| - 1] == b
  }

  lemma EdgeReaches(edges: Edges, a: nat, b: nat)
    requires (a, b) in edges
    ensures Reaches(edges, a, b)
  {
    var path := [a, b];
    assert IsPath(edges, path) && path[0] == a && path[|path| - 1] == b;
  }

  lemma ReachesTransitive(edges: Edges, a: nat, b: nat, c: nat)
    requires Reaches(edges, a, b) && Reaches(edges, b, c)
    ensures Reaches(edges, a, c)
  {
    var p: seq<nat> :| IsPath(edges, p) && p[0] == a && p[|p| - 1] == b;
    var q: seq<nat> :| IsPath(edges, q) && q[0] == b && q[|q| - 1] == c;
    var path := p + q[1..];
    forall i | 0 <= i < |path| - 1 ensures (path[i], path[i + 1]) in edges {
      if i >= |p| - 1 {
        assert path[i] == q[i - (|p| - 1)] && path[i + 1] == q[i - (|p| - 1) + 1];
      }
    }
    assert IsPath(edges, path) && path[0] == a && path[|path| - 1] == c;
  }

  lemma FirstStep(edges: Edges, a: nat, b: nat) returns (x: nat)
    requires Reaches(edges, a, b)
    ensures (a, x) in edges && (x == b || Reaches(edges, x, b))
  {
    var p: seq<nat> :| IsPath(edges, p) && p[0] == a && p[|p| - 1] == b;
    x := p[1];
    assert (p[0], p[1]) in edges;
    if |p| > 2 {
      assert IsPath(edges, p[1..]);
    }
  }

  lemma ReachesMonotone(edges: Edges, more: Edges, a: nat, b: nat)
    requires edges <= more && Reaches(edges, a, b)
    ensures Reaches(more, a, b)
  {
    var p: seq<nat> :| IsPath(edges, p) && p[0] == a && p[|p| - 1] == b;
    assert IsPath(more, p);
  }

  /** A set that holds the successors of `a` and of its own members holds all that `a` reaches. */
  lemma ReachesStaysInside(edges: Edges, inside: set<nat>, a: nat, b: nat)
    requires Reaches(edges, a, b)
    requires forall x: nat, y: nat :: (x, y) in edges && (x == a || x in inside) ==> y in inside
    ensures b in inside
  {
    var p: seq<nat> :| IsPath(edges, p) && p[0] == a && p[|p| - 1] == b;
    PathStaysInside(edges, inside, a, p, |p| - 1);
  }

  lemma {:induction false} PathStaysInside(edges: Edges, inside: set<nat>, a: nat, p: seq<nat>, i: nat)
    requires IsPath(edges, p) && p[0] == a && 1 <= i < |p|
    requires forall x: nat, y: nat :: (x, y) in edges && (x == a || x in inside) ==> y in inside
    ensures p[i] in inside
  {
    if i > 1 {
      PathStaysInside(edges, inside, a, p, i - 1);
    }
    assert (p[i - 1], p[i]) in edges;
  }
}
