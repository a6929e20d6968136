/**
 Emitted provenance, the worklist search that takes closures over it, and the A3 detectors and
 exposure counts that read it.
 */
module Provenance {
  import opened Common
  import opened Reachability

  datatype Prov = Prov(txn: nat, committed: bool, aborted: bool, externalized: bool, predecessors: seq<nat>)

  /** Recorded predecessors by operation id. */
  type Graph = map<nat, seq<nat>>

  ghost function EdgesOf(graph: Graph): Edges {
    set x, y | x in graph && y in graph[x] :: (x, y)
  }

  /** `p` is one of the roots or is reached from one. */
  ghost predicate Rests(graph: Graph, roots: seq<nat>, p: nat) {
    p in roots || exists q: nat :: q in roots && Reaches(EdgesOf(graph), q, p)
  }

  lemma RestsExtends(graph: Graph, roots: seq<nat>, x: nat, y: nat)
    requires Rests(graph, roots, x) && x in graph && y in graph[x]
    ensures Rests(graph, roots, y)
  {
    EdgeReaches(EdgesOf(graph), x, y);
    if x !in roots {
      var q: nat :| q in roots && Reaches(EdgesOf(graph), q, x);
      ReachesTransitive(EdgesOf(graph), q, x, y);
    }
  }

  /** A set with the roots that is closed under the graph holds everything that rests on the roots. */
  lemma RestsStaysInside(graph: Graph, roots: seq<nat>, inside: set<nat>, p: nat)
    requires Rests(graph, roots, p)
    requires forall x: nat :: x in roots ==> x in inside
    requires forall x: nat, y: nat :: x in inside && x in graph && y in graph[x] ==> y in inside
    ensures p in inside
  {
    if p !in roots {
      var q: nat :| q in roots && Reaches(EdgesOf(graph), q, p);
      ReachesStaysInside(EdgesOf(graph), inside, q, p);
    }
  }

  /** Everything the search can ever push. */
  ghost function Universe(graph: Graph, roots: seq<nat>): set<nat> {
    (set x | x in roots) + (set x, y | x in graph && y in graph[x] :: y)
  }

  /**
   The worklist search: pop an id, and unless it was seen, push its recorded predecessors.  It ends
   on every finite graph, cyclic ones included, with exactly what rests on the roots.
   */
  method Closure(graph: Graph, roots: seq<nat>) returns (seen: set<nat>)
    ensures forall p: nat :: p in seen <==> Rests(graph, roots, p)
  {
    seen := {};
    var stack := roots;
    while stack != []
      invariant seen <= Universe(graph, roots)
      invariant forall x: nat :: x in stack ==> x in Universe(graph, roots) && Rests(graph, roots, x)
      invariant forall x: nat :: x in seen ==> Rests(graph, roots, x)
      invariant forall x: nat :: x in roots ==> x in seen || x in stack
      invariant forall x: nat, y: nat :: x in seen && x in graph && y in graph[x] ==> y in seen || y in stack
      decreases Universe(graph, roots) - seen, |stack|
    {
      ghost var before := stack;
      var p := stack[|stack| - 1];
      stack := stack[..|stack| - 1];
      assert before == stack + [p];
      if p !in seen {
        seen := seen + {p};
        if p in graph {
          forall y: nat | y in graph[p] ensures y in Universe(graph, roots) && Rests(graph, roots, y) {
            RestsExtends(graph, roots, p, y);
          }
          stack := stack + graph[p];
        }
      }
    }
    forall p: nat | Rests(graph, roots, p) ensures p in seen {
      RestsStaysInside(graph, roots, seen, p);
    }
  }

  // --------------------------------------------------------------- traces

  /** The first record of an operation is the one a lookup finds. */
  function GraphOf(trace: seq<Prov>): Graph {
    if trace == [] then map[]
    else
      var earlier, r := GraphOf(trace[..|trace| - 1]), trace[|trace| - 1];
      if r.txn in earlier then earlier else earlier[r.txn := r.predecessors]
  }

  /** Record `i` is operation `i`: what a store that numbers its transactions emits. */
  ghost predicate Indexed(trace: seq<Prov>) {
    forall i: nat :: i < |trace| ==> trace[i].txn == i
  }

  lemma {:induction false} IndexedGraph(trace: seq<Prov>)
    requires Indexed(trace)
    ensures GraphOf(trace) == map i: nat | i < |trace| :: trace[i].predecessors
  {
    if trace != [] {
      IndexedGraph(trace[..|trace| - 1]);
    }
  }

  /** Where an operation has several records, the first one counts. */
  lemma {:induction false} FirstRecordCounts(trace: seq<Prov>, i: nat)
    requires i < |trace| && forall k :: 0 <= k < i ==> trace[k].txn != trace[i].txn
    ensures trace[i].txn in GraphOf(trace) && GraphOf(trace)[trace[i].txn] == trace[i].predecessors
  {
    if i + 1 < |trace| {
      FirstRecordCounts(trace[..|trace| - 1], i);
    } else {
      UnrecordedHasNone(trace[..i], trace[i].txn);
    }
  }

  lemma {:induction false} UnrecordedHasNone(trace: seq<Prov>, id: nat)
    ensures id in GraphOf(trace) <==> exists k :: 0 <= k < |trace| && trace[k].txn == id
  {
    if trace != [] {
      UnrecordedHasNone(trace[..|trace| - 1], id);
    }
  }

  ghost predicate AbortedIn(trace: seq<Prov>, p: nat) {
    exists i :: 0 <= i < |trace| && trace[i].txn == p && trace[i].aborted
  }

  /** Record `i` rests on `p`, and `p` is aborted. */
  ghost predicate RestsOnAborted(trace: seq<Prov>, i: nat, p: nat)
    requires i < |trace|
  {
    Rests(GraphOf(trace), trace[i].predecessors, p) && AbortedIn(trace, p)
  }

  predicate ReleasedRecord(r: Prov) {
    r.externalized
  }

  predicate SurvivingRecord(r: Prov) {
    r.committed && !r.aborted
  }

  method IsAbortedIn(trace: seq<Prov>, p: nat) returns (b: bool)
    ensures b <==> AbortedIn(trace, p)
  {
    var i := 0;
    while i < |trace|
      invariant 0 <= i <= |trace|
      invariant forall k :: 0 <= k < i ==> !(trace[k].txn == p && trace[k].aborted)
    {
      if trace[i].txn == p && trace[i].aborted {
        return true;
      }
      i := i + 1;
    }
    return false;
  }

  /** The least aborted operation record `i` rests on, if there is one. */
  method AbortedBasis(trace: seq<Prov>, i: nat) returns (r: Option<nat>)
    requires i < |trace|
    ensures r.Some? ==> RestsOnAborted(trace, i, r.value)
                        && forall p: nat :: RestsOnAborted(trace, i, p) ==> r.value <= p
    ensures r.None? ==> forall p: nat :: !RestsOnAborted(trace, i, p)
  {
    var closure := Closure(GraphOf(trace), trace[i].predecessors);
    var rest := closure;
    while rest != {}
      invariant rest <= closure
      invariant forall p: nat :: p in closure && p !in rest ==>
                  !AbortedIn(trace, p) && forall q: nat :: q in rest ==> p < q
      decreases rest
    {
      var p := Least(rest);
      var aborted := IsAbortedIn(trace, p);
      if aborted {
        return Some(p);
      }
      rest := rest - {p};
    }
    return None;
  }

  /**
   The shared scan of both A3 detectors over the records that `selected` keeps: the first record
   that rests on an aborted operation, with the least such operation, and none exactly when no
   selected record does.
   */
  method FirstOnAborted(trace: seq<Prov>, selected: Prov -> bool) returns (r: Option<(nat, nat)>, ghost at: nat)
    ensures r.Some? ==>
      && at < |trace| && selected(trace[at]) && trace[at].txn == r.value.0
      && RestsOnAborted(trace, at, r.value.1)
      && (forall p: nat :: RestsOnAborted(trace, at, p) ==> r.value.1 <= p)
      && forall i: nat, p: nat :: i < at && selected(trace[i]) ==> !RestsOnAborted(trace, i, p)
    ensures r.None? ==> forall i: nat, p: nat :: i < |trace| && selected(trace[i]) ==> !RestsOnAborted(trace, i, p)
  {
    var i: nat := 0;
    at := 0;
    while i < |trace|
      invariant i <= |trace|
      invariant forall k: nat, p: nat :: k < i && selected(trace[k]) ==> !RestsOnAborted(trace, k, p)
    {
      if selected(trace[i]) {
        var basis := AbortedBasis(trace, i);
        if basis.Some? {
          at := i;
          return Some((trace[i].txn, basis.value)), at;
        }
      }
      i := i + 1;
    }
    return None, at;
  }

  /** A3: a released operation with an aborted one in its closure. */
  ghost predicate A3In(trace: seq<Prov>) {
    exists i: nat, p: nat :: i < |trace| && trace[i].externalized && RestsOnAborted(trace, i, p)
  }

  /** The superseded A3: a surviving operation with an aborted one in its closure. */
  ghost predicate A3UnpropagatedIn(trace: seq<Prov>) {
    exists i: nat, p: nat :: i < |trace| && trace[i].committed && !trace[i].aborted && RestsOnAborted(trace, i, p)
  }

  method DetectA3(trace: seq<Prov>) returns (r: Option<(nat, nat)>)
    ensures r.Some? <==> A3In(trace)
    ensures r.Some? ==> exists i: nat :: i < |trace| && trace[i].externalized && trace[i].txn == r.value.0
                                         && RestsOnAborted(trace, i, r.value.1)
  {
    ghost var at;
    r, at := FirstOnAborted(trace, ReleasedRecord);
  }

  method DetectA3Unpropagated(trace: seq<Prov>) returns (r: Option<(nat, nat)>)
    ensures r.Some? <==> A3UnpropagatedIn(trace)
    ensures r.Some? ==> exists i: nat :: i < |trace| && SurvivingRecord(trace[i]) && trace[i].txn == r.value.0
                                         && RestsOnAborted(trace, i, r.value.1)
  {
    ghost var at;
    r, at := FirstOnAborted(trace, SurvivingRecord);
  }

  // --------------------------------------------------------------- counts

  /** How many records of a trace pass a test. */
  function Count(trace: seq<Prov>, test: Prov -> bool): nat {
    if trace == [] then 0 else Count(trace[..|trace| - 1], test) + if test(trace[|trace| - 1]) then 1 else 0
  }

  lemma {:induction false} CountAgrees(trace: seq<Prov>, f: Prov -> bool, g: Prov -> bool)
    requires forall i :: 0 <= i < |trace| ==> f(trace[i]) == g(trace[i])
    ensures Count(trace, f) == Count(trace, g)
  {
    if trace != [] {
      CountAgrees(trace[..|trace| - 1], f, g);
    }
  }

  lemma {:induction false} CountNone(trace: seq<Prov>, f: Prov -> bool)
    requires forall i :: 0 <= i < |trace| ==> !f(trace[i])
    ensures Count(trace, f) == 0
  {
    if trace != [] {
      CountNone(trace[..|trace| - 1], f);
    }
  }

  /** Over an indexed trace a count is the size of the set of records it counts. */
  lemma {:induction false} CountIsCard(trace: seq<Prov>, f: Prov -> bool, ids: set<nat>)
    requires forall i: nat :: i in ids <==> i < |trace| && f(trace[i])
    ensures Count(trace, f) == |ids|
  {
    if trace != [] {
      var n := |trace| - 1;
      CountIsCard(trace[..n], f, ids - {n});
      if n in ids {
        assert ids == (ids - {n}) + {n};
      } else {
        assert ids == ids - {n};
      }
    } else {
      assert ids == {};
    }
  }

  // ------------------------------------------------------------- exposure

  /** Effects of record `i` are out although the review asked to withdraw what they rest on. */
  ghost predicate Exposed(trace: seq<Prov>, reviewed: nat, i: nat)
    requires i < |trace|
  {
    trace[i].externalized && (trace[i].txn == reviewed || Rests(GraphOf(trace), trace[i].predecessors, reviewed))
  }

  ghost function ExposedCount(trace: seq<Prov>, reviewed: nat, n: nat): nat
    requires n <= |trace|
  {
    if n == 0 then 0 else ExposedCount(trace, reviewed, n - 1) + if Exposed(trace, reviewed, n - 1) then 1 else 0
  }

  method ExposedEffects(trace: seq<Prov>, reviewed: nat, retractionAsked: bool) returns (count: nat)
    ensures count == if retractionAsked then ExposedCount(trace, reviewed, |trace|) else 0
  {
    count := 0;
    if !retractionAsked {
      return;
    }
    var i := 0;
    while i < |trace|
      invariant 0 <= i <= |trace|
      invariant count == ExposedCount(trace, reviewed, i)
    {
      if trace[i].externalized {
        var closure := Closure(GraphOf(trace), trace[i].predecessors);
        if trace[i].txn == reviewed || reviewed in closure {
          count := count + 1;
        }
      }
      i := i + 1;
    }
  }

  /** The count is the size of the set of exposed records. */
  lemma {:induction false} ExposedIsCard(trace: seq<Prov>, reviewed: nat, n: nat, ids: set<nat>)
    requires n <= |trace| && forall i: nat :: i in ids <==> i < n && Exposed(trace, reviewed, i)
    ensures ExposedCount(trace, reviewed, n) == |ids|
  {
    if n == 0 {
      assert ids == {};
    } else {
      ExposedIsCard(trace, reviewed, n - 1, ids - {n - 1});
      if n - 1 in ids {
        assert ids == (ids - {n - 1}) + {n - 1};
      } else {
        assert ids == ids - {n - 1};
      }
    }
  }

  lemma {:induction false} ExposedSomewhere(trace: seq<Prov>, reviewed: nat, n: nat)
    requires n <= |trace|
    ensures ExposedCount(trace, reviewed, n) > 0 <==> exists i: nat :: i < n && Exposed(trace, reviewed, i)
  {
    if n != 0 {
      ExposedSomewhere(trace, reviewed, n - 1);
      if Exposed(trace, reviewed, n - 1) {
        assert n - 1 < n;
      }
    }
  }

  /** Flagged aborted although its effects were out. */
  predicate RelabeledRecord(r: Prov, reviewed: nat) {
    r.txn != reviewed && r.aborted && r.externalized
  }

  /**
   When the aborted are the reviewed operation and what rests on it, what is exposed is what is relabeled and the
   reviewed one.
   */
  lemma {:induction false} ExposedAreRelabeled(trace: seq<Prov>, reviewed: nat, n: nat)
    requires Indexed(trace) && n <= |trace|
    requires forall i: nat :: i < |trace| && i != reviewed ==>
               (trace[i].aborted <==> Rests(GraphOf(trace), trace[i].predecessors, reviewed))
    ensures ExposedCount(trace, reviewed, n) ==
            Count(trace[..n], (r: Prov) => RelabeledRecord(r, reviewed))
            + if reviewed < n && trace[reviewed].externalized then 1 else 0
  {
    if n != 0 {
      ExposedAreRelabeled(trace, reviewed, n - 1);
      assert trace[..n][..n - 1] == trace[..n - 1];
      assert Exposed(trace, reviewed, n - 1) <==>
             RelabeledRecord(trace[n - 1], reviewed) || (n - 1 == reviewed && trace[reviewed].externalized);
    }
  }
}
