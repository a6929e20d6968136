/**
 The two baseline stores that release effects at commit, as pure steps: the unguarded store, and
 the superseded design that adds a gate to `commit` and a cascade to `abort`.
 */
module ReleaseAtCommit {
  import opened Common
  import opened Reachability
  import opened Provenance

  datatype Txn = Txn(
    started: bool,
    committed: bool,
    aborted: bool,
    externalized: bool,
    readCells: seq<nat>,
    readValues: map<nat, nat>,
    predecessors: seq<nat>)

  const STARTED := Txn(true, false, false, false, [], map[], [])

  datatype Store = Store(txns: seq<Txn>, cellValue: map<nat, nat>, cellWriter: map<nat, nat>)

  const EMPTY := Store([], map[], map[])

  // -------------------------------------------------- the unguarded steps

  function Begin(s: Store): Store {
    s.(txns := s.txns + [STARTED])
  }

  /** A repeated cell or writer is listed once; a transaction is not its own predecessor. */
  function ReadInto(x: Txn, t: nat, c: nat, v: Option<nat>, w: Option<nat>): Txn {
    x.(readCells := if c in x.readCells then x.readCells else x.readCells + [c],
       readValues := if v.Some? then x.readValues[c := v.value] else x.readValues,
       predecessors := if w.Some? && w.value != t && w.value !in x.predecessors
                       then x.predecessors + [w.value] else x.predecessors)
  }

  function Lookup(m: map<nat, nat>, c: nat): Option<nat> {
    if c in m then Some(m[c]) else None
  }

  function Read(s: Store, t: nat, c: nat): Store
    requires t < |s.txns|
  {
    s.(txns := s.txns[t := ReadInto(s.txns[t], t, c, Lookup(s.cellValue, c), Lookup(s.cellWriter, c))])
  }

  /** A cell that had no value when it was read can never be fresh. */
  predicate ReadsFresh(s: Store, t: nat)
    requires t < |s.txns|
  {
    forall c :: c in s.txns[t].readCells ==>
      c in s.cellValue && c in s.txns[t].readValues && s.cellValue[c] == s.txns[t].readValues[c]
  }

  predicate CommitAccepted(s: Store, t: nat)
    requires t < |s.txns|
  {
    s.txns[t].started && !s.txns[t].committed && !s.txns[t].aborted && ReadsFresh(s, t)
  }

  function Publish(s: Store, t: nat, writes: seq<(nat, nat)>): Store
    requires t < |s.txns|
  {
    Store(s.txns[t := s.txns[t].(committed := true, externalized := true)],
          s.cellValue + LastWrites(writes), s.cellWriter + WriterMap(LastWrites(writes), t))
  }

  function Commit(s: Store, t: nat, writes: seq<(nat, nat)>): Store
    requires t < |s.txns|
  {
    if CommitAccepted(s, t) then Publish(s, t, writes) else s
  }

  function Abort(s: Store, t: nat): Store
    requires t < |s.txns|
  {
    s.(txns := s.txns[t := s.txns[t].(aborted := true)])
  }

  // ------------------------------------------------- the cascade's additions

  /** Direct writers by transaction: all this design records. */
  function StoreGraph(s: Store): Graph {
    map i: nat | i < |s.txns| :: s.txns[i].predecessors
  }

  /** `p` is in the causal closure of `t`. */
  ghost predicate InClosure(s: Store, t: nat, p: nat) {
    t < |s.txns| && Rests(StoreGraph(s), s.txns[t].predecessors, p)
  }

  ghost predicate ClosureClean(s: Store, t: nat) {
    forall p: nat :: InClosure(s, t, p) ==> p < |s.txns| && !s.txns[p].aborted
  }

  ghost function CascadeCommit(s: Store, t: nat, writes: seq<(nat, nat)>): Store
    requires t < |s.txns|
  {
    if ClosureClean(s, t) then Commit(s, t, writes) else s
  }

  /** Flags `t` and every transaction whose closure holds it, released or not. */
  ghost function CascadeAbort(s: Store, t: nat): Store
    requires t < |s.txns|
  {
    s.(txns := seq(|s.txns|, i requires 0 <= i < |s.txns| =>
         if i == t || InClosure(s, i, t) then s.txns[i].(aborted := true) else s.txns[i]))
  }

  // ------------------------------------------------------------- schedules

  datatype Call =
    | CallBegin
    | CallRead(t: nat, c: nat)
    | CallCommit(t: nat, writes: seq<(nat, nat)>)
    | CallRetract(t: nat)

  /** A call on an id that was never handed out would panic; a schedule that holds one skips it here. */
  predicate InRange(s: Store, a: Call) {
    a.CallBegin? || a.t < |s.txns|
  }

  function UnguardedStep(s: Store, a: Call): Store {
    if !InRange(s, a) then s
    else
      match a
      case CallBegin => Begin(s)
      case CallRead(t, c) => Read(s, t, c)
      case CallCommit(t, writes) => Commit(s, t, writes)
      case CallRetract(t) => Abort(s, t)
  }

  ghost function CascadeStep(s: Store, a: Call): Store {
    if !InRange(s, a) then s
    else
      match a
      case CallBegin => Begin(s)
      case CallRead(t, c) => Read(s, t, c)
      case CallCommit(t, writes) => CascadeCommit(s, t, writes)
      case CallRetract(t) => CascadeAbort(s, t)
  }

  function UnguardedRun(calls: seq<Call>): Store {
    if calls == [] then EMPTY else UnguardedStep(UnguardedRun(calls[..|calls| - 1]), calls[|calls| - 1])
  }

  ghost function CascadeRun(calls: seq<Call>): Store {
    if calls == [] then EMPTY else CascadeStep(CascadeRun(calls[..|calls| - 1]), calls[|calls| - 1])
  }

  /** The emitted provenance of a store. */
  function ProvenanceOf(s: Store): seq<Prov> {
    seq(|s.txns|, i requires 0 <= i < |s.txns| =>
      Prov(i, s.txns[i].committed, s.txns[i].aborted, s.txns[i].externalized, s.txns[i].predecessors))
  }

  // ------------------------------------------------- what both stores keep

  /** Writers are committed, and predecessors are committed writers. */
  ghost predicate Grounded(s: Store) {
    && (forall c :: c in s.cellWriter ==> s.cellWriter[c] < |s.txns| && s.txns[s.cellWriter[c]].committed)
    && (forall i: nat, p: nat {:trigger p in s.txns[i].predecessors} ::
          i < |s.txns| && p in s.txns[i].predecessors ==> p < |s.txns| && s.txns[p].committed)
  }

  lemma CommitStaysGrounded(s: Store, t: nat, writes: seq<(nat, nat)>)
    requires Grounded(s) && t < |s.txns|
    ensures Grounded(Publish(s, t, writes))
  {
    var s' := Publish(s, t, writes);
    forall c | c in s'.cellWriter ensures s'.cellWriter[c] < |s'.txns| && s'.txns[s'.cellWriter[c]].committed {
    }
  }

  lemma ReadStaysGrounded(s: Store, t: nat, c: nat)
    requires Grounded(s) && t < |s.txns|
    ensures Grounded(Read(s, t, c))
  {
  }

  lemma StepsStayGrounded(s: Store, a: Call)
    requires Grounded(s)
    ensures Grounded(UnguardedStep(s, a)) && Grounded(CascadeStep(s, a))
  {
    if InRange(s, a) {
      match a
      case CallBegin =>
      case CallRead(t, c) => ReadStaysGrounded(s, t, c);
      case CallCommit(t, writes) => CommitStaysGrounded(s, t, writes);
      case CallRetract(t) =>
    }
  }

  /** Everything in a closure is a committed transaction. */
  lemma ClosureIsCommitted(s: Store, t: nat, p: nat)
    requires Grounded(s) && InClosure(s, t, p)
    ensures p < |s.txns| && s.txns[p].committed
  {
    var inside := set i: nat | i < |s.txns| && s.txns[i].committed;
    RestsStaysInside(StoreGraph(s), s.txns[t].predecessors, inside, p);
  }

  /** Closures depend on recorded predecessors alone. */
  lemma ClosureFrame(s: Store, s': Store, t: nat, p: nat)
    requires |s'.txns| == |s.txns| && forall i: nat :: i < |s.txns| ==>
             s'.txns[i].predecessors == s.txns[i].predecessors
    ensures InClosure(s', t, p) <==> InClosure(s, t, p)
  {
    assert StoreGraph(s') == StoreGraph(s);
  }

  lemma ClosureExtends(s: Store, t: nat, x: nat, y: nat)
    requires InClosure(s, t, x) && x < |s.txns| && y in s.txns[x].predecessors
    ensures InClosure(s, t, y)
  {
    RestsExtends(StoreGraph(s), s.txns[t].predecessors, x, y);
  }

  lemma InClosureTransitive(s: Store, t: nat, p: nat, q: nat)
    requires InClosure(s, t, p) && InClosure(s, p, q)
    ensures InClosure(s, t, q)
  {
    var g := StoreGraph(s);
    var inside := set x | x in Universe(g, s.txns[t].predecessors) && InClosure(s, t, x);
    forall x: nat, y: nat | (x == p || x in inside) && x in g && y in g[x] ensures y in inside {
      RestsExtends(g, s.txns[t].predecessors, x, y);
    }
    assert g[p] == s.txns[p].predecessors;
    RestsStaysInside(g, s.txns[p].predecessors, inside, q);
  }

  // ------------------------------------------------- the two runs agree

  /** Before any retraction the two stores are the same store. */
  lemma {:induction false} SameUntilRetraction(calls: seq<Call>)
    requires forall i :: 0 <= i < |calls| ==> !calls[i].CallRetract?
    ensures CascadeRun(calls) == UnguardedRun(calls)
    ensures Grounded(UnguardedRun(calls))
    ensures forall i: nat :: i < |UnguardedRun(calls).txns| ==> !UnguardedRun(calls).txns[i].aborted
  {
    if calls != [] {
      var before, last := calls[..|calls| - 1], calls[|calls| - 1];
      SameUntilRetraction(before);
      var s := UnguardedRun(before);
      StepsStayGrounded(s, last);
      if last.CallCommit? && InRange(s, last) {
        forall p: nat | InClosure(s, last.t, p) ensures p < |s.txns| && !s.txns[p].aborted {
          ClosureIsCommitted(s, last.t, p);
        }
      }
    }
  }

  /** Same effects, same provenance; only abort flags may differ. */
  ghost predicate SameButFlags(u: Store, c: Store) {
    && u.cellValue == c.cellValue && u.cellWriter == c.cellWriter && |u.txns| == |c.txns|
    && forall i: nat :: i < |u.txns| ==> c.txns[i] == u.txns[i].(aborted := c.txns[i].aborted)
  }

  lemma GraphOfProvenance(s: Store)
    ensures GraphOf(ProvenanceOf(s)) == StoreGraph(s)
  {
    IndexedGraph(ProvenanceOf(s));
  }

  /** A trace record rests on an aborted operation exactly when its closure in the store holds one. */
  lemma TraceRestsIff(s: Store, i: nat, p: nat)
    requires i < |s.txns|
    ensures RestsOnAborted(ProvenanceOf(s), i, p) <==> InClosure(s, i, p) && p < |s.txns| && s.txns[p].aborted
  {
    GraphOfProvenance(s);
    var trace := ProvenanceOf(s);
    if p < |s.txns| && s.txns[p].aborted {
      assert trace[p].txn == p && trace[p].aborted;
    }
  }

  lemma SameGraph(u: Store, c: Store)
    requires SameButFlags(u, c)
    ensures GraphOf(ProvenanceOf(u)) == GraphOf(ProvenanceOf(c))
  {
    GraphOfProvenance(u);
    GraphOfProvenance(c);
    assert StoreGraph(u) == StoreGraph(c);
  }

  lemma SameExposed(u: Store, c: Store, reviewed: nat, i: nat)
    requires SameButFlags(u, c) && i < |u.txns|
    ensures Exposed(ProvenanceOf(u), reviewed, i) <==> Exposed(ProvenanceOf(c), reviewed, i)
  {
    SameGraph(u, c);
    assert c.txns[i].predecessors == u.txns[i].predecessors && c.txns[i].externalized == u.txns[i].externalized;
  }

  lemma {:induction false} SameExposure(u: Store, c: Store, reviewed: nat, n: nat)
    requires SameButFlags(u, c) && n <= |u.txns|
    ensures ExposedCount(ProvenanceOf(u), reviewed, n) == ExposedCount(ProvenanceOf(c), reviewed, n)
  {
    if n != 0 {
      SameExposure(u, c, reviewed, n - 1);
      SameExposed(u, c, reviewed, n - 1);
    }
  }

  /** The flags one retraction leaves in each store. */
  lemma RetractionFlags(s: Store, t: nat)
    requires t < |s.txns| && forall i: nat :: i < |s.txns| ==> !s.txns[i].aborted
    ensures SameButFlags(Abort(s, t), CascadeAbort(s, t))
    ensures forall i: nat :: i < |s.txns| ==> (Abort(s, t).txns[i].aborted <==> i == t)
    ensures forall i: nat :: i < |s.txns| ==> (CascadeAbort(s, t).txns[i].aborted <==> i == t || InClosure(s, i, t))
    ensures forall i: nat, p: nat :: InClosure(Abort(s, t), i, p) <==> InClosure(s, i, p)
    ensures forall i: nat, p: nat :: InClosure(CascadeAbort(s, t), i, p) <==> InClosure(s, i, p)
  {
    forall i: nat, p: nat
      ensures InClosure(Abort(s, t), i, p) <==> InClosure(s, i, p)
      ensures InClosure(CascadeAbort(s, t), i, p) <==> InClosure(s, i, p)
    {
      ClosureFrame(s, Abort(s, t), i, p);
      ClosureFrame(s, CascadeAbort(s, t), i, p);
    }
  }

  /** Some released transaction has `t` in its closure. */
  ghost predicate ReleasedOver(s: Store, t: nat) {
    exists i: nat :: i < |s.txns| && s.txns[i].externalized && InClosure(s, i, t)
  }

  lemma A3AfterRetraction(s: Store, t: nat)
    requires t < |s.txns| && forall i: nat :: i < |s.txns| ==> !s.txns[i].aborted
    ensures A3In(ProvenanceOf(Abort(s, t))) <==> ReleasedOver(s, t)
  {
    var u := Abort(s, t);
    RetractionFlags(s, t);
    forall i: nat, p: nat | i < |s.txns|
      ensures RestsOnAborted(ProvenanceOf(u), i, p) <==> p == t && InClosure(s, i, t)
    {
      TraceRestsIff(u, i, p);
    }
    forall i: nat | i < |s.txns| ensures ProvenanceOf(u)[i].externalized == s.txns[i].externalized {}
    if ReleasedOver(s, t) {
      var i: nat :| i < |s.txns| && s.txns[i].externalized && InClosure(s, i, t);
      assert RestsOnAborted(ProvenanceOf(u), i, t);
    }
  }

  lemma A3AfterCascade(s: Store, t: nat)
    requires t < |s.txns| && forall i: nat :: i < |s.txns| ==> !s.txns[i].aborted
    ensures A3In(ProvenanceOf(CascadeAbort(s, t))) <==> ReleasedOver(s, t)
  {
    var c := CascadeAbort(s, t);
    RetractionFlags(s, t);
    if ReleasedOver(s, t) {
      var i: nat :| i < |s.txns| && s.txns[i].externalized && InClosure(s, i, t);
      TraceRestsIff(c, i, t);
      assert ProvenanceOf(c)[i].externalized && RestsOnAborted(ProvenanceOf(c), i, t);
    }
    if A3In(ProvenanceOf(c)) {
      var i: nat, p: nat :| i < |c.txns| && ProvenanceOf(c)[i].externalized && RestsOnAborted(ProvenanceOf(c), i, p);
      TraceRestsIff(c, i, p);
      if p != t {
        InClosureTransitive(s, i, p, t);
      }
    }
  }

  /** After the cascade no surviving commit rests on an aborted transaction. */
  lemma CascadePropagates(s: Store, t: nat)
    requires t < |s.txns| && forall i: nat :: i < |s.txns| ==> !s.txns[i].aborted
    ensures !A3UnpropagatedIn(ProvenanceOf(CascadeAbort(s, t)))
  {
    var c := CascadeAbort(s, t);
    RetractionFlags(s, t);
    forall i: nat, p: nat | i < |c.txns| && c.txns[i].committed && !c.txns[i].aborted
      ensures !RestsOnAborted(ProvenanceOf(c), i, p)
    {
      TraceRestsIff(c, i, p);
      if InClosure(s, i, p) && InClosure(s, p, t) {
        InClosureTransitive(s, i, p, t);
      }
    }
  }

  // ------------------------------------- the unguarded store, both detectors

  /** Both stores release at commit, and only then. */
  ghost predicate OutAtCommit(s: Store) {
    forall i: nat :: i < |s.txns| ==> (s.txns[i].committed <==> s.txns[i].externalized)
  }

  lemma {:induction false} RunsReleaseAtCommit(calls: seq<Call>)
    ensures OutAtCommit(UnguardedRun(calls))
  {
    if calls != [] {
      RunsReleaseAtCommit(calls[..|calls| - 1]);
      StepReleasesAtCommit(UnguardedRun(calls[..|calls| - 1]), calls[|calls| - 1]);
    }
  }

  lemma StepReleasesAtCommit(s: Store, a: Call)
    requires OutAtCommit(s)
    ensures OutAtCommit(UnguardedStep(s, a))
  {
  }

  /** No transaction is its own predecessor. */
  ghost predicate NeverItself(s: Store) {
    forall i: nat :: i < |s.txns| ==> i !in s.txns[i].predecessors
  }

  lemma {:induction false} RunsNeverReadThemselves(calls: seq<Call>)
    ensures NeverItself(UnguardedRun(calls))
  {
    if calls != [] {
      RunsNeverReadThemselves(calls[..|calls| - 1]);
      StepNeverReadsItself(UnguardedRun(calls[..|calls| - 1]), calls[|calls| - 1]);
    }
  }

  lemma StepNeverReadsItself(s: Store, a: Call)
    requires NeverItself(s)
    ensures NeverItself(UnguardedStep(s, a))
  {
  }

  /** Whatever rests on a transaction, it is not alone in that: of a cycle, another member does. */
  lemma AnotherRestsOn(s: Store, i: nat, t: nat) returns (u: nat)
    requires Grounded(s) && NeverItself(s) && OutAtCommit(s) && InClosure(s, i, t) && s.txns[i].externalized
    ensures u < |s.txns| && u != t && s.txns[u].committed && InClosure(s, u, t)
  {
    u := i;
    if i == t {
      var q: nat :| q in s.txns[t].predecessors && Reaches(EdgesOf(StoreGraph(s)), q, t);
      var x := FirstStep(EdgesOf(StoreGraph(s)), q, t);
      assert x in s.txns[q].predecessors;
      u := q;
    }
  }

  /**
   On the unguarded store the superseded detector and the current one are the same predicate: over every
   schedule that ends with one retraction, one fires exactly when the other does.
   */
  lemma {:induction false} UnguardedDetectorsAgree(calls: seq<Call>, reviewed: nat)
    requires forall i :: 0 <= i < |calls| ==> !calls[i].CallRetract?
    requires reviewed < |UnguardedRun(calls).txns|
    ensures var u := Abort(UnguardedRun(calls), reviewed);
            A3UnpropagatedIn(ProvenanceOf(u)) <==> A3In(ProvenanceOf(u))
  {
    var s := UnguardedRun(calls);
    SameUntilRetraction(calls);
    RunsReleaseAtCommit(calls);
    RunsNeverReadThemselves(calls);
    A3AfterRetraction(s, reviewed);
    A3UnpropagatedAfterRetraction(s, reviewed);
    if ReleasedOver(s, reviewed) {
      var i: nat :| i < |s.txns| && s.txns[i].externalized && InClosure(s, i, reviewed);
      var u := AnotherRestsOn(s, i, reviewed);
    }
  }

  lemma A3UnpropagatedAfterRetraction(s: Store, t: nat)
    requires t < |s.txns| && forall i: nat :: i < |s.txns| ==> !s.txns[i].aborted
    ensures A3UnpropagatedIn(ProvenanceOf(Abort(s, t)))
            <==> exists i: nat :: i < |s.txns| && i != t && s.txns[i].committed && InClosure(s, i, t)
  {
    var u := Abort(s, t);
    RetractionFlags(s, t);
    forall i: nat, p: nat | i < |s.txns|
      ensures RestsOnAborted(ProvenanceOf(u), i, p) <==> p == t && InClosure(s, i, t)
    {
      TraceRestsIff(u, i, p);
    }
    if i: nat :| i < |s.txns| && i != t && s.txns[i].committed && InClosure(s, i, t) {
      assert RestsOnAborted(ProvenanceOf(u), i, t);
    }
  }

  /**
   Release-at-commit equivalence.  On any schedule of begins, reads and commits that ends with one
   retraction, the cascade changes abort flags and nothing else: the same values, writers, commits,
   releases and recorded reads, the same exposure, and A3 in the one exactly when in the other.
   */
  lemma {:induction false} CascadeMovesFlagsOnly(calls: seq<Call>, reviewed: nat)
    requires forall i :: 0 <= i < |calls| ==> !calls[i].CallRetract?
    requires reviewed < |UnguardedRun(calls).txns|
    ensures var u, c := UnguardedRun(calls + [CallRetract(reviewed)]), CascadeRun(calls + [CallRetract(reviewed)]);
            && SameButFlags(u, c)
            && ExposedCount(ProvenanceOf(u), reviewed, |u.txns|) == ExposedCount(ProvenanceOf(c), reviewed, |c.txns|)
            && (A3In(ProvenanceOf(u)) <==> A3In(ProvenanceOf(c)))
            && !A3UnpropagatedIn(ProvenanceOf(c))
  {
    var s, all := UnguardedRun(calls), calls + [CallRetract(reviewed)];
    SameUntilRetraction(calls);
    assert all[..|all| - 1] == calls;
    var u, c := Abort(s, reviewed), CascadeAbort(s, reviewed);
    RetractionFlags(s, reviewed);
    SameExposure(u, c, reviewed, |u.txns|);
    A3AfterRetraction(s, reviewed);
    A3AfterCascade(s, reviewed);
    CascadePropagates(s, reviewed);
  }

  /**
   One retraction relabels nothing in the unguarded store, and in the cascade everything exposed but the reviewed
   transaction.
   */
  lemma {:induction false} RelabeledByOneRetraction(s: Store, t: nat)
    requires t < |s.txns| && forall i: nat :: i < |s.txns| ==> !s.txns[i].aborted
    ensures Count(ProvenanceOf(Abort(s, t)), (r: Prov) => RelabeledRecord(r, t)) == 0
    ensures ExposedCount(ProvenanceOf(CascadeAbort(s, t)), t, |s.txns|)
            == Count(ProvenanceOf(CascadeAbort(s, t)), (r: Prov) => RelabeledRecord(r, t))
               + if s.txns[t].externalized then 1 else 0
  {
    RetractionFlags(s, t);
    CountNone(ProvenanceOf(Abort(s, t)), (r: Prov) => RelabeledRecord(r, t));
    var c := CascadeAbort(s, t);
    var trace := ProvenanceOf(c);
    GraphOfProvenance(c);
    forall i: nat | i < |trace| && i != t
      ensures trace[i].aborted <==> Rests(GraphOf(trace), trace[i].predecessors, t)
    {
      assert InClosure(c, i, t) <==> InClosure(s, i, t);
    }
    ExposedAreRelabeled(trace, t, |trace|);
    assert trace[..|trace|] == trace;
  }
}
