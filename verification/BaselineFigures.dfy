/**
 What the release-at-commit arms report: figures of the schedule before the review, in closed form.
 */
module BaselineFigures {
  import opened Provenance
  import opened Scenario
  import opened ChainLayout
  import opened ReleaseAtCommit
  import opened BaselineSchedule

  /** Released records are the live ones, the relabeled ones, and the reviewed one if it was withdrawn. */
  lemma {:induction false} ReleasedSplit(trace: seq<Prov>, reviewed: nat, n: nat)
    requires Indexed(trace) && n <= |trace| && reviewed < |trace|
    requires forall i: nat :: i < |trace| ==> (trace[i].committed <==> trace[i].externalized)
    ensures Count(trace[..n], ReleasedRecord)
            == Count(trace[..n], SurvivingRecord) + Count(trace[..n], (r: Prov) => RelabeledRecord(r, reviewed))
               + if reviewed < n && trace[reviewed].externalized && trace[reviewed].aborted then 1 else 0
  {
    if n != 0 {
      ReleasedSplit(trace, reviewed, n - 1);
      assert trace[..n][..n - 1] == trace[..n - 1];
      assert trace[..n][n - 1] == trace[n - 1];
    }
  }

  /** A release-at-commit trace accounts for every release, and what it cascades is what it relabels. */
  lemma TraceFigures(s: Store, reviewed: nat)
    requires OutAtCommit(s) && reviewed < |s.txns| && s.txns[reviewed].externalized
    ensures var trace := ProvenanceOf(s);
            && Count(trace, ReleasedRecord) == Count(trace, SurvivingRecord)
                 + Count(trace, (r: Prov) => RelabeledRecord(r, reviewed)) + (if s.txns[reviewed].aborted then 1 else 0)
            && Count(trace, (r: Prov) => CascadedRecord(r, reviewed))
               == Count(trace, (r: Prov) => RelabeledRecord(r, reviewed))
  {
    var trace := ProvenanceOf(s);
    assert trace[..|trace|] == trace;
    ReleasedSplit(trace, reviewed, |trace|);
    CountAgrees(trace, (r: Prov) => CascadedRecord(r, reviewed), (r: Prov) => RelabeledRecord(r, reviewed));
  }

  /** The provenance each arm ends with. */
  function UnguardedEnd(s: Store, reviewed: nat, retract: bool): Store {
    if retract && reviewed < |s.txns| then Abort(s, reviewed) else s
  }

  ghost function CascadeEnd(s: Store, reviewed: nat, retract: bool): Store {
    if retract && reviewed < |s.txns| then CascadeAbort(s, reviewed) else s
  }

  ghost function ExposedAtEnd(s: Store, reviewed: nat, retract: bool): nat {
    if retract && reviewed < |s.txns| then ExposedCount(ProvenanceOf(Abort(s, reviewed)), reviewed, |s.txns|) else 0
  }

  lemma ReleasedAgrees(s: Store, reviewed: nat, retract: bool)
    requires reviewed < |s.txns|
    ensures Count(ProvenanceOf(UnguardedEnd(s, reviewed, retract)), ReleasedRecord)
            == Count(ProvenanceOf(s), ReleasedRecord)
    ensures Count(ProvenanceOf(CascadeEnd(s, reviewed, retract)), ReleasedRecord)
            == Count(ProvenanceOf(s), ReleasedRecord)
  {
    CountSameFlag(ProvenanceOf(UnguardedEnd(s, reviewed, retract)), ProvenanceOf(s));
    CountSameFlag(ProvenanceOf(CascadeEnd(s, reviewed, retract)), ProvenanceOf(s));
  }

  lemma {:induction false} CountSameFlag(a: seq<Prov>, b: seq<Prov>)
    requires |a| == |b| && forall i :: 0 <= i < |a| ==> a[i].externalized == b[i].externalized
    ensures Count(a, ReleasedRecord) == Count(b, ReleasedRecord)
  {
    if a != [] {
      CountSameFlag(a[..|a| - 1], b[..|b| - 1]);
    }
  }

  lemma NothingAborted(s: Store, reviewed: nat)
    requires forall i: nat :: i < |s.txns| ==> !s.txns[i].aborted
    ensures !A3In(ProvenanceOf(s)) && !A3UnpropagatedIn(ProvenanceOf(s))
    ensures Count(ProvenanceOf(s), (r: Prov) => RelabeledRecord(r, reviewed)) == 0
  {
    CountNone(ProvenanceOf(s), (r: Prov) => RelabeledRecord(r, reviewed));
  }

  /** What the unguarded arm shows: A3 as often as something out rests on the retracted, nothing relabeled. */
  lemma UnguardedFigures(calls: seq<Call>, reviewed: nat, retract: bool)
    requires NoRetraction(calls) && reviewed < |UnguardedRun(calls).txns|
    ensures var s := UnguardedRun(calls);
            var trace := ProvenanceOf(UnguardedEnd(s, reviewed, retract));
            && (A3In(trace) <==> retract && ReleasedOver(s, reviewed)) && (A3UnpropagatedIn(trace) <==> A3In(trace))
            && (retract ==> ExposedCount(trace, reviewed, |trace|) == ExposedAtEnd(s, reviewed, true))
            && Count(trace, (r: Prov) => RelabeledRecord(r, reviewed)) == 0
  {
    var s := UnguardedRun(calls);
    SameUntilRetraction(calls);
    if retract {
      UnguardedDetectorsAgree(calls, reviewed);
      A3AfterRetraction(s, reviewed);
      RelabeledByOneRetraction(s, reviewed);
    } else {
      NothingAborted(s, reviewed);
    }
  }

  lemma ExposureAgrees(s: Store, t: nat)
    requires t < |s.txns| && forall i: nat :: i < |s.txns| ==> !s.txns[i].aborted
    ensures ExposedCount(ProvenanceOf(Abort(s, t)), t, |s.txns|)
            == ExposedCount(ProvenanceOf(CascadeAbort(s, t)), t, |s.txns|)
  {
    RetractionFlags(s, t);
    SameExposure(Abort(s, t), CascadeAbort(s, t), t, |s.txns|);
  }

  /**
   What the cascade arm shows: A3 exactly as often, the superseded form never, and all but one exposed effect
   relabeled.
   */
  lemma CascadeFigures(calls: seq<Call>, reviewed: nat, retract: bool)
    requires NoRetraction(calls) && reviewed < |UnguardedRun(calls).txns|
             && UnguardedRun(calls).txns[reviewed].externalized
    ensures var s := UnguardedRun(calls);
            var trace := ProvenanceOf(CascadeEnd(s, reviewed, retract));
            && (A3In(trace) <==> retract && ReleasedOver(s, reviewed)) && !A3UnpropagatedIn(trace)
            && (retract ==> ExposedCount(trace, reviewed, |trace|) == ExposedAtEnd(s, reviewed, true))
            && ExposedAtEnd(s, reviewed, retract)
               == Count(trace, (r: Prov) => RelabeledRecord(r, reviewed)) + if retract then 1 else 0
  {
    var s := UnguardedRun(calls);
    SameUntilRetraction(calls);
    if retract {
      A3AfterCascade(s, reviewed);
      CascadePropagates(s, reviewed);
      RelabeledByOneRetraction(s, reviewed);
      ExposureAgrees(s, reviewed);
    } else {
      NothingAborted(s, reviewed);
    }
  }

  // ------------------------------------------------ the closure, by layout

  /** What the `j`-th commit rests on in the store is what the layout says. */
  lemma {:induction false} LayoutIsInClosure(s: Store, ids: seq<nat>, interleave: bool, j: nat, i: nat)
    requires Laid(s, ids, interleave) && j < |ids| && RestsOn(j, i, interleave)
    ensures InClosure(s, ids[j], ids[i])
    decreases j - i
  {
    assert LaidAt(s, ids, j, interleave);
    if i + 1 != j {
      LayoutIsInClosure(s, ids, interleave, j, i + 1);
      assert LaidAt(s, ids, i + 1, interleave);
      ClosureExtends(s, ids[j], ids[i + 1], ids[i]);
    }
  }

  lemma DirectIsInBasis(ids: seq<nat>, j: nat, interleave: bool, p: nat)
    requires j < |ids| && p in DirectBasis(ids, j, interleave)
    ensures p in Basis(ids, j, interleave)
  {
    assert RestsOn(j, j - 1, interleave);
  }

  /** The predecessors of a commit's basis are in that basis. */
  lemma BasisIsClosed(s: Store, ids: seq<nat>, interleave: bool, j: nat, x: nat, y: nat)
    requires Laid(s, ids, interleave) && j < |ids| && x in Basis(ids, j, interleave)
    requires x < |s.txns| && y in s.txns[x].predecessors
    ensures y in Basis(ids, j, interleave)
  {
    var i: nat :| i < j && RestsOn(j, i, interleave) && ids[i] == x;
    assert LaidAt(s, ids, i, interleave);
    assert i > 0 && ids[i - 1] == y && RestsOn(j, i - 1, interleave);
  }

  lemma ClosureIsLayout(s: Store, ids: seq<nat>, interleave: bool, j: nat, p: nat)
    requires Laid(s, ids, interleave) && j < |ids| && InClosure(s, ids[j], p)
    ensures p in Basis(ids, j, interleave)
  {
    assert LaidAt(s, ids, j, interleave);
    var inside := Basis(ids, j, interleave);
    forall x: nat | x in s.txns[ids[j]].predecessors ensures x in inside {
      DirectIsInBasis(ids, j, interleave, x);
    }
    forall x: nat, y: nat | x in inside && x in StoreGraph(s) && y in StoreGraph(s)[x] ensures y in inside {
      BasisIsClosed(s, ids, interleave, j, x, y);
    }
    RestsStaysInside(StoreGraph(s), s.txns[ids[j]].predecessors, inside, p);
  }

  /** The commits that rest on `t`. */
  ghost function Dependents(s: Store, t: nat): set<nat> {
    set u: nat | u < |s.txns| && s.txns[u].committed && InClosure(s, u, t)
  }

  ghost function CommittedSet(s: Store): set<nat> {
    set u: nat | u < |s.txns| && s.txns[u].committed
  }

  lemma RestsByLayout(s: Store, ids: seq<nat>, interleave: bool, j: nat, i: nat)
    requires Laid(s, ids, interleave) && Increasing(ids) && i < |ids| && j < |ids|
    ensures InClosure(s, ids[j], ids[i]) <==> RestsOn(j, i, interleave)
  {
    if InClosure(s, ids[j], ids[i]) {
      ClosureIsLayout(s, ids, interleave, j, ids[i]);
      var k: nat :| k < j && RestsOn(j, k, interleave) && ids[k] == ids[i];
      assert k == i;
    }
    if RestsOn(j, i, interleave) {
      LayoutIsInClosure(s, ids, interleave, j, i);
    }
  }

  lemma DependsByLayout(s: Store, ids: seq<nat>, interleave: bool, i: nat, u: nat)
    requires Laid(s, ids, interleave) && Increasing(ids) && i < |ids|
    ensures u in Dependents(s, ids[i]) <==> exists j: nat :: j < |ids| && ids[j] == u && RestsOn(j, i, interleave)
  {
    assert HasCommitted(s, u) <==> u in ids;
    forall j: nat | j < |ids| && ids[j] == u ensures InClosure(s, u, ids[i]) <==> RestsOn(j, i, interleave) {
      RestsByLayout(s, ids, interleave, j, i);
    }
  }

  /** How many commits there are, and how many rest on the `i`-th. */
  lemma ChainedCounts(s: Store, n: nat, interleave: bool, i: nat)
    requires Chained(s, n, interleave) && i <= n
    ensures var reviewed := CommittedIds(n, interleave)[i];
            && |CommittedSet(s)| == n + 1 && |Dependents(s, reviewed)| == Downstream(n, interleave, i)
            && reviewed in CommittedSet(s) && reviewed !in Dependents(s, reviewed)
  {
    var ids := CommittedIds(n, interleave);
    IdsIncrease(n, interleave);
    forall t: nat ensures t in CommittedSet(s) <==> t in ids {
      assert HasCommitted(s, t) <==> t in ids;
    }
    ElementsCard(ids, CommittedSet(s));
    forall u: nat
      ensures u in Dependents(s, ids[i]) <==> exists j: nat :: j < |ids| && ids[j] == u && RestsOn(j, i, interleave)
    {
      DependsByLayout(s, ids, interleave, i, u);
    }
    DownstreamCard(ids, n, interleave, i, Dependents(s, ids[i]));
    assert ids[i] in ids;
  }

  // ------------------------------------------------------ in closed form

  /** Everything committed is released, and a retraction exposes the reviewed transaction and what rests on it. */
  lemma ExposedByRetraction(s: Store, t: nat)
    requires OutAtCommit(s) && t in CommittedSet(s)
    ensures ExposedAtEnd(s, t, true) == |{t} + Dependents(s, t)|
    ensures Count(ProvenanceOf(s), ReleasedRecord) == |CommittedSet(s)|
    ensures ReleasedOver(s, t) <==> Dependents(s, t) != {}
  {
    var trace := ProvenanceOf(Abort(s, t));
    GraphOfProvenance(Abort(s, t));
    forall i: nat ensures i in {t} + Dependents(s, t) <==> i < |s.txns| && Exposed(trace, t, i) {
      ClosureFrame(s, Abort(s, t), i, t);
    }
    ExposedIsCard(trace, t, |s.txns|, {t} + Dependents(s, t));
    CountIsCard(ProvenanceOf(s), ReleasedRecord, CommittedSet(s));
    if ReleasedOver(s, t) {
      var i: nat :| i < |s.txns| && s.txns[i].externalized && InClosure(s, i, t);
      assert i in Dependents(s, t);
    }
    if Dependents(s, t) != {} {
      var i: nat :| i in Dependents(s, t);
      assert s.txns[i].externalized && InClosure(s, i, t);
    }
  }

  /** The figures of a schedule before its review, for the transaction the seed puts under review. */
  ghost predicate ScheduleReports(s: Store, reviewed: nat, shape: Shape)
    requires shape.abortAt < shape.chain
  {
    && reviewed < |s.txns|
    && Count(ProvenanceOf(s), ReleasedRecord) == shape.chain + 1
    && ExposedAtEnd(s, reviewed, shape.retract) == (if shape.retract then 1 + Affected(shape) else 0)
    && (ReleasedOver(s, reviewed) <==> Affected(shape) > 0)
  }

  lemma ScheduleFigures(p: Progress, shape: Shape)
    requires shape.abortAt < shape.chain && OfRun(p) && Planned(p, shape.chain, shape.interleave)
    ensures ScheduleReports(p.store, p.committed[shape.abortAt], shape)
    ensures p.store.txns[p.committed[shape.abortAt]].externalized
  {
    RunsReleaseAtCommit(p.calls);
    ChainedCounts(p.store, shape.chain, shape.interleave, shape.abortAt);
    ExposedByRetraction(p.store, p.committed[shape.abortAt]);
  }
}
