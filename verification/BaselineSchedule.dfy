/**
 The seeded schedule of the release-at-commit arms.  Which calls it makes depends only on which commits
 are accepted, and before the review both stores accept the same ones.
 */
module BaselineSchedule {
  import opened Common
  import opened Scenario
  import opened ChainLayout
  import opened ReleaseAtCommit

  predicate NoRetraction(calls: seq<Call>) {
    forall i :: 0 <= i < |calls| ==> !calls[i].CallRetract?
  }

  lemma RunSnoc(calls: seq<Call>, a: Call)
    ensures UnguardedRun(calls + [a]) == UnguardedStep(UnguardedRun(calls), a)
  {
    assert (calls + [a])[..|calls|] == calls;
  }

  predicate Accepts(s: Store, t: nat) {
    t < |s.txns| && CommitAccepted(s, t)
  }

  /** Nothing is aborted, and whatever anyone rests on has committed. */
  ghost predicate Quiet(s: Store) {
    Grounded(s) && forall i: nat :: i < |s.txns| ==> !s.txns[i].aborted
  }

  /** While nothing is aborted the cascade's gate lets everything through. */
  lemma QuietIsClean(s: Store, t: nat)
    requires Quiet(s)
    ensures ClosureClean(s, t)
  {
    forall p: nat | InClosure(s, t, p) ensures p < |s.txns| && !s.txns[p].aborted {
      ClosureIsCommitted(s, t, p);
    }
  }

  lemma StepKeepsQuiet(s: Store, a: Call)
    requires Quiet(s) && !a.CallRetract?
    ensures Quiet(UnguardedStep(s, a))
  {
    StepsStayGrounded(s, a);
  }

  // ------------------------------------------------------------ the schedule

  /** The calls made so far and where they lead, the next cell to read and to write, and what came of it. */
  datatype Progress = Progress(
    calls: seq<Call>,
    store: Store,
    frontier: nat,
    nextCell: nat,
    committed: seq<nat>,
    refused: nat)

  function Calling(p: Progress, a: Call): Progress {
    p.(calls := p.calls + [a], store := UnguardedStep(p.store, a))
  }

  function WithRoot(base: nat, v: nat): Progress {
    Calling(Calling(Progress([], EMPTY, base, base + 1, [0], 0), CallBegin), CallCommit(0, [(base, v)]))
  }

  function WithReader(p: Progress): Progress {
    Calling(Calling(p, CallBegin), CallRead(|p.store.txns|, p.frontier))
  }

  /** Another transaction overwrites the frontier inside the reader's window. */
  function WithIntruder(p: Progress, k: nat): Progress {
    var c, began := |p.store.txns|, Calling(p, CallBegin);
    Calling(began, CallCommit(c, [(p.frontier, 900 + k)]))
      .(committed := if Accepts(began.store, c) then p.committed + [c] else p.committed)
  }

  function WithFinish(p: Progress, k: nat, t: nat): Progress {
    var called := Calling(p, CallCommit(t, [(p.nextCell, 70 + k)]));
    if Accepts(p.store, t)
    then called.(frontier := p.nextCell, nextCell := p.nextCell + 1, committed := p.committed + [t])
    else called.(refused := p.refused + 1)
  }

  /** The reader has begun and may have been interrupted. */
  function WithWindow(p: Progress, k: nat, interleave: bool): Progress {
    if Interrupted(k, interleave) then WithIntruder(WithReader(p), k) else WithReader(p)
  }

  function WithRound(p: Progress, k: nat, interleave: bool): Progress {
    WithFinish(WithWindow(p, k, interleave), k, |p.store.txns|)
  }

  function Rounds(base: nat, v: nat, interleave: bool, n: nat): Progress {
    if n == 0 then WithRoot(base, v) else WithRound(Rounds(base, v, interleave, n - 1), n - 1, interleave)
  }

  // --------------------------------------------- it is a run of either store

  /** The calls are no retractions, and they lead either store where the schedule says. */
  ghost predicate OfRun(p: Progress) {
    NoRetraction(p.calls) && p.store == UnguardedRun(p.calls)
  }

  lemma CallingIsOfRun(p: Progress, a: Call)
    requires OfRun(p) && !a.CallRetract?
    ensures OfRun(Calling(p, a))
  {
    RunSnoc(p.calls, a);
  }

  lemma RoundIsOfRun(p: Progress, p': Progress, k: nat, interleave: bool)
    requires OfRun(p) && p' == WithRound(p, k, interleave)
    ensures OfRun(p')
  {
    CallingIsOfRun(p, CallBegin);
    CallingIsOfRun(Calling(p, CallBegin), CallRead(|p.store.txns|, p.frontier));
    var begun, mid := WithReader(p), WithWindow(p, k, interleave);
    if Interrupted(k, interleave) {
      CallingIsOfRun(begun, CallBegin);
      CallingIsOfRun(Calling(begun, CallBegin), CallCommit(|begun.store.txns|, [(p.frontier, 900 + k)]));
    }
    CallingIsOfRun(mid, CallCommit(|p.store.txns|, [(mid.nextCell, 70 + k)]));
  }

  lemma RootIsOfRun(base: nat, v: nat)
    ensures OfRun(WithRoot(base, v))
  {
    var start := Progress([], EMPTY, base, base + 1, [0], 0);
    CallingIsOfRun(start, CallBegin);
    CallingIsOfRun(Calling(start, CallBegin), CallCommit(0, [(base, v)]));
  }

  // -------------------------------------------------- what it lays out, exactly

  /** The direct writer the `j`-th commit read from: the commit before it, unless it is the root or an intruder. */
  function DirectBasis(ids: seq<nat>, j: nat, interleave: bool): seq<nat>
    requires j <= |ids|
  {
    if j > 0 && (!interleave || j % 2 == 0) then [ids[j - 1]] else []
  }

  ghost predicate LaidAt(s: Store, ids: seq<nat>, j: nat, interleave: bool)
    requires j < |ids|
  {
    ids[j] < |s.txns| && s.txns[ids[j]].predecessors == DirectBasis(ids, j, interleave)
  }

  predicate IsOut(s: Store, t: nat) {
    t < |s.txns| && s.txns[t].externalized
  }

  predicate HasCommitted(s: Store, t: nat) {
    t < |s.txns| && s.txns[t].committed
  }

  /** Exactly these have committed, each having read from exactly whom the layout says. */
  ghost predicate Laid(s: Store, ids: seq<nat>, interleave: bool) {
    && (forall t: nat :: HasCommitted(s, t) <==> t in ids)
    && forall j: nat :: j < |ids| ==> LaidAt(s, ids, j, interleave)
  }

  ghost predicate Chained(s: Store, n: nat, interleave: bool) {
    |s.txns| == TxnsAfter(n, interleave) && Laid(s, CommittedIds(n, interleave), interleave)
  }

  /** The next cell to read exists, with a value no later intruder writes, and the last commit wrote it. */
  ghost predicate Frontier(s: Store, c: nat, k: nat, interleave: bool) {
    && c in s.cellValue && s.cellValue[c] < 900 + k
    && c in s.cellWriter && s.cellWriter[c] == CommittedIds(k, interleave)[k]
  }

  ghost predicate Planned(p: Progress, k: nat, interleave: bool) {
    match p
    case Progress(_, store, frontier, _, committed, refused) =>
      && Chained(store, k, interleave) && Frontier(store, frontier, k, interleave)
      && committed == CommittedIds(k, interleave) && refused == InterruptedBy(k, interleave)
  }

  /** From `s` to `s'` transactions began, of which exactly `added` has committed. */
  ghost predicate AddsOne(s: Store, s': Store, added: nat) {
    && |s.txns| <= added < |s'.txns| && s'.txns[..|s.txns|] == s.txns
    && forall u: nat :: |s.txns| <= u < |s'.txns| ==> (s'.txns[u].committed <==> u == added)
  }

  lemma LaidStays(s: Store, s': Store, ids: seq<nat>, interleave: bool, added: nat, j: nat)
    requires AddsOne(s, s', added) && j < |ids| && LaidAt(s, ids, j, interleave)
    ensures LaidAt(s', ids + [added], j, interleave)
  {
    assert s'.txns[..|s.txns|][ids[j]] == s'.txns[ids[j]];
  }

  lemma LaidNext(s: Store, s': Store, ids: seq<nat>, interleave: bool, added: nat)
    requires Laid(s, ids, interleave) && AddsOne(s, s', added)
    requires s'.txns[added].predecessors == DirectBasis(ids, |ids|, interleave)
    ensures Laid(s', ids + [added], interleave)
  {
    forall t: nat ensures HasCommitted(s', t) <==> t in ids + [added] {
      assert t < |s.txns| ==> s'.txns[..|s.txns|][t] == s'.txns[t];
      assert HasCommitted(s, t) <==> t in ids;
    }
    forall j: nat | j < |ids + [added]| ensures LaidAt(s', ids + [added], j, interleave) {
      if j < |ids| {
        LaidStays(s, s', ids, interleave, added, j);
      }
    }
  }

  /** `t` has read one cell, from one writer, and nothing else. */
  ghost predicate HasRead(s: Store, t: nat, c: nat, v: nat, w: nat) {
    && t < |s.txns| && s.txns[t].started && !s.txns[t].committed && !s.txns[t].aborted
    && s.txns[t].readCells == [c] && s.txns[t].readValues == map[c := v] && s.txns[t].predecessors == [w]
  }

  /** What the reader begun in `s` finds when it is about to finish. */
  ghost predicate Midway(s: Store, s2: Store, k: nat, interrupted: bool, c: nat)
    requires c in s.cellValue && c in s.cellWriter
  {
    var t := |s.txns|;
    && |s2.txns| == t + (if interrupted then 2 else 1) && s2.txns[..t] == s.txns
    && HasRead(s2, t, c, s.cellValue[c], s.cellWriter[c])
    && s2.cellValue == (if interrupted then s.cellValue[c := 900 + k] else s.cellValue)
    && s2.cellWriter == (if interrupted then s.cellWriter[c := t + 1] else s.cellWriter)
    && (interrupted ==> s2.txns[t + 1].committed && s2.txns[t + 1].predecessors == [])
  }

  lemma ReaderHasRead(s: Store, s': Store, k: nat, c: nat)
    requires c in s.cellValue && c in s.cellWriter && s.cellWriter[c] < |s.txns|
    requires s' == UnguardedStep(Begin(s), CallRead(|s.txns|, c))
    ensures Midway(s, s', k, false, c)
  {
  }

  /** What an intruder does: it has read nothing, so it commits. */
  lemma IntruderLands(s: Store, s': Store, c: nat, v: nat)
    requires s' == UnguardedStep(Begin(s), CallCommit(|s.txns|, [(c, v)]))
    ensures Accepts(Begin(s), |s.txns|)
    ensures s'.cellValue == s.cellValue[c := v] && s'.cellWriter == s.cellWriter[c := |s.txns|]
    ensures s'.txns == s.txns + [STARTED.(committed := true, externalized := true)]
  {
    OneWrite(c, v);
    assert s.cellValue + map[c := v] == s.cellValue[c := v];
    assert s.cellWriter + WriterMap(map[c := v], |s.txns|) == s.cellWriter[c := |s.txns|];
  }

  lemma IntruderOverwrites(s: Store, s1: Store, s2: Store, k: nat, c: nat)
    requires c in s.cellValue && c in s.cellWriter && Midway(s, s1, k, false, c)
    requires s2 == UnguardedStep(Begin(s1), CallCommit(|s1.txns|, [(c, 900 + k)]))
    ensures Accepts(Begin(s1), |s1.txns|) && Midway(s, s2, k, true, c)
  {
    IntruderLands(s1, s2, c, 900 + k);
  }

  lemma OneWrite(c: nat, v: nat)
    ensures LastWrites([(c, v)]) == map[c := v]
  {
    assert [(c, v)][..0] == [];
  }

  /** The reader `t` committed, if its value still stood, and otherwise nothing happened. */
  ghost predicate ReaderDone(s2: Store, s3: Store, t: nat, linked: bool, c: nat, v: nat)
    requires t < |s2.txns|
  {
    && s3.txns == (if linked then s2.txns[t := s2.txns[t].(committed := true, externalized := true)] else s2.txns)
    && s3.cellValue == (if linked then s2.cellValue[c := v] else s2.cellValue)
    && s3.cellWriter == (if linked then s2.cellWriter[c := t] else s2.cellWriter)
  }

  lemma ReaderFinishes(s2: Store, s3: Store, t: nat, rc: nat, v: nat, w: nat, c: nat, written: nat)
    requires HasRead(s2, t, rc, v, w) && rc in s2.cellValue
    requires s3 == UnguardedStep(s2, CallCommit(t, [(c, written)]))
    ensures Accepts(s2, t) <==> s2.cellValue[rc] == v
    ensures ReaderDone(s2, s3, t, s2.cellValue[rc] == v, c, written)
  {
    OneWrite(c, written);
    assert rc in s2.txns[t].readCells;
    assert s2.cellValue + map[c := written] == s2.cellValue[c := written];
    assert s2.cellWriter + WriterMap(map[c := written], t) == s2.cellWriter[c := t];
  }

  /** The transaction that commits in round `k` is the one the layout names. */
  lemma RoundAddsOne(s: Store, s2: Store, s3: Store, k: nat, interrupted: bool, rc: nat, c: nat, added: nat)
    requires rc in s.cellValue && rc in s.cellWriter && Midway(s, s2, k, interrupted, rc)
    requires ReaderDone(s2, s3, |s.txns|, !interrupted, c, 70 + k)
    requires added == |s.txns| + if interrupted then 1 else 0
    ensures AddsOne(s, s3, added) && |s3.txns| == added + 1
    ensures s3.txns[added].predecessors == if interrupted then [] else [s.cellWriter[rc]]
  {
    assert s3.txns[..|s.txns|] == s2.txns[..|s.txns|];
  }

  lemma DirectNext(ids: seq<nat>, k: nat, interleave: bool)
    requires |ids| == k + 1
    ensures DirectBasis(ids, k + 1, interleave) == if Interrupted(k, interleave) then [] else [ids[k]]
  {
  }

  lemma ChainedNext(s: Store, s': Store, k: nat, interleave: bool, ids: seq<nat>, added: nat)
    requires Chained(s, k, interleave) && ids == CommittedIds(k, interleave) && AddsOne(s, s', added)
    requires added == CommitOf(k, interleave) && |s'.txns| == added + 1
    requires s'.txns[added].predecessors == if Interrupted(k, interleave) then [] else [ids[k]]
    ensures Chained(s', k + 1, interleave)
  {
    DirectNext(ids, k, interleave);
    LaidNext(s, s', ids, interleave, added);
    ChainedBy(s', k, interleave);
  }

  lemma ChainedBy(s: Store, k: nat, interleave: bool)
    requires Laid(s, CommittedIds(k, interleave) + [CommitOf(k, interleave)], interleave)
    requires |s.txns| == CommitOf(k, interleave) + 1
    ensures Chained(s, k + 1, interleave)
  {
    RoundAdds(k, interleave);
  }

  lemma RoundChains(s: Store, s2: Store, s3: Store, k: nat, interleave: bool, rc: nat, c: nat)
    requires Chained(s, k, interleave) && Frontier(s, rc, k, interleave)
    requires Midway(s, s2, k, Interrupted(k, interleave), rc)
    requires ReaderDone(s2, s3, |s.txns|, !Interrupted(k, interleave), c, 70 + k)
    ensures Chained(s3, k + 1, interleave)
    ensures Frontier(s3, if Interrupted(k, interleave) then rc else c, k + 1, interleave)
  {
    var added := CommitOf(k, interleave);
    RoundAddsOne(s, s2, s3, k, Interrupted(k, interleave), rc, c, added);
    ChainedNext(s, s3, k, interleave, CommittedIds(k, interleave), added);
    RoundAdds(k, interleave);
  }

  lemma WindowOpens(p: Progress, mid: Progress, k: nat, interleave: bool)
    requires mid == WithWindow(p, k, interleave)
    requires p.frontier in p.store.cellValue && p.frontier in p.store.cellWriter
    requires p.store.cellWriter[p.frontier] < |p.store.txns|
    ensures Midway(p.store, mid.store, k, Interrupted(k, interleave), p.frontier)
    ensures mid.committed == p.committed + if Interrupted(k, interleave) then [|p.store.txns| + 1] else []
    ensures mid.frontier == p.frontier && mid.nextCell == p.nextCell && mid.refused == p.refused
  {
    ReaderHasRead(p.store, WithReader(p).store, k, p.frontier);
    if Interrupted(k, interleave) {
      IntruderOverwrites(p.store, WithReader(p).store, mid.store, k, p.frontier);
    }
  }

  lemma WindowCloses(mid: Progress, p': Progress, s: Store, k: nat, interleave: bool)
    requires p' == WithFinish(mid, k, |s.txns|)
    requires mid.frontier in s.cellValue && s.cellValue[mid.frontier] < 900 + k && mid.frontier in s.cellWriter
    requires Midway(s, mid.store, k, Interrupted(k, interleave), mid.frontier)
    ensures ReaderDone(mid.store, p'.store, |s.txns|, !Interrupted(k, interleave), mid.nextCell, 70 + k)
    ensures p'.frontier == if Interrupted(k, interleave) then mid.frontier else mid.nextCell
    ensures p'.committed == mid.committed + if Interrupted(k, interleave) then [] else [|s.txns|]
    ensures p'.refused == mid.refused + if Interrupted(k, interleave) then 1 else 0
  {
    var rc := mid.frontier;
    ReaderFinishes(mid.store, p'.store, |s.txns|, rc, s.cellValue[rc], s.cellWriter[rc], mid.nextCell, 70 + k);
  }

  lemma RoundFollowsLayout(p: Progress, p': Progress, k: nat, interleave: bool)
    requires Planned(p, k, interleave) && p' == WithRound(p, k, interleave)
    ensures Planned(p', k + 1, interleave)
  {
    var s, mid := p.store, WithWindow(p, k, interleave);
    assert LaidAt(s, CommittedIds(k, interleave), k, interleave);
    WindowOpens(p, mid, k, interleave);
    WindowCloses(mid, p', s, k, interleave);
    RoundChains(s, mid.store, p'.store, k, interleave, p.frontier, mid.nextCell);
    RoundAdds(k, interleave);
  }

  lemma RootFollowsLayout(base: nat, v: nat, interleave: bool)
    requires v < 900
    ensures Planned(WithRoot(base, v), 0, interleave) && Accepts(Begin(EMPTY), 0)
  {
    IntruderLands(EMPTY, WithRoot(base, v).store, base, v);
    assert CommittedIds(0, interleave) == [0];
  }

  /** It is a run of either store, and it commits, reads from and refuses exactly what the layout says. */
  ghost predicate Follows(p: Progress, n: nat, interleave: bool) {
    OfRun(p) && Planned(p, n, interleave)
  }

  lemma NextRoundFollows(base: nat, v: nat, interleave: bool, k: nat)
    requires Follows(Rounds(base, v, interleave, k), k, interleave)
    ensures Follows(Rounds(base, v, interleave, k + 1), k + 1, interleave)
  {
    var p, p' := Rounds(base, v, interleave, k), Rounds(base, v, interleave, k + 1);
    RoundIsOfRun(p, p', k, interleave);
    RoundFollowsLayout(p, p', k, interleave);
  }

  /** The schedule is a run of either store, and does exactly what the layout says. */
  lemma {:induction false} RoundsFollowLayout(base: nat, v: nat, interleave: bool, n: nat)
    requires v < 900
    ensures Follows(Rounds(base, v, interleave, n), n, interleave)
  {
    RootIsOfRun(base, v);
    RootFollowsLayout(base, v, interleave);
    for k: nat := 0 to n
      invariant Follows(Rounds(base, v, interleave, k), k, interleave)
    {
      NextRoundFollows(base, v, interleave, k);
    }
  }

  /** The seeded schedule makes no retraction, and every transaction it lists as committed is out. */
  lemma {:induction false} RoundsAreSound(seed: nat, interleave: bool, n: nat)
    ensures var p := Rounds(BaseCell(seed), RootValue(seed), interleave, n);
            && NoRetraction(p.calls) && p.store == UnguardedRun(p.calls) == CascadeRun(p.calls) && p.committed != []
            && forall t: nat :: t in p.committed ==> IsOut(p.store, t)
  {
    var p := Rounds(BaseCell(seed), RootValue(seed), interleave, n);
    RoundsFollowLayout(BaseCell(seed), RootValue(seed), interleave, n);
    SameUntilRetraction(p.calls);
    RunsReleaseAtCommit(p.calls);
    forall t: nat | t in p.committed ensures IsOut(p.store, t) {
      assert HasCommitted(p.store, t);
    }
  }
}
