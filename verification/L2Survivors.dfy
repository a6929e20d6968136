/**
 Which sets of committed transactions can be replayed without the others.

 A kept set must be closed under predecessors; the unaborted commits and the released ones are.
 Because commit-time freshness compares values and not writers, closure alone is not enough: a
 transaction can commit over a value that a transaction outside its closure restored.  For one closed
 set, the survivors or the released ones in particular, `RestoredWithin` is the exact condition.  For
 every closed set at once it is `Masked`, which can be checked before each commit.
 */
module L2Survivors {
  import opened Common
  import opened L2Model
  import opened L2Invariant
  import opened L2Serial

  /** The first `k` transactions of `order`, restricted to the kept ones. */
  function Restrict(order: seq<TxnId>, kept: set<TxnId>, k: nat): (r: seq<TxnId>)
    requires k <= |order|
    ensures forall i :: 0 <= i < |r| ==> r[i] in order && r[i] in kept
  {
    if k == 0 then []
    else if order[k - 1] in kept then Restrict(order, kept, k - 1) + [order[k - 1]]
    else Restrict(order, kept, k - 1)
  }

  ghost predicate Closed(s: State, kept: set<TxnId>) {
    forall t: TxnId :: t in kept ==> t < |s.txns| && s.txns[t].committed && s.txns[t].predecessors <= kept
  }

  /** Replayed alone in commit order, every kept transaction would read what it did read. */
  ghost predicate ReplaysAlone(s: State, order: seq<TxnId>, kept: set<TxnId>)
    requires IsCommitOrder(s, order)
  {
    forall k: nat, c: Cell :: k < |order| && order[k] in kept && c in s.txns[order[k]].readValues ==>
      ReadsAlone(s, order, kept, k, c)
  }

  ghost predicate ReadsAlone(s: State, order: seq<TxnId>, kept: set<TxnId>, k: nat, c: Cell)
    requires IsCommitOrder(s, order) && k < |order| && c in s.txns[order[k]].readValues
  {
    var replayed := ReplayValues(s.txns, Restrict(order, kept, k));
    c in replayed && replayed[c] == s.txns[order[k]].readValues[c]
  }

  /** `x` committed a value for `c` that `t` did not see, although `t` read `c`. */
  ghost predicate Disagrees(s: State, t: TxnId, x: TxnId, c: Cell)
    requires t < |s.txns|
  {
    && x < |s.txns| && s.txns[x].committed
    && c in s.txns[t].readValues && c in s.txns[x].writeValues
    && s.txns[x].writeValues[c] != s.txns[t].readValues[c]
  }

  /** A predecessor of `t` wrote `c` after `x` did. */
  ghost predicate Overwritten(s: State, t: TxnId, x: TxnId, c: Cell)
    requires t < |s.txns| && x < |s.txns|
  {
    exists y: TxnId :: y in s.txns[t].predecessors && y < |s.txns|
                       && c in s.txns[y].writeValues && s.txns[x].commitTime < s.txns[y].commitTime
  }

  /** Every disagreeing write that precedes a commit is overwritten inside that commit's own closure. */
  ghost predicate Masked(s: State) {
    forall t: TxnId, x: TxnId, c: Cell :: MaskedAt(s, t, x, c)
  }

  ghost predicate MaskedAt(s: State, t: TxnId, x: TxnId, c: Cell) {
    t < |s.txns| && s.txns[t].committed && Disagrees(s, t, x, c) && s.txns[x].commitTime < s.txns[t].commitTime
    ==> Overwritten(s, t, x, c)
  }

  /** After a kept `x` disagreed with what `t` read, a kept transaction put the value back before `t` committed. */
  ghost predicate PutBack(s: State, kept: set<TxnId>, t: TxnId, x: TxnId, c: Cell)
    requires t < |s.txns| && x < |s.txns| && c in s.txns[t].readValues
  {
    exists y: TxnId :: y in kept && y < |s.txns| && c in s.txns[y].writeValues
                       && s.txns[y].writeValues[c] == s.txns[t].readValues[c]
                       && s.txns[x].commitTime < s.txns[y].commitTime < s.txns[t].commitTime
  }

  /** Within the kept set, every write that disagrees with a later commit's read is put back in between. */
  ghost predicate RestoredWithin(s: State, kept: set<TxnId>) {
    forall t: TxnId, x: TxnId, c: Cell ::
      (t in kept && x in kept && t < |s.txns| && Disagrees(s, t, x, c) && s.txns[x].commitTime < s.txns[t].commitTime)
      ==> PutBack(s, kept, t, x, c)
  }

  /** The same condition for the next commit, in the state the caller sees before it. */
  ghost predicate MaskedBefore(s: State, t: TxnId)
    requires t < |s.txns|
  {
    forall x: TxnId, c: Cell :: Disagrees(s, t, x, c) ==> Overwritten(s, t, x, c)
  }

  /** No two committed transactions write the same value to the same cell. */
  ghost predicate UniqueWrites(s: State) {
    forall x: TxnId, y: TxnId, c: Cell ::
      && x < |s.txns| && y < |s.txns| && x != y && s.txns[x].committed && s.txns[y].committed
      && c in s.txns[x].writeValues && c in s.txns[y].writeValues
      ==> s.txns[x].writeValues[c] != s.txns[y].writeValues[c]
  }

  ghost function Survivors(s: State): set<TxnId> {
    set t: TxnId | t < |s.txns| && s.txns[t].committed && !s.txns[t].aborted
  }

  ghost function Released(s: State): set<TxnId> {
    set t: TxnId | t < |s.txns| && s.txns[t].externalized
  }

  // ------------------------------------------- what a restricted replay holds

  /** The `i`-th transaction is the last kept one before `k` that writes `c`. */
  ghost predicate LastWriter(s: State, order: seq<TxnId>, kept: set<TxnId>, k: nat, c: Cell, i: nat)
    requires IsCommitOrder(s, order) && k <= |order|
  {
    && i < k && order[i] in kept && c in s.txns[order[i]].writeValues
    && forall j :: i < j < k && order[j] in kept ==> c !in s.txns[order[j]].writeValues
  }

  lemma {:induction false} LastWriterExists(s: State, order: seq<TxnId>, kept: set<TxnId>, k: nat, c: Cell, i: nat)
    returns (m: nat)
    requires IsCommitOrder(s, order) && i < k <= |order|
    requires order[i] in kept && c in s.txns[order[i]].writeValues
    ensures i <= m && LastWriter(s, order, kept, k, c, m)
  {
    if order[k - 1] in kept && c in s.txns[order[k - 1]].writeValues {
      m := k - 1;
    } else {
      m := LastWriterExists(s, order, kept, k - 1, c, i);
    }
  }

  lemma {:induction false} ReplayShowsLastWriter(s: State, order: seq<TxnId>, kept: set<TxnId>, k: nat, c: Cell, i: nat)
    requires IsCommitOrder(s, order) && k <= |order| && LastWriter(s, order, kept, k, c, i)
    ensures c in ReplayValues(s.txns, Restrict(order, kept, k))
    ensures ReplayValues(s.txns, Restrict(order, kept, k))[c] == s.txns[order[i]].writeValues[c]
  {
    var r := Restrict(order, kept, k);
    if order[k - 1] in kept {
      assert r[..|r| - 1] == Restrict(order, kept, k - 1);
    }
    if i != k - 1 {
      ReplayShowsLastWriter(s, order, kept, k - 1, c, i);
    }
  }

  lemma CommittedHasIndex(s: State, order: seq<TxnId>, t: TxnId) returns (i: nat)
    requires IsCommitOrder(s, order) && t < |s.txns| && s.txns[t].committed
    ensures i < |order| && order[i] == t
  {
    assert t in order;
    i :| i < |order| && order[i] == t;
  }

  lemma EarlierIsBefore(s: State, order: seq<TxnId>, i: nat, j: nat)
    requires IsCommitOrder(s, order) && i < |order| && j < |order|
    ensures s.txns[order[i]].commitTime < s.txns[order[j]].commitTime <==> i < j
  {
    if j < i {
      assert s.txns[order[j]].commitTime < s.txns[order[i]].commitTime;
    }
  }

  // ------------------------------------------------- one closed set, exactly

  /** A kept reader has a kept writer of what it read before it, and so a last one. */
  lemma KeptReadHasLastWriter(s: State, order: seq<TxnId>, kept: set<TxnId>, k: nat, c: Cell) returns (m: nat)
    requires Inv(s) && IsCommitOrder(s, order) && Closed(s, kept)
    requires k < |order| && order[k] in kept && c in s.txns[order[k]].readValues
    ensures LastWriter(s, order, kept, k, c, m)
    ensures ReadsAlone(s, order, kept, k, c) <==> s.txns[order[m]].writeValues[c] == s.txns[order[k]].readValues[c]
  {
    assert ReadExplained(s, order[k], c);
    var i := CommittedHasIndex(s, order, s.txns[order[k]].readFrom[c]);
    EarlierIsBefore(s, order, i, k);
    m := LastWriterExists(s, order, kept, k, c, i);
    ReplayShowsLastWriter(s, order, kept, k, c, m);
  }

  lemma RestoredReadReplays(s: State, order: seq<TxnId>, kept: set<TxnId>, k: nat, c: Cell)
    requires Inv(s) && IsCommitOrder(s, order) && Closed(s, kept) && RestoredWithin(s, kept)
    requires k < |order| && order[k] in kept && c in s.txns[order[k]].readValues
    ensures ReadsAlone(s, order, kept, k, c)
  {
    var m := KeptReadHasLastWriter(s, order, kept, k, c);
    var t, x := order[k], order[m];
    EarlierIsBefore(s, order, m, k);
    if Disagrees(s, t, x, c) {
      assert PutBack(s, kept, t, x, c);
      var y: TxnId :| y in kept && y < |s.txns| && c in s.txns[y].writeValues
                      && s.txns[x].commitTime < s.txns[y].commitTime < s.txns[t].commitTime;
      var j := CommittedHasIndex(s, order, y);
      EarlierIsBefore(s, order, m, j);
      EarlierIsBefore(s, order, j, k);
      assert false;
    }
  }

  /** A read that replays is the value of the last kept write before it, which is at or after any given one. */
  lemma LastKeptWriteAgrees(s: State, order: seq<TxnId>, kept: set<TxnId>, k: nat, i: nat, c: Cell) returns (m: nat)
    requires IsCommitOrder(s, order) && i < k < |order| && c in s.txns[order[k]].readValues
    requires order[i] in kept && c in s.txns[order[i]].writeValues
    requires ReadsAlone(s, order, kept, k, c)
    ensures i <= m < k && order[m] in kept && c in s.txns[order[m]].writeValues
    ensures s.txns[order[m]].writeValues[c] == s.txns[order[k]].readValues[c]
  {
    m := LastWriterExists(s, order, kept, k, c, i);
    ReplayShowsLastWriter(s, order, kept, k, c, m);
  }

  lemma PutsBack(s: State, order: seq<TxnId>, kept: set<TxnId>, k: nat, i: nat, m: nat, c: Cell)
    requires IsCommitOrder(s, order) && i <= m < k < |order| && Disagrees(s, order[k], order[i], c)
    requires order[m] in kept && c in s.txns[order[m]].writeValues
    requires s.txns[order[m]].writeValues[c] == s.txns[order[k]].readValues[c]
    ensures PutBack(s, kept, order[k], order[i], c)
  {
    EarlierIsBefore(s, order, i, m);
    EarlierIsBefore(s, order, m, k);
  }

  lemma ReplayedDisagreementIsPutBack(s: State, order: seq<TxnId>, kept: set<TxnId>, t: TxnId, x: TxnId, c: Cell)
    requires Inv(s) && IsCommitOrder(s, order) && Closed(s, kept) && ReplaysAlone(s, order, kept)
    requires t in kept && x in kept && Disagrees(s, t, x, c) && s.txns[x].commitTime < s.txns[t].commitTime
    ensures PutBack(s, kept, t, x, c)
  {
    var k := CommittedHasIndex(s, order, t);
    var i := CommittedHasIndex(s, order, x);
    EarlierIsBefore(s, order, i, k);
    var m := LastKeptWriteAgrees(s, order, kept, k, i, c);
    PutsBack(s, order, kept, k, i, m, c);
  }

  /**
   Exactly when one predecessor-closed set of commits, whatever it is, replays alone in commit order to
   the values its members read: every disagreeing kept write before a kept reader was put back in between.
   */
  lemma {:induction false} ClosedSetReplaysIffRestored(calls: seq<Action>, order: seq<TxnId>, kept: set<TxnId>)
    requires IsCommitOrder(Run(calls), order) && Closed(Run(calls), kept)
    ensures ReplaysAlone(Run(calls), order, kept) <==> RestoredWithin(Run(calls), kept)
  {
    var s := Run(calls);
    RunKeepsInv(calls);
    if RestoredWithin(s, kept) {
      forall k: nat, c: Cell | k < |order| && order[k] in kept && c in s.txns[order[k]].readValues
        ensures ReadsAlone(s, order, kept, k, c)
      {
        RestoredReadReplays(s, order, kept, k, c);
      }
    }
    if ReplaysAlone(s, order, kept) {
      forall t: TxnId, x: TxnId, c: Cell
        | t in kept && x in kept && t < |s.txns| && Disagrees(s, t, x, c) && s.txns[x].commitTime < s.txns[t].commitTime
        ensures PutBack(s, kept, t, x, c)
      {
        ReplayedDisagreementIsPutBack(s, order, kept, t, x, c);
      }
    }
  }

  lemma SurvivorsAreClosed(s: State)
    requires Inv(s)
    ensures Closed(s, Survivors(s)) && Closed(s, Released(s))
  {
  }

  /** The unaborted commits and the released ones are closed, so for each of them the condition is exact. */
  lemma {:induction false} SurvivorsReplayIffRestored(calls: seq<Action>, order: seq<TxnId>)
    requires IsCommitOrder(Run(calls), order)
    ensures Closed(Run(calls), Survivors(Run(calls))) && Closed(Run(calls), Released(Run(calls)))
    ensures ReplaysAlone(Run(calls), order, Survivors(Run(calls)))
            <==> RestoredWithin(Run(calls), Survivors(Run(calls)))
    ensures ReplaysAlone(Run(calls), order, Released(Run(calls))) <==> RestoredWithin(Run(calls), Released(Run(calls)))
  {
    RunKeepsInv(calls);
    SurvivorsAreClosed(Run(calls));
    ClosedSetReplaysIffRestored(calls, order, Survivors(Run(calls)));
    ClosedSetReplaysIffRestored(calls, order, Released(Run(calls)));
  }

  // ---------------------------------------------------- masked is sufficient

  lemma MaskedReadReplays(s: State, order: seq<TxnId>, kept: set<TxnId>, k: nat, c: Cell)
    requires Inv(s) && IsCommitOrder(s, order) && Masked(s) && Closed(s, kept)
    requires k < |order| && order[k] in kept && c in s.txns[order[k]].readValues
    ensures ReadsAlone(s, order, kept, k, c)
  {
    var t := order[k];
    var m := KeptReadHasLastWriter(s, order, kept, k, c);
    EarlierIsBefore(s, order, m, k);
    var x := order[m];
    if s.txns[x].writeValues[c] != s.txns[t].readValues[c] {
      assert MaskedAt(s, t, x, c);
      var y: TxnId :| y in s.txns[t].predecessors && y < |s.txns|
                      && c in s.txns[y].writeValues && s.txns[x].commitTime < s.txns[y].commitTime;
      var j := CommittedHasIndex(s, order, y);
      EarlierIsBefore(s, order, m, j);
      EarlierIsBefore(s, order, j, k);
      assert false;
    }
  }

  lemma MaskedReplays(s: State, order: seq<TxnId>, kept: set<TxnId>)
    requires Inv(s) && IsCommitOrder(s, order) && Masked(s) && Closed(s, kept)
    ensures ReplaysAlone(s, order, kept)
  {
    forall k: nat, c: Cell | k < |order| && order[k] in kept && c in s.txns[order[k]].readValues
      ensures ReadsAlone(s, order, kept, k, c)
    {
      MaskedReadReplays(s, order, kept, k, c);
    }
  }

  // ----------------------------------------------------- masked is necessary

  /** An unmasked disagreement breaks the smallest closed set that holds both transactions. */
  lemma UnmaskedBreaks(s: State, order: seq<TxnId>, t: TxnId, x: TxnId, c: Cell) returns (kept: set<TxnId>)
    requires Inv(s) && IsCommitOrder(s, order)
    requires t < |s.txns| && s.txns[t].committed && Disagrees(s, t, x, c)
    requires s.txns[x].commitTime < s.txns[t].commitTime && !Overwritten(s, t, x, c)
    ensures Closed(s, kept) && !ReplaysAlone(s, order, kept)
  {
    kept := {t, x} + s.txns[t].predecessors + s.txns[x].predecessors;
    ClosureIsClosed(s, t, x);
    var k := CommittedHasIndex(s, order, t);
    var i := CommittedHasIndex(s, order, x);
    EarlierIsBefore(s, order, i, k);
    forall j | i < j < k && order[j] in kept ensures c !in s.txns[order[j]].writeValues {
      var y := order[j];
      EarlierIsBefore(s, order, i, j);
      assert y in s.txns[t].predecessors;
    }
    assert LastWriter(s, order, kept, k, c, i);
    ReplayShowsLastWriter(s, order, kept, k, c, i);
    assert !ReadsAlone(s, order, kept, k, c);
  }

  lemma ClosureIsClosed(s: State, t: TxnId, x: TxnId)
    requires Inv(s) && t < |s.txns| && s.txns[t].committed && x < |s.txns| && s.txns[x].committed
    ensures Closed(s, {t, x} + s.txns[t].predecessors + s.txns[x].predecessors)
  {
    var kept := {t, x} + s.txns[t].predecessors + s.txns[x].predecessors;
    forall u: TxnId | u in kept
      ensures u < |s.txns| && s.txns[u].committed && s.txns[u].predecessors <= kept
    {
      forall q: TxnId | u < |s.txns| && q in s.txns[u].predecessors ensures q in kept {
      }
    }
  }

  /**
   For every predecessor-closed set of committed transactions at once: they all replay alone to the
   values they read if and only if every disagreeing write is masked.
   */
  lemma {:induction false} ClosedSetsReplayIffMasked(calls: seq<Action>, order: seq<TxnId>)
    requires IsCommitOrder(Run(calls), order)
    ensures (forall kept: set<TxnId> :: Closed(Run(calls), kept) ==> ReplaysAlone(Run(calls), order, kept))
            <==> Masked(Run(calls))
  {
    var s := Run(calls);
    RunKeepsInv(calls);
    if Masked(s) {
      forall kept: set<TxnId> | Closed(s, kept) ensures ReplaysAlone(s, order, kept) {
        MaskedReplays(s, order, kept);
      }
    } else {
      var t: TxnId, x: TxnId, c: Cell :| !MaskedAt(s, t, x, c);
      var kept := UnmaskedBreaks(s, order, t, x, c);
    }
  }

  // --------------------------------------------- the condition, call by call

  lemma FrozenRecords(s: State, s': State, t: TxnId)
    requires Evolves(s, s') && t < |s.txns| && s.txns[t].committed
    ensures s'.txns[t] == s.txns[t].(aborted := s'.txns[t].aborted, externalized := s'.txns[t].externalized)
  {
    assert TxnEvolves(s.txns[t], s'.txns[t]);
  }

  /** Masking among frozen records is decided once and for all. */
  lemma MaskingIsFrozen(s: State, s': State, t: TxnId, x: TxnId, c: Cell)
    requires Inv(s) && Evolves(s, s')
    requires t < |s.txns| && s.txns[t].committed && x < |s.txns| && s.txns[x].committed
    ensures Disagrees(s', t, x, c) == Disagrees(s, t, x, c)
    ensures Overwritten(s', t, x, c) == Overwritten(s, t, x, c)
  {
    FrozenRecords(s, s', t);
    FrozenRecords(s, s', x);
    forall y: TxnId | y in s.txns[t].predecessors && y < |s.txns|
      ensures s'.txns[y].writeValues == s.txns[y].writeValues && s'.txns[y].commitTime == s.txns[y].commitTime
    {
      FrozenRecords(s, s', y);
    }
  }

  lemma CommitSeesItself(s: State, t: TxnId, x: TxnId, c: Cell)
    requires Inv(s) && s.now < MAX_U64 && CommitValid(s, t) && x < |s.txns| && s.txns[x].committed
    ensures Disagrees(StepCommit(s, t), t, x, c) == Disagrees(s, t, x, c)
    ensures Overwritten(StepCommit(s, t), t, x, c) == Overwritten(s, t, x, c)
  {
  }

  lemma CommitKeepsMaskedAt(s: State, t: TxnId, u: TxnId, x: TxnId, c: Cell)
    requires Inv(s) && s.now < MAX_U64 && CommitValid(s, t)
    ensures MaskedAt(StepCommit(s, t), u, x, c)
            <==> if u == t then Disagrees(s, t, x, c) ==> Overwritten(s, t, x, c) else MaskedAt(s, u, x, c)
  {
    var s' := StepCommit(s, t);
    StepEvolves(s, Commit(t));
    if x != t && x < |s.txns| && s.txns[x].committed {
      if u == t {
        CommitSeesItself(s, t, x, c);
      } else if u < |s.txns| && s.txns[u].committed {
        MaskingIsFrozen(s, s', u, x, c);
      }
    }
  }

  lemma MaskedAfterCommit(s: State, t: TxnId)
    requires Inv(s) && s.now < MAX_U64 && CommitValid(s, t) && Masked(StepCommit(s, t))
    ensures Masked(s) && MaskedBefore(s, t)
  {
    forall u: TxnId, x: TxnId, c: Cell ensures MaskedAt(s, u, x, c) {
      assert MaskedAt(StepCommit(s, t), u, x, c);
      CommitKeepsMaskedAt(s, t, u, x, c);
    }
    forall x: TxnId, c: Cell | Disagrees(s, t, x, c) ensures Overwritten(s, t, x, c) {
      assert MaskedAt(StepCommit(s, t), t, x, c);
      CommitKeepsMaskedAt(s, t, t, x, c);
    }
  }

  lemma MaskedThroughCommit(s: State, t: TxnId)
    requires Inv(s) && s.now < MAX_U64 && CommitValid(s, t) && Masked(s) && MaskedBefore(s, t)
    ensures Masked(StepCommit(s, t))
  {
    forall u: TxnId, x: TxnId, c: Cell ensures MaskedAt(StepCommit(s, t), u, x, c) {
      assert MaskedAt(s, u, x, c);
      CommitKeepsMaskedAt(s, t, u, x, c);
    }
  }

  /** A commit keeps every closed set replayable exactly when its own check holds before the call. */
  lemma {:induction false} CommitKeepsMaskedIff(s: State, t: TxnId)
    requires Inv(s) && Enabled(s, Commit(t))
    ensures Masked(Step(s, Commit(t))) <==> Masked(s) && MaskedBefore(s, t)
  {
    if Masked(StepCommit(s, t)) {
      MaskedAfterCommit(s, t);
    } else if Masked(s) && MaskedBefore(s, t) {
      MaskedThroughCommit(s, t);
    }
  }

  lemma OtherStepsKeepMasked(s: State, a: Action)
    requires Inv(s) && !(Enabled(s, a) && a.Commit?)
    ensures Masked(Step(s, a)) <==> Masked(s)
  {
    var s' := Step(s, a);
    StepEvolves(s, a);
    forall t: TxnId, x: TxnId, c: Cell ensures MaskedAt(s', t, x, c) <==> MaskedAt(s, t, x, c) {
      OnlyCommitsCommit(s, a, t);
      OnlyCommitsCommit(s, a, x);
      if t < |s.txns| && s.txns[t].committed && x < |s.txns| && s.txns[x].committed {
        MaskingIsFrozen(s, s', t, x, c);
        FrozenRecords(s, s', t);
        FrozenRecords(s, s', x);
      }
    }
    assert Masked(s) ==> forall t: TxnId, x: TxnId, c: Cell :: MaskedAt(s, t, x, c);
    assert Masked(s') ==> forall t: TxnId, x: TxnId, c: Cell :: MaskedAt(s', t, x, c);
  }

  lemma OnlyCommitsCommit(s: State, a: Action, t: TxnId)
    requires WellFormed(s) && !(Enabled(s, a) && a.Commit?)
    ensures t < |Step(s, a).txns| && Step(s, a).txns[t].committed <==> t < |s.txns| && s.txns[t].committed
  {
  }

  /** Every commit the run accepted passed its own check at the moment of the call. */
  ghost predicate EveryCommitChecked(calls: seq<Action>) {
    calls != [] ==>
      var before, last := calls[..|calls| - 1], calls[|calls| - 1];
      EveryCommitChecked(before)
      && (Enabled(Run(before), last) && last.Commit? ==> MaskedBefore(Run(before), last.t))
  }

  lemma {:induction false} MaskedIffEveryCommitChecked(calls: seq<Action>)
    ensures Masked(Run(calls)) <==> EveryCommitChecked(calls)
  {
    if calls == [] {
      forall t: TxnId, x: TxnId, c: Cell ensures MaskedAt(INITIAL, t, x, c) {
      }
    } else {
      var before, last := calls[..|calls| - 1], calls[|calls| - 1];
      MaskedIffEveryCommitChecked(before);
      RunKeepsInv(before);
      if Enabled(Run(before), last) && last.Commit? {
        CommitKeepsMaskedIff(Run(before), last.t);
      } else {
        OtherStepsKeepMasked(Run(before), last);
      }
    }
  }

  // ------------------------------------------------------------- corollaries

  /** What a committed transaction read is the last write before it, at or after any given one. */
  lemma LastWriteIsRead(s: State, order: seq<TxnId>, k: nat, i: nat, c: Cell) returns (m: nat)
    requires IsCommitOrder(s, order) && Serial(s, order) && i < k < |order|
    requires c in s.txns[order[i]].writeValues && c in s.txns[order[k]].readValues
    ensures i <= m < k && c in s.txns[order[m]].writeValues
    ensures s.txns[order[m]].writeValues[c] == s.txns[order[k]].readValues[c]
  {
    var everyone := set u: TxnId | u in order;
    m := LastWriterExists(s, order, everyone, k, c, i);
    ReplayShowsLastWriter(s, order, everyone, k, c, m);
    RestrictToEveryone(order, everyone, k);
    assert ReadsMatch(s.txns, order, k);
  }

  lemma UniqueWriterWasRead(s: State, t: TxnId, y: TxnId, c: Cell)
    requires Inv(s) && UniqueWrites(s) && t < |s.txns| && c in s.txns[t].readValues
    requires y < |s.txns| && s.txns[y].committed && c in s.txns[y].writeValues
    requires s.txns[y].writeValues[c] == s.txns[t].readValues[c]
    ensures y in s.txns[t].predecessors
  {
    assert ReadExplained(s, t, c);
    assert y == s.txns[t].readFrom[c];
  }

  /** With unique writes, a fresh value proves that its writer is still the last one. */
  lemma UniqueReadIsMasked(s: State, order: seq<TxnId>, t: TxnId, x: TxnId, c: Cell)
    requires Inv(s) && IsCommitOrder(s, order) && Serial(s, order) && UniqueWrites(s)
    ensures MaskedAt(s, t, x, c)
  {
    if t < |s.txns| && s.txns[t].committed && Disagrees(s, t, x, c) && s.txns[x].commitTime < s.txns[t].commitTime {
      var k := CommittedHasIndex(s, order, t);
      var i := CommittedHasIndex(s, order, x);
      EarlierIsBefore(s, order, i, k);
      var m := LastWriteIsRead(s, order, k, i, c);
      UniqueWriterWasRead(s, t, order[m], c);
      assert i != m;
      EarlierIsBefore(s, order, i, m);
    }
  }

  lemma {:induction false} UniqueWritesAreMasked(calls: seq<Action>)
    requires UniqueWrites(Run(calls))
    ensures Masked(Run(calls))
  {
    RunKeepsInv(calls);
    LogIsSerial(calls);
    forall t: TxnId, x: TxnId, c: Cell ensures MaskedAt(Run(calls), t, x, c) {
      UniqueReadIsMasked(Run(calls), CommitLog(calls), t, x, c);
    }
  }

  lemma {:induction false} RestrictToEveryone(order: seq<TxnId>, kept: set<TxnId>, k: nat)
    requires k <= |order| && forall i :: 0 <= i < |order| ==> order[i] in kept
    ensures Restrict(order, kept, k) == order[..k]
  {
    if k != 0 {
      RestrictToEveryone(order, kept, k - 1);
    }
  }

  /** The surviving commits and the released ones replay alone whenever writes are unique. */
  lemma {:induction false} SurvivorsSerializable(calls: seq<Action>, order: seq<TxnId>)
    requires IsCommitOrder(Run(calls), order) && UniqueWrites(Run(calls))
    ensures Closed(Run(calls), Survivors(Run(calls))) && Closed(Run(calls), Released(Run(calls)))
    ensures ReplaysAlone(Run(calls), order, Survivors(Run(calls)))
    ensures ReplaysAlone(Run(calls), order, Released(Run(calls)))
  {
    RunKeepsInv(calls);
    SurvivorsAreClosed(Run(calls));
    UniqueWritesAreMasked(calls);
    MaskedReplays(Run(calls), order, Survivors(Run(calls)));
    MaskedReplays(Run(calls), order, Released(Run(calls)));
  }
}
