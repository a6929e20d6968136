/**
 What every reachable state of the L2 runtime keeps, and what no later call can undo.
 */
module L2Invariant {
  import opened Common
  import opened L2Model

  // ------------------------------------------------------- state invariant

  /** A predecessor is another transaction, committed, and committed before its dependent. */
  ghost predicate PredecessorsEarlier(s: State) {
    forall u: TxnId, p: TxnId {:trigger p in s.txns[u].predecessors} :: u < |s.txns| && p in s.txns[u].predecessors ==>
      && p != u && p < |s.txns| && s.txns[p].committed
      && (s.txns[u].committed ==> s.txns[p].commitTime < s.txns[u].commitTime)
  }

  /** Predecessor sets are transitively closed. */
  ghost predicate PredecessorsClosed(s: State) {
    forall u: TxnId, p: TxnId, q: TxnId {:trigger p in s.txns[u].predecessors, q in s.txns[p].predecessors} ::
      u < |s.txns| && p in s.txns[u].predecessors && p < |s.txns| && q in s.txns[p].predecessors
      ==> q in s.txns[u].predecessors
  }

  ghost predicate CommitTimesDistinct(s: State) {
    && (forall t: TxnId :: t < |s.txns| && s.txns[t].committed ==> s.txns[t].commitTime < s.now)
    && (forall t: TxnId, u: TxnId ::
          (t < |s.txns| && u < |s.txns| && t != u && s.txns[t].committed && s.txns[u].committed)
          ==> s.txns[t].commitTime != s.txns[u].commitTime)
  }

  /** A published value is its recorded writer's, and that writer is committed. */
  ghost predicate WritersWrote(s: State) {
    forall c: Cell :: c in s.cellValue ==>
      && c in s.cellWriter && s.cellWriter[c] < |s.txns|
      && s.txns[s.cellWriter[c]].committed
      && c in s.txns[s.cellWriter[c]].writeValues
      && s.txns[s.cellWriter[c]].writeValues[c] == s.cellValue[c]
  }

  /** What `t` recorded about reading `c`: a predecessor wrote that value, and committed it before the read. */
  ghost predicate ReadExplained(s: State, t: TxnId, c: Cell)
    requires t < |s.txns| && c in s.txns[t].readValues
  {
    && c in s.txns[t].readFrom && c in s.txns[t].readAt
    && var w := s.txns[t].readFrom[c];
    && w in s.txns[t].predecessors
    && w < |s.txns|
    && c in s.txns[w].writeValues
    && s.txns[w].writeValues[c] == s.txns[t].readValues[c]
    && s.txns[w].commitTime < s.txns[t].readAt[c] < s.now
  }

  ghost predicate ReadProvenance(s: State) {
    forall t: TxnId, c: Cell {:trigger c in s.txns[t].readValues} ::
      t < |s.txns| && c in s.txns[t].readValues ==> ReadExplained(s, t, c)
  }

  ghost predicate CommittedClean(s: State) {
    forall t: TxnId, p: TxnId {:trigger p in s.txns[t].predecessors} ::
      (t < |s.txns| && s.txns[t].committed && !s.txns[t].aborted && p in s.txns[t].predecessors)
      ==> p < |s.txns| && !s.txns[p].aborted
  }

  /** Released effects are committed, unaborted, and rest only on released effects. */
  ghost predicate ExternalizedFinal(s: State) {
    && (forall t: TxnId :: t < |s.txns| && s.txns[t].externalized ==> s.txns[t].committed && !s.txns[t].aborted)
    && (forall t: TxnId, p: TxnId {:trigger p in s.txns[t].predecessors} ::
          (t < |s.txns| && s.txns[t].externalized && p in s.txns[t].predecessors)
          ==> p < |s.txns| && s.txns[p].externalized)
  }

  /** Values, writers and times. */
  ghost predicate RecordsInv(s: State) {
    && WellFormed(s)
    && s.now <= MAX_U64 && |s.txns| <= MAX_U64
    && (forall t: TxnId :: t < |s.txns| ==> s.txns[t].started)
    && CommitTimesDistinct(s)
    && WritersWrote(s)
  }

  /** Predecessors, aborts and releases. */
  ghost predicate CausalInv(s: State) {
    && PredecessorsEarlier(s)
    && PredecessorsClosed(s)
    && CommittedClean(s)
    && ExternalizedFinal(s)
  }

  ghost predicate Inv(s: State) {
    RecordsInv(s) && CausalInv(s) && ReadProvenance(s)
  }

  // ------------------------------------------------------- what stays put

  /** A committed transaction's record is frozen; flags are only ever set. */
  ghost predicate TxnEvolves(x: Txn, y: Txn) {
    && x.predecessors <= y.predecessors
    && (x.aborted ==> y.aborted)
    && (x.externalized ==> y.externalized)
    && (x.committed ==> y == x.(aborted := y.aborted, externalized := y.externalized))
  }

  ghost predicate Evolves(s: State, s': State) {
    && s.now <= s'.now
    && |s.txns| <= |s'.txns|
    && forall t: TxnId :: t < |s.txns| ==> TxnEvolves(s.txns[t], s'.txns[t])
  }

  lemma StepEvolves(s: State, a: Action)
    requires WellFormed(s)
    ensures Evolves(s, Step(s, a))
  {
  }

  // --------------------------------------------------- steps keep the state

  lemma BeginKeepsRecords(s: State)
    requires Inv(s) && s.now < MAX_U64 && |s.txns| < MAX_U64
    ensures RecordsInv(StepBegin(s))
  {
  }

  lemma BeginKeepsCausal(s: State)
    requires Inv(s) && s.now < MAX_U64 && |s.txns| < MAX_U64
    ensures CausalInv(StepBegin(s))
  {
  }

  lemma WriteKeepsRecords(s: State, t: TxnId, c: Cell, v: Value)
    requires Inv(s) && s.now < MAX_U64 && WriteValid(s, t)
    ensures RecordsInv(StepWrite(s, t, c, v))
  {
  }

  lemma WriteKeepsCausal(s: State, t: TxnId, c: Cell, v: Value)
    requires Inv(s) && s.now < MAX_U64 && WriteValid(s, t)
    ensures CausalInv(StepWrite(s, t, c, v))
  {
  }

  lemma ReadKeepsRecords(s: State, t: TxnId, c: Cell)
    requires Inv(s) && s.now < MAX_U64 && ReadValid(s, t, c)
    ensures RecordsInv(StepRead(s, t, c))
  {
  }

  lemma ReadKeepsClosed(s: State, t: TxnId, c: Cell)
    requires Inv(s) && s.now < MAX_U64 && ReadValid(s, t, c)
    ensures PredecessorsClosed(StepRead(s, t, c))
  {
  }

  lemma ReadKeepsEarlier(s: State, t: TxnId, c: Cell)
    requires Inv(s) && s.now < MAX_U64 && ReadValid(s, t, c)
    ensures PredecessorsEarlier(StepRead(s, t, c))
  {
  }

  lemma ReadKeepsFinal(s: State, t: TxnId, c: Cell)
    requires Inv(s) && s.now < MAX_U64 && ReadValid(s, t, c)
    ensures CommittedClean(StepRead(s, t, c)) && ExternalizedFinal(StepRead(s, t, c))
  {
  }

  lemma ReadKeepsCausal(s: State, t: TxnId, c: Cell)
    requires Inv(s) && s.now < MAX_U64 && ReadValid(s, t, c)
    ensures CausalInv(StepRead(s, t, c))
  {
    ReadKeepsClosed(s, t, c);
    ReadKeepsEarlier(s, t, c);
    ReadKeepsFinal(s, t, c);
  }

  lemma CommitKeepsRecords(s: State, t: TxnId)
    requires Inv(s) && s.now < MAX_U64 && CommitValid(s, t)
    ensures RecordsInv(StepCommit(s, t))
  {
  }

  lemma CommitKeepsCausal(s: State, t: TxnId)
    requires Inv(s) && s.now < MAX_U64 && CommitValid(s, t)
    ensures CausalInv(StepCommit(s, t))
  {
  }

  lemma AbortKeepsRecords(s: State, t: TxnId)
    requires Inv(s) && s.now < MAX_U64 && AbortValid(s, t)
    ensures RecordsInv(StepAbort(s, t))
  {
  }

  lemma AbortKeepsCausal(s: State, t: TxnId)
    requires Inv(s) && s.now < MAX_U64 && AbortValid(s, t)
    ensures CausalInv(StepAbort(s, t))
  {
  }

  lemma ExternalizeKeepsRecords(s: State, t: TxnId)
    requires Inv(s) && s.now < MAX_U64 && ExternalizeValid(s, t)
    ensures RecordsInv(StepExternalize(s, t))
  {
  }

  lemma ExternalizeKeepsCausal(s: State, t: TxnId)
    requires Inv(s) && s.now < MAX_U64 && ExternalizeValid(s, t)
    ensures CausalInv(StepExternalize(s, t))
  {
  }

  lemma ReadIsExplained(s: State, t: TxnId, c: Cell)
    requires Inv(s) && s.now < MAX_U64 && ReadValid(s, t, c)
    ensures ReadExplained(StepRead(s, t, c), t, c)
  {
  }

  lemma ReadStaysExplained(s: State, s': State, t: TxnId, c: Cell)
    requires Inv(s) && Evolves(s, s')
    requires t < |s.txns| && c in s.txns[t].readValues
    requires SameRead(s.txns[t], s'.txns[t], c)
    ensures ReadExplained(s', t, c)
  {
    assert ReadExplained(s, t, c);
    assert TxnEvolves(s.txns[t], s'.txns[t]);
    assert TxnEvolves(s.txns[s.txns[t].readFrom[c]], s'.txns[s.txns[t].readFrom[c]]);
  }

  /** `x` and `y` recorded the same about reading `c`. */
  ghost predicate SameRead(x: Txn, y: Txn, c: Cell) {
    && (c in y.readValues <==> c in x.readValues)
    && (c in y.readValues ==> y.readValues[c] == x.readValues[c])
    && (c in y.readFrom <==> c in x.readFrom)
    && (c in y.readFrom ==> y.readFrom[c] == x.readFrom[c])
    && (c in y.readAt <==> c in x.readAt)
    && (c in y.readAt ==> y.readAt[c] == x.readAt[c])
  }

  lemma OnlyReadsRecordReads(s: State, a: Action, t: TxnId, c: Cell)
    requires WellFormed(s)
    requires t < |Step(s, a).txns|
    requires !(Enabled(s, a) && a == Read(t, c))
    ensures if t < |s.txns| then SameRead(s.txns[t], Step(s, a).txns[t], c) else Step(s, a).txns[t] == STARTED_TXN
  {
  }

  lemma StepKeepsProvenance(s: State, a: Action)
    requires Inv(s)
    ensures ReadProvenance(Step(s, a))
  {
    var s' := Step(s, a);
    forall t: TxnId, c: Cell | t < |s'.txns| && c in s'.txns[t].readValues
      ensures ReadExplained(s', t, c)
    {
      if Enabled(s, a) && a == Read(t, c) {
        ReadIsExplained(s, t, c);
      } else {
        OnlyReadsRecordReads(s, a, t, c);
        StepEvolves(s, a);
        ReadStaysExplained(s, s', t, c);
      }
    }
  }

  lemma {:induction false} StepKeepsInv(s: State, a: Action)
    requires Inv(s)
    ensures Inv(Step(s, a))
  {
    StepKeepsProvenance(s, a);
    if Enabled(s, a) {
      match a
      case Begin => BeginKeepsRecords(s); BeginKeepsCausal(s);
      case Write(t, c, v) => WriteKeepsRecords(s, t, c, v); WriteKeepsCausal(s, t, c, v);
      case Read(t, c) => ReadKeepsRecords(s, t, c); ReadKeepsCausal(s, t, c);
      case Commit(t) => CommitKeepsRecords(s, t); CommitKeepsCausal(s, t);
      case Abort(t) => AbortKeepsRecords(s, t); AbortKeepsCausal(s, t);
      case Externalize(t) => ExternalizeKeepsRecords(s, t); ExternalizeKeepsCausal(s, t);
    }
  }

  lemma {:induction false} RunFromKeepsInv(s: State, calls: seq<Action>)
    requires Inv(s)
    ensures Inv(RunFrom(s, calls))
  {
    if calls != [] {
      RunFromKeepsInv(s, calls[..|calls| - 1]);
      StepKeepsInv(RunFrom(s, calls[..|calls| - 1]), calls[|calls| - 1]);
    }
  }

  /** Every reachable state satisfies the invariant. */
  lemma {:induction false} RunKeepsInv(calls: seq<Action>)
    ensures Inv(Run(calls))
  {
    RunFromKeepsInv(INITIAL, calls);
  }
}
