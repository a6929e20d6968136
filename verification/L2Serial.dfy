/**
 Commit-order serializability: the store is what the committed transactions produce when they run
 one after the other in commit order, and each of them read exactly what that serial execution
 would have shown it.  Transactions aborted after their commit stay in the replay, because an abort
 rolls nothing back.
 */
module L2Serial {
  import opened Common
  import opened L2Model
  import opened L2Invariant

  /** `order` lists the committed transactions, each once, by increasing commit time. */
  ghost predicate IsCommitOrder(s: State, order: seq<TxnId>) {
    && (forall i :: 0 <= i < |order| ==> order[i] < |s.txns| && s.txns[order[i]].committed)
    && SortedByCommit(s.txns, order)
    && (forall t: TxnId :: t < |s.txns| && s.txns[t].committed ==> t in order)
  }

  ghost predicate SortedByCommit(txns: seq<Txn>, order: seq<TxnId>) {
    && (forall i :: 0 <= i < |order| ==> order[i] < |txns|)
    && (forall i, j :: 0 <= i < j < |order| ==> txns[order[i]].commitTime < txns[order[j]].commitTime)
  }

  /** The store after running `order` serially from the empty store. */
  function ReplayValues(txns: seq<Txn>, order: seq<TxnId>): map<Cell, Value>
    requires forall i :: 0 <= i < |order| ==> order[i] < |txns|
  {
    if order == [] then map[]
    else ReplayValues(txns, order[..|order| - 1]) + txns[order[|order| - 1]].writeValues
  }

  /** Who wrote each cell last in that serial run. */
  function ReplayWriters(txns: seq<Txn>, order: seq<TxnId>): map<Cell, TxnId>
    requires forall i :: 0 <= i < |order| ==> order[i] < |txns|
  {
    if order == [] then map[]
    else
      var t := order[|order| - 1];
      ReplayWriters(txns, order[..|order| - 1]) + WriterMap(txns[t].writeValues, t)
  }

  /** The `k`-th transaction read what the serial run of its predecessors in `order` left. */
  ghost predicate ReadsMatch(txns: seq<Txn>, order: seq<TxnId>, k: nat)
    requires k < |order| && forall i :: 0 <= i < |order| ==> order[i] < |txns|
  {
    forall c: Cell :: c in txns[order[k]].readValues ==>
      && c in ReplayValues(txns, order[..k])
      && ReplayValues(txns, order[..k])[c] == txns[order[k]].readValues[c]
  }

  ghost predicate Serial(s: State, order: seq<TxnId>)
    requires forall i :: 0 <= i < |order| ==> order[i] < |s.txns|
  {
    && s.cellValue == ReplayValues(s.txns, order)
    && s.cellWriter == ReplayWriters(s.txns, order)
    && forall k: nat :: k < |order| ==> ReadsMatch(s.txns, order, k)
  }

  /** The commits of a run, in the order they happened. */
  function CommitLog(calls: seq<Action>): seq<TxnId> {
    if calls == [] then []
    else
      var before := calls[..|calls| - 1];
      ExtendLog(Run(before), calls[|calls| - 1], CommitLog(before))
  }

  function ExtendLog(s: State, a: Action, order: seq<TxnId>): seq<TxnId> {
    if Enabled(s, a) && a.Commit? then order + [a.t] else order
  }

  // ------------------------------------------------------------ the proof

  lemma {:induction false} ReplayFrame(txns: seq<Txn>, txns': seq<Txn>, order: seq<TxnId>)
    requires forall i :: 0 <= i < |order| ==>
               && order[i] < |txns| && order[i] < |txns'|
               && txns[order[i]].writeValues == txns'[order[i]].writeValues
    ensures ReplayValues(txns, order) == ReplayValues(txns', order)
    ensures ReplayWriters(txns, order) == ReplayWriters(txns', order)
  {
    if order != [] {
      ReplayFrame(txns, txns', order[..|order| - 1]);
    }
  }

  /** Later steps change nothing the replay of a committed prefix looks at. */
  lemma ReadsMatchFrame(s: State, s': State, order: seq<TxnId>, order': seq<TxnId>, k: nat)
    requires Evolves(s, s')
    requires forall i :: 0 <= i < |order| ==> order[i] < |s.txns| && s.txns[order[i]].committed
    requires forall i :: 0 <= i < |order'| ==> order'[i] < |s'.txns|
    requires k < |order| && order <= order'
    requires ReadsMatch(s.txns, order, k)
    ensures ReadsMatch(s'.txns, order', k)
  {
    forall i | 0 <= i < |order| ensures s.txns[order[i]].writeValues == s'.txns[order[i]].writeValues {
      assert TxnEvolves(s.txns[order[i]], s'.txns[order[i]]);
    }
    assert order'[..k] == order[..k];
    ReplayFrame(s.txns, s'.txns, order[..k]);
    assert TxnEvolves(s.txns[order[k]], s'.txns[order[k]]);
  }

  /** A listing stays one while nobody new commits. */
  lemma ListingKept(s: State, s': State, order: seq<TxnId>)
    requires IsCommitOrder(s, order) && Evolves(s, s')
    requires forall t: TxnId :: t < |s'.txns| && s'.txns[t].committed ==> t < |s.txns| && s.txns[t].committed
    ensures IsCommitOrder(s', order)
  {
    forall i | 0 <= i < |order| ensures TxnEvolves(s.txns[order[i]], s'.txns[order[i]]) {
    }
  }

  /** A new commit goes at the end: it is later than all others. */
  lemma ListingExtended(s: State, t: TxnId, order: seq<TxnId>)
    requires CommitTimesDistinct(s) && IsCommitOrder(s, order) && t < |s.txns| && !s.txns[t].committed
    ensures IsCommitOrder(StepCommit(s, t), order + [t])
  {
    var s', order' := StepCommit(s, t), order + [t];
    forall u: TxnId | u < |s'.txns| && s'.txns[u].committed ensures u in order' {
      if u == t {
        assert order'[|order|] == t;
      } else {
        assert u in order;
      }
    }
  }

  lemma OthersCommitNobody(s: State, a: Action)
    requires WellFormed(s) && !(Enabled(s, a) && a.Commit?)
    ensures forall t: TxnId :: t < |Step(s, a).txns| && Step(s, a).txns[t].committed ==>
            t < |s.txns| && s.txns[t].committed
  {
  }

  lemma StepKeepsOrder(s: State, a: Action, order: seq<TxnId>)
    requires Inv(s) && IsCommitOrder(s, order)
    ensures IsCommitOrder(Step(s, a), ExtendLog(s, a, order))
  {
    if Enabled(s, a) && a.Commit? {
      assert a == Commit(a.t) && Step(s, a) == StepCommit(s, a.t);
      ListingExtended(s, a.t, order);
    } else {
      StepEvolves(s, a);
      OthersCommitNobody(s, a);
      ListingKept(s, Step(s, a), order);
    }
  }

  /** Whatever happens later, the replay of a listing and the reads of its members stay as they were. */
  lemma LaterKeepsReads(s: State, s': State, order: seq<TxnId>, order': seq<TxnId>)
    requires Evolves(s, s') && IsCommitOrder(s, order) && Serial(s, order)
    requires IsCommitOrder(s', order') && order <= order'
    ensures ReplayValues(s'.txns, order) == s.cellValue
    ensures ReplayWriters(s'.txns, order) == s.cellWriter
    ensures forall k: nat :: k < |order| ==> ReadsMatch(s'.txns, order', k)
  {
    forall i | 0 <= i < |order| ensures s.txns[order[i]].writeValues == s'.txns[order[i]].writeValues {
      assert TxnEvolves(s.txns[order[i]], s'.txns[order[i]]);
    }
    ReplayFrame(s.txns, s'.txns, order);
    forall k: nat | k < |order| ensures ReadsMatch(s'.txns, order', k) {
      ReadsMatchFrame(s, s', order, order', k);
    }
  }

  /** A commit appends one transaction to the serial run: what it publishes and what it read. */
  lemma CommitExtendsSerial(s: State, t: TxnId, order: seq<TxnId>)
    requires Inv(s) && Enabled(s, Commit(t)) && IsCommitOrder(s, order)
    requires ReplayValues(StepCommit(s, t).txns, order) == s.cellValue
    requires ReplayWriters(StepCommit(s, t).txns, order) == s.cellWriter
    ensures ReplayValues(StepCommit(s, t).txns, order + [t]) == StepCommit(s, t).cellValue
    ensures ReplayWriters(StepCommit(s, t).txns, order + [t]) == StepCommit(s, t).cellWriter
    ensures ReadsMatch(StepCommit(s, t).txns, order + [t], |order|)
  {
    assert (order + [t])[..|order|] == order;
  }

  lemma OnlyCommitsPublish(s: State, a: Action)
    requires WellFormed(s)
    requires !(Enabled(s, a) && a.Commit?)
    ensures Step(s, a).cellValue == s.cellValue && Step(s, a).cellWriter == s.cellWriter
  {
  }

  lemma StepKeepsSerial(s: State, a: Action, order: seq<TxnId>)
    requires Inv(s) && IsCommitOrder(s, order) && Serial(s, order)
    requires IsCommitOrder(Step(s, a), ExtendLog(s, a, order))
    ensures Serial(Step(s, a), ExtendLog(s, a, order))
  {
    StepEvolves(s, a);
    LaterKeepsReads(s, Step(s, a), order, ExtendLog(s, a, order));
    if Enabled(s, a) && a.Commit? {
      var t, s', order' := a.t, Step(s, a), order + [a.t];
      assert a == Commit(t) && s' == StepCommit(s, t);
      CommitExtendsSerial(s, t, order);
      forall k: nat | k < |order'| ensures ReadsMatch(s'.txns, order', k) {
        assert k < |order| || k == |order|;
      }
    } else {
      OnlyCommitsPublish(s, a);
    }
  }

  lemma {:induction false} LogIsSerial(calls: seq<Action>)
    ensures IsCommitOrder(Run(calls), CommitLog(calls))
    ensures Serial(Run(calls), CommitLog(calls))
  {
    if calls != [] {
      var before := calls[..|calls| - 1];
      LogIsSerial(before);
      RunKeepsInv(before);
      StepKeepsOrder(Run(before), calls[|calls| - 1], CommitLog(before));
      StepKeepsSerial(Run(before), calls[|calls| - 1], CommitLog(before));
    }
  }

  lemma HeadIsMember(order: seq<TxnId>)
    requires |order| != 0
    ensures order[0] in order
  {
  }

  /** Two increasing listings of the same transactions are the same listing. */
  lemma {:induction false} SortedListingUnique(txns: seq<Txn>, a: seq<TxnId>, b: seq<TxnId>)
    requires SortedByCommit(txns, a) && SortedByCommit(txns, b)
    requires forall i :: 0 <= i < |a| ==> a[i] in b
    requires forall i :: 0 <= i < |b| ==> b[i] in a
    ensures a == b
  {
    if |a| == 0 {
      if |b| != 0 {
        HeadIsMember(b);
      }
    } else {
      var m, n := |a| - 1, |b| - 1;
      assert a[m] in b && b[n] in a;
      assert a[m] == b[n];
      SortedListingUnique(txns, a[..m], b[..n]);
    }
  }

  /**
   Commit-order serializability of every reachable state, for the listing of its committed
   transactions by commit time, and with no assumption on what they write.
   */
  lemma {:induction false} CommitOrderSerializable(calls: seq<Action>, order: seq<TxnId>)
    requires IsCommitOrder(Run(calls), order)
    ensures Serial(Run(calls), order)
    ensures order == CommitLog(calls)
  {
    LogIsSerial(calls);
    SortedListingUnique(Run(calls).txns, order, CommitLog(calls));
  }
}
