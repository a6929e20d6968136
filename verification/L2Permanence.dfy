/**
 What no continuation of a run can undo, and why no reachable state carries an A3 witness.
 */
module L2Permanence {
  import opened L2Model
  import opened L2Invariant

  /** A3: effects left the runtime while a transaction in their causal closure is aborted. */
  ghost predicate A3Witness(s: State, t: TxnId) {
    t < |s.txns| && s.txns[t].externalized && Tainted(s, t)
  }

  /** The superseded A3: a surviving dependent of an aborted transaction. */
  ghost predicate A3UnpropagatedWitness(s: State, t: TxnId) {
    t < |s.txns| && s.txns[t].committed && !s.txns[t].aborted && Tainted(s, t)
  }

  /** Some predecessor of `t` is aborted. */
  ghost predicate Tainted(s: State, t: TxnId) {
    t < |s.txns| && exists p: TxnId :: p in s.txns[t].predecessors && p < |s.txns| && s.txns[p].aborted
  }

  lemma EvolvesTransitive(s0: State, s1: State, s2: State)
    requires Evolves(s0, s1) && Evolves(s1, s2)
    ensures Evolves(s0, s2)
  {
    forall t: TxnId | t < |s0.txns| ensures TxnEvolves(s0.txns[t], s2.txns[t]) {
      assert TxnEvolves(s0.txns[t], s1.txns[t]) && TxnEvolves(s1.txns[t], s2.txns[t]);
    }
  }

  lemma {:induction false} RunFromEvolves(s: State, calls: seq<Action>)
    requires WellFormed(s)
    ensures Evolves(s, RunFrom(s, calls))
  {
    if calls != [] {
      var mid := RunFrom(s, calls[..|calls| - 1]);
      RunFromEvolves(s, calls[..|calls| - 1]);
      StepEvolves(mid, calls[|calls| - 1]);
      EvolvesTransitive(s, mid, RunFrom(s, calls));
    }
  }

  /**
   Whatever is called later, released effects stay released, committed and unaborted, an abort
   stays, and a committed transaction keeps its reads, writes, predecessors and commit time.
   */
  lemma {:induction false} Permanence(calls: seq<Action>, more: seq<Action>, t: TxnId)
    requires t < |Run(calls).txns|
    ensures t < |Run(calls + more).txns|
    ensures var x, y := Run(calls).txns[t], Run(calls + more).txns[t];
            && (x.externalized ==> y.externalized && y.committed && !y.aborted && y == x)
            && (x.committed ==> y == x.(aborted := y.aborted, externalized := y.externalized))
            && (x.aborted ==> y.aborted && !y.externalized)
  {
    var s := Run(calls);
    RunFromSplit(INITIAL, calls, more);
    RunFromEvolves(s, more);
    RunKeepsInv(calls);
    RunKeepsInv(calls + more);
    assert TxnEvolves(s.txns[t], Run(calls + more).txns[t]);
  }

  lemma {:induction false} TaintedNeverCommitsFrom(s: State, more: seq<Action>, t: TxnId)
    requires WellFormed(s) && Tainted(s, t) && !s.txns[t].committed
    ensures Tainted(RunFrom(s, more), t) && !RunFrom(s, more).txns[t].committed
  {
    if more != [] {
      var mid := RunFrom(s, more[..|more| - 1]);
      var a := more[|more| - 1];
      TaintedNeverCommitsFrom(s, more[..|more| - 1], t);
      TaintedNeverCommitsNext(mid, a, t);
    }
  }

  lemma TaintedNeverCommitsNext(s: State, a: Action, t: TxnId)
    requires WellFormed(s) && Tainted(s, t) && !s.txns[t].committed
    ensures Tainted(Step(s, a), t) && !Step(s, a).txns[t].committed
  {
    StepEvolves(s, a);
    TaintStays(s, Step(s, a), t);
    assert a == Commit(t) ==> !CommitValid(s, t);
  }

  lemma TaintStays(s: State, s': State, t: TxnId)
    requires Evolves(s, s') && Tainted(s, t)
    ensures Tainted(s', t)
  {
    var p: TxnId :| p in s.txns[t].predecessors && p < |s.txns| && s.txns[p].aborted;
    assert TxnEvolves(s.txns[t], s'.txns[t]) && TxnEvolves(s.txns[p], s'.txns[p]);
    assert p in s'.txns[t].predecessors && p < |s'.txns| && s'.txns[p].aborted;
  }

  /**
   A transaction that rests on an aborted one, even one it read after the cascade had run, never
   releases its effects, never commits unless it had, and survives in no continuation.
   */
  lemma {:induction false} TaintedNeverLeaves(calls: seq<Action>, more: seq<Action>, t: TxnId)
    requires Tainted(Run(calls), t)
    ensures t < |Run(calls + more).txns|
    ensures !Run(calls + more).txns[t].externalized
    ensures !Run(calls).txns[t].committed ==> !Run(calls + more).txns[t].committed
    ensures Run(calls + more).txns[t].committed ==> Run(calls + more).txns[t].aborted
  {
    var s, s' := Run(calls), Run(calls + more);
    RunFromSplit(INITIAL, calls, more);
    RunFromEvolves(s, more);
    TaintStays(s, s', t);
    NoA3(calls + more, t);
    if !s.txns[t].committed {
      TaintedNeverCommitsFrom(s, more, t);
    }
  }

  /** No reachable state has an A3 witness, in either form. */
  lemma {:induction false} NoA3(calls: seq<Action>, t: TxnId)
    ensures !A3Witness(Run(calls), t)
    ensures !A3UnpropagatedWitness(Run(calls), t)
  {
    RunKeepsInv(calls);
  }
}
