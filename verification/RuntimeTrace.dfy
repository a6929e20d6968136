/** The provenance trace the runtime emits, and what its detectors can see in it. */
module RuntimeTrace {
  import opened L2Model
  import opened L2Invariant
  import opened L2Runtime
  import opened Provenance

  function RecordOf(id: TxnId, e: ExecTxn): Prov {
    Prov(id, e.committed, e.aborted, e.externalized, e.predecessors)
  }

  function TraceOf(r: Tables): (trace: seq<Prov>)
    requires Dense(r.txns, r.nextTxn)
    ensures |trace| == r.nextTxn
  {
    seq(r.nextTxn, id requires 0 <= id < r.nextTxn => RecordOf(id, r.txns[id]))
  }

  lemma GraphOfTrace(r: Tables)
    requires Dense(r.txns, r.nextTxn)
    ensures GraphOf(TraceOf(r)) == map id: nat | id < r.nextTxn :: r.txns[id].predecessors
  {
    IndexedGraph(TraceOf(r));
  }

  /** The search over the emitted trace finds exactly the predecessors the runtime recorded as it read. */
  lemma {:induction false} SearchFindsRecorded(r: Tables, t: TxnId, p: TxnId)
    requires Good(r) && Inv(Abs(r)) && t < r.nextTxn
    ensures Rests(GraphOf(TraceOf(r)), TraceOf(r)[t].predecessors, p) <==> p in Abs(r).txns[t].predecessors
  {
    var s, graph, roots := Abs(r), GraphOf(TraceOf(r)), r.txns[t].predecessors;
    GraphOfTrace(r);
    MembersHas(roots, p);
    if Rests(graph, roots, p) {
      var inside := s.txns[t].predecessors;
      forall x: nat | x in roots ensures x in inside {
        MembersHas(roots, x);
      }
      forall x: nat, y: nat | x in inside && x in graph && y in graph[x] ensures y in inside {
        MembersHas(r.txns[x].predecessors, y);
        assert y in s.txns[x].predecessors;
      }
      RestsStaysInside(graph, roots, inside, p);
    }
  }

  lemma AbortedInTrace(r: Tables, p: TxnId)
    requires Good(r)
    ensures AbortedIn(TraceOf(r), p) <==> p < r.nextTxn && Abs(r).txns[p].aborted
  {
    if p < r.nextTxn && Abs(r).txns[p].aborted {
      assert TraceOf(r)[p].txn == p && TraceOf(r)[p].aborted;
    }
  }

  /** No trace of a reachable state shows either form of A3. */
  lemma {:induction false} TraceShowsNoA3(r: Tables)
    requires Good(r) && Inv(Abs(r))
    ensures !A3In(TraceOf(r)) && !A3UnpropagatedIn(TraceOf(r))
  {
    var s := Abs(r);
    forall i: nat, p: nat | i < r.nextTxn && (s.txns[i].externalized || (s.txns[i].committed && !s.txns[i].aborted))
      ensures !RestsOnAborted(TraceOf(r), i, p)
    {
      SearchFindsRecorded(r, i, p);
      AbortedInTrace(r, p);
    }
  }

  /** Effects are exposed only if something still out rests on, or is, what the review withdrew. */
  lemma {:induction false} ExposedIff(r: Tables, reviewed: TxnId)
    requires Good(r) && Inv(Abs(r)) && reviewed < r.nextTxn
    ensures ExposedCount(TraceOf(r), reviewed, r.nextTxn) > 0 <==> Abs(r).txns[reviewed].externalized
  {
    var s, trace := Abs(r), TraceOf(r);
    ExposedSomewhere(trace, reviewed, r.nextTxn);
    forall i: nat | i < r.nextTxn ensures Exposed(trace, reviewed, i) ==> s.txns[reviewed].externalized {
      SearchFindsRecorded(r, i, reviewed);
    }
    if s.txns[reviewed].externalized {
      assert Exposed(trace, reviewed, reviewed);
    }
  }
}
