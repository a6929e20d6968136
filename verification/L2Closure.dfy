/**
 The recorded predecessors of a transaction are exactly the transitive closure of the writers it
 ever read from, although the runtime only ever joins one writer's set at a time.
 */
module L2Closure {
  import opened Reachability
  import opened L2Model
  import opened L2Invariant

  /** Every accepted read of a run, as an edge from the reader to the writer whose value it saw. */
  function ReadEdges(calls: seq<Action>): Edges {
    if calls == [] then {}
    else
      var before, last := calls[..|calls| - 1], calls[|calls| - 1];
      ReadEdges(before)
      + if Enabled(Run(before), last) && last.Read? then {(last.t, Run(before).cellWriter[last.c])} else {}
  }

  /** Each edge is recorded. */
  lemma {:induction false} EdgesAreRecorded(calls: seq<Action>)
    ensures forall x: nat, y: nat :: (x, y) in ReadEdges(calls) ==>
              x < |Run(calls).txns| && y in Run(calls).txns[x].predecessors
  {
    if calls != [] {
      var before, last := calls[..|calls| - 1], calls[|calls| - 1];
      EdgesAreRecorded(before);
      StepEvolves(Run(before), last);
      forall x: nat, y: nat | (x, y) in ReadEdges(calls)
        ensures x < |Run(calls).txns| && y in Run(calls).txns[x].predecessors
      {
        if (x, y) in ReadEdges(before) {
          assert TxnEvolves(Run(before).txns[x], Run(calls).txns[x]);
        }
      }
    }
  }

  /** Where a step's new predecessors come from. */
  lemma NewPredecessors(s: State, a: Action, t: TxnId)
    requires WellFormed(s) && t < |Step(s, a).txns|
    ensures Step(s, a).txns[t].predecessors ==
            if t >= |s.txns| then {}
            else if Enabled(s, a) && a.Read? && a.t == t
            then s.txns[t].predecessors + {s.cellWriter[a.c]} + s.txns[s.cellWriter[a.c]].predecessors
            else s.txns[t].predecessors
  {
  }

  /** Each recorded predecessor is reached by edges. */
  lemma {:induction false} RecordedIsReached(calls: seq<Action>, t: TxnId, p: TxnId)
    requires t < |Run(calls).txns| && p in Run(calls).txns[t].predecessors
    ensures Reaches(ReadEdges(calls), t, p)
    decreases |calls|
  {
    if calls != [] {
      var before, last := calls[..|calls| - 1], calls[|calls| - 1];
      var s, edges := Run(before), ReadEdges(before);
      NewPredecessors(s, last, t);
      if p in s.txns[t].predecessors {
        RecordedIsReached(before, t, p);
        ReachesMonotone(edges, ReadEdges(calls), t, p);
      } else {
        var w := s.cellWriter[last.c];
        EdgeReaches(ReadEdges(calls), t, w);
        if p != w {
          RecordedIsReached(before, w, p);
          ReachesMonotone(edges, ReadEdges(calls), w, p);
          ReachesTransitive(ReadEdges(calls), t, w, p);
        }
      }
    }
  }

  /** Closure exactness: recorded predecessors are precisely the writers reached through reads. */
  lemma {:induction false} ClosureExact(calls: seq<Action>, t: TxnId, p: TxnId)
    requires t < |Run(calls).txns|
    ensures p in Run(calls).txns[t].predecessors <==> Reaches(ReadEdges(calls), t, p)
  {
    var s := Run(calls);
    if p in s.txns[t].predecessors {
      RecordedIsReached(calls, t, p);
    }
    if Reaches(ReadEdges(calls), t, p) {
      EdgesAreRecorded(calls);
      RunKeepsInv(calls);
      ReachesStaysInside(ReadEdges(calls), s.txns[t].predecessors, t, p);
    }
  }

  /** The read graph is acyclic, and a transaction rests only on commits earlier than its own. */
  lemma {:induction false} ReadsAreAcyclic(calls: seq<Action>, t: TxnId, p: TxnId)
    requires t < |Run(calls).txns| && Reaches(ReadEdges(calls), t, p)
    ensures p != t && !Reaches(ReadEdges(calls), p, t)
    ensures p < |Run(calls).txns| && Run(calls).txns[p].committed
    ensures Run(calls).txns[t].committed ==> Run(calls).txns[p].commitTime < Run(calls).txns[t].commitTime
  {
    RunKeepsInv(calls);
    ClosureExact(calls, t, p);
    ClosureExact(calls, p, t);
  }

  /** The single pass of an accepted abort flags `t` and its transitive dependents, and nothing else. */
  lemma {:induction false} AbortFlagsExactlyDependents(calls: seq<Action>, t: TxnId, u: TxnId)
    requires Enabled(Run(calls), Abort(t)) && u < |Run(calls).txns|
    ensures Run(calls + [Abort(t)]).txns[u].aborted
            <==> Run(calls).txns[u].aborted || u == t || Reaches(ReadEdges(calls), u, t)
    ensures Run(calls + [Abort(t)]).txns[u] ==
            Run(calls).txns[u].(aborted := Run(calls + [Abort(t)]).txns[u].aborted)
    ensures Run(calls + [Abort(t)]).cellValue == Run(calls).cellValue
    ensures Run(calls + [Abort(t)]).cellWriter == Run(calls).cellWriter
  {
    assert (calls + [Abort(t)])[..|calls|] == calls;
    ClosureExact(calls, u, t);
  }
}
