/**
 The measurement's guarded arm: the whole seeded scenario, run against the runtime itself.  Every
 call the driver expects to be accepted is accepted, for every seed, and its figures are what output
 commit promises.
 */
module GuardedDriver {
  import opened Common
  import opened L2Model
  import opened L2Invariant
  import opened L2Release
  import opened L2Runtime
  import opened Provenance
  import opened Scenario
  import opened ChainLayout
  import opened RuntimeTrace
  import opened DriverModel

  // ------------------------------------------------------------- the chain

  method BeginReader(rt: L2Runtime, rc: Cell, wc: Cell, v: Value) returns (t: TxnId)
    requires rt.Valid() && Reachable(rt.View()) && Base(rt.View()) && rc in rt.View().cellValue
    requires rt.View().now + 3 <= MAX_U64 && |rt.View().txns| < MAX_U64
    modifies rt
    ensures rt.Valid() && Reachable(rt.View()) && ReaderJoined(old(rt.View()), rt.View(), rc, wc, v)
    ensures t == |old(rt.View()).txns|
  {
    ReaderBegins(rt.View(), rc, wc, v);
    StepIsReachable(rt.View(), Action.Begin);
    var begun := rt.Begin();
    assert begun.Some?;
    t := begun.value;
    StepIsReachable(rt.View(), Action.Read(t, rc));
    var read := rt.Read(t, rc);
    assert read;
    StepIsReachable(rt.View(), Action.Write(t, wc, v));
    var wrote := rt.Write(t, wc, v);
    assert wrote;
  }

  /** A writer with nothing to validate always commits. */
  method LandWriter(rt: L2Runtime, c: Cell, v: Value) returns (t: TxnId, committed: bool)
    requires rt.Valid() && Reachable(rt.View()) && Base(rt.View())
    requires rt.View().now + 3 <= MAX_U64 && |rt.View().txns| < MAX_U64
    modifies rt
    ensures rt.Valid() && Reachable(rt.View()) && WriterLanded(old(rt.View()), rt.View(), c, v)
    ensures t == |old(rt.View()).txns| && committed
  {
    WriterCommits(rt.View(), c, v);
    StepIsReachable(rt.View(), Action.Begin);
    var begun := rt.Begin();
    assert begun.Some?;
    t := begun.value;
    StepIsReachable(rt.View(), Action.Write(t, c, v));
    var wrote := rt.Write(t, c, v);
    assert wrote;
    committed := rt.CanCommit(t);
    if committed {
      StepIsReachable(rt.View(), Action.Commit(t));
      var ok := rt.Commit(t);
      assert ok;
    }
  }

  /** Commits a reader if what it read still stands, and aborts it otherwise; either call is accepted. */
  method Finish(rt: L2Runtime, t: TxnId, ghost rc: Cell, ghost v: Value) returns (linked: bool)
    requires rt.Valid() && Reachable(rt.View()) && Base(rt.View()) && Reader(rt.View(), t, rc, v)
             && rc in rt.View().cellValue
    requires rt.View().now < MAX_U64
    modifies rt
    ensures rt.Valid() && Reachable(rt.View()) && ReaderDone(old(rt.View()), rt.View(), t, linked)
    ensures linked == (old(rt.View()).cellValue[rc] == v)
  {
    ReaderFinishes(rt.View(), t, rc, v);
    linked := rt.CanCommit(t);
    if linked {
      StepIsReachable(rt.View(), Action.Commit(t));
      var ok := rt.Commit(t);
      assert ok;
    } else {
      StepIsReachable(rt.View(), Action.Abort(t));
      var ok := rt.Abort(t);
      assert ok;
    }
  }

  /** Another writer lands inside the reader's window. */
  method Interrupt(rt: L2Runtime, ghost s: State, k: nat, rc: Cell, ghost wc: Cell) returns (c: TxnId, landed: bool)
    requires rt.Valid() && Reachable(rt.View()) && rc in s.cellValue && Midway(s, rt.View(), k, false, rc, wc)
    requires rt.View().now <= s.now + 3 && s.now + 6 <= MAX_U64 && |s.txns| + 2 <= MAX_U64
    modifies rt
    ensures rt.Valid() && Reachable(rt.View()) && Midway(s, rt.View(), k, true, rc, wc)
    ensures c == |s.txns| + 1 && landed
  {
    ghost var s1 := rt.View();
    c, landed := LandWriter(rt, rc, 900 + k);
    InterruptedMidway(s, s1, rt.View(), k, rc, wc);
  }

  /** In every second round of an interleaved chain a writer interrupts. */
  method Disturb(rt: L2Runtime, ghost s: State, k: nat, interleave: bool, rc: Cell, ghost wc: Cell, ghost t: TxnId,
                 committed: seq<TxnId>)
    returns (more: seq<TxnId>)
    requires rt.Valid() && Reachable(rt.View()) && rc in s.cellValue && Midway(s, rt.View(), k, false, rc, wc)
    requires rt.View().now <= s.now + 3 && s.now + 6 <= MAX_U64 && t + 2 <= MAX_U64 && t == |s.txns|
    modifies rt
    ensures rt.Valid() && Reachable(rt.View()) && Midway(s, rt.View(), k, Interrupted(k, interleave), rc, wc)
    ensures more == if Interrupted(k, interleave) then committed + [t + 1] else committed
  {
    more := committed;
    if interleave && k % 2 == 0 {
      var c, landed := Interrupt(rt, s, k, rc, wc);
      if landed {
        more := committed + [c];
      }
    }
  }

  method Start(rt: L2Runtime, k: nat, rc: Cell, wc: Cell) returns (t: TxnId)
    requires rt.Valid() && Reachable(rt.View()) && Base(rt.View()) && rc in rt.View().cellValue
    requires rt.View().now + 3 <= MAX_U64 && |rt.View().txns| < MAX_U64
    modifies rt
    ensures rt.Valid() && Reachable(rt.View()) && Midway(old(rt.View()), rt.View(), k, false, rc, wc)
    ensures t == |old(rt.View()).txns| && rt.View().now <= old(rt.View()).now + 3
  {
    ghost var s := rt.View();
    t := BeginReader(rt, rc, wc, 70 + k);
    UninterruptedMidway(s, rt.View(), k, rc, wc);
  }

  /** The reader commits if it may; either way the round is over. */
  method Close(rt: L2Runtime, ghost s: State, k: nat, ghost interleave: bool, rc: Cell, ghost wc: Cell, t: TxnId,
               committed: seq<TxnId>)
    returns (more: seq<TxnId>, linked: bool, ghost frontier: Cell)
    requires rt.Valid() && Reachable(rt.View()) && Ready(s, k, interleave, rc) && t == |s.txns|
    requires Midway(s, rt.View(), k, Interrupted(k, interleave), rc, wc) && 10 + 7 * k <= MAX_U64
    modifies rt
    ensures rt.Valid() && Reachable(rt.View()) && Ready(rt.View(), k + 1, interleave, frontier)
    ensures linked == !Interrupted(k, interleave) && frontier == if linked then wc else rc
    ensures more == if linked then committed + [t] else committed
  {
    ghost var s2 := rt.View();
    linked := Finish(rt, t, rc, s.cellValue[rc]);
    more := if linked then committed + [t] else committed;
    frontier := if Interrupted(k, interleave) then rc else wc;
    RoundEnds(s, s2, rt.View(), k, interleave, rc, wc);
  }

  /** One link of the chain: the reader is refused exactly when it was interrupted, and one transaction commits. */
  method Round(rt: L2Runtime, k: nat, interleave: bool, rc: Cell, wc: Cell, committed: seq<TxnId>)
    returns (more: seq<TxnId>, linked: bool, ghost frontier: Cell)
    requires rt.Valid() && Reachable(rt.View()) && Ready(rt.View(), k, interleave, rc) && 10 + 7 * k <= MAX_U64
    requires committed == CommittedIds(k, interleave)
    modifies rt
    ensures rt.Valid() && Reachable(rt.View()) && Ready(rt.View(), k + 1, interleave, frontier)
    ensures linked == !Interrupted(k, interleave) && frontier == if linked then wc else rc
    ensures more == CommittedIds(k + 1, interleave)
  {
    ghost var s := rt.View();
    var t := Start(rt, k, rc, wc);
    var sofar := Disturb(rt, s, k, interleave, rc, wc, t, committed);
    more, linked, frontier := Close(rt, s, k, interleave, rc, wc, t, sofar);
    RoundCommits(k, interleave, t, sofar, more);
  }

  /** A committed link is the next to be read; a refused one is counted. */
  method Tally(ghost k: nat, ghost interleave: bool, linked: bool, written: seq<Cell>, nextCell: Cell, refused: nat)
    returns (cells: seq<Cell>, unused: Cell, total: nat)
    requires written != [] && linked == !Interrupted(k, interleave) && refused == InterruptedBy(k, interleave)
    ensures cells != [] && cells[|cells| - 1] == if linked then nextCell else written[|written| - 1]
    ensures total == InterruptedBy(k + 1, interleave)
  {
    RoundAdds(k, interleave);
    if linked {
      cells, unused, total := written + [nextCell], nextCell + 1, refused;
    } else {
      cells, unused, total := written, nextCell, refused + 1;
    }
  }

  /** The root and every link after it: exactly the interrupted readers are refused. */
  method BuildChain(rt: L2Runtime, base: Cell, v: Value, shape: Shape)
    returns (committed: seq<TxnId>, refused: nat, ghost frontier: Cell)
    requires rt.Valid() && rt.View() == INITIAL && v < 900 && 10 + 7 * shape.chain <= MAX_U64
    modifies rt
    ensures rt.Valid() && Reachable(rt.View()) && Ready(rt.View(), shape.chain, shape.interleave, frontier)
    ensures committed == CommittedIds(shape.chain, shape.interleave)
    ensures refused == InterruptedBy(shape.chain, shape.interleave)
  {
    InitialBase();
    var root, rooted := LandWriter(rt, base, v);
    assert rooted;
    RootIsReady(rt.View(), base, v, shape.interleave);
    var written := [base];
    var nextCell: Cell := base + 1;
    committed, refused, frontier := [root], 0, base;
    for k: nat := 0 to shape.chain
      invariant written != [] && written[|written| - 1] == frontier
      invariant rt.Valid() && Reachable(rt.View()) && Ready(rt.View(), k, shape.interleave, frontier)
      invariant committed == CommittedIds(k, shape.interleave) && refused == InterruptedBy(k, shape.interleave)
    {
      var linked;
      committed, linked, frontier := Round(rt, k, shape.interleave, written[|written| - 1], nextCell, committed);
      written, nextCell, refused := Tally(k, shape.interleave, linked, written, nextCell, refused);
    }
  }

  // ---------------------------------------------------------- release passes

  /** Every committed, unaborted, unreleased transaction but the exempt one asks to leave, in id order. */
  method ReleasePass(rt: L2Runtime, exempt: Option<TxnId>, held: set<TxnId>) returns (stillHeld: set<TxnId>)
    requires rt.Valid()
    modifies rt
    ensures rt.Valid() && rt.View() == IdPass(old(rt.View()), exempt, |old(rt.View()).txns|)
    ensures rt.View() == RunFrom(old(rt.View()), IdPassCalls(exempt, |old(rt.View()).txns|))
    ensures stillHeld == held + RefusedInPass(old(rt.View()), exempt, |old(rt.View()).txns|)
  {
    stillHeld := held;
    ghost var s := rt.View();
    for id: nat := 0 to rt.nextTxn
      invariant rt.Valid() && rt.View() == IdPass(s, exempt, id)
      invariant stillHeld == held + RefusedInPass(s, exempt, id)
    {
      stillHeld := Turn(rt, exempt, id, s, held, stillHeld);
    }
    IdPassIsRun(s, exempt, |s.txns|);
  }

  method Turn(rt: L2Runtime, exempt: Option<TxnId>, id: TxnId, ghost s: State, ghost held: set<TxnId>,
              sofar: set<TxnId>)
    returns (stillHeld: set<TxnId>)
    requires rt.Valid() && WellFormed(s) && rt.View() == IdPass(s, exempt, id)
    requires sofar == held + RefusedInPass(s, exempt, id)
    modifies rt
    ensures rt.Valid() && rt.View() == IdPass(s, exempt, id + 1)
    ensures stillHeld == held + RefusedInPass(s, exempt, id + 1)
  {
    var refused := Ask(rt, exempt, id);
    stillHeld := if refused then sofar + {id} else sofar;
  }

  predicate Asks(txns: map<TxnId, ExecTxn>, id: TxnId) {
    id in txns && txns[id].committed && !txns[id].aborted && !txns[id].externalized
  }

  lemma AsksIff(r: Tables, id: TxnId)
    requires Good(r)
    ensures Asks(r.txns, id) <==> Live(Abs(r), id) && !Out(Abs(r), id)
  {
    if id < r.nextTxn {
      assert Abs(r).txns[id] == ViewTxn(r.txns[id]);
    }
  }

  lemma NotAskedStays(s: State, exempt: Option<TxnId>, id: TxnId)
    requires WellFormed(s) && (exempt == Some(id) || !(Live(s, id) && !Out(s, id)))
    ensures AskUnless(s, exempt, id) == s && !RefusedAt(s, exempt, id)
  {
  }

  method Ask(rt: L2Runtime, exempt: Option<TxnId>, id: TxnId) returns (refused: bool)
    requires rt.Valid()
    modifies rt
    ensures rt.Valid() && rt.View() == AskUnless(old(rt.View()), exempt, id)
    ensures refused == RefusedAt(old(rt.View()), exempt, id)
  {
    AsksIff(rt.Fields(), id);
    var ask := exempt != Some(id) && Asks(rt.txns, id);
    if !ask {
      NotAskedStays(rt.View(), exempt, id);
      return false;
    }
    var left := rt.Externalize(id);
    return !left;
  }

  method EmitTrace(rt: L2Runtime) returns (trace: seq<Prov>)
    requires rt.Valid()
    ensures trace == TraceOf(rt.Fields())
  {
    trace := [];
    for id: nat := 0 to rt.nextTxn
      invariant |trace| == id && forall i: nat :: i < id ==> trace[i] == RecordOf(i, rt.txns[i])
    {
      if id in rt.txns {
        var x := rt.txns[id];
        trace := trace + [Prov(id, x.committed, x.aborted, x.externalized, x.predecessors)];
      }
    }
  }

  // ---------------------------------------------------------------- review

  method Decide(rt: L2Runtime, reviewed: TxnId, retract: bool) returns (refused: bool)
    requires rt.Valid()
    modifies rt
    ensures rt.Valid() && rt.View() == AfterReview(old(rt.View()), reviewed, retract)
    ensures refused == (retract && !Enabled(old(rt.View()), Action.Abort(reviewed)))
  {
    refused := false;
    if retract {
      var ok := rt.Abort(reviewed);
      refused := !ok;
    }
  }

  /** Release, decide, release again. */
  method ReviewAndRelease(rt: L2Runtime, reviewed: TxnId, late: bool, retract: bool)
    returns (held: set<TxnId>, retractionRefused: bool)
    requires rt.Valid()
    modifies rt
    ensures rt.Valid() && rt.View() == FinalState(old(rt.View()), reviewed, late, retract)
    ensures retractionRefused
            == (retract && !Enabled(AfterRelease(old(rt.View()), reviewed, late), Action.Abort(reviewed)))
    ensures held == HeldInScenario(old(rt.View()), reviewed, late, retract)
  {
    held := ReleasePass(rt, if late then None else Some(reviewed), {});
    retractionRefused := Decide(rt, reviewed, retract);
    held := ReleasePass(rt, None, held);
  }

  /** Each figure counted over the trace is the size of a set of transactions. */
  lemma CountReleased(r: Tables)
    requires Good(r)
    ensures Count(TraceOf(r), ReleasedRecord) == |OutIds(Abs(r))|
  {
    forall i: nat ensures i in OutIds(Abs(r)) <==> i < r.nextTxn && ReleasedRecord(TraceOf(r)[i]) {
      if i < r.nextTxn {
        assert Abs(r).txns[i] == ViewTxn(r.txns[i]);
      }
    }
    CountIsCard(TraceOf(r), ReleasedRecord, OutIds(Abs(r)));
  }

  lemma CountLive(r: Tables)
    requires Good(r)
    ensures Count(TraceOf(r), SurvivingRecord) == |LiveIds(Abs(r))|
  {
    forall i: nat ensures i in LiveIds(Abs(r)) <==> i < r.nextTxn && SurvivingRecord(TraceOf(r)[i]) {
      if i < r.nextTxn {
        assert Abs(r).txns[i] == ViewTxn(r.txns[i]);
      }
    }
    CountIsCard(TraceOf(r), SurvivingRecord, LiveIds(Abs(r)));
  }

  lemma CountCascaded(r: Tables, reviewed: TxnId)
    requires Good(r)
    ensures Count(TraceOf(r), (x: Prov) => CascadedRecord(x, reviewed)) == |CascadedIds(Abs(r), reviewed)|
  {
    forall i: nat
      ensures i in CascadedIds(Abs(r), reviewed) <==> i < r.nextTxn && CascadedRecord(TraceOf(r)[i], reviewed)
    {
      if i < r.nextTxn {
        assert Abs(r).txns[i] == ViewTxn(r.txns[i]);
      }
    }
    CountIsCard(TraceOf(r), (x: Prov) => CascadedRecord(x, reviewed), CascadedIds(Abs(r), reviewed));
  }

  /** Released effects are never aborted, so none is relabeled. */
  lemma CountRelabeled(r: Tables, reviewed: TxnId)
    requires Good(r) && ExternalizedFinal(Abs(r))
    ensures Count(TraceOf(r), (x: Prov) => RelabeledRecord(x, reviewed)) == 0
  {
    forall i: nat | i < r.nextTxn ensures !RelabeledRecord(TraceOf(r)[i], reviewed) {
      assert Abs(r).txns[i] == ViewTxn(r.txns[i]);
    }
    CountNone(TraceOf(r), (x: Prov) => RelabeledRecord(x, reviewed));
  }

  lemma CountExposed(r: Tables, reviewed: TxnId)
    requires Good(r) && Inv(Abs(r))
    ensures ExposedCount(TraceOf(r), reviewed, r.nextTxn) == |ExposedIds(Abs(r), reviewed)|
  {
    forall i: nat ensures i in ExposedIds(Abs(r), reviewed) <==> i < r.nextTxn && Exposed(TraceOf(r), reviewed, i) {
      if i < r.nextTxn {
        SearchFindsRecorded(r, i, reviewed);
      }
    }
    ExposedIsCard(TraceOf(r), reviewed, r.nextTxn, ExposedIds(Abs(r), reviewed));
  }

  /** The figures of the run that has just ended. */
  method Measure(rt: L2Runtime, reviewed: TxnId, retract: bool, refused: nat, held: nat, retractionRefused: bool)
    returns (o: Outcome)
    requires rt.Valid() && Inv(rt.View())
    ensures !o.a3 && !o.a3Unpropagated && o.relabeled == 0
    ensures Reports(rt.View(), reviewed, retract, o)
    ensures o.refused == refused && o.held == held && o.retractionRefused == retractionRefused
  {
    ghost var r := rt.Fields();
    TraceShowsNoA3(r);
    CountReleased(r);
    CountLive(r);
    CountCascaded(r, reviewed);
    CountRelabeled(r, reviewed);
    CountExposed(r, reviewed);
    var trace := EmitTrace(rt);
    var a3 := DetectA3(trace);
    var unpropagated := DetectA3Unpropagated(trace);
    var exposed := ExposedEffects(trace, reviewed, retract);
    o := Outcome(
      a3.Some?,
      unpropagated.Some?,
      Count(trace, (x: Prov) => CascadedRecord(x, reviewed)),
      refused,
      held,
      Count(trace, ReleasedRecord),
      Count(trace, SurvivingRecord),
      retractionRefused,
      exposed,
      Count(trace, (x: Prov) => RelabeledRecord(x, reviewed)));
  }

  /**
   The whole guarded arm.  For every seed and every depth within the counters' reach, each call the
   driver asserts is accepted, and every figure it reports is the closed form of its shape: neither form of
   A3, exactly the interrupted readers refused, the dependents of the reviewed transaction held unless the
   review is late and aborted by a timely retraction, everything else out, and nothing exposed unless the
   retraction was refused.  The figures are those of a run: `built` are the calls of the chain, and the
   review's calls follow them.
   */
  method RunGuarded(seed: nat, depth: nat) returns (o: Outcome, ghost built: seq<Action>, ghost reviewed: TxnId)
    requires depth + seed % 3 >= 1 && 11 * (depth + 2) + 6 <= MAX_U64
    ensures var shape := ShapeOf(seed, depth); shape.abortAt < shape.chain && o == GuardedOutcome(shape)
    ensures var shape, s := ShapeOf(seed, depth), Run(built);
            && Chained(s, shape.chain, shape.interleave)
            && reviewed == CommittedIds(shape.chain, shape.interleave)[shape.abortAt]
            && o.held == (if shape.lateReview then 0 else |Dependents(s, reviewed)|)
            && Reports(Run(built + ReviewCalls(|s.txns|, reviewed, shape.lateReview, shape.retract)),
                       reviewed, shape.retract, o)
  {
    var shape := ShapeOf(seed, depth);
    ReviewedIsACommit(seed, depth);
    var rt := new L2Runtime();
    ghost var frontier;
    var committed, refused;
    committed, refused, frontier := BuildChain(rt, BaseCell(seed), RootValue(seed), shape);
    built :| rt.View() == Run(built);
    ghost var s := rt.View();
    ChainedCounts(s, shape.chain, shape.interleave, shape.abortAt);
    o, reviewed := Finale(rt, shape, committed, refused);
    FinalIsRun(built, s, reviewed, shape.lateReview, shape.retract);
  }

  /** The review of the chain just built, and the report on it. */
  method Finale(rt: L2Runtime, shape: Shape, committed: seq<TxnId>, refused: nat)
    returns (o: Outcome, ghost reviewed: TxnId)
    requires rt.Valid() && Base(rt.View()) && Chained(rt.View(), shape.chain, shape.interleave)
    requires rt.View().now + 2 * |rt.View().txns| + 1 <= MAX_U64 && shape.abortAt < shape.chain
    requires committed == CommittedIds(shape.chain, shape.interleave)
    requires refused == InterruptedBy(shape.chain, shape.interleave)
    modifies rt
    ensures o == GuardedOutcome(shape)
    ensures reviewed == committed[shape.abortAt]
    ensures o.held == if shape.lateReview then 0 else |Dependents(old(rt.View()), reviewed)|
    ensures Reports(FinalState(old(rt.View()), reviewed, shape.lateReview, shape.retract), reviewed, shape.retract, o)
  {
    var t := committed[shape.abortAt % |committed|];
    NoWrap(shape.abortAt, |committed|);
    reviewed := t;
    ghost var s := rt.View();
    ChainedCounts(s, shape.chain, shape.interleave, shape.abortAt);
    HeldOverall(s, t, shape.lateReview, shape.retract);
    ScenarioEnds(s, t, shape.lateReview, shape.retract);
    var held, retractionRefused := ReviewAndRelease(rt, t, shape.lateReview, shape.retract);
    ghost var s3 := rt.View();
    o := Measure(rt, t, shape.retract, refused, |held|, retractionRefused);
    ReportIsClosed(s, shape, t, s3, held, o);
  }
}
