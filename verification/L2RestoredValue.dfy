/**
 The run that shows why survivor serializability needs `Masked`: commit-time freshness accepts a
 value that a later-aborted transaction restored.
 */
module L2RestoredValue {
  import opened Common
  import opened L2Model
  import opened L2Invariant
  import opened L2Serial
  import opened L2Survivors

  /** A fresh transaction `t` that writes one cell and commits. */
  function WriterCalls(t: TxnId, c: Cell, v: Value): seq<Action> {
    [Begin, Write(t, c, v), Commit(t)]
  }

  function WriterTxn(c: Cell, v: Value, time: Time): Txn {
    STARTED_TXN.(writeValues := map[c := v], committed := true, commitTime := time)
  }

  lemma RunOfTwo(s: State, a: Action, b: Action)
    requires WellFormed(s)
    ensures RunFrom(s, [a, b]) == Step(Step(s, a), b)
  {
    assert [a, b][..1] == [a] && [a][..0] == [];
    assert RunFrom(s, [a]) == Step(RunFrom(s, []), a);
  }

  lemma WriterPrepares(s: State, c: Cell, v: Value)
    requires WellFormed(s) && s.now + 3 <= MAX_U64 && |s.txns| < MAX_U64
    ensures Step(Step(s, Begin), Write(|s.txns|, c, v))
            == s.(now := s.now + 2, txns := s.txns + [STARTED_TXN.(writeValues := map[c := v])])
  {
    var txns := (s.txns + [STARTED_TXN])[|s.txns| := STARTED_TXN.(writeValues := map[c := v])];
    assert txns == s.txns + [STARTED_TXN.(writeValues := map[c := v])];
  }

  lemma WriterPublishes(s: State, rest: seq<Txn>, c: Cell, v: Value)
    requires WellFormed(s) && s.now < MAX_U64 && s.txns == rest + [STARTED_TXN.(writeValues := map[c := v])]
    ensures Step(s, Commit(|rest|)) == State(s.now + 1, rest + [WriterTxn(c, v, s.now)],
                                            s.cellValue[c := v], s.cellWriter[c := |rest|])
  {
    var t := |rest|;
    assert CommitValid(s, t);
    assert s.cellValue + map[c := v] == s.cellValue[c := v];
    assert s.cellWriter + WriterMap(map[c := v], t) == s.cellWriter[c := t];
    assert s.txns[t := WriterTxn(c, v, s.now)] == rest + [WriterTxn(c, v, s.now)];
  }

  lemma WriterRuns(s: State, c: Cell, v: Value)
    requires WellFormed(s) && s.now + 3 <= MAX_U64 && |s.txns| < MAX_U64
    ensures RunFrom(s, WriterCalls(|s.txns|, c, v)) == State(s.now + 3,
              s.txns + [WriterTxn(c, v, s.now + 2)], s.cellValue[c := v], s.cellWriter[c := |s.txns|])
  {
    var t := |s.txns|;
    WriterPrepares(s, c, v);
    RunOfTwo(s, Begin, Write(t, c, v));
    WriterPublishes(RunFrom(s, [Begin, Write(t, c, v)]), s.txns, c, v);
    assert WriterCalls(t, c, v)[..2] == [Begin, Write(t, c, v)];
  }

  /**
   Transaction 1 reads 5 from transaction 0; transaction 2 writes 6 and transaction 3 restores 5;
   1 commits on that value; 3 is aborted.  The survivors 0, 1, 2 replay 6 where 1 read 5.
   */
  function Restored(): seq<Action> {
    (WriterCalls(0, 7, 5) + [Begin, Read(1, 7)]) + (WriterCalls(2, 7, 6) + WriterCalls(3, 7, 5)) + [Commit(1), Abort(3)]
  }

  const READER := STARTED_TXN.(readValues := map[7 := 5], predecessors := {0}, readFrom := map[7 := 0],
                               readAt := map[7 := 4])

  lemma ReaderRuns(s: State)
    requires s == State(3, [WriterTxn(7, 5, 2)], map[7 := 5], map[7 := 0])
    ensures WellFormed(s)
    ensures RunFrom(s, [Begin, Read(1, 7)]) == State(5, [WriterTxn(7, 5, 2), READER], s.cellValue, s.cellWriter)
  {
    RunOfTwo(s, Begin, Read(1, 7));
    var s1 := StepBegin(s);
    assert s1.txns == [WriterTxn(7, 5, 2), STARTED_TXN] && ReadValid(s1, 1, 7);
    assert s1.txns[1].predecessors + {0} + s1.txns[0].predecessors == {0};
    assert StepRead(s1, 1, 7).txns == [WriterTxn(7, 5, 2), READER];
  }

  lemma ReaderCommits(s: State, w0: Txn, w2: Txn, w3: Txn)
    requires WellFormed(s) && s.now == 11 && s.txns == [w0, READER, w2, w3]
    requires 7 in s.cellValue && s.cellValue[7] == 5 && w0.committed && !w0.aborted
    ensures Step(s, Commit(1)).txns == [w0, READER.(committed := true, commitTime := 11), w2, w3]
    ensures Step(s, Commit(1)).now == 12
  {
    assert s.txns[1] == READER && s.txns[0] == w0;
    assert ReadsFresh(s, READER) && PredecessorsClean(s, READER);
    assert CommitValid(s, 1);
  }

  lemma RestorerAborts(s: State, t0: Txn, t1: Txn, t2: Txn, t3: Txn)
    requires WellFormed(s) && s.now == 12 && s.txns == [t0, t1, t2, t3] && !t3.externalized
    requires 3 !in t0.predecessors && 3 !in t1.predecessors && 3 !in t2.predecessors
    ensures Step(s, Abort(3)).txns == [t0, t1, t2, t3.(aborted := true)] && Step(s, Abort(3)).now == 13
  {
    assert AbortValid(s, 3);
  }

  lemma ReaderHasRead()
    ensures Run(WriterCalls(0, 7, 5) + [Begin, Read(1, 7)])
            == State(5, [WriterTxn(7, 5, 2), READER], map[7 := 5], map[7 := 0])
  {
    WriterRuns(INITIAL, 7, 5);
    var s := State(3, [WriterTxn(7, 5, 2)], map[7 := 5], map[7 := 0]);
    assert Run(WriterCalls(0, 7, 5)) == s;
    ReaderRuns(s);
    RunFromSplit(INITIAL, WriterCalls(0, 7, 5), [Begin, Read(1, 7)]);
  }

  lemma WritersHaveRun(s: State, w0: Txn)
    requires s == State(5, [w0, READER], map[7 := 5], map[7 := 0])
    ensures WellFormed(s)
    ensures RunFrom(s, WriterCalls(2, 7, 6) + WriterCalls(3, 7, 5))
            == State(11, [w0, READER, WriterTxn(7, 6, 7), WriterTxn(7, 5, 10)], map[7 := 5], map[7 := 3])
  {
    assert s.cellValue[7 := 6] == map[7 := 6] && s.cellWriter[7 := 2] == map[7 := 2];
    WriterRuns(s, 7, 6);
    var s8 := RunFrom(s, WriterCalls(2, 7, 6));
    assert s8 == State(8, [w0, READER, WriterTxn(7, 6, 7)], map[7 := 6], map[7 := 2]);
    assert s8.cellValue[7 := 5] == map[7 := 5] && s8.cellWriter[7 := 3] == map[7 := 3];
    WriterRuns(s8, 7, 5);
    RunFromSplit(s, WriterCalls(2, 7, 6), WriterCalls(3, 7, 5));
  }

  lemma RestoredState()
    ensures Run(Restored()).txns ==
              [WriterTxn(7, 5, 2), READER.(committed := true, commitTime := 11),
               WriterTxn(7, 6, 7), WriterTxn(7, 5, 10).(aborted := true)]
    ensures Run(Restored()).now == 13
  {
    var c1 := WriterCalls(0, 7, 5) + [Begin, Read(1, 7)];
    var c2 := WriterCalls(2, 7, 6) + WriterCalls(3, 7, 5);
    var w0, w2, w3 := WriterTxn(7, 5, 2), WriterTxn(7, 6, 7), WriterTxn(7, 5, 10);
    ReaderHasRead();
    WritersHaveRun(Run(c1), w0);
    RunFromSplit(INITIAL, c1, c2);
    var s := Run(c1 + c2);
    ReaderCommits(s, w0, w2, w3);
    RestorerAborts(Step(s, Commit(1)), w0, READER.(committed := true, commitTime := 11), w2, w3);
    RunOfTwo(s, Commit(1), Abort(3));
    RunFromSplit(INITIAL, c1 + c2, [Commit(1), Abort(3)]);
  }

  /** What the argument needs of the final state. */
  ghost predicate RestoredShape(s: State) {
    && |s.txns| == 4
    && (forall t: TxnId :: t < 4 ==> s.txns[t].committed && (s.txns[t].aborted <==> t == 3))
    && s.txns[0].commitTime < s.txns[2].commitTime < s.txns[3].commitTime < s.txns[1].commitTime
    && s.txns[1].readValues == map[7 := 5] && s.txns[1].predecessors == {0}
    && s.txns[2].writeValues == map[7 := 6] && s.txns[2].predecessors == {}
    && s.txns[0].predecessors == {} && s.txns[3].predecessors == {}
  }

  lemma RestoredOrder(s: State, order: seq<TxnId>)
    requires RestoredShape(s) && order == [0, 2, 3, 1]
    ensures IsCommitOrder(s, order)
  {
    assert order[0] in order && order[1] in order && order[2] in order && order[3] in order;
  }

  lemma RestoredShapeBreaks(s: State, order: seq<TxnId>)
    requires RestoredShape(s) && order == [0, 2, 3, 1]
    ensures IsCommitOrder(s, order) && !Masked(s) && !ReplaysAlone(s, order, {0, 1, 2})
  {
    RestoredOrder(s, order);
    assert Disagrees(s, 1, 2, 7);
    assert !Overwritten(s, 1, 2, 7);
    assert !MaskedAt(s, 1, 2, 7);
    assert LastWriter(s, order, {0, 1, 2}, 3, 7, 1);
    ReplayShowsLastWriter(s, order, {0, 1, 2}, 3, 7, 1);
    assert !ReadsAlone(s, order, {0, 1, 2}, 3, 7);
  }

  lemma RestoredHasShape()
    ensures RestoredShape(Run(Restored()))
  {
    RestoredState();
  }

  lemma RestoredSurvivors(s: State)
    requires RestoredShape(s)
    ensures Survivors(s) == {0, 1, 2} && Closed(s, {0, 1, 2})
  {
  }

  /** The survivors form a closed set, and replaying it alone contradicts what transaction 1 read. */
  lemma {:induction false} RestoredValueBreaksSurvivors()
    ensures !Masked(Run(Restored()))
    ensures Survivors(Run(Restored())) == {0, 1, 2} && Closed(Run(Restored()), {0, 1, 2})
    ensures exists order: seq<TxnId> ::
              IsCommitOrder(Run(Restored()), order) && !ReplaysAlone(Run(Restored()), order, {0, 1, 2})
  {
    RestoredHasShape();
    RestoredSurvivors(Run(Restored()));
    RestoredShapeBreaks(Run(Restored()), [0, 2, 3, 1]);
  }

  // ------------------------------------- masking is not needed by one set alone

  lemma OverwriterAborts(s: State)
    requires WellFormed(s) && RestoredShape(s) && s.now < MAX_U64 && !s.txns[2].externalized
    ensures Step(s, Abort(2)).txns == s.txns[2 := s.txns[2].(aborted := true)]
  {
    assert AbortValid(s, 2);
  }

  /** Without the overwriter the survivors are the first writer and its reader. */
  lemma TwoAreLeft(s: State, s': State)
    requires RestoredShape(s) && s'.txns == s.txns[2 := s.txns[2].(aborted := true)]
    requires s.txns[0].writeValues == map[7 := 5]
    ensures Survivors(s') == {0, 1} && Closed(s', {0, 1}) && RestoredWithin(s', {0, 1})
    ensures !Masked(s')
  {
    assert Disagrees(s', 1, 2, 7) && !Overwritten(s', 1, 2, 7);
    assert !MaskedAt(s', 1, 2, 7);
  }

  /** After the overwriter is aborted too, the survivors replay alone although the run is not masked. */
  lemma {:induction false} SurvivorsMayReplayUnmasked(order: seq<TxnId>)
    requires IsCommitOrder(Run(Restored() + [Abort(2)]), order)
    ensures !Masked(Run(Restored() + [Abort(2)]))
    ensures ReplaysAlone(Run(Restored() + [Abort(2)]), order, Survivors(Run(Restored() + [Abort(2)])))
  {
    RestoredState();
    RestoredHasShape();
    OverwriterAborts(Run(Restored()));
    RunFromSnoc(INITIAL, Restored(), Abort(2));
    TwoAreLeft(Run(Restored()), Run(Restored() + [Abort(2)]));
    SurvivorsReplayIffRestored(Restored() + [Abort(2)], order);
  }
}
