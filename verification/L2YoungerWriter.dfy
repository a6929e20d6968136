/**
 The run that shows why one release pass in id order is not enough: a transaction reads from one that
 began after it, so its turn comes before what it waits for has left.
 */
module L2YoungerWriter {
  import opened Common
  import opened L2Model
  import opened L2Release

  const WROTE := STARTED_TXN.(writeValues := map[7 := 5])
  const WRITER := WROTE.(committed := true, commitTime := 3)
  const READER := STARTED_TXN.(readValues := map[7 := 5], predecessors := {1}, readFrom := map[7 := 1],
                               readAt := map[7 := 4])

  /** Transaction 0 begins first and reads what transaction 1, begun second, has committed. */
  const YOUNGER_WRITER: seq<Action> :=
    [Begin] + [Begin] + [Write(1, 7, 5)] + [Commit(1)] + [Read(0, 7)] + [Commit(0)]

  lemma WriterCommits(s: State)
    requires s == State(3, [STARTED_TXN, WROTE], map[], map[])
    ensures WellFormed(s)
    ensures Step(s, Commit(1)) == State(4, [STARTED_TXN, WRITER], map[7 := 5], map[7 := 1])
  {
    assert s.txns[1] == WROTE && CommitValid(s, 1);
    assert s.cellValue + WROTE.writeValues == map[7 := 5];
    assert s.cellWriter + WriterMap(WROTE.writeValues, 1) == map[7 := 1];
    assert s.txns[1 := WRITER] == [STARTED_TXN, WRITER];
  }

  lemma ReaderReads(s: State)
    requires s == State(4, [STARTED_TXN, WRITER], map[7 := 5], map[7 := 1])
    ensures WellFormed(s)
    ensures Step(s, Read(0, 7)) == State(5, [READER, WRITER], map[7 := 5], map[7 := 1])
  {
    assert s.txns[1] == WRITER && ReadValid(s, 0, 7);
    assert STARTED_TXN.predecessors + {1} + WRITER.predecessors == {1};
    assert s.txns[0 := READER] == [READER, WRITER];
  }

  lemma ReaderCommits(s: State)
    requires s == State(5, [READER, WRITER], map[7 := 5], map[7 := 1])
    ensures WellFormed(s)
    ensures Step(s, Commit(0)).txns == [READER.(committed := true, commitTime := 5), WRITER]
  {
    assert s.txns[0] == READER && s.txns[1] == WRITER;
    assert CommitValid(s, 0);
  }

  lemma YoungerWriterState()
    ensures Run(YOUNGER_WRITER).txns == [READER.(committed := true, commitTime := 5), WRITER]
  {
    var none: seq<Action> := [];
    var started: seq<Action> := [Begin] + [Begin];
    RunFromSnoc(INITIAL, none, Begin);
    assert none + [Begin] == [Begin];
    RunFromSnoc(INITIAL, [Begin], Begin);
    assert Run(started) == State(2, [STARTED_TXN, STARTED_TXN], map[], map[]);
    RunFromSnoc(INITIAL, started, Write(1, 7, 5));
    assert [STARTED_TXN, STARTED_TXN][1 := WROTE] == [STARTED_TXN, WROTE];
    var wrote := started + [Write(1, 7, 5)];
    RunFromSnoc(INITIAL, wrote, Commit(1));
    WriterCommits(Run(wrote));
    RunFromSnoc(INITIAL, wrote + [Commit(1)], Read(0, 7));
    ReaderReads(Run(wrote + [Commit(1)]));
    RunFromSnoc(INITIAL, wrote + [Commit(1)] + [Read(0, 7)], Commit(0));
    ReaderCommits(Run(wrote + [Commit(1)] + [Read(0, 7)]));
  }

  /** Both are live, and after a full pass in id order the reader is still inside. */
  lemma {:induction false} IdOrderIsNotAlwaysCausal()
    ensures !IdCausal(Run(YOUNGER_WRITER))
    ensures Live(Run(YOUNGER_WRITER), 0) && Live(Run(YOUNGER_WRITER), 1) && |Run(YOUNGER_WRITER).txns| == 2
    ensures !Out(Run(YOUNGER_WRITER + IdPassCalls(None, 2)), 0)
  {
    YoungerWriterState();
    var s := Run(YOUNGER_WRITER);
    assert 1 in s.txns[0].predecessors;
    IdPassKeepsWaiting(s, 0, 1, 2);
    IdPassFromRun(YOUNGER_WRITER, None, 2);
  }
}
