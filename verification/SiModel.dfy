/**
 The snapshot-isolation store as a pure transition system: one commit gate over a flat version chain.
 Names are interned, the lock is an atomic step, and the values a snapshot returns are specified.
 */
module SiModel {
  import opened Common
  import opened Versions

  datatype Store = Store(versions: seq<Version>, clock: Time, trace: seq<Rec>)

  const EMPTY := Store([], 0, [])

  // ----------------------------------------------------------------- steps

  /** One value per requested cell, in request order: the latest recorded version. */
  function ReadAll(vs: seq<Version>, cells: seq<Cell>): (values: seq<(Cell, Val)>)
    ensures |values| == |cells|
  {
    seq(|cells|, i requires 0 <= i < |cells| => (cells[i], Latest(vs, cells[i])))
  }

  function BeginSnapshot(s: Store, agent: Agent, cells: seq<Cell>): Snapshot {
    Snapshot(agent, s.clock, cells, ReadAll(s.versions, cells))
  }

  /** The gate: no version of a read cell is newer than the read time. */
  predicate Fresh(vs: seq<Version>, cells: seq<Cell>, readTime: Time) {
    forall k :: 0 <= k < |vs| && vs[k].cell in cells ==> vs[k].time <= readTime
  }

  predicate CommitAccepted(s: Store, snap: Snapshot) {
    snap.readTime <= s.clock < MAX_U64 && Fresh(s.versions, snap.readCells, snap.readTime)
  }

  function RecordOf(s: Store, snap: Snapshot, writes: Writes): Rec {
    Rec(snap.agent, snap.readCells, snap.readTime, CellsOf(writes), s.clock + 1)
  }

  function Append(s: Store, snap: Snapshot, writes: Writes): Store {
    Store(s.versions + VersionsAt(writes, s.clock + 1), s.clock + 1, s.trace + [RecordOf(s, snap, writes)])
  }

  function Commit(s: Store, snap: Snapshot, writes: Writes): Store {
    if CommitAccepted(s, snap) then Append(s, snap, writes) else s
  }

  const TICK_SNAPSHOT := Snapshot(0, 0, [], [])

  /** A tick is a commit of nothing on an empty snapshot. */
  function Tick(s: Store): Store {
    Commit(s, TICK_SNAPSHOT, [])
  }

  // ------------------------------------------------- the excluded window

  /** Record `j` commits a write to a cell inside record `i`'s read-to-commit window. */
  predicate Window(tr: seq<Rec>, i: nat, j: nat, c: Cell)
    requires i < |tr| && j < |tr|
  {
    && i != j && c in tr[i].readCells && c in tr[j].writeCells
    && tr[i].readTime < tr[j].writeTime < tr[i].writeTime
  }

  ghost predicate A1Struct(tr: seq<Rec>) {
    exists i: nat, j: nat, c: Cell :: i < |tr| && j < |tr| && Window(tr, i, j, c)
  }

  // ------------------------------------------------------------- invariant

  /**
   The store is exactly its history: one record per clock tick, record `i` written at time `i + 1`,
   and the version chain the flattening of what the records wrote.
   */
  ghost predicate Records(s: Store, history: History) {
    && s.clock == |history| == |s.trace| <= MAX_U64
    && s.versions == Chain(history)
    && forall i :: 0 <= i < |s.trace| ==>
         && s.trace[i].writeTime == i + 1
         && s.trace[i].readTime <= i
         && s.trace[i].writeCells == CellsOf(history[i])
  }

  ghost predicate Inv(s: Store, history: History) {
    Records(s, history) && !A1Struct(s.trace)
  }

  /** The gate over the chain is a statement about the history. */
  lemma FreshIffUntouched(s: Store, history: History, cells: seq<Cell>, readTime: Time)
    requires Records(s, history)
    ensures Fresh(s.versions, cells, readTime)
            <==> forall c: Cell :: c in cells ==> Untouched(history, readTime, s.clock, c)
  {
    ChainIsSorted(history);
    if Fresh(s.versions, cells, readTime) {
      forall c: Cell, t: Time | c in cells && readTime < t <= s.clock ensures !WroteAt(history, t, c) {
        ChainHolds(history, c, t);
      }
    } else {
      var k :| 0 <= k < |s.versions| && s.versions[k].cell in cells && s.versions[k].time > readTime;
      var c, t := s.versions[k].cell, s.versions[k].time;
      assert HasVersion(s.versions, c, t);
      ChainHolds(history, c, t);
    }
  }

  lemma WindowIffWroteAt(s: Store, history: History, snap: Snapshot, writes: Writes, j: nat, c: Cell)
    requires Records(s, history) && j < |s.trace|
    ensures Window(Append(s, snap, writes).trace, |s.trace|, j, c)
            <==> c in snap.readCells && WroteAt(history, j + 1, c) && snap.readTime < j + 1
  {
    CellsOfHolds(history[j], c);
  }

  /** Only a window on the new record can appear: it commits after every older record. */
  lemma AppendOpensOnlyItsOwnWindow(s: Store, history: History, snap: Snapshot, writes: Writes)
    requires Inv(s, history)
    ensures A1Struct(Append(s, snap, writes).trace)
            <==> exists j: nat, c: Cell :: j < |s.trace| && Window(Append(s, snap, writes).trace, |s.trace|, j, c)
  {
    var n, tr := |s.trace|, Append(s, snap, writes).trace;
    if A1Struct(tr) {
      var i: nat, j: nat, c: Cell :| i < |tr| && j < |tr| && Window(tr, i, j, c);
      if i < n && j < n {
        assert Window(s.trace, i, j, c);
      }
    }
    if j: nat, c: Cell :| j < |s.trace| && Window(tr, n, j, c) {
      assert n < |tr|;
    }
  }

  /**
   Gate exactness: with a read time in the past and room on the clock, a commit is refused if and only
   if recording it would open a stale-generation window.
   */
  lemma {:induction false} GateIsExact(s: Store, history: History, snap: Snapshot, writes: Writes)
    requires Inv(s, history) && snap.readTime <= s.clock < MAX_U64
    ensures CommitAccepted(s, snap) <==> !A1Struct(Append(s, snap, writes).trace)
  {
    AppendOpensOnlyItsOwnWindow(s, history, snap, writes);
    FreshIffUntouched(s, history, snap.readCells, snap.readTime);
    if !CommitAccepted(s, snap) {
      var c: Cell, t: Time :| c in snap.readCells && snap.readTime < t <= s.clock && WroteAt(history, t, c);
      WindowIffWroteAt(s, history, snap, writes, t - 1, c);
    } else {
      forall j: nat, c: Cell | j < |s.trace| ensures !Window(Append(s, snap, writes).trace, |s.trace|, j, c) {
        WindowIffWroteAt(s, history, snap, writes, j, c);
      }
    }
  }

  lemma AppendRecords(s: Store, history: History, snap: Snapshot, writes: Writes)
    requires Records(s, history) && snap.readTime <= s.clock < MAX_U64
    ensures Records(Append(s, snap, writes), history + [writes])
  {
    ChainSnoc(history, writes);
  }

  lemma {:induction false} CommitKeepsInv(s: Store, history: History, snap: Snapshot, writes: Writes)
    requires Inv(s, history)
    ensures Inv(Commit(s, snap, writes), if CommitAccepted(s, snap) then history + [writes] else history)
  {
    if CommitAccepted(s, snap) {
      GateIsExact(s, history, snap, writes);
      AppendRecords(s, history, snap, writes);
    }
  }

  // ------------------------------------------------------------------ runs

  /** A committed operation: the snapshot it was computed from and what it wrote. */
  datatype Op = Op(snap: Snapshot, writes: Writes)

  /** The store with every snapshot it ever issued and every operation it committed. */
  datatype Sys = Sys(store: Store, issued: seq<Snapshot>, ops: seq<Op>)

  datatype Call =
    | CallBegin(agent: Agent, cells: seq<Cell>)
    | CallCommit(snap: Snapshot, writes: Writes)
    | CallTick

  function HistoryOf(ops: seq<Op>): (history: History)
    ensures |history| == |ops|
  {
    seq(|ops|, i requires 0 <= i < |ops| => ops[i].writes)
  }

  function CommitIn(s: Sys, snap: Snapshot, writes: Writes): Sys {
    if CommitAccepted(s.store, snap)
    then s.(store := Append(s.store, snap, writes), ops := s.ops + [Op(snap, writes)])
    else s
  }

  /** A snapshot may be committed any number of times, and by a caller who made it up. */
  function Step(s: Sys, a: Call): Sys {
    match a
    case CallBegin(agent, cells) => s.(issued := s.issued + [BeginSnapshot(s.store, agent, cells)])
    case CallCommit(snap, writes) => CommitIn(s, snap, writes)
    case CallTick => CommitIn(s, TICK_SNAPSHOT, [])
  }

  function Run(calls: seq<Call>): Sys {
    if calls == [] then Sys(EMPTY, [], []) else Step(Run(calls[..|calls| - 1]), calls[|calls| - 1])
  }

  /** Nothing an operation read was overwritten between its snapshot and its place in the order. */
  ghost predicate Validated(history: History, op: Op, i: nat) {
    op.snap.readTime <= i && forall c: Cell :: c in op.snap.readCells ==> Untouched(history, op.snap.readTime, i, c)
  }

  ghost predicate SysInv(s: Sys) {
    && Inv(s.store, HistoryOf(s.ops))
    && (forall k :: 0 <= k < |s.issued| ==> ReadsReplayAt(HistoryOf(s.ops), s.issued[k], s.issued[k].readTime))
    && (forall i :: 0 <= i < |s.ops| ==> Validated(HistoryOf(s.ops), s.ops[i], i))
  }

  lemma BeginIsTruthful(s: Store, history: History, agent: Agent, cells: seq<Cell>)
    requires Records(s, history)
    ensures ReadsReplayAt(history, BeginSnapshot(s, agent, cells), s.clock)
  {
    forall i | 0 <= i < |cells| ensures Latest(s.versions, cells[i]) == ValueAt(history, |history|, cells[i]) {
      LatestIsReplay(history, cells[i]);
    }
  }

  lemma CommitKeepsSysInv(s: Sys, snap: Snapshot, writes: Writes)
    requires SysInv(s)
    ensures SysInv(CommitIn(s, snap, writes))
  {
    var history, s' := HistoryOf(s.ops), CommitIn(s, snap, writes);
    if CommitAccepted(s.store, snap) {
      assert HistoryOf(s'.ops) == history + [writes];
      CommitKeepsInv(s.store, history, snap, writes);
      forall k | 0 <= k < |s.issued| ensures ReadsReplayAt(history + [writes], s.issued[k], s.issued[k].readTime) {
        ReadsReplaySnoc(history, writes, s.issued[k], s.issued[k].readTime);
      }
      FreshIffUntouched(s.store, history, snap.readCells, snap.readTime);
      forall i | 0 <= i < |s'.ops| ensures Validated(history + [writes], s'.ops[i], i) {
        forall c: Cell | c in s'.ops[i].snap.readCells
          ensures Untouched(history + [writes], s'.ops[i].snap.readTime, i, c)
        {
          if i < |s.ops| {
            assert Validated(history, s.ops[i], i);
          }
          UntouchedPrefix(history, history + [writes], s'.ops[i].snap.readTime, i, c);
        }
      }
    }
  }

  lemma StepKeepsSysInv(s: Sys, a: Call)
    requires SysInv(s)
    ensures SysInv(Step(s, a))
  {
    match a
    case CallBegin(agent, cells) => BeginIsTruthful(s.store, HistoryOf(s.ops), agent, cells);
    case CallCommit(snap, writes) => CommitKeepsSysInv(s, snap, writes);
    case CallTick => CommitKeepsSysInv(s, TICK_SNAPSHOT, []);
  }

  lemma {:induction false} RunKeepsSysInv(calls: seq<Call>)
    ensures SysInv(Run(calls))
  {
    if calls != [] {
      RunKeepsSysInv(calls[..|calls| - 1]);
      StepKeepsSysInv(Run(calls[..|calls| - 1]), calls[|calls| - 1]);
    }
  }

  /**
   Serializability of the validating store.  In every run, operation `i` is recorded at time `i + 1`;
   if its snapshot came from `begin`, every value it read is the one serial replay of the operations
   before it leaves; and the latest versions are the replay of them all.
   */
  lemma {:induction false} CommittedOpsAreSerial(calls: seq<Call>)
    ensures var s := Run(calls);
            && |s.store.trace| == |s.ops|
            && (forall i :: 0 <= i < |s.ops| ==>
                  s.store.trace[i] == Rec(s.ops[i].snap.agent, s.ops[i].snap.readCells, s.ops[i].snap.readTime,
                                          CellsOf(s.ops[i].writes), i + 1))
            && (forall i :: 0 <= i < |s.ops| && s.ops[i].snap in s.issued ==>
                  ReadsReplayAt(HistoryOf(s.ops), s.ops[i].snap, i))
            && (forall c: Cell :: Latest(s.store.versions, c) == ValueAt(HistoryOf(s.ops), |s.ops|, c))
  {
    RunKeepsSysInv(calls);
    RunRecordsOps(calls);
    var s := Run(calls);
    var history := HistoryOf(s.ops);
    forall i | 0 <= i < |s.ops| && s.ops[i].snap in s.issued ensures ReadsReplayAt(history, s.ops[i].snap, i) {
      var snap := s.ops[i].snap;
      assert ReadsReplayAt(history, snap, snap.readTime) && Validated(history, s.ops[i], i);
      forall j | 0 <= j < |snap.readCells|
        ensures ValueAt(history, i, snap.readCells[j]) == ValueAt(history, snap.readTime, snap.readCells[j])
      {
        UntouchedKeepsValue(history, snap.readTime, i, snap.readCells[j]);
      }
    }
    forall c: Cell ensures Latest(s.store.versions, c) == ValueAt(history, |history|, c) {
      LatestIsReplay(history, c);
    }
  }

  /** A begin in any run is shown the serial replay of what was committed, at the current time, in request order. */
  lemma {:induction false} SnapshotsShowTheReplay(calls: seq<Call>, agent: Agent, cells: seq<Cell>)
    ensures var s, snap := Run(calls), BeginSnapshot(Run(calls).store, agent, cells);
            && snap.agent == agent && snap.readTime == |s.ops| && snap.readCells == cells
            && |snap.readValues| == |cells|
            && forall i :: 0 <= i < |cells| ==>
                 snap.readValues[i] == (cells[i], ValueAt(HistoryOf(s.ops), |s.ops|, cells[i]))
  {
    RunKeepsSysInv(calls);
    var s := Run(calls);
    var history := HistoryOf(s.ops);
    forall i | 0 <= i < |cells| ensures Latest(s.store.versions, cells[i]) == ValueAt(history, |history|, cells[i]) {
      LatestIsReplay(history, cells[i]);
    }
  }

  /**
   A commit in any run is accepted exactly when its read time is not ahead, the clock has room, and no operation
   committed since wrote a cell it read.
   */
  lemma {:induction false} AnswersExactly(calls: seq<Call>, snap: Snapshot)
    ensures var s := Run(calls);
            CommitAccepted(s.store, snap)
            <==> && snap.readTime <= |s.ops| < MAX_U64
                 && forall i: nat, c: Cell :: snap.readTime <= i < |s.ops| && c in snap.readCells ==>
                      c !in CellsOf(s.ops[i].writes)
  {
    var s := Run(calls);
    var history := HistoryOf(s.ops);
    RunKeepsSysInv(calls);
    FreshIffUntouched(s.store, history, snap.readCells, snap.readTime);
    forall i: nat, c: Cell | i < |s.ops| ensures c in CellsOf(s.ops[i].writes) <==> WroteAt(history, i + 1, c) {
      CellsOfHolds(history[i], c);
    }
    if t: Time, c: Cell :| c in snap.readCells && snap.readTime < t <= |s.ops| && WroteAt(history, t, c) {
      assert c in CellsOf(s.ops[t - 1].writes);
    }
  }

  lemma {:induction false} RunRecordsOps(calls: seq<Call>)
    ensures var s := Run(calls);
            && s.store.clock == |s.store.trace| == |s.ops|
            && forall i :: 0 <= i < |s.ops| ==>
                 s.store.trace[i] == Rec(s.ops[i].snap.agent, s.ops[i].snap.readCells, s.ops[i].snap.readTime,
                                         CellsOf(s.ops[i].writes), i + 1)
  {
    if calls != [] {
      RunRecordsOps(calls[..|calls| - 1]);
    }
  }

  /** No run ever records a stale-generation window. */
  lemma {:induction false} NoWindowInAnyRun(calls: seq<Call>)
    ensures !A1Struct(Run(calls).store.trace)
  {
    RunKeepsSysInv(calls);
  }
}
