/**
 What the holds buy over whole runs of the pessimistic store: nobody else writes inside an accepted
 commit's window, so its reads are serial unless the same agent overwrote them itself.
 */
module PessSerial {
  import opened Common
  import opened Versions
  import opened PessModel

  /** What happened at each clock tick. */
  datatype Entry = Ticked | Committed(snap: Snapshot, writes: Writes)

  type Log = seq<Entry>

  /** The store with every snapshot it ever issued and what each tick did. */
  datatype Sys = Sys(store: Store, issued: seq<Snapshot>, log: Log)

  function HistoryOf(log: Log): (history: History)
    ensures |history| == |log|
  {
    seq(|log|, i requires 0 <= i < |log| => if log[i].Ticked? then [] else log[i].writes)
  }

  function BeginIn(s: Sys, agent: Agent, cells: seq<Cell>): Sys {
    if BeginAccepted(s.store, agent, cells)
    then s.(store := Begin(s.store, agent, cells), issued := s.issued + [BeginSnapshot(s.store, agent, cells)])
    else s
  }

  function CommitIn(s: Sys, snap: Snapshot, writes: Writes): Sys {
    if CommitAccepted(s.store, snap, writes)
    then s.(store := Append(s.store, snap, writes), log := s.log + [Committed(snap, writes)])
    else s
  }

  function TickIn(s: Sys): Sys {
    if s.store.clock < MAX_U64 then s.(store := Tick(s.store), log := s.log + [Ticked]) else s
  }

  /** Any caller may commit any snapshot, issued or made up, at any time. */
  function SysStep(s: Sys, a: Call): Sys {
    match a
    case CallBegin(agent, cells) => BeginIn(s, agent, cells)
    case CallCommit(snap, writes) => CommitIn(s, snap, writes)
    case CallRelease(agent) => s.(store := Release(s.store, agent))
    case CallTick => TickIn(s)
  }

  function SysRun(calls: seq<Call>): Sys {
    if calls == [] then Sys(EMPTY, [], []) else SysStep(SysRun(calls[..|calls| - 1]), calls[|calls| - 1])
  }

  // ------------------------------------------------------------- invariant

  predicate CommittedBy(e: Entry, agent: Agent) {
    e.Committed? && e.snap.agent == agent
  }

  predicate CommittedAt(log: Log, agent: Agent, t: Time) {
    0 < t <= |log| && CommittedBy(log[t - 1], agent)
  }

  /** Only `agent` wrote the cell after `from`, up to and including `to`. */
  ghost predicate OnlyBy(log: Log, agent: Agent, from: Time, until: Time, c: Cell)
    requires until <= |log|
  {
    forall t: Time :: from < t <= until && WroteAt(HistoryOf(log), t, c) ==> CommittedAt(log, agent, t)
  }

  /** Inside an operation's window only its own agent wrote what it read. */
  ghost predicate WindowOwned(log: Log, i: nat)
    requires i < |log| && log[i].Committed?
  {
    var snap := log[i].snap;
    snap.readTime <= i && forall c: Cell :: c in snap.readCells ==> OnlyBy(log, snap.agent, snap.readTime, i, c)
  }

  /** Each version's stamp names the agent that committed at that time. */
  ghost predicate StampsAgree(versions: seq<Stamped>, log: Log) {
    forall k :: 0 <= k < |versions| ==>
      && 0 < versions[k].version.time <= |log|
      && CommittedBy(log[versions[k].version.time - 1], versions[k].writer)
  }

  ghost predicate LogInv(s: Sys) {
    && Inv(s.store, HistoryOf(s.log))
    && StampsAgree(s.store.versions, s.log)
    && (forall k :: 0 <= k < |s.issued| ==> ReadsReplayAt(HistoryOf(s.log), s.issued[k], s.issued[k].readTime))
    && (forall i: nat :: i < |s.log| && s.log[i].Committed? ==> WindowOwned(s.log, i))
  }

  lemma BeginReadsReplay(s: Store, history: History, agent: Agent, cells: seq<Cell>)
    requires Inv(s, history)
    ensures ReadsReplayAt(history, BeginSnapshot(s, agent, cells), s.clock)
  {
    forall i | 0 <= i < |cells| ensures Latest(Plain(s.versions), cells[i]) == ValueAt(history, |history|, cells[i]) {
      LatestIsReplay(history, cells[i]);
    }
  }

  lemma HistorySnoc(log: Log, e: Entry)
    ensures HistoryOf(log + [e]) == HistoryOf(log) + [if e.Ticked? then [] else e.writes]
  {
  }

  lemma OnlyBySnoc(log: Log, e: Entry, agent: Agent, from: Time, until: Time, c: Cell)
    requires until <= |log| && OnlyBy(log, agent, from, until, c)
    ensures OnlyBy(log + [e], agent, from, until, c)
  {
    HistorySnoc(log, e);
    forall t: Time | from < t <= until && WroteAt(HistoryOf(log + [e]), t, c) ensures CommittedAt(log + [e], agent, t) {
      assert WroteAt(HistoryOf(log), t, c);
    }
  }

  lemma WindowOwnedSnoc(log: Log, e: Entry, i: nat)
    requires i < |log| && log[i].Committed? && WindowOwned(log, i)
    ensures WindowOwned(log + [e], i)
  {
    var snap := log[i].snap;
    forall c: Cell | c in snap.readCells ensures OnlyBy(log + [e], snap.agent, snap.readTime, i, c) {
      OnlyBySnoc(log, e, snap.agent, snap.readTime, i, c);
    }
  }

  /** A version of a cell newer than a hold on it is the holder's. */
  lemma NewerVersionIsOwn(s: Store, log: Log, agent: Agent, c: Cell, since: Time, t: Time)
    requires Plain(s.versions) == Chain(HistoryOf(log)) && Guarded(s.holds, s.versions) && StampsAgree(s.versions, log)
    requires HeldBySince(s.holds, agent, c, since) && since < t && WroteAt(HistoryOf(log), t, c)
    ensures CommittedAt(log, agent, t)
  {
    var h :| 0 <= h < |s.holds| && s.holds[h].cell == c && s.holds[h].agent == agent && s.holds[h].since <= since;
    ChainHolds(HistoryOf(log), c, t);
    var k :| 0 <= k < |s.versions| && Plain(s.versions)[k].cell == c && Plain(s.versions)[k].time == t;
    assert s.versions[k].version == Plain(s.versions)[k];
    assert s.versions[k].writer == s.holds[h].agent;
  }

  /** The hold check makes the window the agent's own. */
  lemma AcceptedWindowIsOwned(s: Sys, snap: Snapshot, writes: Writes, c: Cell)
    requires LogInv(s) && CommitAccepted(s.store, snap, writes) && c in snap.readCells
    ensures OnlyBy(s.log, snap.agent, snap.readTime, |s.log|, c)
  {
    var j :| 0 <= j < |snap.readCells| && snap.readCells[j] == c;
    assert HeldBySince(s.store.holds, snap.agent, snap.readCells[j], snap.readTime);
    forall t: Time | snap.readTime < t <= |s.log| && WroteAt(HistoryOf(s.log), t, c)
      ensures CommittedAt(s.log, snap.agent, t)
    {
      NewerVersionIsOwn(s.store, s.log, snap.agent, c, snap.readTime, t);
    }
  }

  lemma StampsSnoc(versions: seq<Stamped>, log: Log, snap: Snapshot, writes: Writes)
    requires StampsAgree(versions, log)
    ensures StampsAgree(versions + StampedAt(writes, |log| + 1, snap.agent), log + [Committed(snap, writes)])
  {
  }

  lemma CommitInKeeps(s: Sys, snap: Snapshot, writes: Writes)
    requires LogInv(s)
    ensures LogInv(CommitIn(s, snap, writes))
  {
    var history, s' := HistoryOf(s.log), CommitIn(s, snap, writes);
    if CommitAccepted(s.store, snap, writes) {
      HistorySnoc(s.log, Committed(snap, writes));
      CommitKeepsInv(s.store, history, snap, writes);
      StampsSnoc(s.store.versions, s.log, snap, writes);
      forall k | 0 <= k < |s.issued| ensures ReadsReplayAt(history + [writes], s.issued[k], s.issued[k].readTime) {
        ReadsReplaySnoc(history, writes, s.issued[k], s.issued[k].readTime);
      }
      forall i: nat | i < |s'.log| && s'.log[i].Committed? ensures WindowOwned(s'.log, i) {
        if i < |s.log| {
          WindowOwnedSnoc(s.log, Committed(snap, writes), i);
        } else {
          forall c: Cell | c in snap.readCells ensures OnlyBy(s'.log, snap.agent, snap.readTime, i, c) {
            AcceptedWindowIsOwned(s, snap, writes, c);
            OnlyBySnoc(s.log, Committed(snap, writes), snap.agent, snap.readTime, i, c);
          }
        }
      }
    }
  }

  lemma TickInKeeps(s: Sys)
    requires LogInv(s)
    ensures LogInv(TickIn(s))
  {
    var history, s' := HistoryOf(s.log), TickIn(s);
    if s.store.clock < MAX_U64 {
      HistorySnoc(s.log, Ticked);
      TickKeepsInv(s.store, history);
      forall k | 0 <= k < |s.issued| ensures ReadsReplayAt(history + [[]], s.issued[k], s.issued[k].readTime) {
        ReadsReplaySnoc(history, [], s.issued[k], s.issued[k].readTime);
      }
      forall i: nat | i < |s'.log| && s'.log[i].Committed? ensures WindowOwned(s'.log, i) {
        WindowOwnedSnoc(s.log, Ticked, i);
      }
    }
  }

  lemma SysStepKeeps(s: Sys, a: Call)
    requires LogInv(s)
    ensures LogInv(SysStep(s, a))
  {
    match a
    case CallBegin(agent, cells) =>
      BeginKeepsInv(s.store, HistoryOf(s.log), agent, cells);
      BeginReadsReplay(s.store, HistoryOf(s.log), agent, cells);
    case CallCommit(snap, writes) => CommitInKeeps(s, snap, writes);
    case CallRelease(agent) => ReleaseKeepsInv(s.store, HistoryOf(s.log), agent);
    case CallTick => TickInKeeps(s);
  }

  lemma {:induction false} SysRunKeeps(calls: seq<Call>)
    ensures LogInv(SysRun(calls))
  {
    if calls != [] {
      SysRunKeeps(calls[..|calls| - 1]);
      SysStepKeeps(SysRun(calls[..|calls| - 1]), calls[|calls| - 1]);
    }
  }

  // ------------------------------------------------------- serializability

  /** What the agent itself last left in a cell after `from`, up to and including `to`, if it wrote it. */
  function OwnLast(log: Log, agent: Agent, from: Time, until: Time, c: Cell): Option<Val>
    requires until <= |log|
    decreases until
  {
    if until <= from then None
    else if CommittedBy(log[until - 1], agent) && LastWrite(log[until - 1].writes, c).Some?
    then LastWrite(log[until - 1].writes, c)
    else OwnLast(log, agent, from, until - 1, c)
  }

  lemma {:induction false} OwnedWindowValue(log: Log, agent: Agent, from: Time, until: Time, c: Cell)
    requires from <= until <= |log| && OnlyBy(log, agent, from, until, c)
    ensures ValueAt(HistoryOf(log), until, c)
            == match OwnLast(log, agent, from, until, c) case Some(v) => v case None => ValueAt(HistoryOf(log), from, c)
  {
    if from < until {
      OwnedWindowValue(log, agent, from, until - 1, c);
      LastWriteIsSome(HistoryOf(log)[until - 1], c);
      assert WroteAt(HistoryOf(log), until, c) <==> LastWrite(HistoryOf(log)[until - 1], c).Some?;
    }
  }

  /** Whatever the agent committed inside the window put back the values this operation had read. */
  ghost predicate OwnWritesPutBack(log: Log, i: nat)
    requires i < |log| && log[i].Committed?
  {
    var snap := log[i].snap;
    |snap.readValues| == |snap.readCells|
    && forall j :: 0 <= j < |snap.readCells| ==>
         OwnLast(log, snap.agent, snap.readTime, i, snap.readCells[j]) in {None, Some(snap.readValues[j].1)}
  }

  /**
   Exactly when the pessimistic store is serial, over every interleaving of begin, commit, release and
   tick: an operation's reads are what serial replay leaves just before it if and only if its own agent
   did not change what it had read in the meantime.
   */
  lemma {:induction false} ReadsAreSerialIffOwnWritesPutBack(calls: seq<Call>, i: nat)
    requires i < |SysRun(calls).log| && SysRun(calls).log[i].Committed?
             && SysRun(calls).log[i].snap in SysRun(calls).issued
    ensures ReadsReplayAt(HistoryOf(SysRun(calls).log), SysRun(calls).log[i].snap, i)
            <==> OwnWritesPutBack(SysRun(calls).log, i)
  {
    SysRunKeeps(calls);
    OwnedReadsAreSerialIff(SysRun(calls).log, i);
  }

  lemma OwnedReadsAreSerialIff(log: Log, i: nat)
    requires i < |log| && log[i].Committed? && WindowOwned(log, i)
    requires ReadsReplayAt(HistoryOf(log), log[i].snap, log[i].snap.readTime)
    ensures ReadsReplayAt(HistoryOf(log), log[i].snap, i) <==> OwnWritesPutBack(log, i)
  {
    var snap := log[i].snap;
    forall j | 0 <= j < |snap.readCells|
      ensures ValueAt(HistoryOf(log), i, snap.readCells[j])
              == match OwnLast(log, snap.agent, snap.readTime, i, snap.readCells[j])
                 case Some(v) => v case None => snap.readValues[j].1
    {
      OwnedWindowValue(log, snap.agent, snap.readTime, i, snap.readCells[j]);
    }
  }

  // -------------------------------------------------- one operation at a time

  /** Where each agent's operation stands: begun and admitted, and neither committed nor released since. */
  function Open(calls: seq<Call>): map<Agent, Snapshot> {
    if calls == [] then map[]
    else OpenAfter(SysRun(calls[..|calls| - 1]), Open(calls[..|calls| - 1]), calls[|calls| - 1])
  }

  /** A commit ends its operation whether or not it is accepted. */
  function OpenAfter(s: Sys, open: map<Agent, Snapshot>, a: Call): map<Agent, Snapshot> {
    match a
    case CallBegin(agent, cells) =>
      if BeginAccepted(s.store, agent, cells) then open[agent := BeginSnapshot(s.store, agent, cells)] else open
    case CallCommit(snap, _) => open - {snap.agent}
    case CallRelease(agent) => open - {agent}
    case CallTick => open
  }

  /** An agent begins only when it has no operation open, and commits only the one it has. */
  predicate InTurn(open: map<Agent, Snapshot>, a: Call) {
    match a
    case CallBegin(agent, _) => agent !in open
    case CallCommit(snap, _) => snap.agent in open && open[snap.agent] == snap
    case _ => true
  }

  /** Every call of the run is made in turn. */
  predicate OneAtATime(calls: seq<Call>) {
    calls != [] ==> OneAtATime(calls[..|calls| - 1]) && InTurn(Open(calls[..|calls| - 1]), calls[|calls| - 1])
  }

  /** No other commit of the same agent after the snapshot, up to time `until`. */
  ghost predicate QuietSince(log: Log, snap: Snapshot, until: Time)
    requires until <= |log|
  {
    forall t: Time :: snap.readTime < t <= until ==> !CommittedAt(log, snap.agent, t)
  }

  /** Open operations were issued to their agents, which have committed nothing since. */
  ghost predicate OpenQuiet(s: Sys, open: map<Agent, Snapshot>) {
    forall a: Agent :: a in open ==> open[a].agent == a && open[a] in s.issued && QuietSince(s.log, open[a], |s.log|)
  }

  ghost predicate CommitsQuiet(s: Sys) {
    forall i: nat :: i < |s.log| && s.log[i].Committed? ==>
      s.log[i].snap in s.issued && QuietSince(s.log, s.log[i].snap, i)
  }

  lemma QuietSnoc(log: Log, e: Entry, snap: Snapshot, until: Time)
    requires until <= |log| && QuietSince(log, snap, until)
    ensures QuietSince(log + [e], snap, until)
    ensures until == |log| && !CommittedBy(e, snap.agent) ==> QuietSince(log + [e], snap, until + 1)
  {
    forall t: Time | snap.readTime < t <= until ensures !CommittedAt(log + [e], snap.agent, t) {
      assert !CommittedAt(log, snap.agent, t);
    }
  }

  lemma CommitStaysQuiet(s: Sys, open: map<Agent, Snapshot>, snap: Snapshot, writes: Writes)
    requires OpenQuiet(s, open) && CommitsQuiet(s) && snap.agent in open && open[snap.agent] == snap
    ensures OpenQuiet(CommitIn(s, snap, writes), open - {snap.agent}) && CommitsQuiet(CommitIn(s, snap, writes))
  {
    var s', e := CommitIn(s, snap, writes), Committed(snap, writes);
    if CommitAccepted(s.store, snap, writes) {
      forall a: Agent | a in open - {snap.agent} ensures QuietSince(s'.log, open[a], |s'.log|) {
        QuietSnoc(s.log, e, open[a], |s.log|);
      }
      forall i: nat | i < |s'.log| && s'.log[i].Committed?
        ensures s'.log[i].snap in s'.issued && QuietSince(s'.log, s'.log[i].snap, i)
      {
        QuietSnoc(s.log, e, s'.log[i].snap, i);
      }
    }
  }

  lemma TickStaysQuiet(s: Sys, open: map<Agent, Snapshot>)
    requires OpenQuiet(s, open) && CommitsQuiet(s)
    ensures OpenQuiet(TickIn(s), open) && CommitsQuiet(TickIn(s))
  {
    var s' := TickIn(s);
    if s.store.clock < MAX_U64 {
      forall a: Agent | a in open ensures QuietSince(s'.log, open[a], |s'.log|) {
        QuietSnoc(s.log, Ticked, open[a], |s.log|);
      }
      forall i: nat | i < |s'.log| && s'.log[i].Committed?
        ensures s'.log[i].snap in s'.issued && QuietSince(s'.log, s'.log[i].snap, i)
      {
        QuietSnoc(s.log, Ticked, s'.log[i].snap, i);
      }
    }
  }

  lemma StepStaysQuiet(s: Sys, open: map<Agent, Snapshot>, a: Call)
    requires OpenQuiet(s, open) && CommitsQuiet(s) && InTurn(open, a) && s.store.clock == |s.log|
    ensures OpenQuiet(SysStep(s, a), OpenAfter(s, open, a)) && CommitsQuiet(SysStep(s, a))
  {
    match a
    case CallBegin(agent, cells) =>
    case CallCommit(snap, writes) => CommitStaysQuiet(s, open, snap, writes);
    case CallRelease(agent) =>
    case CallTick => TickStaysQuiet(s, open);
  }

  lemma {:induction false} RunStaysQuiet(calls: seq<Call>)
    requires OneAtATime(calls)
    ensures OpenQuiet(SysRun(calls), Open(calls)) && CommitsQuiet(SysRun(calls))
  {
    if calls != [] {
      RunStaysQuiet(calls[..|calls| - 1]);
      SysRunTraces(calls[..|calls| - 1]);
      StepStaysQuiet(SysRun(calls[..|calls| - 1]), Open(calls[..|calls| - 1]), calls[|calls| - 1]);
    }
  }

  /**
   Pessimistic serializability: in every run in which each agent begins only after its last operation has
   ended, every accepted operation read exactly what serial replay leaves just before it.
   */
  lemma {:induction false} OneAtATimeIsSerial(calls: seq<Call>, i: nat)
    requires OneAtATime(calls) && i < |SysRun(calls).log| && SysRun(calls).log[i].Committed?
    ensures ReadsReplayAt(HistoryOf(SysRun(calls).log), SysRun(calls).log[i].snap, i)
  {
    SysRunKeeps(calls);
    RunStaysQuiet(calls);
    ReadsAreSerialIffOwnWritesPutBack(calls, i);
    var log := SysRun(calls).log;
    var snap := log[i].snap;
    assert ReadsReplayAt(HistoryOf(log), snap, snap.readTime);
    forall j | 0 <= j < |snap.readCells| ensures OwnLast(log, snap.agent, snap.readTime, i, snap.readCells[j]) == None {
      QuietAgentWritesNothing(log, snap.agent, snap.readTime, i, snap.readCells[j]);
    }
  }

  lemma NotSerialIsNotInTurn(calls: seq<Call>, i: nat)
    requires i < |SysRun(calls).log| && SysRun(calls).log[i].Committed?
    requires !ReadsReplayAt(HistoryOf(SysRun(calls).log), SysRun(calls).log[i].snap, i)
    ensures !OneAtATime(calls)
  {
    if OneAtATime(calls) {
      OneAtATimeIsSerial(calls, i);
    }
  }

  lemma {:induction false} QuietAgentWritesNothing(log: Log, agent: Agent, from: Time, until: Time, c: Cell)
    requires until <= |log| && forall t: Time :: from < t <= until ==> !CommittedAt(log, agent, t)
    ensures OwnLast(log, agent, from, until, c) == None
    decreases until
  {
    if from < until {
      assert !CommittedAt(log, agent, until);
      QuietAgentWritesNothing(log, agent, from, until - 1, c);
    }
  }

  /** And in every run the latest versions are the serial replay of everything committed. */
  lemma {:induction false} LatestIsReplayOfLog(calls: seq<Call>, c: Cell)
    ensures Latest(Plain(SysRun(calls).store.versions), c)
            == ValueAt(HistoryOf(SysRun(calls).log), |SysRun(calls).log|, c)
  {
    SysRunKeeps(calls);
    LatestIsReplay(HistoryOf(SysRun(calls).log), c);
  }

  // ------------------------------------------------------- the emitted trace

  /** Another agent's write lands inside a record's read-to-commit window. */
  predicate CrossWindow(tr: seq<Rec>, i: nat, j: nat, c: Cell)
    requires i < |tr| && j < |tr|
  {
    && tr[i].agent != tr[j].agent && c in tr[i].readCells && c in tr[j].writeCells
    && tr[i].readTime < tr[j].writeTime < tr[i].writeTime
  }

  ghost predicate A1Cross(tr: seq<Rec>) {
    exists i: nat, j: nat, c: Cell :: i < |tr| && j < |tr| && CrossWindow(tr, i, j, c)
  }

  function RecordAt(log: Log, i: nat): Rec
    requires i < |log| && log[i].Committed?
  {
    Rec(log[i].snap.agent, log[i].snap.readCells, log[i].snap.readTime, CellsOf(log[i].writes), i + 1)
  }

  /** The trace is the commits of the log, in order, each at the tick it landed on. */
  function TraceOf(log: Log): seq<Rec> {
    if log == [] then []
    else if log[|log| - 1].Ticked? then TraceOf(log[..|log| - 1])
    else TraceOf(log[..|log| - 1]) + [RecordAt(log, |log| - 1)]
  }

  lemma TraceOfSnoc(log: Log, e: Entry)
    ensures TraceOf(log + [e]) == TraceOf(log) + if e.Ticked? then [] else [RecordAt(log + [e], |log|)]
  {
    assert (log + [e])[..|log|] == log;
  }

  lemma CommitTraces(s: Sys, snap: Snapshot, writes: Writes)
    requires s.store.trace == TraceOf(s.log) && s.store.clock == |s.log|
    ensures CommitIn(s, snap, writes).store.trace == TraceOf(CommitIn(s, snap, writes).log)
  {
    TraceOfSnoc(s.log, Committed(snap, writes));
    assert RecordAt(s.log + [Committed(snap, writes)], |s.log|) == RecordOf(s.store, snap, writes);
  }

  lemma TickTraces(s: Sys)
    requires s.store.trace == TraceOf(s.log)
    ensures TickIn(s).store.trace == TraceOf(TickIn(s).log)
  {
    TraceOfSnoc(s.log, Ticked);
  }

  lemma StepTicks(s: Sys, a: Call)
    requires s.store.clock == |s.log|
    ensures SysStep(s, a).store.clock == |SysStep(s, a).log|
  {
  }

  lemma StepTraces(s: Sys, a: Call)
    requires s.store.trace == TraceOf(s.log) && s.store.clock == |s.log|
    ensures SysStep(s, a).store.trace == TraceOf(SysStep(s, a).log)
  {
    match a
    case CallBegin(_, _) =>
    case CallCommit(snap, writes) => CommitTraces(s, snap, writes);
    case CallRelease(_) =>
    case CallTick => TickTraces(s);
  }

  lemma {:induction false} SysRunTraces(calls: seq<Call>)
    ensures SysRun(calls).store.trace == TraceOf(SysRun(calls).log)
    ensures SysRun(calls).store.clock == |SysRun(calls).log|
  {
    if calls != [] {
      SysRunTraces(calls[..|calls| - 1]);
      StepTicks(SysRun(calls[..|calls| - 1]), calls[|calls| - 1]);
      StepTraces(SysRun(calls[..|calls| - 1]), calls[|calls| - 1]);
    }
  }

  predicate IsRecord(log: Log, r: Rec) {
    0 < r.writeTime <= |log| && log[r.writeTime - 1].Committed? && r == RecordAt(log, r.writeTime - 1)
  }

  lemma {:induction false} TraceHoldsRecords(log: Log)
    ensures forall k :: 0 <= k < |TraceOf(log)| ==> IsRecord(log, TraceOf(log)[k])
  {
    if log != [] {
      TraceHoldsRecords(log[..|log| - 1]);
      var earlier := TraceOf(log[..|log| - 1]);
      forall k | 0 <= k < |earlier| ensures IsRecord(log, earlier[k]) {
        assert IsRecord(log[..|log| - 1], earlier[k]);
      }
    }
  }

  lemma {:induction false} NoCrossWindowInAnyRun(calls: seq<Call>)
    ensures !A1Cross(SysRun(calls).store.trace)
  {
    SysRunKeeps(calls);
    SysRunTraces(calls);
    var log := SysRun(calls).log;
    forall i: nat, j: nat, c: Cell | i < |TraceOf(log)| && j < |TraceOf(log)|
      ensures !CrossWindow(TraceOf(log), i, j, c)
    {
      OwnedWindowsDoNotCross(log, i, j, c);
    }
  }

  lemma OwnedWindowsDoNotCross(log: Log, i: nat, j: nat, c: Cell)
    requires forall k: nat :: k < |log| && log[k].Committed? ==> WindowOwned(log, k)
    requires i < |TraceOf(log)| && j < |TraceOf(log)|
    ensures !CrossWindow(TraceOf(log), i, j, c)
  {
    var tr := TraceOf(log);
    TraceHoldsRecords(log);
    assert IsRecord(log, tr[i]) && IsRecord(log, tr[j]);
    if CrossWindow(tr, i, j, c) {
      NotInside(log, tr[i].writeTime - 1, tr[j].writeTime - 1, c);
    }
  }

  lemma NotInside(log: Log, a: nat, b: nat, c: Cell)
    requires a < |log| && log[a].Committed? && WindowOwned(log, a) && c in log[a].snap.readCells
    requires b < |log| && log[b].Committed? && log[b].snap.agent != log[a].snap.agent && c in CellsOf(log[b].writes)
    ensures !(log[a].snap.readTime < b + 1 < a + 1)
  {
    CellsOfHolds(log[b].writes, c);
    assert OnlyBy(log, log[a].snap.agent, log[a].snap.readTime, a, c);
    assert WroteAt(HistoryOf(log), b + 1, c);
  }

  // --------------------------------------- two operations at once, one agent

  lemma SysRunSnoc(calls: seq<Call>, a: Call)
    ensures SysRun(calls + [a]) == SysStep(SysRun(calls), a)
  {
    assert (calls + [a])[..|calls|] == calls;
  }

  const NULL_READ := Snapshot(0, 0, [7], [(7, 0)])

  const ONE_CELL: seq<Cell> := [7]

  /** One agent begins twice on cell 7, commits a write to it on one snapshot, and then commits the other. */
  const TWO_AT_ONCE: seq<Call> :=
    [CallBegin(0, ONE_CELL)] + [CallBegin(0, ONE_CELL)]
    + [CallCommit(NULL_READ, [(7, 1)])] + [CallCommit(NULL_READ, [])]

  /** Nobody else holds the cell, and it was never written. */
  lemma BeginReadsNull(s: Sys)
    requires s.store.versions == [] && s.store.clock == 0 && (s.store.holds == [] || s.store.holds == [Hold(7, 0, 0)])
    ensures BeginIn(s, 0, ONE_CELL)
            == s.(store := s.store.(holds := [Hold(7, 0, 0)]), issued := s.issued + [NULL_READ])
  {
    assert ONE_CELL[..0] == [];
    assert Acquire(s.store.holds, 0, ONE_CELL, 0) == [Hold(7, 0, 0)];
    assert BeginSnapshot(s.store, 0, ONE_CELL).readValues == [(7, 0)];
  }

  lemma FirstCommitWrites(s: Sys)
    requires s.store.clock == 0 && s.store.holds == [Hold(7, 0, 0)] && s.log == []
    ensures var s' := CommitIn(s, NULL_READ, [(7, 1)]);
            && s'.log == [Committed(NULL_READ, [(7, 1)])] && s'.issued == s.issued
            && s'.store.clock == 1 && HeldBySince(s'.store.holds, 0, 7, 0)
  {
    assert s.store.holds[0] == Hold(7, 0, 0);
    AcquireExtends(s.store.holds, 0, CellsOf([(7, 1)]), 0);
    ExtendsKeepsHold(s.store.holds, Acquire(s.store.holds, 0, CellsOf([(7, 1)]), 0), 0, 7, 0);
  }

  lemma SecondCommitIsAccepted(s: Sys)
    requires s.store.clock == 1 && HeldBySince(s.store.holds, 0, 7, 0)
    ensures CommitIn(s, NULL_READ, []).log == s.log + [Committed(NULL_READ, [])]
    ensures CommitIn(s, NULL_READ, []).issued == s.issued
  {
  }

  const TWICE_BEGUN: seq<Call> := [CallBegin(0, ONE_CELL)] + [CallBegin(0, ONE_CELL)]

  lemma TwiceBegun()
    ensures SysRun(TWICE_BEGUN) == Sys(Store([], 0, [Hold(7, 0, 0)], []), [NULL_READ, NULL_READ], [])
  {
    var none: seq<Call> := [];
    SysRunSnoc(none, CallBegin(0, ONE_CELL));
    assert none + [CallBegin(0, ONE_CELL)] == [CallBegin(0, ONE_CELL)];
    BeginReadsNull(SysRun(none));
    SysRunSnoc([CallBegin(0, ONE_CELL)], CallBegin(0, ONE_CELL));
    BeginReadsNull(SysRun([CallBegin(0, ONE_CELL)]));
  }

  lemma TwoAtOnceRuns()
    ensures SysRun(TWO_AT_ONCE).log == [Committed(NULL_READ, [(7, 1)]), Committed(NULL_READ, [])]
    ensures SysRun(TWO_AT_ONCE).issued == [NULL_READ, NULL_READ]
  {
    TwiceBegun();
    SysRunSnoc(TWICE_BEGUN, CallCommit(NULL_READ, [(7, 1)]));
    FirstCommitWrites(SysRun(TWICE_BEGUN));
    SysRunSnoc(TWICE_BEGUN + [CallCommit(NULL_READ, [(7, 1)])], CallCommit(NULL_READ, []));
    SecondCommitIsAccepted(SysRun(TWICE_BEGUN + [CallCommit(NULL_READ, [(7, 1)])]));
  }

  /**
   The second commit is accepted although the value it read is gone: the agent did not take its operations in turn.
   */
  lemma {:induction false} TwoAtOnceIsNotSerial()
    ensures var s := SysRun(TWO_AT_ONCE);
            && |s.log| == 2 && s.log[1] == Committed(NULL_READ, []) && s.issued == [NULL_READ, NULL_READ]
            && !ReadsReplayAt(HistoryOf(s.log), NULL_READ, 1)
    ensures !OneAtATime(TWO_AT_ONCE)
  {
    TwoAtOnceRuns();
    var history := HistoryOf(SysRun(TWO_AT_ONCE).log);
    assert history[0] == [(7, 1)] && LastWrites([(7, 1)]) == map[7 := 1];
    assert ValueAt(history, 1, 7) == 1;
    assert SysRun(TWO_AT_ONCE).log[1] == Committed(NULL_READ, []);
    assert NULL_READ.readCells[0] == 7 && NULL_READ.readValues[0] == (7, 0);
    assert !ReadsReplayAt(history, NULL_READ, 1);
    NotSerialIsNotInTurn(TWO_AT_ONCE, 1);
  }
}
