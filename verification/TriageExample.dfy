/**
 The triage scenario on the default snapshot-isolation store: a reporter writes a cell, a triager reads
 it, the reporter overwrites it, and the triager commits nothing.  The emitted history shows A1.
 */
module TriageExample {
  import opened Common
  import opened Versions
  import opened StoreApi
  import opened Detectors
  import opened AgentModel
  import M = SiModel
  import SiStore
  import opened AgentsOverSi

  const REPORTER: Agent := 0
  const TRIAGER: Agent := 1
  const TICKET: Cell := 7

  function ReporterOp(s: Sys): PendingOp {
    PendingOp(SiStore.SnapshotOf(s.store, []), [], None, [])
  }

  ghost function ReporterRecord(s: Sys, v: Val): OpRecord {
    RecordFor(REPORTER, ReporterOp(s), [(TICKET, v)], s.store.clock + 1, None)
  }

  /** The reporter reads nothing, writes the ticket, emits and releases. */
  ghost function Reported(s: Sys, v: Val): Sys {
    var begun := BeginStep(s, REPORTER, [], None, []);
    ReleaseStep(EmitStep(CommitStep(begun, REPORTER, [(TICKET, v)], None), REPORTER), REPORTER)
  }

  lemma OneWrite(v: Val)
    ensures LastWrites([(TICKET, v)]) == map[TICKET := v]
  {
    var writes: Writes := [(TICKET, v)];
    assert writes[..0] == [];
  }

  lemma NothingReadIsAccepted(s: Sys, a: Agent, op: PendingOp)
    requires op.snapshot.values == map[] && op.snapshot.readTime <= s.store.clock < MAX_U64
    ensures M.CommitAccepted(s.store, CoreSnapshot(a, op.snapshot))
  {
  }

  lemma ReporterCommits(s: Sys, op: PendingOp, v: Val)
    requires PhaseOf(s.phases, REPORTER) == Pending(op) && op.snapshot.values == map[]
    requires op.snapshot.readTime <= s.store.clock < MAX_U64
    ensures var s' := CommitStep(s, REPORTER, [(TICKET, v)], None);
            && s'.history == s.history + [PairsOf(map[TICKET := v])] && s'.store.clock == s.store.clock + 1
            && s'.phases == s.phases[REPORTER :=
                 InFlight(RecordFor(REPORTER, op, [(TICKET, v)], s.store.clock + 1, None))]
            && s'.emitted == s.emitted && s'.validateNoWrite == s.validateNoWrite
  {
    OneWrite(v);
    NothingReadIsAccepted(s, REPORTER, op);
  }

  /** One report adds one tick that wrote the ticket, and its record. */
  lemma ReportedState(s: Sys, v: Val)
    requires PhaseOf(s.phases, REPORTER) == Idle && s.store.clock < MAX_U64
    ensures var s' := Reported(s, v);
            && s'.history == s.history + [PairsOf(map[TICKET := v])] && s'.store.clock == s.store.clock + 1
            && s'.emitted == s.emitted + [ReporterRecord(s, v)] && s'.validateNoWrite == s.validateNoWrite
            && PhaseOf(s'.phases, REPORTER) == Idle && PhaseOf(s'.phases, TRIAGER) == PhaseOf(s.phases, TRIAGER)
  {
    var s1 := BeginStep(s, REPORTER, [], None, []);
    assert PhaseOf(s1.phases, REPORTER) == Pending(ReporterOp(s));
    ReporterCommits(s1, ReporterOp(s), v);
    EmittedAndReleased(CommitStep(s1, REPORTER, [(TICKET, v)], None), ReporterRecord(s, v));
  }

  lemma EmittedAndReleased(s: Sys, r: OpRecord)
    requires PhaseOf(s.phases, REPORTER) == InFlight(r)
    ensures var s' := ReleaseStep(EmitStep(s, REPORTER), REPORTER);
            && s'.history == s.history && s'.store == s.store && s'.validateNoWrite == s.validateNoWrite
            && s'.emitted == s.emitted + [r] && s'.phases == s.phases[REPORTER := Emitted][REPORTER := Idle]
  {
  }

  lemma ReportedKeeps(s: Sys, v: Val)
    requires SysInv(s)
    ensures SysInv(Reported(s, v))
  {
    var s1 := BeginStep(s, REPORTER, [], None, []);
    BeginKeeps(s, REPORTER, [], None, []);
    var s2 := CommitStep(s1, REPORTER, [(TICKET, v)], None);
    CommitKeeps(s1, REPORTER, [(TICKET, v)], None);
    EmitKeeps(s2, REPORTER);
    ReleaseKeeps(EmitStep(s2, REPORTER), REPORTER);
  }

  ghost function TriagerBegun(s: Sys): Sys {
    BeginStep(s, TRIAGER, [TICKET], None, [])
  }

  ghost function TriagerDone(s: Sys): Sys {
    EmitStep(CommitStep(s, TRIAGER, [], None), TRIAGER)
  }

  lemma TriagerDoneState(s: Sys, op: PendingOp)
    requires PhaseOf(s.phases, TRIAGER) == Pending(op) && !s.validateNoWrite && s.store.clock < MAX_U64
    ensures TriagerDone(s).emitted == s.emitted + [RecordFor(TRIAGER, op, [], s.store.clock + 1, None)]
  {
  }

  /** Report, read, report again, commit nothing. */
  ghost function Triaged(): Sys {
    TriagerDone(Reported(TriagerBegun(Reported(Start(false), 1)), 2))
  }

  /** A ticket just reported reads as reported. */
  lemma TicketReads(s: Sys, v: Val)
    requires SysInv(s) && s.history != [] && s.history[|s.history| - 1] == PairsOf(map[TICKET := v])
    ensures Latest(s.store.versions, TICKET) == v
  {
    LatestIsReplay(s.history, TICKET);
    PairsLastWrite(map[TICKET := v], TICKET);
  }

  /** The triager has read the first report. */
  lemma TriagerHasRead(s: Sys, v: Val)
    requires SysInv(s) && s.history != [] && s.history[|s.history| - 1] == PairsOf(map[TICKET := v])
    requires PhaseOf(s.phases, TRIAGER) == Idle
    ensures var op := PhaseOf(TriagerBegun(s).phases, TRIAGER);
            && op.Pending? && op.op.readSet == [TICKET]
            && op.op.snapshot == StoreSnapshot(map[TICKET := v], s.store.clock)
    ensures TriagerBegun(s) == s.(phases := TriagerBegun(s).phases)
    ensures PhaseOf(TriagerBegun(s).phases, REPORTER) == PhaseOf(s.phases, REPORTER)
  {
    TicketReads(s, v);
  }

  lemma SecondReportIsInside(h: seq<OpRecord>, report: OpRecord, triage: OpRecord)
    requires |h| == 3 && h[1] == report && h[2] == triage
    requires triage.readSet == [TICKET] && triage.readValues == map[TICKET := 1] && triage.readTime == 1
             && triage.writeTime == 3
    requires TICKET in report.writeSet && report.writeTime == 2 && report.writeValues == map[TICKET := 2]
    ensures A1At(h, 2, 1, TICKET)
  {
  }

  /** From the first report on. */
  lemma SecondHalfShowsA1(s: Sys)
    requires SysInv(s) && !s.validateNoWrite && s.store.clock == 1 && |s.emitted| == 1
    requires s.history != [] && s.history[|s.history| - 1] == PairsOf(map[TICKET := 1])
    requires PhaseOf(s.phases, REPORTER) == Idle && PhaseOf(s.phases, TRIAGER) == Idle
    ensures var h := TriagerDone(Reported(TriagerBegun(s), 2)).emitted;
            |h| == 3 && A1At(h, 2, 1, TICKET)
  {
    TriagerHasRead(s, 1);
    var begun := TriagerBegun(s);
    var op := PhaseOf(begun.phases, TRIAGER).op;
    ReportedState(begun, 2);
    OneWrite(2);
    TriagerDoneState(Reported(begun, 2), op);
    SecondReportIsInside(TriagerDone(Reported(begun, 2)).emitted, ReporterRecord(begun, 2),
                         RecordFor(TRIAGER, op, [], 3, None));
  }

  lemma TriagedShowsA1()
    ensures |Triaged().emitted| == 3 && A1At(Triaged().emitted, 2, 1, TICKET)
  {
    RunKeeps(false, []);
    ReportedState(Start(false), 1);
    ReportedKeeps(Start(false), 1);
    SecondHalfShowsA1(Reported(Start(false), 1));
  }

  // --------------------------------------------------- the scenario is a run

  function ReportActs(v: Val): seq<Action> {
    [Begin(REPORTER, [], None, [])] + [Commit(REPORTER, [(TICKET, v)], None)] + [Emit(REPORTER)] + [Release(REPORTER)]
  }

  function TriageActs(): seq<Action> {
    ReportActs(1) + [Begin(TRIAGER, [TICKET], None, [])] + ReportActs(2) + [Commit(TRIAGER, [], None)] + [Emit(TRIAGER)]
  }

  lemma RunSnoc(acts: seq<Action>, act: Action)
    ensures Run(false, acts + [act]) == Step(Run(false, acts), act)
  {
    assert (acts + [act])[..|acts|] == acts;
  }

  lemma WriteIsRun(acts: seq<Action>, v: Val)
    ensures Run(false, acts + [Begin(REPORTER, [], None, [])] + [Commit(REPORTER, [(TICKET, v)], None)])
            == CommitStep(BeginStep(Run(false, acts), REPORTER, [], None, []), REPORTER, [(TICKET, v)], None)
  {
    RunSnoc(acts, Begin(REPORTER, [], None, []));
    RunSnoc(acts + [Begin(REPORTER, [], None, [])], Commit(REPORTER, [(TICKET, v)], None));
  }

  lemma EmitIsRun(acts: seq<Action>)
    ensures Run(false, acts + [Emit(REPORTER)] + [Release(REPORTER)])
            == ReleaseStep(EmitStep(Run(false, acts), REPORTER), REPORTER)
  {
    RunSnoc(acts, Emit(REPORTER));
    RunSnoc(acts + [Emit(REPORTER)], Release(REPORTER));
  }

  lemma ReportIsRun(acts: seq<Action>, v: Val)
    ensures Run(false, acts + ReportActs(v)) == Reported(Run(false, acts), v)
  {
    var wrote := acts + [Begin(REPORTER, [], None, [])] + [Commit(REPORTER, [(TICKET, v)], None)];
    WriteIsRun(acts, v);
    EmitIsRun(wrote);
    assert acts + ReportActs(v) == wrote + [Emit(REPORTER)] + [Release(REPORTER)];
  }

  lemma TriageIsRun()
    ensures Run(false, TriageActs()) == Triaged()
  {
    var none: seq<Action> := [];
    ReportIsRun(none, 1);
    assert none + ReportActs(1) == ReportActs(1);
    RunSnoc(ReportActs(1), Begin(TRIAGER, [TICKET], None, []));
    var read := ReportActs(1) + [Begin(TRIAGER, [TICKET], None, [])];
    ReportIsRun(read, 2);
    RunSnoc(read + ReportActs(2), Commit(TRIAGER, [], None));
    RunSnoc(read + ReportActs(2) + [Commit(TRIAGER, [], None)], Emit(TRIAGER));
  }

  /** The default mode lets a stale triage through, and A1 is there to be found: the triage and the second report. */
  lemma {:induction false} TriageShowsA1()
    ensures |Run(false, TriageActs()).emitted| == 3 && A1At(Run(false, TriageActs()).emitted, 2, 1, TICKET)
    ensures A1In(Run(false, TriageActs()).emitted)
  {
    TriageIsRun();
    TriagedShowsA1();
  }
}
