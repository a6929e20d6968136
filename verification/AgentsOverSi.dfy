/**
 Agents over the snapshot-isolation store, in both of its modes, under every interleaving of their
 steps: what the emitted history shows the detectors.
 */
module AgentsOverSi {
  import opened Common
  import opened Versions
  import opened StoreApi
  import opened Detectors
  import opened AgentModel
  import opened AgentLedger
  import M = SiModel
  import SiStore

  datatype Sys = Sys(
    validateNoWrite: bool,
    store: M.Store,
    history: History,
    phases: map<Agent, Phase>,
    emitted: seq<OpRecord>)

  function Start(validateNoWrite: bool): Sys {
    Sys(validateNoWrite, M.EMPTY, [], map[], [])
  }

  // ----------------------------------------------------------------- steps

  function BeginStep(s: Sys, a: Agent, cells: seq<Cell>, planned: Option<Tool>, visible: seq<Tool>): Sys {
    if PhaseOf(s.phases, a) != Idle then s
    else s.(phases := s.phases[a := Pending(PendingOp(SiStore.SnapshotOf(s.store, cells), cells, planned, visible))])
  }

  ghost function CommitPending(s: Sys, a: Agent, op: PendingOp, writes: Writes, toolUsed: Option<Tool>): Sys {
    var bypass := SiStore.Bypasses(s.validateNoWrite, LastWrites(writes));
    var r := SiStore.AdapterCommit(s.store, s.validateNoWrite, a, op.snapshot, LastWrites(writes));
    match r.1
    case AbortedConflict => s.(phases := s.phases[a := BackingOut])
    case Committed(t) =>
      s.(store := r.0,
         history := if bypass then Ticked(s.store.clock, s.history) else s.history + [PairsOf(LastWrites(writes))],
         phases := s.phases[a := InFlight(RecordFor(a, op, writes, t, toolUsed))])
  }

  ghost function CommitStep(s: Sys, a: Agent, writes: Writes, toolUsed: Option<Tool>): Sys {
    match PhaseOf(s.phases, a)
    case Pending(op) => CommitPending(s, a, op, writes, toolUsed)
    case RefusedAtBegin => s.(phases := s.phases[a := Idle])
    case _ => s
  }

  function EmitStep(s: Sys, a: Agent): Sys {
    match PhaseOf(s.phases, a)
    case InFlight(r) =>
      s.(phases := s.phases[a := Emitted], emitted := s.emitted + [r])
    case _ => s
  }

  function ReleaseStep(s: Sys, a: Agent): Sys {
    match PhaseOf(s.phases, a)
    case Emitted => s.(phases := s.phases[a := Idle])
    case BackingOut => s.(phases := s.phases[a := Idle])
    case _ => s
  }

  function TickStep(s: Sys): Sys {
    s.(store := M.Tick(s.store), history := Ticked(s.store.clock, s.history))
  }

  ghost function Step(s: Sys, act: Action): Sys {
    match act
    case Begin(a, cells, planned, visible) => BeginStep(s, a, cells, planned, visible)
    case Commit(a, writes, toolUsed) => CommitStep(s, a, writes, toolUsed)
    case Emit(a) => EmitStep(s, a)
    case Release(a) => ReleaseStep(s, a)
    case Tick => TickStep(s)
  }

  ghost function Run(validateNoWrite: bool, acts: seq<Action>): Sys {
    if acts == [] then Start(validateNoWrite)
    else Step(Run(validateNoWrite, acts[..|acts| - 1]), acts[|acts| - 1])
  }

  // ------------------------------------------------------------- invariant

  /** Committed without validation: nothing written, in the mode that lets such commits through. */
  predicate Bypassed(validateNoWrite: bool, r: OpRecord) {
    r.writeSet == [] && !validateNoWrite
  }

  ghost predicate RecordGood(validateNoWrite: bool, history: History, r: OpRecord) {
    RecordTrue(history, r) && (!Bypassed(validateNoWrite, r) ==> RecordFresh(history, r))
  }

  ghost predicate PhaseTrue(s: Sys, a: Agent) {
    match PhaseOf(s.phases, a)
    case Pending(op) => SnapshotTrue(s.history, op.snapshot, op.readSet)
    case InFlight(r) =>
      RecordGood(s.validateNoWrite, s.history, r)
    case _ => true
  }

  ghost predicate EmittedTrue(s: Sys) {
    forall k: nat :: k < |s.emitted| ==> RecordGood(s.validateNoWrite, s.history, s.emitted[k])
  }

  ghost predicate SysInv(s: Sys) {
    && M.Inv(s.store, s.history)
    && (forall a: Agent :: PhaseTrue(s, a))
    && EmittedTrue(s)
    && AllAccounted(s.history, s.phases, s.emitted)
  }

  lemma RecordGoodPrefix(validateNoWrite: bool, history: History, more: History, r: OpRecord)
    requires |history| <= |more| && more[..|history|] == history && RecordGood(validateNoWrite, history, r)
    ensures RecordGood(validateNoWrite, more, r)
  {
    RecordTruePrefix(history, more, r);
    if !Bypassed(validateNoWrite, r) {
      RecordFreshPrefix(history, more, r);
    }
  }

  lemma PhaseTruePrefix(s: Sys, s': Sys, a: Agent)
    requires |s.history| <= |s'.history| && s'.history[..|s.history|] == s.history
             && s'.validateNoWrite == s.validateNoWrite
    requires PhaseTrue(s, a) && PhaseOf(s'.phases, a) == PhaseOf(s.phases, a)
    ensures PhaseTrue(s', a)
  {
    match PhaseOf(s.phases, a)
    case Pending(op) => SnapshotTruePrefix(s.history, s'.history, op.snapshot, op.readSet);
    case InFlight(r) => RecordGoodPrefix(s.validateNoWrite, s.history, s'.history, r);
    case _ =>
  }

  lemma EmittedTruePrefix(s: Sys, s': Sys)
    requires |s.history| <= |s'.history| && s'.history[..|s.history|] == s.history
             && s'.validateNoWrite == s.validateNoWrite
    requires EmittedTrue(s) && s'.emitted == s.emitted
    ensures EmittedTrue(s')
  {
    forall k: nat | k < |s.emitted| ensures RecordGood(s'.validateNoWrite, s'.history, s.emitted[k]) {
      RecordGoodPrefix(s.validateNoWrite, s.history, s'.history, s.emitted[k]);
    }
  }

  /** The store and the history move on, and one agent not in flight changes phase. */
  lemma MoveKeeps(s: Sys, s': Sys, a: Agent)
    requires SysInv(s) && !PhaseOf(s.phases, a).InFlight?
    requires s' == s.(store := s'.store, history := s'.history, phases := s.phases[a := PhaseOf(s'.phases, a)])
    requires M.Inv(s'.store, s'.history) && PhaseTrue(s', a)
    requires |s.history| <= |s'.history| && s'.history[..|s.history|] == s.history
    requires forall t: Time, c: Cell :: |s.history| < t && WroteAt(s'.history, t, c) ==>
             InFlightOwns(s'.history, s'.phases, a, t)
    ensures SysInv(s')
  {
    forall b: Agent ensures PhaseTrue(s', b) {
      if b != a {
        PhaseTruePrefix(s, s', b);
      }
    }
    EmittedTruePrefix(s, s');
    AllAccountedKept(s.history, s'.history, s.phases, s'.phases, s.emitted);
  }

  lemma BeginKeeps(s: Sys, a: Agent, cells: seq<Cell>, planned: Option<Tool>, visible: seq<Tool>)
    requires SysInv(s)
    ensures SysInv(BeginStep(s, a, cells, planned, visible))
  {
    var s' := BeginStep(s, a, cells, planned, visible);
    if PhaseOf(s.phases, a) == Idle {
      forall c: Cell ensures Latest(s.store.versions, c) == ValueAt(s.history, |s.history|, c) {
        LatestIsReplay(s.history, c);
      }
      PhaseChangeKeeps(s, s', a);
    }
  }

  /** An agent not in flight changes phase; nothing else does. */
  lemma PhaseChangeKeeps(s: Sys, s': Sys, a: Agent)
    requires SysInv(s) && !PhaseOf(s.phases, a).InFlight?
    requires s' == s.(phases := s.phases[a := PhaseOf(s'.phases, a)]) && PhaseTrue(s', a)
    ensures SysInv(s')
  {
    MoveKeeps(s, s', a);
  }

  lemma EmitKeeps(s: Sys, a: Agent)
    requires SysInv(s)
    ensures SysInv(EmitStep(s, a))
  {
    var s' := EmitStep(s, a);
    if PhaseOf(s.phases, a).InFlight? {
      assert PhaseTrue(s, a);
      forall b: Agent ensures PhaseTrue(s', b) {
        if b != a {
          PhaseTruePrefix(s, s', b);
        }
      }
      EmitKeepsAccounts(s.history, s.phases, s.emitted, a);
    }
  }

  lemma TickedKeepsStore(store: M.Store, history: History)
    requires M.Inv(store, history)
    ensures M.Inv(M.Tick(store), Ticked(store.clock, history))
  {
    M.CommitKeepsInv(store, history, M.TICK_SNAPSHOT, []);
  }

  lemma TickKeeps(s: Sys)
    requires SysInv(s)
    ensures SysInv(TickStep(s))
  {
    var s' := TickStep(s);
    TickedKeepsStore(s.store, s.history);
    TickWritesNothing(s.store.clock, s.history);
    forall a: Agent ensures PhaseTrue(s', a) {
      PhaseTruePrefix(s, s', a);
    }
    EmittedTruePrefix(s, s');
    AllAccountedKept(s.history, s'.history, s.phases, s.phases, s.emitted);
  }

  // ---------------------------------------------------------------- commits

  lemma ValidatedRecordIsFresh(s: Sys, a: Agent, op: PendingOp, w: Writes, r: OpRecord)
    requires M.Inv(s.store, s.history) && SnapshotTrue(s.history, op.snapshot, op.readSet)
    requires M.CommitAccepted(s.store, CoreSnapshot(a, op.snapshot))
    requires r.readSet == op.readSet && r.readTime == op.snapshot.readTime && r.writeTime == |s.history| + 1
    ensures RecordFresh(s.history + [w], r)
  {
    M.FreshIffUntouched(s.store, s.history, CoreSnapshot(a, op.snapshot).readCells, op.snapshot.readTime);
    forall c: Cell | c in op.readSet ensures Untouched(s.history + [w], op.snapshot.readTime, |s.history|, c) {
      assert c in CoreSnapshot(a, op.snapshot).readCells;
      UntouchedPrefix(s.history, s.history + [w], op.snapshot.readTime, |s.history|, c);
    }
  }

  /** The commit of an accepted operation, its record in flight. */
  lemma LaunchKeeps(s: Sys, s': Sys, a: Agent, op: PendingOp, writes: map<Cell, Val>, r: OpRecord)
    requires SysInv(s) && PhaseOf(s.phases, a) == Pending(op) && M.CommitAccepted(s.store, CoreSnapshot(a, op.snapshot))
    requires Launches(s.history, op, writes, r)
    requires s' == s.(store := s'.store, history := s.history + [PairsOf(writes)],
                      phases := s.phases[a := InFlight(r)])
    requires M.Inv(s'.store, s'.history)
    ensures SysInv(s')
  {
    LaunchedIsGood(s, a, op, writes, r);
    assert PhaseOf(s'.phases, a) == InFlight(r);
    MoveKeeps(s, s', a);
  }

  lemma LaunchedIsGood(s: Sys, a: Agent, op: PendingOp, writes: map<Cell, Val>, r: OpRecord)
    requires M.Inv(s.store, s.history) && PhaseOf(s.phases, a) == Pending(op) && PhaseTrue(s, a)
    requires M.CommitAccepted(s.store, CoreSnapshot(a, op.snapshot)) && Launches(s.history, op, writes, r)
    ensures RecordGood(s.validateNoWrite, s.history + [PairsOf(writes)], r)
  {
    ValidatedRecordIsFresh(s, a, op, PairsOf(writes), r);
  }

  lemma AcceptedCommitKeeps(s: Sys, a: Agent, op: PendingOp, writes: Writes, toolUsed: Option<Tool>)
    requires SysInv(s) && PhaseOf(s.phases, a) == Pending(op)
    requires !SiStore.Bypasses(s.validateNoWrite, LastWrites(writes))
    requires M.CommitAccepted(s.store, CoreSnapshot(a, op.snapshot))
    ensures SysInv(CommitPending(s, a, op, writes, toolUsed))
  {
    assert PhaseTrue(s, a);
    M.CommitKeepsInv(s.store, s.history, CoreSnapshot(a, op.snapshot), PairsOf(LastWrites(writes)));
    RecordLaunches(s.history, a, op, writes, toolUsed);
    LaunchKeeps(s, CommitPending(s, a, op, writes, toolUsed), a, op, LastWrites(writes),
                RecordFor(a, op, writes, |s.history| + 1, toolUsed));
  }

  lemma EmptyMapWritesNothing(a: Agent, op: PendingOp, writes: Writes, t: Time, toolUsed: Option<Tool>)
    requires LastWrites(writes) == map[]
    ensures RecordFor(a, op, writes, t, toolUsed).writeSet == []
  {
  }

  lemma BypassKeeps(s: Sys, a: Agent, op: PendingOp, writes: Writes, toolUsed: Option<Tool>)
    requires SysInv(s) && PhaseOf(s.phases, a) == Pending(op)
    requires SiStore.Bypasses(s.validateNoWrite, LastWrites(writes))
    ensures SysInv(CommitPending(s, a, op, writes, toolUsed))
  {
    var s' := CommitPending(s, a, op, writes, toolUsed);
    assert PhaseTrue(s, a);
    TickedKeepsStore(s.store, s.history);
    TickWritesNothing(s.store.clock, s.history);
    SnapshotTruePrefix(s.history, s'.history, op.snapshot, op.readSet);
    var r := RecordFor(a, op, writes, s'.store.clock, toolUsed);
    EmptyMapWritesNothing(a, op, writes, s'.store.clock, toolUsed);
    assert PhaseOf(s'.phases, a) == InFlight(r);
    assert RecordTrue(s'.history, r);
    MoveKeeps(s, s', a);
  }

  lemma CommitKeeps(s: Sys, a: Agent, writes: Writes, toolUsed: Option<Tool>)
    requires SysInv(s)
    ensures SysInv(CommitStep(s, a, writes, toolUsed))
  {
    var s' := CommitStep(s, a, writes, toolUsed);
    match PhaseOf(s.phases, a)
    case Pending(op) =>
      if SiStore.Bypasses(s.validateNoWrite, LastWrites(writes)) {
        BypassKeeps(s, a, op, writes, toolUsed);
      } else if M.CommitAccepted(s.store, CoreSnapshot(a, op.snapshot)) {
        AcceptedCommitKeeps(s, a, op, writes, toolUsed);
      } else {
        PhaseChangeKeeps(s, s', a);
      }
    case RefusedAtBegin => PhaseChangeKeeps(s, s', a);
    case _ =>
  }

  lemma ReleaseKeeps(s: Sys, a: Agent)
    requires SysInv(s)
    ensures SysInv(ReleaseStep(s, a))
  {
    match PhaseOf(s.phases, a)
    case Emitted => PhaseChangeKeeps(s, ReleaseStep(s, a), a);
    case BackingOut => PhaseChangeKeeps(s, ReleaseStep(s, a), a);
    case _ =>
  }

  lemma {:induction false} StepKeeps(s: Sys, act: Action)
    requires SysInv(s)
    ensures SysInv(Step(s, act))
  {
    match act
    case Begin(a, cells, planned, visible) => BeginKeeps(s, a, cells, planned, visible);
    case Commit(a, writes, toolUsed) => CommitKeeps(s, a, writes, toolUsed);
    case Emit(a) => EmitKeeps(s, a);
    case Release(a) => ReleaseKeeps(s, a);
    case Tick => TickKeeps(s);
  }

  lemma {:induction false} RunKeeps(validateNoWrite: bool, acts: seq<Action>)
    ensures SysInv(Run(validateNoWrite, acts)) && Run(validateNoWrite, acts).validateNoWrite == validateNoWrite
  {
    if acts == [] {
      assert !exists t: Time, c: Cell :: WroteAt([], t, c);
    } else {
      RunKeeps(validateNoWrite, acts[..|acts| - 1]);
      StepKeeps(Run(validateNoWrite, acts[..|acts| - 1]), acts[|acts| - 1]);
    }
  }

  // ------------------------------------------------------------- end to end

  /** No agent stands between its commit and its record. */
  ghost predicate AllEmitted(s: Sys) {
    forall a: Agent :: !PhaseOf(s.phases, a).InFlight?
  }

  lemma LedgerIsComplete(s: Sys)
    requires SysInv(s) && AllEmitted(s)
    ensures forall k: nat :: k < |s.emitted| ==> SourcesEmitted(s.history, s.emitted, s.emitted[k])
    ensures forall t: Time, c: Cell :: WroteAt(s.history, t, c) ==> OwnedIn(s.history, s.emitted, t)
  {
    forall t: Time, c: Cell | WroteAt(s.history, t, c) ensures OwnedIn(s.history, s.emitted, t) {
      assert Accounted(s.history, s.phases, s.emitted, t);
    }
  }

  lemma NoA3AndNoA6(s: Sys)
    requires SysInv(s) && AllEmitted(s)
    ensures !A3In(s.emitted) && !A6In(s.emitted)
  {
    LedgerIsComplete(s);
    forall j: nat | j < |s.emitted|
      ensures RecordTrue(s.history, s.emitted[j]) && !A6At(s.emitted[j])
      ensures s.emitted[j].writeSet != [] ==> s.emitted[j].readTime < s.emitted[j].writeTime
    {
      assert RecordGood(s.validateNoWrite, s.history, s.emitted[j]);
    }
    SourcedHasNoA3(s.history, s.emitted);
  }

  // ------------------------------------------------------------ the ledger

  /** What the calls of a run asked for. */
  ghost function LedgerOf(validateNoWrite: bool, acts: seq<Action>): Ledger {
    if acts == [] then NOTHING_ASKED
    else
      var before := acts[..|acts| - 1];
      Noted(LedgerOf(validateNoWrite, before), Run(validateNoWrite, before).phases, Run(validateNoWrite, acts).phases,
            acts[|acts| - 1])
  }

  lemma StepMoves(s: Sys, act: Action)
    ensures Moves(s.phases, Step(s, act).phases, s.emitted, Step(s, act).emitted, act)
  {
    if act.Begin? && PhaseOf(s.phases, act.agent) == Idle {
      var snapshot := SiStore.SnapshotOf(s.store, act.cells);
      assert Step(s, act).phases == s.phases[act.agent :=
        Pending(PendingOp(snapshot, act.cells, act.planned, act.visible))];
    }
  }

  /** Every emitted record says of its operation exactly what its own begin and commit passed. */
  lemma {:induction false} RecordsTellTheirCalls(validateNoWrite: bool, acts: seq<Action>)
    ensures LedgerTells(LedgerOf(validateNoWrite, acts), Run(validateNoWrite, acts).phases,
                        Run(validateNoWrite, acts).emitted)
  {
    if acts != [] {
      var before, act := acts[..|acts| - 1], acts[|acts| - 1];
      var s := Run(validateNoWrite, before);
      RecordsTellTheirCalls(validateNoWrite, before);
      StepMoves(s, act);
      MoveKeepsLedger(LedgerOf(validateNoWrite, before), s.phases, Step(s, act).phases, s.emitted,
                      Step(s, act).emitted, act);
    }
  }

  /**
   End to end in the validating mode: at every point of every interleaving where each committed
   operation has emitted its record, the history reaches level 3, and level 4 exactly when no
   operation that is out was given a visible plan by its begin and named another tool at its commit.
   */
  lemma {:induction false} ValidatingStoreReachesLevel3(acts: seq<Action>)
    requires AllEmitted(Run(true, acts))
    ensures LevelOf(Run(true, acts).emitted) >= 3
    ensures LevelOf(Run(true, acts).emitted) == 4 <==> !SomeOverride(LedgerOf(true, acts).told)
  {
    var s := Run(true, acts);
    RunKeeps(true, acts);
    NoA3AndNoA6(s);
    RecordsTellTheirCalls(true, acts);
    A2IffSomeOverride(s.emitted, LedgerOf(true, acts).told);
    forall i: nat, j: nat, c: Cell | i < |s.emitted| && j < |s.emitted| ensures !A1At(s.emitted, i, j, c) {
      assert RecordGood(true, s.history, s.emitted[i]) && RecordGood(true, s.history, s.emitted[j]);
      if A1At(s.emitted, i, j, c) {
        WindowIsTouched(s.history, s.emitted, i, j, c);
      }
    }
  }

  // --------------------------------------------- while somebody is in flight

  ghost predicate WroteValue(history: History, t: Time, c: Cell, v: Val) {
    0 < t <= |history| && LastWrite(history[t - 1], c) == Some(v)
  }

  /** The record of the commit at time `t` is out, and says it wrote the cell. */
  ghost predicate ToldAt(emitted: seq<OpRecord>, t: Time, c: Cell) {
    exists k: nat :: k < |emitted| && emitted[k].writeTime == t && c in emitted[k].writeSet
  }

  /** `j` read a value, and no commit that had put that value there by then has its record out. */
  ghost predicate Unsourced(s: Sys, j: nat, c: Cell) {
    && j < |s.emitted| && c in s.emitted[j].readSet && c in s.emitted[j].readValues
    && s.emitted[j].readValues[c] != NULL_VALUE
    && forall t: Time :: t <= s.emitted[j].readTime && WroteValue(s.history, t, c, s.emitted[j].readValues[c]) ==>
         !ToldAt(s.emitted, t, c)
  }

  lemma AntecedentIsTold(s: Sys, j: nat, k: nat, c: Cell, v: Val)
    requires SysInv(s) && j < |s.emitted| && k < |s.emitted| && Antecedent(s.emitted, j, k, c, v)
    ensures s.emitted[k].writeTime <= s.emitted[j].readTime && WroteValue(s.history, s.emitted[k].writeTime, c, v)
    ensures ToldAt(s.emitted, s.emitted[k].writeTime, c)
  {
    assert RecordGood(s.validateNoWrite, s.history, s.emitted[k]);
  }

  /** A record that says it wrote the cell says what was written, and was written after it was read. */
  lemma TellsTheValue(validateNoWrite: bool, history: History, r: OpRecord, c: Cell, v: Val)
    requires RecordGood(validateNoWrite, history, r) && c in r.writeSet && WroteValue(history, r.writeTime, c, v)
    ensures c in r.writeValues && r.writeValues[c] == v && r.readTime < r.writeTime
  {
  }

  lemma ToldIsAntecedent(s: Sys, j: nat, t: Time, c: Cell, v: Val) returns (k: nat)
    requires EmittedTrue(s) && j < |s.emitted| && t <= s.emitted[j].readTime
    requires WroteValue(s.history, t, c, v) && ToldAt(s.emitted, t, c)
    ensures k < |s.emitted| && Antecedent(s.emitted, j, k, c, v)
  {
    k :| k < |s.emitted| && s.emitted[k].writeTime == t && c in s.emitted[k].writeSet;
    TellsTheValue(s.validateNoWrite, s.history, s.emitted[k], c, v);
  }

  lemma A3IffUnsourced(s: Sys, j: nat, c: Cell)
    requires SysInv(s) && j < |s.emitted|
    ensures A3At(s.emitted, j, c) <==> Unsourced(s, j, c)
  {
    if A3At(s.emitted, j, c) {
      var v := s.emitted[j].readValues[c];
      forall t: Time | t <= s.emitted[j].readTime && WroteValue(s.history, t, c, v) ensures !ToldAt(s.emitted, t, c) {
        if ToldAt(s.emitted, t, c) {
          var k := ToldIsAntecedent(s, j, t, c, v);
        }
      }
    }
    if Unsourced(s, j, c) {
      var v := s.emitted[j].readValues[c];
      forall k: nat | k < |s.emitted| ensures !Antecedent(s.emitted, j, k, c, v) {
        if Antecedent(s.emitted, j, k, c, v) {
          AntecedentIsTold(s, j, k, c, v);
        }
      }
    }
  }

  /**
   Either mode, at any point: A3 fires exactly when an emitted operation read a value none of whose writers
   has told yet.  Such a value does have a writer, and each of them is in flight, between its commit and its
   record.
   */
  lemma {:induction false} A3FiresExactlyWhileSourcesFly(validateNoWrite: bool, acts: seq<Action>)
    ensures var s := Run(validateNoWrite, acts); A3In(s.emitted) <==> exists j: nat, c: Cell :: Unsourced(s, j, c)
    ensures var s := Run(validateNoWrite, acts);
            forall j: nat, c: Cell :: Unsourced(s, j, c) ==>
              && (exists t: Time ::
                    t <= s.emitted[j].readTime && WroteValue(s.history, t, c, s.emitted[j].readValues[c]))
              && (forall t: Time ::
                    t <= s.emitted[j].readTime && WroteValue(s.history, t, c, s.emitted[j].readValues[c])
                    ==> exists a: Agent :: InFlightOwns(s.history, s.phases, a, t))
  {
    var s := Run(validateNoWrite, acts);
    RunKeeps(validateNoWrite, acts);
    forall j: nat, c: Cell | j < |s.emitted| ensures A3At(s.emitted, j, c) <==> Unsourced(s, j, c) {
      A3IffUnsourced(s, j, c);
    }
    forall j: nat, c: Cell | Unsourced(s, j, c)
      ensures exists t: Time :: t <= s.emitted[j].readTime && WroteValue(s.history, t, c, s.emitted[j].readValues[c])
      ensures forall t: Time ::
                t <= s.emitted[j].readTime && WroteValue(s.history, t, c, s.emitted[j].readValues[c])
                ==> exists a: Agent :: InFlightOwns(s.history, s.phases, a, t)
    {
      SourcesFly(s, j, c);
    }
  }

  lemma SourcesFly(s: Sys, j: nat, c: Cell)
    requires SysInv(s) && Unsourced(s, j, c)
    ensures exists t: Time :: t <= s.emitted[j].readTime && WroteValue(s.history, t, c, s.emitted[j].readValues[c])
    ensures forall t: Time ::
              t <= s.emitted[j].readTime && WroteValue(s.history, t, c, s.emitted[j].readValues[c])
              ==> exists a: Agent :: InFlightOwns(s.history, s.phases, a, t)
  {
    var r := s.emitted[j];
    assert RecordGood(s.validateNoWrite, s.history, r);
    assert StoreSnapshot(r.readValues, r.readTime).values[c] == ValueAt(s.history, r.readTime, c);
    var source := ValueHasSource(s.history, r.readTime, c);
    assert WroteValue(s.history, source, c, r.readValues[c]);
    forall t: Time | t <= r.readTime && WroteValue(s.history, t, c, r.readValues[c])
      ensures exists a: Agent :: InFlightOwns(s.history, s.phases, a, t)
    {
      LastWriteIsSome(s.history[t - 1], c);
      assert WroteAt(s.history, t, c) && !ToldAt(s.emitted, t, c);
      assert Accounted(s.history, s.phases, s.emitted, t);
      OwnedIsTold(s, t, c);
    }
  }

  lemma OwnedIsTold(s: Sys, t: Time, c: Cell)
    requires WroteAt(s.history, t, c)
    ensures OwnedIn(s.history, s.emitted, t) ==> ToldAt(s.emitted, t, c)
  {
    if OwnedIn(s.history, s.emitted, t) {
      var k: nat :| k < |s.emitted| && Owns(s.history, s.emitted[k], t);
      assert c in s.emitted[k].writeSet;
    }
  }

  /** An idle agent's begin is always admitted, and reads the serial replay at the current time. */
  lemma {:induction false} BeginsReadNow(validateNoWrite: bool, acts: seq<Action>, a: Agent, cells: seq<Cell>,
                                         planned: Option<Tool>, visible: seq<Tool>)
    requires PhaseOf(Run(validateNoWrite, acts).phases, a).Idle?
    ensures var s := Run(validateNoWrite, acts);
            var s' := Step(s, Begin(a, cells, planned, visible));
            && PhaseOf(s'.phases, a).Pending? && s'.store == s.store
            && PhaseOf(s'.phases, a).op.snapshot.readTime == |s.history|
            && SnapshotTrue(s.history, PhaseOf(s'.phases, a).op.snapshot, cells)
  {
    RunKeeps(validateNoWrite, acts);
    RunKeeps(validateNoWrite, acts + [Begin(a, cells, planned, visible)]);
    var after := acts + [Begin(a, cells, planned, visible)];
    assert after[..|acts|] == acts;
    assert PhaseTrue(Run(validateNoWrite, after), a);
  }

  /** Strictly between its read and its write, another value was committed over something `r` read. */
  ghost predicate ReadOverwritten(history: History, r: OpRecord, c: Cell, t: Time) {
    && c in r.readSet && c in r.readValues && r.readTime < t < r.writeTime && WroteAt(history, t, c)
    && LastWrite(history[t - 1], c) != Some(r.readValues[c])
  }

  ghost predicate StaleBypass(s: Sys, k: nat) {
    && k < |s.emitted| && Bypassed(s.validateNoWrite, s.emitted[k])
    && exists c: Cell, t: Time :: ReadOverwritten(s.history, s.emitted[k], c, t)
  }

  /**
   End to end in the default mode: A3 and A6 stay silent, and A1 fires if and only if some commit that
   bypassed validation was already stale: another value had been committed over one it had read.
   */
  lemma {:induction false} DefaultStoreShowsExactlyStaleBypasses(acts: seq<Action>)
    requires AllEmitted(Run(false, acts))
    ensures !A3In(Run(false, acts).emitted) && !A6In(Run(false, acts).emitted)
    ensures A1In(Run(false, acts).emitted) <==> exists k: nat :: StaleBypass(Run(false, acts), k)
  {
    var s := Run(false, acts);
    RunKeeps(false, acts);
    NoA3AndNoA6(s);
    if k: nat :| StaleBypass(s, k) {
      var c: Cell, t: Time :| ReadOverwritten(s.history, s.emitted[k], c, t);
      StaleBypassIsA1(s, k, c, t);
    }
    if A1In(s.emitted) {
      var i: nat, j: nat, c: Cell :| i < |s.emitted| && j < |s.emitted| && A1At(s.emitted, i, j, c);
      A1IsStaleBypass(s, i, j, c);
    }
  }

  lemma StaleBypassIsA1(s: Sys, k: nat, c: Cell, t: Time)
    requires SysInv(s) && AllEmitted(s) && k < |s.emitted| && ReadOverwritten(s.history, s.emitted[k], c, t)
    ensures A1In(s.emitted)
  {
    LedgerIsComplete(s);
    OverwriterMakesA1(s.history, s.emitted, k, c, t);
  }

  lemma OverwriterMakesA1(history: History, records: seq<OpRecord>, k: nat, c: Cell, t: Time)
    requires k < |records| && ReadOverwritten(history, records[k], c, t) && OwnedIn(history, records, t)
    ensures A1In(records)
  {
    var j: nat :| j < |records| && Owns(history, records[j], t);
    assert c in records[j].writeSet;
    assert A1At(records, k, j, c);
  }

  lemma A1IsStaleBypass(s: Sys, i: nat, j: nat, c: Cell)
    requires SysInv(s) && i < |s.emitted| && j < |s.emitted| && A1At(s.emitted, i, j, c)
    ensures StaleBypass(s, i)
  {
    assert RecordGood(s.validateNoWrite, s.history, s.emitted[i])
           && RecordGood(s.validateNoWrite, s.history, s.emitted[j]);
    A1IsOverwrite(s.history, s.emitted, i, j, c);
  }

  lemma A1IsOverwrite(history: History, records: seq<OpRecord>, i: nat, j: nat, c: Cell)
    requires i < |records| && j < |records| && A1At(records, i, j, c)
    requires RecordTrue(history, records[i]) && RecordTrue(history, records[j])
    ensures !RecordFresh(history, records[i]) && ReadOverwritten(history, records[i], c, records[j].writeTime)
  {
    WindowIsTouched(history, records, i, j, c);
  }

  /** Where an operation stands in the serial order: its commit, or its read time if it bypassed validation. */
  function PlaceOf(validateNoWrite: bool, r: OpRecord): Time {
    if Bypassed(validateNoWrite, r) then r.readTime else if r.writeTime == 0 then 0 else r.writeTime - 1
  }

  /**
   Serializability in both modes: every emitted operation read exactly what serial replay leaves at its
   place, its writes are what that replay applies next, and the place lies inside the operation's own
   interval, from its read to its write.
   */
  lemma {:induction false} EmittedOpsAreSerial(validateNoWrite: bool, acts: seq<Action>, k: nat)
    requires k < |Run(validateNoWrite, acts).emitted|
    ensures var s := Run(validateNoWrite, acts);
            var r := s.emitted[k];
            && r.readTime <= PlaceOf(validateNoWrite, r) <= r.writeTime <= |s.history|
            && (forall c: Cell :: c in r.readSet ==>
                  c in r.readValues && r.readValues[c] == ValueAt(s.history, PlaceOf(validateNoWrite, r), c))
            && (!Bypassed(validateNoWrite, r) ==>
               WritesTrue(s.history, r) && r.writeTime == PlaceOf(validateNoWrite, r) + 1)
  {
    var s := Run(validateNoWrite, acts);
    RunKeeps(validateNoWrite, acts);
    var r := s.emitted[k];
    assert RecordGood(validateNoWrite, s.history, r);
    if Bypassed(validateNoWrite, r) {
      forall c: Cell | c in r.readSet ensures r.readValues[c] == ValueAt(s.history, r.readTime, c) {
        assert StoreSnapshot(r.readValues, r.readTime).values[c] == ValueAt(s.history, r.readTime, c);
      }
    } else {
      FreshReadsReplay(s.history, r);
    }
  }

  /** So the serial order is strict: an operation that ended before another read comes before it. */
  lemma {:induction false} SerialOrderKeepsRealTime(validateNoWrite: bool, acts: seq<Action>, i: nat, j: nat)
    requires i < |Run(validateNoWrite, acts).emitted| && j < |Run(validateNoWrite, acts).emitted|
    requires Run(validateNoWrite, acts).emitted[i].writeTime <= Run(validateNoWrite, acts).emitted[j].readTime
    ensures var first, second := Run(validateNoWrite, acts).emitted[i], Run(validateNoWrite, acts).emitted[j];
            && PlaceOf(validateNoWrite, first) <= PlaceOf(validateNoWrite, second)
            && (!Bypassed(validateNoWrite, first) ==>
               PlaceOf(validateNoWrite, first) < PlaceOf(validateNoWrite, second))
  {
    EmittedOpsAreSerial(validateNoWrite, acts, i);
    EmittedOpsAreSerial(validateNoWrite, acts, j);
  }

  /**
   Refusals are exact: a pending operation commits if and only if it writes nothing in the mode that lets such
   commits through, or the clock has room and nothing it read has been written since.  A refusal changes
   neither the store nor the history.
   */
  lemma {:induction false} PendingCommitsIffFresh(validateNoWrite: bool, acts: seq<Action>, a: Agent, writes: Writes,
                                                 toolUsed: Option<Tool>)
    requires PhaseOf(Run(validateNoWrite, acts).phases, a).Pending?
    ensures var s := Run(validateNoWrite, acts);
            var op := PhaseOf(s.phases, a).op;
            var s' := Step(s, Commit(a, writes, toolUsed));
            && (PhaseOf(s'.phases, a).InFlight? || (PhaseOf(s'.phases, a) == BackingOut && s'.store == s.store))
            && s'.emitted == s.emitted
            && (PhaseOf(s'.phases, a).InFlight?
                <==> (writes == [] && !validateNoWrite)
                     || (s.store.clock < MAX_U64
                         && forall c: Cell :: c in op.readSet ==>
                            Untouched(s.history, op.snapshot.readTime, s.store.clock, c)))
  {
    RunKeeps(validateNoWrite, acts);
    var s := Run(validateNoWrite, acts);
    AcceptedIffUntouched(s, a, PhaseOf(s.phases, a).op);
    if writes != [] {
      assert writes[|writes| - 1].0 in LastWrites(writes);
    }
  }

  lemma AcceptedIffUntouched(s: Sys, a: Agent, op: PendingOp)
    requires SysInv(s) && PhaseOf(s.phases, a) == Pending(op)
    ensures M.CommitAccepted(s.store, CoreSnapshot(a, op.snapshot)) <==>
              && s.store.clock < MAX_U64
              && forall c: Cell :: c in op.readSet ==> Untouched(s.history, op.snapshot.readTime, s.store.clock, c)
  {
    assert PhaseTrue(s, a);
    var cells := CoreSnapshot(a, op.snapshot).readCells;
    M.FreshIffUntouched(s.store, s.history, cells, op.snapshot.readTime);
    assert forall c: Cell :: c in cells <==> c in op.readSet;
  }

  /** The action moved time: a tick, or a commit that was accepted. */
  ghost predicate Advances(before: Sys, after: Sys, act: Action) {
    match act
    case Tick => true
    case Commit(a, _, _) => PhaseOf(before.phases, a).Pending? && PhaseOf(after.phases, a).InFlight?
    case _ => false
  }

  ghost function Advanced(validateNoWrite: bool, acts: seq<Action>): nat {
    if acts == [] then 0
    else
      var front := acts[..|acts| - 1];
      var moved := Advances(Run(validateNoWrite, front), Run(validateNoWrite, acts), acts[|acts| - 1]);
      Advanced(validateNoWrite, front) + if moved then 1 else 0
  }

  lemma StepAdvances(s: Sys, act: Action)
    ensures Step(s, act).store.clock
            == s.store.clock + if Advances(s, Step(s, act), act) && s.store.clock < MAX_U64 then 1 else 0
  {
  }

  /** The clock counts exactly the accepted commits and the ticks, up to its ceiling. */
  lemma {:induction false} ClockCountsCommits(validateNoWrite: bool, acts: seq<Action>)
    ensures var n := Advanced(validateNoWrite, acts);
            Run(validateNoWrite, acts).store.clock == if n <= MAX_U64 then n else MAX_U64
  {
    if acts != [] {
      ClockCountsCommits(validateNoWrite, acts[..|acts| - 1]);
      StepAdvances(Run(validateNoWrite, acts[..|acts| - 1]), acts[|acts| - 1]);
    }
  }
}
