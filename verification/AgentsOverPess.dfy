/**
 Agents over the pessimistic store, under every interleaving of their steps.  An agent releases its
 holds only after its record is out, so the emitted history is clean at every point, not only when
 nobody is in between.
 */
module AgentsOverPess {
  import opened Common
  import opened Versions
  import opened StoreApi
  import opened Detectors
  import opened AgentModel
  import opened AgentLedger
  import M = PessModel
  import PessStore

  datatype Sys = Sys(
    store: M.Store,
    history: History,
    phases: map<Agent, Phase>,
    emitted: seq<OpRecord>)

  const START := Sys(M.EMPTY, [], map[], [])

  // ----------------------------------------------------------------- steps

  /** A conflict at begin still leaves an operation behind, which its commit then drops. */
  function BeginStep(s: Sys, a: Agent, cells: seq<Cell>, planned: Option<Tool>, visible: seq<Tool>): Sys {
    if PhaseOf(s.phases, a) != Idle then s
    else if !M.BeginAccepted(s.store, a, cells) then s.(phases := s.phases[a := RefusedAtBegin])
    else s.(store := M.Begin(s.store, a, cells),
            phases := s.phases[a := Pending(PendingOp(PessStore.SnapshotOf(s.store, cells), cells, planned, visible))])
  }

  ghost function CommitPending(s: Sys, a: Agent, op: PendingOp, writes: Writes, toolUsed: Option<Tool>): Sys {
    if PessStore.AdapterAccepts(s.store, a, op.snapshot, LastWrites(writes))
    then s.(store := PessStore.AdapterCommit(s.store, a, op.snapshot, LastWrites(writes)),
            history := s.history + [PairsOf(LastWrites(writes))],
            phases := s.phases[a := InFlight(RecordFor(a, op, writes, s.store.clock + 1, toolUsed))])
    else s.(phases := s.phases[a := BackingOut])
  }

  ghost function CommitStep(s: Sys, a: Agent, writes: Writes, toolUsed: Option<Tool>): Sys {
    match PhaseOf(s.phases, a)
    case Pending(op) => CommitPending(s, a, op, writes, toolUsed)
    case RefusedAtBegin => s.(phases := s.phases[a := Idle])
    case _ => s
  }

  function EmitStep(s: Sys, a: Agent): Sys {
    match PhaseOf(s.phases, a)
    case InFlight(r) =>
      s.(phases := s.phases[a := Emitted], emitted := s.emitted + [r])
    case _ => s
  }

  predicate AwaitsRelease(p: Phase) {
    p == Emitted || p == BackingOut
  }

  function ReleaseStep(s: Sys, a: Agent): Sys {
    if AwaitsRelease(PhaseOf(s.phases, a))
    then s.(store := M.Release(s.store, a), phases := s.phases[a := Idle])
    else s
  }

  function TickStep(s: Sys): Sys {
    s.(store := M.Tick(s.store), history := Ticked(s.store.clock, s.history))
  }

  ghost function Step(s: Sys, act: Action): Sys {
    match act
    case Begin(a, cells, planned, visible) => BeginStep(s, a, cells, planned, visible)
    case Commit(a, writes, toolUsed) => CommitStep(s, a, writes, toolUsed)
    case Emit(a) => EmitStep(s, a)
    case Release(a) => ReleaseStep(s, a)
    case Tick => TickStep(s)
  }

  ghost function Run(acts: seq<Action>): Sys {
    if acts == [] then START else Step(Run(acts[..|acts| - 1]), acts[|acts| - 1])
  }

  // ------------------------------------------------------------- invariant

  /** `a` has held the cell since time `t`, nobody has written it since, and its past is in the ledger. */
  ghost predicate Secured(holds: seq<M.Hold>, history: History, emitted: seq<OpRecord>, a: Agent, t: Time, c: Cell) {
    && M.HeldBySince(holds, a, c, t)
    && Untouched(history, t, |history|, c)
    && forall w: Time :: WroteAt(history, w, c) ==> OwnedIn(history, emitted, w)
  }

  ghost predicate RecordGood(history: History, emitted: seq<OpRecord>, r: OpRecord) {
    RecordTrue(history, r) && RecordFresh(history, r) && SourcesEmitted(history, emitted, r)
  }

  ghost predicate PhaseTrue(holds: seq<M.Hold>, history: History, emitted: seq<OpRecord>, a: Agent, p: Phase) {
    match p
    case Pending(op) =>
      && SnapshotTrue(history, op.snapshot, op.readSet)
      && forall c: Cell :: c in op.readSet ==> Secured(holds, history, emitted, a, op.snapshot.readTime, c)
    case InFlight(r) =>
      && RecordGood(history, emitted, r)
      && forall c: Cell :: c in r.writeSet ==> M.HeldBySince(holds, a, c, |history|)
    case _ => true
  }

  ghost predicate PhasesTrue(s: Sys) {
    forall a: Agent :: PhaseTrue(s.store.holds, s.history, s.emitted, a, PhaseOf(s.phases, a))
  }

  ghost predicate EmittedTrue(s: Sys) {
    forall k: nat :: k < |s.emitted| ==> RecordGood(s.history, s.emitted, s.emitted[k])
  }

  /** Phases in which an agent may hold cells. */
  predicate MayHold(p: Phase) {
    p.Pending? || p.InFlight? || AwaitsRelease(p)
  }

  ghost predicate NoLeaks(holds: seq<M.Hold>, phases: map<Agent, Phase>) {
    forall i :: 0 <= i < |holds| ==> MayHold(PhaseOf(phases, holds[i].agent))
  }

  ghost predicate SysInv(s: Sys) {
    && M.Inv(s.store, s.history)
    && PhasesTrue(s)
    && EmittedTrue(s)
    && AllAccounted(s.history, s.phases, s.emitted)
    && NoLeaks(s.store.holds, s.phases)
  }

  // ----------------------------------------------------- what growth preserves

  /** Every hold of `a` in the first table is in the second. */
  ghost predicate KeepsHolds(holds: seq<M.Hold>, after: seq<M.Hold>, a: Agent) {
    forall c: Cell, t: Time :: M.HeldBySince(holds, a, c, t) ==> M.HeldBySince(after, a, c, t)
  }

  lemma SourcesKept(history: History, more: History, emitted: seq<OpRecord>, r: OpRecord)
    requires |history| <= |more| && more[..|history|] == history
    requires r.readTime <= |history| && SourcesEmitted(history, emitted, r)
    ensures SourcesEmitted(more, emitted, r)
  {
    forall c: Cell, t: Time | c in r.readSet && t <= r.readTime && WroteAt(more, t, c)
      ensures OwnedIn(more, emitted, t)
    {
      WroteAtPrefix(history, more, t, c);
      OwnedInPrefix(history, more, emitted, t);
    }
  }

  lemma RecordGoodKept(history: History, more: History, emitted: seq<OpRecord>, r: OpRecord)
    requires |history| <= |more| && more[..|history|] == history && RecordGood(history, emitted, r)
    ensures RecordGood(more, emitted, r)
  {
    RecordTruePrefix(history, more, r);
    RecordFreshPrefix(history, more, r);
    SourcesKept(history, more, emitted, r);
  }

  lemma SecuredKept(holds: seq<M.Hold>, after: seq<M.Hold>, history: History, more: History, emitted: seq<OpRecord>,
                    a: Agent, t: Time, c: Cell)
    requires |history| <= |more| && more[..|history|] == history && t <= |history|
    requires Secured(holds, history, emitted, a, t, c) && KeepsHolds(holds, after, a)
    requires Untouched(more, |history|, |more|, c)
    ensures Secured(after, more, emitted, a, t, c)
  {
    forall w: Time | WroteAt(more, w, c) ensures w <= t && OwnedIn(more, emitted, w) {
      if w > |history| {
        assert false;
      }
      WroteAtPrefix(history, more, w, c);
      OwnedInPrefix(history, more, emitted, w);
    }
  }

  /** A longer history that leaves an agent's reads alone, and a table with its holds, keep its phase true. */
  lemma PhaseKept(holds: seq<M.Hold>, after: seq<M.Hold>, history: History, more: History, emitted: seq<OpRecord>,
                  a: Agent, p: Phase)
    requires |history| <= |more| && more[..|history|] == history
    requires PhaseTrue(holds, history, emitted, a, p)
             && (MayHold(p) ==> AwaitsRelease(p) || KeepsHolds(holds, after, a))
    requires p.Pending? ==> forall c: Cell :: c in p.op.readSet ==> Untouched(more, |history|, |more|, c)
    ensures PhaseTrue(after, more, emitted, a, p)
  {
    match p
    case Pending(op) =>
      SnapshotTruePrefix(history, more, op.snapshot, op.readSet);
      forall c: Cell | c in op.readSet ensures Secured(after, more, emitted, a, op.snapshot.readTime, c) {
        SecuredKept(holds, after, history, more, emitted, a, op.snapshot.readTime, c);
      }
    case InFlight(r) =>
      RecordGoodKept(history, more, emitted, r);
      forall c: Cell | c in r.writeSet ensures M.HeldBySince(after, a, c, |more|) {
        assert M.HeldBySince(after, a, c, |history|);
      }
    case _ =>
  }

  lemma EmittedKept(s: Sys, more: History)
    requires |s.history| <= |more| && more[..|s.history|] == s.history && EmittedTrue(s)
    ensures EmittedTrue(s.(history := more))
  {
    forall k: nat | k < |s.emitted| ensures RecordGood(more, s.emitted, s.emitted[k]) {
      RecordGoodKept(s.history, more, s.emitted, s.emitted[k]);
    }
  }

  lemma ExtendedKeepsHolds(holds: seq<M.Hold>, after: seq<M.Hold>, a: Agent)
    requires |holds| <= |after| && after[..|holds|] == holds
    ensures KeepsHolds(holds, after, a)
  {
    forall c: Cell, t: Time | M.HeldBySince(holds, a, c, t) ensures M.HeldBySince(after, a, c, t) {
      M.ExtendsKeepsHold(holds, after, a, c, t);
    }
  }

  lemma WithoutKeepsHolds(holds: seq<M.Hold>, b: Agent, a: Agent)
    requires a != b
    ensures KeepsHolds(holds, M.Without(holds, b), a)
  {
    M.WithoutIsFilter(holds, b);
    forall c: Cell, t: Time | M.HeldBySince(holds, a, c, t) ensures M.HeldBySince(M.Without(holds, b), a, c, t) {
      var i :| 0 <= i < |holds| && holds[i].cell == c && holds[i].agent == a && holds[i].since <= t;
      assert holds[i] in M.Without(holds, b);
    }
  }

  // ------------------------------------------------------- one step at a time

  lemma HolderIsNot(s: Sys, a: Agent, b: Agent, c: Cell, t: Time)
    requires M.Inv(s.store, s.history) && M.HeldBySince(s.store.holds, b, c, t) && !M.Foreign(s.store.holds, a, c)
    ensures a == b
  {
    M.ForeignIff(s.store.holds, s.store.clock, a, c);
  }

  /** What an idle agent is about to hold has its whole past in the ledger. */
  lemma FreeCellIsSettled(s: Sys, a: Agent, c: Cell)
    requires SysInv(s) && PhaseOf(s.phases, a) == Idle && !M.Foreign(s.store.holds, a, c)
    ensures forall t: Time :: WroteAt(s.history, t, c) ==> OwnedIn(s.history, s.emitted, t)
  {
    forall t: Time | WroteAt(s.history, t, c) ensures OwnedIn(s.history, s.emitted, t) {
      assert Accounted(s.history, s.phases, s.emitted, t);
      if !OwnedIn(s.history, s.emitted, t) {
        var b: Agent :| InFlightOwns(s.history, s.phases, b, t);
        assert PhaseTrue(s.store.holds, s.history, s.emitted, b, PhaseOf(s.phases, b));
        HolderIsNot(s, a, b, c, |s.history|);
        assert false;
      }
    }
  }

  lemma AdmittedPhaseIsTrue(s: Sys, a: Agent, cells: seq<Cell>, op: PendingOp)
    requires SysInv(s) && PhaseOf(s.phases, a) == Idle && M.BeginAccepted(s.store, a, cells)
    requires op.readSet == cells && op.snapshot == PessStore.SnapshotOf(s.store, cells)
    ensures PhaseTrue(M.Begin(s.store, a, cells).holds, s.history, s.emitted, a, Pending(op))
  {
    M.AcquiredIsOwned(s.store, a, cells);
    forall c: Cell ensures Latest(M.Plain(s.store.versions), c) == ValueAt(s.history, |s.history|, c) {
      LatestIsReplay(s.history, c);
    }
    forall c: Cell | c in cells
      ensures Secured(M.Begin(s.store, a, cells).holds, s.history, s.emitted, a, s.store.clock, c)
    {
      FreeCellIsSettled(s, a, c);
    }
  }

  /** The store's holds and one agent's phase change; the history and the ledger do not. */
  lemma LocalChangeKeeps(s: Sys, s': Sys, a: Agent)
    requires SysInv(s) && !PhaseOf(s.phases, a).InFlight?
    requires s' == s.(store := s'.store, phases := s.phases[a := PhaseOf(s'.phases, a)])
    requires M.Inv(s'.store, s.history) && NoLeaks(s'.store.holds, s'.phases)
    requires PhaseTrue(s'.store.holds, s.history, s.emitted, a, PhaseOf(s'.phases, a))
    requires forall b: Agent :: b != a ==> KeepsHolds(s.store.holds, s'.store.holds, b)
    ensures SysInv(s')
  {
    forall b: Agent ensures PhaseTrue(s'.store.holds, s'.history, s'.emitted, b, PhaseOf(s'.phases, b)) {
      if b != a {
        assert PhaseTrue(s.store.holds, s.history, s.emitted, b, PhaseOf(s.phases, b));
        PhaseKept(s.store.holds, s'.store.holds, s.history, s.history, s.emitted, b, PhaseOf(s.phases, b));
      }
    }
    AllAccountedKept(s.history, s.history, s.phases, s'.phases, s.emitted);
    EmittedKept(s, s.history);
  }

  lemma BeginKeeps(s: Sys, a: Agent, cells: seq<Cell>, planned: Option<Tool>, visible: seq<Tool>)
    requires SysInv(s)
    ensures SysInv(BeginStep(s, a, cells, planned, visible))
  {
    var s' := BeginStep(s, a, cells, planned, visible);
    if PhaseOf(s.phases, a) == Idle {
      M.AcquireExtends(s.store.holds, a, cells, s.store.clock);
      M.BeginKeepsInv(s.store, s.history, a, cells);
      if M.BeginAccepted(s.store, a, cells) {
        AdmittedPhaseIsTrue(s, a, cells, PendingOp(PessStore.SnapshotOf(s.store, cells), cells, planned, visible));
        AcquiredHoldsDoNotLeak(s, a, cells, s'.phases);
      }
      forall b: Agent ensures KeepsHolds(s.store.holds, s'.store.holds, b) {
        ExtendedKeepsHolds(s.store.holds, s'.store.holds, b);
      }
      LocalChangeKeeps(s, s', a);
    }
  }

  lemma AcquiredHoldsDoNotLeak(s: Sys, a: Agent, cells: seq<Cell>, phases: map<Agent, Phase>)
    requires NoLeaks(s.store.holds, s.phases) && MayHold(PhaseOf(phases, a))
    requires forall b: Agent :: b != a ==> PhaseOf(phases, b) == PhaseOf(s.phases, b)
    ensures NoLeaks(M.Acquire(s.store.holds, a, cells, s.store.clock), phases)
  {
    M.AcquireExtends(s.store.holds, a, cells, s.store.clock);
    var after := M.Acquire(s.store.holds, a, cells, s.store.clock);
    forall i | 0 <= i < |after| ensures MayHold(PhaseOf(phases, after[i].agent)) {
      if i < |s.store.holds| {
        assert after[..|s.store.holds|][i] == s.store.holds[i];
      }
    }
  }

  lemma ReleaseKeeps(s: Sys, a: Agent)
    requires SysInv(s)
    ensures SysInv(ReleaseStep(s, a))
  {
    var s' := ReleaseStep(s, a);
    if AwaitsRelease(PhaseOf(s.phases, a)) {
      M.ReleaseKeepsInv(s.store, s.history, a);
      M.WithoutIsFilter(s.store.holds, a);
      forall b: Agent | b != a ensures KeepsHolds(s.store.holds, s'.store.holds, b) {
        WithoutKeepsHolds(s.store.holds, a, b);
      }
      forall i | 0 <= i < |s'.store.holds| ensures MayHold(PhaseOf(s'.phases, s'.store.holds[i].agent)) {
        assert s'.store.holds[i] in M.Without(s.store.holds, a);
        var j :| 0 <= j < |s.store.holds| && s.store.holds[j] == s'.store.holds[i];
      }
      LocalChangeKeeps(s, s', a);
    }
  }

  lemma RecordGoodSnoc(history: History, emitted: seq<OpRecord>, next: OpRecord, r: OpRecord)
    requires RecordGood(history, emitted, r)
    ensures RecordGood(history, emitted + [next], r)
  {
    forall c: Cell, t: Time | c in r.readSet && t <= r.readTime && WroteAt(history, t, c)
      ensures OwnedIn(history, emitted + [next], t)
    {
      OwnedInSnoc(history, emitted, next, t);
    }
  }

  lemma PhaseSnoc(holds: seq<M.Hold>, history: History, emitted: seq<OpRecord>, next: OpRecord, a: Agent, p: Phase)
    requires PhaseTrue(holds, history, emitted, a, p)
    ensures PhaseTrue(holds, history, emitted + [next], a, p)
  {
    match p
    case Pending(op) =>
      forall c: Cell, w: Time | c in op.readSet && WroteAt(history, w, c)
        ensures OwnedIn(history, emitted + [next], w)
      {
        assert Secured(holds, history, emitted, a, op.snapshot.readTime, c);
        OwnedInSnoc(history, emitted, next, w);
      }
    case InFlight(r) => RecordGoodSnoc(history, emitted, next, r);
    case _ =>
  }

  lemma EmitKeeps(s: Sys, a: Agent)
    requires SysInv(s)
    ensures SysInv(EmitStep(s, a))
  {
    var s' := EmitStep(s, a);
    if PhaseOf(s.phases, a).InFlight? {
      var next := PhaseOf(s.phases, a).record;
      assert PhaseTrue(s.store.holds, s.history, s.emitted, a, PhaseOf(s.phases, a));
      forall b: Agent ensures PhaseTrue(s'.store.holds, s'.history, s'.emitted, b, PhaseOf(s'.phases, b)) {
        if b != a {
          PhaseSnoc(s.store.holds, s.history, s.emitted, next, b, PhaseOf(s.phases, b));
        }
      }
      forall k: nat | k < |s'.emitted| ensures RecordGood(s'.history, s'.emitted, s'.emitted[k]) {
        RecordGoodSnoc(s.history, s.emitted, next, s'.emitted[k]);
      }
      EmitKeepsAccounts(s.history, s.phases, s.emitted, a);
    }
  }

  /** A tick writes nothing, so whatever an agent has read stays untouched. */
  lemma TickKeepsPhase(s: Sys, b: Agent)
    requires PhasesTrue(s)
    ensures PhaseTrue(s.store.holds, Ticked(s.store.clock, s.history), s.emitted, b, PhaseOf(s.phases, b))
  {
    assert PhaseTrue(s.store.holds, s.history, s.emitted, b, PhaseOf(s.phases, b));
    TickWritesNothing(s.store.clock, s.history);
    PhaseKept(s.store.holds, s.store.holds, s.history, Ticked(s.store.clock, s.history), s.emitted, b,
              PhaseOf(s.phases, b));
  }

  lemma TickKeeps(s: Sys)
    requires SysInv(s)
    ensures SysInv(TickStep(s))
  {
    var more := Ticked(s.store.clock, s.history);
    M.TickKeepsInv(s.store, s.history);
    forall b: Agent ensures PhaseTrue(s.store.holds, more, s.emitted, b, PhaseOf(s.phases, b)) {
      TickKeepsPhase(s, b);
    }
    TickWritesNothing(s.store.clock, s.history);
    EmittedKept(s, more);
    AllAccountedKept(s.history, more, s.phases, s.phases, s.emitted);
  }

  // ---------------------------------------------------------------- commits

  lemma PairsCells(writes: map<Cell, Val>, c: Cell)
    ensures c in writes <==> c in CellsOf(PairsOf(writes))
  {
    PairsLastWrite(writes, c);
    LastWriteIsSome(PairsOf(writes), c);
    if c in writes {
      var i :| 0 <= i < |PairsOf(writes)| && PairsOf(writes)[i].0 == c;
      assert CellsOf(PairsOf(writes))[i] == c;
    }
    if c in CellsOf(PairsOf(writes)) {
      var i :| 0 <= i < |PairsOf(writes)| && CellsOf(PairsOf(writes))[i] == c;
      assert PairsOf(writes)[i].0 == c;
    }
  }

  /** What is written now is held by nobody else. */
  lemma WrittenIsNotForeign(s: Sys, a: Agent, op: PendingOp, writes: map<Cell, Val>, c: Cell)
    requires PessStore.AdapterAccepts(s.store, a, op.snapshot, writes) && c in writes
    ensures !M.Foreign(s.store.holds, a, c)
  {
    PairsCells(writes, c);
    var i :| 0 <= i < |PairsOf(writes)| && CellsOf(PairsOf(writes))[i] == c;
    assert PairsOf(writes)[i].0 == c;
  }

  /** The phase of an operation that has just committed: its record is good and its writes are held. */
  lemma FlightPhaseIsTrue(s: Sys, a: Agent, op: PendingOp, writes: map<Cell, Val>, r: OpRecord)
    requires SysInv(s) && PhaseOf(s.phases, a) == Pending(op)
             && PessStore.AdapterAccepts(s.store, a, op.snapshot, writes)
    requires Launches(s.history, op, writes, r)
    ensures PhaseTrue(PessStore.AdapterCommit(s.store, a, op.snapshot, writes).holds, s.history + [PairsOf(writes)],
                      s.emitted, a, InFlight(r))
  {
    assert PhaseTrue(s.store.holds, s.history, s.emitted, a, Pending(op));
    FlightRecordIsGood(s, a, op, writes, r);
    WritesAreHeld(s, a, op, writes);
  }

  lemma FlightRecordIsGood(s: Sys, a: Agent, op: PendingOp, writes: map<Cell, Val>, r: OpRecord)
    requires PhaseTrue(s.store.holds, s.history, s.emitted, a, Pending(op))
    requires r.readSet == op.readSet && r.readTime == op.snapshot.readTime
    requires Owns(s.history + [PairsOf(writes)], r, |s.history| + 1)
    ensures RecordGood(s.history + [PairsOf(writes)], s.emitted, r)
  {
    var more := s.history + [PairsOf(writes)];
    forall c: Cell | c in op.readSet ensures Untouched(more, r.readTime, |s.history|, c) {
      assert Secured(s.store.holds, s.history, s.emitted, a, r.readTime, c);
      UntouchedPrefix(s.history, more, r.readTime, |s.history|, c);
    }
    forall c: Cell, t: Time | c in op.readSet && t <= r.readTime && WroteAt(more, t, c)
      ensures OwnedIn(more, s.emitted, t)
    {
      assert Secured(s.store.holds, s.history, s.emitted, a, r.readTime, c);
      WroteAtPrefix(s.history, more, t, c);
      OwnedInPrefix(s.history, more, s.emitted, t);
    }
  }

  lemma WritesAreHeld(s: Sys, a: Agent, op: PendingOp, writes: map<Cell, Val>)
    requires M.Inv(s.store, s.history) && PessStore.AdapterAccepts(s.store, a, op.snapshot, writes)
    ensures forall c: Cell :: c in writes ==>
              M.HeldBySince(PessStore.AdapterCommit(s.store, a, op.snapshot, writes).holds, a, c, s.store.clock + 1)
  {
    var cells := CellsOf(PairsOf(writes));
    M.AcquiredIsOwned(s.store, a, cells);
    forall c: Cell | c in writes
      ensures M.HeldBySince(PessStore.AdapterCommit(s.store, a, op.snapshot, writes).holds, a, c, s.store.clock + 1)
    {
      PairsCells(writes, c);
      assert M.HeldBySince(M.Acquire(s.store.holds, a, cells, s.store.clock), a, c, s.store.clock);
    }
  }

  /** Another agent's phase survives: what it read is held, so it was not written. */
  lemma OthersKept(s: Sys, a: Agent, op: PendingOp, writes: map<Cell, Val>, b: Agent)
    requires SysInv(s) && b != a && PessStore.AdapterAccepts(s.store, a, op.snapshot, writes)
    ensures PhaseTrue(PessStore.AdapterCommit(s.store, a, op.snapshot, writes).holds, s.history + [PairsOf(writes)],
                      s.emitted, b, PhaseOf(s.phases, b))
  {
    var more, p := s.history + [PairsOf(writes)], PhaseOf(s.phases, b);
    var after := PessStore.AdapterCommit(s.store, a, op.snapshot, writes).holds;
    assert PhaseTrue(s.store.holds, s.history, s.emitted, b, p);
    M.AcquireExtends(s.store.holds, a, CellsOf(PairsOf(writes)), s.store.clock);
    ExtendedKeepsHolds(s.store.holds, after, b);
    if p.Pending? {
      forall c: Cell | c in p.op.readSet ensures Untouched(more, |s.history|, |more|, c) {
        AddedWrites(s.history, writes, c);
        if c in writes {
          WrittenIsNotForeign(s, a, op, writes, c);
          HolderIsNot(s, a, b, c, p.op.snapshot.readTime);
        }
      }
    }
    PhaseKept(s.store.holds, after, s.history, more, s.emitted, b, p);
  }

  /** The commit of an accepted operation, its record in flight. */
  lemma LaunchKeeps(s: Sys, s': Sys, a: Agent, op: PendingOp, writes: map<Cell, Val>, r: OpRecord)
    requires SysInv(s) && PhaseOf(s.phases, a) == Pending(op)
             && PessStore.AdapterAccepts(s.store, a, op.snapshot, writes)
    requires Launches(s.history, op, writes, r)
    requires s' == s.(store := PessStore.AdapterCommit(s.store, a, op.snapshot, writes),
                      history := s.history + [PairsOf(writes)], phases := s.phases[a := InFlight(r)])
    requires M.Inv(s'.store, s'.history)
    ensures SysInv(s')
  {
    FlightPhaseIsTrue(s, a, op, writes, r);
    forall b: Agent ensures PhaseTrue(s'.store.holds, s'.history, s'.emitted, b, PhaseOf(s'.phases, b)) {
      if b != a {
        OthersKept(s, a, op, writes, b);
      }
    }
    EmittedKept(s, s'.history);
    AcquiredHoldsDoNotLeak(s, a, CellsOf(PairsOf(writes)), s'.phases);
    assert InFlightOwns(s'.history, s'.phases, a, |s.history| + 1);
    AllAccountedKept(s.history, s'.history, s.phases, s'.phases, s.emitted);
  }

  lemma PendingIsTrue(s: Sys, a: Agent, op: PendingOp)
    requires SysInv(s) && PhaseOf(s.phases, a) == Pending(op)
    ensures SnapshotTrue(s.history, op.snapshot, op.readSet) && s.store.clock == |s.history|
  {
    assert PhaseTrue(s.store.holds, s.history, s.emitted, a, Pending(op));
  }

  lemma AcceptedCommitKeeps(s: Sys, a: Agent, op: PendingOp, writes: Writes, toolUsed: Option<Tool>)
    requires SysInv(s) && PhaseOf(s.phases, a) == Pending(op)
    requires PessStore.AdapterAccepts(s.store, a, op.snapshot, LastWrites(writes))
    ensures SysInv(CommitPending(s, a, op, writes, toolUsed))
  {
    PendingIsTrue(s, a, op);
    M.CommitKeepsInv(s.store, s.history, CoreSnapshot(a, op.snapshot), PairsOf(LastWrites(writes)));
    RecordLaunches(s.history, a, op, writes, toolUsed);
    LaunchKeeps(s, CommitPending(s, a, op, writes, toolUsed), a, op, LastWrites(writes),
                RecordFor(a, op, writes, |s.history| + 1, toolUsed));
  }

  lemma CommitKeeps(s: Sys, a: Agent, writes: Writes, toolUsed: Option<Tool>)
    requires SysInv(s)
    ensures SysInv(CommitStep(s, a, writes, toolUsed))
  {
    var s' := CommitStep(s, a, writes, toolUsed);
    match PhaseOf(s.phases, a)
    case Pending(op) =>
      if PessStore.AdapterAccepts(s.store, a, op.snapshot, LastWrites(writes)) {
        AcceptedCommitKeeps(s, a, op, writes, toolUsed);
      } else {
        SameHoldsKeep(s, s', a);
      }
    case RefusedAtBegin => SameHoldsKeep(s, s', a);
    case _ =>
  }

  lemma SameHoldsKeep(s: Sys, s': Sys, a: Agent)
    requires SysInv(s) && s' == s.(phases := s.phases[a := PhaseOf(s'.phases, a)])
    requires (PhaseOf(s.phases, a) == RefusedAtBegin && PhaseOf(s'.phases, a) == Idle)
             || (PhaseOf(s.phases, a).Pending? && PhaseOf(s'.phases, a) == BackingOut)
    ensures SysInv(s')
  {
    forall b: Agent ensures KeepsHolds(s.store.holds, s'.store.holds, b) {
      ExtendedKeepsHolds(s.store.holds, s.store.holds, b);
    }
    LocalChangeKeeps(s, s', a);
  }

  lemma {:induction false} StepKeeps(s: Sys, act: Action)
    requires SysInv(s)
    ensures SysInv(Step(s, act))
  {
    match act
    case Begin(a, cells, planned, visible) => BeginKeeps(s, a, cells, planned, visible);
    case Commit(a, writes, toolUsed) => CommitKeeps(s, a, writes, toolUsed);
    case Emit(a) => EmitKeeps(s, a);
    case Release(a) => ReleaseKeeps(s, a);
    case Tick => TickKeeps(s);
  }

  lemma {:induction false} RunKeeps(acts: seq<Action>)
    ensures SysInv(Run(acts))
  {
    if acts == [] {
      assert !exists t: Time, c: Cell :: WroteAt([], t, c);
    } else {
      RunKeeps(acts[..|acts| - 1]);
      StepKeeps(Run(acts[..|acts| - 1]), acts[|acts| - 1]);
    }
  }

  // ------------------------------------------------------------ the ledger

  /** What the calls of a run asked for. */
  ghost function LedgerOf(acts: seq<Action>): Ledger {
    if acts == [] then NOTHING_ASKED
    else
      var before := acts[..|acts| - 1];
      Noted(LedgerOf(before), Run(before).phases, Run(acts).phases, acts[|acts| - 1])
  }

  lemma StepMoves(s: Sys, act: Action)
    ensures Moves(s.phases, Step(s, act).phases, s.emitted, Step(s, act).emitted, act)
  {
    if act.Begin? && PhaseOf(s.phases, act.agent) == Idle && M.BeginAccepted(s.store, act.agent, act.cells) {
      var snapshot := PessStore.SnapshotOf(s.store, act.cells);
      assert Step(s, act).phases == s.phases[act.agent :=
        Pending(PendingOp(snapshot, act.cells, act.planned, act.visible))];
    }
  }

  /** Every emitted record says of its operation exactly what its own begin and commit passed. */
  lemma {:induction false} RecordsTellTheirCalls(acts: seq<Action>)
    ensures LedgerTells(LedgerOf(acts), Run(acts).phases, Run(acts).emitted)
  {
    if acts != [] {
      var before, act := acts[..|acts| - 1], acts[|acts| - 1];
      var s := Run(before);
      RecordsTellTheirCalls(before);
      StepMoves(s, act);
      MoveKeepsLedger(LedgerOf(before), s.phases, Step(s, act).phases, s.emitted, Step(s, act).emitted, act);
    }
  }

  // ------------------------------------------------------------- end to end

  /**
   End to end: at every point of every interleaving the emitted history reaches level 3, and level 4
   exactly when no operation that is out was given a visible plan by its begin and named another tool at
   its commit.
   */
  lemma {:induction false} PessimisticStoreReachesLevel3(acts: seq<Action>)
    ensures LevelOf(Run(acts).emitted) >= 3
    ensures LevelOf(Run(acts).emitted) == 4 <==> !SomeOverride(LedgerOf(acts).told)
  {
    var s := Run(acts);
    RunKeeps(acts);
    forall j: nat | j < |s.emitted|
      ensures RecordTrue(s.history, s.emitted[j]) && RecordFresh(s.history, s.emitted[j])
      ensures SourcesEmitted(s.history, s.emitted, s.emitted[j]) && !A6At(s.emitted[j])
    {
      assert RecordGood(s.history, s.emitted, s.emitted[j]);
    }
    RecordsTellTheirCalls(acts);
    A2IffSomeOverride(s.emitted, LedgerOf(acts).told);
    SourcedHasNoA3(s.history, s.emitted);
    forall i: nat, j: nat, c: Cell | i < |s.emitted| && j < |s.emitted| ensures !A1At(s.emitted, i, j, c) {
      if A1At(s.emitted, i, j, c) {
        WindowIsTouched(s.history, s.emitted, i, j, c);
      }
    }
  }

  /**
   Every emitted operation read exactly what serial replay leaves just before its commit, which lies
   between its read and its write.
   */
  lemma {:induction false} EmittedOpsAreSerial(acts: seq<Action>, k: nat)
    requires k < |Run(acts).emitted|
    ensures var s := Run(acts);
            var r := s.emitted[k];
            && r.readTime <= r.writeTime - 1 < |s.history| && WritesTrue(s.history, r)
            && forall c: Cell :: c in r.readSet ==>
                 c in r.readValues && r.readValues[c] == ValueAt(s.history, r.writeTime - 1, c)
  {
    RunKeeps(acts);
    assert RecordGood(Run(acts).history, Run(acts).emitted, Run(acts).emitted[k]);
    FreshReadsReplay(Run(acts).history, Run(acts).emitted[k]);
  }

  /** So the serial order is strict: an operation that ended before another read comes before it. */
  lemma {:induction false} SerialOrderKeepsRealTime(acts: seq<Action>, i: nat, j: nat)
    requires i < |Run(acts).emitted| && j < |Run(acts).emitted|
    requires Run(acts).emitted[i].writeTime <= Run(acts).emitted[j].readTime
    ensures Run(acts).emitted[i].writeTime < Run(acts).emitted[j].writeTime
  {
    EmittedOpsAreSerial(acts, i);
    EmittedOpsAreSerial(acts, j);
  }

  /** No hold outlives its operation: its agent is pending, in flight, or about to release. */
  lemma {:induction false} NoHoldLeaks(acts: seq<Action>, i: nat)
    requires i < |Run(acts).store.holds|
    ensures MayHold(PhaseOf(Run(acts).phases, Run(acts).store.holds[i].agent))
  {
    RunKeeps(acts);
  }

  /** A pending operation that writes only what it read always commits while the clock has room. */
  lemma {:induction false} PendingOpsCommit(acts: seq<Action>, a: Agent, writes: Writes, toolUsed: Option<Tool>)
    requires PhaseOf(Run(acts).phases, a).Pending? && Run(acts).store.clock < MAX_U64
    requires forall c: Cell :: c in LastWrites(writes) ==> c in PhaseOf(Run(acts).phases, a).op.readSet
    ensures PhaseOf(Step(Run(acts), Commit(a, writes, toolUsed)).phases, a).InFlight?
  {
    RunKeeps(acts);
    PendingIsAccepted(Run(acts), a, PhaseOf(Run(acts).phases, a).op, LastWrites(writes));
  }

  /** Nobody else holds a cell that the list of writes names. */
  ghost predicate NobodyElseHolds(holds: seq<M.Hold>, a: Agent, writes: Writes) {
    forall i :: 0 <= i < |holds| && WritesCell(writes, holds[i].cell) ==> holds[i].agent == a
  }

  ghost predicate Holds(holds: seq<M.Hold>, a: Agent, c: Cell) {
    exists i :: 0 <= i < |holds| && holds[i].cell == c && holds[i].agent == a
  }

  /**
   Refusals are exact: a pending operation commits if and only if the clock has room and no hold on a cell
   it writes is another agent's, whether or not it read that cell.  Then it holds every cell it wrote.
   */
  lemma {:induction false} PendingCommitsIffUnheld(acts: seq<Action>, a: Agent, writes: Writes, toolUsed: Option<Tool>)
    requires PhaseOf(Run(acts).phases, a).Pending?
    ensures var s, s' := Run(acts), Step(Run(acts), Commit(a, writes, toolUsed));
            && (PhaseOf(s'.phases, a).InFlight?
                <==> s.store.clock < MAX_U64 && NobodyElseHolds(s.store.holds, a, writes))
            && (PhaseOf(s'.phases, a).InFlight? ==>
                  forall c: Cell :: WritesCell(writes, c) ==> Holds(s'.store.holds, a, c))
            && (!PhaseOf(s'.phases, a).InFlight? ==> s'.store == s.store && PhaseOf(s'.phases, a) == BackingOut)
  {
    var s, op := Run(acts), PhaseOf(Run(acts).phases, a).op;
    RunKeeps(acts);
    assert PhaseTrue(s.store.holds, s.history, s.emitted, a, Pending(op));
    AcceptedIffUnheld(s, a, op, writes);
    if PessStore.AdapterAccepts(s.store, a, op.snapshot, LastWrites(writes)) {
      WrittenAreHeld(s, a, op, writes);
    }
  }

  lemma WrittenPairs(writes: Writes, c: Cell)
    ensures WritesCell(writes, c) <==> c in CellsOf(PairsOf(LastWrites(writes)))
  {
    LastWriteIsSome(writes, c);
    PairsCells(LastWrites(writes), c);
  }

  lemma AcceptedIffUnheld(s: Sys, a: Agent, op: PendingOp, writes: Writes)
    requires M.Inv(s.store, s.history) && PhaseTrue(s.store.holds, s.history, s.emitted, a, Pending(op))
    ensures PessStore.AdapterAccepts(s.store, a, op.snapshot, LastWrites(writes))
            <==> s.store.clock < MAX_U64 && NobodyElseHolds(s.store.holds, a, writes)
  {
    var cells, pairs := Ascending(op.snapshot.values.Keys), PairsOf(LastWrites(writes));
    forall i | 0 <= i < |cells| ensures M.HeldBySince(s.store.holds, a, cells[i], op.snapshot.readTime) {
      assert cells[i] in cells;
      SecuredIsOwn(s, a, op, cells[i]);
    }
    forall i | 0 <= i < |pairs|
      ensures WritesCell(writes, pairs[i].0)
      ensures M.Foreign(s.store.holds, a, pairs[i].0)
              <==> exists k ::
                     0 <= k < |s.store.holds| && s.store.holds[k].cell == pairs[i].0 && s.store.holds[k].agent != a
    {
      assert CellsOf(pairs)[i] in CellsOf(pairs);
      WrittenPairs(writes, pairs[i].0);
      M.ForeignIff(s.store.holds, s.store.clock, a, pairs[i].0);
    }
    forall k | 0 <= k < |s.store.holds| && WritesCell(writes, s.store.holds[k].cell)
      ensures exists i :: 0 <= i < |pairs| && pairs[i].0 == s.store.holds[k].cell
    {
      WrittenPairs(writes, s.store.holds[k].cell);
      var i :| 0 <= i < |pairs| && CellsOf(pairs)[i] == s.store.holds[k].cell;
      assert pairs[i].0 == s.store.holds[k].cell;
    }
  }

  lemma WrittenAreHeld(s: Sys, a: Agent, op: PendingOp, writes: Writes)
    requires M.Inv(s.store, s.history) && PessStore.AdapterAccepts(s.store, a, op.snapshot, LastWrites(writes))
    ensures forall c: Cell :: WritesCell(writes, c) ==>
              Holds(PessStore.AdapterCommit(s.store, a, op.snapshot, LastWrites(writes)).holds, a, c)
  {
    var cells := CellsOf(PairsOf(LastWrites(writes)));
    forall i | 0 <= i < |cells| ensures !M.Foreign(s.store.holds, a, cells[i]) {
      assert cells[i] == PairsOf(LastWrites(writes))[i].0;
    }
    M.AcquiredIsOwned(s.store, a, cells);
    forall c: Cell | WritesCell(writes, c) ensures Holds(M.Acquire(s.store.holds, a, cells, s.store.clock), a, c) {
      WrittenPairs(writes, c);
      assert M.HeldBySince(M.Acquire(s.store.holds, a, cells, s.store.clock), a, c, s.store.clock);
    }
  }

  /**
   Likewise at begin: an idle agent's operation is admitted if and only if no hold on a cell it asks for is
   another agent's, and then it holds them all; otherwise the store is as it was.
   */
  lemma {:induction false} BeginsIffUnheld(acts: seq<Action>, a: Agent, cells: seq<Cell>, planned: Option<Tool>,
                                           visible: seq<Tool>)
    requires PhaseOf(Run(acts).phases, a).Idle?
    ensures var s, s' := Run(acts), Step(Run(acts), Begin(a, cells, planned, visible));
            var free := forall i ::
              0 <= i < |s.store.holds| && s.store.holds[i].cell in cells ==> s.store.holds[i].agent == a;
            && (PhaseOf(s'.phases, a).Pending? <==> free)
            && (free ==> forall c: Cell :: c in cells ==> Holds(s'.store.holds, a, c))
            && (free ==> PhaseOf(s'.phases, a).op.snapshot.readTime == |s.history|
                         && SnapshotTrue(s.history, PhaseOf(s'.phases, a).op.snapshot, cells))
            && (!free ==> s'.store == s.store && PhaseOf(s'.phases, a) == RefusedAtBegin)
  {
    var s := Run(acts);
    RunKeeps(acts);
    BeginKeeps(s, a, cells, planned, visible);
    var s' := BeginStep(s, a, cells, planned, visible);
    assert PhaseTrue(s'.store.holds, s'.history, s'.emitted, a, PhaseOf(s'.phases, a));
    forall i | 0 <= i < |cells|
      ensures M.Foreign(s.store.holds, a, cells[i])
              <==> exists k ::
                     0 <= k < |s.store.holds| && s.store.holds[k].cell == cells[i] && s.store.holds[k].agent != a
    {
      M.ForeignIff(s.store.holds, s.store.clock, a, cells[i]);
    }
    if M.BeginAccepted(s.store, a, cells) {
      M.AcquiredIsOwned(s.store, a, cells);
      forall c: Cell | c in cells ensures Holds(M.Acquire(s.store.holds, a, cells, s.store.clock), a, c) {
        assert M.HeldBySince(M.Acquire(s.store.holds, a, cells, s.store.clock), a, c, s.store.clock);
      }
    }
  }

  lemma SecuredIsOwn(s: Sys, a: Agent, op: PendingOp, c: Cell)
    requires M.Inv(s.store, s.history) && PhaseTrue(s.store.holds, s.history, s.emitted, a, Pending(op))
             && c in op.readSet
    ensures M.HeldBySince(s.store.holds, a, c, op.snapshot.readTime) && !M.Foreign(s.store.holds, a, c)
  {
    assert Secured(s.store.holds, s.history, s.emitted, a, op.snapshot.readTime, c);
    M.ForeignIff(s.store.holds, s.store.clock, a, c);
  }

  lemma PendingIsAccepted(s: Sys, a: Agent, op: PendingOp, writes: map<Cell, Val>)
    requires M.Inv(s.store, s.history) && PhaseTrue(s.store.holds, s.history, s.emitted, a, Pending(op))
    requires s.store.clock < MAX_U64 && forall c: Cell :: c in writes ==> c in op.readSet
    ensures PessStore.AdapterAccepts(s.store, a, op.snapshot, writes)
  {
    var cells, pairs := Ascending(op.snapshot.values.Keys), PairsOf(writes);
    forall i | 0 <= i < |cells| ensures M.HeldBySince(s.store.holds, a, cells[i], op.snapshot.readTime) {
      assert cells[i] in cells;
      SecuredIsOwn(s, a, op, cells[i]);
    }
    forall i | 0 <= i < |pairs| ensures !M.Foreign(s.store.holds, a, pairs[i].0) {
      assert CellsOf(pairs)[i] in CellsOf(pairs);
      PairsCells(writes, pairs[i].0);
      SecuredIsOwn(s, a, op, pairs[i].0);
    }
  }

  /** The action moved time: a tick, or a commit that was accepted. */
  ghost predicate Advances(before: Sys, after: Sys, act: Action) {
    match act
    case Tick => true
    case Commit(a, _, _) => PhaseOf(before.phases, a).Pending? && PhaseOf(after.phases, a).InFlight?
    case _ => false
  }

  ghost function Advanced(acts: seq<Action>): nat {
    if acts == [] then 0
    else
      var front := acts[..|acts| - 1];
      Advanced(front) + if Advances(Run(front), Run(acts), acts[|acts| - 1]) then 1 else 0
  }

  lemma StepAdvances(s: Sys, act: Action)
    ensures Step(s, act).store.clock
            == s.store.clock + if Advances(s, Step(s, act), act) && s.store.clock < MAX_U64 then 1 else 0
  {
  }

  /** The clock counts exactly the accepted commits and the ticks, up to its ceiling. */
  lemma {:induction false} ClockCountsCommits(acts: seq<Action>)
    ensures var n := Advanced(acts); Run(acts).store.clock == if n <= MAX_U64 then n else MAX_U64
  {
    if acts != [] {
      ClockCountsCommits(acts[..|acts| - 1]);
      StepAdvances(Run(acts[..|acts| - 1]), acts[|acts| - 1]);
    }
  }
}
