/**
 The agent layer: one pending operation per agent, the record each commit emits, and what a ledger of
 such records must satisfy for the detectors to stay silent.
 */
module AgentModel {
  import opened Common
  import opened Versions
  import opened StoreApi
  import opened Detectors

  datatype PendingOp = PendingOp(snapshot: StoreSnapshot, readSet: seq<Cell>, planned: Option<Tool>, visible: seq<Tool>)

  /**
   Where an agent stands.  `store.commit`, `emit` and `release` are separate steps, so an operation is
   `InFlight` between its commit and its record, and `Emitted` or `BackingOut` until its holds go.
   */
  datatype Phase =
    | Idle
    | RefusedAtBegin
    | Pending(op: PendingOp)
    | InFlight(record: OpRecord)
    | Emitted
    | BackingOut

  datatype Action =
    | Begin(agent: Agent, cells: seq<Cell>, planned: Option<Tool>, visible: seq<Tool>)
    | Commit(agent: Agent, writes: Writes, toolUsed: Option<Tool>)
    | Emit(agent: Agent)
    | Release(agent: Agent)
    | Tick

  function PhaseOf(phases: map<Agent, Phase>, agent: Agent): Phase {
    if agent in phases then phases[agent] else Idle
  }

  /** The tool counted as used: the one named if visible, else the planned one if none was named. */
  function UsedTools(planned: Option<Tool>, visible: seq<Tool>, toolUsed: Option<Tool>): seq<Tool> {
    if toolUsed.Some? && toolUsed.value in visible then [toolUsed.value]
    else if toolUsed.None? && planned.Some? && planned.value in visible then [planned.value]
    else []
  }

  ghost function RecordFor(agent: Agent, op: PendingOp, writes: Writes, writeTime: Time,
                           toolUsed: Option<Tool>): OpRecord {
    OpRecord(agent, op.readSet, op.snapshot.values, op.snapshot.readTime,
             Ascending(LastWrites(writes).Keys), LastWrites(writes), writeTime,
             op.planned, UsedTools(op.planned, op.visible, toolUsed), op.visible, writes, writes)
  }

  // ---------------------------------------------------------------- ledger

  /** A snapshot holds exactly the requested cells, each as serial replay leaves it at the read time. */
  ghost predicate SnapshotTrue(history: History, snapshot: StoreSnapshot, readSet: seq<Cell>) {
    && snapshot.readTime <= |history|
    && forall c: Cell :: (c in snapshot.values <==> c in readSet)
         && (c in readSet ==> snapshot.values[c] == ValueAt(history, snapshot.readTime, c))
  }

  /** The record's writes are what the history holds at its write time. */
  ghost predicate WritesTrue(history: History, r: OpRecord) {
    && r.writeTime <= |history|
    && (forall c: Cell :: c in r.writeSet <==> c in r.writeValues)
    && (forall c: Cell :: c in r.writeSet ==>
          WroteAt(history, r.writeTime, c) && LastWrite(history[r.writeTime - 1], c) == Some(r.writeValues[c]))
  }

  ghost predicate RecordTrue(history: History, r: OpRecord) {
    && SnapshotTrue(history, StoreSnapshot(r.readValues, r.readTime), r.readSet)
    && WritesTrue(history, r)
    && r.readTime <= r.writeTime
    && r.io == r.co
  }

  /** No commit landed on what the record read between its read and its write. */
  ghost predicate RecordFresh(history: History, r: OpRecord) {
    r.readTime < r.writeTime && forall c: Cell :: c in r.readSet ==> Untouched(history, r.readTime, r.writeTime - 1, c)
  }

  /** The record accounts for everything committed at time `t`. */
  ghost predicate Owns(history: History, r: OpRecord, t: Time) {
    r.writeTime == t && RecordTrue(history, r) && forall c: Cell :: WroteAt(history, t, c) ==> c in r.writeSet
  }

  ghost predicate OwnedIn(history: History, records: seq<OpRecord>, t: Time) {
    exists k: nat :: k < |records| && Owns(history, records[k], t)
  }

  /** Every commit the record could have read from has its record in the ledger. */
  ghost predicate SourcesEmitted(history: History, records: seq<OpRecord>, r: OpRecord) {
    forall c: Cell, t: Time :: c in r.readSet && t <= r.readTime && WroteAt(history, t, c) ==>
      OwnedIn(history, records, t)
  }

  ghost predicate InFlightOwns(history: History, phases: map<Agent, Phase>, a: Agent, t: Time) {
    PhaseOf(phases, a).InFlight? && Owns(history, PhaseOf(phases, a).record, t)
  }

  /** Whatever was committed at `t` has its record in the ledger or on its way there. */
  ghost predicate Accounted(history: History, phases: map<Agent, Phase>, emitted: seq<OpRecord>, t: Time) {
    OwnedIn(history, emitted, t) || exists a: Agent :: InFlightOwns(history, phases, a, t)
  }

  ghost predicate AllAccounted(history: History, phases: map<Agent, Phase>, emitted: seq<OpRecord>) {
    forall t: Time, c: Cell :: WroteAt(history, t, c) ==> Accounted(history, phases, emitted, t)
  }

  lemma SnapshotTruePrefix(history: History, more: History, snapshot: StoreSnapshot, readSet: seq<Cell>)
    requires |history| <= |more| && more[..|history|] == history && SnapshotTrue(history, snapshot, readSet)
    ensures SnapshotTrue(more, snapshot, readSet)
  {
    forall c: Cell | c in readSet ensures snapshot.values[c] == ValueAt(more, snapshot.readTime, c) {
      ValueAtPrefix(history, more, snapshot.readTime, c);
    }
  }

  lemma RecordTruePrefix(history: History, more: History, r: OpRecord)
    requires |history| <= |more| && more[..|history|] == history && RecordTrue(history, r)
    ensures RecordTrue(more, r)
  {
    SnapshotTruePrefix(history, more, StoreSnapshot(r.readValues, r.readTime), r.readSet);
    forall c: Cell | c in r.writeSet
      ensures WroteAt(more, r.writeTime, c) && LastWrite(more[r.writeTime - 1], c) == Some(r.writeValues[c])
    {
      WroteAtPrefix(history, more, r.writeTime, c);
    }
  }

  lemma RecordFreshPrefix(history: History, more: History, r: OpRecord)
    requires |history| <= |more| && more[..|history|] == history && r.writeTime <= |history| && RecordFresh(history, r)
    ensures RecordFresh(more, r)
  {
    forall c: Cell | c in r.readSet ensures Untouched(more, r.readTime, r.writeTime - 1, c) {
      UntouchedPrefix(history, more, r.readTime, r.writeTime - 1, c);
    }
  }

  lemma OwnsPrefix(history: History, more: History, r: OpRecord, t: Time)
    requires |history| <= |more| && more[..|history|] == history && t <= |history| && Owns(history, r, t)
    ensures Owns(more, r, t)
  {
    RecordTruePrefix(history, more, r);
    forall c: Cell | WroteAt(more, t, c) ensures c in r.writeSet {
      WroteAtPrefix(history, more, t, c);
    }
  }

  lemma OwnedInPrefix(history: History, more: History, records: seq<OpRecord>, t: Time)
    requires |history| <= |more| && more[..|history|] == history && t <= |history| && OwnedIn(history, records, t)
    ensures OwnedIn(more, records, t)
  {
    var k: nat :| k < |records| && Owns(history, records[k], t);
    OwnsPrefix(history, more, records[k], t);
  }

  lemma OwnedInSnoc(history: History, records: seq<OpRecord>, r: OpRecord, t: Time)
    requires OwnedIn(history, records, t) || Owns(history, r, t)
    ensures OwnedIn(history, records + [r], t)
  {
    var all := records + [r];
    if OwnedIn(history, records, t) {
      var k: nat :| k < |records| && Owns(history, records[k], t);
      assert all[k] == records[k];
    } else {
      assert all[|records|] == r;
    }
  }

  // -------------------------------------------------- accounts over time

  /** A tick commits nothing, and at the ceiling the clock stays. */
  function Ticked(now: Time, history: History): History {
    if now < MAX_U64 then history + [[]] else history
  }

  lemma TickWritesNothing(now: Time, history: History)
    ensures |history| <= |Ticked(now, history)| && Ticked(now, history)[..|history|] == history
    ensures forall t: Time, c: Cell :: |history| < t ==> !WroteAt(Ticked(now, history), t, c)
  {
    forall t: Time, c: Cell | |history| < t ensures !WroteAt(Ticked(now, history), t, c) {
      if t <= |Ticked(now, history)| {
        assert Ticked(now, history)[t - 1] == [];
      }
    }
  }

  lemma AccountedKept(history: History, more: History, phases: map<Agent, Phase>, after: map<Agent, Phase>,
                      emitted: seq<OpRecord>, t: Time)
    requires |history| <= |more| && more[..|history|] == history && t <= |history|
    requires Accounted(history, phases, emitted, t)
    requires forall a: Agent :: PhaseOf(phases, a).InFlight? ==> PhaseOf(after, a) == PhaseOf(phases, a)
    ensures Accounted(more, after, emitted, t)
  {
    if OwnedIn(history, emitted, t) {
      OwnedInPrefix(history, more, emitted, t);
    } else {
      var a: Agent :| InFlightOwns(history, phases, a, t);
      OwnsPrefix(history, more, PhaseOf(phases, a).record, t);
      assert InFlightOwns(more, after, a, t);
    }
  }

  /**
   Accounts survive a longer history and any change of phase of agents not in flight, if what is new is accounted for.
   */
  lemma AllAccountedKept(history: History, more: History, phases: map<Agent, Phase>, after: map<Agent, Phase>,
                         emitted: seq<OpRecord>)
    requires |history| <= |more| && more[..|history|] == history && AllAccounted(history, phases, emitted)
    requires forall a: Agent :: PhaseOf(phases, a).InFlight? ==> PhaseOf(after, a) == PhaseOf(phases, a)
    requires forall t: Time, c: Cell :: |history| < t && WroteAt(more, t, c) ==> Accounted(more, after, emitted, t)
    ensures AllAccounted(more, after, emitted)
  {
    forall t: Time, c: Cell | WroteAt(more, t, c) ensures Accounted(more, after, emitted, t) {
      if t <= |history| {
        WroteAtPrefix(history, more, t, c);
        AccountedKept(history, more, phases, after, emitted, t);
      }
    }
  }

  /** An emitted record moves from its agent to the ledger. */
  lemma EmitKeepsAccounts(history: History, phases: map<Agent, Phase>, emitted: seq<OpRecord>, a: Agent)
    requires AllAccounted(history, phases, emitted) && PhaseOf(phases, a).InFlight?
    ensures AllAccounted(history, phases[a := Emitted], emitted + [PhaseOf(phases, a).record])
  {
    var next := PhaseOf(phases, a).record;
    forall t: Time, c: Cell | WroteAt(history, t, c)
      ensures Accounted(history, phases[a := Emitted], emitted + [next], t)
    {
      assert Accounted(history, phases, emitted, t);
      if OwnedIn(history, emitted, t) || InFlightOwns(history, phases, a, t) {
        OwnedInSnoc(history, emitted, next, t);
      } else {
        var b: Agent :| InFlightOwns(history, phases, b, t);
        assert InFlightOwns(history, phases[a := Emitted], b, t);
      }
    }
  }

  lemma AddedWrites(history: History, writes: map<Cell, Val>, c: Cell)
    ensures LastWrite((history + [PairsOf(writes)])[|history|], c) == if c in writes then Some(writes[c]) else None
    ensures WroteAt(history + [PairsOf(writes)], |history| + 1, c) <==> c in writes
  {
    PairsLastWrite(writes, c);
    LastWriteIsSome(PairsOf(writes), c);
  }

  /** A record that commits at the next tick is true of the history it extends, and owns its tick. */
  lemma AddedRecordOwns(history: History, r: OpRecord)
    requires SnapshotTrue(history, StoreSnapshot(r.readValues, r.readTime), r.readSet)
    requires r.writeTime == |history| + 1 && r.io == r.co
    requires forall c: Cell :: c in r.writeSet <==> c in r.writeValues
    ensures Owns(history + [PairsOf(r.writeValues)], r, |history| + 1)
  {
    var more := history + [PairsOf(r.writeValues)];
    SnapshotTruePrefix(history, more, StoreSnapshot(r.readValues, r.readTime), r.readSet);
    forall c: Cell
      ensures WroteAt(more, |history| + 1, c) <==> c in r.writeValues
      ensures c in r.writeValues ==> LastWrite(more[|history|], c) == Some(r.writeValues[c])
    {
      AddedWrites(history, r.writeValues, c);
    }
  }

  /** The record of an operation that commits at the next tick, and owns it. */
  ghost predicate Launches(history: History, op: PendingOp, writes: map<Cell, Val>, r: OpRecord) {
    && r.readSet == op.readSet && r.readValues == op.snapshot.values && r.readTime == op.snapshot.readTime
    && r.writeValues == writes && Owns(history + [PairsOf(writes)], r, |history| + 1)
  }

  lemma RecordLaunches(history: History, a: Agent, op: PendingOp, writes: Writes, toolUsed: Option<Tool>)
    requires SnapshotTrue(history, op.snapshot, op.readSet)
    ensures Launches(history, op, LastWrites(writes), RecordFor(a, op, writes, |history| + 1, toolUsed))
  {
    AddedRecordOwns(history, RecordFor(a, op, writes, |history| + 1, toolUsed));
  }

  /**
   What a committed operation's record says is true of the history it extends, and of the agent's own list
   of writes: the record names exactly the cells written, each with the last value written to it.
   */
  lemma {:induction false} NewRecordIsTrue(history: History, a: Agent, op: PendingOp, writes: Writes,
                                           toolUsed: Option<Tool>)
    requires SnapshotTrue(history, op.snapshot, op.readSet)
    ensures var r := RecordFor(a, op, writes, |history| + 1, toolUsed);
            && Owns(history + [PairsOf(LastWrites(writes))], r, |history| + 1)
            && r.agent == a && r.readSet == op.readSet && r.plannedTool == op.planned && r.toolsVisible == op.visible
            && r.io == writes && r.co == writes
            && forall c: Cell :: (c in r.writeSet <==> WritesCell(writes, c))
                 && (c in r.writeSet ==> LastWrite(writes, c) == Some(r.writeValues[c]))
  {
    RecordLaunches(history, a, op, writes, toolUsed);
    forall c: Cell ensures c in RecordFor(a, op, writes, |history| + 1, toolUsed).writeSet <==> WritesCell(writes, c) {
      LastWriteIsSome(writes, c);
    }
  }

  /** Every value an emitted record read has an emitted antecedent. */
  lemma SourcedHasNoA3(history: History, records: seq<OpRecord>)
    requires forall j: nat :: j < |records| ==>
             RecordTrue(history, records[j]) && SourcesEmitted(history, records, records[j])
    requires forall j: nat :: j < |records| && records[j].writeSet != [] ==> records[j].readTime < records[j].writeTime
    ensures !A3In(records)
  {
    forall j: nat, c: Cell | j < |records| ensures !A3At(records, j, c) {
      var r := records[j];
      if c in r.readSet && c in r.readValues && r.readValues[c] != NULL_VALUE {
        var t := ValueHasSource(history, r.readTime, c);
        LastWriteIsSome(history[t - 1], c);
        assert WroteAt(history, t, c);
        var k: nat :| k < |records| && Owns(history, records[k], t);
        assert c in records[k].writeSet;
        assert Antecedent(records, j, k, c, r.readValues[c]);
      }
    }
  }

  /** A window on a record is an overwriting commit inside it. */
  lemma WindowIsTouched(history: History, records: seq<OpRecord>, i: nat, j: nat, c: Cell)
    requires i < |records| && j < |records| && A1At(records, i, j, c)
    requires RecordTrue(history, records[i]) && RecordTrue(history, records[j])
    ensures !RecordFresh(history, records[i])
  {
    assert WroteAt(history, records[j].writeTime, c);
  }

  /** A fresh record's reads are what serial replay leaves just before its commit. */
  lemma FreshReadsReplay(history: History, r: OpRecord)
    requires RecordTrue(history, r) && RecordFresh(history, r)
    ensures 0 < r.writeTime <= |history|
    ensures forall c: Cell :: c in r.readSet ==>
            c in r.readValues && r.readValues[c] == ValueAt(history, r.writeTime - 1, c)
  {
    forall c: Cell | c in r.readSet ensures r.readValues[c] == ValueAt(history, r.writeTime - 1, c) {
      assert StoreSnapshot(r.readValues, r.readTime).values[c] == ValueAt(history, r.readTime, c);
      UntouchedKeepsValue(history, r.readTime, r.writeTime - 1, c);
    }
  }
}
