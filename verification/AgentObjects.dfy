/**
 The agent as an object: one pending operation, set by `begin` and taken by `commit`, over a shared
 store and a shared emitter.  A call that runs without interruption is the corresponding steps of the
 interleaved models in a row.
 */
module AgentObjects {
  import opened Common
  import opened Versions
  import opened StoreApi
  import opened Detectors
  import opened AgentModel
  import SiModel
  import SiStore
  import PessModel
  import PessStore
  import AgentsOverSi
  import AgentsOverPess

  class Emitter {
    var records: seq<OpRecord>

    constructor ()
      ensures records == []
    {
      records := [];
    }

    method Emit(r: OpRecord)
      modifies this
      ensures records == old(records) + [r]
    {
      records := records + [r];
    }

    method Drain() returns (all: seq<OpRecord>)
      modifies this
      ensures all == old(records) && records == []
    {
      all := records;
      records := [];
    }
  }

  /** The store an agent talks to. */
  datatype StoreRef = OverSi(si: SiStore.SnapshotIsolationStore) | OverPess(pess: PessStore.PessimisticStore)

  ghost function Footprint(store: StoreRef): set<object> {
    match store
    case OverSi(si) => {si, si.core}
    case OverPess(pess) => {pess, pess.core}
  }

  ghost predicate StoreValid(store: StoreRef)
    reads Footprint(store)
  {
    match store
    case OverSi(si) => si.Valid()
    case OverPess(pess) => pess.Valid()
  }

  /** What a store holds, and what each of its calls does to that. */
  datatype StoreView = SiView(validateNoWrite: bool, si: SiModel.Store) | PessView(pess: PessModel.Store)

  ghost function ViewOf(store: StoreRef): StoreView
    reads Footprint(store)
  {
    match store
    case OverSi(si) => SiView(si.validateNoWrite, si.View())
    case OverPess(pess) => PessView(pess.View())
  }

  function Beginning(v: StoreView, id: nat, cells: seq<Cell>): (StoreView, Option<StoreSnapshot>) {
    match v
    case SiView(_, s) => (v, Some(SiStore.SnapshotOf(s, cells)))
    case PessView(s) =>
      (PessView(PessModel.Begin(s, id, cells)),
       if PessModel.BeginAccepted(s, id, cells) then Some(PessStore.SnapshotOf(s, cells)) else None)
  }

  ghost function Committing(v: StoreView, id: nat, snapshot: StoreSnapshot, writes: map<Cell, Val>)
    : (StoreView, Outcome)
  {
    match v
    case SiView(mode, s) =>
      var r := SiStore.AdapterCommit(s, mode, id, snapshot, writes);
      (SiView(mode, r.0), r.1)
    case PessView(s) =>
      (PessView(PessStore.AdapterCommit(s, id, snapshot, writes)),
       if PessStore.AdapterAccepts(s, id, snapshot, writes) then Committed(s.clock + 1) else AbortedConflict)
  }

  function Releasing(v: StoreView, id: nat): StoreView {
    match v
    case SiView(_, _) => v
    case PessView(s) => PessView(PessModel.Release(s, id))
  }

  datatype PendingState = Nothing | Refused | Ready(op: PendingOp)

  datatype CommitResult = NoBegin | Done(committed: bool)

  method CollectWrites(writes: Writes) returns (m: map<Cell, Val>)
    ensures m == LastWrites(writes)
  {
    m := map[];
    var i := 0;
    while i < |writes|
      invariant 0 <= i <= |writes|
      invariant m == LastWrites(writes[..i])
    {
      assert writes[..i + 1][..i] == writes[..i];
      m := m[writes[i].0 := writes[i].1];
      i := i + 1;
    }
    assert writes[..|writes|] == writes;
  }

  /** A committed operation adds its record to the history, an aborted one nothing. */
  ghost predicate Emits(before: seq<OpRecord>, after: seq<OpRecord>, id: nat, op: PendingOp, writes: Writes,
                        toolUsed: Option<Tool>, outcome: Outcome)
  {
    match outcome
    case Committed(t) => after == before + [RecordFor(id, op, writes, t, toolUsed)]
    case AbortedConflict => after == before
  }

  /** What committing an operation does to the store and the history, and whether it was accepted. */
  ghost predicate Ends(before: StoreView, after: StoreView, history: seq<OpRecord>, extended: seq<OpRecord>,
                       id: nat, op: PendingOp, writes: Writes, toolUsed: Option<Tool>, committed: bool)
  {
    var answer := Committing(before, id, op.snapshot, LastWrites(writes));
    && committed == answer.1.Committed?
    && after == Releasing(answer.0, id)
    && Emits(history, extended, id, op, writes, toolUsed, answer.1)
  }

  class Agent {
    const id: nat
    const store: StoreRef
    const emitter: Emitter
    const visibleTools: seq<Tool>
    var pending: PendingState

    constructor (id: nat, store: StoreRef, emitter: Emitter, visibleTools: seq<Tool>)
      ensures pending == Nothing
      ensures this.id == id && this.store == store && this.emitter == emitter && this.visibleTools == visibleTools
    {
      this.id, this.store, this.emitter, this.visibleTools := id, store, emitter, visibleTools;
      pending := Nothing;
    }

    /** Refuses while an operation is pending; a conflict in the store leaves a refused one pending. */
    method Begin(readSet: seq<Cell>, planned: Option<Tool>) returns (ok: bool)
      requires StoreValid(store)
      modifies this, Footprint(store)
      ensures StoreValid(store)
      ensures ok == old(pending).Nothing?
      ensures !ok ==> pending == old(pending)
      ensures ViewOf(store) == if ok then Beginning(old(ViewOf(store)), id, readSet).0 else old(ViewOf(store))
      ensures ok ==>
        pending == match Beginning(old(ViewOf(store)), id, readSet).1
                   case Some(snapshot) => Ready(PendingOp(snapshot, readSet, planned, visibleTools))
                   case None => Refused
    {
      if !pending.Nothing? {
        return false;
      }
      match store {
        case OverSi(si) =>
          var snapshot := si.Begin(id, readSet);
          pending := Ready(PendingOp(snapshot, readSet, planned, visibleTools));
        case OverPess(pess) =>
          var snapshot := pess.Begin(id, readSet);
          pending := if snapshot.Some?
                     then Ready(PendingOp(snapshot.value, readSet, planned, visibleTools)) else Refused;
      }
      return true;
    }

    method StoreCommit(op: PendingOp, writes: Writes) returns (m: map<Cell, Val>, outcome: Outcome)
      requires StoreValid(store)
      modifies Footprint(store)
      ensures StoreValid(store) && m == LastWrites(writes) && unchanged(emitter)
      ensures ViewOf(store) == Committing(old(ViewOf(store)), id, op.snapshot, LastWrites(writes)).0
      ensures outcome == Committing(old(ViewOf(store)), id, op.snapshot, LastWrites(writes)).1
    {
      m := CollectWrites(writes);
      match store {
        case OverSi(si) => outcome := si.Commit(id, op.snapshot, m);
        case OverPess(pess) => outcome := pess.Commit(id, op.snapshot, m);
      }
    }

    method StoreRelease()
      requires StoreValid(store)
      modifies Footprint(store)
      ensures StoreValid(store) && unchanged(emitter)
      ensures ViewOf(store) == Releasing(old(ViewOf(store)), id)
    {
      match store {
        case OverSi(si) =>
        case OverPess(pess) => pess.Release(id);
      }
    }

    /** The record of a committed operation. */
    method MakeRecord(op: PendingOp, writes: Writes, m: map<Cell, Val>, writeTime: Time, toolUsed: Option<Tool>)
      returns (r: OpRecord)
      requires m == LastWrites(writes)
      ensures r == RecordFor(id, op, writes, writeTime, toolUsed)
    {
      var used := [];
      if toolUsed.Some? && toolUsed.value in op.visible {
        used := [toolUsed.value];
      } else if toolUsed.None? && op.planned.Some? && op.planned.value in op.visible {
        used := [op.planned.value];
      }
      var writeSet := KeysInOrder(m.Keys);
      return OpRecord(id, op.readSet, op.snapshot.values, op.snapshot.readTime, writeSet, m, writeTime,
                      op.planned, used, op.visible, writes, writes);
    }

    method EmitAndRelease(op: PendingOp, writes: Writes, m: map<Cell, Val>, writeTime: Time, toolUsed: Option<Tool>)
      requires StoreValid(store) && m == LastWrites(writes)
      modifies emitter, Footprint(store)
      ensures StoreValid(store)
      ensures ViewOf(store) == Releasing(old(ViewOf(store)), id)
      ensures emitter.records == old(emitter.records) + [RecordFor(id, op, writes, writeTime, toolUsed)]
    {
      var record := MakeRecord(op, writes, m, writeTime, toolUsed);
      emitter.Emit(record);
      StoreRelease();
    }

    /** Commit, emit, release; an aborted commit only releases. */
    method CommitReady(op: PendingOp, writes: Writes, toolUsed: Option<Tool>) returns (committed: bool)
      requires StoreValid(store)
      modifies emitter, Footprint(store)
      ensures StoreValid(store)
      ensures Ends(old(ViewOf(store)), ViewOf(store), old(emitter.records), emitter.records, id, op, writes,
              toolUsed, committed)
    {
      var m, outcome := StoreCommit(op, writes);
      if outcome.AbortedConflict? {
        StoreRelease();
        return false;
      }
      EmitAndRelease(op, writes, m, outcome.writeTime, toolUsed);
      return true;
    }

    method CommitTaken(p: PendingState, writes: Writes, toolUsed: Option<Tool>) returns (r: CommitResult)
      requires StoreValid(store)
      modifies emitter, Footprint(store)
      ensures StoreValid(store)
      ensures !p.Ready? ==>
        && r == (if p.Nothing? then NoBegin else Done(false))
        && ViewOf(store) == old(ViewOf(store)) && emitter.records == old(emitter.records)
      ensures p.Ready? ==>
        && r.Done?
        && Ends(old(ViewOf(store)), ViewOf(store), old(emitter.records), emitter.records, id, p.op, writes,
           toolUsed, r.committed)
    {
      match p
      case Nothing => return NoBegin;
      case Refused => return Done(false);
      case Ready(op) =>
        var committed := CommitReady(op, writes, toolUsed);
        return Done(committed);
    }

    method TakePending() returns (p: PendingState)
      requires StoreValid(store)
      modifies this`pending
      ensures StoreValid(store) && ViewOf(store) == old(ViewOf(store)) && unchanged(emitter)
      ensures p == old(pending) && pending == Nothing
    {
      p := pending;
      pending := Nothing;
    }

    /** Takes the pending operation and commits it, whatever the outcome. */
    method Commit(writes: Writes, toolUsed: Option<Tool>) returns (r: CommitResult)
      requires StoreValid(store)
      modifies this, emitter, Footprint(store)
      ensures StoreValid(store) && pending == Nothing
      ensures !old(pending).Ready? ==>
        && r == (if old(pending).Nothing? then NoBegin else Done(false))
        && ViewOf(store) == old(ViewOf(store)) && emitter.records == old(emitter.records)
      ensures old(pending).Ready? ==>
        && r.Done?
        && Ends(old(ViewOf(store)), ViewOf(store), old(emitter.records), emitter.records, id, old(pending).op,
           writes, toolUsed, r.committed)
    {
      var p := TakePending();
      r := CommitTaken(p, writes, toolUsed);
    }

    /** A commit of nothing. */
    method NoWriteCommit(toolUsed: Option<Tool>) returns (r: CommitResult)
      requires StoreValid(store)
      modifies this, emitter, Footprint(store)
      ensures StoreValid(store) && pending == Nothing
      ensures !old(pending).Ready? ==>
        && r == (if old(pending).Nothing? then NoBegin else Done(false))
        && ViewOf(store) == old(ViewOf(store)) && emitter.records == old(emitter.records)
      ensures old(pending).Ready? ==>
        && r.Done?
        && Ends(old(ViewOf(store)), ViewOf(store), old(emitter.records), emitter.records, id, old(pending).op, [],
           toolUsed, r.committed)
    {
      r := Commit([], toolUsed);
    }
  }

  /** An agent's begin is the begin step of either interleaved model. */
  lemma {:induction false} BeginIsOneStep(si: AgentsOverSi.Sys, pess: AgentsOverPess.Sys, a: nat, cells: seq<Cell>,
                                          planned: Option<Tool>, visible: seq<Tool>)
    requires PhaseOf(si.phases, a).Idle? && PhaseOf(pess.phases, a).Idle?
    ensures var s' := AgentsOverSi.BeginStep(si, a, cells, planned, visible);
            var began := Beginning(SiView(si.validateNoWrite, si.store), a, cells);
            && SiView(s'.validateNoWrite, s'.store) == began.0 && began.1.Some?
            && PhaseOf(s'.phases, a) == Pending(PendingOp(began.1.value, cells, planned, visible))
    ensures var s' := AgentsOverPess.BeginStep(pess, a, cells, planned, visible);
            var began := Beginning(PessView(pess.store), a, cells);
            && PessView(s'.store) == began.0
            && PhaseOf(s'.phases, a)
               == if began.1.Some? then Pending(PendingOp(began.1.value, cells, planned, visible)) else RefusedAtBegin
  {
  }

  /** Over the snapshot-isolation store, an uninterrupted commit is three steps of the interleaved model. */
  lemma {:induction false} CommitIsThreeStepsOverSi(s: AgentsOverSi.Sys, a: nat, op: PendingOp, writes: Writes,
                                                    toolUsed: Option<Tool>)
    returns (committed: bool)
    requires PhaseOf(s.phases, a) == Pending(op)
    ensures var done := AgentsOverSi.CommitStep(s, a, writes, toolUsed);
            var s' := AgentsOverSi.ReleaseStep(AgentsOverSi.EmitStep(done, a), a);
            && Ends(SiView(s.validateNoWrite, s.store), SiView(s'.validateNoWrite, s'.store), s.emitted, s'.emitted,
                    a, op, writes, toolUsed, committed)
            && PhaseOf(s'.phases, a) == Idle
  {
    var s1 := AgentsOverSi.CommitPending(s, a, op, writes, toolUsed);
    var s2 := AgentsOverSi.EmitStep(s1, a);
    assert PhaseOf(s2.phases, a) == Emitted || PhaseOf(s2.phases, a) == BackingOut;
    committed := PhaseOf(s1.phases, a).InFlight?;
  }

  /** Over the pessimistic store likewise; the release drops the agent's holds. */
  lemma {:induction false} CommitIsThreeStepsOverPess(s: AgentsOverPess.Sys, a: nat, op: PendingOp, writes: Writes,
                                                      toolUsed: Option<Tool>)
    returns (committed: bool)
    requires PhaseOf(s.phases, a) == Pending(op)
    ensures var done := AgentsOverPess.CommitStep(s, a, writes, toolUsed);
            var s' := AgentsOverPess.ReleaseStep(AgentsOverPess.EmitStep(done, a), a);
            && Ends(PessView(s.store), PessView(s'.store), s.emitted, s'.emitted, a, op, writes, toolUsed, committed)
            && PhaseOf(s'.phases, a) == Idle
  {
    var s1 := AgentsOverPess.CommitPending(s, a, op, writes, toolUsed);
    assert s1.store == PessStore.AdapterCommit(s.store, a, op.snapshot, LastWrites(writes));
    var s2 := AgentsOverPess.EmitStep(s1, a);
    assert s2.store == s1.store && AgentsOverPess.AwaitsRelease(PhaseOf(s2.phases, a));
    committed := PhaseOf(s1.phases, a).InFlight?;
  }
}
