/**
 What the agents were asked to do, noted from the calls themselves: the arguments of each operation's own
 begin and of its own commit, and which operations have been told to the history.  Every emitted record says
 of its operation exactly what those calls passed.
 */
module AgentLedger {
  import opened Common
  import opened Versions
  import opened StoreApi
  import opened Detectors
  import opened AgentModel

  /** One operation as its two calls asked for it. */
  datatype Intent = Intent(
    agent: Agent,
    cells: seq<Cell>,
    planned: Option<Tool>,
    visible: seq<Tool>,
    writes: Writes,
    toolUsed: Option<Tool>)

  /** The operation each agent has begun, and those whose records are out, in order. */
  datatype Ledger = Ledger(begun: map<Agent, Intent>, told: seq<Intent>)

  const NOTHING_ASKED := Ledger(map[], [])

  /** An admitted begin opens an operation, an accepted commit completes it, an emit tells it. */
  function Noted(l: Ledger, before: map<Agent, Phase>, after: map<Agent, Phase>, act: Action): Ledger {
    match act
    case Begin(a, cells, planned, visible) =>
      if !PhaseOf(before, a).Pending? && PhaseOf(after, a).Pending?
      then l.(begun := l.begun[a := Intent(a, cells, planned, visible, [], None)]) else l
    case Commit(a, writes, toolUsed) =>
      if PhaseOf(before, a).Pending? && PhaseOf(after, a).InFlight? && a in l.begun
      then l.(begun := l.begun[a := l.begun[a].(writes := writes, toolUsed := toolUsed)]) else l
    case Emit(a) =>
      if PhaseOf(before, a).InFlight? && a in l.begun then l.(told := l.told + [l.begun[a]]) else l
    case Release(_) => l
    case Tick => l
  }

  /** The tool counts as used: named and visible, or planned and visible when none was named. */
  predicate CountsAsUsed(i: Intent, tool: Tool) {
    tool in i.visible && if i.toolUsed.Some? then i.toolUsed == Some(tool) else i.planned == Some(tool)
  }

  /** The record says what the calls asked: who, what was read, planned, visible, intended, written and used. */
  ghost predicate Tells(r: OpRecord, i: Intent) {
    && r.agent == i.agent && r.readSet == i.cells
    && r.plannedTool == i.planned && r.toolsVisible == i.visible
    && r.io == i.writes && r.co == i.writes
    && (forall tool: Tool :: tool in r.toolsUsed <==> CountsAsUsed(i, tool))
    && (forall c: Cell ::
          (c in r.writeSet <==> WritesCell(i.writes, c)) && (c in r.writeValues <==> WritesCell(i.writes, c)))
    && (forall c: Cell :: c in r.writeSet ==> LastWrite(i.writes, c) == Some(r.writeValues[c]))
  }

  /** The plan was visible and the agent named another tool. */
  predicate Overrides(i: Intent) {
    i.planned.Some? && i.planned.value in i.visible && i.toolUsed.Some? && i.toolUsed != i.planned
  }

  ghost predicate SomeOverride(told: seq<Intent>) {
    exists k: nat :: k < |told| && Overrides(told[k])
  }

  lemma {:induction false} A2IffOverridden(r: OpRecord, i: Intent)
    requires Tells(r, i)
    ensures A2At(r) <==> Overrides(i)
  {
    if i.planned.Some? {
      assert i.planned.value in r.toolsUsed <==> CountsAsUsed(i, i.planned.value);
    }
  }

  /** Over records that tell their operations A2 fires exactly when some operation overrode its plan. */
  lemma A2IffSomeOverride(records: seq<OpRecord>, told: seq<Intent>)
    requires |records| == |told| && forall k: nat :: k < |told| ==> Tells(records[k], told[k])
    ensures A2In(records) <==> SomeOverride(told)
  {
    forall k: nat | k < |told| ensures A2At(records[k]) <==> Overrides(told[k]) {
      A2IffOverridden(records[k], told[k]);
    }
  }

  // ------------------------------------------------------- the ledger holds

  /** The agent's phase is that of the operation it has begun. */
  ghost predicate PhaseTells(p: Phase, a: Agent, begun: map<Agent, Intent>) {
    match p
    case Pending(op) =>
      && a in begun && begun[a] == Intent(a, op.readSet, op.planned, op.visible, begun[a].writes, begun[a].toolUsed)
    case InFlight(r) => a in begun && Tells(r, begun[a])
    case _ => true
  }

  ghost predicate LedgerTells(l: Ledger, phases: map<Agent, Phase>, emitted: seq<OpRecord>) {
    && |emitted| == |l.told| && (forall k: nat :: k < |l.told| ==> Tells(emitted[k], l.told[k]))
    && forall a: Agent :: PhaseTells(PhaseOf(phases, a), a, l.begun)
  }

  /** How an action may move its agent: what a step of either model does to phases and history. */
  ghost predicate Moves(before: map<Agent, Phase>, after: map<Agent, Phase>, emitted: seq<OpRecord>,
                        extended: seq<OpRecord>, act: Action)
  {
    match act
    case Begin(a, cells, planned, visible) =>
      && extended == emitted
      && (after == before
          || (PhaseOf(before, a).Idle? && after == before[a := RefusedAtBegin])
          || (PhaseOf(before, a).Idle? && exists snapshot: StoreSnapshot ::
                after == before[a := Pending(PendingOp(snapshot, cells, planned, visible))]))
    case Commit(a, writes, toolUsed) =>
      && extended == emitted
      && (match PhaseOf(before, a)
          case Pending(op) =>
            || after == before[a := BackingOut]
            || exists t: Time :: after == before[a := InFlight(RecordFor(a, op, writes, t, toolUsed))]
          case RefusedAtBegin => after == before[a := Idle]
          case _ => after == before)
    case Emit(a) =>
      (match PhaseOf(before, a)
       case InFlight(r) => after == before[a := Emitted] && extended == emitted + [r]
       case _ => after == before && extended == emitted)
    case Release(a) => extended == emitted && (after == before || after == before[a := Idle])
    case Tick => extended == emitted && after == before
  }

  lemma RecordTells(a: Agent, op: PendingOp, writes: Writes, t: Time, toolUsed: Option<Tool>)
    ensures Tells(RecordFor(a, op, writes, t, toolUsed),
                  Intent(a, op.readSet, op.planned, op.visible, writes, toolUsed))
  {
    forall c: Cell ensures c in LastWrites(writes) <==> WritesCell(writes, c) {
      LastWriteIsSome(writes, c);
    }
  }

  lemma MoveKeepsLedger(l: Ledger, before: map<Agent, Phase>, after: map<Agent, Phase>, emitted: seq<OpRecord>,
                        extended: seq<OpRecord>, act: Action)
    requires LedgerTells(l, before, emitted) && Moves(before, after, emitted, extended, act)
    ensures LedgerTells(Noted(l, before, after, act), after, extended)
  {
    var l' := Noted(l, before, after, act);
    forall b: Agent ensures PhaseTells(PhaseOf(after, b), b, l'.begun) {
      assert PhaseTells(PhaseOf(before, b), b, l.begun);
      if act.Commit? && PhaseOf(before, act.agent).Pending? && b == act.agent && PhaseOf(after, b).InFlight? {
        var op := PhaseOf(before, b).op;
        var t: Time :| after == before[b := InFlight(RecordFor(b, op, act.writes, t, act.toolUsed))];
        RecordTells(b, op, act.writes, t, act.toolUsed);
      }
    }
    if act.Emit? {
      assert PhaseTells(PhaseOf(before, act.agent), act.agent, l.begun);
    }
  }
}
