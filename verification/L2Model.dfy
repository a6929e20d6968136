/**
 The transactional L2 runtime as a pure transition system.

 A state is what the runtime stores; an action is one call of a public entry
 point; a run is any finite sequence of calls.  A call whose guard fails, or
 that finds the clock at its ceiling, leaves the state unchanged, so every
 sequence of calls is a run.

 The set of cells a transaction read (wrote) is the domain of its `readValues`
 (`writeValues`): the source inserts into both together.
 */
module L2Model {
  import opened Common

  type Cell = nat
  type Value = nat
  type TxnId = nat
  type Time = nat

  datatype Txn = Txn(
    started: bool,
    committed: bool,
    aborted: bool,
    readValues: map<Cell, Value>,
    writeValues: map<Cell, Value>,
    predecessors: set<TxnId>,
    readFrom: map<Cell, TxnId>,
    readAt: map<Cell, Time>,
    commitTime: Time,
    externalized: bool)

  const STARTED_TXN := Txn(true, false, false, map[], map[], {}, map[], map[], 0, false)

  datatype State = State(
    now: Time,
    txns: seq<Txn>,
    cellValue: map<Cell, Value>,
    cellWriter: map<Cell, TxnId>)

  const INITIAL := State(0, [], map[], map[])

  /** What a step needs to be defined: a published cell has a known writer. */
  ghost predicate WellFormed(s: State) {
    forall c: Cell :: c in s.cellValue ==> c in s.cellWriter && s.cellWriter[c] < |s.txns|
  }

  // ---------------------------------------------------------------- guards

  predicate WriteValid(s: State, t: TxnId) {
    t < |s.txns| && !s.txns[t].committed
  }

  predicate ReadValid(s: State, t: TxnId, c: Cell) {
    t < |s.txns| && !s.txns[t].committed && c in s.cellValue
  }

  /** Freshness compares values, not writers. */
  predicate ReadsFresh(s: State, txn: Txn) {
    forall c: Cell :: c in txn.readValues ==> c in s.cellValue && s.cellValue[c] == txn.readValues[c]
  }

  predicate PredecessorsClean(s: State, txn: Txn) {
    forall p: TxnId :: p in txn.predecessors ==> p < |s.txns| && s.txns[p].committed && !s.txns[p].aborted
  }

  predicate CommitValid(s: State, t: TxnId) {
    && t < |s.txns|
    && s.txns[t].started && !s.txns[t].committed && !s.txns[t].aborted
    && ReadsFresh(s, s.txns[t])
    && PredecessorsClean(s, s.txns[t])
  }

  predicate AbortValid(s: State, t: TxnId) {
    t < |s.txns| && !s.txns[t].externalized
  }

  predicate PredecessorsOut(s: State, txn: Txn) {
    forall p: TxnId :: p in txn.predecessors ==> p < |s.txns| && s.txns[p].externalized
  }

  predicate ExternalizeValid(s: State, t: TxnId) {
    && t < |s.txns|
    && s.txns[t].committed && !s.txns[t].aborted && !s.txns[t].externalized
    && PredecessorsOut(s, s.txns[t])
  }

  // ----------------------------------------------------------------- steps

  function StepBegin(s: State): State {
    s.(now := s.now + 1, txns := s.txns + [STARTED_TXN])
  }

  function StepWrite(s: State, t: TxnId, c: Cell, v: Value): State
    requires t < |s.txns|
  {
    var txn := s.txns[t];
    s.(now := s.now + 1, txns := s.txns[t := txn.(writeValues := txn.writeValues[c := v])])
  }

  /** Reading joins the writer and the writer's own closure into the predecessors. */
  function StepRead(s: State, t: TxnId, c: Cell): State
    requires WellFormed(s) && t < |s.txns| && c in s.cellValue
  {
    var txn := s.txns[t];
    var w := s.cellWriter[c];
    s.(now := s.now + 1,
       txns := s.txns[t := txn.(
         readValues := txn.readValues[c := s.cellValue[c]],
         predecessors := txn.predecessors + {w} + s.txns[w].predecessors,
         readFrom := txn.readFrom[c := w],
         readAt := txn.readAt[c := s.now])])
  }

  function StepCommit(s: State, t: TxnId): State
    requires t < |s.txns|
  {
    var txn := s.txns[t];
    s.(now := s.now + 1,
       txns := s.txns[t := txn.(committed := true, commitTime := s.now)],
       cellValue := s.cellValue + txn.writeValues,
       cellWriter := s.cellWriter + WriterMap(txn.writeValues, t))
  }

  /** Every transaction whose predecessors hold `t`, and `t` itself, flagged; the others as they were. */
  function Cascade(txns: seq<Txn>, t: TxnId): (flagged: seq<Txn>)
    ensures |flagged| == |txns|
    ensures forall u: TxnId :: u < |txns| ==>
              flagged[u] == if u == t || t in txns[u].predecessors then txns[u].(aborted := true) else txns[u]
  {
    seq(|txns|, u requires 0 <= u < |txns| =>
      if u == t || t in txns[u].predecessors then txns[u].(aborted := true) else txns[u])
  }

  /** One pass, because predecessor sets are transitively closed; nothing is rolled back. */
  function StepAbort(s: State, t: TxnId): State
    requires t < |s.txns|
  {
    s.(now := s.now + 1, txns := Cascade(s.txns, t))
  }

  function StepExternalize(s: State, t: TxnId): State
    requires t < |s.txns|
  {
    s.(now := s.now + 1, txns := s.txns[t := s.txns[t].(externalized := true)])
  }

  // ------------------------------------------------------------------ runs

  datatype Action =
    | Begin
    | Write(t: TxnId, c: Cell, v: Value)
    | Read(t: TxnId, c: Cell)
    | Commit(t: TxnId)
    | Abort(t: TxnId)
    | Externalize(t: TxnId)

  predicate Enabled(s: State, a: Action) {
    && s.now < MAX_U64
    && match a
       case Begin => |s.txns| < MAX_U64
       case Write(t, c, v) => WriteValid(s, t)
       case Read(t, c) => ReadValid(s, t, c)
       case Commit(t) => CommitValid(s, t)
       case Abort(t) => AbortValid(s, t)
       case Externalize(t) => ExternalizeValid(s, t)
  }

  /** One call: the step when the guard holds and the clock has room, nothing otherwise. */
  function Step(s: State, a: Action): (s': State)
    requires WellFormed(s)
    ensures WellFormed(s')
  {
    if !Enabled(s, a) then s
    else
      match a
      case Begin => StepBegin(s)
      case Write(t, c, v) => StepWrite(s, t, c, v)
      case Read(t, c) => StepRead(s, t, c)
      case Commit(t) => StepCommit(s, t)
      case Abort(t) => StepAbort(s, t)
      case Externalize(t) => StepExternalize(s, t)
  }

  /** Where a sequence of calls leads from `s`. */
  function RunFrom(s: State, calls: seq<Action>): (s': State)
    requires WellFormed(s)
    ensures WellFormed(s')
  {
    if calls == [] then s
    else Step(RunFrom(s, calls[..|calls| - 1]), calls[|calls| - 1])
  }

  function Run(calls: seq<Action>): (s: State)
    ensures WellFormed(s)
  {
    RunFrom(INITIAL, calls)
  }

  lemma RunFromSnoc(s: State, calls: seq<Action>, a: Action)
    requires WellFormed(s)
    ensures RunFrom(s, calls + [a]) == Step(RunFrom(s, calls), a)
  {
    assert (calls + [a])[..|calls|] == calls;
  }

  lemma {:induction false} RunFromSplit(s: State, first: seq<Action>, second: seq<Action>)
    requires WellFormed(s)
    ensures RunFrom(s, first + second) == RunFrom(RunFrom(s, first), second)
  {
    if second == [] {
      assert first + second == first;
    } else {
      var n := |second| - 1;
      RunFromSplit(s, first, second[..n]);
      assert (first + second)[..|first + second| - 1] == first + second[..n];
    }
  }
}
