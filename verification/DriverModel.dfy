/**
 The review scenario on states: what each stage of the measurement keeps, and what its end shows.
 */
module DriverModel {
  import opened Common
  import opened L2Model
  import opened L2Invariant
  import opened L2Release
  import opened Scenario
  import opened ChainLayout

  /** Every transaction has read only from transactions that began before it. */
  ghost predicate PredecessorsSmaller(s: State) {
    forall t: TxnId, p: TxnId {:trigger p in s.txns[t].predecessors} ::
      t < |s.txns| && p in s.txns[t].predecessors ==> p < t
  }

  /** No effect is out yet, and nothing committed has been aborted. */
  ghost predicate Unreleased(s: State) {
    forall t: TxnId :: t < |s.txns| ==> !s.txns[t].externalized && (s.txns[t].committed ==> !s.txns[t].aborted)
  }

  ghost predicate Base(s: State) {
    Inv(s) && PredecessorsSmaller(s) && Unreleased(s)
  }

  lemma BeginKeepsBase(s: State)
    requires Base(s) && Enabled(s, Begin)
    ensures Base(Step(s, Begin)) && Step(s, Begin) == StepBegin(s)
  {
    StepKeepsInv(s, Begin);
  }

  lemma WriteKeepsBase(s: State, t: TxnId, c: Cell, v: Value)
    requires Base(s) && Enabled(s, Write(t, c, v))
    ensures Base(Step(s, Write(t, c, v))) && Step(s, Write(t, c, v)) == StepWrite(s, t, c, v)
  {
    StepKeepsInv(s, Write(t, c, v));
  }

  lemma ReadKeepsBase(s: State, t: TxnId, c: Cell)
    requires Base(s) && Enabled(s, Read(t, c)) && s.cellWriter[c] < t
    ensures Base(Step(s, Read(t, c))) && Step(s, Read(t, c)) == StepRead(s, t, c)
  {
    StepKeepsInv(s, Read(t, c));
    var s' := StepRead(s, t, c);
    assert Step(s, Read(t, c)) == s';
    forall p: TxnId | p in s'.txns[t].predecessors ensures p < t {
      if p !in s.txns[t].predecessors && p != s.cellWriter[c] {
        assert p in s.txns[s.cellWriter[c]].predecessors;
      }
    }
  }

  lemma CommitKeepsBase(s: State, t: TxnId)
    requires Base(s) && Enabled(s, Commit(t))
    ensures Base(Step(s, Commit(t))) && Step(s, Commit(t)) == StepCommit(s, t)
  {
    StepKeepsInv(s, Commit(t));
  }

  /** Nothing rests on an uncommitted transaction, so aborting one flags it alone. */
  lemma AbortKeepsBase(s: State, t: TxnId)
    requires Base(s) && Enabled(s, Abort(t)) && !s.txns[t].committed
    ensures Base(Step(s, Abort(t)))
    ensures Step(s, Abort(t)) == s.(now := s.now + 1, txns := s.txns[t := s.txns[t].(aborted := true)])
  {
    StepKeepsInv(s, Abort(t));
    forall u: TxnId | u < |s.txns| ensures t !in s.txns[u].predecessors {
    }
    assert Cascade(s.txns, t) == s.txns[t := s.txns[t].(aborted := true)];
  }

  /** `t` has begun, read the cell `rc` as `v`, and done nothing since but write. */
  ghost predicate Reader(s: State, t: TxnId, rc: Cell, v: Value) {
    && t < |s.txns| && s.txns[t].started && !s.txns[t].committed && !s.txns[t].aborted
    && s.txns[t].readValues == map[rc := v]
  }

  /** With nothing released or aborted underneath, a reader commits exactly when its value still stands. */
  lemma ReaderCommitsIff(s: State, t: TxnId, rc: Cell, v: Value)
    requires Base(s) && Reader(s, t, rc, v)
    ensures CommitValid(s, t) <==> rc in s.cellValue && s.cellValue[rc] == v
  {
    forall p: TxnId | p in s.txns[t].predecessors ensures p < |s.txns| && s.txns[p].committed && !s.txns[p].aborted {
    }
    if CommitValid(s, t) {
      assert rc in s.txns[t].readValues;
    }
  }

  // ---------------------------------------------------------- reachability

  /** Some calls lead to the state from the initial one. */
  ghost predicate Reachable(s: State) {
    exists calls: seq<Action> :: s == Run(calls)
  }

  lemma StepIsReachable(s: State, a: Action)
    requires WellFormed(s) && Reachable(s)
    ensures Reachable(Step(s, a))
  {
    var calls: seq<Action> :| s == Run(calls);
    RunFromSnoc(INITIAL, calls, a);
    assert Step(s, a) == Run(calls + [a]);
  }

  // ------------------------------------------------------------ one round

  /** A new transaction reads `rc` and writes `wc`. */
  function ReaderBegun(s: State, rc: Cell, wc: Cell, v: Value): (s': State)
    requires WellFormed(s)
    ensures WellFormed(s')
  {
    Step(Step(Step(s, Begin), Read(|s.txns|, rc)), Write(|s.txns|, wc, v))
  }

  predicate ReaderAccepted(s: State, rc: Cell, wc: Cell, v: Value)
    requires WellFormed(s)
  {
    && Enabled(s, Begin) && Enabled(Step(s, Begin), Read(|s.txns|, rc))
    && Enabled(Step(Step(s, Begin), Read(|s.txns|, rc)), Write(|s.txns|, wc, v))
  }

  lemma ReaderBegins(s: State, rc: Cell, wc: Cell, v: Value)
    requires Base(s) && rc in s.cellValue && s.now + 3 <= MAX_U64 && |s.txns| < MAX_U64
    ensures ReaderAccepted(s, rc, wc, v)
    ensures ReaderJoined(s, ReaderBegun(s, rc, wc, v), rc, wc, v)
  {
    var t := |s.txns|;
    BeginKeepsBase(s);
    ReadKeepsBase(StepBegin(s), t, rc);
    WriteKeepsBase(StepRead(StepBegin(s), t, rc), t, wc, v);
  }

  /** A concurrent writer lands on a cell. */
  function WriterBegun(s: State, c: Cell, v: Value): (s': State)
    requires WellFormed(s)
    ensures WellFormed(s')
  {
    Step(Step(s, Begin), Write(|s.txns|, c, v))
  }

  predicate WriterAccepted(s: State, c: Cell, v: Value)
    requires WellFormed(s)
  {
    Enabled(s, Begin) && Enabled(Step(s, Begin), Write(|s.txns|, c, v))
  }

  /** Having read nothing, it always commits. */
  lemma WriterCommits(s: State, c: Cell, v: Value)
    requires Base(s) && s.now + 3 <= MAX_U64 && |s.txns| < MAX_U64
    ensures WriterAccepted(s, c, v)
    ensures Enabled(WriterBegun(s, c, v), Commit(|s.txns|))
    ensures WriterLanded(s, Step(WriterBegun(s, c, v), Commit(|s.txns|)), c, v)
  {
    WriterBegins(s, c, v);
    FreshWriterCommits(WriterBegun(s, c, v), |s.txns|, c, v);
  }

  lemma FreshWriterCommits(s: State, t: TxnId, c: Cell, v: Value)
    requires Base(s) && s.now < MAX_U64
    requires t < |s.txns| && s.txns[t] == STARTED_TXN.(writeValues := map[c := v])
    ensures Enabled(s, Commit(t))
    ensures var s' := Step(s, Commit(t));
            && Base(s') && Live(s', t) && s'.cellValue == s.cellValue[c := v]
            && s'.cellWriter == s.cellWriter[c := t] && s'.txns[t].predecessors == {}
            && s'.now == s.now + 1 && |s'.txns| == |s.txns| && s'.txns[..t] == s.txns[..t]
  {
    HavingReadNothing(s, t);
    CommitKeepsBase(s, t);
    CommittedWriter(s, t, c, v);
  }

  lemma WriterBegins(s: State, c: Cell, v: Value)
    requires Base(s) && s.now + 2 <= MAX_U64 && |s.txns| < MAX_U64
    ensures WriterAccepted(s, c, v)
    ensures var s' := WriterBegun(s, c, v);
            && Base(s') && s' == s.(now := s.now + 2, txns := s.txns + [STARTED_TXN.(writeValues := map[c := v])])
  {
    BeginKeepsBase(s);
    WriteKeepsBase(StepBegin(s), |s.txns|, c, v);
  }

  lemma HavingReadNothing(s: State, t: TxnId)
    requires t < |s.txns| && s.txns[t].started && !s.txns[t].committed && !s.txns[t].aborted && s.now < MAX_U64
    requires s.txns[t].readValues == map[] && s.txns[t].predecessors == {}
    ensures Enabled(s, Commit(t))
  {
  }

  lemma CommittedWriter(s: State, t: TxnId, c: Cell, v: Value)
    requires t < |s.txns| && s.txns[t] == STARTED_TXN.(writeValues := map[c := v])
    ensures var s' := StepCommit(s, t);
            && Live(s', t) && s'.cellValue == s.cellValue[c := v]
            && s'.cellWriter == s.cellWriter[c := t] && s'.txns[t].predecessors == {}
            && s'.now == s.now + 1 && |s'.txns| == |s.txns| && s'.txns[..t] == s.txns[..t]
  {
    assert s.cellWriter + WriterMap(map[c := v], t) == s.cellWriter[c := t];
  }

  /** A transaction commits if it may, and is aborted otherwise. */
  function Finished(s: State, t: TxnId): (s': State)
    requires WellFormed(s)
    ensures WellFormed(s')
  {
    if CommitValid(s, t) then Step(s, Commit(t)) else Step(s, Abort(t))
  }

  predicate FinishAccepted(s: State, t: TxnId) {
    if CommitValid(s, t) then Enabled(s, Commit(t)) else Enabled(s, Abort(t))
  }

  lemma {:induction false} ReaderFinishes(s: State, t: TxnId, rc: Cell, v: Value)
    requires Base(s) && Reader(s, t, rc, v) && rc in s.cellValue && s.now < MAX_U64
    ensures FinishAccepted(s, t) && (CommitValid(s, t) <==> s.cellValue[rc] == v)
    ensures ReaderDone(s, Finished(s, t), t, s.cellValue[rc] == v)
  {
    ReaderCommitsIff(s, t, rc, v);
    if CommitValid(s, t) {
      CommitKeepsBase(s, t);
    } else {
      AbortKeepsBase(s, t);
    }
  }

  /** `t` is the newest transaction, and everything before it is as it was. */
  ghost predicate Adds(s: State, s': State, t: TxnId) {
    t == |s.txns| && |s'.txns| == t + 1 && s'.txns[..t] == s.txns
  }

  /** From `s` to `s1` a reader of `rc` began that will write `v` to `wc`. */
  ghost predicate ReaderJoined(s: State, s1: State, rc: Cell, wc: Cell, v: Value) {
    && Base(s1) && Adds(s, s1, |s.txns|) && s1.now == s.now + 3
    && s1.cellValue == s.cellValue && s1.cellWriter == s.cellWriter
    && rc in s.cellValue && Reader(s1, |s.txns|, rc, s.cellValue[rc]) && s1.txns[|s.txns|].writeValues == map[wc := v]
    && s1.txns[|s.txns|].predecessors == ReadBasis(s, rc)
  }

  /** What reading a cell makes the reader rest on. */
  ghost function ReadBasis(s: State, c: Cell): set<TxnId> {
    if c in s.cellWriter && s.cellWriter[c] < |s.txns|
    then {s.cellWriter[c]} + s.txns[s.cellWriter[c]].predecessors else {}
  }

  /** From `s1` to `s2` a writer put `v` into `c`. */
  ghost predicate WriterLanded(s1: State, s2: State, c: Cell, v: Value) {
    && Base(s2) && Adds(s1, s2, |s1.txns|) && s2.now == s1.now + 3
    && s2.cellValue == s1.cellValue[c := v] && s2.cellWriter == s1.cellWriter[c := |s1.txns|]
    && Live(s2, |s1.txns|) && s2.txns[|s1.txns|].predecessors == {}
  }

  /** From `s2` to `s3` the reader `t` committed, if its value still stood, or was aborted. */
  ghost predicate ReaderDone(s2: State, s3: State, t: TxnId, linked: bool) {
    && Base(s3) && s3.now == s2.now + 1 && |s3.txns| == |s2.txns| && t < |s2.txns| && !s2.txns[t].committed
    && s3.cellValue == (if linked then s2.cellValue + s2.txns[t].writeValues else s2.cellValue)
    && s3.cellWriter == (if linked then s2.cellWriter + WriterMap(s2.txns[t].writeValues, t) else s2.cellWriter)
    && (Live(s3, t) <==> linked) && s3.txns[t].predecessors == s2.txns[t].predecessors
    && forall u: TxnId :: u < |s2.txns| && u != t ==> s3.txns[u] == s2.txns[u]
  }

  /** Exactly these are live, and each rests on exactly what the layout says. */
  ghost predicate Laid(s: State, ids: seq<TxnId>, interleave: bool) {
    && (forall t: TxnId :: Live(s, t) <==> t in ids)
    && forall j: nat :: j < |ids| ==> LaidAt(s, ids, j, interleave)
  }

  ghost predicate LaidAt(s: State, ids: seq<TxnId>, j: nat, interleave: bool)
    requires j < |ids|
  {
    ids[j] < |s.txns| && s.txns[ids[j]].predecessors == Basis(ids, j, interleave)
  }

  ghost predicate Chained(s: State, n: nat, interleave: bool) {
    |s.txns| == TxnsAfter(n, interleave) && Laid(s, CommittedIds(n, interleave), interleave)
  }

  /** Between rounds: the frontier cell exists with a value no later round writes, and the last commit wrote it. */
  ghost predicate Ready(s: State, k: nat, interleave: bool, frontier: Cell) {
    && Base(s) && frontier in s.cellValue && s.cellValue[frontier] < 900 + k && s.now <= 3 + 7 * k
    && Chained(s, k, interleave)
    && frontier in s.cellWriter && s.cellWriter[frontier] == CommittedIds(k, interleave)[k]
  }

  lemma ReaderStays(s: State, s': State, t: TxnId, rc: Cell, v: Value)
    requires Reader(s, t, rc, v) && Adds(s, s', |s.txns|)
    ensures Reader(s', t, rc, v) && s'.txns[t] == s.txns[t]
  {
    assert s'.txns[..|s.txns|][t] == s'.txns[t];
  }

  /** What the reader of round `k` finds when it is about to finish. */
  ghost predicate Midway(s: State, s2: State, k: nat, interrupted: bool, rc: Cell, wc: Cell)
    requires rc in s.cellValue
  {
    var t := |s.txns|;
    && Base(s2) && |s2.txns| == t + (if interrupted then 2 else 1) && s2.txns[..t] == s.txns && s2.now <= s.now + 6
    && Reader(s2, t, rc, s.cellValue[rc]) && s2.txns[t].writeValues == map[wc := 70 + k]
    && s2.txns[t].predecessors == ReadBasis(s, rc)
    && s2.cellValue == (if interrupted then s.cellValue[rc := 900 + k] else s.cellValue)
    && s2.cellWriter == (if interrupted then s.cellWriter[rc := t + 1] else s.cellWriter)
    && (interrupted ==> Live(s2, t + 1) && s2.txns[t + 1].predecessors == {})
  }

  lemma UninterruptedMidway(s: State, s1: State, k: nat, rc: Cell, wc: Cell)
    requires ReaderJoined(s, s1, rc, wc, 70 + k)
    ensures Midway(s, s1, k, false, rc, wc)
  {
  }

  lemma InterruptedMidway(s: State, s1: State, s2: State, k: nat, rc: Cell, wc: Cell)
    requires rc in s.cellValue && Midway(s, s1, k, false, rc, wc) && s1.now <= s.now + 3
    requires WriterLanded(s1, s2, rc, 900 + k)
    ensures Midway(s, s2, k, true, rc, wc)
  {
    ReaderStays(s1, s2, |s.txns|, rc, s.cellValue[rc]);
    assert s2.txns[..|s.txns|] == s2.txns[..|s1.txns|][..|s.txns|];
  }

  /** From `s` to `s'` transactions began, of which exactly `added` is live. */
  ghost predicate AddsOne(s: State, s': State, added: TxnId) {
    && |s.txns| <= added < |s'.txns| && s'.txns[..|s.txns|] == s.txns
    && forall u: TxnId :: |s.txns| <= u < |s'.txns| ==> (Live(s', u) <==> u == added)
  }

  lemma LiveAfter(s: State, s': State, added: TxnId, t: TxnId)
    requires AddsOne(s, s', added)
    ensures Live(s', t) <==> Live(s, t) || t == added
  {
    if t < |s.txns| {
      assert s'.txns[..|s.txns|][t] == s'.txns[t];
    }
  }

  lemma LaidStays(s: State, s': State, ids: seq<TxnId>, interleave: bool, added: TxnId, j: nat)
    requires AddsOne(s, s', added) && j < |ids| && LaidAt(s, ids, j, interleave)
    ensures LaidAt(s', ids + [added], j, interleave)
  {
    assert s'.txns[..|s.txns|][ids[j]] == s'.txns[ids[j]];
    BasisStays(ids, added, j, interleave);
  }

  lemma LaidLast(s: State, ids: seq<TxnId>, interleave: bool, added: TxnId)
    requires added < |s.txns| && s.txns[added].predecessors == Basis(ids, |ids|, interleave)
    ensures LaidAt(s, ids + [added], |ids|, interleave)
  {
    BasisStays(ids, added, |ids|, interleave);
  }

  lemma LaidNext(s: State, s': State, ids: seq<TxnId>, interleave: bool, added: TxnId)
    requires Laid(s, ids, interleave) && AddsOne(s, s', added)
    requires s'.txns[added].predecessors == Basis(ids, |ids|, interleave)
    ensures Laid(s', ids + [added], interleave)
  {
    forall t: TxnId ensures Live(s', t) <==> t in ids + [added] {
      LiveAfter(s, s', added, t);
    }
    forall j: nat | j < |ids + [added]| ensures LaidAt(s', ids + [added], j, interleave) {
      if j < |ids| {
        LaidStays(s, s', ids, interleave, added, j);
      } else {
        LaidLast(s', ids, interleave, added);
      }
    }
  }

  lemma RoundPrefix(s: State, s2: State, s3: State)
    requires |s.txns| < |s2.txns| == |s3.txns| && s2.txns[..|s.txns|] == s.txns
    requires forall u: TxnId :: u < |s2.txns| && u != |s.txns| ==> s3.txns[u] == s2.txns[u]
    ensures s3.txns[..|s.txns|] == s.txns
  {
    assert s3.txns[..|s.txns|] == s2.txns[..|s.txns|];
  }

  /** The transaction that commits in round `k` is the one the layout names. */
  lemma RoundAddsOne(s: State, s2: State, s3: State, k: nat, interrupted: bool, rc: Cell, wc: Cell, added: TxnId)
    requires rc in s.cellValue && Midway(s, s2, k, interrupted, rc, wc) && ReaderDone(s2, s3, |s.txns|, !interrupted)
    requires added == |s.txns| + if interrupted then 1 else 0
    ensures AddsOne(s, s3, added)
    ensures s3.txns[added].predecessors == if interrupted then {} else ReadBasis(s, rc)
  {
    RoundPrefix(s, s2, s3);
    if interrupted {
      assert s3.txns[added] == s2.txns[added];
    }
  }

  lemma FrontierBasis(s: State, k: nat, interleave: bool, frontier: Cell)
    requires Ready(s, k, interleave, frontier)
    ensures var ids := CommittedIds(k, interleave); ReadBasis(s, frontier) == {ids[k]} + Basis(ids, k, interleave)
  {
    assert LaidAt(s, CommittedIds(k, interleave), k, interleave);
  }

  lemma ChainedNext(s: State, s': State, k: nat, interleave: bool, ids: seq<TxnId>, added: TxnId)
    requires Chained(s, k, interleave) && ids == CommittedIds(k, interleave) && AddsOne(s, s', added)
    requires added == CommitOf(k, interleave) && |s'.txns| == added + 1
    requires s'.txns[added].predecessors
             == if Interrupted(k, interleave) then {} else {ids[k]} + Basis(ids, k, interleave)
    ensures Chained(s', k + 1, interleave)
  {
    BasisNext(ids, k, interleave);
    LaidNext(s, s', ids, interleave, added);
    ChainedBy(s', k, interleave);
  }

  lemma ChainedBy(s: State, k: nat, interleave: bool)
    requires Laid(s, CommittedIds(k, interleave) + [CommitOf(k, interleave)], interleave)
    requires |s.txns| == CommitOf(k, interleave) + 1
    ensures Chained(s, k + 1, interleave)
  {
    RoundAdds(k, interleave);
  }

  lemma RoundChains(s: State, s2: State, s3: State, k: nat, interleave: bool, rc: Cell, wc: Cell)
    requires Ready(s, k, interleave, rc) && Midway(s, s2, k, Interrupted(k, interleave), rc, wc)
    requires ReaderDone(s2, s3, |s.txns|, !Interrupted(k, interleave))
    ensures Chained(s3, k + 1, interleave)
  {
    var added := CommitOf(k, interleave);
    FrontierBasis(s, k, interleave, rc);
    RoundAddsOne(s, s2, s3, k, Interrupted(k, interleave), rc, wc, added);
    ChainedNext(s, s3, k, interleave, CommittedIds(k, interleave), added);
  }

  /** A finished round leaves the scenario ready for the next. */
  lemma {:induction false} RoundEnds(s: State, s2: State, s3: State, k: nat, interleave: bool, rc: Cell, wc: Cell)
    requires Ready(s, k, interleave, rc) && Midway(s, s2, k, Interrupted(k, interleave), rc, wc)
    requires ReaderDone(s2, s3, |s.txns|, !Interrupted(k, interleave))
    ensures Ready(s3, k + 1, interleave, if Interrupted(k, interleave) then rc else wc)
  {
    RoundChains(s, s2, s3, k, interleave, rc, wc);
    assert CommittedIds(k + 1, interleave)[k + 1] == |s.txns| + if Interrupted(k, interleave) then 1 else 0;
  }

  /** The root of the chain is the first commit. */
  lemma RootIsReady(s: State, base: Cell, v: Value, interleave: bool)
    requires WriterLanded(INITIAL, s, base, v) && v < 900
    ensures Ready(s, 0, interleave, base) && CommittedIds(0, interleave) == [0]
  {
    assert CommittedIds(0, interleave) == [0];
  }

  lemma InitialBase()
    ensures Base(INITIAL) && Reachable(INITIAL)
  {
    assert INITIAL == Run([]);
  }

  // -------------------------------------------------------------- the review

  function Exempt(reviewed: TxnId, late: bool): Option<TxnId> {
    if late then None else Some(reviewed)
  }

  /** Release, then perhaps retract, then release what is left. */
  function AfterRelease(s: State, reviewed: TxnId, late: bool): (s': State)
    requires WellFormed(s)
    ensures WellFormed(s')
  {
    IdPass(s, Exempt(reviewed, late), |s.txns|)
  }

  function AfterReview(s: State, reviewed: TxnId, retract: bool): (s': State)
    requires WellFormed(s)
    ensures WellFormed(s')
  {
    if retract then Step(s, Abort(reviewed)) else s
  }

  lemma {:induction false} IdPassKeepsInv(s: State, exempt: Option<TxnId>, n: nat)
    requires Inv(s)
    ensures Inv(IdPass(s, exempt, n))
  {
    if n != 0 {
      IdPassKeepsInv(s, exempt, n - 1);
      StepKeepsInv(IdPass(s, exempt, n - 1), Externalize(n - 1));
    }
  }

  lemma SmallerIsCausal(s: State)
    requires PredecessorsSmaller(s)
    ensures IdCausal(s)
  {
  }

  /** After the first pass everything due has left, except the reviewed transaction and what rests on it. */
  lemma FirstPass(s: State, reviewed: TxnId, late: bool)
    requires Base(s) && Live(s, reviewed) && s.now + |s.txns| <= MAX_U64
    ensures var s1 := AfterRelease(s, reviewed, late);
            && Inv(s1) && PredecessorsSmaller(s1) && s1.now <= s.now + |s.txns| && |s1.txns| == |s.txns|
            && Live(s1, reviewed) && (Out(s1, reviewed) <==> late)
            && forall t: TxnId :: t < |s.txns| ==>
                 (Out(s1, t) <==> Live(s, t) && (late || (t != reviewed && reviewed !in s.txns[t].predecessors)))
  {
    SmallerIsCausal(s);
    IdPassKeepsInv(s, Exempt(reviewed, late), |s.txns|);
    IdPassReleases(s, Exempt(reviewed, late), |s.txns|);
    var s1 := AfterRelease(s, reviewed, late);
    forall t: TxnId | t < |s.txns|
      ensures s1.txns[t] == s.txns[t].(externalized := t in Leaving(s, Exempt(reviewed, late), |s.txns|))
    {
      var leaves := t in Leaving(s, Exempt(reviewed, late), |s.txns|);
      assert s1.txns[t] == s.txns[t].(externalized := s.txns[t].externalized || leaves);
    }
  }

  /** A late review finds its transaction out, and its retraction is refused; an early one is accepted. */
  lemma Review(s1: State, reviewed: TxnId, retract: bool)
    requires Inv(s1) && PredecessorsSmaller(s1) && Live(s1, reviewed) && s1.now < MAX_U64
    ensures Enabled(s1, Abort(reviewed)) <==> !Out(s1, reviewed)
    ensures var s2 := AfterReview(s1, reviewed, retract);
            && Inv(s2) && PredecessorsSmaller(s2) && s2.now <= s1.now + 1 && |s2.txns| == |s1.txns|
            && (Live(s2, reviewed) <==> !retract || Out(s1, reviewed))
  {
    if retract {
      StepKeepsInv(s1, Abort(reviewed));
    }
  }

  /** The last pass leaves nothing live inside. */
  lemma LastPass(s2: State)
    requires Inv(s2) && PredecessorsSmaller(s2) && s2.now + |s2.txns| <= MAX_U64
    ensures var s3 := IdPass(s2, None, |s2.txns|);
            && Inv(s3) && |s3.txns| == |s2.txns|
            && forall t: TxnId :: t < |s2.txns| ==> (Out(s3, t) <==> Live(s2, t)) && (Live(s3, t) <==> Live(s2, t))
  {
    SmallerIsCausal(s2);
    IdPassKeepsInv(s2, None, |s2.txns|);
    IdPassReleases(s2, None, |s2.txns|);
    var s3 := IdPass(s2, None, |s2.txns|);
    forall t: TxnId | t < |s2.txns|
      ensures s3.txns[t] == s2.txns[t].(externalized := s2.txns[t].externalized || t in Leaving(s2, None, |s2.txns|))
    {
    }
    forall t: TxnId | t < |s2.txns| && s2.txns[t].externalized ensures Live(s2, t) {
    }
  }

  // ------------------------------------------------------------- its end

  /** Asked in a pass and still inside after it. */
  ghost predicate Waits(s: State, s': State, exempt: Option<TxnId>, id: TxnId) {
    Live(s, id) && exempt != Some(id) && !Out(s, id) && !Out(s', id)
  }

  function FinalState(s: State, reviewed: TxnId, late: bool, retract: bool): (s': State)
    requires WellFormed(s)
    ensures WellFormed(s')
  {
    var s2 := AfterReview(AfterRelease(s, reviewed, late), reviewed, retract);
    IdPass(s2, None, |s2.txns|)
  }

  /** At the end exactly the live transactions are out. */
  lemma {:induction false} ScenarioEnds(s: State, reviewed: TxnId, late: bool, retract: bool)
    requires Base(s) && Live(s, reviewed) && s.now + 2 * |s.txns| + 1 <= MAX_U64
    ensures var s1, s3 := AfterRelease(s, reviewed, late), FinalState(s, reviewed, late, retract);
            && (Enabled(s1, Abort(reviewed)) <==> !late)
            && Inv(s3) && |s3.txns| == |s.txns| && (Out(s3, reviewed) <==> !retract || late)
            && forall t: TxnId :: t < |s.txns| ==> (Out(s3, t) <==> Live(s3, t))
  {
    var s1 := AfterRelease(s, reviewed, late);
    FirstPass(s, reviewed, late);
    Review(s1, reviewed, retract);
    LastPass(AfterReview(s1, reviewed, retract));
  }

  ghost predicate Depends(s: State, t: TxnId, reviewed: TxnId) {
    Live(s, t) && reviewed in s.txns[t].predecessors
  }

  /** The first pass holds back exactly the dependents of a transaction under review, the last pass nobody. */
  lemma HeldAreDependents(s: State, reviewed: TxnId, late: bool, retract: bool, t: TxnId)
    requires Base(s) && Live(s, reviewed) && s.now + 2 * |s.txns| + 1 <= MAX_U64
    ensures var s1 := AfterRelease(s, reviewed, late);
            var s2 := AfterReview(s1, reviewed, retract);
            && (Waits(s, s1, Exempt(reviewed, late), t) <==> !late && Depends(s, t, reviewed))
            && !Waits(s2, FinalState(s, reviewed, late, retract), None, t)
  {
    var s1 := AfterRelease(s, reviewed, late);
    FirstPass(s, reviewed, late);
    Review(s1, reviewed, retract);
    LastPass(AfterReview(s1, reviewed, retract));
  }

  /** A retraction in time flags exactly the same dependents; otherwise nothing committed is flagged. */
  lemma CascadedAreDependents(s: State, reviewed: TxnId, late: bool, retract: bool, t: TxnId)
    requires Base(s) && Live(s, reviewed) && s.now + 2 * |s.txns| + 1 <= MAX_U64 && t < |s.txns| && t != reviewed
    ensures var s3 := FinalState(s, reviewed, late, retract);
            && |s3.txns| == |s.txns|
            && (s3.txns[t].committed && s3.txns[t].aborted <==> retract && !late && Depends(s, t, reviewed))
  {
    var s1 := AfterRelease(s, reviewed, late);
    FirstPass(s, reviewed, late);
    PassChangesOnlyReleases(s, Exempt(reviewed, late), |s.txns|, t);
    Review(s1, reviewed, retract);
    var s2 := AfterReview(s1, reviewed, retract);
    PassChangesOnlyReleases(s2, None, |s2.txns|, t);
  }

  lemma {:induction false} PassChangesOnlyReleases(s: State, exempt: Option<TxnId>, n: nat, u: TxnId)
    requires WellFormed(s) && u < |s.txns|
    ensures |IdPass(s, exempt, n).txns| == |s.txns|
    ensures IdPass(s, exempt, n).txns[u] == s.txns[u].(externalized := IdPass(s, exempt, n).txns[u].externalized)
    ensures n <= u ==> IdPass(s, exempt, n).txns[u] == s.txns[u]
  {
    if n != 0 {
      PassChangesOnlyReleases(s, exempt, n - 1, u);
      AskChangesOnlyItself(IdPass(s, exempt, n - 1), exempt, n - 1);
    }
  }

  lemma AskChangesOnlyItself(s: State, exempt: Option<TxnId>, t: TxnId)
    requires WellFormed(s)
    ensures var s' := AskUnless(s, exempt, t);
            && |s'.txns| == |s.txns|
            && forall u: TxnId :: u < |s.txns| ==>
                 s'.txns[u] == s.txns[u].(externalized := s.txns[u].externalized
                                            || (u == t && exempt != Some(t) && Enabled(s, Externalize(t))))
  {
  }

  /** Asked at its turn, and refused. */
  predicate RefusedAt(s: State, exempt: Option<TxnId>, id: TxnId)
    requires WellFormed(s)
  {
    Live(s, id) && !Out(s, id) && exempt != Some(id) && !Enabled(s, Externalize(id))
  }

  /** Who is refused in the first `n` turns of a pass. */
  function RefusedInPass(s: State, exempt: Option<TxnId>, n: nat): set<TxnId>
    requires WellFormed(s)
  {
    if n == 0 then {}
    else RefusedInPass(s, exempt, n - 1) + if RefusedAt(IdPass(s, exempt, n - 1), exempt, n - 1) then {n - 1} else {}
  }

  lemma {:induction false} RefusedAreWaiting(s: State, exempt: Option<TxnId>, n: nat, id: TxnId)
    requires WellFormed(s) && n <= |s.txns|
    ensures id in RefusedInPass(s, exempt, n) <==> id < n && Waits(s, IdPass(s, exempt, n), exempt, id)
  {
    if n != 0 {
      RefusedAreWaiting(s, exempt, n - 1, id);
      LastTurn(s, exempt, n, id);
    }
  }

  /** The last turn of a pass decides about its own transaction and no other. */
  lemma LastTurn(s: State, exempt: Option<TxnId>, n: nat, id: TxnId)
    requires WellFormed(s) && 0 < n <= |s.txns|
    requires id in RefusedInPass(s, exempt, n - 1) <==> id < n - 1 && Waits(s, IdPass(s, exempt, n - 1), exempt, id)
    ensures id in RefusedInPass(s, exempt, n) <==> id < n && Waits(s, IdPass(s, exempt, n), exempt, id)
  {
    if id < n - 1 {
      TurnLeavesOthers(s, exempt, n, id);
    } else if id == n - 1 {
      RefusedAtOwnTurn(s, exempt, n);
    }
  }

  lemma TurnLeavesOthers(s: State, exempt: Option<TxnId>, n: nat, id: TxnId)
    requires WellFormed(s) && 0 < n <= |s.txns| && id < n - 1
    ensures Out(IdPass(s, exempt, n), id) == Out(IdPass(s, exempt, n - 1), id)
  {
    PassChangesOnlyReleases(s, exempt, n - 1, id);
    AskChangesOnlyItself(IdPass(s, exempt, n - 1), exempt, n - 1);
  }

  lemma RefusedAtOwnTurn(s: State, exempt: Option<TxnId>, n: nat)
    requires WellFormed(s) && 0 < n <= |s.txns|
    ensures RefusedAt(IdPass(s, exempt, n - 1), exempt, n - 1) <==> Waits(s, IdPass(s, exempt, n), exempt, n - 1)
  {
    PassChangesOnlyReleases(s, exempt, n - 1, n - 1);
    AskChangesOnlyItself(IdPass(s, exempt, n - 1), exempt, n - 1);
  }

  ghost function Dependents(s: State, reviewed: TxnId): set<TxnId> {
    set t: TxnId | t < |s.txns| && Depends(s, t, reviewed)
  }

  ghost function LiveIds(s: State): set<TxnId> {
    set t: TxnId | t < |s.txns| && Live(s, t)
  }

  ghost function OutIds(s: State): set<TxnId> {
    set t: TxnId | t < |s.txns| && Out(s, t)
  }

  /** Aborted after they committed, other than the reviewed one. */
  ghost function CascadedIds(s: State, reviewed: TxnId): set<TxnId> {
    set t: TxnId | t < |s.txns| && s.txns[t].committed && s.txns[t].aborted && t != reviewed
  }

  /** Who is refused in either of the two passes. */
  function HeldInScenario(s: State, reviewed: TxnId, late: bool, retract: bool): set<TxnId>
    requires WellFormed(s)
  {
    var s2 := AfterReview(AfterRelease(s, reviewed, late), reviewed, retract);
    RefusedInPass(s, Exempt(reviewed, late), |s.txns|) + RefusedInPass(s2, None, |s2.txns|)
  }

  lemma {:induction false} HeldOverall(s: State, reviewed: TxnId, late: bool, retract: bool)
    requires Base(s) && Live(s, reviewed) && s.now + 2 * |s.txns| + 1 <= MAX_U64
    ensures HeldInScenario(s, reviewed, late, retract) == if late then {} else Dependents(s, reviewed)
  {
    var s2 := AfterReview(AfterRelease(s, reviewed, late), reviewed, retract);
    forall t: TxnId
      ensures t in RefusedInPass(s, Exempt(reviewed, late), |s.txns|) <==> !late && Depends(s, t, reviewed)
    {
      RefusedAreWaiting(s, Exempt(reviewed, late), |s.txns|, t);
      HeldAreDependents(s, reviewed, late, retract, t);
    }
    forall t: TxnId ensures t !in RefusedInPass(s2, None, |s2.txns|) {
      RefusedAreWaiting(s2, None, |s2.txns|, t);
      HeldAreDependents(s, reviewed, late, retract, t);
    }
  }

  lemma {:induction false} CascadedOverall(s: State, reviewed: TxnId, late: bool, retract: bool)
    requires Base(s) && Live(s, reviewed) && s.now + 2 * |s.txns| + 1 <= MAX_U64
    ensures CascadedIds(FinalState(s, reviewed, late, retract), reviewed)
            == if retract && !late then Dependents(s, reviewed) else {}
  {
    ScenarioEnds(s, reviewed, late, retract);
    forall t: TxnId | t < |s.txns| && t != reviewed
      ensures t in CascadedIds(FinalState(s, reviewed, late, retract), reviewed)
              <==> retract && !late && Depends(s, t, reviewed)
    {
      CascadedAreDependents(s, reviewed, late, retract, t);
    }
    assert Depends(s, reviewed, reviewed) ==> false;
  }

  // ----------------------------------------------------- counted out

  /** Out at the end although a review asked to withdraw what they are or rest on. */
  ghost function ExposedIds(s: State, reviewed: TxnId): set<TxnId> {
    set t: TxnId | t < |s.txns| && Out(s, t) && (t == reviewed || reviewed in s.txns[t].predecessors)
  }

  /** What the layout says about any one commit. */
  lemma ChainedCounts(s: State, n: nat, interleave: bool, i: nat)
    requires Chained(s, n, interleave) && i <= n
    ensures var reviewed := CommittedIds(n, interleave)[i];
            && |LiveIds(s)| == n + 1 && |Dependents(s, reviewed)| == Downstream(n, interleave, i)
            && reviewed in LiveIds(s) && reviewed !in Dependents(s, reviewed) && Dependents(s, reviewed) <= LiveIds(s)
  {
    var ids := CommittedIds(n, interleave);
    IdsIncrease(n, interleave);
    ElementsCard(ids, LiveIds(s));
    forall t: TxnId
      ensures t in Dependents(s, ids[i]) <==> exists j: nat :: j < |ids| && ids[j] == t && RestsOn(j, i, interleave)
    {
      DependsByLayout(s, ids, interleave, i, t);
    }
    DownstreamCard(ids, n, interleave, i, Dependents(s, ids[i]));
    assert ids[i] in ids;
  }

  lemma DependsByLayout(s: State, ids: seq<TxnId>, interleave: bool, i: nat, t: TxnId)
    requires Laid(s, ids, interleave) && Increasing(ids) && i < |ids|
    ensures Depends(s, t, ids[i]) <==> exists j: nat :: j < |ids| && ids[j] == t && RestsOn(j, i, interleave)
  {
    assert Live(s, t) <==> t in ids;
    forall j: nat | j < |ids| && ids[j] == t
      ensures ids[i] in s.txns[t].predecessors <==> RestsOn(j, i, interleave)
    {
      assert LaidAt(s, ids, j, interleave);
    }
  }

  /** The scenario changes abort and release flags only. */
  lemma ScenarioKeepsRecord(s: State, reviewed: TxnId, late: bool, retract: bool, t: TxnId)
    requires Base(s) && Live(s, reviewed) && s.now + 2 * |s.txns| + 1 <= MAX_U64 && t < |s.txns|
    ensures var s3 := FinalState(s, reviewed, late, retract);
            && |s3.txns| == |s.txns| && s3.txns[t].committed == s.txns[t].committed
            && s3.txns[t].predecessors == s.txns[t].predecessors
  {
    var s1 := AfterRelease(s, reviewed, late);
    FirstPass(s, reviewed, late);
    PassChangesOnlyReleases(s, Exempt(reviewed, late), |s.txns|, t);
    Review(s1, reviewed, retract);
    var s2 := AfterReview(s1, reviewed, retract);
    PassChangesOnlyReleases(s2, None, |s2.txns|, t);
  }

  /** At the end everything live before is live and out, but what a timely retraction withdrew. */
  lemma LiveAtEnd(s: State, reviewed: TxnId, late: bool, retract: bool, t: TxnId)
    requires Base(s) && Live(s, reviewed) && s.now + 2 * |s.txns| + 1 <= MAX_U64
    ensures Live(FinalState(s, reviewed, late, retract), t)
            <==> Live(s, t) && !(retract && !late && (t == reviewed || Depends(s, t, reviewed)))
  {
    ScenarioEnds(s, reviewed, late, retract);
    if t < |s.txns| {
      ScenarioKeepsRecord(s, reviewed, late, retract, t);
      if t != reviewed {
        CascadedAreDependents(s, reviewed, late, retract, t);
      }
    }
  }

  lemma LiveIdsAtEnd(s: State, reviewed: TxnId, late: bool, retract: bool)
    requires Base(s) && Live(s, reviewed) && s.now + 2 * |s.txns| + 1 <= MAX_U64
    ensures var s3 := FinalState(s, reviewed, late, retract);
            && OutIds(s3) == LiveIds(s3)
            && LiveIds(s3) == if retract && !late then LiveIds(s) - {reviewed} - Dependents(s, reviewed) else LiveIds(s)
  {
    ScenarioEnds(s, reviewed, late, retract);
    forall t: TxnId
      ensures Live(FinalState(s, reviewed, late, retract), t)
              <==> Live(s, t) && !(retract && !late && (t == reviewed || Depends(s, t, reviewed)))
    {
      LiveAtEnd(s, reviewed, late, retract, t);
    }
  }

  /** A refused retraction leaves the reviewed effects and all that rests on them out; an accepted one nothing. */
  lemma ExposedAtEnd(s: State, reviewed: TxnId, late: bool)
    requires Base(s) && Live(s, reviewed) && s.now + 2 * |s.txns| + 1 <= MAX_U64
    ensures ExposedIds(FinalState(s, reviewed, late, true), reviewed)
            == if late then {reviewed} + Dependents(s, reviewed) else {}
  {
    ScenarioEnds(s, reviewed, late, true);
    forall t: TxnId
      ensures t in ExposedIds(FinalState(s, reviewed, late, true), reviewed)
              <==> late && (t == reviewed || Depends(s, t, reviewed))
    {
      LiveAtEnd(s, reviewed, late, true, t);
      if t < |s.txns| {
        ScenarioKeepsRecord(s, reviewed, late, true, t);
      }
    }
  }

  function ReviewCall(reviewed: TxnId, retract: bool): seq<Action> {
    if retract then [Abort(reviewed)] else []
  }

  /** The calls of the two passes and the review between them. */
  function ReviewCalls(n: nat, reviewed: TxnId, late: bool, retract: bool): seq<Action> {
    IdPassCalls(Exempt(reviewed, late), n) + ReviewCall(reviewed, retract) + IdPassCalls(None, n)
  }

  lemma ReviewFromRun(calls: seq<Action>, s: State, reviewed: TxnId, retract: bool)
    requires s == Run(calls)
    ensures AfterReview(s, reviewed, retract) == Run(calls + ReviewCall(reviewed, retract))
  {
    if retract {
      RunFromSnoc(INITIAL, calls, Abort(reviewed));
    } else {
      assert calls + ReviewCall(reviewed, retract) == calls;
    }
  }

  lemma ReviewKeepsCount(s: State, reviewed: TxnId, late: bool, retract: bool)
    requires Base(s) && Live(s, reviewed) && s.now + |s.txns| + 1 <= MAX_U64
    ensures |AfterReview(AfterRelease(s, reviewed, late), reviewed, retract).txns| == |s.txns|
  {
    FirstPass(s, reviewed, late);
    Review(AfterRelease(s, reviewed, late), reviewed, retract);
  }

  lemma Regroup(a: seq<Action>, b: seq<Action>, c: seq<Action>, d: seq<Action>)
    ensures a + b + c + d == a + (b + c + d)
  {
  }

  lemma FinalIsRun(calls: seq<Action>, s: State, reviewed: TxnId, late: bool, retract: bool)
    requires s == Run(calls) && Base(s) && Live(s, reviewed) && s.now + 2 * |s.txns| + 1 <= MAX_U64
    ensures FinalState(s, reviewed, late, retract) == Run(calls + ReviewCalls(|s.txns|, reviewed, late, retract))
  {
    var n := |s.txns|;
    var s1 := AfterRelease(s, reviewed, late);
    var released := calls + IdPassCalls(Exempt(reviewed, late), n);
    var decided := released + ReviewCall(reviewed, retract);
    ReviewKeepsCount(s, reviewed, late, retract);
    IdPassFromRun(calls, Exempt(reviewed, late), n);
    ReviewFromRun(released, s1, reviewed, retract);
    IdPassFromRun(decided, None, n);
    Regroup(calls, IdPassCalls(Exempt(reviewed, late), n), ReviewCall(reviewed, retract), IdPassCalls(None, n));
  }

  /** A report's figures are those of a state. */
  ghost predicate Reports(s: State, reviewed: TxnId, retract: bool, o: Outcome) {
    && o.released == |OutIds(s)| && o.live == |LiveIds(s)| && o.cascaded == |CascadedIds(s, reviewed)|
    && o.exposed == if retract then |ExposedIds(s, reviewed)| else 0
  }

  lemma WithdrawnCard(live: set<TxnId>, reviewed: TxnId, dependents: set<TxnId>)
    requires reviewed in live && reviewed !in dependents && dependents <= live
    ensures |live - {reviewed} - dependents| == |live| - 1 - |dependents|
    ensures |{reviewed} + dependents| == 1 + |dependents|
  {
    assert live == (live - {reviewed} - dependents) + ({reviewed} + dependents);
  }

  predicate SameCounts(o: Outcome, g: Outcome) {
    && o.cascaded == g.cascaded && o.held == g.held && o.released == g.released && o.live == g.live
    && o.exposed == g.exposed
  }

  /** The sizes of the sets the scenario ends with are the figures of the closed form. */
  lemma FiguresClose(shape: Shape, reviewed: TxnId, live: set<TxnId>, dependents: set<TxnId>, o: Outcome)
    requires shape.abortAt < shape.chain
    requires reviewed in live && reviewed !in dependents && dependents <= live
    requires |live| == shape.chain + 1 && |dependents| == Affected(shape)
    requires var timely := shape.retract && !shape.lateReview;
             && o.released == o.live == |if timely then live - {reviewed} - dependents else live|
             && o.cascaded == |if timely then dependents else {}|
             && o.held == |if shape.lateReview then {} else dependents|
             && o.exposed == if shape.retract && shape.lateReview then |{reviewed} + dependents| else 0
    ensures SameCounts(o, GuardedOutcome(shape))
  {
    WithdrawnCard(live, reviewed, dependents);
  }

  /** What the passes held, and what their end shows, as sets. */
  lemma ScenarioSets(s: State, reviewed: TxnId, late: bool, retract: bool, s3: State)
    requires Base(s) && Live(s, reviewed) && s.now + 2 * |s.txns| + 1 <= MAX_U64
    requires s3 == FinalState(s, reviewed, late, retract)
    ensures OutIds(s3) == LiveIds(s3)
    ensures LiveIds(s3) == if retract && !late then LiveIds(s) - {reviewed} - Dependents(s, reviewed) else LiveIds(s)
    ensures CascadedIds(s3, reviewed) == if retract && !late then Dependents(s, reviewed) else {}
    ensures retract ==> ExposedIds(s3, reviewed) == if late then {reviewed} + Dependents(s, reviewed) else {}
  {
    LiveIdsAtEnd(s, reviewed, late, retract);
    CascadedOverall(s, reviewed, late, retract);
    if retract {
      ExposedAtEnd(s, reviewed, late);
    }
  }

  /** So on a chain laid out as planned every counted figure has its closed form. */
  lemma ReportIsClosed(s: State, shape: Shape, reviewed: TxnId, s3: State, held: set<TxnId>, o: Outcome)
    requires shape.abortAt < shape.chain && Base(s) && Chained(s, shape.chain, shape.interleave)
    requires s.now + 2 * |s.txns| + 1 <= MAX_U64
    requires reviewed == CommittedIds(shape.chain, shape.interleave)[shape.abortAt]
    requires s3 == FinalState(s, reviewed, shape.lateReview, shape.retract)
    requires held == if shape.lateReview then {} else Dependents(s, reviewed)
    requires Reports(s3, reviewed, shape.retract, o) && o.held == |held|
    ensures SameCounts(o, GuardedOutcome(shape))
  {
    ChainedCounts(s, shape.chain, shape.interleave, shape.abortAt);
    ScenarioSets(s, reviewed, shape.lateReview, shape.retract, s3);
    FiguresClose(shape, reviewed, LiveIds(s), Dependents(s, reviewed), o);
  }
}
