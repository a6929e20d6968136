/**
 What the runtime does, told from the journal of its accepted calls alone: who has begun, committed and
 left, what serial replay of the commits leaves, whom each reader rests on, and from these when a call is
 accepted.  No field of the runtime is looked at, and the runtime is proved to do exactly this.
 */
module L2Reference {
  import opened Common
  import opened Reachability
  import opened L2Model
  import opened L2Invariant
  import opened L2Closure

  type Journal = seq<Action>

  // ------------------------------------------------- what a journal says

  function Begun(j: Journal): nat {
    if j == [] then 0 else Begun(j[..|j| - 1]) + if j[|j| - 1].Begin? then 1 else 0
  }

  /** The last write of each cell. */
  function WritesOf(j: Journal, t: TxnId): map<Cell, Value> {
    if j == [] then map[]
    else
      var before := WritesOf(j[..|j| - 1], t);
      match j[|j| - 1]
      case Write(u, c, v) => if u == t then before[c := v] else before
      case _ => before
  }

  /** The values the commits leave, run one after the other in the order they were made. */
  function Replay(j: Journal): map<Cell, Value> {
    if j == [] then map[]
    else
      var front := j[..|j| - 1];
      match j[|j| - 1]
      case Commit(t) => Replay(front) + WritesOf(front, t)
      case _ => Replay(front)
  }

  /** Who wrote each of them. */
  function Writers(j: Journal): map<Cell, TxnId> {
    if j == [] then map[]
    else
      var front := j[..|j| - 1];
      match j[|j| - 1]
      case Commit(t) => Writers(front) + WriterMap(WritesOf(front, t), t)
      case _ => Writers(front)
  }

  /** What the last read of each cell saw. */
  function ReadsOf(j: Journal, t: TxnId): map<Cell, Value> {
    if j == [] then map[]
    else
      var front := j[..|j| - 1];
      match j[|j| - 1]
      case Read(u, c) =>
        if u == t && c in Replay(front) then ReadsOf(front, t)[c := Replay(front)[c]] else ReadsOf(front, t)
      case _ => ReadsOf(front, t)
  }

  /** Whose value that was. */
  function SourcesOf(j: Journal, t: TxnId): map<Cell, TxnId> {
    if j == [] then map[]
    else
      var front := j[..|j| - 1];
      match j[|j| - 1]
      case Read(u, c) =>
        if u == t && c in Writers(front) then SourcesOf(front, t)[c := Writers(front)[c]] else SourcesOf(front, t)
      case _ => SourcesOf(front, t)
  }

  /** And when it was read: the place of the read in the journal. */
  function TimesOf(j: Journal, t: TxnId): map<Cell, Time> {
    if j == [] then map[]
    else
      var front := j[..|j| - 1];
      match j[|j| - 1]
      case Read(u, c) => if u == t then TimesOf(front, t)[c := |front|] else TimesOf(front, t)
      case _ => TimesOf(front, t)
  }

  /** From every reader to the writer whose value it saw. */
  function ReadFrom(j: Journal): Edges {
    if j == [] then {}
    else
      var front := j[..|j| - 1];
      match j[|j| - 1]
      case Read(t, c) => if c in Writers(front) then ReadFrom(front) + {(t, Writers(front)[c])} else ReadFrom(front)
      case _ => ReadFrom(front)
  }

  /** Withdrawn, or resting on what was when it was. */
  ghost predicate Aborted(j: Journal, t: TxnId) {
    j != [] &&
      var front := j[..|j| - 1];
      match j[|j| - 1]
      case Abort(u) => Aborted(front, t) || t == u || Reaches(ReadFrom(front), t, u)
      case _ => Aborted(front, t)
  }

  /** Every value seen is still there. */
  predicate Stands(seen: map<Cell, Value>, values: map<Cell, Value>) {
    forall c: Cell :: c in seen ==> c in values && values[c] == seen[c]
  }

  ghost predicate RestsOnNothingAborted(j: Journal, t: TxnId) {
    forall p: TxnId :: Reaches(ReadFrom(j), t, p) ==> !Aborted(j, p)
  }

  ghost predicate RestsOnReleased(j: Journal, t: TxnId) {
    forall p: TxnId :: Reaches(ReadFrom(j), t, p) ==> Externalize(p) in j
  }

  /** When a call is accepted. */
  ghost predicate Admits(j: Journal, a: Action) {
    && |j| < MAX_U64
    && match a
       case Begin => Begun(j) < MAX_U64
       case Write(t, _, _) => t < Begun(j) && Commit(t) !in j
       case Read(t, c) => t < Begun(j) && Commit(t) !in j && c in Replay(j)
       case Commit(t) =>
         && t < Begun(j) && Commit(t) !in j && !Aborted(j, t)
         && Stands(ReadsOf(j, t), Replay(j)) && RestsOnNothingAborted(j, t)
       case Abort(t) => t < Begun(j) && Externalize(t) !in j
       case Externalize(t) =>
         Commit(t) in j && !Aborted(j, t) && Externalize(t) !in j && RestsOnReleased(j, t)
  }

  /** The accepted calls among `calls`. */
  ghost function JournalOf(calls: seq<Action>): Journal {
    if calls == [] then []
    else
      var j, a := JournalOf(calls[..|calls| - 1]), calls[|calls| - 1];
      if Admits(j, a) then j + [a] else j
  }

  // --------------------------------------------------- the runtime agrees

  /** The record of `t` is what the journal says of it, but for whom it rests on. */
  ghost predicate RecordAgrees(x: Txn, j: Journal, t: TxnId) {
    && x.started
    && (x.committed <==> Commit(t) in j) && (x.externalized <==> Externalize(t) in j)
    && (x.aborted <==> Aborted(j, t))
    && x.readValues == ReadsOf(j, t) && x.readFrom == SourcesOf(j, t) && x.readAt == TimesOf(j, t)
    && x.writeValues == WritesOf(j, t)
    && (x.committed ==> x.commitTime < |j| && j[x.commitTime] == Commit(t))
  }

  ghost predicate RecordsAgree(s: State, j: Journal) {
    && s.now == |j| && |s.txns| == Begun(j)
    && s.cellValue == Replay(j) && s.cellWriter == Writers(j)
    && (forall t: TxnId :: t < |s.txns| ==> RecordAgrees(s.txns[t], j, t))
    && forall i :: 0 <= i < |j| && !j[i].Begin? ==> j[i].t < |s.txns|
  }

  /** A transaction rests on exactly whom its reads reach. */
  ghost predicate BasesAgree(s: State, j: Journal) {
    forall t: TxnId, p: TxnId {:trigger p in s.txns[t].predecessors} :: t < |s.txns| ==>
      (p in s.txns[t].predecessors <==> Reaches(ReadFrom(j), t, p))
  }

  ghost predicate Agrees(s: State, j: Journal) {
    RecordsAgree(s, j) && BasesAgree(s, j)
  }

  /** A journal says nothing of a transaction it does not name. */
  lemma {:induction false} UnnamedIsBlank(j: Journal, t: TxnId)
    requires forall i :: 0 <= i < |j| && !j[i].Begin? ==> j[i].t != t
    ensures Commit(t) !in j && Externalize(t) !in j && !Aborted(j, t)
    ensures ReadsOf(j, t) == map[] && WritesOf(j, t) == map[] && SourcesOf(j, t) == map[] && TimesOf(j, t) == map[]
    ensures forall p: nat :: (t, p) !in ReadFrom(j)
  {
    if j != [] {
      var front, last := j[..|j| - 1], j[|j| - 1];
      UnnamedIsBlank(front, t);
      if last.Abort? && Reaches(ReadFrom(front), t, last.t) {
        var x := FirstStep(ReadFrom(front), t, last.t);
        assert false;
      }
    }
  }

  lemma BeginAgrees(s: State, j: Journal)
    requires RecordsAgree(s, j)
    ensures RecordsAgree(StepBegin(s), j + [Begin])
  {
    assert (j + [Begin])[..|j|] == j;
    UnnamedIsBlank(j, |s.txns|);
    forall t: TxnId | t < |StepBegin(s).txns| ensures RecordAgrees(StepBegin(s).txns[t], j + [Begin], t) {
      if t < |s.txns| {
        assert RecordAgrees(s.txns[t], j, t);
      }
    }
  }

  lemma WriteAgrees(s: State, j: Journal, t: TxnId, c: Cell, v: Value)
    requires RecordsAgree(s, j) && t < |s.txns|
    ensures RecordsAgree(StepWrite(s, t, c, v), j + [Write(t, c, v)])
  {
    var s', j' := StepWrite(s, t, c, v), j + [Write(t, c, v)];
    assert j'[..|j|] == j;
    forall u: TxnId | u < |s'.txns| ensures RecordAgrees(s'.txns[u], j', u) {
      assert RecordAgrees(s.txns[u], j, u);
    }
  }

  lemma ReadAgrees(s: State, j: Journal, t: TxnId, c: Cell)
    requires RecordsAgree(s, j) && WellFormed(s) && t < |s.txns| && c in s.cellValue
    ensures RecordsAgree(StepRead(s, t, c), j + [Read(t, c)])
  {
    var s', j' := StepRead(s, t, c), j + [Read(t, c)];
    assert j'[..|j|] == j;
    forall u: TxnId | u < |s'.txns| ensures RecordAgrees(s'.txns[u], j', u) {
      assert RecordAgrees(s.txns[u], j, u);
    }
  }

  lemma CommitAgrees(s: State, j: Journal, t: TxnId)
    requires RecordsAgree(s, j) && t < |s.txns|
    ensures RecordsAgree(StepCommit(s, t), j + [Commit(t)])
  {
    var s', j' := StepCommit(s, t), j + [Commit(t)];
    assert j'[..|j|] == j;
    assert RecordAgrees(s.txns[t], j, t);
    forall u: TxnId | u < |s'.txns| ensures RecordAgrees(s'.txns[u], j', u) {
      assert RecordAgrees(s.txns[u], j, u);
    }
  }

  lemma AbortAgrees(s: State, j: Journal, t: TxnId)
    requires Agrees(s, j) && t < |s.txns|
    ensures RecordsAgree(StepAbort(s, t), j + [Abort(t)])
  {
    var s', j' := StepAbort(s, t), j + [Abort(t)];
    assert j'[..|j|] == j;
    forall u: TxnId | u < |s'.txns| ensures RecordAgrees(s'.txns[u], j', u) {
      assert RecordAgrees(s.txns[u], j, u);
      assert t in s.txns[u].predecessors <==> Reaches(ReadFrom(j), u, t);
    }
  }

  lemma ExternalizeAgrees(s: State, j: Journal, t: TxnId)
    requires RecordsAgree(s, j) && t < |s.txns|
    ensures RecordsAgree(StepExternalize(s, t), j + [Externalize(t)])
  {
    var s', j' := StepExternalize(s, t), j + [Externalize(t)];
    assert j'[..|j|] == j;
    forall u: TxnId | u < |s'.txns| ensures RecordAgrees(s'.txns[u], j', u) {
      assert RecordAgrees(s.txns[u], j, u);
    }
  }

  lemma StepAgrees(s: State, j: Journal, a: Action)
    requires Agrees(s, j) && WellFormed(s) && Enabled(s, a)
    ensures RecordsAgree(Step(s, a), j + [a])
  {
    match a
    case Begin => BeginAgrees(s, j);
    case Write(t, c, v) => WriteAgrees(s, j, t, c, v);
    case Read(t, c) => ReadAgrees(s, j, t, c);
    case Commit(t) => CommitAgrees(s, j, t);
    case Abort(t) => AbortAgrees(s, j, t);
    case Externalize(t) => ExternalizeAgrees(s, j, t);
  }

  // ------------------------------------------------------------ the guards

  lemma CommitAdmitted(s: State, j: Journal, t: TxnId)
    requires Inv(s) && Agrees(s, j) && t < |s.txns|
    ensures CommitValid(s, t) <==>
              && Commit(t) !in j && !Aborted(j, t)
              && Stands(ReadsOf(j, t), Replay(j)) && RestsOnNothingAborted(j, t)
  {
    assert RecordAgrees(s.txns[t], j, t);
    BasesClean(s, j, t);
  }

  /** Whom a transaction rests on has committed, so only aborts can stand in its way. */
  lemma BasesClean(s: State, j: Journal, t: TxnId)
    requires Inv(s) && Agrees(s, j) && t < |s.txns|
    ensures PredecessorsClean(s, s.txns[t]) <==> RestsOnNothingAborted(j, t)
  {
    forall p: TxnId
      ensures p in s.txns[t].predecessors <==> Reaches(ReadFrom(j), t, p)
      ensures p in s.txns[t].predecessors ==>
              p < |s.txns| && s.txns[p].committed && (s.txns[p].aborted <==> Aborted(j, p))
    {
      if p in s.txns[t].predecessors {
        assert p < |s.txns| && RecordAgrees(s.txns[p], j, p);
      }
    }
  }

  lemma ExternalizeAdmitted(s: State, j: Journal, t: TxnId)
    requires Inv(s) && Agrees(s, j) && t < |s.txns|
    ensures ExternalizeValid(s, t) <==>
              Commit(t) in j && !Aborted(j, t) && Externalize(t) !in j && RestsOnReleased(j, t)
  {
    assert RecordAgrees(s.txns[t], j, t);
    forall p: TxnId
      ensures p in s.txns[t].predecessors <==> Reaches(ReadFrom(j), t, p)
      ensures p in s.txns[t].predecessors ==> p < |s.txns| && (s.txns[p].externalized <==> Externalize(p) in j)
    {
      if p in s.txns[t].predecessors {
        assert p < |s.txns| && RecordAgrees(s.txns[p], j, p);
      }
    }
  }

  lemma UnbegunIsUnnamed(s: State, j: Journal, t: TxnId)
    requires RecordsAgree(s, j) && t >= |s.txns|
    ensures Commit(t) !in j
  {
  }

  lemma OpenIff(s: State, j: Journal, t: TxnId)
    requires RecordsAgree(s, j)
    ensures WriteValid(s, t) <==> t < Begun(j) && Commit(t) !in j
  {
    if t < |s.txns| {
      assert RecordAgrees(s.txns[t], j, t);
    }
  }

  lemma GuardsAgree(s: State, j: Journal, a: Action)
    requires Inv(s) && Agrees(s, j)
    ensures Enabled(s, a) <==> Admits(j, a)
  {
    match a
    case Begin =>
    case Write(t, _, _) => OpenIff(s, j, t);
    case Read(t, _) => OpenIff(s, j, t);
    case Commit(t) =>
      if t < |s.txns| {
        CommitAdmitted(s, j, t);
      }
    case Abort(t) =>
      if t < |s.txns| {
        assert RecordAgrees(s.txns[t], j, t);
      }
    case Externalize(t) =>
      if t < |s.txns| {
        ExternalizeAdmitted(s, j, t);
      } else {
        UnbegunIsUnnamed(s, j, t);
      }
  }

  // --------------------------------------------------------------- the run

  lemma EdgesExtend(s: State, j: Journal, a: Action, edges: Edges)
    requires RecordsAgree(s, j) && WellFormed(s) && edges == ReadFrom(j)
    requires Enabled(s, a)
    ensures ReadFrom(j + [a]) == edges + if a.Read? then {(a.t, s.cellWriter[a.c])} else {}
  {
    assert (j + [a])[..|j|] == j;
  }

  /** After any calls the runtime's state is what the journal of the accepted ones says. */
  lemma {:induction false} RunIsReference(calls: seq<Action>)
    ensures Agrees(Run(calls), JournalOf(calls)) && ReadFrom(JournalOf(calls)) == ReadEdges(calls)
  {
    if calls != [] {
      var before, a := calls[..|calls| - 1], calls[|calls| - 1];
      var s, j := Run(before), JournalOf(before);
      RunIsReference(before);
      RunKeepsInv(before);
      GuardsAgree(s, j, a);
      if Enabled(s, a) {
        StepAgrees(s, j, a);
        EdgesExtend(s, j, a, ReadEdges(before));
      }
    }
    forall t: TxnId, p: TxnId | t < |Run(calls).txns|
      ensures p in Run(calls).txns[t].predecessors <==> Reaches(ReadEdges(calls), t, p)
    {
      ClosureExact(calls, t, p);
    }
  }

  // ------------------------------------------------------- call by call

  /** A call acts exactly when the journal admits it, and otherwise nothing changes. */
  lemma {:induction false} AcceptedExactly(calls: seq<Action>, a: Action)
    ensures Enabled(Run(calls), a) <==> Admits(JournalOf(calls), a)
    ensures !Admits(JournalOf(calls), a) ==> Run(calls + [a]) == Run(calls)
  {
    RunIsReference(calls);
    RunKeepsInv(calls);
    GuardsAgree(Run(calls), JournalOf(calls), a);
    RunFromSnoc(INITIAL, calls, a);
  }

  lemma JournalSnoc(calls: seq<Action>, a: Action)
    ensures JournalOf(calls + [a]) == if Admits(JournalOf(calls), a) then JournalOf(calls) + [a] else JournalOf(calls)
  {
    assert (calls + [a])[..|calls|] == calls;
  }

  /**
   Reading: a transaction that has begun and not committed, however much it has read before, may read any
   cell the serial replay of the commits holds.  It is recorded with the replay's value, and from then on
   the reader rests on the cell's last writer and on all that one rests on.  In any other case the call
   changes nothing.
   */
  lemma {:induction false} ReadsExactly(calls: seq<Action>, t: TxnId, c: Cell)
    ensures var j, s, s' := JournalOf(calls), Run(calls), Run(calls + [Read(t, c)]);
            if |j| < MAX_U64 && t < Begun(j) && Commit(t) !in j && c in Replay(j)
            then
              && c in Writers(j) && t < |s.txns| && |s'.txns| == |s.txns| && Writers(j)[c] < |s.txns|
              && s'.txns[t].readValues == s.txns[t].readValues[c := Replay(j)[c]]
              && s'.txns[t].predecessors
                 == s.txns[t].predecessors + {Writers(j)[c]} + s.txns[Writers(j)[c]].predecessors
              && (forall u: TxnId :: u < |s.txns| && u != t ==> s'.txns[u] == s.txns[u])
              && s'.cellValue == s.cellValue && s'.cellWriter == s.cellWriter
            else s' == s
  {
    AcceptedExactly(calls, Read(t, c));
    RunIsReference(calls);
    RunFromSnoc(INITIAL, calls, Read(t, c));
  }

  /**
   Committing: accepted exactly for a transaction that has begun, is neither committed nor withdrawn, whose
   reads the replay still shows, and that rests on nothing withdrawn; then its writes go on top of the replay.
   */
  lemma {:induction false} CommitsExactly(calls: seq<Action>, t: TxnId)
    ensures var j, s, s' := JournalOf(calls), Run(calls), Run(calls + [Commit(t)]);
            if && |j| < MAX_U64 && t < Begun(j) && Commit(t) !in j && !Aborted(j, t)
               && Stands(ReadsOf(j, t), Replay(j)) && RestsOnNothingAborted(j, t)
            then
              && t < |s.txns| && |s'.txns| == |s.txns| && s'.txns[t].committed
              && s'.cellValue == Replay(j) + WritesOf(j, t)
              && s'.cellWriter == Writers(j) + WriterMap(WritesOf(j, t), t)
              && (forall u: TxnId :: u < |s.txns| && u != t ==> s'.txns[u] == s.txns[u])
            else s' == s
  {
    AcceptedExactly(calls, Commit(t));
    RunIsReference(calls);
    RunIsReference(calls + [Commit(t)]);
    JournalSnoc(calls, Commit(t));
    RunFromSnoc(INITIAL, calls, Commit(t));
    if t < |Run(calls).txns| {
      assert RecordAgrees(Run(calls).txns[t], JournalOf(calls), t);
    }
  }

  /** Nothing is refused for want of room in a run of fewer calls than the counters hold. */
  lemma {:induction false} JournalIsNoLonger(calls: seq<Action>)
    ensures |JournalOf(calls)| <= |calls| && Begun(JournalOf(calls)) <= |JournalOf(calls)|
  {
    if calls != [] {
      var before, a := calls[..|calls| - 1], calls[|calls| - 1];
      JournalIsNoLonger(before);
      assert (JournalOf(before) + [a])[..|JournalOf(before)|] == JournalOf(before);
    }
  }
}
