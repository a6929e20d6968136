/**
 What the two baseline stores do, told from the journal of their accepted calls alone: the serial replay of
 the commits, what each transaction's last reads saw of it, whom they read from, and from these when a
 commit is accepted.  Both stores are proved to do exactly this, so both are serializable stores that
 validate at commit; they differ in what a retraction reaches.
 */
module StoreReference {
  import opened Common
  import opened Reachability
  import opened Provenance
  import opened ReleaseAtCommit

  type Journal = seq<Call>

  // ------------------------------------------------- what a journal says

  function Begun(j: Journal): nat {
    if j == [] then 0 else Begun(j[..|j| - 1]) + if j[|j| - 1].CallBegin? then 1 else 0
  }

  predicate Committed(j: Journal, t: nat) {
    j != [] && (Committed(j[..|j| - 1], t) || (j[|j| - 1].CallCommit? && j[|j| - 1].t == t))
  }

  /** The values the commits leave, run one after the other in the order they were made. */
  function Replay(j: Journal): map<nat, nat> {
    if j == [] then map[]
    else
      match j[|j| - 1]
      case CallCommit(_, writes) => Replay(j[..|j| - 1]) + LastWrites(writes)
      case _ => Replay(j[..|j| - 1])
  }

  /** Who wrote each of them. */
  function Writers(j: Journal): map<nat, nat> {
    if j == [] then map[]
    else
      match j[|j| - 1]
      case CallCommit(t, writes) => Writers(j[..|j| - 1]) + WriterMap(LastWrites(writes), t)
      case _ => Writers(j[..|j| - 1])
  }

  /** What the last read of each cell saw, and whether it saw anything. */
  function LastReads(j: Journal, t: nat): map<nat, Option<nat>> {
    if j == [] then map[]
    else
      var front := j[..|j| - 1];
      match j[|j| - 1]
      case CallRead(u, c) =>
        if u == t then LastReads(front, t)[c := Lookup(Replay(front), c)] else LastReads(front, t)
      case _ => LastReads(front, t)
  }

  /** From every reader to the other transaction whose value it saw. */
  function ReadFrom(j: Journal): Edges {
    if j == [] then {}
    else
      var front := j[..|j| - 1];
      match j[|j| - 1]
      case CallRead(t, c) =>
        if c in Writers(front) && Writers(front)[c] != t then ReadFrom(front) + {(t, Writers(front)[c])}
        else ReadFrom(front)
      case _ => ReadFrom(front)
  }

  /** Retracted, or, where retractions cascade, resting on what was when it was. */
  ghost predicate Withdrawn(cascade: bool, j: Journal, t: nat) {
    j != [] &&
      var front := j[..|j| - 1];
      match j[|j| - 1]
      case CallRetract(u) => Withdrawn(cascade, front, t) || t == u || (cascade && Reaches(ReadFrom(front), t, u))
      case _ => Withdrawn(cascade, front, t)
  }

  /** Every cell read exists, with the value last seen in it; one that did not exist then can never do. */
  predicate Stands(seen: map<nat, Option<nat>>, values: map<nat, nat>) {
    forall c :: c in seen ==> c in values && seen[c] == Some(values[c])
  }

  ghost predicate RestsOnNothingWithdrawn(j: Journal, t: nat) {
    forall p: nat :: Reaches(ReadFrom(j), t, p) ==> !Withdrawn(true, j, p)
  }

  /** When a call acts. */
  ghost predicate Admits(cascade: bool, j: Journal, a: Call) {
    match a
    case CallBegin => true
    case CallRead(t, _) => t < Begun(j)
    case CallRetract(t) => t < Begun(j)
    case CallCommit(t, _) =>
      && t < Begun(j) && !Committed(j, t) && !Withdrawn(cascade, j, t)
      && Stands(LastReads(j, t), Replay(j))
      && (cascade ==> RestsOnNothingWithdrawn(j, t))
  }

  /** The calls that act, among `calls`. */
  ghost function JournalOf(cascade: bool, calls: seq<Call>): Journal {
    if calls == [] then []
    else
      var j, a := JournalOf(cascade, calls[..|calls| - 1]), calls[|calls| - 1];
      if Admits(cascade, j, a) then j + [a] else j
  }

  // ----------------------------------------------------- the stores agree

  ghost function RunOf(cascade: bool, calls: seq<Call>): Store {
    if cascade then CascadeRun(calls) else UnguardedRun(calls)
  }

  ghost function StepOf(cascade: bool, s: Store, a: Call): Store {
    if cascade then CascadeStep(s, a) else UnguardedStep(s, a)
  }

  ghost predicate ReadsAgree(x: Txn, seen: map<nat, Option<nat>>) {
    && (forall c: nat :: c in x.readCells <==> c in seen)
    && (forall c: nat :: c in x.readValues <==> c in seen && seen[c].Some?)
    && (forall c: nat :: c in x.readValues ==> seen[c] == Some(x.readValues[c]))
  }

  ghost predicate RecordAgrees(cascade: bool, x: Txn, j: Journal, t: nat) {
    && x.started && (x.committed <==> Committed(j, t)) && (x.externalized <==> Committed(j, t))
    && (x.aborted <==> Withdrawn(cascade, j, t))
    && ReadsAgree(x, LastReads(j, t))
    && (forall p: nat :: p in x.predecessors <==> (t, p) in ReadFrom(j))
  }

  ghost predicate Agrees(cascade: bool, s: Store, j: Journal) {
    && |s.txns| == Begun(j) && s.cellValue == Replay(j) && s.cellWriter == Writers(j)
    && (forall t: nat :: t < |s.txns| ==> RecordAgrees(cascade, s.txns[t], j, t))
    && (forall c: nat :: c in s.cellValue <==> c in s.cellWriter)
    && (forall i :: 0 <= i < |j| && !j[i].CallBegin? ==> j[i].t < |s.txns|)
    && (forall t: nat, p: nat :: (t, p) in ReadFrom(j) ==> t < |s.txns|)
  }

  lemma {:induction false} UnnamedIsBlank(cascade: bool, j: Journal, t: nat)
    requires forall i :: 0 <= i < |j| && !j[i].CallBegin? ==> j[i].t != t
    ensures !Committed(j, t) && !Withdrawn(cascade, j, t) && LastReads(j, t) == map[]
    ensures forall p: nat :: (t, p) !in ReadFrom(j)
  {
    if j != [] {
      var front, last := j[..|j| - 1], j[|j| - 1];
      UnnamedIsBlank(cascade, front, t);
      if last.CallRetract? && Reaches(ReadFrom(front), t, last.t) {
        var x := FirstStep(ReadFrom(front), t, last.t);
        assert false;
      }
    }
  }

  lemma {:induction false} SeenStayThere(j: Journal, t: nat, c: nat)
    requires c in LastReads(j, t) && LastReads(j, t)[c].Some?
    ensures c in Replay(j)
  {
    var front := j[..|j| - 1];
    if c in LastReads(front, t) && LastReads(front, t)[c].Some? {
      SeenStayThere(front, t, c);
    }
  }

  /** The store's closure is what reads reach. */
  lemma ClosureIsReach(cascade: bool, s: Store, j: Journal, t: nat, p: nat)
    requires Agrees(cascade, s, j) && t < |s.txns|
    ensures InClosure(s, t, p) <==> Reaches(ReadFrom(j), t, p)
  {
    GraphIsReadFrom(cascade, s, j);
    RestsIsReach(StoreGraph(s), t, p);
  }

  lemma GraphIsReadFrom(cascade: bool, s: Store, j: Journal)
    requires Agrees(cascade, s, j)
    ensures EdgesOf(StoreGraph(s)) == ReadFrom(j)
  {
    var edges := EdgesOf(StoreGraph(s));
    forall e: (nat, nat) ensures e in edges <==> e in ReadFrom(j) {
      var t, p := e.0, e.1;
      assert e == (t, p);
      if t < |s.txns| {
        assert RecordAgrees(cascade, s.txns[t], j, t);
      }
    }
  }

  lemma RestsIsReach(graph: Graph, t: nat, p: nat)
    requires t in graph
    ensures Rests(graph, graph[t], p) <==> Reaches(EdgesOf(graph), t, p)
  {
    var edges := EdgesOf(graph);
    if p in graph[t] {
      EdgeReaches(edges, t, p);
    } else if Rests(graph, graph[t], p) {
      var q: nat :| q in graph[t] && Reaches(edges, q, p);
      EdgeReaches(edges, t, q);
      ReachesTransitive(edges, t, q, p);
    }
    if Reaches(edges, t, p) {
      var x := FirstStep(edges, t, p);
      assert x in graph[t];
    }
  }

  // ------------------------------------------------------------ step by step

  lemma BeginAgrees(cascade: bool, s: Store, j: Journal)
    requires Agrees(cascade, s, j)
    ensures Agrees(cascade, Begin(s), j + [CallBegin])
  {
    var s', j' := Begin(s), j + [CallBegin];
    assert j'[..|j|] == j;
    UnnamedIsBlank(cascade, j, |s.txns|);
    forall t: nat | t < |s'.txns| ensures RecordAgrees(cascade, s'.txns[t], j', t) {
      if t < |s.txns| {
        assert RecordAgrees(cascade, s.txns[t], j, t);
      }
    }
  }

  lemma ReadIntoAgrees(cascade: bool, x: Txn, j: Journal, t: nat, c: nat)
    requires RecordAgrees(cascade, x, j, t)
    requires forall d: nat :: d in Replay(j) <==> d in Writers(j)
    ensures RecordAgrees(cascade, ReadInto(x, t, c, Lookup(Replay(j), c), Lookup(Writers(j), c)),
                         j + [CallRead(t, c)], t)
  {
    assert (j + [CallRead(t, c)])[..|j|] == j;
    if c in LastReads(j, t) && LastReads(j, t)[c].Some? {
      SeenStayThere(j, t, c);
    }
    SeesInto(x, LastReads(j, t), t, c, Lookup(Replay(j), c), Lookup(Writers(j), c));
    SourcesInto(x, ReadFrom(j), t, c, Lookup(Replay(j), c), Lookup(Writers(j), c));
  }

  lemma SeesInto(x: Txn, seen: map<nat, Option<nat>>, t: nat, c: nat, v: Option<nat>, w: Option<nat>)
    requires ReadsAgree(x, seen) && (c in seen && seen[c].Some? ==> v.Some?)
    ensures ReadsAgree(ReadInto(x, t, c, v, w), seen[c := v])
  {
  }

  lemma SourcesInto(x: Txn, edges: Edges, t: nat, c: nat, v: Option<nat>, w: Option<nat>)
    requires forall p: nat :: p in x.predecessors <==> (t, p) in edges
    ensures var more := if w.Some? && w.value != t then edges + {(t, w.value)} else edges;
            forall p: nat :: p in ReadInto(x, t, c, v, w).predecessors <==> (t, p) in more
  {
  }

  lemma ReadAgrees(cascade: bool, s: Store, j: Journal, t: nat, c: nat)
    requires Agrees(cascade, s, j) && t < |s.txns|
    ensures Agrees(cascade, Read(s, t, c), j + [CallRead(t, c)])
  {
    var s', j' := Read(s, t, c), j + [CallRead(t, c)];
    assert j'[..|j|] == j;
    ReadIntoAgrees(cascade, s.txns[t], j, t, c);
    forall u: nat | u < |s'.txns| ensures RecordAgrees(cascade, s'.txns[u], j', u) {
      assert RecordAgrees(cascade, s.txns[u], j, u);
    }
  }

  lemma PublishAgrees(cascade: bool, s: Store, j: Journal, t: nat, writes: seq<(nat, nat)>)
    requires Agrees(cascade, s, j) && t < |s.txns|
    ensures Agrees(cascade, Publish(s, t, writes), j + [CallCommit(t, writes)])
  {
    var s', j' := Publish(s, t, writes), j + [CallCommit(t, writes)];
    assert j'[..|j|] == j;
    forall u: nat | u < |s'.txns| ensures RecordAgrees(cascade, s'.txns[u], j', u) {
      assert RecordAgrees(cascade, s.txns[u], j, u);
    }
  }

  lemma RetractAgrees(cascade: bool, s: Store, s': Store, j: Journal, t: nat)
    requires Agrees(cascade, s, j) && t < |s.txns| && s' == if cascade then CascadeAbort(s, t) else Abort(s, t)
    ensures Agrees(cascade, s', j + [CallRetract(t)])
  {
    var j' := j + [CallRetract(t)];
    assert j'[..|j|] == j;
    forall u: nat | u < |s'.txns| ensures RecordAgrees(cascade, s'.txns[u], j', u) {
      ClosureIsReach(cascade, s, j, u, t);
      FlagAgrees(cascade, s.txns[u], s'.txns[u], j, t, u);
    }
  }

  lemma FlagAgrees(cascade: bool, x: Txn, x': Txn, j: Journal, t: nat, u: nat)
    requires RecordAgrees(cascade, x, j, u)
    requires x' == x.(aborted := x.aborted || u == t || (cascade && Reaches(ReadFrom(j), u, t)))
    ensures RecordAgrees(cascade, x', j + [CallRetract(t)], u)
  {
    assert (j + [CallRetract(t)])[..|j|] == j;
  }

  // ------------------------------------------------------------- the guard

  lemma FreshIff(cascade: bool, s: Store, j: Journal, t: nat)
    requires Agrees(cascade, s, j) && t < |s.txns|
    ensures ReadsFresh(s, t) <==> Stands(LastReads(j, t), Replay(j))
  {
    assert RecordAgrees(cascade, s.txns[t], j, t);
    var seen, values := LastReads(j, t), s.cellValue;
    assert ReadsAgree(s.txns[t], seen) && values == Replay(j);
    assert ReadsFresh(s, t) <==> forall c :: c in seen ==> c in values && seen[c] == Some(values[c]);
  }

  lemma CleanIff(s: Store, j: Journal, t: nat)
    requires Agrees(true, s, j) && Grounded(s) && t < |s.txns|
    ensures ClosureClean(s, t) <==> RestsOnNothingWithdrawn(j, t)
  {
    forall p: nat
      ensures InClosure(s, t, p) <==> Reaches(ReadFrom(j), t, p)
      ensures InClosure(s, t, p) ==> p < |s.txns| && (s.txns[p].aborted <==> Withdrawn(true, j, p))
    {
      ClosureIsReach(true, s, j, t, p);
      if InClosure(s, t, p) {
        ClosureIsCommitted(s, t, p);
        assert RecordAgrees(true, s.txns[p], j, p);
      }
    }
  }

  /** A commit is accepted exactly when the journal admits it. */
  lemma CommitAdmitted(cascade: bool, s: Store, j: Journal, t: nat, writes: seq<(nat, nat)>)
    requires Agrees(cascade, s, j) && Grounded(s) && t < |s.txns|
    ensures (CommitAccepted(s, t) && (cascade ==> ClosureClean(s, t))) <==> Admits(cascade, j, CallCommit(t, writes))
  {
    assert RecordAgrees(cascade, s.txns[t], j, t);
    FreshIff(cascade, s, j, t);
    if cascade {
      CleanIff(s, j, t);
    }
  }

  lemma StepAgrees(cascade: bool, s: Store, j: Journal, a: Call)
    requires Agrees(cascade, s, j) && Grounded(s)
    ensures Admits(cascade, j, a) ==> Agrees(cascade, StepOf(cascade, s, a), j + [a])
    ensures !Admits(cascade, j, a) ==> StepOf(cascade, s, a) == s
  {
    match a
    case CallBegin => BeginAgrees(cascade, s, j);
    case CallRead(t, c) =>
      if t < |s.txns| {
        ReadAgrees(cascade, s, j, t, c);
      }
    case CallCommit(t, writes) =>
      if t < |s.txns| {
        CommitAdmitted(cascade, s, j, t, writes);
        PublishAgrees(cascade, s, j, t, writes);
      }
    case CallRetract(t) =>
      if t < |s.txns| {
        RetractAgrees(cascade, s, StepOf(cascade, s, a), j, t);
      }
  }

  // --------------------------------------------------------------- the run

  lemma {:induction false} RunIsGrounded(cascade: bool, calls: seq<Call>)
    ensures Grounded(RunOf(cascade, calls))
  {
    if calls != [] {
      RunIsGrounded(cascade, calls[..|calls| - 1]);
      StepsStayGrounded(RunOf(cascade, calls[..|calls| - 1]), calls[|calls| - 1]);
    }
  }

  /** After any calls either store is what the journal of those that acted says. */
  lemma {:induction false} RunIsReference(cascade: bool, calls: seq<Call>)
    ensures Agrees(cascade, RunOf(cascade, calls), JournalOf(cascade, calls))
  {
    if calls != [] {
      var before, a := calls[..|calls| - 1], calls[|calls| - 1];
      RunIsReference(cascade, before);
      RunIsGrounded(cascade, before);
      StepAgrees(cascade, RunOf(cascade, before), JournalOf(cascade, before), a);
    }
  }

  lemma RunSnoc(cascade: bool, calls: seq<Call>, a: Call)
    ensures RunOf(cascade, calls + [a]) == StepOf(cascade, RunOf(cascade, calls), a)
  {
    assert (calls + [a])[..|calls|] == calls;
  }

  /**
   Committing, in either store: accepted exactly for a transaction that has begun, is neither committed nor
   withdrawn, and whose every read cell exists in the serial replay with the value last seen in it; where
   retractions cascade, it must rest on nothing withdrawn too.  Then its writes go on top of the replay and
   it is out at once; otherwise nothing changes.
   */
  lemma {:induction false} CommitsExactly(cascade: bool, calls: seq<Call>, t: nat, writes: seq<(nat, nat)>)
    ensures var j, s, s' := JournalOf(cascade, calls), RunOf(cascade, calls),
                            RunOf(cascade, calls + [CallCommit(t, writes)]);
            if && t < Begun(j) && !Committed(j, t) && !Withdrawn(cascade, j, t)
               && Stands(LastReads(j, t), Replay(j)) && (cascade ==> RestsOnNothingWithdrawn(j, t))
            then
              && t < |s.txns|
              && s'.txns == s.txns[t := s.txns[t].(committed := true, externalized := true)]
              && s'.cellValue == Replay(j) + LastWrites(writes)
              && s'.cellWriter == Writers(j) + WriterMap(LastWrites(writes), t)
            else s' == s
  {
    var s, j := RunOf(cascade, calls), JournalOf(cascade, calls);
    RunIsReference(cascade, calls);
    RunIsGrounded(cascade, calls);
    RunSnoc(cascade, calls, CallCommit(t, writes));
    if t < |s.txns| {
      CommitAdmitted(cascade, s, j, t, writes);
    }
  }

  /** So at every commit that acted, what its transaction had last read was what the serial replay before it shows. */
  lemma {:induction false} CommitsReadTheReplay(cascade: bool, calls: seq<Call>, i: nat)
    requires i < |JournalOf(cascade, calls)| && JournalOf(cascade, calls)[i].CallCommit?
    ensures var j := JournalOf(cascade, calls); Stands(LastReads(j[..i], j[i].t), Replay(j[..i]))
  {
    var before := calls[..|calls| - 1];
    var j := JournalOf(cascade, before);
    if i < |j| {
      CommitsReadTheReplay(cascade, before, i);
      assert JournalOf(cascade, calls)[..i] == j[..i];
    } else {
      assert JournalOf(cascade, calls)[..i] == j;
    }
  }
}
