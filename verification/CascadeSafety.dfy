/**
 What the superseded cascade store keeps: its own safety claim, that no surviving commit rests on an
 aborted transaction, and exactly which calls break it.
 */
module CascadeSafety {
  import opened Common
  import opened Provenance
  import opened ReleaseAtCommit

  /** No surviving commit rests on an aborted transaction. */
  ghost predicate SurvivorsClean(s: Store) {
    forall i: nat, p: nat :: InClosure(s, i, p) && s.txns[i].committed && !s.txns[i].aborted ==>
      p < |s.txns| && !s.txns[p].aborted
  }

  /** The read that breaks it: a surviving commit reads what an aborted transaction wrote. */
  predicate ReadTaints(s: Store, t: nat, c: nat) {
    && t < |s.txns| && s.txns[t].committed && !s.txns[t].aborted
    && c in s.cellWriter && s.cellWriter[c] != t
    && s.cellWriter[c] < |s.txns| && s.txns[s.cellWriter[c]].aborted
  }

  ghost function ClosureSet(s: Store, t: nat): (closure: set<nat>)
    requires Grounded(s)
    ensures forall p: nat :: p in closure <==> InClosure(s, t, p)
  {
    var closure := set p: nat | p < |s.txns| && InClosure(s, t, p);
    assert forall p: nat :: p in closure <==> InClosure(s, t, p) by {
      forall p: nat | InClosure(s, t, p) ensures p < |s.txns| {
        ClosureIsCommitted(s, t, p);
      }
    }
    closure
  }

  /** A read adds at most the writer and the writer's closure to closures that hold the reader. */
  lemma ClosureAfterRead(s: Store, t: nat, c: nat, i: nat, p: nat)
    requires Grounded(s) && t < |s.txns| && i < |s.txns| && InClosure(Read(s, t, c), i, p)
    ensures InClosure(s, i, p)
            || (c in s.cellWriter && s.cellWriter[c] != t && (i == t || InClosure(s, i, t))
                && (p == s.cellWriter[c] || InClosure(s, s.cellWriter[c], p)))
  {
    var s' := Read(s, t, c);
    var g := StoreGraph(s');
    var added :=
      if c in s.cellWriter && s.cellWriter[c] != t && (i == t || InClosure(s, i, t))
      then {s.cellWriter[c]} + ClosureSet(s, s.cellWriter[c]) else {};
    var inside := ClosureSet(s, i) + added;
    forall x: nat, y: nat | x in inside && x in g && y in g[x] ensures y in inside {
      if y in s.txns[x].predecessors {
        if InClosure(s, i, x) {
          ClosureExtends(s, i, x, y);
        } else if x != s.cellWriter[c] {
          ClosureExtends(s, s.cellWriter[c], x, y);
        }
      } else {
        assert x == t && y == s.cellWriter[c] && y != t;
      }
    }
    RestsStaysInside(g, s'.txns[i].predecessors, inside, p);
  }

  /** A read keeps the claim if and only if it does not hand a surviving commit an aborted value. */
  lemma {:induction false} ReadKeepsSurvivorsCleanIff(s: Store, t: nat, c: nat)
    requires Grounded(s) && SurvivorsClean(s) && t < |s.txns|
    ensures SurvivorsClean(Read(s, t, c)) <==> !ReadTaints(s, t, c)
  {
    var s' := Read(s, t, c);
    if ReadTaints(s, t, c) {
      assert s.cellWriter[c] in s'.txns[t].predecessors;
      assert InClosure(s', t, s.cellWriter[c]);
    } else {
      forall i: nat, p: nat | InClosure(s', i, p) && s'.txns[i].committed && !s'.txns[i].aborted
        ensures p < |s'.txns| && !s'.txns[p].aborted
      {
        ClosureAfterRead(s, t, c, i, p);
        if !InClosure(s, i, p) {
          if i != t {
            ClosureIsCommitted(s, i, t);
          }
        }
      }
    }
  }

  lemma BeginKeepsClosures(s: Store, i: nat, p: nat)
    requires Grounded(s) && InClosure(Begin(s), i, p)
    ensures InClosure(s, i, p)
  {
    var s' := Begin(s);
    if i < |s.txns| {
      assert s'.txns[i] == s.txns[i];
      assert EdgesOf(StoreGraph(s')) == EdgesOf(StoreGraph(s));
    }
  }

  lemma CommitKeepsSurvivorsClean(s: Store, t: nat, writes: seq<(nat, nat)>)
    requires Grounded(s) && SurvivorsClean(s) && t < |s.txns|
    ensures SurvivorsClean(CascadeCommit(s, t, writes))
  {
    var s' := CascadeCommit(s, t, writes);
    if s' != s {
      forall i: nat, p: nat | InClosure(s', i, p) && s'.txns[i].committed && !s'.txns[i].aborted
        ensures p < |s'.txns| && !s'.txns[p].aborted
      {
        ClosureFrame(s, s', i, p);
      }
    }
  }

  lemma CascadeKeepsSurvivorsClean(s: Store, t: nat)
    requires Grounded(s) && SurvivorsClean(s) && t < |s.txns|
    ensures SurvivorsClean(CascadeAbort(s, t))
  {
    var s' := CascadeAbort(s, t);
    forall i: nat, p: nat | InClosure(s', i, p) && s'.txns[i].committed && !s'.txns[i].aborted
      ensures p < |s'.txns| && !s'.txns[p].aborted
    {
      ClosureFrame(s, s', i, p);
      if InClosure(s, p, t) {
        InClosureTransitive(s, i, p, t);
      }
    }
  }

  /** The one call that breaks the claim. */
  ghost predicate Taints(s: Store, a: Call) {
    a.CallRead? && ReadTaints(s, a.t, a.c)
  }

  lemma StepKeepsSurvivorsCleanIff(s: Store, a: Call)
    requires Grounded(s) && SurvivorsClean(s)
    ensures SurvivorsClean(CascadeStep(s, a)) <==> !Taints(s, a)
  {
    if InRange(s, a) {
      match a
      case CallBegin =>
        forall i: nat, p: nat | InClosure(Begin(s), i, p) ensures InClosure(s, i, p) {
          BeginKeepsClosures(s, i, p);
        }
      case CallRead(t, c) => ReadKeepsSurvivorsCleanIff(s, t, c);
      case CallCommit(t, writes) => CommitKeepsSurvivorsClean(s, t, writes);
      case CallRetract(t) => CascadeKeepsSurvivorsClean(s, t);
    }
  }

  lemma {:induction false} CascadeRunIsGrounded(calls: seq<Call>)
    ensures Grounded(CascadeRun(calls))
  {
    if calls != [] {
      CascadeRunIsGrounded(calls[..|calls| - 1]);
      StepsStayGrounded(CascadeRun(calls[..|calls| - 1]), calls[|calls| - 1]);
    }
  }

  /** After every call of the schedule the claim holds. */
  ghost predicate CleanThroughout(calls: seq<Call>) {
    SurvivorsClean(CascadeRun(calls)) && (calls != [] ==> CleanThroughout(calls[..|calls| - 1]))
  }

  /** No call of the schedule taints. */
  ghost predicate NeverTaints(calls: seq<Call>) {
    calls != [] ==>
      && !Taints(CascadeRun(calls[..|calls| - 1]), calls[|calls| - 1])
      && NeverTaints(calls[..|calls| - 1])
  }

  lemma StepIsCleanIff(calls: seq<Call>)
    requires calls != [] && SurvivorsClean(CascadeRun(calls[..|calls| - 1]))
    ensures SurvivorsClean(CascadeRun(calls)) <==> !Taints(CascadeRun(calls[..|calls| - 1]), calls[|calls| - 1])
  {
    CascadeRunIsGrounded(calls[..|calls| - 1]);
    StepKeepsSurvivorsCleanIff(CascadeRun(calls[..|calls| - 1]), calls[|calls| - 1]);
  }

  /**
   Over every schedule, retractions anywhere in it: no surviving commit ever rests on an aborted
   transaction if and only if no call reads an aborted transaction's value on behalf of a surviving
   commit.  The cascade is exact; the store's missing guard on `read` is its only hole.
   */
  lemma {:induction false} CleanIffNeverTaints(calls: seq<Call>)
    ensures CleanThroughout(calls) <==> NeverTaints(calls)
  {
    if calls != [] {
      CleanIffNeverTaints(calls[..|calls| - 1]);
      if CleanThroughout(calls[..|calls| - 1]) {
        StepIsCleanIff(calls);
      }
    }
  }

  /** Every read is made for a transaction that has not committed. */
  ghost predicate ReadsBeforeCommit(calls: seq<Call>) {
    calls != [] ==>
      var before, last := CascadeRun(calls[..|calls| - 1]), calls[|calls| - 1];
      && (last.CallRead? && last.t < |before.txns| ==> !before.txns[last.t].committed)
      && ReadsBeforeCommit(calls[..|calls| - 1])
  }

  /** What a caller can do about it: never read for a transaction that has committed. */
  lemma {:induction false} ReadsBeforeCommitAreClean(calls: seq<Call>)
    requires ReadsBeforeCommit(calls)
    ensures CleanThroughout(calls)
  {
    ReadsBeforeCommitNeverTaint(calls);
    CleanIffNeverTaints(calls);
  }

  lemma {:induction false} ReadsBeforeCommitNeverTaint(calls: seq<Call>)
    requires ReadsBeforeCommit(calls)
    ensures NeverTaints(calls)
  {
    if calls != [] {
      ReadsBeforeCommitNeverTaint(calls[..|calls| - 1]);
    }
  }

  lemma CascadeRunSnoc(calls: seq<Call>, a: Call)
    ensures CascadeRun(calls + [a]) == CascadeStep(CascadeRun(calls), a)
  {
    assert (calls + [a])[..|calls|] == calls;
  }

  /** Without recorded predecessors the gate has nothing to look at. */
  lemma NoPredecessorsIsClean(s: Store, t: nat)
    requires t < |s.txns| && s.txns[t].predecessors == []
    ensures ClosureClean(s, t)
  {
  }

  // ------------------------------------------------------ the hole is real

  /** A transaction that has committed reading nothing. */
  const OUT := STARTED.(committed := true, externalized := true)

  const WRITER_OUT := Store([OUT], map[1 := 10], map[1 := 0])
  const BOTH_OUT := Store([OUT, OUT], map[1 := 10], map[1 := 0])

  lemma WriterCommits(s: Store)
    requires s == Store([STARTED], map[], map[])
    ensures CascadeStep(s, CallCommit(0, [(1, 10)])) == WRITER_OUT
  {
    NoPredecessorsIsClean(s, 0);
    assert s.txns[0 := OUT] == [OUT];
    assert LastWrites([(1, 10)]) == map[1 := 10];
    assert s.cellValue + map[1 := 10] == map[1 := 10];
    assert s.cellWriter + WriterMap(map[1 := 10], 0) == map[1 := 0];
  }

  lemma EmptyTransactionCommits(s: Store)
    requires s == CascadeStep(WRITER_OUT, CallBegin)
    ensures CascadeStep(s, CallCommit(1, [])) == BOTH_OUT
  {
    assert s.txns == [OUT, STARTED];
    NoPredecessorsIsClean(s, 1);
    assert s.txns[1 := OUT] == [OUT, OUT];
    assert s.cellValue + map[] == s.cellValue;
    assert s.cellWriter + WriterMap(map[], 1) == s.cellWriter;
  }

  /** Retracting the writer flags it alone: nothing rests on it yet. */
  lemma RetractionArmsRead(s: Store)
    requires s == BOTH_OUT
    ensures Taints(CascadeStep(s, CallRetract(0)), CallRead(1, 1))
  {
    NoPredecessorsIsClean(s, 1);
    assert s.txns[0] == OUT && s.txns[1] == OUT;
  }

  const BOTH_COMMIT: seq<Call> := [CallBegin] + [CallCommit(0, [(1, 10)])] + [CallBegin] + [CallCommit(1, [])]

  lemma BothCommit()
    ensures CascadeRun(BOTH_COMMIT) == BOTH_OUT
  {
    var none: seq<Call> := [];
    CascadeRunSnoc(none, CallBegin);
    assert none + [CallBegin] == [CallBegin];
    CascadeRunSnoc([CallBegin], CallCommit(0, [(1, 10)]));
    WriterCommits(CascadeRun([CallBegin]));
    var written := [CallBegin] + [CallCommit(0, [(1, 10)])];
    CascadeRunSnoc(written, CallBegin);
    CascadeRunSnoc(written + [CallBegin], CallCommit(1, []));
    EmptyTransactionCommits(CascadeRun(written + [CallBegin]));
  }

  const WRITER_RETRACTED: seq<Call> := BOTH_COMMIT + [CallRetract(0)]

  /** Commit an empty transaction, retract a writer, then read its value for the committed one. */
  lemma {:induction false} ReadAfterCommitTaints()
    ensures !NeverTaints(WRITER_RETRACTED + [CallRead(1, 1)])
    ensures !CleanThroughout(WRITER_RETRACTED + [CallRead(1, 1)])
  {
    var calls := WRITER_RETRACTED + [CallRead(1, 1)];
    BothCommit();
    CascadeRunSnoc(BOTH_COMMIT, CallRetract(0));
    RetractionArmsRead(CascadeRun(BOTH_COMMIT));
    assert calls[..|calls| - 1] == WRITER_RETRACTED;
    CleanIffNeverTaints(calls);
  }
}
