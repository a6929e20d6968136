/**
 The release-at-commit arms of the measurement: one driver over either baseline store.  For every seed
 the two arms refuse, release and expose the same, and fire A3 together; the cascade only moves flags.
 */
module BaselineDriver {
  import opened Common
  import opened Provenance
  import opened ReleaseAtCommit
  import opened ReleaseAtCommitStores
  import opened BaselineSchedule
  import opened BaselineFigures
  import opened Scenario
  import opened ChainLayout
  import opened GuardedDriver

  datatype AnyStore = Unguarded(u: UnguardedStore) | Cascading(c: CascadeStore)

  ghost function Objects(st: AnyStore): set<object> {
    match st
    case Unguarded(u) => {u}
    case Cascading(c) => {c, c.inner}
  }

  ghost function ViewOf(st: AnyStore): Store
    reads Objects(st)
  {
    match st
    case Unguarded(u) => u.View()
    case Cascading(c) => c.View()
  }

  /** The store is where the schedule leads either arm, and nothing has been retracted. */
  ghost predicate At(st: AnyStore, s: Store)
    reads Objects(st)
  {
    ViewOf(st) == s && Quiet(s)
  }

  method StoreBegin(st: AnyStore) returns (t: nat)
    requires At(st, ViewOf(st))
    modifies Objects(st)
    ensures At(st, UnguardedStep(old(ViewOf(st)), CallBegin)) && t == |old(ViewOf(st)).txns|
  {
    StepKeepsQuiet(ViewOf(st), CallBegin);
    match st {
      case Unguarded(u) => t := u.Begin();
      case Cascading(c) => t := c.Begin();
    }
  }

  method StoreRead(st: AnyStore, t: nat, cell: nat)
    requires At(st, ViewOf(st)) && t < |ViewOf(st).txns|
    modifies Objects(st)
    ensures At(st, UnguardedStep(old(ViewOf(st)), CallRead(t, cell)))
  {
    StepKeepsQuiet(ViewOf(st), CallRead(t, cell));
    match st {
      case Unguarded(u) => u.Read(t, cell);
      case Cascading(c) => c.Read(t, cell);
    }
  }

  /** Either store accepts a commit exactly when the other does. */
  method StoreCommit(st: AnyStore, t: nat, writes: seq<(nat, nat)>) returns (ok: bool)
    requires At(st, ViewOf(st)) && t < |ViewOf(st).txns|
    modifies Objects(st)
    ensures At(st, UnguardedStep(old(ViewOf(st)), CallCommit(t, writes)))
    ensures ok == Accepts(old(ViewOf(st)), t)
  {
    StepKeepsQuiet(ViewOf(st), CallCommit(t, writes));
    match st {
      case Unguarded(u) => ok := u.Commit(t, writes);
      case Cascading(c) =>
        QuietIsClean(ViewOf(st), t);
        ok := c.Commit(t, writes);
    }
  }

  ghost function EndOf(st: AnyStore, s: Store, reviewed: nat, retract: bool): Store {
    match st
    case Unguarded(_) => UnguardedEnd(s, reviewed, retract)
    case Cascading(_) => CascadeEnd(s, reviewed, retract)
  }

  method StoreReview(st: AnyStore, reviewed: nat, retract: bool)
    requires reviewed < |ViewOf(st).txns|
    modifies Objects(st)
    ensures ViewOf(st) == EndOf(st, old(ViewOf(st)), reviewed, retract)
  {
    if retract {
      match st {
        case Unguarded(u) => u.Abort(reviewed);
        case Cascading(c) => var flagged := c.Abort(reviewed);
      }
    }
  }

  method EmitProvenance(st: AnyStore) returns (trace: seq<Prov>)
    ensures trace == ProvenanceOf(ViewOf(st))
  {
    var txns := match st case Unguarded(u) => u.txns case Cascading(c) => c.inner.txns;
    trace := [];
    for i: nat := 0 to |txns|
      invariant trace == ProvenanceOf(ViewOf(st))[..i]
    {
      trace := trace + [Prov(i, txns[i].committed, txns[i].aborted, txns[i].externalized, txns[i].predecessors)];
    }
  }

  // ------------------------------------------------------------ the schedule

  /** The driver's own variables, as the schedule has them. */
  datatype Cursor = Cursor(frontier: nat, nextCell: nat, committed: seq<nat>, refused: nat)

  ghost predicate Tracks(d: Cursor, p: Progress) {
    d == Cursor(p.frontier, p.nextCell, p.committed, p.refused)
  }

  method RunReader(st: AnyStore, frontier: nat, ghost p: Progress) returns (t: nat)
    requires At(st, p.store) && p.frontier == frontier
    modifies Objects(st)
    ensures At(st, WithReader(p).store) && t == |p.store.txns|
  {
    t := StoreBegin(st);
    StoreRead(st, t, frontier);
  }

  method RunWriter(st: AnyStore, k: nat, frontier: nat, committed: seq<nat>, ghost p: Progress) returns (more: seq<nat>)
    requires At(st, p.store) && p.frontier == frontier && p.committed == committed
    modifies Objects(st)
    ensures At(st, WithIntruder(p, k).store) && more == WithIntruder(p, k).committed
  {
    var c := StoreBegin(st);
    var ok := StoreCommit(st, c, [(frontier, 900 + k)]);
    more := if ok then committed + [c] else committed;
  }

  method FinishReader(st: AnyStore, k: nat, t: nat, d: Cursor, ghost p: Progress) returns (d': Cursor)
    requires At(st, p.store) && Tracks(d, p) && t < |p.store.txns|
    modifies Objects(st)
    ensures At(st, WithFinish(p, k, t).store) && Tracks(d', WithFinish(p, k, t))
  {
    var ok := StoreCommit(st, t, [(d.nextCell, 70 + k)]);
    d' := if ok then Cursor(d.nextCell, d.nextCell + 1, d.committed + [t], d.refused) else d.(refused := d.refused + 1);
  }

  method RunRound(st: AnyStore, k: nat, interleave: bool, d: Cursor, ghost p: Progress) returns (d': Cursor)
    requires At(st, p.store) && Tracks(d, p)
    modifies Objects(st)
    ensures At(st, WithRound(p, k, interleave).store) && Tracks(d', WithRound(p, k, interleave))
  {
    var t := RunReader(st, d.frontier, p);
    ghost var mid := WithReader(p);
    d' := d;
    if interleave && k % 2 == 0 {
      var committed := RunWriter(st, k, d.frontier, d.committed, mid);
      d' := d.(committed := committed);
      mid := WithIntruder(mid, k);
    }
    assert mid == WithWindow(p, k, interleave);
    d' := FinishReader(st, k, t, d', mid);
  }

  method RunSchedule(st: AnyStore, base: nat, v: nat, shape: Shape) returns (committed: seq<nat>, refused: nat)
    requires At(st, EMPTY) && v < 900
    modifies Objects(st)
    ensures var p := Rounds(base, v, shape.interleave, shape.chain);
            At(st, p.store) && committed == p.committed && refused == p.refused
  {
    RootFollowsLayout(base, v, shape.interleave);
    var root := StoreBegin(st);
    var ok := StoreCommit(st, root, [(base, v)]);
    assert ok;
    var d := Cursor(base, base + 1, [root], 0);
    for k: nat := 0 to shape.chain
      invariant At(st, Rounds(base, v, shape.interleave, k).store) && Tracks(d, Rounds(base, v, shape.interleave, k))
    {
      d := RunRound(st, k, shape.interleave, d, Rounds(base, v, shape.interleave, k));
    }
    committed, refused := d.committed, d.refused;
  }

  function OutcomeOf(st: AnyStore, shape: Shape): Outcome
    requires shape.abortAt < shape.chain
  {
    match st
    case Unguarded(_) => UnguardedOutcome(shape)
    case Cascading(_) => CascadeOutcome(shape)
  }

  /**
   One arm: every figure it reports is the closed form of its shape.  Releases, exposure and A3 are those of
   the seed's schedule, whatever the store.
   */
  method RunArm(st: AnyStore, seed: nat, depth: nat) returns (o: Outcome)
    requires depth + seed % 3 >= 1 && At(st, EMPTY)
    modifies Objects(st)
    ensures var shape := ShapeOf(seed, depth); shape.abortAt < shape.chain && o == OutcomeOf(st, shape)
    ensures var shape := ShapeOf(seed, depth);
            MeasuresSchedule(o, shape, Rounds(BaseCell(seed), RootValue(seed), shape.interleave, shape.chain))
  {
    var shape := ShapeOf(seed, depth);
    ReviewedIsACommit(seed, depth);
    var base, v := BaseCell(seed), RootValue(seed);
    ghost var p := Rounds(base, v, shape.interleave, shape.chain);
    RoundsFollowLayout(base, v, shape.interleave, shape.chain);
    var committed, refused := RunSchedule(st, base, v, shape);
    o := Conclude(st, shape, committed, refused, p);
  }

  /** The review of a schedule that went as laid out, and the report on it. */
  method Conclude(st: AnyStore, shape: Shape, committed: seq<nat>, refused: nat, ghost p: Progress) returns (o: Outcome)
    requires shape.abortAt < shape.chain && OfRun(p) && Planned(p, shape.chain, shape.interleave)
    requires At(st, p.store) && committed == p.committed && refused == p.refused
    modifies Objects(st)
    ensures o == OutcomeOf(st, shape) && MeasuresSchedule(o, shape, p)
  {
    NoWrap(shape.abortAt, |committed|);
    var reviewed := committed[shape.abortAt % |committed|];
    ArmFigures(st, p, reviewed, shape);
    StoreReview(st, reviewed, shape.retract);
    var trace := EmitProvenance(st);
    o := MeasureTrace(trace, reviewed, shape.retract, refused);
    ArmIsClosed(st, shape, trace, p.store, reviewed, o);
  }

  /** The figures both arms share are functions of the schedule before the review. */
  ghost predicate MeasuresSchedule(o: Outcome, shape: Shape, p: Progress) {
    && shape.abortAt < |p.committed|
    && var reviewed := p.committed[shape.abortAt];
    && o.released == Count(ProvenanceOf(p.store), ReleasedRecord)
    && o.exposed == ExposedAtEnd(p.store, reviewed, shape.retract)
    && (o.a3 <==> shape.retract && ReleasedOver(p.store, reviewed))
  }

  /** What is counted over a trace. */
  ghost predicate Measures(trace: seq<Prov>, reviewed: nat, retract: bool, refused: nat, o: Outcome) {
    && (o.a3 <==> A3In(trace)) && (o.a3Unpropagated <==> A3UnpropagatedIn(trace))
    && o.refused == refused && o.held == 0 && !o.retractionRefused
    && o.released == Count(trace, ReleasedRecord)
    && o.exposed == (if retract then ExposedCount(trace, reviewed, |trace|) else 0)
    && o.relabeled == Count(trace, (r: Prov) => RelabeledRecord(r, reviewed))
    && o.cascaded == Count(trace, (r: Prov) => CascadedRecord(r, reviewed))
    && o.live == Count(trace, SurvivingRecord)
  }

  method MeasureTrace(trace: seq<Prov>, reviewed: nat, retract: bool, refused: nat) returns (o: Outcome)
    ensures Measures(trace, reviewed, retract, refused, o)
  {
    var a3 := DetectA3(trace);
    var unpropagated := DetectA3Unpropagated(trace);
    var exposed := ExposedEffects(trace, reviewed, retract);
    o := Outcome(
      a3.Some?,
      unpropagated.Some?,
      Count(trace, (r: Prov) => CascadedRecord(r, reviewed)),
      refused,
      0,
      Count(trace, ReleasedRecord),
      Count(trace, SurvivingRecord),
      false,
      exposed,
      Count(trace, (r: Prov) => RelabeledRecord(r, reviewed)));
  }

  /** What the trace of an arm counts up to, given what the schedule before the review does. */
  ghost predicate ArmReports(st: AnyStore, trace: seq<Prov>, s: Store, reviewed: nat, retract: bool) {
    && reviewed < |s.txns|
    && Count(trace, ReleasedRecord) == Count(ProvenanceOf(s), ReleasedRecord)
    && (A3In(trace) <==> retract && ReleasedOver(s, reviewed))
    && (retract ==> ExposedCount(trace, reviewed, |trace|) == ExposedAtEnd(s, reviewed, true))
    && Count(trace, ReleasedRecord) == Count(trace, SurvivingRecord)
         + Count(trace, (r: Prov) => RelabeledRecord(r, reviewed)) + (if retract then 1 else 0)
    && Count(trace, (r: Prov) => CascadedRecord(r, reviewed)) == Count(trace, (r: Prov) => RelabeledRecord(r, reviewed))
    && (st.Unguarded? ==>
          (A3UnpropagatedIn(trace) <==> A3In(trace)) && Count(trace, (r: Prov) => RelabeledRecord(r, reviewed)) == 0)
    && (st.Cascading? ==>
          !A3UnpropagatedIn(trace)
          && ExposedAtEnd(s, reviewed, retract)
             == Count(trace, (r: Prov) => RelabeledRecord(r, reviewed)) + if retract then 1 else 0)
  }

  lemma ArmFigures(st: AnyStore, p: Progress, reviewed: nat, shape: Shape)
    requires shape.abortAt < shape.chain && OfRun(p) && Planned(p, shape.chain, shape.interleave)
    requires reviewed == p.committed[shape.abortAt]
    ensures ScheduleReports(p.store, reviewed, shape)
    ensures ArmReports(st, ProvenanceOf(EndOf(st, p.store, reviewed, shape.retract)), p.store, reviewed, shape.retract)
  {
    ScheduleFigures(p, shape);
    ArmTrace(st, p.calls, p.store, reviewed, shape.retract);
  }

  lemma ArmIsClosed(st: AnyStore, shape: Shape, trace: seq<Prov>, s: Store, reviewed: nat, o: Outcome)
    requires shape.abortAt < shape.chain && ScheduleReports(s, reviewed, shape)
    requires ArmReports(st, trace, s, reviewed, shape.retract)
    requires Measures(trace, reviewed, shape.retract, InterruptedBy(shape.chain, shape.interleave), o)
    ensures o == OutcomeOf(st, shape)
  {
  }

  lemma ArmTrace(st: AnyStore, calls: seq<Call>, s: Store, reviewed: nat, retract: bool)
    requires s == UnguardedRun(calls) && NoRetraction(calls) && reviewed < |s.txns| && s.txns[reviewed].externalized
    ensures ArmReports(st, ProvenanceOf(EndOf(st, s, reviewed, retract)), s, reviewed, retract)
  {
    ReleasesAddUp(st, calls, s, reviewed, retract);
    match st
    case Unguarded(_) => UnguardedFigures(calls, reviewed, retract);
    case Cascading(_) => CascadeFigures(calls, reviewed, retract);
  }

  /** What is released does not change in the review, and is accounted for after it. */
  lemma ReleasesAddUp(st: AnyStore, calls: seq<Call>, s: Store, reviewed: nat, retract: bool)
    requires s == UnguardedRun(calls) && NoRetraction(calls) && reviewed < |s.txns| && s.txns[reviewed].externalized
    ensures var trace := ProvenanceOf(EndOf(st, s, reviewed, retract));
            && Count(trace, ReleasedRecord) == Count(ProvenanceOf(s), ReleasedRecord)
            && Count(trace, ReleasedRecord) == Count(trace, SurvivingRecord)
                 + Count(trace, (r: Prov) => RelabeledRecord(r, reviewed)) + (if retract then 1 else 0)
            && Count(trace, (r: Prov) => CascadedRecord(r, reviewed))
               == Count(trace, (r: Prov) => RelabeledRecord(r, reviewed))
  {
    SameUntilRetraction(calls);
    RunsReleaseAtCommit(calls);
    ReleasedAgrees(s, reviewed, retract);
    TraceFigures(EndOf(st, s, reviewed, retract), reviewed);
  }

  /** All three arms on one seed. */
  method CompareArms(seed: nat, depth: nat) returns (v: Outcome, u: Outcome, c: Outcome)
    requires depth + seed % 3 >= 1 && 11 * (depth + 2) + 6 <= MAX_U64
    ensures var shape := ShapeOf(seed, depth);
            && shape.abortAt < shape.chain
            && v == GuardedOutcome(shape) && u == UnguardedOutcome(shape) && c == CascadeOutcome(shape)
            && ArmsAgree(shape, v, u, c)
  {
    ReviewedIsACommit(seed, depth);
    ArmsCompared(ShapeOf(seed, depth));
    ghost var built, reviewed;
    v, built, reviewed := RunGuarded(seed, depth);
    u := RunUnguarded(seed, depth);
    c := RunCascade(seed, depth);
  }

  method RunUnguarded(seed: nat, depth: nat) returns (u: Outcome)
    requires depth + seed % 3 >= 1
    ensures var shape := ShapeOf(seed, depth); shape.abortAt < shape.chain && u == UnguardedOutcome(shape)
  {
    var store := new UnguardedStore();
    u := RunArm(Unguarded(store), seed, depth);
  }

  method RunCascade(seed: nat, depth: nat) returns (c: Outcome)
    requires depth + seed % 3 >= 1
    ensures var shape := ShapeOf(seed, depth); shape.abortAt < shape.chain && c == CascadeOutcome(shape)
  {
    var store := new CascadeStore();
    c := RunArm(Cascading(store), seed, depth);
  }
}
