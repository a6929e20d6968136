/**
 The whole measurement: any number of seeded scenarios on each arm, summed.  What the repository's own tests
 assert of a thousand scenarios at three depths is proved here of any number from seven on, at any depth.
 */
module Experiment {
  import opened Common
  import opened Scenario
  import opened ChainLayout
  import opened BaselineDriver
  import opened GuardedDriver

  datatype Arm = VerifiedArm | UnguardedArm | CascadeArm

  datatype Summary = Summary(
    runs: nat,
    a3Hits: nat,
    a3UnpropagatedHits: nat,
    cascaded: nat,
    refused: nat,
    held: nat,
    released: nat,
    live: nat,
    retractions: nat,
    retractionsRefused: nat,
    exposed: nat,
    exposedScenarios: nat,
    relabeled: nat)

  const NOTHING_RUN := Summary(0, 0, 0, 0, 0, 0, 0, 0, 0, 0, 0, 0, 0)

  /** The seed of scenario `i`, in 64-bit arithmetic. */
  function SeedBits(i: bv64): bv64 {
    (i * 2654435761) ^ (i << 7)
  }

  function Index(i: nat): bv64 {
    if i == 0 then 0 else Index(i - 1) + 1
  }

  function SeedOf(i: nat): nat {
    SeedBits(Index(i)) as nat
  }

  function One(b: bool): nat {
    if b then 1 else 0
  }

  function Adding(s: Summary, o: Outcome, retract: bool): Summary {
    Summary(
      s.runs + 1,
      s.a3Hits + One(o.a3),
      s.a3UnpropagatedHits + One(o.a3Unpropagated),
      s.cascaded + o.cascaded,
      s.refused + o.refused,
      s.held + o.held,
      s.released + o.released,
      s.live + o.live,
      s.retractions + One(retract),
      s.retractionsRefused + One(o.retractionRefused),
      s.exposed + o.exposed,
      s.exposedScenarios + One(o.exposed > 0),
      s.relabeled + o.relabeled)
  }

  /** What one scenario on an arm comes to. */
  function OutcomeOn(arm: Arm, seed: nat, depth: nat): Outcome
    requires depth >= 1
  {
    ReviewedIsACommit(seed, depth);
    match arm
    case VerifiedArm => GuardedOutcome(ShapeOf(seed, depth))
    case UnguardedArm => UnguardedOutcome(ShapeOf(seed, depth))
    case CascadeArm => CascadeOutcome(ShapeOf(seed, depth))
  }

  /** The sums over the first scenarios of any list of seeds. */
  function SummaryAfter(arm: Arm, seeds: nat -> nat, depth: nat, runs: nat): Summary
    requires depth >= 1
  {
    if runs == 0 then NOTHING_RUN
    else
      var seed := seeds(runs - 1);
      Adding(SummaryAfter(arm, seeds, depth, runs - 1), OutcomeOn(arm, seed, depth), ShapeOf(seed, depth).retract)
  }

  method RunOne(arm: Arm, seed: nat, depth: nat) returns (o: Outcome)
    requires depth >= 1 && 11 * (depth + 2) + 6 <= MAX_U64
    ensures o == OutcomeOn(arm, seed, depth)
  {
    match arm
    case VerifiedArm =>
      ghost var built, reviewed;
      o, built, reviewed := RunGuarded(seed, depth);
    case UnguardedArm => o := RunUnguarded(seed, depth);
    case CascadeArm => o := RunCascade(seed, depth);
  }

  method RunExperiment(runs: nat, depth: nat, arm: Arm) returns (s: Summary)
    requires depth >= 1 && 11 * (depth + 2) + 6 <= MAX_U64
    ensures s == SummaryAfter(arm, SeedOf, depth, runs)
  {
    s := RunScenarios(SeedOf, runs, depth, arm);
  }

  method RunScenarios(seeds: nat -> nat, runs: nat, depth: nat, arm: Arm) returns (s: Summary)
    requires depth >= 1 && 11 * (depth + 2) + 6 <= MAX_U64
    ensures s == SummaryAfter(arm, seeds, depth, runs)
  {
    s := NOTHING_RUN;
    for i: nat := 0 to runs
      invariant s == SummaryAfter(arm, seeds, depth, i)
    {
      var seed := seeds(i);
      var o := RunOne(arm, seed, depth);
      s := Adding(s, o, ShapeOf(seed, depth).retract);
    }
  }

  // ------------------------------------------------------------ as totals

  /** A figure of each scenario, added up. */
  function TotalOf(arm: Arm, seeds: nat -> nat, depth: nat, figure: (Outcome, bool) -> nat, n: nat): nat
    requires depth >= 1
  {
    if n == 0 then 0
    else
      var seed := seeds(n - 1);
      TotalOf(arm, seeds, depth, figure, n - 1) + figure(OutcomeOn(arm, seed, depth), ShapeOf(seed, depth).retract)
  }

  /** A field of the summary to which every scenario adds its figure. */
  lemma {:induction false} FieldIsTotal(arm: Arm, seeds: nat -> nat, depth: nat, n: nat, field: Summary -> nat,
                                        figure: (Outcome, bool) -> nat)
    requires depth >= 1 && field(NOTHING_RUN) == 0
    requires forall s: Summary, o: Outcome, r: bool :: field(Adding(s, o, r)) == field(s) + figure(o, r)
    ensures field(SummaryAfter(arm, seeds, depth, n)) == TotalOf(arm, seeds, depth, figure, n)
  {
    var s, total: nat := NOTHING_RUN, 0;
    for k: nat := 0 to n
      invariant s == SummaryAfter(arm, seeds, depth, k) && total == TotalOf(arm, seeds, depth, figure, k)
      invariant field(s) == total
    {
      var o, retract;
      s, total, o, retract := OneMore(arm, seeds, depth, k, figure, s, total);
    }
  }

  /** One scenario more, on both sides. */
  lemma OneMore(arm: Arm, seeds: nat -> nat, depth: nat, k: nat, figure: (Outcome, bool) -> nat, s: Summary, total: nat)
    returns (s': Summary, total': nat, o: Outcome, retract: bool)
    requires depth >= 1 && s == SummaryAfter(arm, seeds, depth, k) && total == TotalOf(arm, seeds, depth, figure, k)
    ensures s' == SummaryAfter(arm, seeds, depth, k + 1) && total' == TotalOf(arm, seeds, depth, figure, k + 1)
    ensures s' == Adding(s, o, retract) && total' == total + figure(o, retract)
  {
    o, retract := OutcomeOn(arm, seeds(k), depth), ShapeOf(seeds(k), depth).retract;
    s', total' := Adding(s, o, retract), total + figure(o, retract);
    SummaryNext(arm, seeds, depth, k, s, o, retract);
    TotalNext(arm, seeds, depth, k, figure, o, retract);
  }

  lemma TotalNext(arm: Arm, seeds: nat -> nat, depth: nat, k: nat, figure: (Outcome, bool) -> nat, o: Outcome,
                  retract: bool)
    requires depth >= 1 && o == OutcomeOn(arm, seeds(k), depth) && retract == ShapeOf(seeds(k), depth).retract
    ensures TotalOf(arm, seeds, depth, figure, k + 1) == TotalOf(arm, seeds, depth, figure, k) + figure(o, retract)
  {
  }

  /** Every figure of the summary is that of the scenarios, added up. */
  lemma SummaryIsTotals(arm: Arm, seeds: nat -> nat, depth: nat, runs: nat, s: Summary)
    requires depth >= 1 && s == SummaryAfter(arm, seeds, depth, runs)
    ensures s.a3Hits == TotalOf(arm, seeds, depth, (o: Outcome, r: bool) => One(o.a3), runs)
    ensures s.a3UnpropagatedHits == TotalOf(arm, seeds, depth, (o: Outcome, r: bool) => One(o.a3Unpropagated), runs)
    ensures s.cascaded == TotalOf(arm, seeds, depth, (o: Outcome, r: bool) => o.cascaded, runs)
    ensures s.refused == TotalOf(arm, seeds, depth, (o: Outcome, r: bool) => o.refused, runs)
    ensures s.held == TotalOf(arm, seeds, depth, (o: Outcome, r: bool) => o.held, runs)
    ensures s.released == TotalOf(arm, seeds, depth, (o: Outcome, r: bool) => o.released, runs)
    ensures s.live == TotalOf(arm, seeds, depth, (o: Outcome, r: bool) => o.live, runs)
    ensures s.retractions == TotalOf(arm, seeds, depth, (o: Outcome, r: bool) => One(r), runs)
    ensures s.retractionsRefused == TotalOf(arm, seeds, depth, (o: Outcome, r: bool) => One(o.retractionRefused), runs)
    ensures s.exposed == TotalOf(arm, seeds, depth, (o: Outcome, r: bool) => o.exposed, runs)
    ensures s.exposedScenarios == TotalOf(arm, seeds, depth, (o: Outcome, r: bool) => One(o.exposed > 0), runs)
    ensures s.relabeled == TotalOf(arm, seeds, depth, (o: Outcome, r: bool) => o.relabeled, runs)
  {
    FieldIsTotal(arm, seeds, depth, runs, (s: Summary) => s.a3Hits, (o: Outcome, r: bool) => One(o.a3));
    FieldIsTotal(arm, seeds, depth, runs, (s: Summary) => s.a3UnpropagatedHits,
                 (o: Outcome, r: bool) => One(o.a3Unpropagated));
    FieldIsTotal(arm, seeds, depth, runs, (s: Summary) => s.cascaded, (o: Outcome, r: bool) => o.cascaded);
    FieldIsTotal(arm, seeds, depth, runs, (s: Summary) => s.refused, (o: Outcome, r: bool) => o.refused);
    FieldIsTotal(arm, seeds, depth, runs, (s: Summary) => s.held, (o: Outcome, r: bool) => o.held);
    FieldIsTotal(arm, seeds, depth, runs, (s: Summary) => s.released, (o: Outcome, r: bool) => o.released);
    FieldIsTotal(arm, seeds, depth, runs, (s: Summary) => s.live, (o: Outcome, r: bool) => o.live);
    FieldIsTotal(arm, seeds, depth, runs, (s: Summary) => s.retractions, (o: Outcome, r: bool) => One(r));
    FieldIsTotal(arm, seeds, depth, runs, (s: Summary) => s.retractionsRefused,
                 (o: Outcome, r: bool) => One(o.retractionRefused));
    FieldIsTotal(arm, seeds, depth, runs, (s: Summary) => s.exposed, (o: Outcome, r: bool) => o.exposed);
    FieldIsTotal(arm, seeds, depth, runs, (s: Summary) => s.exposedScenarios,
                 (o: Outcome, r: bool) => One(o.exposed > 0));
    FieldIsTotal(arm, seeds, depth, runs, (s: Summary) => s.relabeled, (o: Outcome, r: bool) => o.relabeled);
  }

  // ------------------------------------------------------ sums of the arms

  /** What holds of the sums of the three arms whatever the seeds. */
  ghost predicate SumsAgree(v: Summary, u: Summary, c: Summary) {
    && v.a3Hits == 0 && v.a3UnpropagatedHits == 0 && c.a3UnpropagatedHits == 0
    && c.a3Hits == u.a3Hits == u.a3UnpropagatedHits <= u.runs
    && v.released == v.live
    && c.exposed == u.exposed && c.exposedScenarios == u.exposedScenarios == u.retractions && v.exposed <= u.exposed
    && v.exposedScenarios == v.retractionsRefused <= v.retractions
    && v.relabeled == 0 && u.relabeled == 0
    && v.runs == u.runs == c.runs && v.retractions == u.retractions == c.retractions
    && v.refused == u.refused == c.refused
  }

  lemma AddingKeepsSums(v: Summary, u: Summary, c: Summary, ov: Outcome, ou: Outcome, oc: Outcome, shape: Shape)
    requires SumsAgree(v, u, c) && ArmsAgree(shape, ov, ou, oc)
    requires ov.exposed > 0 <==> ov.retractionRefused
    ensures SumsAgree(Adding(v, ov, shape.retract), Adding(u, ou, shape.retract), Adding(c, oc, shape.retract))
  {
  }

  /** Something a scenario shows, its sums show, and adding more takes nothing back. */
  ghost predicate Shows(v: Summary, u: Summary, c: Summary, ov: Outcome, ou: Outcome, oc: Outcome, retract: bool) {
    && (ou.a3 ==> u.a3Hits > 0) && (!ou.a3 ==> u.a3Hits < u.runs)
    && (ov.refused > 0 ==> v.refused > 0) && (ov.held > 0 ==> v.held > 0) && (ov.cascaded > 0 ==> v.cascaded > 0)
    && (ov.retractionRefused ==> v.retractionsRefused > 0)
    && (retract && !ov.retractionRefused ==> v.retractionsRefused < v.retractions)
    && (oc.relabeled > 0 ==> c.relabeled > 0) && (ov.exposed > 0 ==> v.exposed > 0)
    && (ov.exposed < ou.exposed ==> v.exposed < u.exposed)
  }

  lemma AddingShows(v: Summary, u: Summary, c: Summary, ov: Outcome, ou: Outcome, oc: Outcome, shape: Shape)
    requires SumsAgree(v, u, c)
    ensures Shows(Adding(v, ov, shape.retract), Adding(u, ou, shape.retract), Adding(c, oc, shape.retract),
                  ov, ou, oc, shape.retract)
  {
  }

  lemma AddingKeepsShown(v: Summary, u: Summary, c: Summary, ov: Outcome, ou: Outcome, oc: Outcome, shape: Shape,
                         fv: Outcome, fu: Outcome, fc: Outcome, retract: bool)
    requires SumsAgree(v, u, c) && ArmsAgree(shape, ov, ou, oc) && Shows(v, u, c, fv, fu, fc, retract)
    ensures Shows(Adding(v, ov, shape.retract), Adding(u, ou, shape.retract), Adding(c, oc, shape.retract),
                  fv, fu, fc, retract)
  {
  }

  lemma ScenarioOn(seed: nat, depth: nat) returns (shape: Shape, ov: Outcome, ou: Outcome, oc: Outcome)
    requires depth >= 1
    ensures shape == ShapeOf(seed, depth) && ov == OutcomeOn(VerifiedArm, seed, depth)
    ensures ou == OutcomeOn(UnguardedArm, seed, depth) && oc == OutcomeOn(CascadeArm, seed, depth)
    ensures ArmsAgree(shape, ov, ou, oc) && (ov.exposed > 0 <==> ov.retractionRefused)
  {
    shape := ShapeOf(seed, depth);
    ReviewedIsACommit(seed, depth);
    ArmsCompared(shape);
    ov, ou, oc := GuardedOutcome(shape), UnguardedOutcome(shape), CascadeOutcome(shape);
  }

  lemma SummaryNext(arm: Arm, seeds: nat -> nat, depth: nat, k: nat, s: Summary, o: Outcome, retract: bool)
    requires depth >= 1 && s == SummaryAfter(arm, seeds, depth, k)
    requires o == OutcomeOn(arm, seeds(k), depth) && retract == ShapeOf(seeds(k), depth).retract
    ensures SummaryAfter(arm, seeds, depth, k + 1) == Adding(s, o, retract)
  {
  }

  /** The three sums after some scenarios, and that they agree. */
  lemma {:induction false} ArmsSum(seeds: nat -> nat, depth: nat, runs: nat)
    returns (v: Summary, u: Summary, c: Summary)
    requires depth >= 1
    ensures v == SummaryAfter(VerifiedArm, seeds, depth, runs) && u == SummaryAfter(UnguardedArm, seeds, depth, runs)
    ensures c == SummaryAfter(CascadeArm, seeds, depth, runs)
    ensures SumsAgree(v, u, c) && v.runs == runs
  {
    v, u, c := NOTHING_RUN, NOTHING_RUN, NOTHING_RUN;
    for k: nat := 0 to runs
      invariant v == SummaryAfter(VerifiedArm, seeds, depth, k) && u == SummaryAfter(UnguardedArm, seeds, depth, k)
      invariant c == SummaryAfter(CascadeArm, seeds, depth, k)
      invariant SumsAgree(v, u, c) && v.runs == k
    {
      v, u, c := SumsNext(seeds, depth, k, v, u, c);
    }
  }

  lemma SumsNext(seeds: nat -> nat, depth: nat, k: nat, v: Summary, u: Summary, c: Summary)
    returns (v': Summary, u': Summary, c': Summary)
    requires depth >= 1 && v == SummaryAfter(VerifiedArm, seeds, depth, k)
    requires u == SummaryAfter(UnguardedArm, seeds, depth, k) && c == SummaryAfter(CascadeArm, seeds, depth, k)
    requires SumsAgree(v, u, c) && v.runs == k
    ensures v' == SummaryAfter(VerifiedArm, seeds, depth, k + 1)
    ensures u' == SummaryAfter(UnguardedArm, seeds, depth, k + 1)
    ensures c' == SummaryAfter(CascadeArm, seeds, depth, k + 1)
    ensures SumsAgree(v', u', c') && v'.runs == k + 1
    ensures Shows(v', u', c', OutcomeOn(VerifiedArm, seeds(k), depth), OutcomeOn(UnguardedArm, seeds(k), depth),
                  OutcomeOn(CascadeArm, seeds(k), depth), ShapeOf(seeds(k), depth).retract)
  {
    var shape, ov, ou, oc := ScenarioOn(seeds(k), depth);
    SummaryNext(VerifiedArm, seeds, depth, k, v, ov, shape.retract);
    SummaryNext(UnguardedArm, seeds, depth, k, u, ou, shape.retract);
    SummaryNext(CascadeArm, seeds, depth, k, c, oc, shape.retract);
    v', u', c' := Adding(v, ov, shape.retract), Adding(u, ou, shape.retract), Adding(c, oc, shape.retract);
    AddingKeepsSums(v, u, c, ov, ou, oc, shape);
    AddingShows(v, u, c, ov, ou, oc, shape);
  }

  /** The sums after some scenarios, with something already shown by them. */
  ghost predicate ShownBy(seeds: nat -> nat, depth: nat, k: nat, v: Summary, u: Summary, c: Summary, fv: Outcome,
                          fu: Outcome, fc: Outcome, retract: bool)
    requires depth >= 1
  {
    && v == SummaryAfter(VerifiedArm, seeds, depth, k) && u == SummaryAfter(UnguardedArm, seeds, depth, k)
    && c == SummaryAfter(CascadeArm, seeds, depth, k)
    && SumsAgree(v, u, c) && Shows(v, u, c, fv, fu, fc, retract)
  }

  lemma ShownStays(seeds: nat -> nat, depth: nat, k: nat, v: Summary, u: Summary, c: Summary, fv: Outcome,
                   fu: Outcome, fc: Outcome, retract: bool)
    returns (v': Summary, u': Summary, c': Summary)
    requires depth >= 1 && ShownBy(seeds, depth, k, v, u, c, fv, fu, fc, retract)
    ensures ShownBy(seeds, depth, k + 1, v', u', c', fv, fu, fc, retract)
  {
    var shape, ov, ou, oc := ScenarioOn(seeds(k), depth);
    SummaryNext(VerifiedArm, seeds, depth, k, v, ov, shape.retract);
    SummaryNext(UnguardedArm, seeds, depth, k, u, ou, shape.retract);
    SummaryNext(CascadeArm, seeds, depth, k, c, oc, shape.retract);
    v', u', c' := Adding(v, ov, shape.retract), Adding(u, ou, shape.retract), Adding(c, oc, shape.retract);
    AddingKeepsSums(v, u, c, ov, ou, oc, shape);
    AddingKeepsShown(v, u, c, ov, ou, oc, shape, fv, fu, fc, retract);
  }

  /** What has been shown stays shown over any more scenarios. */
  lemma {:induction false} StaysShown(seeds: nat -> nat, depth: nat, from: nat, runs: nat, v0: Summary, u0: Summary,
                                      c0: Summary, fv: Outcome, fu: Outcome, fc: Outcome, retract: bool)
    returns (v: Summary, u: Summary, c: Summary)
    requires depth >= 1 && from <= runs && ShownBy(seeds, depth, from, v0, u0, c0, fv, fu, fc, retract)
    ensures ShownBy(seeds, depth, runs, v, u, c, fv, fu, fc, retract)
    decreases runs - from
  {
    if from == runs {
      v, u, c := v0, u0, c0;
    } else {
      v, u, c := ShownStays(seeds, depth, from, v0, u0, c0, fv, fu, fc, retract);
      v, u, c := StaysShown(seeds, depth, from + 1, runs, v, u, c, fv, fu, fc, retract);
    }
  }

  /** What scenario `i` shows, the sums over it and any more scenarios show. */
  lemma Shown(seeds: nat -> nat, depth: nat, runs: nat, i: nat, shape: Shape)
    requires depth >= 1 && i < runs && shape == ShapeOf(seeds(i), depth) && shape.abortAt < shape.chain
    ensures Shows(SummaryAfter(VerifiedArm, seeds, depth, runs), SummaryAfter(UnguardedArm, seeds, depth, runs),
                  SummaryAfter(CascadeArm, seeds, depth, runs),
                  GuardedOutcome(shape), UnguardedOutcome(shape), CascadeOutcome(shape), shape.retract)
  {
    var v, u, c := ArmsSum(seeds, depth, i);
    v, u, c := SumsNext(seeds, depth, i, v, u, c);
    v, u, c := StaysShown(seeds, depth, i + 1, runs, v, u, c, GuardedOutcome(shape), UnguardedOutcome(shape),
                          CascadeOutcome(shape), shape.retract);
  }

  // -------------------------------------------------- what the seeds show

  /** The shapes of the first eight scenarios at depth 3. */
  lemma FirstShapes()
    ensures ShapeOf(0, 3) == Shape(3, false, 0, false, true)
    ensures ShapeOf(2654435633, 3) == Shape(5, true, 1, true, false)
    ensures ShapeOf(5308871266, 3) == Shape(4, false, 1, false, true)
    ensures ShapeOf(7963307155, 3) == Shape(4, true, 1, true, false)
    ensures ShapeOf(10617742532, 3) == Shape(5, false, 1, true, false)
    ensures ShapeOf(13272179445, 3) == Shape(3, true, 1, true, false)
    ensures ShapeOf(15926614310, 3) == Shape(5, false, 0, true, true)
    ensures ShapeOf(18581049431, 3) == Shape(5, true, 0, true, false)
  {
  }

  /** An approving scenario, an interrupted one, one retracted in time and one too late. */
  predicate Telling(a: Shape, b: Shape, c: Shape, d: Shape) {
    && a.abortAt < a.chain && b.abortAt < b.chain && c.abortAt < c.chain && d.abortAt < d.chain
    && !a.retract && b.interleave
    && !c.interleave && c.retract && !c.lateReview
    && !d.interleave && d.retract && d.lateReview
  }

  lemma ApprovedShape(depth: nat)
    requires depth >= 1
    ensures !ShapeOf(0, depth).retract
  {
  }

  lemma InterruptedShape(depth: nat)
    ensures ShapeOf(2654435633, depth + 1).interleave
  {
  }

  lemma TimelyShape(depth: nat)
    ensures var s := ShapeOf(10617742532, depth + 1); !s.interleave && s.retract && !s.lateReview
  {
  }

  lemma LateShape(depth: nat)
    ensures var s := ShapeOf(15926614310, depth + 1); !s.interleave && s.retract && s.lateReview
  {
  }

  /** The seeds of scenarios 0, 1, 4 and 6 give such shapes at every depth. */
  lemma TellingShapes(depth: nat, a: nat, b: nat, c: nat, d: nat)
    requires depth >= 1 && a == 0 && b == 2654435633 && c == 10617742532 && d == 15926614310
    ensures Telling(ShapeOf(a, depth), ShapeOf(b, depth), ShapeOf(c, depth), ShapeOf(d, depth))
  {
    ReviewedIsACommit(a, depth);
    ReviewedIsACommit(b, depth);
    ReviewedIsACommit(c, depth);
    ReviewedIsACommit(d, depth);
    ApprovedShape(depth);
    InterruptedShape(depth - 1);
    TimelyShape(depth - 1);
    LateShape(depth - 1);
  }

  lemma SeedValues()
    ensures SeedOf(0) == 0 && SeedOf(1) == 2654435633 && SeedOf(4) == 10617742532 && SeedOf(6) == 15926614310
  {
    Indices();
    SeedBitValues();
    assert (0 as bv64) as nat == 0;
    assert (2654435633 as bv64) as nat == 2654435633;
    assert (10617742532 as bv64) as nat == 10617742532;
    assert (15926614310 as bv64) as nat == 15926614310;
  }

  lemma Indices()
    ensures Index(0) == 0 && Index(1) == 1 && Index(4) == 4 && Index(6) == 6
  {
    assert Index(2) == 2;
    assert Index(3) == 3;
    assert Index(5) == 5;
  }

  lemma SeedBitValues()
    ensures SeedBits(0) == 0 && SeedBits(1) == 2654435633 && SeedBits(4) == 10617742532 && SeedBits(6) == 15926614310
  {
  }

  lemma {:induction false} SomeInterrupted(n: nat)
    requires n >= 1
    ensures InterruptedBy(n, true) >= 1
  {
    InterruptedAreHalf(n, true);
  }

  /** What such scenarios show between them. */
  lemma TellingShow(v: Summary, u: Summary, c: Summary, s0: Shape, s1: Shape, s4: Shape, s6: Shape)
    requires SumsAgree(v, u, c) && Telling(s0, s1, s4, s6)
    requires Shows(v, u, c, GuardedOutcome(s0), UnguardedOutcome(s0), CascadeOutcome(s0), s0.retract)
    requires Shows(v, u, c, GuardedOutcome(s1), UnguardedOutcome(s1), CascadeOutcome(s1), s1.retract)
    requires Shows(v, u, c, GuardedOutcome(s4), UnguardedOutcome(s4), CascadeOutcome(s4), s4.retract)
    requires Shows(v, u, c, GuardedOutcome(s6), UnguardedOutcome(s6), CascadeOutcome(s6), s6.retract)
    ensures v.refused > 0 && v.held > 0 && v.cascaded > 0 && 0 < v.retractionsRefused < v.retractions
    ensures 0 < u.a3Hits < u.runs && c.relabeled > 0 && 0 < v.exposed < u.exposed
  {
    SomeInterrupted(s1.chain);
  }

  /**
   The measurement at any depth over seven scenarios or more.  The runtime shows no A3, leaves no live effect
   inside and relabels nothing; its gate refuses somewhere, it holds somewhere, and it refuses some
   retractions but not all.  The baselines show A3 in some scenarios but not in all, equally often; the
   cascade never shows the superseded form, relabels something and exposes as much as the other.  Both are
   exposed in every scenario with a retraction; the runtime is exposed exactly where it refused one,
   somewhere, and in all strictly less.
   */
  lemma {:induction false} ExperimentShows(depth: nat, runs: nat)
    requires depth >= 1 && runs >= 7
    ensures var v, u, c := SummaryAfter(VerifiedArm, SeedOf, depth, runs),
                           SummaryAfter(UnguardedArm, SeedOf, depth, runs),
                           SummaryAfter(CascadeArm, SeedOf, depth, runs);
            && v.a3Hits == 0 && v.a3UnpropagatedHits == 0 && v.released == v.live && v.relabeled == 0
            && v.refused > 0 && v.held > 0 && v.cascaded > 0 && 0 < v.retractionsRefused < v.retractions
            && 0 < u.a3Hits < u.runs == runs && u.relabeled == 0
            && c.a3Hits == u.a3Hits && c.a3UnpropagatedHits == 0 && c.relabeled > 0
            && c.exposed == u.exposed && c.exposedScenarios == u.exposedScenarios == u.retractions
            && 0 < v.exposed < u.exposed && v.exposedScenarios == v.retractionsRefused
  {
    var s0, s1, s4, s6 := ShapeOf(SeedOf(0), depth), ShapeOf(SeedOf(1), depth), ShapeOf(SeedOf(4), depth),
                          ShapeOf(SeedOf(6), depth);
    SeedValues();
    TellingShapes(depth, SeedOf(0), SeedOf(1), SeedOf(4), SeedOf(6));
    var v, u, c := ArmsSum(SeedOf, depth, runs);
    Shown(SeedOf, depth, runs, 0, s0);
    Shown(SeedOf, depth, runs, 1, s1);
    Shown(SeedOf, depth, runs, 4, s4);
    Shown(SeedOf, depth, runs, 6, s6);
    TellingShow(v, u, c, s0, s1, s4, s6);
  }
}
