/**
 The pessimistic store as a pure transition system: per-cell exclusive holds over a version chain that
 names each version's writer.
 */
module PessModel {
  import opened Common
  import opened Versions

  datatype Stamped = Stamped(version: Version, writer: Agent)

  datatype Hold = Hold(cell: Cell, agent: Agent, since: Time)

  datatype Store = Store(versions: seq<Stamped>, clock: Time, holds: seq<Hold>, trace: seq<Rec>)

  const EMPTY := Store([], 0, [], [])

  // ----------------------------------------------------------------- holds

  /** The agent of the first hold on a cell. */
  function HolderOf(holds: seq<Hold>, c: Cell): Option<Agent> {
    if holds == [] then None
    else if holds[0].cell == c then Some(holds[0].agent)
    else HolderOf(holds[1..], c)
  }

  predicate HeldBySince(holds: seq<Hold>, agent: Agent, c: Cell, readTime: Time) {
    exists i :: 0 <= i < |holds| && holds[i].cell == c && holds[i].agent == agent && holds[i].since <= readTime
  }

  /** Another agent holds the cell. */
  predicate Foreign(holds: seq<Hold>, agent: Agent, c: Cell) {
    HolderOf(holds, c).Some? && HolderOf(holds, c).value != agent
  }

  /** Take every cell nobody holds yet; holds already there are kept as they are. */
  function Acquire(holds: seq<Hold>, agent: Agent, cells: seq<Cell>, now: Time): seq<Hold> {
    if cells == [] then holds
    else
      var before := Acquire(holds, agent, cells[..|cells| - 1], now);
      var c := cells[|cells| - 1];
      if HolderOf(before, c).Some? then before else before + [Hold(c, agent, now)]
  }

  /** The holds of everyone but one agent, in the order they were taken. */
  function Without(holds: seq<Hold>, agent: Agent): seq<Hold> {
    if holds == [] then []
    else if holds[|holds| - 1].agent == agent then Without(holds[..|holds| - 1], agent)
    else Without(holds[..|holds| - 1], agent) + [holds[|holds| - 1]]
  }

  // ----------------------------------------------------------------- steps

  function Plain(vs: seq<Stamped>): (plain: seq<Version>)
    ensures |plain| == |vs|
  {
    seq(|vs|, i requires 0 <= i < |vs| => vs[i].version)
  }

  function ReadAll(vs: seq<Stamped>, cells: seq<Cell>): (values: seq<(Cell, Val)>)
    ensures |values| == |cells|
  {
    seq(|cells|, i requires 0 <= i < |cells| => (cells[i], Latest(Plain(vs), cells[i])))
  }

  predicate BeginAccepted(s: Store, agent: Agent, cells: seq<Cell>) {
    forall i :: 0 <= i < |cells| ==> !Foreign(s.holds, agent, cells[i])
  }

  function BeginSnapshot(s: Store, agent: Agent, cells: seq<Cell>): Snapshot {
    Snapshot(agent, s.clock, cells, ReadAll(s.versions, cells))
  }

  function Begin(s: Store, agent: Agent, cells: seq<Cell>): Store {
    if BeginAccepted(s, agent, cells) then s.(holds := Acquire(s.holds, agent, cells, s.clock)) else s
  }

  /** Every read cell held since the snapshot at the latest, and no write cell held by anyone else. */
  predicate CommitAccepted(s: Store, snap: Snapshot, writes: Writes) {
    && snap.readTime <= s.clock < MAX_U64
    && (forall i :: 0 <= i < |snap.readCells| ==> HeldBySince(s.holds, snap.agent, snap.readCells[i], snap.readTime))
    && (forall i :: 0 <= i < |writes| ==> !Foreign(s.holds, snap.agent, writes[i].0))
  }

  function StampedAt(writes: Writes, t: Time, agent: Agent): (vs: seq<Stamped>)
    ensures |vs| == |writes|
  {
    seq(|writes|, i requires 0 <= i < |writes| => Stamped(Version(writes[i].0, t, writes[i].1), agent))
  }

  function RecordOf(s: Store, snap: Snapshot, writes: Writes): Rec {
    Rec(snap.agent, snap.readCells, snap.readTime, CellsOf(writes), s.clock + 1)
  }

  /** Write cells not yet held are acquired; the holds stay until the agent releases. */
  function Append(s: Store, snap: Snapshot, writes: Writes): Store {
    Store(s.versions + StampedAt(writes, s.clock + 1, snap.agent), s.clock + 1,
          Acquire(s.holds, snap.agent, CellsOf(writes), s.clock), s.trace + [RecordOf(s, snap, writes)])
  }

  function Commit(s: Store, snap: Snapshot, writes: Writes): Store {
    if CommitAccepted(s, snap, writes) then Append(s, snap, writes) else s
  }

  function Release(s: Store, agent: Agent): Store {
    s.(holds := Without(s.holds, agent))
  }

  function Tick(s: Store): Store {
    if s.clock < MAX_U64 then s.(clock := s.clock + 1) else s
  }

  // ------------------------------------------------------------- invariant

  /** Holds are exclusive and no newer than the clock. */
  ghost predicate HoldsInv(holds: seq<Hold>, clock: Time) {
    && (forall i, j :: 0 <= i < |holds| && 0 <= j < |holds| && holds[i].cell == holds[j].cell ==> i == j)
    && (forall i :: 0 <= i < |holds| ==> holds[i].since <= clock)
  }

  /** Nobody else has written a held cell since the hold began. */
  ghost predicate Guarded(holds: seq<Hold>, versions: seq<Stamped>) {
    forall i, k ::
      (0 <= i < |holds| && 0 <= k < |versions|
       && holds[i].cell == versions[k].version.cell && versions[k].writer != holds[i].agent)
      ==> versions[k].version.time <= holds[i].since
  }

  /** The store is its history: chain and clock are those of what each tick committed. */
  ghost predicate Inv(s: Store, history: History) {
    && s.clock == |history| <= MAX_U64
    && Plain(s.versions) == Chain(history)
    && HoldsInv(s.holds, s.clock)
    && Guarded(s.holds, s.versions)
  }

  lemma {:induction false} HolderOfHolds(holds: seq<Hold>, c: Cell)
    ensures HolderOf(holds, c).None? <==> forall i :: 0 <= i < |holds| ==> holds[i].cell != c
    ensures HolderOf(holds, c).Some? ==>
              exists i :: 0 <= i < |holds| && holds[i].cell == c && holds[i].agent == HolderOf(holds, c).value
  {
    if holds != [] && holds[0].cell != c {
      HolderOfHolds(holds[1..], c);
      if HolderOf(holds, c).Some? {
        var i :| 0 <= i < |holds[1..]| && holds[1..][i].cell == c && holds[1..][i].agent == HolderOf(holds, c).value;
        assert holds[i + 1] == holds[1..][i];
      } else {
        assert forall i :: 1 <= i < |holds| ==> holds[i] == holds[1..][i - 1];
      }
    }
  }

  lemma ForeignIff(holds: seq<Hold>, clock: Time, agent: Agent, c: Cell)
    requires HoldsInv(holds, clock)
    ensures Foreign(holds, agent, c) <==> exists i :: 0 <= i < |holds| && holds[i].cell == c && holds[i].agent != agent
  {
    HolderOfHolds(holds, c);
  }

  lemma {:induction false} AcquireKeepsInv(s: Store, agent: Agent, cells: seq<Cell>)
    requires HoldsInv(s.holds, s.clock) && Guarded(s.holds, s.versions)
    requires forall k :: 0 <= k < |s.versions| ==> s.versions[k].version.time <= s.clock
    ensures HoldsInv(Acquire(s.holds, agent, cells, s.clock), s.clock)
    ensures Guarded(Acquire(s.holds, agent, cells, s.clock), s.versions)
  {
    if cells != [] {
      AcquireKeepsInv(s, agent, cells[..|cells| - 1]);
      HolderOfHolds(Acquire(s.holds, agent, cells[..|cells| - 1], s.clock), cells[|cells| - 1]);
    }
  }

  /** Acquiring adds holds at the end and changes none; afterwards every cell is held. */
  lemma {:induction false} AcquireExtends(holds: seq<Hold>, agent: Agent, cells: seq<Cell>, now: Time)
    ensures var after := Acquire(holds, agent, cells, now);
            && |holds| <= |after| && after[..|holds|] == holds
            && (forall i :: |holds| <= i < |after| ==>
               after[i].agent == agent && after[i].since == now && after[i].cell in cells)
            && (forall j :: 0 <= j < |cells| ==> exists i :: 0 <= i < |after| && after[i].cell == cells[j])
  {
    if cells != [] {
      var front, c := cells[..|cells| - 1], cells[|cells| - 1];
      AcquireExtends(holds, agent, front, now);
      var before, after := Acquire(holds, agent, front, now), Acquire(holds, agent, cells, now);
      HolderOfHolds(before, c);
      forall j | 0 <= j < |cells| ensures exists i :: 0 <= i < |after| && after[i].cell == cells[j] {
        if j < |front| {
          assert cells[j] == front[j];
          var i :| 0 <= i < |before| && before[i].cell == front[j];
          assert after[i] == before[i];
        } else if HolderOf(before, c).None? {
          assert after[|before|].cell == c;
        }
      }
    }
  }

  /** Unless someone else held one, afterwards every cell is held by the agent. */
  lemma AcquiredIsOwned(s: Store, agent: Agent, cells: seq<Cell>)
    requires HoldsInv(s.holds, s.clock)
    requires forall i :: 0 <= i < |cells| ==> !Foreign(s.holds, agent, cells[i])
    ensures forall c: Cell :: c in cells ==> HeldBySince(Acquire(s.holds, agent, cells, s.clock), agent, c, s.clock)
  {
    AcquireExtends(s.holds, agent, cells, s.clock);
    var after := Acquire(s.holds, agent, cells, s.clock);
    forall c: Cell | c in cells ensures HeldBySince(after, agent, c, s.clock) {
      var j :| 0 <= j < |cells| && cells[j] == c;
      var i :| 0 <= i < |after| && after[i].cell == cells[j];
      if i < |s.holds| {
        assert after[..|s.holds|][i] == s.holds[i];
        ForeignIff(s.holds, s.clock, agent, c);
      }
    }
  }

  lemma {:induction false} WithoutHas(holds: seq<Hold>, agent: Agent, h: Hold)
    ensures h in Without(holds, agent) <==> h in holds && h.agent != agent
  {
    if holds != [] {
      WithoutHas(holds[..|holds| - 1], agent, h);
    }
  }

  /** Release drops the agent's holds and keeps every other, each as often as it was there. */
  lemma {:induction false} WithoutIsFilter(holds: seq<Hold>, agent: Agent)
    ensures forall h :: h in Without(holds, agent) <==> h in holds && h.agent != agent
    ensures forall h :: multiset(Without(holds, agent))[h] == if h.agent != agent then multiset(holds)[h] else 0
  {
    if holds != [] {
      var front := holds[..|holds| - 1];
      assert holds == front + [holds[|holds| - 1]];
      WithoutIsFilter(front, agent);
    }
  }

  /** `at` lists places of `all` in increasing order that hold `some`. */
  ghost predicate Places(at: seq<nat>, some: seq<Hold>, all: seq<Hold>) {
    && |at| == |some|
    && (forall i :: 0 <= i < |at| ==> at[i] < |all| && all[at[i]] == some[i])
    && (forall i, j :: 0 <= i < j < |at| ==> at[i] < at[j])
  }

  lemma PlacesSnoc(at: seq<nat>, some: seq<Hold>, all: seq<Hold>, h: Hold)
    requires Places(at, some, all)
    ensures Places(at, some, all + [h])
    ensures Places(at + [|all|], some + [h], all + [h])
  {
  }

  /** Each kept hold keeps its place relative to the others. */
  lemma {:induction false} WithoutIsOrdered(holds: seq<Hold>, agent: Agent) returns (at: seq<nat>)
    ensures Places(at, Without(holds, agent), holds)
  {
    if holds == [] {
      at := [];
    } else {
      var front, h := holds[..|holds| - 1], holds[|holds| - 1];
      at := WithoutIsOrdered(front, agent);
      PlacesSnoc(at, Without(front, agent), front, h);
      assert holds == front + [h];
      if h.agent != agent {
        at := at + [|front|];
      }
    }
  }

  lemma WithoutKeepsInv(s: Store, agent: Agent)
    requires HoldsInv(s.holds, s.clock) && Guarded(s.holds, s.versions)
    ensures HoldsInv(Without(s.holds, agent), s.clock) && Guarded(Without(s.holds, agent), s.versions)
  {
    var at := WithoutIsOrdered(s.holds, agent);
  }

  lemma TimesWithinClock(s: Store, history: History)
    requires Inv(s, history)
    ensures forall k :: 0 <= k < |s.versions| ==> s.versions[k].version.time <= s.clock
  {
    ChainIsSorted(history);
    forall k | 0 <= k < |s.versions| ensures s.versions[k].version.time <= s.clock {
      assert Plain(s.versions)[k] == s.versions[k].version;
    }
  }

  lemma {:induction false} BeginKeepsInv(s: Store, history: History, agent: Agent, cells: seq<Cell>)
    requires Inv(s, history)
    ensures Inv(Begin(s, agent, cells), history)
  {
    TimesWithinClock(s, history);
    AcquireKeepsInv(s, agent, cells);
  }

  lemma PlainAppends(s: Store, history: History, agent: Agent, writes: Writes)
    requires Plain(s.versions) == Chain(history) && s.clock == |history|
    ensures Plain(s.versions + StampedAt(writes, s.clock + 1, agent)) == Chain(history + [writes])
  {
    ChainSnoc(history, writes);
    assert Plain(s.versions + StampedAt(writes, s.clock + 1, agent))
           == Plain(s.versions) + VersionsAt(writes, s.clock + 1);
  }

  lemma AppendIsGuarded(s: Store, snap: Snapshot, writes: Writes)
    requires HoldsInv(s.holds, s.clock) && Guarded(s.holds, s.versions)
    requires forall k :: 0 <= k < |s.versions| ==> s.versions[k].version.time <= s.clock
    requires forall i :: 0 <= i < |writes| ==> !Foreign(s.holds, snap.agent, writes[i].0)
    ensures HoldsInv(Append(s, snap, writes).holds, s.clock + 1)
    ensures Guarded(Append(s, snap, writes).holds, Append(s, snap, writes).versions)
  {
    var s' := Append(s, snap, writes);
    AcquireKeepsInv(s, snap.agent, CellsOf(writes));
    AcquiredIsOwned(s, snap.agent, CellsOf(writes));
    forall i, k | 0 <= i < |s'.holds| && |s.versions| <= k < |s'.versions|
      && s'.holds[i].cell == s'.versions[k].version.cell
      ensures s'.versions[k].writer == s'.holds[i].agent
    {
      var c := CellsOf(writes)[k - |s.versions|];
      assert c in CellsOf(writes);
      var j :| 0 <= j < |s'.holds| && s'.holds[j].cell == c && s'.holds[j].agent == snap.agent;
    }
  }

  lemma {:induction false} CommitKeepsInv(s: Store, history: History, snap: Snapshot, writes: Writes)
    requires Inv(s, history)
    ensures Inv(Commit(s, snap, writes), if CommitAccepted(s, snap, writes) then history + [writes] else history)
  {
    if CommitAccepted(s, snap, writes) {
      TimesWithinClock(s, history);
      PlainAppends(s, history, snap.agent, writes);
      AppendIsGuarded(s, snap, writes);
    }
  }

  lemma TickKeepsInv(s: Store, history: History)
    requires Inv(s, history)
    ensures Inv(Tick(s), if s.clock < MAX_U64 then history + [[]] else history)
  {
    if s.clock < MAX_U64 {
      ChainSnoc(history, []);
      assert Chain(history) + VersionsAt([], |history| + 1) == Chain(history);
    }
  }

  lemma ReleaseKeepsInv(s: Store, history: History, agent: Agent)
    requires Inv(s, history)
    ensures Inv(Release(s, agent), history)
  {
    WithoutKeepsInv(s, agent);
  }

  // ------------------------------------- admitted operations are never wasted

  datatype Call =
    | CallBegin(agent: Agent, cells: seq<Cell>)
    | CallCommit(snap: Snapshot, writes: Writes)
    | CallRelease(agent: Agent)
    | CallTick

  function Step(s: Store, a: Call): Store {
    match a
    case CallBegin(agent, cells) => Begin(s, agent, cells)
    case CallCommit(snap, writes) => Commit(s, snap, writes)
    case CallRelease(agent) => Release(s, agent)
    case CallTick => Tick(s)
  }

  function RunFrom(s: Store, calls: seq<Call>): Store {
    if calls == [] then s else Step(RunFrom(s, calls[..|calls| - 1]), calls[|calls| - 1])
  }

  ghost predicate StoreInv(s: Store) {
    exists history: History :: Inv(s, history)
  }

  lemma StepKeepsStoreInv(s: Store, a: Call)
    requires StoreInv(s)
    ensures StoreInv(Step(s, a))
  {
    var history: History :| Inv(s, history);
    match a
    case CallBegin(agent, cells) => BeginKeepsInv(s, history, agent, cells);
    case CallCommit(snap, writes) => CommitKeepsInv(s, history, snap, writes);
    case CallRelease(agent) => ReleaseKeepsInv(s, history, agent);
    case CallTick => TickKeepsInv(s, history);
  }

  lemma {:induction false} RunKeepsStoreInv(s: Store, calls: seq<Call>)
    requires StoreInv(s)
    ensures StoreInv(RunFrom(s, calls)) && RunFrom(s, calls).clock >= s.clock
  {
    if calls != [] {
      RunKeepsStoreInv(s, calls[..|calls| - 1]);
      StepKeepsStoreInv(RunFrom(s, calls[..|calls| - 1]), calls[|calls| - 1]);
    }
  }

  lemma ExtendsKeepsHold(holds: seq<Hold>, after: seq<Hold>, agent: Agent, c: Cell, t: Time)
    requires HeldBySince(holds, agent, c, t) && |holds| <= |after| && after[..|holds|] == holds
    ensures HeldBySince(after, agent, c, t)
  {
    var i :| 0 <= i < |holds| && holds[i].cell == c && holds[i].agent == agent && holds[i].since <= t;
    assert after[..|holds|][i] == after[i];
  }

  /** Only the holder's own release can end a hold. */
  lemma StepKeepsHold(s: Store, a: Call, agent: Agent, c: Cell, t: Time)
    requires HeldBySince(s.holds, agent, c, t) && a != CallRelease(agent)
    ensures HeldBySince(Step(s, a).holds, agent, c, t)
  {
    match a
    case CallBegin(b, cells) =>
      AcquireExtends(s.holds, b, cells, s.clock);
      ExtendsKeepsHold(s.holds, Acquire(s.holds, b, cells, s.clock), agent, c, t);
    case CallCommit(snap, writes) =>
      AcquireExtends(s.holds, snap.agent, CellsOf(writes), s.clock);
      ExtendsKeepsHold(s.holds, Acquire(s.holds, snap.agent, CellsOf(writes), s.clock), agent, c, t);
    case CallRelease(b) =>
      var i :| 0 <= i < |s.holds| && s.holds[i].cell == c && s.holds[i].agent == agent && s.holds[i].since <= t;
      WithoutHas(s.holds, b, s.holds[i]);
    case CallTick =>
  }

  lemma {:induction false} RunKeepsHold(s: Store, calls: seq<Call>, agent: Agent, c: Cell, t: Time)
    requires HeldBySince(s.holds, agent, c, t)
    requires forall i :: 0 <= i < |calls| ==> calls[i] != CallRelease(agent)
    ensures HeldBySince(RunFrom(s, calls).holds, agent, c, t)
  {
    if calls != [] {
      RunKeepsHold(s, calls[..|calls| - 1], agent, c, t);
      StepKeepsHold(RunFrom(s, calls[..|calls| - 1]), calls[|calls| - 1], agent, c, t);
    }
  }

  /**
   An admitted operation is never wasted.  Once `begin` admits it, whatever anyone does short of the
   agent's own release, a commit that writes only cells it read is accepted while the clock has room.
   */
  lemma {:induction false} AdmittedCommitsAreAccepted(s: Store, agent: Agent, cells: seq<Cell>, calls: seq<Call>,
                                                      writes: Writes)
    requires StoreInv(s) && BeginAccepted(s, agent, cells)
    requires forall i :: 0 <= i < |calls| ==> calls[i] != CallRelease(agent)
    requires forall i :: 0 <= i < |writes| ==> writes[i].0 in cells
    requires RunFrom(Begin(s, agent, cells), calls).clock < MAX_U64
    ensures CommitAccepted(RunFrom(Begin(s, agent, cells), calls), BeginSnapshot(s, agent, cells), writes)
  {
    var start := Begin(s, agent, cells);
    StepKeepsStoreInv(s, CallBegin(agent, cells));
    RunKeepsStoreInv(start, calls);
    AcquiredIsOwned(s, agent, cells);
    forall c: Cell | c in cells
      ensures HeldBySince(RunFrom(start, calls).holds, agent, c, s.clock)
              && !Foreign(RunFrom(start, calls).holds, agent, c)
    {
      RunKeepsHold(start, calls, agent, c, s.clock);
      HeldIsNotForeign(RunFrom(start, calls), agent, c, s.clock);
    }
  }

  lemma HeldIsNotForeign(s: Store, agent: Agent, c: Cell, t: Time)
    requires StoreInv(s) && HeldBySince(s.holds, agent, c, t)
    ensures !Foreign(s.holds, agent, c)
  {
    ForeignIff(s.holds, s.clock, agent, c);
  }
}
