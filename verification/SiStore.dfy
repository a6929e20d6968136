/**
 The snapshot-isolation store as an object: the version chain, the clock and the trace are updated in
 place by loops, and every method is proved against the pure step it implements.
 */
module SiStore {
  import opened Common
  import opened Versions
  import opened StoreApi
  import M = SiModel

  method Contains(cells: seq<Cell>, c: Cell) returns (b: bool)
    ensures b <==> c in cells
  {
    var k := 0;
    while k < |cells|
      invariant 0 <= k <= |cells|
      invariant forall i :: 0 <= i < k ==> cells[i] != c
    {
      if cells[k] == c {
        return true;
      }
      k := k + 1;
    }
    return false;
  }

  method Validate(vs: seq<Version>, cells: seq<Cell>, readTime: Time) returns (ok: bool)
    ensures ok <==> M.Fresh(vs, cells, readTime)
  {
    var k := 0;
    while k < |vs|
      invariant 0 <= k <= |vs|
      invariant forall i :: 0 <= i < k && vs[i].cell in cells ==> vs[i].time <= readTime
    {
      var inset := Contains(cells, vs[k].cell);
      if inset && vs[k].time > readTime {
        return false;
      }
      k := k + 1;
    }
    return true;
  }

  /**
   The scan for the newest version of a cell.  On a chain in time order it lands on the last version;
   a cell with none reads as NULL.
   */
  method BestVersion(vs: seq<Version>, c: Cell) returns (best: Val)
    requires forall i, j :: 0 <= i <= j < |vs| ==> vs[i].time <= vs[j].time
    ensures best == Latest(vs, c)
  {
    var bestTime: Time := 0;
    best := 0;
    var k := 0;
    while k < |vs|
      invariant 0 <= k <= |vs|
      invariant best == Latest(vs[..k], c)
      invariant bestTime == 0 || exists i :: 0 <= i < k && vs[i].time == bestTime
    {
      assert vs[..k + 1][..k] == vs[..k];
      if vs[k].cell == c && vs[k].time >= bestTime {
        bestTime := vs[k].time;
        best := vs[k].val;
      }
      k := k + 1;
    }
    assert vs[..|vs|] == vs;
  }

  /** One version per write, all at the same time, and the cells written. */
  method AppendVersions(vs: seq<Version>, writes: Writes, t: Time) returns (more: seq<Version>, cells: seq<Cell>)
    ensures more == vs + VersionsAt(writes, t)
    ensures cells == CellsOf(writes)
  {
    more, cells := vs, [];
    var i := 0;
    while i < |writes|
      invariant 0 <= i <= |writes|
      invariant more == vs + VersionsAt(writes, t)[..i]
      invariant cells == CellsOf(writes)[..i]
    {
      more := more + [Version(writes[i].0, t, writes[i].1)];
      cells := cells + [writes[i].0];
      i := i + 1;
    }
  }

  class SiStore {
    var versions: seq<Version>
    var clock: Time
    var trace: seq<Rec>
    ghost var history: History

    ghost function View(): M.Store
      reads this
    {
      M.Store(versions, clock, trace)
    }

    ghost predicate Valid()
      reads this
    {
      M.Inv(View(), history)
    }

    constructor ()
      ensures Valid() && View() == M.EMPTY && history == []
    {
      versions, clock, trace, history := [], 0, [], [];
    }

    /** A snapshot at the current clock; the store is not modified. */
    method Begin(agent: Agent, cells: seq<Cell>) returns (snap: Snapshot)
      requires Valid()
      ensures snap == M.BeginSnapshot(View(), agent, cells)
    {
      ChainIsSorted(history);
      var values: seq<(Cell, Val)> := [];
      var i := 0;
      while i < |cells|
        invariant 0 <= i <= |cells|
        invariant values == M.ReadAll(versions, cells)[..i]
      {
        var best := BestVersion(versions, cells[i]);
        values := values + [(cells[i], best)];
        i := i + 1;
      }
      snap := Snapshot(agent, clock, cells, values);
    }

    /** Validate, then append one version per write and the record; a refused commit changes nothing. */
    method Commit(snap: Snapshot, writes: Writes) returns (ok: bool, now: Time)
      requires Valid()
      modifies this
      ensures Valid()
      ensures ok == M.CommitAccepted(old(View()), snap)
      ensures View() == M.Commit(old(View()), snap, writes)
      ensures history == if ok then old(history) + [writes] else old(history)
      ensures now == clock
    {
      ghost var before := View();
      M.CommitKeepsInv(before, history, snap, writes);
      if snap.readTime > clock || clock == MAX_U64 {
        return false, clock;
      }
      var allFresh := Validate(versions, snap.readCells, snap.readTime);
      if !allFresh {
        return false, clock;
      }
      assert M.CommitAccepted(before, snap);
      var newClock := clock + 1;
      var writeCells;
      versions, writeCells := AppendVersions(versions, writes, newClock);
      clock := newClock;
      trace := trace + [Rec(snap.agent, snap.readCells, snap.readTime, writeCells, newClock)];
      history := history + [writes];
      assert View() == M.Append(before, snap, writes);
      return true, clock;
    }

    /** Advances the clock by committing nothing; at the ceiling the clock stays. */
    method Tick() returns (now: Time)
      requires Valid()
      modifies this
      ensures Valid()
      ensures View() == M.Tick(old(View()))
      ensures history == if old(clock) < MAX_U64 then old(history) + [[]] else old(history)
      ensures now == clock == if old(clock) < MAX_U64 then old(clock) + 1 else old(clock)
    {
      var ok;
      ok, now := Commit(M.TICK_SNAPSHOT, []);
    }
  }

  // -------------------------------------------------- the agent-facing adapter

  /** What `begin` hands to an agent: one value per distinct cell. */
  function SnapshotOf(s: M.Store, cells: seq<Cell>): StoreSnapshot {
    StoreSnapshot(map c | c in cells :: Latest(s.versions, c), s.clock)
  }

  /** A commit without writes skips validation unless the mode validates every commit. */
  predicate Bypasses(validateNoWrite: bool, writes: map<Cell, Val>) {
    writes == map[] && !validateNoWrite
  }

  ghost function AdapterCommit(s: M.Store, validateNoWrite: bool, agent: Agent, snap: StoreSnapshot,
                               writes: map<Cell, Val>): (r: (M.Store, Outcome))
  {
    if Bypasses(validateNoWrite, writes) then
      (M.Tick(s), Committed(M.Tick(s).clock))
    else if M.CommitAccepted(s, CoreSnapshot(agent, snap)) then
      (M.Append(s, CoreSnapshot(agent, snap), PairsOf(writes)), Committed(s.clock + 1))
    else
      (s, AbortedConflict)
  }

  class SnapshotIsolationStore {
    const core: SiStore
    const validateNoWrite: bool
    var aborts: nat

    ghost function View(): M.Store
      reads this, core
    {
      core.View()
    }

    ghost predicate Valid()
      reads this, core
    {
      core.Valid()
    }

    constructor (validateNoWrite: bool)
      ensures Valid() && fresh(core) && View() == M.EMPTY && aborts == 0
      ensures this.validateNoWrite == validateNoWrite
    {
      core := new SiStore();
      this.validateNoWrite := validateNoWrite;
      aborts := 0;
    }

    method Begin(agent: Agent, cells: seq<Cell>) returns (snap: StoreSnapshot)
      requires Valid()
      ensures snap == SnapshotOf(View(), cells)
    {
      ghost var before := View();
      var read := core.Begin(agent, cells);
      var values := Collect(read.readValues, cells, c => Latest(before.versions, c));
      return StoreSnapshot(values, read.readTime);
    }

    method Commit(agent: Agent, snap: StoreSnapshot, writes: map<Cell, Val>) returns (outcome: Outcome)
      requires Valid()
      modifies this, core
      ensures Valid()
      ensures View() == AdapterCommit(old(View()), validateNoWrite, agent, snap, writes).0
      ensures outcome == AdapterCommit(old(View()), validateNoWrite, agent, snap, writes).1
      ensures aborts == old(aborts) + if outcome.AbortedConflict? then 1 else 0
    {
      var needsValidation := writes != map[] || validateNoWrite;
      if !needsValidation {
        var t := core.Tick();
        return Committed(t);
      }
      outcome := Validated(agent, snap, writes);
      if outcome.AbortedConflict? {
        aborts := aborts + 1;
      }
    }

    /** The commit of the core store, on the cells and the writes in key order. */
    method Validated(agent: Agent, snap: StoreSnapshot, writes: map<Cell, Val>) returns (outcome: Outcome)
      requires Valid()
      modifies core
      ensures Valid()
      ensures View() == M.Commit(old(View()), CoreSnapshot(agent, snap), PairsOf(writes))
      ensures outcome == if M.CommitAccepted(old(View()), CoreSnapshot(agent, snap))
                         then Committed(old(View()).clock + 1) else AbortedConflict
    {
      var readCells := KeysInOrder(snap.values.Keys);
      var pairs := PairsInOrder(writes);
      var ok, t := core.Commit(Snapshot(agent, snap.readTime, readCells, []), pairs);
      return if ok then Committed(t) else AbortedConflict;
    }

    method Tick() returns (now: Time)
      requires Valid()
      modifies core
      ensures Valid() && View() == M.Tick(old(View())) && now == View().clock
    {
      now := core.Tick();
    }
  }
}
