/**
 The pessimistic store as an object: the hold table, the version chain and the trace are scanned and
 updated by loops, and every method is proved against the pure step it implements.
 */
module PessStore {
  import opened Common
  import opened Versions
  import opened StoreApi
  import opened M = PessModel

  method FindHolder(holds: seq<Hold>, c: Cell) returns (r: Option<Agent>)
    ensures r == HolderOf(holds, c)
  {
    var k := 0;
    while k < |holds|
      invariant 0 <= k <= |holds|
      invariant HolderOf(holds, c) == HolderOf(holds[k..], c)
    {
      if holds[k].cell == c {
        return Some(holds[k].agent);
      }
      assert holds[k..][1..] == holds[k + 1..];
      k := k + 1;
    }
    return None;
  }

  method HeldSinceOne(holds: seq<Hold>, agent: Agent, c: Cell, readTime: Time) returns (b: bool)
    ensures b <==> HeldBySince(holds, agent, c, readTime)
  {
    var k := 0;
    while k < |holds|
      invariant 0 <= k <= |holds|
      invariant forall i :: 0 <= i < k ==>
                !(holds[i].cell == c && holds[i].agent == agent && holds[i].since <= readTime)
    {
      if holds[k].cell == c && holds[k].agent == agent && holds[k].since <= readTime {
        return true;
      }
      k := k + 1;
    }
    return false;
  }

  /** Both directions: false exactly when some cell is not held since the read time. */
  method AllHeldSince(holds: seq<Hold>, agent: Agent, cells: seq<Cell>, readTime: Time) returns (b: bool)
    ensures b <==> forall i :: 0 <= i < |cells| ==> HeldBySince(holds, agent, cells[i], readTime)
  {
    var t := 0;
    while t < |cells|
      invariant 0 <= t <= |cells|
      invariant forall i :: 0 <= i < t ==> HeldBySince(holds, agent, cells[i], readTime)
    {
      var held := HeldSinceOne(holds, agent, cells[t], readTime);
      if !held {
        return false;
      }
      t := t + 1;
    }
    return true;
  }

  /** Whether another agent holds one of the cells: a scan without early exit. */
  method AnyForeign(holds: seq<Hold>, agent: Agent, cells: seq<Cell>) returns (conflict: bool)
    ensures conflict <==> exists i :: 0 <= i < |cells| && Foreign(holds, agent, cells[i])
  {
    conflict := false;
    var t := 0;
    while t < |cells|
      invariant 0 <= t <= |cells|
      invariant conflict <==> exists i :: 0 <= i < t && Foreign(holds, agent, cells[i])
    {
      var h := FindHolder(holds, cells[t]);
      if h.Some? && h.value != agent {
        conflict := true;
      }
      t := t + 1;
    }
  }

  method TakeHolds(holds: seq<Hold>, agent: Agent, cells: seq<Cell>, now: Time) returns (after: seq<Hold>)
    ensures after == Acquire(holds, agent, cells, now)
  {
    after := holds;
    var t := 0;
    while t < |cells|
      invariant 0 <= t <= |cells|
      invariant after == Acquire(holds, agent, cells[..t], now)
    {
      assert cells[..t + 1][..t] == cells[..t];
      var h := FindHolder(after, cells[t]);
      if h.None? {
        after := after + [Hold(cells[t], agent, now)];
      }
      t := t + 1;
    }
    assert cells[..|cells|] == cells;
  }

  method BestVersion(vs: seq<Stamped>, c: Cell) returns (best: Val)
    requires forall i, j :: 0 <= i <= j < |vs| ==> vs[i].version.time <= vs[j].version.time
    ensures best == Latest(Plain(vs), c)
  {
    var bestTime: Time := 0;
    best := 0;
    var k := 0;
    while k < |vs|
      invariant 0 <= k <= |vs|
      invariant best == Latest(Plain(vs)[..k], c)
      invariant bestTime == 0 || exists i :: 0 <= i < k && vs[i].version.time == bestTime
    {
      assert Plain(vs)[..k + 1][..k] == Plain(vs)[..k];
      if vs[k].version.cell == c && vs[k].version.time >= bestTime {
        bestTime := vs[k].version.time;
        best := vs[k].version.val;
      }
      k := k + 1;
    }
    assert Plain(vs)[..|vs|] == Plain(vs);
  }

  method ReadLatest(vs: seq<Stamped>, cells: seq<Cell>) returns (values: seq<(Cell, Val)>)
    requires forall i, j :: 0 <= i <= j < |vs| ==> vs[i].version.time <= vs[j].version.time
    ensures values == ReadAll(vs, cells)
  {
    values := [];
    var t := 0;
    while t < |cells|
      invariant 0 <= t <= |cells|
      invariant values == ReadAll(vs, cells)[..t]
    {
      var best := BestVersion(vs, cells[t]);
      values := values + [(cells[t], best)];
      t := t + 1;
    }
  }

  method AppendVersions(vs: seq<Stamped>, writes: Writes, t: Time, agent: Agent) returns (more: seq<Stamped>)
    ensures more == vs + StampedAt(writes, t, agent)
  {
    more := vs;
    var i := 0;
    while i < |writes|
      invariant 0 <= i <= |writes|
      invariant more == vs + StampedAt(writes, t, agent)[..i]
    {
      more := more + [Stamped(Version(writes[i].0, t, writes[i].1), agent)];
      i := i + 1;
    }
  }

  /** Keeps every hold of the other agents, in order. */
  method DropHolds(holds: seq<Hold>, agent: Agent) returns (kept: seq<Hold>)
    ensures kept == Without(holds, agent)
  {
    kept := [];
    var k := 0;
    while k < |holds|
      invariant 0 <= k <= |holds|
      invariant kept == Without(holds[..k], agent)
    {
      assert holds[..k + 1][..k] == holds[..k];
      if holds[k].agent != agent {
        kept := kept + [holds[k]];
      }
      k := k + 1;
    }
    assert holds[..|holds|] == holds;
  }

  lemma StampsAreSorted(s: Store, history: History)
    requires Inv(s, history)
    ensures forall i, j :: 0 <= i <= j < |s.versions| ==> s.versions[i].version.time <= s.versions[j].version.time
  {
    ChainIsSorted(history);
    forall i, j | 0 <= i <= j < |s.versions| ensures s.versions[i].version.time <= s.versions[j].version.time {
      assert Plain(s.versions)[i].time <= Plain(s.versions)[j].time;
    }
  }

  class PessStore {
    var versions: seq<Stamped>
    var clock: Time
    var holds: seq<Hold>
    var trace: seq<Rec>
    ghost var history: History

    ghost function View(): Store
      reads this
    {
      Store(versions, clock, holds, trace)
    }

    ghost predicate Valid()
      reads this
    {
      Inv(View(), history)
    }

    constructor ()
      ensures Valid() && View() == EMPTY && history == []
    {
      versions, clock, holds, trace, history := [], 0, [], [], [];
    }

    /** Refuses, changing nothing, if another agent holds a cell; otherwise holds them all. */
    method Begin(agent: Agent, cells: seq<Cell>) returns (snap: Option<Snapshot>)
      requires Valid()
      modifies this
      ensures Valid() && history == old(history)
      ensures View() == M.Begin(old(View()), agent, cells)
      ensures snap == if BeginAccepted(old(View()), agent, cells)
                      then Some(BeginSnapshot(old(View()), agent, cells)) else None
    {
      BeginKeepsInv(View(), history, agent, cells);
      StampsAreSorted(View(), history);
      var conflict := AnyForeign(holds, agent, cells);
      if conflict {
        return None;
      }
      holds := TakeHolds(holds, agent, cells, clock);
      var values := ReadLatest(versions, cells);
      return Some(Snapshot(agent, clock, cells, values));
    }

    /** Refuses, changing nothing, unless the reads are held and the writes are not foreign. */
    method Commit(snap: Snapshot, writes: Writes) returns (ok: bool, now: Time)
      requires Valid()
      modifies this
      ensures Valid()
      ensures ok == CommitAccepted(old(View()), snap, writes)
      ensures View() == M.Commit(old(View()), snap, writes)
      ensures history == if ok then old(history) + [writes] else old(history)
      ensures now == clock
    {
      ghost var before := View();
      CommitKeepsInv(before, history, snap, writes);
      if snap.readTime > clock || clock == MAX_U64 {
        return false, clock;
      }
      var held := AllHeldSince(holds, snap.agent, snap.readCells, snap.readTime);
      if !held {
        return false, clock;
      }
      var cells := CellsOf(writes);
      var foreign := AnyForeign(holds, snap.agent, cells);
      if foreign {
        assert exists i :: 0 <= i < |writes| && Foreign(holds, snap.agent, writes[i].0);
        return false, clock;
      }
      assert forall i :: 0 <= i < |writes| ==>
             Foreign(holds, snap.agent, cells[i]) == Foreign(holds, snap.agent, writes[i].0);
      assert CommitAccepted(before, snap, writes);
      holds := TakeHolds(holds, snap.agent, cells, clock);
      versions := AppendVersions(versions, writes, clock + 1, snap.agent);
      trace := trace + [Rec(snap.agent, snap.readCells, snap.readTime, cells, clock + 1)];
      clock := clock + 1;
      history := history + [writes];
      assert View() == Append(before, snap, writes);
      return true, clock;
    }

    method Release(agent: Agent)
      requires Valid()
      modifies this`holds
      ensures Valid() && View() == M.Release(old(View()), agent)
    {
      ReleaseKeepsInv(View(), history, agent);
      holds := DropHolds(holds, agent);
    }

    method Tick() returns (now: Time)
      requires Valid()
      modifies this
      ensures Valid() && View() == M.Tick(old(View())) && now == clock
      ensures history == if old(clock) < MAX_U64 then old(history) + [[]] else old(history)
    {
      TickKeepsInv(View(), history);
      if clock == MAX_U64 {
        return clock;
      }
      clock := clock + 1;
      history := history + [[]];
      return clock;
    }
  }

  // -------------------------------------------------- the agent-facing adapter

  function SnapshotOf(s: Store, cells: seq<Cell>): StoreSnapshot {
    StoreSnapshot(map c | c in cells :: Latest(Plain(s.versions), c), s.clock)
  }

  ghost predicate AdapterAccepts(s: Store, agent: Agent, snap: StoreSnapshot, writes: map<Cell, Val>) {
    CommitAccepted(s, CoreSnapshot(agent, snap), PairsOf(writes))
  }

  ghost function AdapterCommit(s: Store, agent: Agent, snap: StoreSnapshot, writes: map<Cell, Val>): Store {
    M.Commit(s, CoreSnapshot(agent, snap), PairsOf(writes))
  }

  class PessimisticStore {
    const core: PessStore
    var beginConflicts: nat

    ghost function View(): Store
      reads this, core
    {
      core.View()
    }

    ghost predicate Valid()
      reads this, core
    {
      core.Valid()
    }

    constructor ()
      ensures Valid() && fresh(core) && View() == EMPTY && beginConflicts == 0
    {
      core := new PessStore();
      beginConflicts := 0;
    }

    method Begin(agent: Agent, cells: seq<Cell>) returns (snap: Option<StoreSnapshot>)
      requires Valid()
      modifies this, core
      ensures Valid() && View() == M.Begin(old(View()), agent, cells)
      ensures snap == if BeginAccepted(old(View()), agent, cells) then Some(SnapshotOf(old(View()), cells)) else None
      ensures beginConflicts == old(beginConflicts) + if snap.None? then 1 else 0
    {
      ghost var before := View();
      var s := core.Begin(agent, cells);
      if s.None? {
        beginConflicts := beginConflicts + 1;
        return None;
      }
      var read := s.value;
      var values := Collect(read.readValues, cells, c => Latest(Plain(before.versions), c));
      assert values == SnapshotOf(before, cells).values;
      return Some(StoreSnapshot(values, read.readTime));
    }

    method Commit(agent: Agent, snap: StoreSnapshot, writes: map<Cell, Val>) returns (outcome: Outcome)
      requires Valid()
      modifies core
      ensures Valid() && View() == AdapterCommit(old(View()), agent, snap, writes)
      ensures outcome == if AdapterAccepts(old(View()), agent, snap, writes)
                         then Committed(old(View()).clock + 1) else AbortedConflict
    {
      var readCells := KeysInOrder(snap.values.Keys);
      var pairs := PairsInOrder(writes);
      assert Snapshot(agent, snap.readTime, readCells, []) == CoreSnapshot(agent, snap);
      var ok, t := core.Commit(Snapshot(agent, snap.readTime, readCells, []), pairs);
      return if ok then Committed(t) else AbortedConflict;
    }

    method Release(agent: Agent)
      requires Valid()
      modifies core
      ensures Valid() && View() == M.Release(old(View()), agent)
    {
      core.Release(agent);
    }

    method Tick() returns (now: Time)
      requires Valid()
      modifies core
      ensures Valid() && View() == M.Tick(old(View())) && now == View().clock
    {
      now := core.Tick();
    }
  }
}
