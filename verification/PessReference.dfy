/**
 The pessimistic store told as a lock table: each cell is held by at most one agent, since some time, and
 the values are the serial replay of what was committed.  The store keeps a list of holds and a chain of
 versions instead, and is proved to answer and to move exactly as the table does.
 */
module PessReference {
  import opened Common
  import opened Versions
  import opened PessModel

  datatype Lock = Lock(agent: Agent, since: Time)

  type Locks = map<Cell, Lock>

  datatype Table = Table(clock: Time, held: Locks, history: History)

  // ------------------------------------------------------------ the table

  /** Nobody else holds any of the cells. */
  predicate FreeFor(held: Locks, agent: Agent, cells: seq<Cell>) {
    forall c: Cell :: c in cells && c in held ==> held[c].agent == agent
  }

  /** The free ones among the cells go to the agent; the others stay as they are. */
  function Taken(held: Locks, agent: Agent, cells: seq<Cell>, now: Time): Locks {
    (map c | c in cells :: Lock(agent, now)) + held
  }

  function Released(held: Locks, agent: Agent): Locks {
    map c | c in held && held[c].agent != agent :: held[c]
  }

  predicate OwnedSince(held: Locks, agent: Agent, cells: seq<Cell>, time: Time) {
    forall c: Cell :: c in cells ==> c in held && held[c].agent == agent && held[c].since <= time
  }

  predicate MayCommit(t: Table, snap: Snapshot, writes: Writes) {
    && snap.readTime <= t.clock < MAX_U64
    && OwnedSince(t.held, snap.agent, snap.readCells, snap.readTime)
    && FreeFor(t.held, snap.agent, CellsOf(writes))
  }

  function Move(t: Table, a: Call): Table {
    match a
    case CallBegin(agent, cells) =>
      if FreeFor(t.held, agent, cells) then t.(held := Taken(t.held, agent, cells, t.clock)) else t
    case CallCommit(snap, writes) =>
      if MayCommit(t, snap, writes)
      then Table(t.clock + 1, Taken(t.held, snap.agent, CellsOf(writes), t.clock), t.history + [writes])
      else t
    case CallRelease(agent) => t.(held := Released(t.held, agent))
    case CallTick => if t.clock < MAX_U64 then t.(clock := t.clock + 1, history := t.history + [[]]) else t
  }

  function TableAfter(calls: seq<Call>): Table {
    if calls == [] then Table(0, map[], []) else Move(TableAfter(calls[..|calls| - 1]), calls[|calls| - 1])
  }

  // ------------------------------------------------------- the store agrees

  ghost predicate HoldsAre(holds: seq<Hold>, held: Locks) {
    && (forall i :: 0 <= i < |holds| ==>
          holds[i].cell in held && held[holds[i].cell] == Lock(holds[i].agent, holds[i].since))
    && (forall c: Cell :: c in held ==> exists i :: 0 <= i < |holds| && holds[i].cell == c)
  }

  ghost predicate Agrees(s: Store, t: Table) {
    s.clock == t.clock && HoldsAre(s.holds, t.held) && Inv(s, t.history)
  }

  /** Looking a cell up in the list is looking it up in the table. */
  lemma HolderIsLock(holds: seq<Hold>, held: Locks, c: Cell)
    requires HoldsAre(holds, held)
    ensures HolderOf(holds, c) == if c in held then Some(held[c].agent) else None
  {
    HolderOfHolds(holds, c);
  }

  lemma HeldIsLock(holds: seq<Hold>, held: Locks, agent: Agent, c: Cell, time: Time)
    requires HoldsAre(holds, held)
    ensures HeldBySince(holds, agent, c, time) <==> c in held && held[c].agent == agent && held[c].since <= time
  {
  }

  lemma {:induction false} AcquireTakes(holds: seq<Hold>, held: Locks, agent: Agent, cells: seq<Cell>, now: Time)
    requires HoldsAre(holds, held)
    ensures HoldsAre(Acquire(holds, agent, cells, now), Taken(held, agent, cells, now))
  {
    if cells == [] {
      assert Taken(held, agent, cells, now) == held;
    } else {
      var front, c := cells[..|cells| - 1], cells[|cells| - 1];
      AcquireTakes(holds, held, agent, front, now);
      var before := Acquire(holds, agent, front, now);
      HolderIsLock(before, Taken(held, agent, front, now), c);
      assert cells == front + [c];
      TakenSnoc(held, agent, front, c, now);
      OneMore(before, Taken(held, agent, front, now), agent, c, now);
    }
  }

  lemma TakenSnoc(held: Locks, agent: Agent, cells: seq<Cell>, c: Cell, now: Time)
    ensures var taken := Taken(held, agent, cells, now);
            Taken(held, agent, cells + [c], now) == if c in taken then taken else taken[c := Lock(agent, now)]
  {
  }

  lemma OneMore(holds: seq<Hold>, held: Locks, agent: Agent, c: Cell, now: Time)
    requires HoldsAre(holds, held)
    ensures c !in held ==> HoldsAre(holds + [Hold(c, agent, now)], held[c := Lock(agent, now)])
  {
    var more := holds + [Hold(c, agent, now)];
    if c !in held {
      var all := held[c := Lock(agent, now)];
      forall d: Cell | d in all ensures exists i :: 0 <= i < |more| && more[i].cell == d {
        if d == c {
          assert more[|holds|].cell == c;
        } else {
          var i :| 0 <= i < |holds| && holds[i].cell == d;
          assert more[i] == holds[i];
        }
      }
    }
  }

  lemma WithoutReleases(holds: seq<Hold>, held: Locks, agent: Agent)
    requires HoldsAre(holds, held)
    ensures HoldsAre(Without(holds, agent), Released(held, agent))
  {
    var kept := Without(holds, agent);
    forall i | 0 <= i < |kept|
      ensures kept[i].cell in Released(held, agent)
      ensures held[kept[i].cell] == Lock(kept[i].agent, kept[i].since)
    {
      WithoutHas(holds, agent, kept[i]);
      assert kept[i] in kept;
    }
    forall c: Cell | c in Released(held, agent) ensures exists i :: 0 <= i < |kept| && kept[i].cell == c {
      var i :| 0 <= i < |holds| && holds[i].cell == c;
      WithoutHas(holds, agent, holds[i]);
    }
  }

  /** The store admits an operation exactly when nobody else holds a cell it asks for. */
  lemma BeginsWhenFree(s: Store, t: Table, agent: Agent, cells: seq<Cell>)
    requires Agrees(s, t)
    ensures BeginAccepted(s, agent, cells) <==> FreeFor(t.held, agent, cells)
  {
    forall c: Cell ensures HolderOf(s.holds, c) == if c in t.held then Some(t.held[c].agent) else None {
      HolderIsLock(s.holds, t.held, c);
    }
    forall c: Cell | c in cells && BeginAccepted(s, agent, cells) && c in t.held ensures t.held[c].agent == agent {
      var i :| 0 <= i < |cells| && cells[i] == c;
    }
  }

  /** It accepts a commit exactly when the reads are held since the snapshot and no written cell is another's. */
  lemma CommitsWhenHeld(s: Store, t: Table, snap: Snapshot, writes: Writes)
    requires Agrees(s, t)
    ensures CommitAccepted(s, snap, writes) <==> MayCommit(t, snap, writes)
  {
    ReadsHeld(s, t, snap);
    WritesFree(s, t, snap.agent, writes);
  }

  lemma ReadsHeld(s: Store, t: Table, snap: Snapshot)
    requires Agrees(s, t)
    ensures (forall i :: 0 <= i < |snap.readCells| ==>
               HeldBySince(s.holds, snap.agent, snap.readCells[i], snap.readTime))
            <==> OwnedSince(t.held, snap.agent, snap.readCells, snap.readTime)
  {
    forall c: Cell
      ensures HeldBySince(s.holds, snap.agent, c, snap.readTime)
              <==> c in t.held && t.held[c].agent == snap.agent && t.held[c].since <= snap.readTime
    {
      HeldIsLock(s.holds, t.held, snap.agent, c, snap.readTime);
    }
    forall i | 0 <= i < |snap.readCells| ensures snap.readCells[i] in snap.readCells {
    }
  }

  lemma WritesFree(s: Store, t: Table, agent: Agent, writes: Writes)
    requires Agrees(s, t)
    ensures (forall i :: 0 <= i < |writes| ==> !Foreign(s.holds, agent, writes[i].0))
            <==> FreeFor(t.held, agent, CellsOf(writes))
  {
    BeginsWhenFree(s, t, agent, CellsOf(writes));
    forall i | 0 <= i < |writes|
      ensures Foreign(s.holds, agent, writes[i].0) == Foreign(s.holds, agent, CellsOf(writes)[i])
    {
    }
  }

  lemma StepAgrees(s: Store, t: Table, a: Call)
    requires Agrees(s, t)
    ensures Agrees(Step(s, a), Move(t, a))
  {
    match a
    case CallBegin(agent, cells) =>
      BeginsWhenFree(s, t, agent, cells);
      BeginKeepsInv(s, t.history, agent, cells);
      AcquireTakes(s.holds, t.held, agent, cells, s.clock);
    case CallCommit(snap, writes) =>
      CommitsWhenHeld(s, t, snap, writes);
      CommitKeepsInv(s, t.history, snap, writes);
      AcquireTakes(s.holds, t.held, snap.agent, CellsOf(writes), s.clock);
    case CallRelease(agent) =>
      ReleaseKeepsInv(s, t.history, agent);
      WithoutReleases(s.holds, t.held, agent);
    case CallTick => TickKeepsInv(s, t.history);
  }

  lemma {:induction false} RunIsTable(calls: seq<Call>)
    ensures Agrees(RunFrom(EMPTY, calls), TableAfter(calls))
  {
    if calls != [] {
      RunIsTable(calls[..|calls| - 1]);
      StepAgrees(RunFrom(EMPTY, calls[..|calls| - 1]), TableAfter(calls[..|calls| - 1]), calls[|calls| - 1]);
    }
  }

  /** What an admitted operation is shown: the serial replay, at the current time, in request order. */
  lemma {:induction false} SnapshotsShowTheReplay(calls: seq<Call>, agent: Agent, cells: seq<Cell>)
    ensures var s, t := RunFrom(EMPTY, calls), TableAfter(calls);
            var snap := BeginSnapshot(s, agent, cells);
            && snap.agent == agent && snap.readTime == t.clock == |t.history| && snap.readCells == cells
            && |snap.readValues| == |cells|
            && forall i :: 0 <= i < |cells| ==>
                 snap.readValues[i] == (cells[i], ValueAt(t.history, |t.history|, cells[i]))
  {
    var s, t := RunFrom(EMPTY, calls), TableAfter(calls);
    RunIsTable(calls);
    forall i | 0 <= i < |cells|
      ensures BeginSnapshot(s, agent, cells).readValues[i] == (cells[i], ValueAt(t.history, |t.history|, cells[i]))
    {
      LatestIsReplay(t.history, cells[i]);
    }
  }

  /**
   The answers over every run: an operation is admitted exactly when no cell it asks for is another's, and a
   commit is accepted exactly when the clock has room, each read cell has been the agent's since the snapshot,
   and each written cell is the agent's or nobody's.
   */
  lemma {:induction false} AnswersExactly(calls: seq<Call>, snap: Snapshot, writes: Writes, agent: Agent,
                                          cells: seq<Cell>)
    ensures var s, t := RunFrom(EMPTY, calls), TableAfter(calls);
            && (BeginAccepted(s, agent, cells)
                <==> forall c: Cell :: c in cells && c in t.held ==> t.held[c].agent == agent)
            && (CommitAccepted(s, snap, writes)
                <==> && snap.readTime <= t.clock < MAX_U64
                     && (forall c: Cell :: c in snap.readCells ==>
                           c in t.held && t.held[c].agent == snap.agent && t.held[c].since <= snap.readTime)
                     && (forall c: Cell :: c in CellsOf(writes) && c in t.held ==> t.held[c].agent == snap.agent))
  {
    RunIsTable(calls);
    BeginsWhenFree(RunFrom(EMPTY, calls), TableAfter(calls), agent, cells);
    CommitsWhenHeld(RunFrom(EMPTY, calls), TableAfter(calls), snap, writes);
  }
}
