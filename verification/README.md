# Transaction runtimes for agents: a verified model

The repository is a family of small transaction runtimes that agents share, and the detectors that
judge the histories they emit.  This project models them in Dafny and proves what they are for.

- **The L2 runtime** (`L2Model`, `L2Runtime` and the other `L2…` modules): a transactional store with
  value-validated reads, predecessor sets kept transitively closed as they are read, one-pass cascading
  abort without rollback, and output commit.  `L2Model` is the transition system, each `step_*` of the
  source a function `Step…`; a run is any sequence of calls, since a refused call changes nothing.
  `L2Runtime` is the object with its maps, append-only lists and loops, every method proved equal to a
  step.  Over all runs: invariants, permanence, commit-order serializability, exactness of the causal
  closure and of the cascade, progress of release, and exactly when a predecessor-closed set of commits,
  the survivors among them, replays alone.  `L2Reference` tells the runtime from the journal of its accepted
  calls alone, so each guard is proved against what happened and not against the fields it reads.
- **The measurement** (`Provenance`, `RuntimeTrace`, `Scenario`, `ChainLayout`, `DriverModel`,
  `GuardedDriver`, `Experiment`): the closure search, the A3 detectors and exposure counts, the whole seeded
  scenario run against the runtime object, with every figure it reports in closed form, and the sums over
  the mixed seeds, with what the measurement asserts of them.
- **The release-at-commit baselines** (`ReleaseAtCommit`, `ReleaseAtCommitStores`, `StoreReference`,
  `CascadeSafety`, `BaselineSchedule`, `BaselineFigures`, `BaselineDriver`): the unguarded store and the
  superseded cascade, both told from the journal of their calls as stores that validate at commit, their
  equivalence up to abort flags, what the cascade's own safety claim needs, and both arms' figures in closed
  form.
- **The L1 stores** (`Versions`, `SiModel`, `SiStore`, `PessModel`, `PessSerial`, `PessReference`,
  `PessStore`): optimistic validation over a version chain, and per-cell exclusive holds, each as pure steps
  and as an object with its scans, and serializability of both over every interleaving.  `PessReference`
  is the same store as a lock table with its history.
- **The agent layer** (`StoreApi`, `Interner`, `Detectors`, `AgentModel`, `AgentLedger`, `AgentsOverSi`,
  `AgentsOverPess`, `AgentObjects`, `TriageExample`): agents with one pending operation each, whose store
  commit, record and release are separate steps, interleaved arbitrarily over either store; what the emitted
  history shows the detectors, end to end.  `AgentLedger` notes what each operation's own calls passed, and
  the level of a history is stated over that.
- **The L3 reorder buffer** (`Sequencer`): the generator, the in-place shuffle exactly as drawn from it, the
  buffer for every completion order, and the two-armed experiment.

Concurrency is arbitrary interleaving of atomic steps, one per lock-protected call.  Agents are
sequential and have distinct ids.  Counters and clocks are natural numbers with the 64-bit ceiling
written out where the source tests it.  The set of cells a transaction read (wrote) is the domain of its
recorded values, which the source fills together.  Names are ids, with 0 for NULL, so an ordered map
lists its keys in id order; `Interner` shows ids decide names.

Where the code and its comments differ, the model follows the code:

- `src/l2_measure.rs:270-271` calls id order causal order.  It is in the seeded scenario, but not in
  every run of the runtime: `L2YoungerWriter.IdOrderIsNotAlwaysCausal` is a run in which it is not, and
  `L2Release.IdPassReleasesAllIffCausal` says exactly when a pass in that order is enough.
- `src/l2_cascade.rs:5-8` says the superseded design leaves no surviving dependent of an aborted
  operation.  Its `read` has no guard, so a read after the reader's commit can create one:
  `CascadeSafety.CleanIffNeverTaints` says exactly when.
- Freshness in the L2 runtime compares values, so a value that is overwritten and restored passes.
  Commit-order serializability is unaffected, but replaying a predecessor-closed set of commits without
  the others is.  For one such set, the survivors or the released ones in particular, the exact condition
  is `RestoredWithin` (`L2Survivors.ClosedSetReplaysIffRestored`, `L2Survivors.SurvivorsReplayIffRestored`).
  For every such set at once it is `Masked` (`L2Survivors.ClosedSetsReplayIffMasked`), which can be
  checked commit by commit; `L2RestoredValue` has a run that fails both and one that fails only `Masked`.
- The pessimistic store's window excludes only other agents.  With two outstanding operations of one
  agent, the second begun before the first ended, a stale read commits:
  `PessSerial.ReadsAreSerialIffOwnWritesPutBack` says exactly when, and agents that take their operations
  in turn never do (`PessSerial.OneAtATimeIsSerial`).

`dafny verify dfyconfig.toml` checks the whole project.

## Model

| member | source | states |
|---|---|---|
| `L2Runtime.L2Runtime.constructor` | src/l2_exec.rs:2573-2592 | A new runtime is the initial state: no transactions, no cells, clock 0. |
| `L2Runtime.L2Runtime.Begin` | src/l2_exec.rs:2599-2663 | Acts exactly when clock and id counter have room; then the state is the abstract begin step and the id is the next one, otherwise no field changes. |
| `L2Runtime.L2Runtime.Write` | src/l2_exec.rs:2667-2745 | Acts exactly when the write guard holds and the clock has room, then equals the abstract write (last write per cell wins); a refusal changes no field. |
| `L2Runtime.L2Runtime.CanCommit` | src/l2_exec.rs:2748-2898 | Two early-exit scans over lists that may repeat entries decide the abstract commit guard, both directions. |
| `L2Runtime.L2Runtime.Commit` | src/l2_exec.rs:2905-3033 | Acts exactly when the commit guard holds and the clock has room; the publish loop over the write list equals the abstract map union; a refusal changes no field. |
| `L2Runtime.L2Runtime.Read` | src/l2_exec.rs:3039-3248 | Acts exactly when the read guard holds; the copied predecessor list, duplicates and all, is the abstract union with the writer and its closure. |
| `L2Runtime.L2Runtime.Abort` | src/l2_exec.rs:3279-3448 | Acts exactly when the transaction is not released; the one scan in id order equals the abstract cascade; a refusal changes no field. |
| `L2Runtime.L2Runtime.CanExternalize` | src/l2_exec.rs:3458-3533 | Decides the abstract release guard, both directions. |
| `L2Runtime.L2Runtime.Externalize` | src/l2_exec.rs:3539-3581 | Acts exactly when the release guard holds and the clock has room; a refusal changes no field. |
| `L2Reference.RunIsReference` | src/l2_exec.rs:2573-3581 | After any calls the state is what the journal of the accepted calls says: values and last writers are the replay of its commits, each record holds what its own reads and writes in the journal were, a transaction rests on exactly whom those reads reach, and it is aborted exactly when it or one of those was withdrawn. |
| `L2Reference.AcceptedExactly` | src/l2_exec.rs:2599-3581 | Over all runs a call acts if and only if the journal admits it, said without any field of the runtime: second reads, second writes and repeated aborts included; otherwise the state is unchanged. |
| `L2Reference.ReadsExactly` | src/l2_exec.rs:3039-3248 | Whoever has begun and not committed may read any cell the replay holds, however much it has read before; it gets the replay's value, and then rests on the last writer and all that one rests on. Otherwise nothing changes. |
| `L2Reference.CommitsExactly` | src/l2_exec.rs:2905-3033 | Accepted if and only if the transaction is open and not withdrawn, the replay still shows its reads, nothing it reaches is withdrawn, and the clock has room; then its writes go on top of the replay. Otherwise nothing changes. |
| `L2Invariant.StepKeepsInv` | src/l2_exec.rs:486-514 | Every call keeps: predecessors are other, committed, strictly earlier transactions and closed under transitivity; commit times are distinct; published values are their writer's; reads are explained by a predecessor; no clean commit has an aborted predecessor; released effects are final and rest on released ones. |
| `L2Invariant.RunKeepsInv` | src/l2_exec.rs:1931-1937 | The same in every state any sequence of calls reaches. |
| `L2Permanence.Permanence` | src/l2_exec.rs:415-420 | In every continuation of every run a released transaction is unchanged, a committed one keeps its reads, writes, predecessors and commit time, and an abort is never undone or released. |
| `L2Permanence.TaintedNeverLeaves` | src/l2_exec.rs:1293-1343 | A transaction with an aborted predecessor, even one read after the cascade ran, never commits if it had not, and never releases, in any continuation. |
| `L2Permanence.NoA3` | src/l2_exec.rs:254-275 | No reachable state has a released, or a surviving, transaction with an aborted predecessor. |
| `L2Serial.LogIsSerial` | src/l2_exec.rs:174-214 | After any calls, cell values and writers are the serial replay of the commits in the order they happened, and each commit's recorded reads are that replay just before it. |
| `L2Serial.CommitOrderSerializable` | src/l2_exec.rs:2905-3033 | The same for the listing of committed transactions by commit time, later-aborted ones included; that listing is unique. No assumption on what is written. |
| `L2Survivors.ClosedSetsReplayIffMasked` | src/l2_exec.rs:79-103 | Every predecessor-closed set of commits, replayed alone in commit order, gives each member the values it read if and only if every committed write that disagrees with a later commit's read was overwritten, after it, by a predecessor of that reader. |
| `L2Survivors.ClosedSetReplaysIffRestored` | src/l2_exec.rs:79-103 | For any one predecessor-closed set: it replays alone to the values its members read if and only if, inside the set, every write that disagrees with a later commit's read was put back in between. |
| `L2Survivors.SurvivorsReplayIffRestored` | src/l2_exec.rs:3039-3248 | The unaborted commits and the released ones are such sets after any calls, so for each of them that condition is exact. |
| `L2Survivors.CommitKeepsMaskedIff` | src/l2_exec.rs:2816-2818 | That condition can be checked at the commit: a commit keeps it exactly when its own reads meet it just before the call. |
| `L2Survivors.MaskedIffEveryCommitChecked` | src/l2_exec.rs:2905-3033 | Over whole runs: the condition holds at the end exactly when every accepted commit met its own check. |
| `L2Survivors.UniqueWritesAreMasked` | src/l2_exec.rs:2816-2818 | If no two commits write the same value to the same cell, the condition holds. |
| `L2Survivors.SurvivorsSerializable` | src/l2_exec.rs:3039-3248 | Then the unaborted commits and the released ones are closed sets, and each replays alone to the values it read. |
| `L2RestoredValue.RestoredValueBreaksSurvivors` | src/l2_exec.rs:2816-2818 | Without uniqueness it fails: a concrete run in which a value is overwritten, restored and its restorer aborted leaves survivors that do not replay alone, because freshness compares values. |
| `L2RestoredValue.SurvivorsMayReplayUnmasked` | src/l2_exec.rs:2816-2818 | The two conditions differ: once the overwriter of that run is aborted too, the survivors replay alone although some closed set still does not. |
| `L2Closure.ClosureExact` | src/l2_exec.rs:3094-3176 | The recorded predecessors of a transaction are exactly the transactions reached through what it and its sources ever read. |
| `L2Closure.ReadsAreAcyclic` | src/l2_exec.rs:105-113 | Reading is acyclic: nothing rests on itself, and what a commit rests on committed strictly earlier. |
| `L2Closure.AbortFlagsExactlyDependents` | src/l2_exec.rs:3333-3411 | One pass of abort flags exactly the transaction and everything that transitively read from it, and rolls no cell back. |
| `L2Release.OldestLiveMayLeave` | src/l2_exec.rs:3458-3533 | In every reachable state the committed, unaborted, unreleased transaction with the least commit time may release. |
| `L2Release.CommitOrderPassReleasesAll` | src/l2_exec.rs:3539-3581 | One pass in commit-time order releases every live transaction and changes nothing else, while the clock has room. |
| `L2Release.IdPassReleases` | src/l2_measure.rs:273-286 | What a pass in id order with one exemption releases, exactly, when waiting is only for smaller ids: everything live that neither is nor rests on the exempt transaction. |
| `L2Release.IdPassReleasesAllIffCausal` | src/l2_measure.rs:270-286 | After any calls, one more pass in id order, as calls of the runtime, leaves nothing live inside if and only if unreleased transactions wait only for smaller ids. |
| `L2YoungerWriter.IdOrderIsNotAlwaysCausal` | src/l2_measure.rs:270-286 | The comment that id order is causal order is not true of every run: a concrete one in which a live transaction has read from a younger one and is still inside after the pass. |
| `L2Release.IdPassFromRun` | src/l2_measure.rs:273-286 | A pass after any calls is itself a run of release calls, so all that holds of runs holds after it. |
| `Provenance.Closure` | src/l2_measure.rs:106-117 | The worklist search ends on every finite graph, cycles included, with exactly what the roots reach. |
| `Provenance.FirstRecordCounts` | src/l2_measure.rs:106-117 | When several records name the same operation the first one's predecessors are the ones searched. |
| `Provenance.FirstOnAborted` | src/l2_measure.rs:121-144 | The shared scan: the first selected record resting on an aborted operation, with the least such operation; none exactly when there is no such record. |
| `Provenance.DetectA3` | src/l2_measure.rs:121-130 | Some exactly when a released record rests, over reachability, on an aborted operation; the answer is such a pair. |
| `Provenance.DetectA3Unpropagated` | src/l2_measure.rs:135-144 | Some exactly when a surviving record rests on an aborted operation; the answer is such a pair. |
| `Provenance.ExposedEffects` | src/l2_measure.rs:151-160 | Counts the released records that are, or rest on, the reviewed operation, and zero when no retraction was asked. |
| `Provenance.ExposedSomewhere` | src/l2_measure.rs:151-160 | The count is positive exactly when such a record exists. |
| `Provenance.ExposedAreRelabeled` | src/l2_measure.rs:151-165 | When the aborted are the reviewed operation and what rests on it, what is exposed is what was relabeled after release, plus the reviewed one if out. |
| `RuntimeTrace.SearchFindsRecorded` | src/l2_measure.rs:254-268 | The lazy search over the emitted trace returns exactly the set the runtime recorded eagerly as it read. |
| `RuntimeTrace.TraceShowsNoA3` | src/l2_measure.rs:254-268 | No trace of a reachable runtime state shows either form of A3. |
| `RuntimeTrace.ExposedIff` | src/l2_measure.rs:151-160 | On such a trace effects are exposed exactly when the reviewed transaction is itself out. |
| `DriverModel.ReaderFinishes` | src/l2_measure.rs:332-340 | A reader of the chain commits exactly when the value it read still stands; otherwise its abort is accepted and flags it alone. |
| `DriverModel.RoundEnds` | src/l2_measure.rs:314-341 | A finished round leaves the scenario ready for the next: exactly the commits of the layout are live, each resting on exactly what the layout says, and the frontier cell exists, written by the last commit, with a value no later intruder writes. |
| `DriverModel.ChainedCounts` | src/l2_measure.rs:314-341 | Of a chain of n links n + 1 transactions are live, and on the i-th of them rest all n - i later ones, or in an interleaved chain, which falls into pairs, just the next if i is odd and not the last. |
| `DriverModel.ScenarioEnds` | src/l2_measure.rs:343-354 | Around the review: the retraction is accepted exactly when the review is not late, and at the end exactly the live transactions are out. |
| `DriverModel.HeldOverall` | src/l2_measure.rs:278-284 | The two passes hold back exactly the live dependents of a transaction under review, and nobody when the review is late. |
| `DriverModel.CascadedOverall` | src/l2_measure.rs:350-357 | A retraction in time aborts exactly those dependents among the committed; otherwise none. |
| `DriverModel.ReportIsClosed` | src/l2_measure.rs:343-370 | On a chain laid out as planned, the sets the scenario ends with have the sizes of the closed form: released, live, cascaded, held and exposed. |
| `GuardedDriver.Round` | src/l2_measure.rs:314-341 | Every call of a round is accepted, the reader is refused exactly when another writer landed in its window, and the transaction the layout names is the one that commits. |
| `GuardedDriver.ReleasePass` | src/l2_measure.rs:273-286 | The loop over ids is the pass above, a run of release calls, and it collects exactly the transactions refused at their turn. |
| `GuardedDriver.RunGuarded` | src/l2_measure.rs:297-370 | For every seed and depth whose chain is not empty, within the counters: all asserted calls succeed and the whole outcome, every figure of it, is the closed form of the seed's shape; what was held is exactly the dependents of the reviewed transaction before the review, none when it is late; and the figures are those of the state that the chain's calls and then the review's calls lead to. |
| `ReleaseAtCommitStores.UnguardedStore.Begin` | src/l2_unguarded.rs:49-60 | Appends a started transaction and returns its index. |
| `ReleaseAtCommitStores.UnguardedStore.Read` | src/l2_unguarded.rs:63-78 | Records cell, value and writer, each cell and writer once and never itself; needs no guard. |
| `ReleaseAtCommitStores.UnguardedStore.ReadsFresh` | src/l2_unguarded.rs:83-91 | True exactly when every cell read still holds the value read; a cell read before it existed never is. |
| `ReleaseAtCommitStores.UnguardedStore.Commit` | src/l2_unguarded.rs:94-111 | Accepted exactly for a started, unfinished, fresh transaction; then publishes in order, last write winning, and releases at once. |
| `ReleaseAtCommitStores.UnguardedStore.Abort` | src/l2_unguarded.rs:114-116 | Flags one transaction and nothing else. |
| `ReleaseAtCommitStores.CascadeStore.ClosureOf` | src/l2_cascade.rs:56-70 | Returns exactly the causal closure, taken over direct writers; an unknown id has none. |
| `ReleaseAtCommitStores.CascadeStore.ClosureClean` | src/l2_cascade.rs:73-77 | True exactly when nothing in the closure is unknown or aborted, so for an unknown id too. |
| `ReleaseAtCommitStores.CascadeStore.Commit` | src/l2_cascade.rs:81-86 | Accepted exactly when the closure is clean and the inner store accepts. |
| `ReleaseAtCommitStores.CascadeStore.Abort` | src/l2_cascade.rs:91-104 | Flags the transaction and everything whose closure holds it, released or not, and returns how many others were newly flagged. |
| `StoreReference.RunIsReference` | src/l2_unguarded.rs:49-116 | Both stores, after any calls, are what the journal of the calls that acted says: replay, last writers, last reads, direct sources, commits and withdrawals. |
| `StoreReference.CommitsExactly` | src/l2_unguarded.rs:83-111 | Both stores, over every schedule: a commit is accepted if and only if the transaction is open, every cell it has read exists in the serial replay with the value last seen in it, and, in the cascade, nothing it reaches is withdrawn. Then its writes go on top of the replay and it is out; otherwise nothing changes. |
| `StoreReference.CommitsReadTheReplay` | src/l2_unguarded.rs:83-111 | So at every commit that acted, the last reads of its transaction are the serial replay just before it. |
| `StoreReference.ClosureIsReach` | src/l2_cascade.rs:56-70 | The closure over stored direct writers is what the reads of the journal reach. |
| `ReleaseAtCommit.SameUntilRetraction` | src/l2_cascade.rs:25-30 | On every schedule without a retraction the two baseline stores are the same store. |
| `ReleaseAtCommit.CascadeMovesFlagsOnly` | src/l2_measure.rs:460-513 | On every schedule that ends with one retraction the two stores agree on values, writers, reads, commits, releases, exposure and A3; only abort flags differ, and the cascade leaves no surviving dependent. |
| `ReleaseAtCommit.UnguardedDetectorsAgree` | src/l2_measure.rs:68-75 | On the unguarded store, over every schedule that ends with one retraction, the superseded detector fires exactly when the current one does. |
| `ReleaseAtCommit.RelabeledByOneRetraction` | src/l2_measure.rs:163-165 | That retraction relabels nothing in the unguarded store, and in the cascade everything exposed but the reviewed transaction. |
| `CascadeSafety.ReadKeepsSurvivorsCleanIff` | src/l2_cascade.rs:50-52 | A read keeps "no surviving commit rests on an aborted transaction" if and only if it does not read an aborted writer's cell on behalf of a surviving commit. |
| `CascadeSafety.CleanIffNeverTaints` | src/l2_cascade.rs:73-105 | Over every schedule, retractions anywhere: the claim holds after every call if and only if no call is such a read. |
| `CascadeSafety.ReadsBeforeCommitAreClean` | src/l2_cascade.rs:5-8 | So on a schedule that reads only on behalf of uncommitted transactions, retractions anywhere, the claim holds after every call. |
| `CascadeSafety.ReadAfterCommitTaints` | src/l2_cascade.rs:50-52 | A concrete schedule that reads after its commit breaks the claim. |
| `BaselineSchedule.RoundsAreSound` | src/l2_measure.rs:460-493 | The seeded schedule makes no retraction, leads both stores to the same state, and every transaction it lists as committed is out. |
| `BaselineSchedule.RoundsFollowLayout` | src/l2_measure.rs:467-487 | After every round the schedule has committed exactly the transactions of the layout, each having read from the writer the layout says, and refused exactly the interrupted readers. |
| `Scenario.InterruptedAreHalf` | src/l2_measure.rs:471-476 | In an interleaved chain every second reader is interrupted, starting with the first; in another none. |
| `BaselineFigures.RestsByLayout` | src/l2_measure.rs:106-117 | The closure search over direct writers finds exactly what the layout says rests on what. |
| `BaselineFigures.TraceFigures` | src/l2_measure.rs:494-513 | In a store that releases at commit every release is live, relabeled or the one withdrawn, and what is cascaded is what is relabeled. |
| `BaselineDriver.StoreCommit` | src/l2_measure.rs:428-448 | Before the review either store accepts a commit exactly when the other does. |
| `BaselineDriver.RunArm` | src/l2_measure.rs:460-513 | Either arm's whole outcome is the closed form of the seed's shape: the unguarded one shows both detectors or neither and relabels nothing, the cascade relabels what it would have had to hold; releases, exposure and A3 are those of the schedule, whatever the store. |
| `BaselineDriver.CompareArms` | src/l2_measure.rs:297-523 | For every seed the three arms, run, report exactly their closed forms, which compare as `ChainLayout.ArmsCompared` says. |
| `ChainLayout.ArmsCompared` | src/l2_measure.rs:66-88 | All arms refuse the same number. The baselines agree on A3, exposure and releases; the guarded arm never shows A3, is exposed exactly when its retraction was refused and then as much as they are, and a timely retraction withdraws exactly what they leave exposed. The cascade relabels all but one of the exposed and never shows the superseded A3. |
| `Versions.LatestIsReplay` | src/si_concurrent.rs:255-293 | The last version of a cell in the flattened chain is what serial replay of the whole history leaves. |
| `Versions.ChainHolds` | src/si_concurrent.rs:220-227 | The chain holds a version of a cell at a time exactly when the commit of that time wrote the cell. |
| `SiModel.GateIsExact` | src/si_concurrent.rs:117-145 | With a past read time and room on the clock, a commit is refused if and only if recording it would open a stale-generation window. |
| `SiModel.CommitKeepsInv` | src/si_concurrent.rs:299-514 | Record i is written at time i+1, the chain is the flattening of the records' writes, and no window exists; every commit, forged snapshots included, keeps this. |
| `SiModel.CommittedOpsAreSerial` | src/si_concurrent.rs:255-514 | In every run each committed operation whose snapshot came from begin read exactly the serial replay of those before it, even if a snapshot is reused, and the latest versions are the replay of all. |
| `SiModel.NoWindowInAnyRun` | src/si_concurrent.rs:176-182 | No run records a stale-generation window. |
| `SiModel.AnswersExactly` | src/si_concurrent.rs:117-145 | Over every run a commit is accepted if and only if its read time is not ahead, the clock has room, and no operation committed since wrote a cell it read. |
| `SiModel.SnapshotsShowTheReplay` | src/si_concurrent.rs:255-293 | A begin in any run is shown the serial replay at the current time, in request order. |
| `SiStore.Validate` | src/si_concurrent.rs:117-145 | The nested scans decide freshness, both directions. |
| `SiStore.BestVersion` | src/si_concurrent.rs:273-287 | On a chain in time order the best-time scan returns the last version, NULL if none: the specification the source leaves out. |
| `SiStore.SiStore.Begin` | src/si_concurrent.rs:255-293 | One latest value per requested cell, in order, at the current clock; the store is unchanged. |
| `SiStore.SiStore.Commit` | src/si_concurrent.rs:299-514 | Accepted exactly by the gate; appends one version per write and one record, one tick later; a refusal changes nothing. |
| `SiStore.SiStore.Tick` | src/si_concurrent.rs:577-587 | Advances the clock by an empty commit, except at the ceiling. |
| `SiStore.SnapshotIsolationStore.Begin` | src/snapshot_isolation.rs:110-127 | One value per distinct cell, the latest at the read time. |
| `SiStore.SnapshotIsolationStore.Commit` | src/snapshot_isolation.rs:129-171 | Ticks without validating when nothing is written in default mode; otherwise the core gate decides over the snapshot's cells; aborts are counted. |
| `StoreApi.PairsLastWrite` | src/snapshot_isolation.rs:149-154 | Listing an ordered map of writes loses nothing: each cell's last write is the map's value. |
| `Interner.Interner.Intern` | src/snapshot_isolation.rs:55-63 | A known name keeps its id, a new one gets the next, no other id changes, and the two directions stay inverse. |
| `Interner.Interner.Name` | src/snapshot_isolation.rs:65-67 | An id handed out reads back as its name, and that name has this id. |
| `Interner.InternAll` | src/snapshot_isolation.rs:111-116 | Interning a list gives each name an id that reads back as it, and disturbs no earlier id. |
| `Interner.Interner.IdsDecideNames` | src/snapshot_isolation.rs:38-63 | Ids are equal exactly when names are, and only NULL is 0. |
| `PessModel.BeginKeepsInv` | src/pess_concurrent.rs:338-492 | Begin keeps holds exclusive and no newer than the clock, and no held cell written by another since the hold began. |
| `PessModel.CommitKeepsInv` | src/pess_concurrent.rs:498-875 | Commit keeps the same, and extends the chain by exactly its writes. |
| `PessModel.WithoutIsFilter` | src/pess_concurrent.rs:881-1006 | Release drops the agent's holds and keeps every other one, each as often as it was there. |
| `PessModel.WithoutIsOrdered` | src/pess_concurrent.rs:881-1006 | And keeps them in their order. |
| `PessModel.AdmittedCommitsAreAccepted` | src/pess_concurrent.rs:281-328 | Once begin admits an operation, after any calls but the agent's own release, a commit that writes only cells it read is accepted while the clock has room. |
| `PessSerial.ReadsAreSerialIffOwnWritesPutBack` | src/pess_concurrent.rs:498-875 | Over every interleaving: an accepted operation's reads are the serial replay just before it if and only if whatever its own agent committed inside its window put back the values read. |
| `PessSerial.OneAtATimeIsSerial` | src/pess_concurrent.rs:387-449 | When every agent begins only with no operation open and commits only the one it has, reads are always serial in commit order. |
| `PessSerial.TwoAtOnceIsNotSerial` | src/pess_concurrent.rs:108-117 | A concrete run in which an agent begins a second operation before its first has ended commits a stale read. |
| `PessSerial.NoCrossWindowInAnyRun` | src/pess_concurrent.rs:117-125 | No run records another agent's write inside a record's window. |
| `PessSerial.LatestIsReplayOfLog` | src/pess_concurrent.rs:451-490 | The latest versions are the serial replay of everything committed. |
| `PessReference.RunIsTable` | src/pess_concurrent.rs:217-1053 | Over every run the list of holds and the chain of versions are those of a lock table with at most one owner a cell and a history of commits. |
| `PessReference.AnswersExactly` | src/pess_concurrent.rs:338-875 | Over every run: an operation is admitted if and only if no cell it asks for is another agent's, and a commit accepted if and only if the clock has room, each read cell has been the agent's since the snapshot, and each written cell is the agent's or nobody's. |
| `PessReference.SnapshotsShowTheReplay` | src/pess_concurrent.rs:451-490 | What an admitted operation is shown is the serial replay at the current time, cell by cell in request order. |
| `PessStore.FindHolder` | src/pess_concurrent.rs:217-239 | The first hold on the cell, none exactly when it is free. |
| `PessStore.AllHeldSince` | src/pess_concurrent.rs:303-328 | Both directions of the hold check; the source states one. |
| `PessStore.PessStore.Begin` | src/pess_concurrent.rs:338-492 | Refused exactly when another agent holds a requested cell, and then nothing changes; otherwise free cells are taken at the clock and each value is the latest version. |
| `PessStore.PessStore.Commit` | src/pess_concurrent.rs:498-875 | Accepted exactly when every read is held since the snapshot and no write cell is foreign; then acquires, ticks and appends; a refusal changes nothing. |
| `PessStore.PessStore.Release` | src/pess_concurrent.rs:881-1006 | Drops exactly the agent's holds. |
| `PessStore.PessStore.Tick` | src/pess_concurrent.rs:1009-1053 | Advances the clock, except at the ceiling. |
| `PessStore.PessimisticStore.Begin` | src/pessimistic.rs:96-120 | A conflict is counted and changes no hold; otherwise one latest value per distinct cell. |
| `PessStore.PessimisticStore.Commit` | src/pessimistic.rs:122-153 | The core hold check over the snapshot's cells decides; the outcome carries the commit time. |
| `Detectors.DetectA1` | src/detectors.rs:19-53 | The first pair of records with a stale-generation window, none exactly when there is none. |
| `Detectors.DetectA2` | src/detectors.rs:55-66 | The least record whose visible plan went unused, none exactly when there is none. |
| `Detectors.DetectA3` | src/detectors.rs:68-106 | The first record that read a non-NULL value no other record had written by then, none exactly when there is none. |
| `Detectors.DetectA6` | src/detectors.rs:108-115 | The least record whose intended and committed writes differ, none exactly when there is none. |
| `Detectors.ClassifyLevel` | src/detectors.rs:117-134 | The level is at least 1, 2, 3, 4 exactly as A1, A3, A6, A2 are absent in turn. |
| `AgentLedger.A2IffOverridden` | src/agent.rs:131-135 | Over a record that says what its two calls asked, A2 fires exactly when the plan given to begin was visible then and commit named another tool. |
| `AgentsOverSi.RecordsTellTheirCalls` | src/agent.rs:120-155 | In every interleaving, the k-th emitted record says of the k-th operation told exactly what its own begin and commit passed: agent, cells, plan, visible tools, intended and committed writes, and the tool that counts as used. |
| `AgentsOverPess.RecordsTellTheirCalls` | src/agent.rs:120-155 | The same over the pessimistic store. |
| `AgentModel.NewRecordIsTrue` | src/agent.rs:137-155 | The record of a commit tells the truth about the history it extends and about the operation: agent, cells read, plan, visible tools and the agent's own list of writes, intended and committed; it names exactly the cells written, each with the last value written to it, and owns its tick. |
| `AgentsOverSi.RunKeeps` | src/agent.rs:65-158 | In every interleaving: snapshots and records are true, validated records fresh, every committed write owned by a record emitted or in flight. |
| `AgentsOverSi.ValidatingStoreReachesLevel3` | src/agent.rs:106-202 | Validating mode: at every point of every interleaving where all commits have emitted, the history reaches level 3, and level 4 if and only if no operation told had named a tool other than the visible plan its begin was given, as the calls themselves have it. |
| `AgentsOverSi.DefaultStoreShowsExactlyStaleBypasses` | src/snapshot_isolation.rs:135-142 | Default mode: A3 and A6 never fire, and A1 fires if and only if some commit that bypassed validation had a read overwritten with another value. |
| `AgentsOverSi.EmittedOpsAreSerial` | src/snapshot_isolation.rs:129-171 | Both modes: every emitted operation read the serial replay at its place, its commit or, if bypassed, its read time; the place lies between its read and its write, and its writes come next. |
| `AgentsOverSi.SerialOrderKeepsRealTime` | src/snapshot_isolation.rs:129-171 | An operation that ended before another read has the earlier place, strictly unless it bypassed validation. |
| `AgentsOverPess.RunKeeps` | src/agent.rs:65-158 | In every interleaving the above holds, and each pending read is held, unwritten since, and its past fully emitted. |
| `AgentsOverPess.PessimisticStoreReachesLevel3` | src/agent.rs:106-202 | At every point of every interleaving, quiescent or not, the history reaches level 3, and level 4 under the same condition on the calls. |
| `AgentsOverPess.EmittedOpsAreSerial` | src/pessimistic.rs:95-165 | Every emitted operation read the serial replay just before its commit, which lies between its read and its write. |
| `AgentsOverPess.SerialOrderKeepsRealTime` | src/pessimistic.rs:95-165 | An operation that ended before another read commits before it. |
| `AgentsOverPess.NoHoldLeaks` | src/agent.rs:65-158 | Every hold belongs to an agent that is pending, in flight, or about to release. |
| `AgentsOverPess.PendingOpsCommit` | src/agent.rs:106-131 | A pending operation that writes only what it read commits, whatever others do, while the clock has room. |
| `AgentsOverPess.PendingCommitsIffUnheld` | src/pessimistic.rs:122-153 | In every run a pending operation commits if and only if the clock has room and no entry among the holds on a cell it writes is another agent's; afterwards each written cell is held by the agent; a refusal changes nothing in the store. |
| `AgentsOverPess.BeginsIffUnheld` | src/pessimistic.rs:96-120 | In every run an idle agent's begin is admitted if and only if no hold on a cell it asks for is another's; then it holds them all and its snapshot is the serial replay now. |
| `AgentsOverPess.ClockCountsCommits` | src/pessimistic.rs:122-157 | The clock counts exactly the accepted commits and the ticks, up to its ceiling. |
| `AgentObjects.Agent.Begin` | src/agent.rs:65-104 | Refused exactly while an operation is pending; a conflict in the store leaves a refused operation pending. |
| `AgentObjects.Agent.Commit` | src/agent.rs:106-158 | Takes the pending operation; a ready one is committed, recorded if accepted, and released; a refused one is dropped without touching the store. |
| `AgentObjects.Agent.NoWriteCommit` | src/agent.rs:160-201 | The same with no writes. |
| `AgentObjects.Emitter.Drain` | src/agent.rs:21-23 | Hands over everything emitted so far and leaves nothing. |
| `AgentObjects.BeginIsOneStep` | src/agent.rs:65-104 | The begin of an agent object is the begin step of the interleaved models. |
| `AgentObjects.CommitIsThreeStepsOverSi` | src/agent.rs:120-157 | An uninterrupted commit is commit, emit and release of the interleaved model. |
| `AgentObjects.CommitIsThreeStepsOverPess` | src/agent.rs:120-157 | The same over the pessimistic store, holds dropped. |
| `AgentsOverSi.PendingCommitsIffFresh` | src/snapshot_isolation.rs:129-171 | Refusals are exact in both modes: a pending operation commits if and only if it writes nothing in default mode, or the clock has room and nothing it read was written since; a refusal changes nothing in the store. |
| `AgentsOverSi.BeginsReadNow` | src/snapshot_isolation.rs:110-127 | An idle agent's begin is always admitted, with the cells, plan and visible tools asked for, the current time, and the serial replay of the history as its snapshot. |
| `AgentsOverSi.ClockCountsCommits` | src/snapshot_isolation.rs:129-175 | Over every interleaving the clock counts exactly the accepted commits and the ticks, up to its ceiling. |
| `AgentsOverSi.A3FiresExactlyWhileSourcesFly` | src/detectors.rs:68-106 | Either mode, at any point: A3 fires if and only if an emitted operation read a value none of whose writers has told yet; each of these writers is in flight, between commit and record. |
| `TriageExample.TriageShowsA1` | src/detectors.rs:206-218 | The default mode does show A1: report, read, report again, commit nothing, and the detector's pair is the triage and the second report. |
| `Sequencer.DrawnIsPermutation` | src/l3_sequencer.rs:41-48 | Whatever is drawn, the shuffle yields a permutation. |
| `Sequencer.EveryOrderHasOneDraw` | src/l3_sequencer.rs:28-48 | Every order, the identity included, comes from exactly one list of draws. |
| `Sequencer.KeptIffTopDraws` | src/l3_sequencer.rs:41-48 | The order is kept if and only if every draw is of the very position it settles. |
| `Sequencer.Mixed` | src/l3_sequencer.rs:7-14 | The generator never reaches the stuck state zero. |
| `Sequencer.FirstOutput` | src/l3_sequencer.rs:7-14 | A test vector, computed by hand: the first state and output from seed 1. |
| `Sequencer.XorShift.Next` | src/l3_sequencer.rs:7-14 | Moves to the next mixed state and returns its product with the multiplier, wrapped at 64 bits. |
| `Sequencer.XorShift.Below` | src/l3_sequencer.rs:15-17 | The remainder of that output, by one for a bound of zero. |
| `Sequencer.Shuffle` | src/l3_sequencer.rs:42-47 | In place: the array becomes the identity with the draws applied, draw i being the i-th output from the state before, reduced to the positions still unsettled; the generator ends that many outputs on. |
| `Sequencer.Complete` | src/l3_sequencer.rs:53-66 | One completion, in the buffer: what goes out is exactly the longest completed prefix now, less what was out. |
| `Sequencer.Sequence` | src/l3_sequencer.rs:53-66 | For every completion order everything goes out in issuance order, once. |
| `Sequencer.RunOnce` | src/l3_sequencer.rs:41-68 | A run is reordered if and only if some draw is not its top position; sequenced output is the identity; unsequenced, A6 holds exactly when the order changed, at every width. |
| `Sequencer.RunExperiment` | src/l3_sequencer.rs:86-103 | The count of reordered runs is exactly that of the runs whose draws say so, from the seed on; unsequenced, A6 fires in exactly these; sequenced, in none. |
| `Sequencer.HarnessSeedsDiscriminate` | src/l3_sequencer.rs:109-145 | From the seeds used there, for any number of runs from two on, some runs are reordered at widths 2, 4 and 8, and at width 2 some are not. |
| `Sequencer.DetectorsAgree` | src/detectors.rs:108-115 | A record that intends the effects in issuance order and commits them in completion order is flagged by the record-level A6 exactly when the witness here says so. |
| `Experiment.RunExperiment` | src/l2_measure.rs:546-583 | For any arm, depth and number of runs the sums reported are those of the closed forms over the mixed seeds. |
| `Experiment.SummaryIsTotals` | src/l2_measure.rs:546-583 | Every figure of the summary is that figure of the single scenarios, added up, flags counting one. |
| `Experiment.ExperimentShows` | src/l2_measure.rs:589-720 | The measurement at any depth over seven scenarios or more: the runtime shows no A3, leaves nothing live inside, relabels nothing, refuses, holds and cascades somewhere and refuses some retractions but not all; the baselines show A3 in some scenarios and not in all, the cascade only in its current form and with relabeled effects; all exposure relations hold, the runtime's strictly below. |
| `Experiment.FirstShapes` | src/l2_measure.rs:219-228 | Test vectors: the shapes of the first eight scenarios at depth 3. |

## Left out

- The reader-writer locks, atomics and threads: each lock-protected call is one atomic step; deadlock and progress of the locks are not modelled.
- `remove` and `reinsert` of a transaction record in the runtime's hash map: modelled as one update of the entry, since no other call can see the gap.
- GuardedDriver.RunGuarded: the source's early return when the root cannot commit is an assertion here, because the root always can; a chain of length 0 (depth 0 and a seed divisible by 3) is excluded, where the source divides by zero.
- BaselineDriver.RunArm: the trait over the two stores is a datatype of the two classes.
- AgentObjects.Agent.Commit: the store trait object is a datatype of the two stores; the vanilla store is not one of them.
- SiStore.SnapshotIsolationStore.Begin: takes ids; interning the agent and the requested names, and naming the values handed back, is `Interner`'s and is not composed with it.
- SiStore.SnapshotIsolationStore.Commit: takes ids; the keys of the snapshot and of the writes reach the core in id order rather than name order, which no decision, latest value or detector looks at.
- PessStore.PessimisticStore.Begin: takes ids, as above.
- PessStore.PessimisticStore.Commit: takes ids in id order, as above.
- Sequencer.RunExperiment: nothing is said about the distribution of the draws, so no rate is.
- Abort and conflict counters of the stores, beyond counting one per refusal.
- Experiment.RunExperiment: the sums are unbounded, where the source's are 32 and 64 bits wide; depth 0, where the source divides by zero, is excluded.
- `carve_out_gate` in `src/l2_measure.rs`, and the rates computed in floating point.
- `src/l4_exec.rs` and `src/l4_registry.rs`: one comparison of a counter against a slot of a vector.
- `src/vanilla.rs`: the baseline without validation.
- `src/l2_replay_lib.rs`, `tools/live_l2` and JSON parsing: single instances of the L2 properties.
- `l2-live` and `l3-probe`: HTTP, timing, files and command lines.
