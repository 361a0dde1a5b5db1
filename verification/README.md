# spyMonk, modelled and proved

A Dafny model of the concurrency, consensus and storage engine of spyMonk-DB and of the versioned,
partitioned tables of spyMonk-warehouse, with proofs of what these parts are for. `dafny verify
dfyconfig.toml` checks everything.

**How the system is modelled.** Code that updates objects is a class whose methods, with the source's
loops and branches, are proved against specification functions (lock table, transaction manager,
Paxos replica, memtable, table files, store, log, parser, caches, table storage). Where threads or
machines interleave, each critical section, message or file operation is one step of a state machine
built from the same specification functions, and the results hold for every run. Fields marked
"history" in these machines record the past for the statements and are never read by a step.

| part | files |
|---|---|
| clocks | `Clock.dfy`, `HybridClock.dfy` |
| locks and transactions | `LockTable.dfy`, `LockSystem.dfy`, `DeadlockFreedom.dfy`, `Transactions.dfy`, `SerialRun.dfy`, `ExternalConsistency.dfy` |
| replication | `PaxosReplica.dfy`, `PaxosLease.dfy`, `PaxosLog.dfy`, `PaxosChosen.dfy`, `PaxosInstance.dfy`, `PaxosTimed.dfy`, `TimedRun.dfy`, `PaxosSingleLeader.dfy` |
| storage engine | `Records.dfy`, `MemTable.dfy`, `SSTable.dfy`, `Layers.dfy`, `BufferedWrites.dfy`, `Compaction.dfy`, `Recovery.dfy`, `Store.dfy`, `MVCCStore.dfy`, `Readers.dfy`, `ReadHistory.dfy`, `Scanners.dfy`, `ScanHistory.dfy` |
| write-ahead log | `WalFraming.dfy`, `WriteAheadLog.dfy` |
| WHERE predicates | `Values.dfy`, `Predicates.dfy` |
| warehouse | `Pruning.dfy`, `TableStore.dfy`, `ResultCache.dfy`, `CachedQueries.dfy`, `ServedHits.dfy` |

**What the runs assume.** Clock readings, and when a wait times out, are arbitrary parameters of the
steps; a result that needs honest clocks says so in its `requires` (`IsHonest`, `Contains`), except
that lease votes in `PaxosLease` always read an interval containing real time.

- Transactions: all writes are transactional, a transaction that buffers a key again buffers the same value
  (a guard of `Buffer` in the machine; otherwise its later value is lost, `BufferedWrites.CommittedReadIff`), it is
  driven by one thread, and store writes do not fail.
- Leases: replica ids are distinct and a replica runs one election at a time; every interval it reads contains real
  time, each replica reading its own clock.
- One leader (`PaxosSingleLeader`): only one replica ever wins elections, possibly often.
- Paxos across leaders (`PaxosLog`): five guards, marked in the step relation. Terms of won elections
  strictly increase; a sync hears a quorum including the leader itself; a leader's sync sends to itself succeed;
  a leader proposes and re-drives only in a term it won and after that win's sync; a replica that
  answered a sync does not afterwards accept an older term. The source enforces none of them: one
  term can win twice once a vote has expired (`PaxosInstance.OneTermTwice`), sync replies are used however
  few arrive, the lease is set before the sync starts, an accept raises a leader's term without
  demoting it, and answering a sync does not raise a replica's term.
- Leases and log together (`PaxosTimed`): the guard on the leader's term is replaced by two others, that a
  candidate's own vote is among its grants (needed: `PaxosTimed.LeaderInForeignTerm`) and that the lease
  still runs when the slot is taken; the source checks it just before.
- Storage: per key, timestamps arrive in strict order, and log records are written whole.
- Readers: writes that arrive during a get, or between a scan's reading of memtable and reader list, carry
  timestamps it cannot see, and a compaction then keeps the versions it looks for.
- Warehouse: reading and executing SQL are arbitrary functions of the statement and the loaded frames
  (so a statement whose result depends on the time or on chance is outside), key digests do not collide, and
  extraction lists each table once.

**Where code and documentation or intention part.** The model follows the code; each point is a
proved statement.

- A log entry with an empty value comes back without a value (`WalFraming.RoundTripIff`), and a store whose
  log holds one cannot be opened again (`Store.RestartFailsIff`, `Store.EmptyValueBringsDown`).
- A scan range with the empty key as its end is unbounded (`MVCC.RangeIsHalfOpen`).
- Several buffered writes to one key get one timestamp, and the first of them wins in the store although the
  transaction's own reads saw the last (`BufferedWrites.CommittedReadIff`).
- A crash while compaction unlinks its inputs can make a deleted value readable again
  (`Compaction.PartialUnlinkResurrects`; exactly when: `Compaction.PartialUnlinkKeepsAnswerIff`).
- "Any comparison against a mismatched type evaluates to False" does not hold for `!=` and `<>`
  (`Predicates.MismatchIsFalseIff`).
- A log segment holding exactly the four magic bytes makes replay raise instead of stop
  (`WalFraming.CutInHeader`).
- "Stale entries can never be served" holds only while the meta records a query has read are live
  (`CachedQueries.ServedHitIsFresh`). A re-upload after that read, a delete, which removes partitions before
  the meta record and the version, and a load that runs into the removal of old partitions each open a
  window (`ServedHits.HitAfterReupload`, `ServedHits.HitDuringDelete`, `ServedHits.TornHit`).

## Model

| member | source | states |
|---|---|---|
| Transactions.Serializable | spyMonk-DB/spymonk_enterprise/transaction/transaction.py:70-239 | in every reachable state of every interleaving, running the transactions past their commit fence alone, in commit-timestamp order, gives each locked read the value it really returned |
| Transactions.ReadsSeeTheirPredecessor | spyMonk-DB/spymonk_enterprise/transaction/transaction.py:82-95 | each locked read of a sealed transaction returned what the sealed writer of that key with the greatest smaller commit timestamp wrote, or nothing if there is none |
| Transactions.StoreIsSerial | spyMonk-DB/spymonk_enterprise/transaction/transaction.py:156-203 | no update is lost: once nobody is mid-commit, the newest stored value of every key is the serial run's final value |
| Transactions.TimeOrderExists | spyMonk-DB/spymonk_enterprise/transaction/transaction.py:221-233 | in every reachable state the sealed transactions can be listed in commit-timestamp order |
| SerialRun.ReadFromPredecessor | spyMonk-DB/spymonk_enterprise/transaction/transaction.py:70-203 | a run in which a sealed transaction read, under its lock, what an earlier one committed |
| Transactions.WritesArriveInOrder | spyMonk-DB/spymonk_enterprise/transaction/transaction.py:186-190 | a version applied to the store is newer than every stored version of its key: the arrival order the storage engine relies on |
| Transactions.NextKeepsInv | spyMonk-DB/spymonk_enterprise/transaction/transaction.py:156-203 | every step keeps two-phase locking, the currency of locked reads until the fence, distinct timestamps, the store as exactly the applied mutations, and lock order as timestamp order |
| Transactions.CommitTimestamp | spyMonk-DB/spymonk_enterprise/transaction/transaction.py:221-233 | a chosen timestamp's physical part is at least TT.now().latest, and it is strictly above the previous choice |
| Transactions.CommitTimestampIsLeast | spyMonk-DB/spymonk_enterprise/transaction/transaction.py:221-233 | of all timestamps that are at or after the reading raised to TT.now().latest and after the previous choice, the chosen one is the earliest |
| Transactions.LaterOfTwo | spyMonk-DB/spymonk_enterprise/transaction/transaction.py:88-95 | the floor of a locked read, and the safe time, are the later of two timestamps |
| Transactions.TransactionManager.ChooseCommitTimestamp | spyMonk-DB/spymonk_enterprise/transaction/transaction.py:221-233 | the method returns and remembers the earliest timestamp the two rules of commit allow |
| Transactions.TransactionManager.AdvanceSafeTime | spyMonk-DB/spymonk_enterprise/transaction/transaction.py:235-239 | afterwards the safe time is the new commit timestamp or unchanged, and at or after both |
| Transactions.Transaction.Buffered | spyMonk-DB/spymonk_enterprise/transaction/transaction.py:77-80 | read-your-writes: the last buffered mutation of a key answers, and only if the key was written |
| Transactions.Transaction.Buffer | spyMonk-DB/spymonk_enterprise/transaction/transaction.py:97-115 | a mutation is appended exactly when the transaction is active and not read-only |
| Transactions.Transaction.LockOrder | spyMonk-DB/spymonk_enterprise/transaction/transaction.py:171-173 | commit takes its write locks on each written key once, in ascending order |
| DeadlockFreedom.NoDeadlock | spyMonk-DB/spymonk_enterprise/transaction/lock_table.py:49-101 | in every reachable state no set of sleeping transactions waits only for one another |
| DeadlockFreedom.EverySleeperBehindARunner | spyMonk-DB/spymonk_enterprise/transaction/lock_table.py:89-101 | following blockers from any un-notified sleeper reaches a transaction that is not asleep and holds a lock |
| DeadlockFreedom.VictimsAreYounger | spyMonk-DB/spymonk_enterprise/transaction/lock_table.py:89-95 | whoever a step wounds is strictly younger than the wounder and not committing |
| DeadlockFreedom.FenceHolds | spyMonk-DB/spymonk_enterprise/transaction/lock_table.py:39-47 | past enter_commit a transaction holds everything it was ever granted and keeps it through every step until its own release_all |
| DeadlockFreedom.SomebodySleeps | spyMonk-DB/spymonk_enterprise/transaction/lock_table.py:89-101 | sleepers do occur: a run in which a younger transaction sleeps behind an older holder |
| LockSystem.NextKeepsInv | spyMonk-DB/spymonk_enterprise/transaction/lock_table.py:39-113 | every step of every thread keeps the lock-table invariant, the recorded ages, nothing lost without a wound, and each sleeper behind an older or committing holder |
| Locks.AcquireFacts | spyMonk-DB/spymonk_enterprise/transaction/lock_table.py:49-101 | one acquire pass, exactly: who is wounded, who holds and who writes which key afterwards, which of the four outcomes, and that the lock-table invariant (exclusive writers, mirrored held sets without empty records, wounded transactions holding nothing, wounded and committing disjoint) is kept |
| Locks.GrantedIff | spyMonk-DB/spymonk_enterprise/transaction/lock_table.py:49-101 | read locks are shared and write locks exclusive: a pass is granted if and only if every other writer, and for a write lock every other holder, is younger and not committing; exactly those are wounded; with nobody in the way it is granted and wounds nobody |
| Locks.ConflictsAreInTheWay | spyMonk-DB/spymonk_enterprise/transaction/lock_table.py:55-73 | a reader conflicts with another transaction's write lock only, a writer with any other holder |
| Locks.OlderBeganEarlier | spyMonk-DB/spymonk_enterprise/transaction/lock_table.py:2-10 | older means an earlier start time, and the smaller id at equal start times |
| Locks.SurvivingConflict | spyMonk-DB/spymonk_enterprise/transaction/lock_table.py:89-101 | a requester that is not granted the lock still conflicts with a holder that is committing or not younger |
| Locks.RetryFindsNoConflict | spyMonk-DB/spymonk_enterprise/transaction/lock_table.py:96-97 | after all conflicting holders were wounded the retried loop finds none |
| Locks.WoundTwice | spyMonk-DB/spymonk_enterprise/transaction/lock_table.py:90-93 | wounding holders one after the other is wounding them together |
| Locks.FenceKeepsValid | spyMonk-DB/spymonk_enterprise/transaction/lock_table.py:39-47 | enter_commit keeps the lock-table invariant |
| Locks.RetireKeepsValid | spyMonk-DB/spymonk_enterprise/transaction/lock_table.py:76-81 | release_all keeps the lock-table invariant, takes all of the transaction's locks and nobody else's |
| Locks.LockTable.AcquireRead | spyMonk-DB/spymonk_enterprise/transaction/lock_table.py:49-59 | the retry loop, as a method over the fields, has exactly the effect and outcome of one acquire pass in read mode; without another writer it is granted at once and wounds nobody, however many read |
| Locks.LockTable.AcquireWrite | spyMonk-DB/spymonk_enterprise/transaction/lock_table.py:61-74 | the same in write mode; without another holder it is granted at once and wounds nobody |
| Locks.LockTable.ResolveConflict | spyMonk-DB/spymonk_enterprise/transaction/lock_table.py:89-101 | wounds exactly the younger, uncommitting holders, and retries, sleeps or times out accordingly |
| Locks.LockTable.ReleaseLocked | spyMonk-DB/spymonk_enterprise/transaction/lock_table.py:103-113 | strips a transaction from every key it holds and drops the records left empty |
| Locks.LockTable.ReleaseAll | spyMonk-DB/spymonk_enterprise/transaction/lock_table.py:76-81 | the new state is the old one without the transaction's locks, wound mark and fence |
| Locks.LockTable.EnterCommit | spyMonk-DB/spymonk_enterprise/transaction/lock_table.py:39-47 | raises exactly for a wounded transaction, else fences it |
| ExternalConsistency.ExternallyConsistent | spyMonk-DB/spymonk_enterprise/transaction/transaction.py:175-194 | if one commit returned before another transaction began, even on another manager, its timestamp is strictly smaller (section 4.1.2 of the Spanner paper) |
| ExternalConsistency.StampsIncrease | spyMonk-DB/spymonk_enterprise/transaction/transaction.py:221-233 | one manager's commit timestamps strictly increase whatever its clock returns |
| Clock.MockTrueTime.CommitWait | spyMonk-DB/spymonk_enterprise/time/truetime.py:50-79 | commit wait ends with TT.after(s), sleeps at most twice and oversleeps by at most 0.1 ms |
| HybridClock.HybridLogicalClock.Now | spyMonk-DB/spymonk_enterprise/time/hybrid_clock.py:160-194 | a reading is later than the clock's last state if and only if the physical clock has not stepped back |
| HybridClock.ReadingIsNext | spyMonk-DB/spymonk_enterprise/time/hybrid_clock.py:174-194 | a reading is the least timestamp with that physical part after the clock's state, or, if the physical clock has stepped back, counts the state's logical part on |
| HybridClock.HybridLogicalClock.Update | spyMonk-DB/spymonk_enterprise/time/hybrid_clock.py:196-235 | the physical part is the larger of the reading and the message's, and the result the least such timestamp after the message and, if that is not ahead, the clock's own state; it is later than that state if and only if the state does not lie ahead of both |
| HybridClock.ReadingsIncreaseIff | spyMonk-DB/spymonk_enterprise/time/hybrid_clock.py:174-194 | two successive readings strictly increase if and only if the physical readings do not decrease |
| HybridClock.IntervalContains | spyMonk-DB/spymonk_enterprise/time/truetime.py:34-40 | exactly which instants a TrueTime interval contains, and when now() refuses |
| PaxosLease.LeasesDisjoint | spyMonk-DB/spymonk_enterprise/replication/paxos/paxos_group.py:73-99 | in every run with lost requests and replies, at no real instant do two different replicas both satisfy has_lease |
| PaxosLease.NextKeepsInv | spyMonk-DB/spymonk_enterprise/replication/paxos/paxos_group.py:73-99 | every step keeps each leader's lease backed by a quorum of outstanding or expired votes |
| PaxosLease.VoteKeepsBacking | spyMonk-DB/spymonk_enterprise/replication/paxos/paxos_group.py:171-189 | the single-vote rule: granting a vote leaves every other vote that is still outstanding in place |
| PaxosChosen.ChosenSurvives | spyMonk-DB/spymonk_enterprise/replication/paxos/paxos_group.py:103-155 | once a quorum stored a value at a slot, every accept request of that or a later term for the slot, from sync, re-drive or propose, carries that value |
| PaxosChosen.OneChosenValue | spyMonk-DB/spymonk_enterprise/replication/paxos/paxos_group.py:103-155 | two values chosen at one slot, at any terms and by any quorums, are equal |
| PaxosLog.ChosenIsInherited | spyMonk-DB/spymonk_enterprise/replication/paxos/paxos_group.py:214-240 | whatever a later term sends at the slot of a chosen proposal is its value, also when syncs of older leaders still collect entries of newer ones |
| PaxosLog.ChosenIsNotOvertaken | spyMonk-DB/spymonk_enterprise/replication/paxos/paxos_group.py:65-65 | no completed later sync heard only replicas that never stored a chosen proposal |
| PaxosLog.MergedSucceeds | spyMonk-DB/spymonk_enterprise/replication/paxos/paxos_group.py:216-240 | a value passed on by a sync differs from an earlier proposal of its slot only if that one can no longer be chosen |
| PaxosLog.NextKeepsInv | spyMonk-DB/spymonk_enterprise/replication/paxos/paxos_group.py:191-240 | every message step keeps one value per term and slot, syncs that know all entries their quorum had stored, and differing values across terms only after an overtaken proposal |
| PaxosInstance.ValueIsPassedOn | spyMonk-DB/spymonk_enterprise/replication/paxos/paxos_group.py:214-240 | the guards can be met: three replicas, two leaders, the second of which learns the chosen value from a follower and sends it again |
| PaxosInstance.OneTermTwice | spyMonk-DB/spymonk_enterprise/replication/paxos/paxos_group.py:171-189 | without the guard on terms two leaders win one term, each lease in order, and quorums store two values at one term and slot |
| PaxosLog.RedriveRepeats | spyMonk-DB/spymonk_enterprise/replication/paxos/paxos_group.py:136-155 | a re-driven slot carries the one value its term already sent there |
| PaxosTimed.ChosenSurvives | spyMonk-DB/spymonk_enterprise/replication/paxos/paxos_group.py:73-155 | the same for leases and log together, where a leader only looks at its lease before it sends under whatever term it is in |
| PaxosTimed.LeaseFixesTerm | spyMonk-DB/spymonk_enterprise/replication/paxos/paxos_group.py:96-99 | whenever has_lease answers true, the replica is in the term it won, and nobody has won a later one |
| PaxosTimed.RefinesLog | spyMonk-DB/spymonk_enterprise/replication/paxos/paxos_group.py:103-155 | every such step, sends under a lease included, is a step of PaxosLog with its guard on the term, or leaves the log alone |
| PaxosTimed.NoOtherLease | spyMonk-DB/spymonk_enterprise/replication/paxos/paxos_group.py:171-189 | when a replica wins, no lease of another leader runs: a common voter would have kept it to an earlier term |
| PaxosTimed.NextKeepsInv | spyMonk-DB/spymonk_enterprise/replication/paxos/paxos_group.py:73-155 | every step of elections, syncs, sends and clocks keeps the lease and log invariants and each running lease in its term |
| PaxosTimed.LeaderInForeignTerm | spyMonk-DB/spymonk_enterprise/replication/paxos/paxos_group.py:73-99 | a candidate without its own vote can lead, with a lease, in a term it did not win |
| TimedRun.LeaderProposes | spyMonk-DB/spymonk_enterprise/replication/paxos/paxos_group.py:73-134 | the guards can be met: of three replicas one is elected with its own and a follower's vote and proposes under its lease |
| PaxosSingleLeader.OneValuePerSlot | spyMonk-DB/spymonk_enterprise/replication/paxos/paxos_group.py:103-155 | with one replica winning all elections, no slot holds two values across replicas, whatever messages are lost |
| PaxosSingleLeader.CommittedIsStoredByQuorum | spyMonk-DB/spymonk_enterprise/replication/paxos/paxos_group.py:113-134 | a slot is committed anywhere only after a quorum stored its value, and they still hold it |
| PaxosSingleLeader.AppliedPrefixes | spyMonk-DB/spymonk_enterprise/replication/paxos/paxos_group.py:242-250 | any two replicas' applied value sequences are prefix-comparable |
| PaxosSingleLeader.ProposeKeepsInv | spyMonk-DB/spymonk_enterprise/replication/paxos/paxos_group.py:107-130 | a proposal uses a slot nobody has stored or proposed a value at: burned slots are never reused |
| PaxosReplica.ApplyReadyFacts | spyMonk-DB/spymonk_enterprise/replication/paxos/paxos_group.py:242-250 | applying appends exactly the logged values of the committed slots that follow, and stops only at a gap |
| PaxosReplica.OnCommitFacts | spyMonk-DB/spymonk_enterprise/replication/paxos/paxos_group.py:201-206 | a commit notice for an unknown slot changes nothing; for a known one it marks that slot only and hands over, in order, the logged values of committed slots until the next one is not committed or not known |
| PaxosReplica.VoteGrantedIff | spyMonk-DB/spymonk_enterprise/replication/paxos/paxos_group.py:171-189 | a vote is granted if and only if the term is not behind and no other candidate's vote is outstanding, so the same candidate may renew early; a refusal changes nothing |
| PaxosReplica.LeaseIsCertain | spyMonk-DB/spymonk_enterprise/replication/paxos/paxos_group.py:96-99 | has_lease answers true if and only if no instant the clock allows is past the lease's end |
| PaxosReplica.MergedIsMaximal | spyMonk-DB/spymonk_enterprise/replication/paxos/paxos_group.py:216-226 | the merge of sync replies has an entry for exactly the slots some reply mentions, with a maximal term and a value stored under it |
| PaxosReplica.MergedIsFirst | spyMonk-DB/spymonk_enterprise/replication/paxos/paxos_group.py:216-226 | of replies with the maximal term the first one gives the entry |
| PaxosReplica.QuorumsMeet | spyMonk-DB/spymonk_enterprise/replication/paxos/paxos_group.py:65-65 | two quorums of one replica set share a replica |
| PaxosReplica.QuorumIsMajority | spyMonk-DB/spymonk_enterprise/replication/paxos/paxos_group.py:65-65 | a quorum is any number above half |
| PaxosReplica.PaxosGroup.HandleLeaseVote | spyMonk-DB/spymonk_enterprise/replication/paxos/paxos_group.py:171-189 | the voter as a method: when it grants, the vote's end, and the whole new state |
| PaxosReplica.PaxosGroup.HandleAccept | spyMonk-DB/spymonk_enterprise/replication/paxos/paxos_group.py:191-199 | the acceptor as a method: it accepts exactly terms that are not behind, stores the value at its slot and moves the next free slot past it; otherwise nothing changes |
| PaxosReplica.PaxosGroup.HandleCommit | spyMonk-DB/spymonk_enterprise/replication/paxos/paxos_group.py:201-206 | the loop hands over exactly the committed, logged values that have become ready, marks no other slot and changes nothing else |
| PaxosReplica.PaxosGroup.TallyVotes | spyMonk-DB/spymonk_enterprise/replication/paxos/paxos_group.py:83-94 | leadership exactly with a quorum of grants, and then a lease that is the minimum of the granted ends |
| PaxosReplica.PaxosGroup.MergeReplies | spyMonk-DB/spymonk_enterprise/replication/paxos/paxos_group.py:214-226 | the merging loops compute that merge, skipping missing replies |
| Store.GetIsNewestOfHistory | spyMonk-DB/spymonk_enterprise/storage/mvcc.py:48-97 | in every reachable state (mid-flush, mid-compaction, after crashes) get is the newest version at or before t in the whole write history, for all versions compaction had to keep |
| ReadHistory.GetReturnsNewestOfHistory | spyMonk-DB/spymonk_enterprise/storage/mvcc.py:73-97 | a get running against any flushes and compactions returns the newest version at or before its timestamp in the whole history as of its memtable probe |
| ReadHistory.Simulated | spyMonk-DB/spymonk_enterprise/storage/mvcc.py:132-195 | every run of concurrent readers, flushes and compactions is matched by a run of the store with the same memtable, tables and history |
| Scanners.ScanReturnsVisible | spyMonk-DB/spymonk_enterprise/storage/mvcc.py:99-128 | whatever ran in between, a scan that ends has found, ascending, exactly the keys of its range with a value at its timestamp when it last read the memtable |
| ScanHistory.ScanReturnsNewestOfHistory | spyMonk-DB/spymonk_enterprise/storage/mvcc.py:99-128 | each of these values is that of the newest version in the whole history as of that reading, and no such key is missing |
| Scanners.ScannedIsOpen | spyMonk-DB/spymonk_enterprise/storage/engine/sstable.py:163-180 | a scan reads open files only |
| Scanners.ScansNeverBlock | spyMonk-DB/spymonk_enterprise/storage/mvcc.py:103-116 | every scan that has not ended can take its next step |
| Scanners.NextKeepsInv | spyMonk-DB/spymonk_enterprise/storage/mvcc.py:99-128 | every step keeps what a scan holds and what is still to come sufficient for each key of its range |
| Store.RecoveryKeepsAcknowledged | spyMonk-DB/spymonk_enterprise/storage/mvcc.py:197-218 | after a crash at any step boundary a store that restarts answers every such read as if all acknowledged writes had been kept |
| Store.RestartFailsIff | spyMonk-DB/spymonk_enterprise/storage/mvcc.py:210-218 | a restart fails if and only if an empty value was put since the oldest log segment still kept |
| Store.DownForever | spyMonk-DB/spymonk_enterprise/storage/mvcc.py:210-218 | a store that fails to restart fails every time |
| Store.EmptyValueBringsDown | spyMonk-DB/spymonk_enterprise/storage/mvcc.py:48-59 | a run that puts an empty value, reads it back, crashes, and cannot be opened again |
| Recovery.RecoverIff | spyMonk-DB/spymonk_enterprise/storage/mvcc.py:210-218 | recovery raises if and only if an empty value was logged, and otherwise restores exactly the logged records |
| Recovery.LogBytesComeBack | spyMonk-DB/spymonk_enterprise/storage/engine/wal.py:44-103 | serializing and deserializing a record gives the entry recovery is modelled to read, for any encoding of keys and values |
| Store.NextKeepsInv | spyMonk-DB/spymonk_enterprise/storage/mvcc.py:132-195 | every step of writing, flushing, compacting and crashing keeps memtable, tables and log as overlapping windows of the history |
| MVCC.ScanIsExact | spyMonk-DB/spymonk_enterprise/storage/mvcc.py:99-128 | over every run, scan yields in ascending order, once each, exactly the keys in range for which get has a value |
| MVCC.ScanAgreesWithGet | spyMonk-DB/spymonk_enterprise/storage/mvcc.py:99-128 | the same for any layering of sorted records |
| MVCC.RangeIsHalfOpen | spyMonk-DB/spymonk_enterprise/storage/engine/memtable.py:196-200 | the range used is the half-open interval of its bounds if and only if the end bound is not the empty key, and has no end when it is |
| MVCC.MVCCStore.Get | spyMonk-DB/spymonk_enterprise/storage/mvcc.py:73-97 | memtable, then tables newest first, answers as the layered lookup |
| MVCC.MVCCStore.Scan | spyMonk-DB/spymonk_enterprise/storage/mvcc.py:99-128 | gathering, sorting and resolving compute the scan of all layers |
| MVCC.MVCCStore.Flush | spyMonk-DB/spymonk_enterprise/storage/mvcc.py:132-144 | the memtable becomes the newest table, an empty one changes nothing |
| MVCC.MVCCStore.CompactAll | spyMonk-DB/spymonk_enterprise/storage/mvcc.py:148-195 | one compacted table replaces all, unless there is at most one |
| MVCC.MVCCStore.Reload | spyMonk-DB/spymonk_enterprise/storage/mvcc.py:210-218 | the recovery loop over the memtable restores that memtable, or raises exactly when it must |
| Layers.LayeredIsNewest | spyMonk-DB/spymonk_enterprise/storage/mvcc.py:77-97 | stopping at the first layer with a match finds the newest version of all layers when newer layers cover older ones |
| Layers.ResolvedIsNewest | spyMonk-DB/spymonk_enterprise/storage/mvcc.py:117-128 | a scan yields a pair exactly when the newest version of that key has that value |
| Layers.ResolvedAscends | spyMonk-DB/spymonk_enterprise/storage/mvcc.py:115-128 | scan keys are strictly ascending |
| Layers.ResolvedIsLookup | spyMonk-DB/spymonk_enterprise/storage/mvcc.py:119-128 | a key is yielded with the value of its first version at or before the timestamp |
| Layers.Resolve | spyMonk-DB/spymonk_enterprise/storage/mvcc.py:117-128 | the resolving loop computes that result |
| Compaction.CompactionPreservesReads | spyMonk-DB/spymonk_enterprise/storage/mvcc.py:148-195 | a read whose visible version is its key's newest, or not below the watermark, or absent, is unchanged by merge, de-duplication and garbage collection, dropped tombstones included |
| Compaction.CompactedFacts | spyMonk-DB/spymonk_enterprise/storage/mvcc.py:158-182 | a record is kept if and only if it is at or above the watermark, or its key's newest and no tombstone; and a key's versions disappear only together |
| Compaction.CompactedStrictly | spyMonk-DB/spymonk_enterprise/storage/mvcc.py:164-173 | the compacted table is in strict order: no key and timestamp stand in it twice, however many tables held them |
| Compaction.MergedOnTop | spyMonk-DB/spymonk_enterprise/storage/mvcc.py:184-188 | with the old tables still in place the merged table changes no read |
| Compaction.PartialUnlinkKeepsVersionIff | spyMonk-DB/spymonk_enterprise/storage/mvcc.py:189-194 | a crash after any number of unlinks leaves a read its version if and only if that survived the compaction or stands in a table not yet unlinked |
| Compaction.PartialUnlinkKeepsAnswerIff | spyMonk-DB/spymonk_enterprise/storage/mvcc.py:189-194 | and leaves its answer if and only if that is so or the tables not yet unlinked give the same value by themselves; so a deletion comes undone exactly when it survived nowhere and they still show a value |
| Compaction.PartialUnlinkResurrects | spyMonk-DB/spymonk_enterprise/storage/mvcc.py:189-194 | such a deletion, by a concrete case |
| Compaction.Compact | spyMonk-DB/spymonk_enterprise/storage/mvcc.py:153-182 | the merge and the garbage-collecting loop compute that table, in strict order |
| Records.LookupIsNewest | spyMonk-DB/spymonk_enterprise/storage/engine/memtable.py:183-194 | in storage order the first match is the newest version at or before t |
| Records.SortSorts | spyMonk-DB/spymonk_enterprise/storage/engine/sstable.py:34-36 | sorting gives storage order and keeps exactly the records |
| MemTables.MemTable.Add | spyMonk-DB/spymonk_enterprise/storage/engine/memtable.py:59-91 | binary insertion keeps storage order and adds exactly the record |
| MemTables.MemTable.Put | spyMonk-DB/spymonk_enterprise/storage/engine/memtable.py:59-75 | inserts, and raises exactly on a missing value |
| MemTables.LookupAfterInsert | spyMonk-DB/spymonk_enterprise/storage/engine/memtable.py:29-70 | what one insertion does to any read: of records with equal key and timestamp the one inserted first keeps answering |
| BufferedWrites.CommittedReadIff | spyMonk-DB/spymonk_enterprise/transaction/transaction.py:186-190 | the committed read of a key is the first value the transaction buffered for it, and its own last read if and only if first and last agree |
| BufferedWrites.CommittedReadAcrossFlush | spyMonk-DB/spymonk_enterprise/transaction/transaction.py:186-190 | the same with a flush between two of the writes: then the first one after the flush answers |
| BufferedWrites.SecondWriteIsLost | spyMonk-DB/spymonk_enterprise/storage/engine/memtable.py:29-70 | a second, different value for a key is read back before the commit and lost after it |
| MemTables.MemTable.FindKeyIndex | spyMonk-DB/spymonk_enterprise/storage/engine/memtable.py:157-170 | the first entry of the key, or -1 if and only if there is none |
| MemTables.MemTable.GetEntry | spyMonk-DB/spymonk_enterprise/storage/engine/memtable.py:183-194 | the newest entry at or before t, tombstones included |
| MemTables.MemTable.ScanEntries | spyMonk-DB/spymonk_enterprise/storage/engine/memtable.py:196-200 | the entries in the range |
| MemTables.InRangeCounts | spyMonk-DB/spymonk_enterprise/storage/engine/memtable.py:196-200 | each record in range is listed as often as it is stored, and no other |
| MemTables.InRangeKeepsOrder | spyMonk-DB/spymonk_enterprise/storage/engine/memtable.py:196-200 | in storage order |
| SSTables.WriteSSTable | spyMonk-DB/spymonk_enterprise/storage/engine/sstable.py:34-50 | the file stores the sorted records back to back with an index entry every 64 records |
| SSTables.SSTableReader.SeekOffset | spyMonk-DB/spymonk_enterprise/storage/engine/sstable.py:139-143 | everything before the offset has a smaller key |
| SSTables.SSTableReader.Get | spyMonk-DB/spymonk_enterprise/storage/engine/sstable.py:145-151 | starting at the sparse index answers as a linear search of all records |
| SSTables.SSTableReader.Scan | spyMonk-DB/spymonk_enterprise/storage/engine/sstable.py:153-161 | starting at the sparse index yields exactly the records in range |
| SSTables.SSTableReader.Release | spyMonk-DB/spymonk_enterprise/storage/engine/sstable.py:171-180 | the last reference closes the file |
| Readers.GetReturnsVisible | spyMonk-DB/spymonk_enterprise/storage/mvcc.py:73-97 | a get that returns, whatever flushes, compactions and later-stamped writes ran in between, gives the version visible when it probed the memtable |
| Readers.OpenWhileRead | spyMonk-DB/spymonk_enterprise/storage/engine/sstable.py:163-180 | a table file is closed exactly when its owner and all gets and scans have let go, so no read touches a closed file |
| Readers.NextKeepsInv | spyMonk-DB/spymonk_enterprise/storage/mvcc.py:132-195 | every step keeps the reference counts exact and each get's remaining tables sufficient for its answer |
| WalFraming.CutReplaysPrefix | spyMonk-DB/spymonk_enterprise/storage/engine/wal.py:163-205 | a version-1 segment cut at any byte after its header replays exactly the entries wholly before the cut, and ends cleanly just when the cut is between frames |
| WalFraming.SegmentReplays | spyMonk-DB/spymonk_enterprise/storage/engine/wal.py:44-103 | an undamaged segment replays to the entries written, up to empty values, which become no value |
| WalFraming.RoundTripIff | spyMonk-DB/spymonk_enterprise/storage/engine/wal.py:44-103 | an entry comes back from its bytes if and only if its value is not the empty string |
| WalFraming.CutInHeader | spyMonk-DB/spymonk_enterprise/storage/engine/wal.py:171-179 | what a cut inside the header does, among it an exception after exactly the magic bytes |
| WalFraming.DamageHidesLaterSegments | spyMonk-DB/spymonk_enterprise/storage/engine/wal.py:163-205 | replay never goes past a damaged segment |
| WalFraming.DamageStops | spyMonk-DB/spymonk_enterprise/storage/engine/wal.py:181-201 | in every kind of segment a record whose stored sum is not the checksum of its body ends the replay, with everything before it kept and nothing behind it read, for any two checksum functions |
| WalFraming.ShortBodyRaises | spyMonk-DB/spymonk_enterprise/storage/engine/wal.py:75-103 | a record with the right sum over too few bytes for an entry makes the replay raise |
| WalFraming.SegmentKinds | spyMonk-DB/spymonk_enterprise/storage/engine/wal.py:171-198 | version 1 is read under one checksum, version 0 and headerless segments under the other, newer versions not at all |
| WalFraming.LegacySegmentReplays | spyMonk-DB/spymonk_enterprise/storage/engine/wal.py:171-203 | undamaged segments of the two older kinds replay to the entries written |
| WalFraming.RecordsConcat | spyMonk-DB/spymonk_enterprise/storage/engine/wal.py:181-203 | what follows cleanly ending frames is replayed as if it stood alone |
| WalFraming.UnpackInvertsPack | spyMonk-DB/spymonk_enterprise/storage/engine/wal.py:47-71 | a packed integer is read back if and only if it fits its width |
| WalFraming.UnpackIsLittleEndian | spyMonk-DB/spymonk_enterprise/storage/engine/wal.py:47-71 | bytes are little-endian: what follows w bytes counts 256 to the w times its own value |
| WalFraming.FitsIff | spyMonk-DB/spymonk_enterprise/storage/engine/wal.py:47-71 | an entry can be written if and only if each of its integers and lengths comes back from its field |
| WalFraming.EntriesStay | spyMonk-DB/spymonk_enterprise/storage/engine/wal.py:142-161 | whatever is written behind them, entries once readable stay readable |
| WriteAheadLogs.WriteAheadLog.Append | spyMonk-DB/spymonk_enterprise/storage/engine/wal.py:142-161 | on any log, torn tail included: the exact bytes and segment written, and nothing readable is lost; when every segment ends cleanly a replay yields the earlier entries and then this one; an entry that does not fit raises and changes nothing |
| WriteAheadLogs.WriteAheadLog.Checkpoint | spyMonk-DB/spymonk_enterprise/storage/engine/wal.py:207-217 | only a fresh segment with the next number is left, it replays to nothing, and a damaged log is clean again |
| WriteAheadLogs.WriteAheadLog.Rotate | spyMonk-DB/spymonk_enterprise/storage/engine/wal.py:219-230 | a new segment is added and what replay yields stays the same |
| WriteAheadLogs.WriteAheadLog.constructor | spyMonk-DB/spymonk_enterprise/storage/engine/wal.py:234-271 | reopening continues the newest segment, or starts the next number if that one has no header or there is none, and loses nothing |
| WriteAheadLogs.WriteAheadLog.Replay | spyMonk-DB/spymonk_enterprise/storage/engine/wal.py:163-205 | the loops over segments and records compute the replay of all segments in sequence order |
| WriteAheadLogs.OrderedAt | spyMonk-DB/spymonk_enterprise/storage/engine/wal.py:165-165 | segments are replayed in the order of their numbers |
| WriteAheadLogs.WriteAheadLog.ReplayRecords | spyMonk-DB/spymonk_enterprise/storage/engine/wal.py:181-203 | the record loop with its file position and checksum test computes the replay of the records |
| Predicates.ParserMatchesGrammar | spyMonk-DB/spymonk_enterprise/sql/parser/predicates.py:133-204 | on every token list the parser succeeds exactly when the documented grammar derives it, with the tree the derivation means |
| Predicates.PrintThenParse | spyMonk-DB/spymonk_enterprise/sql/parser/predicates.py:154-197 | parsing the tokens printed from a well-formed tree, with parentheses only where needed, gives the tree back |
| Predicates.ParserImage | spyMonk-DB/spymonk_enterprise/sql/parser/predicates.py:154-197 | the trees the parser can produce are exactly the well-formed ones |
| Predicates.BindingStrength | spyMonk-DB/spymonk_enterprise/sql/parser/predicates.py:5-10 | NOT binds tighter than AND and AND tighter than OR, for any operands |
| Predicates.UnescapeInvertsEscape | spyMonk-DB/spymonk_enterprise/sql/parser/predicates.py:68-69 | a quoted text comes back unchanged |
| Predicates.EscapeWrites | spyMonk-DB/spymonk_enterprise/sql/parser/predicates.py:68-69 | escaping doubles each quote and leaves every other character |
| Predicates.UnescapeReads | spyMonk-DB/spymonk_enterprise/sql/parser/predicates.py:68-69 | reading turns a pair of quotes into one and leaves everything else |
| Predicates.ComparisonParses | spyMonk-DB/spymonk_enterprise/sql/parser/predicates.py:181-197 | a name, an operator and a literal parse to that comparison, with TRUE, FALSE and NULL as the truth values and the missing value |
| Predicates.Unqualified | spyMonk-DB/spymonk_enterprise/sql/parser/predicates.py:195-196 | a column name loses everything up to its last dot |
| Predicates.Parser.Expr | spyMonk-DB/spymonk_enterprise/sql/parser/predicates.py:154-159 | the OR loop over the cursor returns the specified node and position, or fails as specified |
| Predicates.Parser.AndExpr | spyMonk-DB/spymonk_enterprise/sql/parser/predicates.py:161-166 | the same for the AND loop |
| Predicates.Parser.Unary | spyMonk-DB/spymonk_enterprise/sql/parser/predicates.py:168-179 | the same for NOT, parentheses and comparisons |
| Predicates.Parser.ComparisonTerm | spyMonk-DB/spymonk_enterprise/sql/parser/predicates.py:181-197 | the same for one comparison |
| Predicates.ParsePredicate | spyMonk-DB/spymonk_enterprise/sql/parser/predicates.py:200-204 | the whole parse terminates and returns a node exactly when the grammar derives it |
| Predicates.NotIsOppositeIff | spyMonk-DB/spymonk_enterprise/sql/parser/predicates.py:87-108 | NOT of a comparison agrees with the opposite operator if and only if both sides are present and comparable (or only tested for equality) |
| Predicates.MismatchIsFalseIff | spyMonk-DB/spymonk_enterprise/sql/parser/predicates.py:12-14 | a comparison of mismatched types is false, as documented, except for the two inequality operators |
| Predicates.NumbersCompare | spyMonk-DB/spymonk_enterprise/sql/parser/predicates.py:91-103 | numbers, and truth values as 0 and 1, compare by size under each of the seven operators |
| Predicates.TextsCompare | spyMonk-DB/spymonk_enterprise/sql/parser/predicates.py:91-103 | texts compare by code points: a proper prefix is smaller, and otherwise the smaller character at the first difference decides |
| Values.TextLessIff | spyMonk-DB/spymonk_enterprise/sql/parser/predicates.py:96-103 | the order used for texts is that order |
| Predicates.NullFails | spyMonk-DB/spymonk_enterprise/sql/parser/predicates.py:87-90 | a comparison with NULL, or of a column the row lacks, is false whatever the operator |
| Predicates.Connectives | spyMonk-DB/spymonk_enterprise/sql/parser/predicates.py:119-130 | AND holds when all operands do, OR when some do, NOT when its operand does not |
| Predicates.DeMorgan | spyMonk-DB/spymonk_enterprise/sql/parser/predicates.py:119-130 | NOT distributes over AND and OR |
| TableStores.PruningChangesNoAnswer | spyMonk-warehouse/backend/query_engine.py:203-234 | filtering the rows of the selected partitions gives the same row sequence as filtering the whole table, for any conjuncts, any further condition, and even when conjuncts were dropped from the selection |
| Pruning.HoldsMayMatch | spyMonk-warehouse/backend/query_engine.py:171-200 | a partition holding a value that satisfies a condition is never skipped on its account |
| Pruning.MayMatchIff | spyMonk-warehouse/backend/query_engine.py:171-200 | the test fails just when no value between the bounds could satisfy the comparison |
| Pruning.InMayMatchIff | spyMonk-warehouse/backend/query_engine.py:178-181 | an IN condition skips a partition if and only if every listed literal lies outside the bounds |
| Pruning.NeverSkipped | spyMonk-warehouse/backend/query_engine.py:173-186 | without bounds, or for a literal of another kind, nothing is skipped |
| Pruning.ZoneMapIsTight | spyMonk-warehouse/backend/storage.py:36-46 | a zone map has the tightest bounds of the non-null values when they have one kind, and there is none just when they are mixed |
| Pruning.NullsCounted | spyMonk-warehouse/backend/storage.py:38-41 | a zone map counts exactly the nulls of its column |
| Pruning.SkippedIsSilent | spyMonk-warehouse/backend/query_engine.py:221-233 | a skipped partition contributes no row |
| Pruning.RefutedIsSkipped | spyMonk-warehouse/backend/query_engine.py:221-233 | pruning happens: a partition is skipped as soon as the zone map of the one column a condition names refutes it |
| Pruning.AmbiguousCounted | spyMonk-warehouse/backend/query_engine.py:216-216 | two columns whose names differ by case only count as ambiguous |
| Pruning.FewerPredicatesLoadMore | spyMonk-warehouse/backend/query_engine.py:128-166 | leaving conjuncts out only loads more |
| Pruning.SelectPartitions | spyMonk-warehouse/backend/query_engine.py:203-234 | the nested loops with their early exits select exactly the partitions every resolvable condition may match |
| Pruning.SelectedIff | spyMonk-warehouse/backend/query_engine.py:213-234 | selected are exactly the partitions to load, in their order |
| TableStores.TableStorage.LoadForQuery | spyMonk-warehouse/backend/main.py:724-735 | selecting and loading answers any WHERE clause as the whole table would |
| TableStores.TableStorage.StoreTable | spyMonk-warehouse/backend/storage.py:75-117 | refusals included: afterwards the table reads back as the rows given, under a higher version, old partitions are gone, and nothing else changed |
| TableStores.StoredFacts | spyMonk-warehouse/backend/storage.py:75-117 | storing keeps every listed partition present and described, stores no other, and leaves other tables alone |
| TableStores.DeletedFacts | spyMonk-warehouse/backend/storage.py:148-154 | so does deleting, which also raises the version |
| TableStores.TableStorage.DeleteTable | spyMonk-warehouse/backend/storage.py:148-154 | removes the meta record and the partitions the caller's meta record lists, and bumps the version |
| TableStores.TableStorage.LoadPartitions | spyMonk-warehouse/backend/storage.py:121-132 | rows of the requested partitions in index order, missing ones skipped |
| TableStores.ChunksCover | spyMonk-warehouse/backend/storage.py:93-102 | the partitions of a table, put together, are its rows |
| TableStores.ChunkSizes | spyMonk-warehouse/backend/storage.py:93-94 | every partition but the last has the configured number of rows |
| TableStores.StoredCounts | spyMonk-warehouse/backend/storage.py:98-102 | the meta record gives each partition's row count and a zone map for every column |
| TableStores.SortIndexesSorts | spyMonk-warehouse/backend/storage.py:124-124 | partitions are loaded in ascending order of their indexes, whatever order was asked for |
| CachedQueries.ServedHitIsFresh | spyMonk-warehouse/backend/main.py:693-770 | in every run of uploads, deletes and queries, interleaved down to single reads of the store, a hit returns what executing the statement now would as long as all meta records its query read are still live |
| CachedQueries.HitIsFresh | spyMonk-warehouse/backend/main.py:693-770 | in particular a lookup under the current versions is right unless one of the tables is just being deleted |
| ServedHits.HitAfterReupload | spyMonk-warehouse/backend/main.py:693-770 | a run in which a query has read the meta record when the table is uploaded again, and is served the old rows |
| ServedHits.HitDuringDelete | spyMonk-warehouse/backend/storage.py:148-154 | a run in which a hit in the middle of a delete returns rows that execution no longer finds |
| ServedHits.TornHit | spyMonk-warehouse/backend/storage.py:115-132 | a run in which a query loads while a re-upload removes the old partitions, and another one is served an answer the table never had |
| CachedQueries.VersionsNeverReissued | spyMonk-warehouse/backend/storage.py:67-71 | an upload gets a version no table of that name ever had, deleted ones included |
| CachedQueries.VersionNamesContent | spyMonk-warehouse/backend/storage.py:75-117 | while a table carries a version, its meta record and partitions never change |
| CachedQueries.CapacityHolds | spyMonk-warehouse/backend/result_cache.py:49-54 | the cache never exceeds its capacity and never holds a key twice |
| CachedQueries.NextKeepsInv | spyMonk-warehouse/backend/main.py:693-770 | every step keeps each cached payload, and each partial load, right for the versions it was computed under |
| ResultCaches.KeyInjective | spyMonk-warehouse/backend/result_cache.py:30-32 | the key text determines the statement and the versions of its tables, for table names without separators |
| ResultCaches.KeyIff | spyMonk-warehouse/backend/result_cache.py:30-32 | two lookups have the same key if and only if the statement and the multiset of table versions agree, in whatever order the tables come |
| ResultCaches.DecimalReadsBack | spyMonk-warehouse/backend/result_cache.py:31-31 | versions are written in base ten |
| ResultCaches.RecentSurvives | spyMonk-warehouse/backend/result_cache.py:45-54 | least recently used goes first: an entry survives puts of other keys as long as they fit beside it and the newer ones |
| ResultCaches.PutKeepsBounds | spyMonk-warehouse/backend/result_cache.py:49-54 | after a put the entry is found, capacity holds, and nothing else was added |
| ResultCaches.GetKeepsBounds | spyMonk-warehouse/backend/result_cache.py:34-47 | a hit occurs exactly for a present, unexpired key and makes it the most recent; an expired entry is removed; all others stay |
| ResultCaches.ResultCache.Store | spyMonk-warehouse/backend/result_cache.py:49-54 | put with its eviction loop has exactly the specified effect |
| ResultCaches.ResultCache.Lookup | spyMonk-warehouse/backend/result_cache.py:34-47 | get has exactly the specified result and effect, and counts hits and misses |

## Left out

- Keys, transaction ids and replica ids are natural numbers standing for their order (0 is the empty
  key); the uncertainty field of timestamps takes no part in ordering and is kept only in log entries.
- Read-only transactions, snapshot reads at a client's timestamp and their waiting for the safe time: not
  stable when commits apply out of timestamp order.
- Two buffered mutations of one key with different values in one transaction: guarded out of the machine, since
  reads of that key are then not those of a serial run; `BufferedWrites` says what they return.
- Aborting a transaction while another thread is committing it, and direct store writes beside transactions.
- Transactions.ReadsSeeTheirPredecessor: speaks of transactions past the commit fence; aborted ones
  may have read anything before they were wounded.
- PaxosChosen.ChosenSurvives: holds under the five guards above, which the source leaves to its
  environment. For the one on the leader's term see `PaxosTimed.ChosenSurvives`.
- Applied sequences of different replicas across leader changes: `CommitNotify` names only a slot, so a
  replica may apply an entry an older leader left there. The cross-leader result is about chosen values.
- Replica crash and restart (votes and logs live in memory), timestamps inside log entries, and
  exceptions of the state machine callback.
- Message classes and `InProcessNetwork`: a message is delivered, lost, or its reply lost, per step.
- When writes trigger a flush and flushes a compaction (size accounting, thresholds): the machines let
  either happen at any allowed point.
- The store machine removes the inputs of a compaction in one step; crashes between the unlinks are the
  subject of the lemmas on them in `Compaction`.
- Store.GetIsNewestOfHistory: reads below the watermark of an earlier compaction, of versions that are
  not their key's newest, may find an older version or none.
- Readers.GetReturnsVisible: the version visible among those the store still has when the get starts; the
  step to the whole history is `ReadHistory.GetReturnsNewestOfHistory`.
- SSTables.WriteSSTable: footer, checksum and msgpack bytes of the file are not modelled.
- Table file checksums, footers and the msgpack encoding (a record has an arbitrary positive size),
  corrupt tables and the skipping of them, and log segments numbered past 99,999,999, whose names no longer sort by number.
- Whether an entry appended behind a torn record is ever read depends on what the torn bytes and the
  checksum make of it: `WriteAheadLogs.WriteAheadLog.Append` then promises only that nothing readable is lost.
- CRC32 and BLAKE2b are arbitrary functions: a wrong sum always stops the replay (`WalFraming.DamageStops`), but that damage
  to a body always changes its checksum is not claimed.
- The tokenizer of WHERE clauses and the reading of number literals: tokens carry their values. NaN is not a value.
- Extracting conjuncts from SQL text with regular expressions, and reading their literals; predicates are structured.
- SQLite's column affinity: how it compares values of different kinds is arbitrary, but two
  numbers, and two texts, compare in their own order even in a column that mixes both.
- The columnar layout inside a partition, row counts and schema in meta records, data frame cleaning, and
  legacy row-per-key tables.
- Uploads and deletes whose client calls fail halfway, so that the lock is released with some partitions gone
  and the meta record live, or with partitions of a version nobody reads: in the cache machine deletes
  finish, and a failed upload only raises the version.
- A negative entry limit of the result cache, with which its eviction would raise.
- Deleting with a meta record that is no longer current leaves the newer partitions behind; `TableStores.TableStorage.DeleteTable`
  states what is removed, and keeps the catalog in order when the record is current.
- SQL text normalisation (taken as the identity), cancellation, history, metrics and JSON conversion of results.
- gRPC, command line, directory routing, schema registry, SQL executor, read-write lock, NTP
  synchronisation, user interface, authentication and the assistant.
