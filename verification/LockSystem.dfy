/**
 Every interleaving of threads that use one lock table: each thread runs one transaction, and a
 thread that finds a conflict it may not wound sleeps on the condition variable. Sleepers and the
 sleepers already notified are explicit. The invariant kept here carries the results of module
 DeadlockFreedom.
 */
module LockSystem {
  import opened Options
  import opened Locks

  datatype Request = Request(key: Key, mode: Mode)

  datatype System = System(
    table: State,
    ages: map<TxnId, Age>,
    waiting: map<TxnId, Request>,
    notified: set<TxnId>,
    acquired: map<TxnId, set<Key>>)  // history: keys granted since the last release_all

  datatype Step =
    | Begin(t: TxnId, age: Age)
    | TryAcquire(t: TxnId, key: Key, mode: Mode, timedOut: bool)
    | CommitFence(t: TxnId)
    | Finish(t: TxnId)

  ghost predicate Init(s: System) {
    s == System(EMPTY, map[], map[], {}, map[])
  }

  function Granted(s: System, t: TxnId): set<Key> {
    if t in s.acquired then s.acquired[t] else {}
  }

  /** A call to acquire_*, or a wake-up of one (by notification, by timeout, or spurious). */
  ghost predicate NextAcquire(s: System, t: TxnId, k: Key, mode: Mode, timedOut: bool, s': System) {
    && t in s.ages && t !in s.table.committing
    && (t in s.waiting ==> s.waiting[t] == Request(k, mode))
    && var (table', outcome) := Acquire(s.table, t, s.ages[t], k, mode, timedOut);
    && s'.table == table' && s'.ages == s.ages
    && s'.waiting == (if outcome == Waiting then s.waiting[t := Request(k, mode)] else s.waiting - {t})
       // notify_all runs before the thread itself goes to sleep
    && s'.notified == (if table'.wounded != s.table.wounded then s.waiting.Keys else s.notified) - {t}
    && s'.acquired == if outcome == Acquired then s.acquired[t := Granted(s, t) + {k}] else s.acquired
  }

  ghost predicate Next(s: System, step: Step, s': System) {
    match step
    case Begin(t, age) =>
      t !in s.ages && age.id == t && s' == s.(ages := s.ages[t := age])
    case TryAcquire(t, k, mode, timedOut) =>
      NextAcquire(s, t, k, mode, timedOut, s')
    case CommitFence(t) =>
      t in s.ages && t !in s.waiting && s' == s.(table := Fence(s.table, t))
    case Finish(t) =>
      && t in s.ages && t !in s.waiting
      && s' == s.(table := Retire(s.table, t), notified := s.waiting.Keys, acquired := s.acquired - {t})
  }

  ghost predicate IsRun(run: seq<System>, steps: seq<Step>) {
    && |run| == |steps| + 1 && Init(run[0])
    && forall i | 0 <= i < |steps| :: Next(run[i], steps[i], run[i + 1])
  }

  // ---------- invariant ----------

  ghost predicate AgesRecorded(s: System) {
    && (forall t | t in s.ages :: s.ages[t].id == t)
    && (forall k, t | k in s.table.locks && t in s.table.locks[k].readers ::
          t in s.ages && s.table.locks[k].readers[t] == s.ages[t])
    && (forall k | k in s.table.locks && s.table.locks[k].writer.Some? ::
          var w := s.table.locks[k].writer.value; w.txn in s.ages && w.age == s.ages[w.txn])
  }

  ghost predicate Asleep(s: System, t: TxnId) {
    t in s.waiting && t !in s.notified
  }

  /** h is a holder that t's request conflicts with and that t was not allowed to wound. */
  ghost predicate Blocks(s: System, h: TxnId, t: TxnId) {
    && t in s.waiting && t in s.ages && h in s.ages
    && h in Conflicts(s.table.LockAt(s.waiting[t].key), t, s.waiting[t].mode)
    && (h in s.table.committing || s.ages[h].Older(s.ages[t]))
  }

  /** Every sleeper nobody has notified waits for an older or committing holder, and is not wounded. */
  ghost predicate SleepersBlocked(s: System) {
    forall t | Asleep(s, t) :: t !in s.table.wounded && exists h :: Blocks(s, h, t)
  }

  /** The commit fence over time: whoever is not wounded still holds all it was granted. */
  ghost predicate NothingLost(s: System) {
    forall t | t !in s.table.wounded :: s.table.HeldKeys(t) == Granted(s, t)
  }

  ghost predicate Inv(s: System) {
    && Valid(s.table) && AgesRecorded(s) && NothingLost(s) && SleepersBlocked(s)
    && s.waiting.Keys <= s.ages.Keys && s.notified <= s.waiting.Keys
    && s.waiting.Keys !! s.table.committing
    && s.table.committing <= s.ages.Keys
  }

  lemma SameAgeFromRecord(s: System, t: TxnId, k: Key)
    requires AgesRecorded(s) && t in s.ages
    ensures SameAge(s.table, t, s.ages[t], k)
  {
  }

  lemma AcquireKeepsAges(s: System, t: TxnId, k: Key, mode: Mode, timedOut: bool, s': System)
    requires Inv(s) && NextAcquire(s, t, k, mode, timedOut, s')
    ensures AgesRecorded(s')
  {
    hide Acquire;
    AcquireAges(s.table, t, s.ages[t], k, mode, timedOut);
  }

  lemma AcquireLosesNothing(s: System, t: TxnId, k: Key, mode: Mode, timedOut: bool, s': System)
    requires Inv(s) && NextAcquire(s, t, k, mode, timedOut, s')
    ensures NothingLost(s')
  {
    hide Acquire;
    SameAgeFromRecord(s, t, k);
    AcquireFacts(s.table, t, s.ages[t], k, mode, timedOut);
    forall u | u !in s'.table.wounded
      ensures s'.table.HeldKeys(u) == Granted(s', u)
    {
      forall j
        ensures j in s'.table.HeldKeys(u) <==> j in Granted(s', u)
      {
        assert j in s'.table.HeldKeys(u) <==> s'.table.Holds(u, j);
        assert j in s.table.HeldKeys(u) <==> s.table.Holds(u, j);
      }
    }
  }

  /** A holder that nobody wounded or released keeps blocking whoever it blocked. */
  lemma BlockerStays(s: System, s': System, h: TxnId, t: TxnId)
    requires Blocks(s, h, t) && t in s'.waiting && s'.waiting[t] == s.waiting[t]
    requires s.ages.Keys <= s'.ages.Keys && s'.ages[h] == s.ages[h] && s'.ages[t] == s.ages[t]
    requires s.table.committing <= s'.table.committing || h !in s.table.committing
    requires forall j :: s.table.Holds(h, j) ==> s'.table.Holds(h, j)
    requires forall j :: s.table.Writes(h, j) ==> s'.table.Writes(h, j)
    requires Valid(s.table) && Valid(s'.table)
    ensures Blocks(s', h, t)
  {
    var k := s.waiting[t].key;
    assert s.table.Holds(h, k) && s'.table.Holds(h, k);
    assert s.table.Writes(h, k) ==> s'.table.Writes(h, k);
    assert s.waiting[t].mode == Read ==> s.table.Writes(h, k);
    if s'.table.Writes(h, k) {
      assert h in Conflicts(s'.table.LockAt(k), t, s.waiting[t].mode);
    } else {
      assert h in s'.table.LockAt(k).readers;
    }
  }

  lemma AcquireKeepsSleepersBlocked(s: System, t: TxnId, k: Key, mode: Mode, timedOut: bool, s': System)
    requires Inv(s) && NextAcquire(s, t, k, mode, timedOut, s')
    ensures SleepersBlocked(s')
  {
    hide Acquire;
    SameAgeFromRecord(s, t, k);
    AcquireFacts(s.table, t, s.ages[t], k, mode, timedOut);
    AcquireKeepsAges(s, t, k, mode, timedOut, s');
    forall u | Asleep(s', u)
      ensures u !in s'.table.wounded && exists h :: Blocks(s', h, u)
    {
      if u == t {
        FreshSleeperBlocked(s, t, k, mode, timedOut, s');
      } else {
        // nobody was notified, so nobody was wounded
        assert s'.table.wounded == s.table.wounded && Asleep(s, u);
        var h :| Blocks(s, h, u);
        BlockerStays(s, s', h, u);
      }
    }
  }

  lemma ConflictAges(s: System, t: TxnId, k: Key, mode: Mode, h: TxnId)
    requires AgesRecorded(s) && h in Conflicts(s.table.LockAt(k), t, mode)
    ensures h != t && h in s.ages && s.table.LockAt(k).AgeOf(h) == s.ages[h]
  {
  }

  /** Whoever has just gone to sleep left at least one conflicting holder it could not wound. */
  lemma FreshSleeperBlocked(s: System, t: TxnId, k: Key, mode: Mode, timedOut: bool, s': System)
    requires Inv(s) && NextAcquire(s, t, k, mode, timedOut, s') && t in s'.waiting
    ensures t !in s'.table.wounded && exists h :: Blocks(s', h, t)
  {
    hide Acquire, SleepersBlocked, NothingLost, Conflicts;
    SameAgeFromRecord(s, t, k);
    AcquireFacts(s.table, t, s.ages[t], k, mode, timedOut);
    var h := SurvivingConflict(s.table, t, s.ages[t], k, mode, timedOut);
    ConflictAges(s, t, k, mode, h);
    assert h == s.ages[h].id && t == s.ages[t].id;
    assert Blocks(s', h, t);
  }

  lemma BeginKeepsInv(s: System, t: TxnId, age: Age, s': System)
    requires Inv(s) && Next(s, Begin(t, age), s')
    ensures Inv(s')
  {
    forall u | Asleep(s', u)
      ensures u !in s'.table.wounded && exists h :: Blocks(s', h, u)
    {
      assert Asleep(s, u);
      var h :| Blocks(s, h, u);
      BlockerStays(s, s', h, u);
    }
  }

  lemma FenceKeepsInv(s: System, t: TxnId, s': System)
    requires Inv(s) && Next(s, CommitFence(t), s')
    ensures Inv(s')
  {
    FenceKeepsValid(s.table, t);
    forall u | Asleep(s', u)
      ensures u !in s'.table.wounded && exists h :: Blocks(s', h, u)
    {
      assert Asleep(s, u);
      var h :| Blocks(s, h, u);
      BlockerStays(s, s', h, u);
    }
    assert forall u :: s'.table.HeldKeys(u) == s.table.HeldKeys(u);
  }

  lemma FinishKeepsInv(s: System, t: TxnId, s': System)
    requires Inv(s) && Next(s, Finish(t), s')
    ensures Inv(s')
  {
    hide Retire, Valid, AgesRecorded, NothingLost, SleepersBlocked;
    RetireKeepsValid(s.table, t);
    RetireFields(s.table, t);
    RetireKeepsAges(s, t, s');
    RetireLosesNothing(s, t, s');
    NobodyAsleep(s');
  }

  lemma RetireKeepsAges(s: System, t: TxnId, s': System)
    requires AgesRecorded(s) && s'.table == Retire(s.table, t) && s'.ages == s.ages
    ensures AgesRecorded(s')
  {
    hide Retire;
    RetireRecords(s.table, t);
  }

  lemma RetireLosesNothing(s: System, t: TxnId, s': System)
    requires NothingLost(s) && s'.table == Retire(s.table, t) && s'.acquired == s.acquired - {t}
    ensures NothingLost(s')
  {
    hide Retire, Valid;
    RetireFields(s.table, t);
  }

  lemma NobodyAsleep(s: System)
    requires s.waiting.Keys <= s.notified
    ensures SleepersBlocked(s)
  {
  }

  lemma AcquireKeepsInv(s: System, t: TxnId, k: Key, mode: Mode, timedOut: bool, s': System)
    requires Inv(s) && NextAcquire(s, t, k, mode, timedOut, s')
    ensures Inv(s')
  {
    SameAgeFromRecord(s, t, k);
    AcquireFacts(s.table, t, s.ages[t], k, mode, timedOut);
    AcquireKeepsAges(s, t, k, mode, timedOut, s');
    AcquireLosesNothing(s, t, k, mode, timedOut, s');
    AcquireKeepsSleepersBlocked(s, t, k, mode, timedOut, s');
    hide Acquire, AgesRecorded, NothingLost, SleepersBlocked, Valid;
  }

  lemma NextKeepsInv(s: System, step: Step, s': System)
    requires Inv(s) && Next(s, step, s')
    ensures Inv(s')
  {
    match step
    case Begin(t, age) => BeginKeepsInv(s, t, age, s');
    case TryAcquire(t, k, mode, timedOut) => AcquireKeepsInv(s, t, k, mode, timedOut, s');
    case CommitFence(t) => FenceKeepsInv(s, t, s');
    case Finish(t) => FinishKeepsInv(s, t, s');
  }

  lemma {:induction false} RunKeepsInv(run: seq<System>, steps: seq<Step>, n: nat)
    requires IsRun(run, steps) && n < |run|
    ensures Inv(run[n])
  {
    if n > 0 {
      RunKeepsInv(run, steps, n - 1);
      NextKeepsInv(run[n - 1], steps[n - 1], run[n]);
    }
  }

  // ---------- victims ----------

  lemma WoundedByAcquire(s: System, t: TxnId, k: Key, mode: Mode, timedOut: bool, s': System, v: TxnId)
    requires Inv(s) && NextAcquire(s, t, k, mode, timedOut, s')
    requires v in s'.table.wounded && v !in s.table.wounded
    ensures v in s.ages && s.ages[t].Older(s.ages[v]) && v !in s.table.committing
  {
    hide Acquire, SleepersBlocked, NothingLost, AgesRecorded, Valid, SameAge, Victims;
    SameAgeFromRecord(s, t, k);
    AcquireFacts(s.table, t, s.ages[t], k, mode, timedOut);
    assert v in Victims(s.table, t, s.ages[t], k, mode);
    VictimIsYounger(s, t, k, mode, v);
  }

  lemma VictimIsYounger(s: System, t: TxnId, k: Key, mode: Mode, v: TxnId)
    requires AgesRecorded(s) && t in s.ages && v in Victims(s.table, t, s.ages[t], k, mode)
    ensures v in s.ages && s.ages[t].Older(s.ages[v]) && v !in s.table.committing
  {
    var l := s.table.LockAt(k);
    assert v in Conflicts(l, t, mode);
    assert l.AgeOf(v) == s.ages[v];
  }
}
