/** What wound-wait and the commit fence guarantee, in every run of module LockSystem. */
module DeadlockFreedom {
  import opened Options
  import opened Locks
  import opened LockSystem

  /** Wound-wait: whoever a step wounds is strictly younger than the wounder, and not committing. */
  lemma VictimsAreYounger(run: seq<System>, steps: seq<Step>, n: nat, v: TxnId)
    requires IsRun(run, steps) && n < |steps| && v in run[n + 1].table.wounded && v !in run[n].table.wounded
    ensures steps[n].TryAcquire? && steps[n].t in run[n].ages && v in run[n].ages
    ensures run[n].ages[steps[n].t].Older(run[n].ages[v]) && v !in run[n].table.committing
  {
    RunKeepsInv(run, steps, n);
    var s, step, s' := run[n], steps[n], run[n + 1];
    assert Next(s, step, s');
    if step.TryAcquire? {
      WoundedByAcquire(s, step.t, step.key, step.mode, step.timedOut, s', v);
    }
  }

  /**
   The commit fence: past enter_commit a transaction holds exactly the keys it was granted since it
   began, and keeps every one of them through each step until its own release_all.
   */
  lemma FenceHolds(run: seq<System>, steps: seq<Step>, n: nat, t: TxnId)
    requires IsRun(run, steps) && n < |steps| && t in run[n].table.committing
    ensures run[n].table.HeldKeys(t) == Granted(run[n], t)
    ensures steps[n] != Finish(t) ==>
              t in run[n + 1].table.committing && run[n + 1].table.HeldKeys(t) == run[n].table.HeldKeys(t)
  {
    RunKeepsInv(run, steps, n);
    RunKeepsInv(run, steps, n + 1);
    var s, s' := run[n], run[n + 1];
    assert Next(s, steps[n], s');
    if steps[n] != Finish(t) {
      match steps[n]
      case Begin(_, _) =>
      case TryAcquire(u, k, mode, timedOut) =>
        SameAgeFromRecord(s, u, k);
        AcquireFacts(s.table, u, s.ages[u], k, mode, timedOut);
      case CommitFence(u) =>
      case Finish(u) =>
        RetireKeepsValid(s.table, u);
    }
  }

  /** A path of blockers: each transaction sleeps un-notified behind the next one. */
  ghost predicate BlockingPath(s: System, path: seq<TxnId>) {
    && path != []
    && forall i | 0 <= i < |path| - 1 :: Asleep(s, path[i]) && Blocks(s, path[i + 1], path[i])
  }

  /**
   Deadlock freedom: from every sleeping transaction, following blockers leads to one that is not
   asleep; ages strictly decrease on the way, so no path can close into a cycle.
   */
  lemma EverySleeperBehindARunner(run: seq<System>, steps: seq<Step>, n: nat, t: TxnId) returns (path: seq<TxnId>)
    requires IsRun(run, steps) && n < |run| && Asleep(run[n], t)
    ensures BlockingPath(run[n], path) && path[0] == t && |path| >= 2
    ensures !Asleep(run[n], path[|path| - 1]) && run[n].table.HeldKeys(path[|path| - 1]) != {}
  {
    RunKeepsInv(run, steps, n);
    path := FollowBlockers(run[n], t);
  }

  lemma {:induction false} FollowBlockers(s: System, t: TxnId) returns (path: seq<TxnId>)
    requires Inv(s) && Asleep(s, t)
    ensures BlockingPath(s, path) && path[0] == t && |path| >= 2
    ensures !Asleep(s, path[|path| - 1]) && s.table.HeldKeys(path[|path| - 1]) != {}
    decreases s.ages[t].physical, s.ages[t].logical, s.ages[t].id
  {
    var h :| Blocks(s, h, t);
    assert s.table.Holds(h, s.waiting[t].key);
    assert s.waiting[t].key in s.table.HeldKeys(h);
    if Asleep(s, h) {
      var rest := FollowBlockers(s, h);
      path := [t] + rest;
      assert forall i | 0 < i < |path| - 1 :: path[i] == rest[i - 1] && path[i + 1] == rest[i];
    } else {
      path := [t, h];
    }
  }

  /** No set of sleepers can be waiting only for one another, in any reachable state. */
  lemma {:induction false} NoDeadlock(run: seq<System>, steps: seq<Step>, n: nat, stuck: set<TxnId>)
    requires IsRun(run, steps) && n < |run|
    requires forall t | t in stuck :: Asleep(run[n], t)
    requires forall t, h | t in stuck && Blocks(run[n], h, t) :: h in stuck
    ensures stuck == {}
  {
    if stuck != {} {
      var t :| t in stuck;
      var path := EverySleeperBehindARunner(run, steps, n, t);
      PathStaysInside(run[n], path, stuck, |path| - 1);
    }
  }

  lemma {:induction false} PathStaysInside(s: System, path: seq<TxnId>, stuck: set<TxnId>, i: nat)
    requires BlockingPath(s, path) && i < |path| && path[0] in stuck
    requires forall t, h | t in stuck && Blocks(s, h, t) :: h in stuck
    ensures path[i] in stuck
  {
    if i > 0 {
      PathStaysInside(s, path, stuck, i - 1);
    }
  }

  // ---------- an instance ----------

  /** Sleepers do occur: a younger transaction that wants a key held by an older one goes to sleep. */
  lemma SomebodySleeps() returns (run: seq<System>, steps: seq<Step>)
    ensures IsRun(run, steps) && |run| == 5 && Asleep(run[4], 1) && Blocks(run[4], 0, 1)
  {
    var old0, young := Age(1, 0, 0), Age(2, 0, 1);
    var ages1, ages2 := map[0 := old0], map[0 := old0, 1 := young];
    var s0 := System(EMPTY, map[], map[], {}, map[]);
    var s1 := s0.(ages := ages1);
    var s2 := s0.(ages := ages2);
    assert Conflicts(EMPTY.LockAt(7), 0, Write) == {};
    assert Victims(EMPTY, 0, old0, 7, Write) == {};
    var table := Grant(EMPTY, 0, old0, 7, Write);
    var s3 := s2.(table := table, acquired := map[0 := {7}]);
    assert table.LockAt(7) == Lock(map[], Some(Holder(0, old0)));
    assert Conflicts(table.LockAt(7), 1, Write) == {0};
    assert Victims(table, 1, young, 7, Write) == {};
    var s4 := s3.(waiting := map[1 := Request(7, Write)]);
    run := [s0, s1, s2, s3, s4];
    steps := [Begin(0, old0), Begin(1, young), TryAcquire(0, 7, Write, false), TryAcquire(1, 7, Write, false)];
    assert Next(s0, steps[0], s1) && Next(s1, steps[1], s2);
    assert Acquire(EMPTY, 0, old0, 7, Write, false) == (table, Acquired);
    assert Granted(s2, 0) + {7} == {7};
    assert Next(s2, steps[2], s3);
    assert Acquire(table, 1, young, 7, Write, false) == (table, Waiting);
    assert Next(s3, steps[3], s4);
  }
}
