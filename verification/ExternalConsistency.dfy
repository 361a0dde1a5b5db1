/**
 External consistency (section 4.1.2 of the Spanner paper) across any number of transaction managers.
 Real time is explicit; every step may take place at any later instant. Runs make no assumption on
 the clocks; an honest run is one whose TrueTime intervals contain real time.
 */
module ExternalConsistency {
  import opened Options
  import opened Clock
  import Transactions

  type Manager = nat
  type CommitId = nat

  datatype Commit = Commit(
    manager: Manager,
    began: int,                   // real time of begin()
    stamp: Option<Timestamp>,
    waited: bool,                 // commit wait is over
    returned: Option<int>)        // real time at which commit() returned

  datatype System = System(
    now: int,
    commits: map<CommitId, Commit>,
    stamps: map<Manager, seq<Timestamp>>)  // per manager, in the order of the choices

  datatype Step =
    | Tick(d: nat)
    | Begin(c: CommitId, m: Manager)
    | Choose(c: CommitId, hlc: Timestamp, tt: Interval)
    | Wait(c: CommitId, tt: Interval)
    | Return(c: CommitId)

  function Assigned(s: System, m: Manager): seq<Timestamp> {
    if m in s.stamps then s.stamps[m] else []
  }

  /** The manager's `_last_assigned`. */
  function LastAssigned(s: System, m: Manager): Option<Timestamp> {
    var a := Assigned(s, m);
    if a == [] then None else Some(a[|a| - 1])
  }

  ghost predicate Next(s: System, step: Step, s': System) {
    match step
    case Tick(d) => s' == s.(now := s.now + d)
    case Begin(c, m) =>
      c !in s.commits && s' == s.(commits := s.commits[c := Commit(m, s.now, None, false, None)])
    case Choose(c, hlc, tt) =>
      && c in s.commits && s.commits[c].stamp.None?
      && var x := s.commits[c];
      && var ts := Transactions.CommitTimestamp(hlc, tt.latest, LastAssigned(s, x.manager));
      && s' == s.(commits := s.commits[c := x.(stamp := Some(ts))],
                  stamps := s.stamps[x.manager := Assigned(s, x.manager) + [ts]])
    case Wait(c, tt) =>
      && c in s.commits && s.commits[c].stamp.Some? && tt.After(s.commits[c].stamp.value.physical)
      && s' == s.(commits := s.commits[c := s.commits[c].(waited := true)])
    case Return(c) =>
      && c in s.commits && s.commits[c].waited && s.commits[c].returned.None?
      && s' == s.(commits := s.commits[c := s.commits[c].(returned := Some(s.now))])
  }

  ghost predicate Honest(s: System, step: Step) {
    (step.Choose? || step.Wait?) ==> step.tt.Contains(s.now)
  }

  ghost predicate IsRun(run: seq<System>, steps: seq<Step>) {
    && |run| == |steps| + 1 && run[0].commits == map[] && run[0].stamps == map[]
    && forall i | 0 <= i < |steps| :: Next(run[i], steps[i], run[i + 1])
  }

  ghost predicate IsHonest(run: seq<System>, steps: seq<Step>) {
    IsRun(run, steps) && forall i | 0 <= i < |steps| :: Honest(run[i], steps[i])
  }

  /** A manager's choices strictly increase, whatever the clocks say, even when they run backwards. */
  lemma {:induction false} StampsIncrease(run: seq<System>, steps: seq<Step>, n: nat, m: Manager)
    requires IsRun(run, steps) && n < |run|
    ensures var a := Assigned(run[n], m); forall i, j | 0 <= i < j < |a| :: a[i].Less(a[j])
  {
    if n > 0 {
      StampsIncrease(run, steps, n - 1, m);
      var s, s' := run[n - 1], run[n];
      assert Next(s, steps[n - 1], s');
      var a, a' := Assigned(s, m), Assigned(s', m);
      if a' != a {
        assert a' == a + [a'[|a|]];
        forall i | 0 <= i < |a|
          ensures a[i].Less(a'[|a|])
        {
          assert a[i].AtMost(a[|a| - 1]);
        }
      }
    }
  }

  ghost predicate Inv(s: System) {
    forall c | c in s.commits ::
      var x := s.commits[c];
      && (x.stamp.Some? ==> x.began <= x.stamp.value.physical)
      && (x.waited ==> x.stamp.Some? && x.stamp.value.physical < s.now)
      && (x.returned.Some? ==> x.stamp.Some? && x.stamp.value.physical < x.returned.value)
      && x.began <= s.now
  }

  lemma {:induction false} RunKeepsInv(run: seq<System>, steps: seq<Step>, n: nat)
    requires IsHonest(run, steps) && n < |run|
    ensures Inv(run[n])
  {
    if n > 0 {
      RunKeepsInv(run, steps, n - 1);
      assert Next(run[n - 1], steps[n - 1], run[n]) && Honest(run[n - 1], steps[n - 1]);
    }
  }

  /**
   If one commit returned before another transaction began, even on another manager, the first
   timestamp is strictly smaller: the start and commit-wait rules together.
   */
  lemma ExternallyConsistent(run: seq<System>, steps: seq<Step>, n: nat, a: CommitId, b: CommitId)
    requires IsHonest(run, steps) && n < |run|
    requires a in run[n].commits && b in run[n].commits
    requires run[n].commits[a].returned.Some? && run[n].commits[b].stamp.Some?
    requires run[n].commits[a].returned.value <= run[n].commits[b].began
    ensures run[n].commits[a].stamp.Some?
    ensures run[n].commits[a].stamp.value.Less(run[n].commits[b].stamp.value)
  {
    RunKeepsInv(run, steps, n);
  }
}
