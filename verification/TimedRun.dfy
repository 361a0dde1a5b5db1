/**
 A run of module PaxosTimed: of three replicas one wins an election with its own vote and a follower's,
 completes its sync, and proposes while it has its lease.
 */
module TimedRun {
  import opened Options
  import opened Clock
  import opened PaxosReplica
  import opened PaxosTimed
  import Lease = PaxosLease
  import Log = PaxosLog

  const NOW := Interval(0, 0)
  const VOTE := Vote(1, Some(0), 1)
  const VOTER := FRESH.(term := 1, leader := Some(0), lastVote := VOTE)
  const GRANTS: map<Rid, int> := map[0 := 1, 1 := 1]

  function Winner(role: Role, leaseEnd: int, nextSlot: nat): Replica {
    FRESH.(role := role, term := 1, leader := Some(0), leaseEnd := leaseEnd, lastVote := VOTE, nextSlot := nextSlot)
  }

  /** While the election runs. */
  function Electing(a: Replica, b: Replica, elections: map<Rid, Lease.Election>): System {
    var reps := map[0 := a, 1 := b, 2 := FRESH];
    System(Lease.Cluster(0, reps, elections, map[]), Log.Group(reps, map[], {}, {}), map[])
  }

  /** After it is won. */
  function Leading(nextSlot: nat, session: Log.Session, sent: set<Log.Proposal>): System {
    var reps := map[0 := Winner(Leader, 1, nextSlot), 1 := VOTER, 2 := FRESH];
    System(Lease.Cluster(0, reps, map[], map[0 := GRANTS]), Log.Group(reps, map[1 := session], sent, {}), map[0 := 1])
  }

  function Collecting(heard: set<Rid>): Log.Session {
    Log.Session(0, heard, map[], false, false)
  }

  datatype Trace = Trace(run: seq<System>, steps: seq<Step>) {
    ghost predicate Valid() {
      IsRun(run, steps)
    }

    function Last(): System
      requires run != []
    {
      run[|run| - 1]
    }
  }

  lemma Grow(t: Trace, step: Step, s': System) returns (r: Trace)
    requires t.Valid() && Next(t.Last(), step, s')
    ensures r.Valid() && r.run != [] && r.Last() == s'
  {
    hide Next;
    r := Trace(t.run + [s'], t.steps + [step]);
    forall i | 0 <= i < |r.steps|
      ensures Next(r.run[i], r.steps[i], r.run[i + 1])
    {
      assert i < |t.steps| ==> Next(t.run[i], t.steps[i], t.run[i + 1]);
      assert r.run[i] == t.run[i];
    }
  }

  lemma Begins()
    ensures
      Next(Electing(FRESH, FRESH, map[]), Start(0),
           Electing(FRESH.(role := Candidate, term := 1), FRESH, map[0 := Lease.Election(1, {}, map[])]))
  {
    var reps := map[0 := FRESH, 1 := FRESH, 2 := FRESH];
    var a := FRESH.(role := Candidate, term := 1);
    assert reps[0 := a] == map[0 := a, 1 := FRESH, 2 := FRESH];
  }

  lemma VotesForItself()
    ensures
      Next(Electing(FRESH.(role := Candidate, term := 1), FRESH, map[0 := Lease.Election(1, {}, map[])]),
           Ask(0, 0, true, true, NOW, NOW, 1),
           Electing(Winner(Candidate, 0, 0), FRESH, map[0 := Lease.Election(1, {0}, map[0 := 1])]))
  {
    var a := FRESH.(role := Candidate, term := 1);
    assert OnLeaseVote(0, a, 1, 0, NOW, NOW, 1) == (Winner(Candidate, 0, 0), Some(1));
    hide OnLeaseVote;
    var none: set<Rid> := {};
    assert none + {0} == {0};
    var reps := map[0 := a, 1 := FRESH, 2 := FRESH];
    assert reps[0 := Winner(Candidate, 0, 0)] == map[0 := Winner(Candidate, 0, 0), 1 := FRESH, 2 := FRESH];
  }

  lemma FollowerVotes()
    ensures
      Next(Electing(Winner(Candidate, 0, 0), FRESH, map[0 := Lease.Election(1, {0}, map[0 := 1])]),
           Ask(0, 1, true, true, NOW, NOW, 1),
           Electing(Winner(Candidate, 0, 0), VOTER, map[0 := Lease.Election(1, {0, 1}, GRANTS)]))
  {
    assert OnLeaseVote(1, FRESH, 1, 0, NOW, NOW, 1) == (VOTER, Some(1));
    hide OnLeaseVote;
    assert {0} + {1} == {0, 1};
    var reps := map[0 := Winner(Candidate, 0, 0), 1 := FRESH, 2 := FRESH];
    assert reps[1 := VOTER] == map[0 := Winner(Candidate, 0, 0), 1 := VOTER, 2 := FRESH];
    assert map[0 := 1][1 := 1] == GRANTS;
  }

  lemma RequestIsLost()
    ensures
      Next(Electing(Winner(Candidate, 0, 0), VOTER, map[0 := Lease.Election(1, {0, 1}, GRANTS)]),
           Ask(0, 2, false, false, NOW, NOW, 1),
           Electing(Winner(Candidate, 0, 0), VOTER, map[0 := Lease.Election(1, {0, 1, 2}, GRANTS)]))
  {
    assert {0, 1} + {2} == {0, 1, 2};
    var reps := map[0 := Winner(Candidate, 0, 0), 1 := VOTER, 2 := FRESH];
    assert reps[2 := FRESH] == reps;
  }

  lemma Wins()
    ensures
      Next(Electing(Winner(Candidate, 0, 0), VOTER, map[0 := Lease.Election(1, {0, 1, 2}, GRANTS)]), Finish(0),
           Leading(0, Collecting({}), {}))
  {
    var elections := map[0 := Lease.Election(1, {0, 1, 2}, GRANTS)];
    var reps := map[0 := Winner(Candidate, 0, 0), 1 := VOTER, 2 := FRESH];
    assert reps.Keys == {0, 1, 2} && |reps| == |reps.Keys| == 3;
    assert GRANTS.Keys == {0, 1} && |GRANTS| == |GRANTS.Keys| == 2;
    assert elections - {0} == map[];
    assert reps[0 := Winner(Leader, 1, 0)] == map[0 := Winner(Leader, 1, 0), 1 := VOTER, 2 := FRESH];
  }

  lemma Hears(q: Rid)
    requires q == 0 || q == 1
    ensures
      Next(Leading(0, Collecting(if q == 0 then {} else {0}), {}), Hear(1, q), Leading(0, Collecting(if q == 0 then {0} else {0, 1}), {}))
  {
    var heard: set<Rid> := if q == 0 then {} else {0};
    assert MergeInto(map[], map[]) == map[] && heard + {q} == if q == 0 then {0} else {0, 1};
    hide MergeInto;
  }

  lemma FinishesHearing()
    ensures Next(Leading(0, Collecting({0, 1}), {}), FinishHearing(1, 0), Leading(0, Log.Session(0, {0, 1}, map[], true, false), {}))
  {
    var reps := map[0 := Winner(Leader, 1, 0), 1 := VOTER, 2 := FRESH];
    assert reps.Keys == {0, 1, 2};
    assert reps[0 := Winner(Leader, 1, 0)] == reps;
  }

  lemma GetsReady()
    ensures
      Next(Leading(0, Log.Session(0, {0, 1}, map[], true, false), {}), Ready(1), Leading(0, Log.Session(0, {0, 1}, map[], true, true), {}))
  {
  }

  lemma Proposes()
    ensures
      Next(Leading(0, Log.Session(0, {0, 1}, map[], true, true), {}), Propose(0, NOW, "v"),
           Leading(1, Log.Session(0, {0, 1}, map[], true, true), {Log.Proposal(1, 0, "v")}))
  {
    var reps := map[0 := Winner(Leader, 1, 0), 1 := VOTER, 2 := FRESH];
    assert reps[0 := Winner(Leader, 1, 1)] == map[0 := Winner(Leader, 1, 1), 1 := VOTER, 2 := FRESH];
  }

  lemma Beginning() returns (t: Trace)
    ensures t.Valid() && t.run != [] && t.Last() == Electing(FRESH, FRESH, map[])
  {
    t := Trace([Electing(FRESH, FRESH, map[])], []);
  }

  lemma Elected() returns (t: Trace)
    ensures t.Valid() && t.run != [] && t.Last() == Leading(0, Collecting({}), {})
  {
    hide Next, IsRun, Electing, Leading, Winner;
    t := Beginning();
    Begins();
    VotesForItself();
    FollowerVotes();
    RequestIsLost();
    Wins();
    t := Grow(t, Start(0), Electing(FRESH.(role := Candidate, term := 1), FRESH, map[0 := Lease.Election(1, {}, map[])]));
    t := Grow(t, Ask(0, 0, true, true, NOW, NOW, 1),
              Electing(Winner(Candidate, 0, 0), FRESH, map[0 := Lease.Election(1, {0}, map[0 := 1])]));
    t := Grow(t, Ask(0, 1, true, true, NOW, NOW, 1),
              Electing(Winner(Candidate, 0, 0), VOTER, map[0 := Lease.Election(1, {0, 1}, GRANTS)]));
    t := Grow(t, Ask(0, 2, false, false, NOW, NOW, 1),
              Electing(Winner(Candidate, 0, 0), VOTER, map[0 := Lease.Election(1, {0, 1, 2}, GRANTS)]));
    t := Grow(t, Finish(0), Leading(0, Collecting({}), {}));
  }

  /** A leader elected by two of three proposes under its lease. */
  lemma LeaderProposes() returns (run: seq<System>, steps: seq<Step>)
    ensures IsRun(run, steps) && Log.Proposal(1, 0, "v") in run[|run| - 1].log.sent && run[|run| - 1].log.reps.Keys == {0, 1, 2}
  {
    hide Next, IsRun, Collecting;
    var t := Elected();
    Hears(0);
    Hears(1);
    FinishesHearing();
    GetsReady();
    Proposes();
    t := Grow(t, Hear(1, 0), Leading(0, Collecting({0}), {}));
    t := Grow(t, Hear(1, 1), Leading(0, Collecting({0, 1}), {}));
    t := Grow(t, FinishHearing(1, 0), Leading(0, Log.Session(0, {0, 1}, map[], true, false), {}));
    t := Grow(t, Ready(1), Leading(0, Log.Session(0, {0, 1}, map[], true, true), {}));
    t := Grow(t, Propose(0, NOW, "v"), Leading(1, Log.Session(0, {0, 1}, map[], true, true), {Log.Proposal(1, 0, "v")}));
    run, steps := t.run, t.steps;
  }
}
