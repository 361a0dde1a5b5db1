/**
 A run of module PaxosLog with three replicas and two leaders: the first has a value stored by itself and
 one follower; the second, which never stored it, learns it from that follower and sends it again.
 */
module PaxosInstance {
  import opened Options
  import opened Clock
  import opened PaxosReplica
  import opened PaxosLog

  const EARLY := Interval(0, 0)
  const LATE := Interval(2, 2)
  const CHOSEN := Proposal(1, 0, "v")
  const AGAIN := Proposal(2, 0, "v")
  const LOG: map<nat, Entry> := map[0 := Entry(1, "v")]

  /** The first leader, elected in term 1. */
  function First(role: Role, nextSlot: nat, log: map<nat, Entry>): Replica {
    FRESH.(role := role, leaseEnd := if role == Leader then 1 else 0, term := 1, leader := Some(0), lastVote := Vote(1, Some(0), 1), nextSlot := nextSlot, log := log)
  }

  function Follower1(nextSlot: nat, log: map<nat, Entry>): Replica {
    FRESH.(term := 1, leader := Some(0), lastVote := Vote(1, Some(0), 1), nextSlot := nextSlot, log := log)
  }

  /** The follower after its vote has expired and gone to the second leader. */
  function Follower2(): Replica {
    Follower1(1, LOG).(term := 2, leader := Some(2), lastVote := Vote(2, Some(2), 3))
  }

  function Second(role: Role, nextSlot: nat): Replica {
    FRESH.(role := role, leaseEnd := if role == Leader then 3 else 0, term := 2, leader := Some(2), lastVote := Vote(2, Some(2), 3), nextSlot := nextSlot)
  }

  function Reps(a: Replica, b: Replica, c: Replica): map<Rid, Replica> {
    map[0 := a, 1 := b, 2 := c]
  }

  function Sync(leader: Rid, heard: set<Rid>, merged: map<nat, Entry>): Session {
    Session(leader, heard, merged, false, false)
  }

  // ---------- runs, step by step ----------

  datatype Trace = Trace(run: seq<Group>, steps: seq<Step>) {
    ghost predicate Valid() {
      IsRun(run, steps)
    }

    function Last(): Group
      requires run != []
    {
      run[|run| - 1]
    }
  }

  lemma Grow(t: Trace, step: Step, s': Group) returns (r: Trace)
    requires t.Valid() && Next(t.Last(), step, s')
    ensures r.Valid() && r.run != [] && r.Last() == s'
  {
    hide Next;
    r := Trace(t.run + [s'], t.steps + [step]);
    forall i | 0 <= i < |r.steps|
      ensures Next(r.run[i], r.steps[i], r.run[i + 1])
    {
      assert i < |t.steps| ==> Next(t.run[i], t.steps[i], t.run[i + 1]);
      assert r.run[i] == t.run[i];
    }
  }

  // ---------- the first leader ----------

  /** Before anything is proposed. */
  function Opening(a: Replica, b: Replica, sessions: map<nat, Session>): Group {
    Group(Reps(a, b, FRESH), sessions, {}, {})
  }

  lemma FirstCampaigns()
    ensures Next(Opening(FRESH, FRESH, map[]), Campaign(0), Opening(FRESH.(role := Candidate, term := 1), FRESH, map[]))
  {
  }

  lemma FirstVotesForItself()
    ensures
      Next(Opening(FRESH.(role := Candidate, term := 1), FRESH, map[]), GrantVote(0, 1, 0, EARLY, EARLY, 1),
           Opening(First(Candidate, 0, map[]), FRESH, map[]))
  {
    assert OnLeaseVote(0, FRESH.(role := Candidate, term := 1), 1, 0, EARLY, EARLY, 1).0 == First(Candidate, 0, map[]);
  }

  lemma FollowerVotes()
    ensures
      Next(Opening(First(Candidate, 0, map[]), FRESH, map[]), GrantVote(1, 1, 0, EARLY, EARLY, 1), Opening(First(Candidate, 0, map[]), Follower1(0, map[]), map[]))
  {
    assert OnLeaseVote(1, FRESH, 1, 0, EARLY, EARLY, 1).0 == Follower1(0, map[]);
  }

  lemma FirstStarts()
    ensures
      Next(Opening(First(Candidate, 0, map[]), Follower1(0, map[]), map[]), StartSync(0, 1, 1),
           Opening(First(Leader, 0, map[]), Follower1(0, map[]), map[1 := Sync(0, {}, map[])]))
  {
  }

  lemma FirstHears(q: Rid)
    requires q == 0 || q == 1
    ensures
      Next(Opening(First(Leader, 0, map[]), Follower1(0, map[]), map[1 := Sync(0, if q == 0 then {} else {0}, map[])]), Hear(1, q),
           Opening(First(Leader, 0, map[]), Follower1(0, map[]), map[1 := Sync(0, if q == 0 then {0} else {0, 1}, map[])]))
  {
    var heard: set<Rid> := if q == 0 then {} else {0};
    assert MergeInto(map[], map[]) == map[] && heard + {q} == if q == 0 then {0} else {0, 1};
    hide MergeInto;
  }

  lemma FirstFinishes()
    ensures
      Next(Opening(First(Leader, 0, map[]), Follower1(0, map[]), map[1 := Sync(0, {0, 1}, map[])]), FinishHearing(1, 0),
           Opening(First(Leader, 0, map[]), Follower1(0, map[]), map[1 := Session(0, {0, 1}, map[], true, false)]))
  {
    assert Opening(First(Leader, 0, map[]), Follower1(0, map[]), map[1 := Sync(0, {0, 1}, map[])]).reps.Keys == {0, 1, 2};
  }

  lemma FirstReady()
    ensures
      Next(Opening(First(Leader, 0, map[]), Follower1(0, map[]), map[1 := Session(0, {0, 1}, map[], true, false)]), Ready(1),
           Opening(First(Leader, 0, map[]), Follower1(0, map[]), Sessions1()))
  {
  }

  lemma Beginning() returns (t: Trace)
    ensures t.Valid() && t.run != [] && t.Last() == Opening(FRESH, FRESH, map[])
  {
    t := Trace([Opening(FRESH, FRESH, map[])], []);
    hide Next;
    assert forall r | r in Reps(FRESH, FRESH, FRESH) :: Reps(FRESH, FRESH, FRESH)[r] == FRESH;
  }

  lemma Voted() returns (t: Trace)
    ensures t.Valid() && t.run != [] && t.Last() == Opening(First(Candidate, 0, map[]), Follower1(0, map[]), map[])
  {
    t := Beginning();
    FirstCampaigns();
    FirstVotesForItself();
    FollowerVotes();
    hide Next, IsRun, Opening, First, Follower1;
    t := Grow(t, Campaign(0), Opening(FRESH.(role := Candidate, term := 1), FRESH, map[]));
    t := Grow(t, GrantVote(0, 1, 0, EARLY, EARLY, 1), Opening(First(Candidate, 0, map[]), FRESH, map[]));
    t := Grow(t, GrantVote(1, 1, 0, EARLY, EARLY, 1), Opening(First(Candidate, 0, map[]), Follower1(0, map[]), map[]));
  }

  lemma Elected() returns (t: Trace)
    ensures t.Valid() && t.run != [] && t.Last() == Opening(First(Leader, 0, map[]), Follower1(0, map[]), Sessions1())
  {
    t := Voted();
    FirstStarts();
    FirstHears(0);
    FirstHears(1);
    FirstFinishes();
    FirstReady();
    var a, b := First(Leader, 0, map[]), Follower1(0, map[]);
    hide Next, IsRun, Opening, First, Follower1, Sync, Sessions1;
    t := Grow(t, StartSync(0, 1, 1), Opening(a, b, map[1 := Sync(0, {}, map[])]));
    t := Grow(t, Hear(1, 0), Opening(a, b, map[1 := Sync(0, {0}, map[])]));
    t := Grow(t, Hear(1, 1), Opening(a, b, map[1 := Sync(0, {0, 1}, map[])]));
    t := Grow(t, FinishHearing(1, 0), Opening(a, b, map[1 := Session(0, {0, 1}, map[], true, false)]));
    t := Grow(t, Ready(1), Opening(a, b, Sessions1()));
  }

  // ---------- the value is chosen ----------

  function Sessions1(): map<nat, Session> {
    map[1 := Session(0, {0, 1}, map[], true, true)]
  }

  /** Proposed, and stored by some. */
  function Choosing(a: Replica, b: Replica, acks: set<Ack>): Group {
    Group(Reps(a, b, FRESH), Sessions1(), {CHOSEN}, acks)
  }

  lemma FirstProposes()
    ensures
      Next(Opening(First(Leader, 0, map[]), Follower1(0, map[]), Sessions1()), Propose(1, "v"), Choosing(First(Leader, 1, map[]), Follower1(0, map[]), {}))
  {
    assert Leads(Opening(First(Leader, 0, map[]), Follower1(0, map[]), Sessions1()), 1);
  }

  lemma FirstStores()
    ensures
      Next(Choosing(First(Leader, 1, map[]), Follower1(0, map[]), {}), Deliver(CHOSEN, 0),
           Choosing(First(Leader, 1, LOG), Follower1(0, map[]), {Ack(0, CHOSEN)}))
  {
    assert OnAccept(First(Leader, 1, map[]), 1, 0, "v") == (First(Leader, 1, LOG), true);
    hide OnAccept;
  }

  lemma FollowerStores()
    ensures
      Next(Choosing(First(Leader, 1, LOG), Follower1(0, map[]), {Ack(0, CHOSEN)}), Deliver(CHOSEN, 1), Chose(Follower1(1, LOG), FRESH, map[]))
  {
    assert OnAccept(Follower1(0, map[]), 1, 0, "v") == (Follower1(1, LOG), true);
    hide OnAccept;
    assert {Ack(0, CHOSEN)} + {Ack(1, CHOSEN)} == {Ack(0, CHOSEN), Ack(1, CHOSEN)};
    assert Sessions1() + map[] == Sessions1();
  }

  function Chose(b: Replica, c: Replica, second: map<nat, Session>): Group {
    Group(Reps(First(Leader, 1, LOG), b, c), Sessions1() + second, {CHOSEN}, {Ack(0, CHOSEN), Ack(1, CHOSEN)})
  }

  lemma ChosenInTime() returns (t: Trace)
    ensures t.Valid() && t.run != [] && t.Last() == Chose(Follower1(1, LOG), FRESH, map[])
  {
    t := Elected();
    FirstProposes();
    FirstStores();
    FollowerStores();
    hide Next, IsRun, Opening, First, Follower1, Choosing, Chose, Sessions1;
    t := Grow(t, Propose(1, "v"), Choosing(First(Leader, 1, map[]), Follower1(0, map[]), {}));
    t := Grow(t, Deliver(CHOSEN, 0), Choosing(First(Leader, 1, LOG), Follower1(0, map[]), {Ack(0, CHOSEN)}));
    t := Grow(t, Deliver(CHOSEN, 1), Chose(Follower1(1, LOG), FRESH, map[]));
  }

  // ---------- the second leader ----------

  lemma SecondCampaigns(term: nat)
    ensures
      var b, c := Follower1(1, LOG), FRESH.(role := Candidate);
      Next(Chose(b, if term == 0 then FRESH else c.(term := term), map[]), Campaign(2), Chose(b, c.(term := term + 1), map[]))
  {
    hide Sessions1;
    var b, c := Follower1(1, LOG), FRESH.(role := Candidate);
    assert Reps(First(Leader, 1, LOG), b, FRESH)[2 := c.(term := term + 1)] == Reps(First(Leader, 1, LOG), b, c.(term := term + 1));
  }

  lemma SecondVotesForItself()
    ensures
      Next(Chose(Follower1(1, LOG), FRESH.(role := Candidate, term := 2), map[]), GrantVote(2, 2, 2, LATE, LATE, 1),
           Chose(Follower1(1, LOG), Second(Candidate, 0), map[]))
  {
    hide Sessions1;
    assert OnLeaseVote(2, FRESH.(role := Candidate, term := 2), 2, 2, LATE, LATE, 1).0 == Second(Candidate, 0);
  }

  lemma FollowerChangesSides()
    ensures
      Next(Chose(Follower1(1, LOG), Second(Candidate, 0), map[]), GrantVote(1, 2, 2, LATE, LATE, 1), Chose(Follower2(), Second(Candidate, 0), map[]))
  {
    hide Sessions1;
    assert OnLeaseVote(1, Follower1(1, LOG), 2, 2, LATE, LATE, 1).0 == Follower2();
  }

  lemma SecondStarts()
    ensures Next(Chose(Follower2(), Second(Candidate, 0), map[]), StartSync(2, 2, 3), Chose(Follower2(), Second(Leader, 0), map[2 := Sync(2, {}, map[])]))
  {
    assert (Sessions1() + map[])[2 := Sync(2, {}, map[])] == Sessions1() + map[2 := Sync(2, {}, map[])];
    assert (Sessions1() + map[]).Keys == {1};
  }

  /** One more replica of the second leader's quorum answers. */
  lemma SecondHears(q: Rid)
    requires q == 1 || q == 2
    ensures
      var before, after := if q == 1 then Sync(2, {}, map[]) else Sync(2, {1}, LOG), Sync(2, if q == 1 then {1} else {1, 2}, LOG);
      Next(Chose(Follower2(), Second(Leader, 0), map[2 := before]), Hear(2, q), Chose(Follower2(), Second(Leader, 0), map[2 := after]))
  {
    var before, after := if q == 1 then Sync(2, {}, map[]) else Sync(2, {1}, LOG), Sync(2, if q == 1 then {1} else {1, 2}, LOG);
    assert MergeInto(map[], LOG) == LOG && MergeInto(LOG, map[]) == LOG;
    assert before.heard + {q} == after.heard;
    hide MergeInto;
    assert (Sessions1() + map[2 := before])[2 := after] == Sessions1() + map[2 := after];
  }

  lemma SecondFinishes()
    ensures
      Next(Chose(Follower2(), Second(Leader, 0), map[2 := Sync(2, {1, 2}, LOG)]), FinishHearing(2, 1),
           Chose(Follower2(), Second(Leader, 1), map[2 := Session(2, {1, 2}, LOG, true, false)]))
  {
    var before, after := Sync(2, {1, 2}, LOG), Session(2, {1, 2}, LOG, true, false);
    assert Chose(Follower2(), Second(Leader, 0), map[2 := before]).reps.Keys == {0, 1, 2};
    assert 0 in before.merged;
    assert (Sessions1() + map[2 := before])[2 := after] == Sessions1() + map[2 := after];
  }

  lemma SecondSends()
    ensures
      var s := Chose(Follower2(), Second(Leader, 1), map[2 := Session(2, {1, 2}, LOG, true, false)]);
      Next(s, SyncSend(2, 0), s.(sent := {CHOSEN, AGAIN}))
  {
    assert {CHOSEN} + {AGAIN} == {CHOSEN, AGAIN};
    hide Follower2, Second;
  }

  /** The last state. */
  function Passed(): Group {
    Chose(Follower2(), Second(Leader, 1), map[2 := Session(2, {1, 2}, LOG, true, false)]).(sent := {CHOSEN, AGAIN})
  }

  lemma PassedFacts()
    ensures
      && Passed().reps.Keys == {0, 1, 2} && 0 !in Passed().reps[2].log
      && 2 in Passed().sessions && Passed().sessions[2].leader == 2 && AGAIN in Passed().sent
  {
  }

  lemma ChosenByQuorum()
    ensures Chosen(Passed(), {0, 1}, CHOSEN)
  {
    assert Passed().reps.Keys == {0, 1, 2} && Passed().acks == {Ack(0, CHOSEN), Ack(1, CHOSEN)};
    hide Passed;
    assert |{0, 1}| == 2 && |{0, 1, 2}| == 3;
  }

  /** Both leaders won a quorum of three, the second without having stored the value, and it sends the value on. */
  lemma ValueIsPassedOn() returns (run: seq<Group>, steps: seq<Step>)
    ensures IsRun(run, steps)
    ensures
      var last := run[|run| - 1];
      && last.reps.Keys == {0, 1, 2} && 0 !in last.reps[2].log && 2 in last.sessions && last.sessions[2].leader == 2
      && Chosen(last, {0, 1}, CHOSEN) && AGAIN in last.sent
  {
    var t := ChosenInTime();
    t := SecondElected(t);
    SecondStarts();
    SecondHears(1);
    SecondHears(2);
    SecondFinishes();
    SecondSends();
    PassedFacts();
    ChosenByQuorum();
    hide Next, IsRun, Chosen, Follower2, Second, Chose, Sync;
    t := Grow(t, StartSync(2, 2, 3), Chose(Follower2(), Second(Leader, 0), map[2 := Sync(2, {}, map[])]));
    t := Grow(t, Hear(2, 1), Chose(Follower2(), Second(Leader, 0), map[2 := Sync(2, {1}, LOG)]));
    t := Grow(t, Hear(2, 2), Chose(Follower2(), Second(Leader, 0), map[2 := Sync(2, {1, 2}, LOG)]));
    t := Grow(t, FinishHearing(2, 1), Chose(Follower2(), Second(Leader, 1), map[2 := Session(2, {1, 2}, LOG, true, false)]));
    t := Grow(t, SyncSend(2, 0), Passed());
    run, steps := t.run, t.steps;
  }

  lemma SecondElected(t: Trace) returns (r: Trace)
    requires t.Valid() && t.run != [] && t.Last() == Chose(Follower1(1, LOG), FRESH, map[])
    ensures r.Valid() && r.run != [] && r.Last() == Chose(Follower2(), Second(Candidate, 0), map[])
  {
    SecondCampaigns(0);
    SecondCampaigns(1);
    SecondVotesForItself();
    FollowerChangesSides();
    var b, c := Follower1(1, LOG), FRESH.(role := Candidate);
    hide Next, IsRun, Follower1, Follower2, Second, Chose;
    r := Grow(t, Campaign(2), Chose(b, c.(term := 1), map[]));
    r := Grow(r, Campaign(2), Chose(b, c.(term := 2), map[]));
    r := Grow(r, GrantVote(2, 2, 2, LATE, LATE, 1), Chose(b, Second(Candidate, 0), map[]));
    r := Grow(r, GrantVote(1, 2, 2, LATE, LATE, 1), Chose(Follower2(), Second(Candidate, 0), map[]));
  }

  // ---------- without the guards ----------

  /**
   Terms of won elections need not increase: once a vote has expired, a candidate that never heard of term 1
   wins it again. If the first winner checked its lease in time but sends only now, both winners find a
   quorum storing their value at the same term and slot.
   */
  lemma OneTermTwice()
    ensures
      var candidate := FRESH.(role := Candidate, term := 1);
      var (a, voteA) := OnLeaseVote(0, candidate, 1, 0, EARLY, EARLY, 1);
      var (b, voteB) := OnLeaseVote(1, FRESH, 1, 0, EARLY, EARLY, 1);
      var (c, voteC) := OnLeaseVote(2, candidate, 1, 2, LATE, LATE, 1);
      var (b', voteB') := OnLeaseVote(1, b, 1, 2, LATE, LATE, 1);
      && voteA.Some? && voteB.Some? && voteC.Some? && voteB'.Some? && QuorumSize(3) == 2
      && HasLease(a.(role := Leader, leaseEnd := voteB.value), EARLY)
      && HasLease(c.(role := Leader, leaseEnd := voteB'.value), LATE)
      && a.nextSlot == c.nextSlot == 0
      && OnAccept(a, 1, 0, "v").1 && OnAccept(b', 1, 0, "v").1
      && OnAccept(c, 1, 0, "w").1 && OnAccept(OnAccept(b', 1, 0, "v").0, 1, 0, "w").1
  {
    var candidate := FRESH.(role := Candidate, term := 1);
    var (b, voteB) := OnLeaseVote(1, FRESH, 1, 0, EARLY, EARLY, 1);
    assert b.lastVote == Vote(1, Some(0), 1) && LATE.After(1);
  }
}
