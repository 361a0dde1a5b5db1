/**
 Timed leader leases: elections of any number of replicas interleave, requests and replies get lost,
 log messages arrive in between, and every replica reads its own TrueTime. At no real instant do two
 replicas hold a lease.
 */
module PaxosLease {
  import opened Options
  import opened Clock
  import opened PaxosReplica

  datatype Election = Election(term: nat, asked: set<Rid>, grants: map<Rid, int>)

  datatype Cluster = Cluster(
    now: int,
    reps: map<Rid, Replica>,
    elections: map<Rid, Election>,          // request_leadership calls in progress
    backers: map<Rid, map<Rid, int>>)       // history: the grants behind each replica's last win

  datatype Step =
    | Tick(d: nat)
    | Start(r: Rid)
    | Ask(r: Rid, q: Rid, delivered: bool, answered: bool, check: Interval, stamp: Interval, leaseNs: nat)
    | Finish(r: Rid)
    | Accept(q: Rid, term: nat, slot: nat, value: Value)
    | Commit(q: Rid, slot: nat)
    | MoveSlot(q: Rid, n: nat)     // a sync or a proposal moves next_slot

  ghost predicate Next(s: Cluster, step: Step, s': Cluster) {
    match step
    case Tick(d) => s' == s.(now := s.now + d)
    case Start(r) =>
      && r in s.reps && r !in s.elections
      && var x := s.reps[r].(role := Candidate, term := s.reps[r].term + 1);
      && s' == s.(reps := s.reps[r := x], elections := s.elections[r := Election(x.term, {}, map[])])
    case Ask(r, q, delivered, answered, check, stamp, leaseNs) =>
      && r in s.elections && q in s.reps && q !in s.elections[r].asked
      && check.Contains(s.now) && stamp.Contains(s.now)
      && NextAsk(s, r, q, delivered, answered, check, stamp, leaseNs, s')
    case Finish(r) =>
      && r in s.elections && s.elections[r].asked == s.reps.Keys && r in s.reps
      && s'.now == s.now && s'.elections == s.elections - {r}
      && var grants := s.elections[r].grants;
      && var x := s.reps[r];
      && (if |grants| >= QuorumSize(|s.reps|) then
            && r in s'.reps && s' == s.(elections := s'.elections, reps := s'.reps, backers := s.backers[r := grants])
            && s'.reps == s.reps[r := x.(role := Leader, leader := Some(r), leaseEnd := s'.reps[r].leaseEnd)]
            && (forall q | q in grants :: s'.reps[r].leaseEnd <= grants[q])
            && (exists q | q in grants :: s'.reps[r].leaseEnd == grants[q])
          else
            s' == s.(elections := s'.elections, reps := s.reps[r := x.(role := Follower)]))
    case Accept(q, term, slot, value) =>
      q in s.reps && s' == s.(reps := s.reps[q := OnAccept(s.reps[q], term, slot, value).0])
    case Commit(q, slot) =>
      q in s.reps && s' == s.(reps := s.reps[q := OnCommit(s.reps[q], slot)])
    case MoveSlot(q, n) =>
      q in s.reps && s' == s.(reps := s.reps[q := s.reps[q].(nextSlot := n)])
  }

  ghost predicate NextAsk(s: Cluster, r: Rid, q: Rid, delivered: bool, answered: bool,
                          check: Interval, stamp: Interval, leaseNs: nat, s': Cluster)
    requires r in s.elections && q in s.reps
  {
    var e := s.elections[r];
    var (x, granted) := if delivered then OnLeaseVote(q, s.reps[q], e.term, r, check, stamp, leaseNs) else (s.reps[q], None);
    && s'.now == s.now && s'.backers == s.backers
    && s'.reps == s.reps[q := x]
    && s'.elections == s.elections[r := Election(e.term, e.asked + {q},
         if answered && granted.Some? then e.grants[q := granted.value] else e.grants)]
  }

  ghost predicate Init(s: Cluster) {
    && s.elections == map[] && s.backers == map[]
    && forall r | r in s.reps :: s.reps[r] == FRESH
  }

  ghost predicate IsRun(run: seq<Cluster>, steps: seq<Step>) {
    && |run| == |steps| + 1 && Init(run[0])
    && forall i | 0 <= i < |steps| :: Next(run[i], steps[i], run[i + 1])
  }

  // ---------- invariant ----------

  /** q's vote for r up to `end` is still outstanding, or that end has passed. */
  ghost predicate Backed(s: Cluster, r: Rid, q: Rid, end: int) {
    && q in s.reps
    && (s.now > end || (s.reps[q].lastVote.candidate == Some(r) && s.reps[q].lastVote.end >= end))
  }

  ghost predicate ElectionOk(s: Cluster, r: Rid, e: Election) {
    && r in s.reps && s.reps[r].role != Leader && e.grants.Keys <= e.asked
    && forall q | q in e.grants :: Backed(s, r, q, e.grants[q])
  }

  ghost predicate LeaderOk(s: Cluster, r: Rid) {
    && r in s.reps && r in s.backers && |s.backers[r].Keys| >= QuorumSize(|s.reps.Keys|) && s.backers[r].Keys <= s.reps.Keys
    && forall q | q in s.backers[r] :: s.reps[r].leaseEnd <= s.backers[r][q] && Backed(s, r, q, s.backers[r][q])
  }

  ghost predicate Inv(s: Cluster) {
    && (forall r | r in s.elections :: ElectionOk(s, r, s.elections[r]))
    && (forall r | r in s.reps && s.reps[r].role == Leader :: LeaderOk(s, r))
  }

  /** Nothing but a vote for someone else, given after the old end passed, takes backing away. */
  lemma BackedFrame(s: Cluster, s': Cluster, r: Rid, q: Rid, end: int)
    requires Backed(s, r, q, end) && s'.now >= s.now && q in s'.reps
    requires s'.reps[q].lastVote == s.reps[q].lastVote
    ensures Backed(s', r, q, end)
  {
  }

  lemma LogStepKeepsInv(s: Cluster, q: Rid, x: Replica, s': Cluster)
    requires Inv(s) && q in s.reps && s' == s.(reps := s.reps[q := x])
    requires x.role == s.reps[q].role && x.leaseEnd == s.reps[q].leaseEnd && x.lastVote == s.reps[q].lastVote
    ensures Inv(s')
  {
    assert s'.reps.Keys == s.reps.Keys;
    forall r | r in s'.elections
      ensures ElectionOk(s', r, s'.elections[r])
    {
      assert ElectionOk(s, r, s.elections[r]);
    }
    forall r | r in s'.reps && s'.reps[r].role == Leader
      ensures LeaderOk(s', r)
    {
      assert LeaderOk(s, r);
    }
  }

  /** The single-vote rule at work: whatever q answers, every earlier grant stays backed or has expired. */
  lemma VoteKeepsBacking(s: Cluster, q: Rid, term: nat, c: Rid, check: Interval, stamp: Interval, leaseNs: nat,
                         s': Cluster, r: Rid, p: Rid, end: int)
    requires q in s.reps && Backed(s, r, p, end) && check.Contains(s.now)
    requires s'.now == s.now && s'.reps == s.reps[q := OnLeaseVote(q, s.reps[q], term, c, check, stamp, leaseNs).0]
    requires r != c || p != q
    ensures Backed(s', r, p, end)
  {
  }

  lemma AskKeepsInv(s: Cluster, step: Step, s': Cluster)
    requires Inv(s) && step.Ask? && Next(s, step, s')
    ensures Inv(s')
  {
    hide ElectionOk, LeaderOk, Backed;
    AskKeepsBacking(s, step, s');
    AskKeepsRoles(s, step, s');
    assert s'.reps.Keys == s.reps.Keys;
    forall c | c in s'.elections
      ensures ElectionOk(s', c, s'.elections[c])
    {
      ElectionKnown(s, c);
      if c == step.r {
        AskerOk(s, step, s');
      } else {
        ElectionStays(s, s', step.r, step.q, c);
      }
    }
    forall c | c in s'.reps && s'.reps[c].role == Leader
      ensures LeaderOk(s', c)
    {
      ElectionKnown(s, step.r);
      LeaderStays(s, s', step.r, step.q, c);
    }
  }

  /** Grants of everybody but the asked replica to the asking candidate are as good as before. */
  ghost predicate OthersBacked(s: Cluster, s': Cluster, r: Rid, q: Rid) {
    forall c, p, end | Backed(s, c, p, end) && (c != r || p != q) :: Backed(s', c, p, end)
  }

  lemma AskKeepsBacking(s: Cluster, step: Step, s': Cluster)
    requires step.Ask? && Next(s, step, s')
    ensures OthersBacked(s, s', step.r, step.q)
  {
    var Ask(r, q, delivered, answered, check, stamp, leaseNs) := step;
    assert s'.reps.Keys == s.reps.Keys;
    forall c, p, end | Backed(s, c, p, end) && (c != r || p != q)
      ensures Backed(s', c, p, end)
    {
      if delivered {
        VoteKeepsBacking(s, q, s.elections[r].term, r, check, stamp, leaseNs, s', c, p, end);
      }
    }
  }

  lemma AskKeepsRoles(s: Cluster, step: Step, s': Cluster)
    requires step.Ask? && Next(s, step, s')
    ensures forall c | c in s.reps :: c in s'.reps && s'.reps[c].leaseEnd == s.reps[c].leaseEnd
    ensures forall c | c in s.reps :: s'.reps[c].role == Leader ==> s.reps[c].role == Leader
  {
  }

  lemma ElectionStays(s: Cluster, s': Cluster, r: Rid, q: Rid, c: Rid)
    requires OthersBacked(s, s', r, q) && c in s.elections && c != r && ElectionOk(s, c, s.elections[c])
    requires c in s'.reps && (s'.reps[c].role == Leader ==> s.reps[c].role == Leader)
    ensures ElectionOk(s', c, s.elections[c])
  {
    hide Backed;
  }

  lemma LeaderStays(s: Cluster, s': Cluster, r: Rid, q: Rid, c: Rid)
    requires OthersBacked(s, s', r, q) && LeaderOk(s, c) && c != r
    requires s'.backers == s.backers && s'.reps.Keys == s.reps.Keys && s'.reps[c].leaseEnd == s.reps[c].leaseEnd
    ensures LeaderOk(s', c)
  {
    hide Backed;
  }

  /** The candidate's own election: the earlier grants stay, and a new one is what the voter recorded. */
  lemma AskerOk(s: Cluster, step: Step, s': Cluster)
    requires step.Ask? && Next(s, step, s') && ElectionOk(s, step.r, s.elections[step.r])
    ensures ElectionOk(s', step.r, s'.elections[step.r])
  {
    AskKeepsBacking(s, step, s');
    AskKeepsRoles(s, step, s');
  }

  /** What a step that changes no vote leaves in order. */
  lemma VotesUntouched(s: Cluster, s': Cluster, c: Rid)
    requires s'.now >= s.now && s'.reps.Keys == s.reps.Keys && c in s.reps
    requires forall q | q in s.reps :: s'.reps[q].lastVote == s.reps[q].lastVote
    requires s'.reps[c].role == s.reps[c].role && s'.reps[c].leaseEnd == s.reps[c].leaseEnd
    ensures c in s.elections && ElectionOk(s, c, s.elections[c]) ==> ElectionOk(s', c, s.elections[c])
    ensures LeaderOk(s, c) && c in s'.backers && s'.backers[c] == s.backers[c] ==> LeaderOk(s', c)
  {
  }

  lemma WinnerOk(s: Cluster, r: Rid, s': Cluster)
    requires r in s.elections && r in s'.reps && s'.reps.Keys == s.reps.Keys && s'.now == s.now
    requires forall q | q in s.reps :: s'.reps[q].lastVote == s.reps[q].lastVote
    requires ElectionOk(s, r, s.elections[r]) && s.elections[r].asked == s.reps.Keys
    requires |s.elections[r].grants| >= QuorumSize(|s.reps|)
    requires r in s'.backers && s'.backers[r] == s.elections[r].grants
    requires forall q | q in s.elections[r].grants :: s'.reps[r].leaseEnd <= s.elections[r].grants[q]
    ensures LeaderOk(s', r)
  {
    var grants := s.elections[r].grants;
    assert |grants| == |grants.Keys| && |s.reps| == |s.reps.Keys|;
    forall q | q in grants
      ensures Backed(s', r, q, grants[q])
    {
      BackedFrame(s, s', r, q, grants[q]);
    }
  }

  /** A finished election leaves every other replica's election and lease as they were. */
  ghost predicate OnlyFinished(s: Cluster, r: Rid, s': Cluster) {
    && s'.now == s.now && s'.reps.Keys == s.reps.Keys && s'.elections == s.elections - {r}
    && (forall q | q in s.reps :: s'.reps[q].lastVote == s.reps[q].lastVote)
    && (forall c | c in s.reps && c != r :: s'.reps[c] == s.reps[c])
    && (forall c | c in s.backers && c != r :: c in s'.backers && s'.backers[c] == s.backers[c])
  }

  lemma OthersKept(s: Cluster, r: Rid, s': Cluster)
    requires Inv(s) && OnlyFinished(s, r, s')
    ensures forall c | c in s'.elections :: ElectionOk(s', c, s'.elections[c])
    ensures forall c | c in s'.reps && c != r && s'.reps[c].role == Leader :: LeaderOk(s', c)
  {
    hide LeaderOk, ElectionOk;
    forall c | c in s'.elections
      ensures ElectionOk(s', c, s'.elections[c])
    {
      ElectionKnown(s, c);
      VotesUntouched(s, s', c);
    }
    forall c | c in s'.reps && c != r && s'.reps[c].role == Leader
      ensures LeaderOk(s', c)
    {
      assert LeaderOk(s, c);
      LeaderHasBackers(s, c);
      VotesUntouched(s, s', c);
    }
  }

  lemma FinishKeepsInv(s: Cluster, r: Rid, s': Cluster)
    requires Inv(s) && Next(s, Finish(r), s')
    ensures Inv(s')
  {
    hide Next, LeaderOk, ElectionOk;
    var won := FinishFacts(s, r, s');
    OthersKept(s, r, s');
    if won {
      WinnerOk(s, r, s');
    }
  }

  lemma FinishFacts(s: Cluster, r: Rid, s': Cluster) returns (won: bool)
    requires Next(s, Finish(r), s')
    ensures OnlyFinished(s, r, s') && r in s.elections && r in s.reps && s.elections[r].asked == s.reps.Keys
    ensures won ==>
              && |s.elections[r].grants| >= QuorumSize(|s.reps|) && r in s'.backers && s'.backers[r] == s.elections[r].grants
              && forall q | q in s.elections[r].grants :: s'.reps[r].leaseEnd <= s.elections[r].grants[q]
    ensures !won ==> s'.reps[r].role != Leader
  {
    won := |s.elections[r].grants| >= QuorumSize(|s.reps|);
    assert s'.reps.Keys == s.reps.Keys;
  }

  lemma LeaderHasBackers(s: Cluster, c: Rid)
    requires LeaderOk(s, c)
    ensures c in s.backers
  {
  }

  lemma ElectionKnown(s: Cluster, c: Rid)
    requires Inv(s) && c in s.elections
    ensures c in s.reps && s.reps[c].role != Leader
  {
    assert ElectionOk(s, c, s.elections[c]);
  }

  lemma NextKeepsInv(s: Cluster, step: Step, s': Cluster)
    requires Inv(s) && Next(s, step, s')
    ensures Inv(s')
  {
    match step
    case Tick(d) =>
      forall r | r in s'.elections
        ensures ElectionOk(s', r, s'.elections[r])
      {
        assert ElectionOk(s, r, s.elections[r]);
      }
      forall r | r in s'.reps && s'.reps[r].role == Leader
        ensures LeaderOk(s', r)
      {
        assert LeaderOk(s, r);
      }
    case Start(r) =>
      var x := s'.reps[r];
      assert s'.reps.Keys == s.reps.Keys;
      forall c | c in s'.elections
        ensures ElectionOk(s', c, s'.elections[c])
      {
        assert c != r ==> ElectionOk(s, c, s.elections[c]);
      }
      forall c | c in s'.reps && s'.reps[c].role == Leader
        ensures LeaderOk(s', c)
      {
        assert LeaderOk(s, c);
      }
    case Ask(_, _, _, _, _, _, _) => AskKeepsInv(s, step, s');
    case Finish(r) => FinishKeepsInv(s, r, s');
    case Accept(q, term, slot, value) =>
      LogStepKeepsInv(s, q, s'.reps[q], s');
    case Commit(q, slot) =>
      ApplyReadyFacts(s.reps[q].(committed := s.reps[q].committed + {slot}));
      LogStepKeepsInv(s, q, s'.reps[q], s');
    case MoveSlot(q, n) =>
      LogStepKeepsInv(s, q, s'.reps[q], s');
  }

  lemma {:induction false} RunKeepsInv(run: seq<Cluster>, steps: seq<Step>, n: nat)
    requires IsRun(run, steps) && n < |run|
    ensures Inv(run[n])
  {
    if n > 0 {
      RunKeepsInv(run, steps, n - 1);
      NextKeepsInv(run[n - 1], steps[n - 1], run[n]);
    }
  }

  // ---------- result ----------

  /** Lease disjointness: at no real instant do two different replicas both answer has_lease with true. */
  lemma LeasesDisjoint(run: seq<Cluster>, steps: seq<Step>, n: nat, a: Rid, ttA: Interval, b: Rid, ttB: Interval)
    requires IsRun(run, steps) && n < |run| && a in run[n].reps && b in run[n].reps
    requires ttA.Contains(run[n].now) && HasLease(run[n].reps[a], ttA)
    requires ttB.Contains(run[n].now) && HasLease(run[n].reps[b], ttB)
    ensures a == b
  {
    RunKeepsInv(run, steps, n);
    var s := run[n];
    assert LeaderOk(s, a) && LeaderOk(s, b);
    var q := QuorumsMeet(s.reps.Keys, s.backers[a].Keys, s.backers[b].Keys);
    assert Backed(s, a, q, s.backers[a][q]) && Backed(s, b, q, s.backers[b][q]);
  }
}
