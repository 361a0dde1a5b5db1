/**
 Leases and log together: one run of module PaxosLease and one of module PaxosLog over the same replicas.
 A leader proposes and re-drives under whatever term it is in, as long as it has its lease. That this is the
 term it won, a guard in PaxosLog, is derived here from the lease, for elections in which the candidate's own
 vote was among the grants.
 */
module PaxosTimed {
  import opened Options
  import opened Clock
  import opened PaxosReplica
  import Lease = PaxosLease
  import Log = PaxosLog

  datatype System = System(
    lease: Lease.Cluster,
    log: Log.Group,           // over the same replicas
    won: map<Rid, nat>)       // the term of each replica's last won election

  datatype Step =
    | Tick(d: nat)
    | Start(r: Rid)
    | Ask(r: Rid, q: Rid, delivered: bool, answered: bool, check: Interval, stamp: Interval, leaseNs: nat)
    | Finish(r: Rid)
    | Hear(t: nat, q: Rid)
    | FinishHearing(t: nat, nextSlot: nat)
    | SyncSend(t: nat, slot: nat)
    | Ready(t: nat)
    | Propose(r: Rid, tt: Interval, value: Value)
    | Redrive(r: Rid, tt: Interval, slot: nat)
    | Deliver(p: Log.Proposal, q: Rid)
    | Commit(q: Rid, slot: nat)

  /** has_lease when the slot is taken; guard: the sync of the won election is over. */
  ghost predicate MayPropose(s: System, r: Rid, tt: Interval) {
    && r in s.log.reps && tt.Contains(s.lease.now) && HasLease(s.log.reps[r], tt)
    && r in s.won && s.won[r] in s.log.sessions && s.log.sessions[s.won[r]].ready
  }

  /** The step's part of the lease machine, if it has one. */
  function LeaseStep(s: System, step: Step): Option<Lease.Step> {
    match step
    case Tick(d) => Some(Lease.Tick(d))
    case Start(r) => Some(Lease.Start(r))
    case Ask(r, q, delivered, answered, check, stamp, leaseNs) =>
      Some(Lease.Ask(r, q, delivered, answered, check, stamp, leaseNs))
    case Finish(r) => Some(Lease.Finish(r))
    case FinishHearing(t, n) => if t in s.log.sessions then Some(Lease.MoveSlot(s.log.sessions[t].leader, n)) else None
    case Propose(r, _, _) => if r in s.log.reps then Some(Lease.MoveSlot(r, s.log.reps[r].nextSlot + 1)) else None
    case Deliver(p, q) => Some(Lease.Accept(q, p.term, p.slot, p.value))
    case Commit(q, slot) => Some(Lease.Commit(q, slot))
    case _ => None
  }

  ghost predicate Next(s: System, step: Step, s': System) {
    && s'.lease.reps == s'.log.reps
    && (!step.Finish? ==> s'.won == s.won)
    && match step
       case Tick(_) => Lease.Next(s.lease, LeaseStep(s, step).value, s'.lease) && s'.log == s.log
       case Start(_) => Lease.Next(s.lease, LeaseStep(s, step).value, s'.lease) && OnlyReplicas(s, s')
       case Ask(_, _, _, _, _, _, _) => Lease.Next(s.lease, LeaseStep(s, step).value, s'.lease) && OnlyReplicas(s, s')
       case Finish(r) =>
         && Lease.Next(s.lease, Lease.Finish(r), s'.lease)
         && if Wins(s, r) then Won(s, r, s') else OnlyReplicas(s, s') && s'.won == s.won
       case Hear(t, q) => Log.Next(s.log, Log.Hear(t, q), s'.log) && s'.lease == s.lease
       case FinishHearing(t, n) => Log.Next(s.log, Log.FinishHearing(t, n), s'.log) && s'.lease == s.lease.(reps := s'.lease.reps)
       case SyncSend(t, slot) => Log.Next(s.log, Log.SyncSend(t, slot), s'.log) && s'.lease == s.lease
       case Ready(t) => Log.Next(s.log, Log.Ready(t), s'.log) && s'.lease == s.lease
       case Propose(r, tt, value) =>
         MayPropose(s, r, tt) && Log.Proposes(s.log, r, value, s'.log) && s'.lease == s.lease.(reps := s'.lease.reps)
       case Redrive(r, tt, slot) =>
         MayPropose(s, r, tt) && Log.Redrives(s.log, r, slot, s'.log) && s'.lease == s.lease
       case Deliver(p, q) => Log.Next(s.log, Log.Deliver(p, q), s'.log) && s'.lease == s.lease.(reps := s'.lease.reps)
       case Commit(q, slot) => Log.Next(s.log, Log.Commit(q, slot), s'.log) && s'.lease == s.lease.(reps := s'.lease.reps)
  }

  ghost predicate OnlyReplicas(s: System, s': System) {
    s'.log == s.log.(reps := s'.lease.reps)
  }

  ghost predicate Wins(s: System, r: Rid) {
    r in s.lease.elections && |s.lease.elections[r].grants| >= QuorumSize(|s.lease.reps|)
  }

  ghost predicate Won(s: System, r: Rid, s': System)
    requires r in s.lease.elections
  {
    var e := s.lease.elections[r];
    && r in e.grants                                    // guard: the candidate's request to itself succeeds
    && (forall u | u in s.log.sessions :: u < e.term)   // guard: terms of won elections strictly increase
    && r in s'.lease.reps && Log.Starts(s.log, r, e.term, s'.lease.reps[r].leaseEnd, s'.log)
    && s'.won == s.won[r := e.term]
  }

  ghost predicate Init(s: System) {
    Lease.Init(s.lease) && Log.Init(s.log) && s.lease.reps == s.log.reps && s.won == map[]
  }

  ghost predicate IsRun(run: seq<System>, steps: seq<Step>) {
    && |run| == |steps| + 1 && Init(run[0])
    && forall i | 0 <= i < |steps| :: Next(run[i], steps[i], run[i + 1])
  }

  // ---------- invariant ----------

  /** The candidate voted for itself, and the vote is running: only an accept of a won term can have raised its own. */
  ghost predicate CandidateOk(s: System, r: Rid, e: Lease.Election) {
    && r in s.log.reps && e.term <= s.log.reps[r].term
    && (forall q | q in e.grants && q in s.log.reps :: e.term <= s.log.reps[q].term)
    && (r in e.grants && s.lease.now <= e.grants[r] ==> s.log.reps[r].term == e.term || s.log.reps[r].term in s.log.sessions)
  }

  /** A voter whose vote for this election is running granted no other one in progress a later term. */
  ghost predicate Outvotes(s: System, grants: map<Rid, int>, term: nat, e: Lease.Election) {
    forall q | q in grants && q in e.grants && s.lease.now <= grants[q] :: e.term <= term
  }

  /** While its lease runs a leader is in the term it won, nobody has won a later one, and its voters block whoever tries. */
  ghost predicate LeaderOk(s: System, r: Rid)
    requires r in s.log.reps
  {
    && r in s.won && s.won[r] in s.log.sessions && s.log.sessions[s.won[r]].leader == r && r in s.lease.backers
    && (s.lease.now < s.log.reps[r].leaseEnd ==>
          && s.log.reps[r].term == s.won[r] && (forall u | u in s.log.sessions :: u <= s.won[r])
          && forall c | c in s.lease.elections :: Outvotes(s, s.lease.backers[r], s.won[r], s.lease.elections[c]))
  }

  ghost predicate RivalsOk(s: System) {
    forall r, c | r in s.lease.elections && c in s.lease.elections && r != c ::
      Outvotes(s, s.lease.elections[r].grants, s.lease.elections[r].term, s.lease.elections[c])
  }

  ghost predicate TermsOk(s: System) {
    && (forall r | r in s.lease.elections :: CandidateOk(s, r, s.lease.elections[r])) && RivalsOk(s)
    && (forall r | r in s.log.reps && s.log.reps[r].role == Leader :: LeaderOk(s, r))
  }

  ghost predicate Inv(s: System) {
    s.lease.reps == s.log.reps && Lease.Inv(s.lease) && Log.Inv(s.log) && TermsOk(s)
  }

  // ---------- both parts are steps of their machines ----------

  /** The step's part of the log machine, if it has one. */
  function LogStep(s: System, step: Step, s': System): Option<Log.Step> {
    match step
    case Tick(_) => None
    case Start(r) => Some(Log.Campaign(r))
    case Ask(r, q, delivered, _, check, stamp, leaseNs) =>
      if delivered && r in s.lease.elections then Some(Log.GrantVote(q, s.lease.elections[r].term, r, check, stamp, leaseNs)) else None
    case Finish(r) =>
      if r in s.lease.elections && |s.lease.elections[r].grants| >= QuorumSize(|s.lease.reps|) && r in s'.lease.reps
      then Some(Log.StartSync(r, s.lease.elections[r].term, s'.lease.reps[r].leaseEnd)) else Some(Log.Lose(r))
    case Hear(t, q) => Some(Log.Hear(t, q))
    case FinishHearing(t, n) => Some(Log.FinishHearing(t, n))
    case SyncSend(t, slot) => Some(Log.SyncSend(t, slot))
    case Ready(t) => Some(Log.Ready(t))
    case Propose(r, _, value) => if r in s.won then Some(Log.Propose(s.won[r], value)) else None
    case Redrive(r, _, slot) => if r in s.won then Some(Log.Redrive(s.won[r], slot)) else None
    case Deliver(p, q) => Some(Log.Deliver(p, q))
    case Commit(q, slot) => Some(Log.Commit(q, slot))
  }

  /** The lease is why a proposal meets the log machine's guard on the leader's term. */
  lemma LeaseGivesTerm(s: System, r: Rid, tt: Interval)
    requires TermsOk(s) && MayPropose(s, r, tt)
    ensures Log.Leads(s.log, s.won[r]) && s.log.sessions[s.won[r]].leader == r
  {
    assert LeaderOk(s, r);
  }

  /** Every step is a step of the log machine, guards included, or leaves the log alone. */
  lemma RefinesLog(s: System, step: Step, s': System)
    requires Inv(s) && Next(s, step, s')
    ensures s'.log == s.log || (LogStep(s, step, s').Some? && Log.Next(s.log, LogStep(s, step, s').value, s'.log))
  {
    hide Lease.Inv, Log.Inv, TermsOk;
    match step
    case Tick(_) =>
    case Start(r) => StartIsCampaign(s, r, s');
    case Ask(_, _, _, _, _, _, _) => AskIsVote(s, step, s');
    case Finish(r) => FinishStartsOrLoses(s, r, s');
    case Propose(_, _, _) => SendIsInTerm(s, step, s');
    case Redrive(_, _, _) => SendIsInTerm(s, step, s');
    case _ => OthersAreLogSteps(s, step, s');
  }

  lemma StartIsCampaign(s: System, r: Rid, s': System)
    requires s.lease.reps == s.log.reps && Next(s, Start(r), s')
    ensures Log.Next(s.log, Log.Campaign(r), s'.log)
  {
  }

  lemma AskIsVote(s: System, step: Step, s': System)
    requires s.lease.reps == s.log.reps && step.Ask? && Next(s, step, s')
    ensures s'.log == s.log || (LogStep(s, step, s').Some? && Log.Next(s.log, LogStep(s, step, s').value, s'.log))
  {
    hide OnLeaseVote;
    if !step.delivered {
      assert s'.lease.reps == s.lease.reps;
    }
  }

  lemma FinishStartsOrLoses(s: System, r: Rid, s': System)
    requires s.lease.reps == s.log.reps && TermsOk(s) && Next(s, Finish(r), s')
    ensures LogStep(s, Finish(r), s').Some? && Log.Next(s.log, LogStep(s, Finish(r), s').value, s'.log)
  {
    assert CandidateOk(s, r, s.lease.elections[r]);
    hide TermsOk;
  }

  lemma SendIsInTerm(s: System, step: Step, s': System)
    requires TermsOk(s) && (step.Propose? || step.Redrive?) && Next(s, step, s')
    ensures LogStep(s, step, s').Some? && Log.Next(s.log, LogStep(s, step, s').value, s'.log)
  {
    hide TermsOk;
    LeaseGivesTerm(s, step.r, step.tt);
    hide MayPropose;
  }

  lemma OthersAreLogSteps(s: System, step: Step, s': System)
    requires Next(s, step, s')
    requires step.Hear? || step.FinishHearing? || step.SyncSend? || step.Ready? || step.Deliver? || step.Commit?
    ensures LogStep(s, step, s').Some? && Log.Next(s.log, LogStep(s, step, s').value, s'.log)
  {
    hide Log.Next, Lease.Next;
  }

  lemma RefinesLease(s: System, step: Step, s': System)
    requires s.lease.reps == s.log.reps && Next(s, step, s')
    ensures s'.lease == s.lease || (LeaseStep(s, step).Some? && Lease.Next(s.lease, LeaseStep(s, step).value, s'.lease))
  {
  }

  // ---------- the invariant is kept ----------

  /** No election begins or ends, and a replica's term rises at most to that of a won election. */
  ghost predicate Quiet(s: System, s': System) {
    && s'.log.reps.Keys == s.log.reps.Keys
    && s'.lease.now >= s.lease.now && s'.lease.elections == s.lease.elections && s'.won == s.won
    && s'.lease.backers == s.lease.backers && s'.log.sessions.Keys == s.log.sessions.Keys
    && (forall t | t in s.log.sessions :: s'.log.sessions[t].leader == s.log.sessions[t].leader)
    && forall r | r in s.log.reps :: QuietReplica(s, s.log.reps[r], s'.log.reps[r])
  }

  ghost predicate QuietReplica(s: System, x: Replica, x': Replica) {
    && x'.role == x.role && x'.leaseEnd == x.leaseEnd
    && (x'.term == x.term || (x.term <= x'.term && x'.term in s.log.sessions))
  }

  lemma QuietKeepsTerms(s: System, s': System)
    requires TermsOk(s) && Quiet(s, s')
    ensures TermsOk(s')
  {
    forall r | r in s'.lease.elections
      ensures CandidateOk(s', r, s'.lease.elections[r])
    {
      assert CandidateOk(s, r, s.lease.elections[r]);
      assert QuietReplica(s, s.log.reps[r], s'.log.reps[r]);
      assert forall q | q in s.log.reps :: QuietReplica(s, s.log.reps[q], s'.log.reps[q]);
    }
    forall r | r in s'.log.reps && s'.log.reps[r].role == Leader
      ensures LeaderOk(s', r)
    {
      assert QuietReplica(s, s.log.reps[r], s'.log.reps[r]);
      assert LeaderOk(s, r);
    }
  }

  lemma LogStepIsQuiet(s: System, step: Step, s': System)
    requires Next(s, step, s')
    requires step.Hear? || step.FinishHearing? || step.SyncSend? || step.Ready? || step.Propose? || step.Redrive?
    ensures Quiet(s, s')
  {
    assert s'.log.reps.Keys == s.log.reps.Keys;
  }

  lemma CommitIsQuiet(s: System, q: Rid, slot: nat, s': System)
    requires Next(s, Commit(q, slot), s')
    ensures Quiet(s, s')
  {
    hide Lease.Next;
    ApplyReadyFacts(s.log.reps[q].(committed := s.log.reps[q].committed + {slot}));
    assert s'.log.reps.Keys == s.log.reps.Keys;
  }

  /** Accepting a proposal moves a replica at most to the term of a won election. */
  lemma DeliverIsQuiet(s: System, p: Log.Proposal, q: Rid, s': System)
    requires Log.Inv(s.log) && Next(s, Deliver(p, q), s')
    ensures Quiet(s, s')
  {
    hide Log.Inv, Lease.Next;
    SentHasSession(s.log, p);
    assert s'.log.reps.Keys == s.log.reps.Keys;
  }

  lemma SentHasSession(g: Log.Group, p: Log.Proposal)
    requires Log.Inv(g)
    ensures p in g.sent ==> p.term in g.sessions
  {
    assert p in g.sent ==> Log.SentOk(g, p);
  }

  /** Replica r began an election, or lost the one it had; it is not a leader now. */
  ghost predicate Unseated(s: System, r: Rid, s': System) {
    && r in s.log.reps && s'.log.reps.Keys == s.log.reps.Keys && s'.log.sessions == s.log.sessions && s'.won == s.won
    && s'.lease.now == s.lease.now && s'.lease.backers == s.lease.backers
    && (forall c | c in s.log.reps && c != r :: s'.log.reps[c] == s.log.reps[c])
    && s.log.reps[r].term <= s'.log.reps[r].term && s'.log.reps[r].role != Leader
    && (forall c | c in s'.lease.elections && c != r :: c in s.lease.elections && s'.lease.elections[c] == s.lease.elections[c])
    && (r in s'.lease.elections ==> s'.lease.elections[r].grants == map[] && s'.lease.elections[r].term == s'.log.reps[r].term)
  }

  lemma UnseatedKeepsTerms(s: System, r: Rid, s': System)
    requires TermsOk(s) && Unseated(s, r, s')
    ensures TermsOk(s')
  {
    UnseatedCandidates(s, r, s');
    hide CandidateOk, RivalsOk;
    forall c | c in s'.log.reps && s'.log.reps[c].role == Leader
      ensures LeaderOk(s', c)
    {
      assert LeaderOk(s, c);
    }
  }

  lemma UnseatedCandidates(s: System, r: Rid, s': System)
    requires TermsOk(s) && Unseated(s, r, s')
    ensures RivalsOk(s') && forall c | c in s'.lease.elections :: CandidateOk(s', c, s'.lease.elections[c])
  {
    hide LeaderOk;
    forall c | c in s'.lease.elections
      ensures CandidateOk(s', c, s'.lease.elections[c])
    {
      assert c != r ==> CandidateOk(s, c, s.lease.elections[c]);
    }
  }

  lemma StartUnseats(s: System, r: Rid, s': System)
    requires s.lease.reps == s.log.reps && Next(s, Start(r), s')
    ensures Unseated(s, r, s')
  {
  }

  lemma LosingUnseats(s: System, r: Rid, s': System)
    requires s.lease.reps == s.log.reps && Next(s, Finish(r), s') && !Wins(s, r)
    ensures Unseated(s, r, s')
  {
  }

  lemma AskKeepsTerms(s: System, step: Step, s': System)
    requires Inv(s) && step.Ask? && Next(s, step, s')
    ensures TermsOk(s')
  {
    hide Next, Lease.Inv, Log.Inv, Lease.ElectionOk, CandidateOk, LeaderOk, RivalsOk;
    RivalsKept(s, step, s');
    var e := Asked(s, step, s');
    forall c | c in s'.lease.elections
      ensures CandidateOk(s', c, s'.lease.elections[c])
    {
      ElectionKnown(s, c);
      if c == step.r {
        AskerOk(s, step, s');
      } else {
        OtherCandidateOk(s, step, s', c);
      }
    }
    forall c | c in s'.log.reps && s'.log.reps[c].role == Leader
      ensures LeaderOk(s', c)
    {
      LeaderKept(s, step, s', c);
    }
  }

  lemma RivalsKept(s: System, step: Step, s': System)
    requires Inv(s) && step.Ask? && Next(s, step, s')
    ensures RivalsOk(s')
  {
    hide Next, Lease.Inv, Log.Inv, Lease.ElectionOk, CandidateOk, LeaderOk, Outvotes;
    var _ := Asked(s, step, s');
    forall r, c | r in s'.lease.elections && c in s'.lease.elections && r != c
      ensures Outvotes(s', s'.lease.elections[r].grants, s'.lease.elections[r].term, s'.lease.elections[c])
    {
      ElectionKnown(s, r);
      ElectionKnown(s, c);
      RivalKept(s, step, s', r, c);
    }
  }

  /** A new vote goes to a term no earlier than the voter's, and to nobody while another vote runs. */
  lemma RivalKept(s: System, step: Step, s': System, r: Rid, c: Rid)
    requires s.lease.reps == s.log.reps && step.Ask? && Next(s, step, s')
    requires r in s.lease.elections && c in s.lease.elections && r != c
    requires Outvotes(s, s.lease.elections[r].grants, s.lease.elections[r].term, s.lease.elections[c])
    requires Lease.ElectionOk(s.lease, r, s.lease.elections[r]) && CandidateOk(s, c, s.lease.elections[c])
    ensures Outvotes(s', s'.lease.elections[r].grants, s'.lease.elections[r].term, s'.lease.elections[c])
  {
    var q := step.q;
    if q in s.lease.elections[r].grants {
      assert Lease.Backed(s.lease, r, q, s.lease.elections[r].grants[q]);
    }
  }

  lemma Asked(s: System, step: Step, s': System) returns (e: Lease.Election)
    requires s.lease.reps == s.log.reps && step.Ask? && Next(s, step, s')
    ensures step.r in s.lease.elections && s'.lease.elections == s.lease.elections[step.r := e]
    ensures s'.log.reps.Keys == s.log.reps.Keys && s'.lease.now == s.lease.now && s'.lease.backers == s.lease.backers
    ensures e.term == s.lease.elections[step.r].term
  {
    e := s'.lease.elections[step.r];
  }

  lemma ElectionKnown(s: System, c: Rid)
    requires Lease.Inv(s.lease) && TermsOk(s) && c in s.lease.elections
    ensures Lease.ElectionOk(s.lease, c, s.lease.elections[c]) && CandidateOk(s, c, s.lease.elections[c])
  {
  }

  lemma AskerOk(s: System, step: Step, s': System)
    requires s.lease.reps == s.log.reps && step.Ask? && Next(s, step, s')
    requires CandidateOk(s, step.r, s.lease.elections[step.r])
    requires Lease.ElectionOk(s.lease, step.r, s.lease.elections[step.r])
    ensures CandidateOk(s', step.r, s'.lease.elections[step.r])
  {
  }

  /** A running vote for oneself forbids a vote for another candidate. */
  lemma OtherCandidateOk(s: System, step: Step, s': System, c: Rid)
    requires s.lease.reps == s.log.reps && step.Ask? && Next(s, step, s') && c != step.r && c in s.lease.elections
    requires CandidateOk(s, c, s.lease.elections[c]) && Lease.ElectionOk(s.lease, c, s.lease.elections[c])
    ensures CandidateOk(s', c, s.lease.elections[c])
  {
    if c == step.q && c in s.lease.elections[c].grants {
      assert Lease.Backed(s.lease, c, c, s.lease.elections[c].grants[c]);
    }
  }

  /** And a vote for another candidate takes the role of leader away. */
  lemma VoterDemoted(s: System, step: Step, s': System, c: Rid)
    requires s.lease.reps == s.log.reps && step.Ask? && Next(s, step, s')
    requires Lease.ElectionOk(s.lease, step.r, s.lease.elections[step.r])
    requires c in s'.log.reps && s'.log.reps[c].role == Leader
    ensures c != step.r && c in s.log.reps && s'.log.reps[c] == s.log.reps[c] && s'.log.sessions == s.log.sessions && s'.won == s.won
  {
  }

  /** The voters of a running lease answer nobody else. */
  lemma VotersBlock(s: System, step: Step, s': System, c: Rid)
    requires s.lease.reps == s.log.reps && step.Ask? && Next(s, step, s') && c != step.r && c in s.lease.backers
    requires Lease.LeaderOk(s.lease, c) && s.lease.now < s.log.reps[c].leaseEnd
    ensures forall q | q in s.lease.backers[c] && q in s'.lease.elections[step.r].grants :: q in s.lease.elections[step.r].grants
  {
    if step.q in s.lease.backers[c] {
      assert Lease.Backed(s.lease, c, step.q, s.lease.backers[c][step.q]);
    }
  }

  lemma LeaderKept(s: System, step: Step, s': System, c: Rid)
    requires Inv(s) && step.Ask? && Next(s, step, s') && c in s'.log.reps && s'.log.reps[c].role == Leader
    ensures LeaderOk(s', c)
  {
    hide Next, Log.Inv, Lease.ElectionOk, Lease.LeaderOk, CandidateOk, RivalsOk;
    var e := Asked(s, step, s');
    ElectionKnown(s, step.r);
    VoterDemoted(s, step, s', c);
    assert LeaderOk(s, c) && Lease.LeaderOk(s.lease, c);
    if s.lease.now < s.log.reps[c].leaseEnd {
      VotersBlock(s, step, s', c);
      forall u | u in s'.lease.elections
        ensures Outvotes(s', s'.lease.backers[c], s'.won[c], s'.lease.elections[u])
      {
        assert Outvotes(s, s.lease.backers[c], s.won[c], s.lease.elections[u]);
      }
    }
  }

  /** What a won election changes. */
  ghost predicate Crowned(s: System, r: Rid, s': System) {
    && r in s.lease.elections && r in s.log.reps && s'.lease.now == s.lease.now && s'.lease.reps == s'.log.reps
    && s'.lease.elections == s.lease.elections - {r} && s'.won == s.won[r := s.lease.elections[r].term]
    && s'.log.reps.Keys == s.log.reps.Keys && (forall c | c in s.log.reps && c != r :: s'.log.reps[c] == s.log.reps[c])
    && s'.log.reps[r].term == s.log.reps[r].term && s'.log.reps[r].role == Leader
    && s'.lease.backers == s.lease.backers[r := s.lease.elections[r].grants]
    && (forall q | q in s.lease.elections[r].grants :: s'.log.reps[r].leaseEnd <= s.lease.elections[r].grants[q])
    && s'.log.sessions.Keys == s.log.sessions.Keys + {s.lease.elections[r].term}
    && (forall u | u in s.log.sessions :: u < s.lease.elections[r].term && s'.log.sessions[u] == s.log.sessions[u])
    && s'.log.sessions[s.lease.elections[r].term].leader == r
    && r in s.lease.elections[r].grants && |s.lease.elections[r].grants.Keys| >= QuorumSize(|s.log.reps.Keys|)
  }

  lemma WinnerIsCrowned(s: System, r: Rid, s': System)
    requires s.lease.reps == s.log.reps && Next(s, Finish(r), s') && Wins(s, r)
    ensures Crowned(s, r, s')
  {
    var grants := s.lease.elections[r].grants;
    assert |grants| == |grants.Keys| && |s.lease.reps| == |s.lease.reps.Keys|;
  }

  /** No lease of another leader runs when r wins: its voters would have kept r to an earlier term. */
  lemma NoOtherLease(s: System, r: Rid, s': System, c: Rid)
    requires s.lease.reps == s.log.reps && Lease.Inv(s.lease) && Crowned(s, r, s') && c != r
    requires c in s.log.reps && s.log.reps[c].role == Leader && LeaderOk(s, c)
    ensures s.lease.now >= s.log.reps[c].leaseEnd
  {
    assert Lease.LeaderOk(s.lease, c) && Lease.ElectionOk(s.lease, r, s.lease.elections[r]);
    assert s.lease.elections[r].grants.Keys <= s.log.reps.Keys by {
      assert forall q | q in s.lease.elections[r].grants :: Lease.Backed(s.lease, r, q, s.lease.elections[r].grants[q]);
    }
    var q := QuorumsMeet(s.log.reps.Keys, s.lease.backers[c].Keys, s.lease.elections[r].grants.Keys);
    assert s.log.reps[c].leaseEnd <= s.lease.backers[c][q];
  }

  lemma WinKeepsTerms(s: System, r: Rid, s': System)
    requires TermsOk(s) && s.lease.reps == s.log.reps && Crowned(s, r, s') && Lease.Inv(s.lease)
    ensures TermsOk(s')
  {
    hide Lease.Inv, LeaderOk, CandidateOk;
    CrownedCandidates(s, r, s');
    forall c | c in s'.log.reps && s'.log.reps[c].role == Leader
      ensures LeaderOk(s', c)
    {
      if c == r {
        WinnerOk(s, r, s');
      } else {
        assert c in s.log.reps && LeaderOk(s, c);
        NoOtherLease(s, r, s', c);
        ExpiredLeaderOk(s, r, s', c);
      }
    }
  }

  lemma CrownedCandidates(s: System, r: Rid, s': System)
    requires TermsOk(s) && Crowned(s, r, s')
    ensures RivalsOk(s') && forall c | c in s'.lease.elections :: CandidateOk(s', c, s'.lease.elections[c])
  {
    hide LeaderOk;
    forall c | c in s'.lease.elections
      ensures CandidateOk(s', c, s'.lease.elections[c])
    {
      assert CandidateOk(s, c, s.lease.elections[c]);
    }
  }

  /** The winner's own vote still runs with its lease, so nobody has moved it on. */
  lemma WinnerOk(s: System, r: Rid, s': System)
    requires TermsOk(s) && Crowned(s, r, s')
    ensures LeaderOk(s', r)
  {
    assert CandidateOk(s, r, s.lease.elections[r]);
    hide CandidateOk;
    forall u | u in s'.lease.elections
      ensures Outvotes(s', s'.lease.backers[r], s'.won[r], s'.lease.elections[u])
    {
      assert Outvotes(s, s.lease.elections[r].grants, s.lease.elections[r].term, s.lease.elections[u]);
    }
  }

  lemma ExpiredLeaderOk(s: System, r: Rid, s': System, c: Rid)
    requires Crowned(s, r, s') && c != r && c in s.log.reps && LeaderOk(s, c) && s.lease.now >= s.log.reps[c].leaseEnd
    ensures LeaderOk(s', c)
  {
  }

  lemma TermsKept(s: System, step: Step, s': System)
    requires Inv(s) && Next(s, step, s')
    ensures TermsOk(s')
  {
    hide Next, Lease.Inv, Log.Inv, TermsOk, Quiet, Unseated, Crowned, Wins;
    match step
    case Tick(_) =>
      TickIsQuiet(s, step, s');
      QuietKeepsTerms(s, s');
    case Start(r) =>
      StartUnseats(s, r, s');
      UnseatedKeepsTerms(s, r, s');
    case Ask(_, _, _, _, _, _, _) => AskKeepsTerms(s, step, s');
    case Finish(r) =>
      if Wins(s, r) {
        WinnerIsCrowned(s, r, s');
        WinKeepsTerms(s, r, s');
      } else {
        LosingUnseats(s, r, s');
        UnseatedKeepsTerms(s, r, s');
      }
    case Deliver(p, q) =>
      DeliverIsQuiet(s, p, q, s');
      QuietKeepsTerms(s, s');
    case Commit(q, slot) =>
      CommitIsQuiet(s, q, slot, s');
      QuietKeepsTerms(s, s');
    case _ =>
      LogStepIsQuiet(s, step, s');
      QuietKeepsTerms(s, s');
  }

  lemma TickIsQuiet(s: System, step: Step, s': System)
    requires Next(s, step, s') && step.Tick?
    ensures Quiet(s, s')
  {
  }

  lemma NextKeepsInv(s: System, step: Step, s': System)
    requires Inv(s) && Next(s, step, s')
    ensures Inv(s')
  {
    hide Next, Lease.Next, Log.Next, Lease.Inv, Log.Inv, TermsOk;
    SharedKept(s, step, s');
    RefinesLease(s, step, s');
    if s'.lease != s.lease {
      Lease.NextKeepsInv(s.lease, LeaseStep(s, step).value, s'.lease);
    }
    RefinesLog(s, step, s');
    if s'.log != s.log {
      Log.NextKeepsInv(s.log, LogStep(s, step, s').value, s'.log);
    }
    TermsKept(s, step, s');
  }

  lemma SharedKept(s: System, step: Step, s': System)
    requires Next(s, step, s')
    ensures s'.lease.reps == s'.log.reps
  {
  }

  lemma {:induction false} RunKeepsInv(run: seq<System>, steps: seq<Step>, n: nat)
    requires IsRun(run, steps) && n < |run|
    ensures Inv(run[n])
  {
    if n == 0 {
      InitOk(run[0]);
    } else {
      RunKeepsInv(run, steps, n - 1);
      hide Next, Inv;
      NextKeepsInv(run[n - 1], steps[n - 1], run[n]);
    }
  }

  lemma InitOk(s: System)
    requires Init(s)
    ensures Inv(s)
  {
  }

  // ---------- results ----------

  /** Whoever has its lease is in the term it won, and no later term has been won by anybody. */
  lemma LeaseFixesTerm(run: seq<System>, steps: seq<Step>, n: nat, r: Rid, tt: Interval)
    requires IsRun(run, steps) && n < |run| && r in run[n].log.reps
    requires tt.Contains(run[n].lease.now) && HasLease(run[n].log.reps[r], tt)
    ensures r in run[n].won && run[n].log.reps[r].term == run[n].won[r]
    ensures forall u | u in run[n].log.sessions :: u <= run[n].won[r]
  {
    RunKeepsInv(run, steps, n);
    assert LeaderOk(run[n], r);
  }

  /** Chosen values survive leader changes among leaders that only look at their lease before they send. */
  lemma ChosenSurvives(run: seq<System>, steps: seq<Step>, n: nat, quorum: set<Rid>, c: Log.Proposal, p: Log.Proposal)
    requires IsRun(run, steps) && n < |run| && Log.Chosen(run[n].log, quorum, c)
    requires p in run[n].log.sent && p.slot == c.slot && p.term >= c.term
    ensures p.value == c.value
  {
    RunKeepsInv(run, steps, n);
    hide Log.Inv, Log.Chosen;
    Log.ChosenIsInherited(run[n].log, quorum, c, p);
  }

  /**
   The guard on the candidate's own vote is needed: one that did not vote for itself may vote for another
   candidate while its own election runs, and then leads, with a lease, in the other one's term.
   */
  lemma LeaderInForeignTerm()
    ensures
      var clock := Interval(0, 0);
      var candidate := FRESH.(role := Candidate, term := 1);
      var (_, vote1) := OnLeaseVote(1, FRESH, 1, 0, clock, clock, 1);
      var (_, vote2) := OnLeaseVote(2, FRESH, 1, 0, clock, clock, 1);
      var (moved, _) := OnLeaseVote(0, candidate, 2, 1, clock, clock, 1);
      && vote1.Some? && vote1 == vote2 && QuorumSize(3) == 2
      && HasLease(moved.(role := Leader, leaseEnd := vote1.value), clock) && moved.term == 2
  {
  }
}
