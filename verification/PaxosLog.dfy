/**
 Replication across leader changes, at message level: lease votes, campaigns, syncs, accepts (lost,
 repeated and reordered at will), re-drives and proposals of any number of leaders interleave.
 Five step guards, all marked below, say what the environment must grant because the source does not
 enforce it; under them a value stored by a quorum at some term is the only one later leaders send
 (module PaxosChosen).
 */
module PaxosLog {
  import opened Options
  import opened Clock
  import opened PaxosReplica

  datatype Proposal = Proposal(term: nat, slot: nat, value: Value)

  /** History: replica q stored p. */
  datatype Ack = Ack(q: Rid, p: Proposal)

  /** One won election: the local state of _sync_from_followers, and whether it is over. */
  datatype Session = Session(leader: Rid, heard: set<Rid>, merged: map<nat, Entry>, synced: bool, ready: bool)

  datatype Group = Group(
    reps: map<Rid, Replica>,
    sessions: map<nat, Session>,   // by term
    sent: set<Proposal>,           // every AcceptRequest ever sent
    acks: set<Ack>)

  datatype Step =
    | Campaign(r: Rid)
    | GrantVote(q: Rid, term: nat, candidate: Rid, check: Interval, stamp: Interval, leaseNs: nat)
    | Lose(r: Rid)
    | StartSync(r: Rid, t: nat, leaseEnd: int)
    | Hear(t: nat, q: Rid)
    | FinishHearing(t: nat, nextSlot: nat)
    | SyncSend(t: nat, slot: nat)
    | Ready(t: nat)
    | Propose(t: nat, value: Value)
    | Redrive(t: nat, slot: nat)
    | Deliver(p: Proposal, q: Rid)
    | Commit(q: Rid, slot: nat)

  ghost predicate Next(s: Group, step: Step, s': Group) {
    match step
    case Campaign(r) =>
      r in s.reps && s' == s.(reps := s.reps[r := s.reps[r].(role := Candidate, term := s.reps[r].term + 1)])
    case GrantVote(q, term, candidate, check, stamp, leaseNs) =>
      q in s.reps && s' == s.(reps := s.reps[q := OnLeaseVote(q, s.reps[q], term, candidate, check, stamp, leaseNs).0])
    case Lose(r) =>
      r in s.reps && s' == s.(reps := s.reps[r := s.reps[r].(role := Follower)])
    case StartSync(r, t, leaseEnd) =>
      // t is the term of the campaign; the replica's own may have risen since
      && r in s.reps && t <= s.reps[r].term
      && (forall u | u in s.sessions :: u < t)  // guard: terms of won elections strictly increase
      && Starts(s, r, t, leaseEnd, s')
    case Hear(t, q) =>
      && t in s.sessions && !s.sessions[t].synced && q in s.reps
      && var x := s.sessions[t];
      && s' == s.(sessions := s.sessions[t := x.(heard := x.heard + {q}, merged := MergeInto(x.merged, s.reps[q].log))])
    case FinishHearing(t, nextSlot) =>
      && t in s.sessions && !s.sessions[t].synced
      && var x := s.sessions[t];
      && |x.heard| >= QuorumSize(|s.reps.Keys|) && x.leader in x.heard  // guard: a quorum answers, itself included
      && x.leader in s.reps && nextSlot >= s.reps[x.leader].nextSlot && (forall slot | slot in x.merged :: slot < nextSlot)
      && (nextSlot == s.reps[x.leader].nextSlot || exists slot :: slot in x.merged && nextSlot == slot + 1)
      && s' == s.(sessions := s.sessions[t := x.(synced := true)],
                  reps := s.reps[x.leader := s.reps[x.leader].(nextSlot := nextSlot)])
    case SyncSend(t, slot) =>
      && t in s.sessions && s.sessions[t].synced && slot in s.sessions[t].merged
      && s' == s.(sent := s.sent + {Proposal(t, slot, s.sessions[t].merged[slot].value)})
    case Ready(t) =>
      && t in s.sessions && s.sessions[t].synced && s.sessions[t].leader in s.reps
      && var log := s.reps[s.sessions[t].leader].log;
      && (forall slot | slot in s.sessions[t].merged :: slot in log && log[slot].term == t)  // guard: sends to itself succeed
      && s' == s.(sessions := s.sessions[t := s.sessions[t].(ready := true)])
    case Propose(t, value) =>
      Leads(s, t) && Proposes(s, s.sessions[t].leader, value, s')
    case Redrive(t, slot) =>
      Leads(s, t) && Redrives(s, s.sessions[t].leader, slot, s')
    case Deliver(p, q) =>
      && p in s.sent && q in s.reps
      && var (x, accepted) := OnAccept(s.reps[q], p.term, p.slot, p.value);
      && (accepted ==> forall t | t in s.sessions && p.term < t :: q !in s.sessions[t].heard)  // guard: no stale accept
      && s' == s.(reps := s.reps[q := x], acks := s.acks + if accepted then {Ack(q, p)} else {})
    case Commit(q, slot) =>
      q in s.reps && s' == s.(reps := s.reps[q := OnCommit(s.reps[q], slot)])
  }

  /** r becomes leader and begins to collect replies. */
  ghost predicate Starts(s: Group, r: Rid, t: nat, leaseEnd: int, s': Group) {
    && r in s.reps
    && s' == s.(sessions := s.sessions[t := Session(r, {}, map[], false, false)],
                reps := s.reps[r := s.reps[r].(role := Leader, leader := Some(r), leaseEnd := leaseEnd)])
  }

  /** A new value goes out under the replica's current term, at its next slot. */
  ghost predicate Proposes(s: Group, r: Rid, value: Value, s': Group) {
    && r in s.reps && var x := s.reps[r];
    && s' == s.(reps := s.reps[r := x.(nextSlot := x.nextSlot + 1)], sent := s.sent + {Proposal(x.term, x.nextSlot, value)})
  }

  /** A logged, uncommitted value goes out again under the replica's current term. */
  ghost predicate Redrives(s: Group, r: Rid, slot: nat, s': Group) {
    && r in s.reps && var x := s.reps[r];
    && slot in x.log && slot !in x.committed && s' == s.(sent := s.sent + {Proposal(x.term, slot, x.log[slot].value)})
  }

  /** guard for proposing and re-driving: the leader is past the sync of the term it won, and still in that term. */
  ghost predicate Leads(s: Group, t: nat) {
    t in s.sessions && s.sessions[t].ready && s.sessions[t].leader in s.reps && s.reps[s.sessions[t].leader].term == t
  }

  ghost predicate Init(s: Group) {
    s.sessions == map[] && s.sent == {} && s.acks == {} && forall r | r in s.reps :: s.reps[r] == FRESH
  }

  ghost predicate IsRun(run: seq<Group>, steps: seq<Step>) {
    && |run| == |steps| + 1 && Init(run[0])
    && forall i | 0 <= i < |steps| :: Next(run[i], steps[i], run[i + 1])
  }

  // ---------- invariant ----------

  ghost predicate AckOk(s: Group, a: Ack) {
    && a.p in s.sent && a.q in s.reps && a.p.term <= s.reps[a.q].term
    && a.p.slot in s.reps[a.q].log && a.p.term <= s.reps[a.q].log[a.p.slot].term
  }

  /** A log entry is the stored proposal of highest term at its slot. */
  ghost predicate LogsOk(s: Group) {
    forall q, slot | q in s.reps && slot in s.reps[q].log ::
      Ack(q, Proposal(s.reps[q].log[slot].term, slot, s.reps[q].log[slot].value)) in s.acks
  }

  ghost predicate SentOk(s: Group, p: Proposal) {
    && p.term in s.sessions && s.sessions[p.term].synced && s.sessions[p.term].leader in s.reps
    && p.slot < s.reps[s.sessions[p.term].leader].nextSlot
    && (p.slot in s.sessions[p.term].merged ==> p.value == s.sessions[p.term].merged[p.slot].value)
  }

  ghost predicate OneValuePerTerm(s: Group) {
    forall p, p' | p in s.sent && p' in s.sent && p.term == p'.term && p.slot == p'.slot :: p.value == p'.value
  }

  ghost predicate SessionOk(s: Group, t: nat, x: Session) {
    && x.leader in s.reps && t <= s.reps[x.leader].term && x.heard <= s.reps.Keys
    && (x.synced ==> |x.heard| >= QuorumSize(|s.reps.Keys|) && x.leader in x.heard
                     && forall slot | slot in x.merged :: slot < s.reps[x.leader].nextSlot)
    && (x.ready ==> x.synced)
    && (forall slot | slot in x.merged :: Proposal(x.merged[slot].term, slot, x.merged[slot].value) in s.sent)
    && (x.ready && s.reps[x.leader].term == t ==>
          forall slot | slot in x.merged :: slot in s.reps[x.leader].log && s.reps[x.leader].log[slot].term == t)
  }

  /** What a sync heard from q covers everything q ever stored below the sync's term. */
  ghost predicate HeardOk(s: Group, t: nat, x: Session, a: Ack) {
    a.q in x.heard && a.p.term < t ==> a.p.slot in x.merged && a.p.term <= x.merged[a.p.slot].term
  }

  /** A later sync, whose quorum is complete, heard only replicas that never stored c: c can no longer be chosen. */
  ghost predicate Overtaken(s: Group, c: Proposal) {
    exists u :: u in s.sessions && c.term < u && s.sessions[u].synced && forall q | q in s.sessions[u].heard :: Ack(q, c) !in s.acks
  }

  /** A later term sends another value at a slot only when the earlier proposal has been overtaken. */
  ghost predicate Succession(s: Group) {
    forall p, c | p in s.sent && c in s.sent && p.slot == c.slot && c.term < p.term && p.value != c.value :: Overtaken(s, c)
  }

  ghost predicate Inv(s: Group) {
    BasicInv(s) && Succession(s)
  }

  ghost predicate BasicInv(s: Group) {
    && (forall a | a in s.acks :: AckOk(s, a)) && LogsOk(s)
    && (forall p | p in s.sent :: SentOk(s, p)) && OneValuePerTerm(s)
    && (forall t | t in s.sessions :: SessionOk(s, t, s.sessions[t]))
    && (forall t, a | t in s.sessions && a in s.acks :: HeardOk(s, t, s.sessions[t], a))
  }

  /** Replica r changed, but kept its log and did not go back in term or slot. */
  ghost predicate OnlyAdvanced(s: Group, r: Rid, s': Group) {
    && r in s.reps && r in s'.reps && s' == s.(reps := s.reps[r := s'.reps[r]])
    && s'.reps[r].log == s.reps[r].log && s.reps[r].term <= s'.reps[r].term && s.reps[r].nextSlot <= s'.reps[r].nextSlot
  }

  lemma AdvanceKeepsBasic(s: Group, r: Rid, s': Group)
    requires BasicInv(s) && OnlyAdvanced(s, r, s')
    ensures BasicInv(s')
  {
    assert s'.reps.Keys == s.reps.Keys;
    forall a | a in s'.acks
      ensures AckOk(s', a)
    {
      assert AckOk(s, a);
    }
    forall p | p in s'.sent
      ensures SentOk(s', p)
    {
      assert SentOk(s, p);
    }
    forall t | t in s'.sessions
      ensures SessionOk(s', t, s'.sessions[t])
    {
      assert SessionOk(s, t, s.sessions[t]);
    }
    forall t, a | t in s'.sessions && a in s'.acks
      ensures HeardOk(s', t, s'.sessions[t], a)
    {
      assert HeardOk(s, t, s.sessions[t], a);
    }
  }

  lemma StartKeepsBasic(s: Group, r: Rid, t: nat, leaseEnd: int, s': Group)
    requires BasicInv(s) && Next(s, StartSync(r, t, leaseEnd), s')
    ensures BasicInv(s')
  {
    assert s'.reps.Keys == s.reps.Keys;
    forall a | a in s'.acks
      ensures AckOk(s', a)
    {
      assert AckOk(s, a);
    }
    forall p | p in s'.sent
      ensures SentOk(s', p)
    {
      assert SentOk(s, p);
    }
    forall u | u in s'.sessions
      ensures SessionOk(s', u, s'.sessions[u])
    {
      assert u != t ==> SessionOk(s, u, s.sessions[u]);
    }
    forall u, a | u in s'.sessions && a in s'.acks
      ensures HeardOk(s', u, s'.sessions[u], a)
    {
      assert u != t ==> HeardOk(s, u, s.sessions[u], a);
    }
  }

  lemma HearKeepsBasic(s: Group, t: nat, q: Rid, s': Group)
    requires BasicInv(s) && Next(s, Hear(t, q), s')
    ensures BasicInv(s')
  {
    HearerOk(s, t, q, s');
    HearerKnows(s, t, q, s');
    hide MergeInto;
    forall a | a in s'.acks
      ensures AckOk(s', a)
    {
      assert AckOk(s, a);
    }
    forall p | p in s'.sent
      ensures SentOk(s', p)
    {
      assert SentOk(s, p);
    }
    forall u | u in s'.sessions && u != t
      ensures SessionOk(s', u, s'.sessions[u])
    {
      assert SessionOk(s, u, s.sessions[u]);
    }
    forall u, a | u in s'.sessions && a in s'.acks && u != t
      ensures HeardOk(s', u, s'.sessions[u], a)
    {
      assert HeardOk(s, u, s.sessions[u], a);
    }
  }

  lemma HearerOk(s: Group, t: nat, q: Rid, s': Group)
    requires BasicInv(s) && Next(s, Hear(t, q), s')
    ensures SessionOk(s', t, s'.sessions[t])
  {
    hide SentOk, HeardOk, OneValuePerTerm;
    var x' := s'.sessions[t];
    assert SessionOk(s, t, s.sessions[t]);
    forall slot | slot in x'.merged
      ensures Proposal(x'.merged[slot].term, slot, x'.merged[slot].value) in s.sent
    {
      if slot in s.reps[q].log {
        var a := Ack(q, Proposal(s.reps[q].log[slot].term, slot, s.reps[q].log[slot].value));
        assert a in s.acks && AckOk(s, a);
      }
    }
  }

  lemma HearerKnows(s: Group, t: nat, q: Rid, s': Group)
    requires BasicInv(s) && Next(s, Hear(t, q), s')
    ensures forall a | a in s'.acks :: HeardOk(s', t, s'.sessions[t], a)
  {
    hide SentOk, SessionOk, LogsOk, OneValuePerTerm;
    forall a | a in s'.acks
      ensures HeardOk(s', t, s'.sessions[t], a)
    {
      assert AckOk(s, a) && HeardOk(s, t, s.sessions[t], a);
    }
  }

  /** A session moved on (synced or ready) without hearing more; its leader may have moved its next slot. */
  lemma SessionStepKeepsBasic(s: Group, t: nat, x': Session, n: nat, s': Group)
    requires BasicInv(s) && t in s.sessions && s.sessions[t].leader in s.reps
    requires var r := s.sessions[t].leader;
             s' == s.(sessions := s.sessions[t := x'], reps := s.reps[r := s.reps[r].(nextSlot := n)]) && n >= s.reps[r].nextSlot
    requires x' == s.sessions[t].(synced := x'.synced, ready := x'.ready) && (s.sessions[t].synced ==> x'.synced)
    requires SessionOk(s', t, x')
    ensures BasicInv(s')
  {
    var r := s.sessions[t].leader;
    assert s'.reps.Keys == s.reps.Keys;
    forall a | a in s'.acks
      ensures AckOk(s', a)
    {
      assert AckOk(s, a);
    }
    forall p | p in s'.sent
      ensures SentOk(s', p)
    {
      assert SentOk(s, p);
    }
    forall u | u in s'.sessions && u != t
      ensures SessionOk(s', u, s'.sessions[u])
    {
      assert SessionOk(s, u, s.sessions[u]);
    }
    forall u, a | u in s'.sessions && a in s'.acks
      ensures HeardOk(s', u, s'.sessions[u], a)
    {
      assert HeardOk(s, u, s.sessions[u], a);
    }
  }

  /** One more proposal is on the wire, consistent with its session and with what was sent before. */
  lemma SendKeepsBasic(s: Group, p: Proposal, n: nat, s': Group)
    requires BasicInv(s) && p.term in s.sessions && s.sessions[p.term].leader in s.reps
    requires var r := s.sessions[p.term].leader;
             s' == s.(sent := s.sent + {p}, reps := s.reps[r := s.reps[r].(nextSlot := n)]) && n >= s.reps[r].nextSlot
    requires SentOk(s', p)
    requires forall p' | p' in s.sent && p'.term == p.term && p'.slot == p.slot :: p'.value == p.value
    ensures BasicInv(s')
  {
    assert s'.reps.Keys == s.reps.Keys;
    forall a | a in s'.acks
      ensures AckOk(s', a)
    {
      assert AckOk(s, a);
    }
    forall p' | p' in s'.sent
      ensures SentOk(s', p')
    {
      assert p' != p ==> SentOk(s, p');
    }
    forall u | u in s'.sessions
      ensures SessionOk(s', u, s'.sessions[u])
    {
      assert SessionOk(s, u, s.sessions[u]);
    }
    forall u, a | u in s'.sessions && a in s'.acks
      ensures HeardOk(s', u, s'.sessions[u], a)
    {
      assert HeardOk(s, u, s.sessions[u], a);
    }
  }

  /** A re-drive sends only what this leader already sent in its own term. */
  lemma RedriveRepeats(s: Group, t: nat, slot: nat)
    requires BasicInv(s) && Leads(s, t) && slot in s.reps[s.sessions[t].leader].log
    ensures Proposal(t, slot, s.reps[s.sessions[t].leader].log[slot].value) in s.sent
  {
    var r := s.sessions[t].leader;
    var e := s.reps[r].log[slot];
    var a := Ack(r, Proposal(e.term, slot, e.value));
    assert a in s.acks && AckOk(s, a) && HeardOk(s, t, s.sessions[t], a) && SessionOk(s, t, s.sessions[t]);
  }

  lemma DeliverKeepsBasic(s: Group, p: Proposal, q: Rid, s': Group)
    requires BasicInv(s) && Next(s, Deliver(p, q), s')
    ensures BasicInv(s')
  {
    hide AckOk, LogsOk, SessionOk;
    DeliverKeepsAcks(s, p, q, s');
    DeliverKeepsSessions(s, p, q, s');
    forall p' | p' in s'.sent
      ensures SentOk(s', p')
    {
      assert SentOk(s, p');
    }
    forall u, a | u in s'.sessions && a in s'.acks
      ensures HeardOk(s', u, s'.sessions[u], a)
    {
      assert a in s.acks ==> HeardOk(s, u, s.sessions[u], a);
    }
  }

  lemma DeliverKeepsSessions(s: Group, p: Proposal, q: Rid, s': Group)
    requires BasicInv(s) && Next(s, Deliver(p, q), s')
    ensures forall u | u in s'.sessions :: SessionOk(s', u, s'.sessions[u])
  {
    hide AckOk, LogsOk, SentOk, HeardOk, OneValuePerTerm;
    assert s'.reps.Keys == s.reps.Keys;
    forall u | u in s'.sessions
      ensures SessionOk(s', u, s'.sessions[u])
    {
      assert SessionOk(s, u, s.sessions[u]);
    }
  }

  lemma DeliverKeepsAcks(s: Group, p: Proposal, q: Rid, s': Group)
    requires BasicInv(s) && Next(s, Deliver(p, q), s')
    ensures (forall a | a in s'.acks :: AckOk(s', a)) && LogsOk(s')
  {
    hide SentOk, SessionOk, HeardOk, OneValuePerTerm;
    forall a | a in s'.acks
      ensures AckOk(s', a)
    {
      assert a in s.acks ==> AckOk(s, a);
    }
  }

  lemma SyncedKeepsBasic(s: Group, t: nat, n: nat, s': Group)
    requires BasicInv(s) && Next(s, FinishHearing(t, n), s')
    ensures BasicInv(s')
  {
    assert SessionOk(s, t, s.sessions[t]);
    assert s'.reps.Keys == s.reps.Keys;
    assert SessionOk(s', t, s'.sessions[t]);
    SessionStepKeepsBasic(s, t, s'.sessions[t], n, s');
  }

  lemma ReadyKeepsBasic(s: Group, t: nat, s': Group)
    requires BasicInv(s) && Next(s, Ready(t), s')
    ensures BasicInv(s')
  {
    var r := s.sessions[t].leader;
    assert SessionOk(s, t, s.sessions[t]);
    assert s.reps[r := s.reps[r].(nextSlot := s.reps[r].nextSlot)] == s.reps;
    assert SessionOk(s', t, s'.sessions[t]);
    SessionStepKeepsBasic(s, t, s'.sessions[t], s.reps[r].nextSlot, s');
  }

  lemma SyncSendKeepsBasic(s: Group, t: nat, slot: nat, s': Group)
    requires BasicInv(s) && Next(s, SyncSend(t, slot), s')
    ensures BasicInv(s')
  {
    var p := Proposal(t, slot, s.sessions[t].merged[slot].value);
    var r := s.sessions[t].leader;
    assert SessionOk(s, t, s.sessions[t]);
    assert forall p' | p' in s.sent :: SentOk(s, p');
    assert s.reps[r := s.reps[r].(nextSlot := s.reps[r].nextSlot)] == s.reps;
    SendKeepsBasic(s, p, s.reps[r].nextSlot, s');
  }

  /** A proposal takes a slot above everything merged or sent in its term: no slot is ever reused. */
  lemma ProposeKeepsBasic(s: Group, t: nat, value: Value, s': Group)
    requires BasicInv(s) && Next(s, Propose(t, value), s')
    ensures BasicInv(s') && forall p | p in s.sent && p.term == t :: p.slot < s.reps[s.sessions[t].leader].nextSlot
  {
    var r := s.sessions[t].leader;
    assert SessionOk(s, t, s.sessions[t]);
    assert forall p' | p' in s.sent :: SentOk(s, p');
    SendKeepsBasic(s, Proposal(t, s.reps[r].nextSlot, value), s.reps[r].nextSlot + 1, s');
  }

  // ---------- succession ----------

  /** Syncs completed so far keep what they heard, and no replica they heard stores c now. */
  ghost predicate HeardStays(s: Group, s': Group) {
    && (forall u | u in s.sessions && s.sessions[u].synced ::
          u in s'.sessions && s'.sessions[u].synced && s'.sessions[u].heard == s.sessions[u].heard)
    && forall u, a | u in s.sessions && a in s'.acks && a.q in s.sessions[u].heard && a.p.term < u :: a in s.acks
  }

  lemma OvertakenStays(s: Group, s': Group, c: Proposal)
    requires Overtaken(s, c) && HeardStays(s, s')
    ensures Overtaken(s', c)
  {
    var u :| u in s.sessions && c.term < u && s.sessions[u].synced && forall q | q in s.sessions[u].heard :: Ack(q, c) !in s.acks;
    assert u in s'.sessions;
    forall q | q in s'.sessions[u].heard
      ensures Ack(q, c) !in s'.acks
    {
      assert q in s.sessions[u].heard;
      assert Ack(q, c) in s'.acks ==> Ack(q, c) in s.acks;
    }
  }

  lemma EveryStepKeepsHeard(s: Group, step: Step, s': Group)
    requires Next(s, step, s')
    ensures HeardStays(s, s')
  {
    hide OnAccept, OnCommit, OnLeaseVote, MergeInto;
  }

  /** Steps that send nothing new. */
  lemma QuietKeepsSuccession(s: Group, step: Step, s': Group)
    requires Succession(s) && Next(s, step, s') && s'.sent == s.sent
    ensures Succession(s')
  {
    hide Next, HeardStays, Overtaken;
    EveryStepKeepsHeard(s, step, s');
    forall p, c | p in s'.sent && c in s'.sent && p.slot == c.slot && c.term < p.term && p.value != c.value
      ensures Overtaken(s', c)
    {
      assert Overtaken(s, c);
      OvertakenStays(s, s', c);
    }
  }

  /** Steps that send one proposal more: it has to differ only from overtaken ones, and is itself stored nowhere yet. */
  lemma SendKeepsSuccession(s: Group, p: Proposal, s': Group)
    requires BasicInv(s) && Succession(s) && s'.sessions == s.sessions && s'.acks == s.acks && s'.sent == s.sent + {p}
    requires forall c | c in s.sent && c.slot == p.slot && c.term < p.term && c.value != p.value :: Overtaken(s, c)
    ensures Succession(s')
  {
    hide BasicInv, Overtaken;
    forall b, c | b in s'.sent && c in s'.sent && b.slot == c.slot && c.term < b.term && b.value != c.value
      ensures Overtaken(s', c)
    {
      if c !in s.sent {
        UnsentIsOvertaken(s, c, b);
      }
      assert Overtaken(s, c);
      OvertakenStays(s, s', c);
    }
  }

  /** Nobody stores what was never sent, so any later term that has sent something overtakes it. */
  lemma UnsentIsOvertaken(s: Group, c: Proposal, b: Proposal)
    requires BasicInv(s) && c !in s.sent && b in s.sent && c.term < b.term
    ensures Overtaken(s, c)
  {
    assert SentOk(s, b);
    assert forall q | Ack(q, c) in s.acks :: AckOk(s, Ack(q, c));
    assert b.term in s.sessions;
  }

  /** What a completed sync passes on differs only from overtaken proposals, also if it heard entries of newer leaders. */
  lemma MergedSucceeds(s: Group, t: nat, slot: nat, c: Proposal)
    requires Inv(s) && t in s.sessions && s.sessions[t].synced && slot in s.sessions[t].merged
    requires c in s.sent && c.slot == slot && c.term < t && c.value != s.sessions[t].merged[slot].value
    ensures Overtaken(s, c)
  {
    var x := s.sessions[t];
    if q :| q in x.heard && Ack(q, c) in s.acks {
      assert HeardOk(s, t, x, Ack(q, c)) && SessionOk(s, t, x);
      var e := Proposal(x.merged[slot].term, slot, x.merged[slot].value);
      assert e in s.sent && c.term <= e.term;
    }
  }

  /** Above everything merged, an earlier proposal is unknown to the whole quorum. */
  lemma FreshSlotSucceeds(s: Group, t: nat, c: Proposal)
    requires BasicInv(s) && Leads(s, t) && c in s.sent && c.term < t && c.slot == s.reps[s.sessions[t].leader].nextSlot
    ensures Overtaken(s, c)
  {
    var x := s.sessions[t];
    assert SessionOk(s, t, x);
    assert forall q | Ack(q, c) in s.acks :: HeardOk(s, t, x, Ack(q, c));
    assert forall q | q in x.heard :: Ack(q, c) !in s.acks;
  }

  lemma SuccessionKept(s: Group, step: Step, s': Group)
    requires Inv(s) && Next(s, step, s')
    ensures Succession(s')
  {
    hide BasicInv, Overtaken, Succession;
    match step
    case SyncSend(t, slot) =>
      var p := Proposal(t, slot, s.sessions[t].merged[slot].value);
      forall c | c in s.sent && c.slot == p.slot && c.term < p.term && c.value != p.value
        ensures Overtaken(s, c)
      {
        MergedSucceeds(s, t, slot, c);
      }
      SendKeepsSuccession(s, p, s');
    case Propose(t, value) =>
      var p := Proposal(t, s.reps[s.sessions[t].leader].nextSlot, value);
      forall c | c in s.sent && c.slot == p.slot && c.term < p.term && c.value != p.value
        ensures Overtaken(s, c)
      {
        FreshSlotSucceeds(s, t, c);
      }
      SendKeepsSuccession(s, p, s');
    case Redrive(t, slot) =>
      RedriveRepeats(s, t, slot);
      assert s'.sent == s.sent;
      QuietKeepsSuccession(s, step, s');
    case _ =>
      QuietKeepsSuccession(s, step, s');
  }

  lemma BasicKept(s: Group, step: Step, s': Group)
    requires BasicInv(s) && Next(s, step, s')
    ensures BasicInv(s')
  {
    hide BasicInv;
    match step
    case Campaign(r) => AdvanceKeepsBasic(s, r, s');
    case GrantVote(q, _, _, _, _, _) => AdvanceKeepsBasic(s, q, s');
    case Lose(r) => AdvanceKeepsBasic(s, r, s');
    case StartSync(r, t, leaseEnd) => StartKeepsBasic(s, r, t, leaseEnd, s');
    case Hear(t, q) => HearKeepsBasic(s, t, q, s');
    case FinishHearing(t, n) => SyncedKeepsBasic(s, t, n, s');
    case SyncSend(t, slot) => SyncSendKeepsBasic(s, t, slot, s');
    case Ready(t) => ReadyKeepsBasic(s, t, s');
    case Propose(t, value) => ProposeKeepsBasic(s, t, value, s');
    case Redrive(t, slot) =>
      RedriveRepeats(s, t, slot);
      assert s'.sent == s.sent;
    case Deliver(p, q) => DeliverKeepsBasic(s, p, q, s');
    case Commit(q, slot) =>
      ApplyReadyFacts(s.reps[q].(committed := s.reps[q].committed + {slot}));
      AdvanceKeepsBasic(s, q, s');
  }

  lemma NextKeepsInv(s: Group, step: Step, s': Group)
    requires Inv(s) && Next(s, step, s')
    ensures Inv(s')
  {
    BasicKept(s, step, s');
    SuccessionKept(s, step, s');
  }

  lemma {:induction false} RunKeepsInv(run: seq<Group>, steps: seq<Step>, n: nat)
    requires IsRun(run, steps) && n < |run|
    ensures Inv(run[n])
  {
    if n > 0 {
      RunKeepsInv(run, steps, n - 1);
      NextKeepsInv(run[n - 1], steps[n - 1], run[n]);
    }
  }

  // ---------- results ----------

  /** A quorum of replicas stored v at this slot in the given term (whatever they stored later). */
  ghost predicate Chosen(s: Group, quorum: set<Rid>, p: Proposal) {
    && quorum <= s.reps.Keys && |quorum| >= QuorumSize(|s.reps.Keys|)
    && forall q | q in quorum :: Ack(q, p) in s.acks
  }

  /** A chosen proposal is never overtaken: the later sync's quorum would share a replica with its own. */
  lemma ChosenIsNotOvertaken(s: Group, quorum: set<Rid>, c: Proposal)
    requires BasicInv(s) && Chosen(s, quorum, c)
    ensures !Overtaken(s, c)
  {
    forall u | u in s.sessions && c.term < u && s.sessions[u].synced
      ensures exists q | q in s.sessions[u].heard :: Ack(q, c) in s.acks
    {
      assert SessionOk(s, u, s.sessions[u]);
      hide BasicInv, SessionOk;
      var q := QuorumsMeet(s.reps.Keys, quorum, s.sessions[u].heard);
    }
  }

  /** So whatever a later term sends at the slot of a chosen proposal is its value. */
  lemma ChosenIsInherited(s: Group, quorum: set<Rid>, c: Proposal, p: Proposal)
    requires Inv(s) && Chosen(s, quorum, c)
    requires p in s.sent && p.slot == c.slot && p.term >= c.term
    ensures p.value == c.value
  {
    ChosenWasSent(s, quorum, c);
    ChosenIsNotOvertaken(s, quorum, c);
    assert OneValuePerTerm(s);
    hide BasicInv, Overtaken;
  }

  lemma ChosenWasSent(s: Group, quorum: set<Rid>, c: Proposal)
    requires BasicInv(s) && Chosen(s, quorum, c)
    ensures c in s.sent
  {
    var q := QuorumsMeet(s.reps.Keys, quorum, quorum);
    assert AckOk(s, Ack(q, c));
  }
}
