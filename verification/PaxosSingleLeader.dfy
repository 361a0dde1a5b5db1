/**
 Log agreement when only one replica ever wins elections (possibly many times, each time in a higher
 term). Any message may be lost, also the leader's messages to itself; syncs may hear any replicas.
 */
module PaxosSingleLeader {
  import opened Options
  import opened Clock
  import opened PaxosReplica

  datatype Proposal = Proposal(term: nat, slot: nat, value: Value)

  datatype Group = Group(
    leader: Rid,
    reps: map<Rid, Replica>,
    known: set<(nat, Value)>,              // slots and values seen in sync replies
    sent: set<Proposal>,
    counted: map<Proposal, set<Rid>>,      // accept replies that reached the leader
    commits: set<nat>,                     // slots for which CommitNotify was sent
    proposed: map<nat, Value>)            // history: the value first proposed at each slot

  datatype Step =
    | Campaign(r: Rid)
    | GrantVote(q: Rid, term: nat, candidate: Rid, check: Interval, stamp: Interval, leaseNs: nat)
    | Hear(q: Rid)
    | RaiseSlot(n: nat)
    | SyncSend(slot: nat, value: Value)
    | Propose(value: Value)
    | Redrive(slot: nat)
    | Deliver(p: Proposal, q: Rid, answered: bool)
    | SendCommit(p: Proposal)
    | DeliverCommit(slot: nat, q: Rid)

  function Counted(s: Group, p: Proposal): set<Rid> {
    if p in s.counted then s.counted[p] else {}
  }

  ghost predicate Next(s: Group, step: Step, s': Group) {
    && s.leader in s.reps
    && var x := s.reps[s.leader];
    match step
    case Campaign(r) =>
      r in s.reps && s' == s.(reps := s.reps[r := s.reps[r].(role := Candidate, term := s.reps[r].term + 1)])
    case GrantVote(q, term, candidate, check, stamp, leaseNs) =>
      q in s.reps && s' == s.(reps := s.reps[q := OnLeaseVote(q, s.reps[q], term, candidate, check, stamp, leaseNs).0])
    case Hear(q) =>
      q in s.reps && s' == s.(known := s.known + set slot | slot in s.reps[q].log :: (slot, s.reps[q].log[slot].value))
    case RaiseSlot(n) =>
      n >= x.nextSlot && s' == s.(reps := s.reps[s.leader := x.(nextSlot := n)])
    case SyncSend(slot, value) =>
      (slot, value) in s.known && s' == s.(sent := s.sent + {Proposal(x.term, slot, value)})
    case Propose(value) =>
      s' == s.(reps := s.reps[s.leader := x.(nextSlot := x.nextSlot + 1)],
               sent := s.sent + {Proposal(x.term, x.nextSlot, value)},
               proposed := s.proposed[x.nextSlot := value])
    case Redrive(slot) =>
      slot in x.log && slot !in x.committed && s' == s.(sent := s.sent + {Proposal(x.term, slot, x.log[slot].value)})
    case Deliver(p, q, answered) =>
      && p in s.sent && q in s.reps
      && var (y, accepted) := OnAccept(s.reps[q], p.term, p.slot, p.value);
      && s' == s.(reps := s.reps[q := y],
                  counted := if accepted && answered then s.counted[p := Counted(s, p) + {q}] else s.counted)
    case SendCommit(p) =>
      |Counted(s, p)| >= QuorumSize(|s.reps.Keys|) && s' == s.(commits := s.commits + {p.slot})
    case DeliverCommit(slot, q) =>
      slot in s.commits && q in s.reps && s' == s.(reps := s.reps[q := OnCommit(s.reps[q], slot)])
  }

  ghost predicate Init(s: Group) {
    && s.leader in s.reps && s.known == {} && s.sent == {} && s.counted == map[] && s.commits == {} && s.proposed == map[]
    && forall r | r in s.reps :: s.reps[r] == FRESH
  }

  ghost predicate IsRun(run: seq<Group>, steps: seq<Step>) {
    && |run| == |steps| + 1 && Init(run[0])
    && forall i | 0 <= i < |steps| :: Next(run[i], steps[i], run[i + 1])
  }

  // ---------- invariant ----------

  ghost predicate Agrees(s: Group, slot: nat, value: Value) {
    slot in s.proposed && s.proposed[slot] == value
  }

  ghost predicate Stores(s: Group, q: Rid, slot: nat) {
    q in s.reps && slot in s.reps[q].log && Agrees(s, slot, s.reps[q].log[slot].value)
  }

  ghost predicate ReplicaOk(s: Group, x: Replica) {
    && (forall slot | slot in x.log :: Agrees(s, slot, x.log[slot].value))
    && x.committed <= s.commits
    && (forall i | 0 <= i < |x.applied| :: i in s.commits && Agrees(s, i, x.applied[i]))
  }

  ghost predicate StoredByQuorum(s: Group, slot: nat) {
    exists p | p in s.counted :: p.slot == slot && |s.counted[p]| >= QuorumSize(|s.reps.Keys|)
  }

  ghost predicate Inv(s: Group) {
    && s.leader in s.reps
    && (forall slot | slot in s.proposed :: slot < s.reps[s.leader].nextSlot)
    && (forall p | p in s.sent :: Agrees(s, p.slot, p.value))
    && (forall k | k in s.known :: Agrees(s, k.0, k.1))
    && (forall q | q in s.reps :: ReplicaOk(s, s.reps[q]))
    && (forall p, q | p in s.counted && q in s.counted[p] :: Stores(s, q, p.slot))
    && (forall slot | slot in s.commits :: StoredByQuorum(s, slot))
  }

  /** Only replica q changed; it kept its log and lost nothing. */
  lemma ReplicaStepKeepsInv(s: Group, q: Rid, x: Replica, s': Group)
    requires Inv(s) && q in s.reps && s' == s.(reps := s.reps[q := x])
    requires x.log == s.reps[q].log && x.nextSlot >= s.reps[q].nextSlot && ReplicaOk(s', x)
    ensures Inv(s')
  {
    assert s'.reps.Keys == s.reps.Keys;
    forall r | r in s'.reps
      ensures ReplicaOk(s', s'.reps[r])
    {
      assert ReplicaOk(s, s.reps[r]);
    }
    forall p, r | p in s'.counted && r in s'.counted[p]
      ensures Stores(s', r, p.slot)
    {
      assert Stores(s, r, p.slot);
    }
    QuorumFrame(s, s');
  }

  lemma QuorumFrame(s: Group, s': Group)
    requires forall slot | slot in s.commits :: StoredByQuorum(s, slot)
    requires s'.reps.Keys == s.reps.Keys && s'.counted == s.counted
    ensures forall slot | slot in s.commits :: StoredByQuorum(s', slot)
  {
    forall slot | slot in s.commits
      ensures StoredByQuorum(s', slot)
    {
      var p :| p in s.counted && p.slot == slot && |s.counted[p]| >= QuorumSize(|s.reps.Keys|);
    }
  }

  /** Sending a value the slot already carries. */
  lemma SendKeepsInv(s: Group, p: Proposal, s': Group)
    requires Inv(s) && Agrees(s, p.slot, p.value) && s' == s.(sent := s.sent + {p})
    ensures Inv(s')
  {
    forall r | r in s'.reps
      ensures ReplicaOk(s', s'.reps[r])
    {
      assert ReplicaOk(s, s.reps[r]);
    }
    forall q, r | q in s'.counted && r in s'.counted[q]
      ensures Stores(s', r, q.slot)
    {
      assert Stores(s, r, q.slot);
    }
    QuorumFrame(s, s');
  }

  /** A proposal takes a slot nobody ever used: burned slots are not reused. */
  lemma ProposeKeepsInv(s: Group, value: Value, s': Group)
    requires Inv(s) && Next(s, Propose(value), s')
    ensures Inv(s') && s.reps[s.leader].nextSlot !in s.proposed
  {
    assert s'.reps.Keys == s.reps.Keys;
    assert forall j, v :: Agrees(s, j, v) ==> Agrees(s', j, v);
    forall r | r in s'.reps
      ensures ReplicaOk(s', s'.reps[r])
    {
      assert ReplicaOk(s, s.reps[r]);
      ReplicaFrame(s, s', s.reps[r], s'.reps[r]);
    }
    forall p, r | p in s'.counted && r in s'.counted[p]
      ensures Stores(s', r, p.slot)
    {
      assert Stores(s, r, p.slot);
    }
    hide ReplicaOk, Stores, StoredByQuorum;
    QuorumFrame(s, s');
  }

  lemma ReplicaFrame(s: Group, s': Group, x: Replica, x': Replica)
    requires ReplicaOk(s, x) && s.commits <= s'.commits
    requires forall j, v :: Agrees(s, j, v) ==> Agrees(s', j, v)
    requires x'.log == x.log && x'.committed == x.committed && x'.applied == x.applied
    ensures ReplicaOk(s', x')
  {
    hide Agrees;
  }

  lemma DeliverKeepsInv(s: Group, p: Proposal, q: Rid, answered: bool, s': Group)
    requires Inv(s) && Next(s, Deliver(p, q, answered), s')
    ensures Inv(s')
  {
    assert s'.reps.Keys == s.reps.Keys;
    assert forall j, v :: Agrees(s, j, v) == Agrees(s', j, v);
    forall r | r in s'.reps
      ensures ReplicaOk(s', s'.reps[r])
    {
      assert ReplicaOk(s, s.reps[r]);
    }
    forall o, r | o in s'.counted && r in s'.counted[o]
      ensures Stores(s', r, o.slot)
    {
      assert Stores(s, r, o.slot) || (r == q && o == p);
    }
    CountedGrows(s, s', p, q);
  }

  lemma CountedGrows(s: Group, s': Group, p: Proposal, q: Rid)
    requires forall slot | slot in s.commits :: StoredByQuorum(s, slot)
    requires s'.reps.Keys == s.reps.Keys
    requires s'.counted == s.counted || s'.counted == s.counted[p := Counted(s, p) + {q}]
    ensures forall slot | slot in s.commits :: StoredByQuorum(s', slot)
  {
    forall slot | slot in s.commits
      ensures StoredByQuorum(s', slot)
    {
      var o :| o in s.counted && o.slot == slot && |s.counted[o]| >= QuorumSize(|s.reps.Keys|);
      assert s.counted[o] <= s'.counted[o];
      SubsetSize(s.counted[o], s'.counted[o]);
    }
  }

  lemma SendCommitKeepsInv(s: Group, p: Proposal, s': Group)
    requires Inv(s) && Next(s, SendCommit(p), s')
    ensures Inv(s')
  {
    forall r | r in s'.reps
      ensures ReplicaOk(s', s'.reps[r])
    {
      assert ReplicaOk(s, s.reps[r]);
    }
    forall o, r | o in s'.counted && r in s'.counted[o]
      ensures Stores(s', r, o.slot)
    {
      assert Stores(s, r, o.slot);
    }
    QuorumFrame(s, s');
    assert StoredByQuorum(s', p.slot) by {
      assert p in s'.counted;
    }
  }

  lemma HearKeepsInv(s: Group, q: Rid, s': Group)
    requires Inv(s) && Next(s, Hear(q), s')
    ensures Inv(s')
  {
    assert ReplicaOk(s, s.reps[q]);
    forall r | r in s'.reps
      ensures ReplicaOk(s', s'.reps[r])
    {
      assert ReplicaOk(s, s.reps[r]);
    }
    forall o, r | o in s'.counted && r in s'.counted[o]
      ensures Stores(s', r, o.slot)
    {
      assert Stores(s, r, o.slot);
    }
    QuorumFrame(s, s');
  }

  lemma CommitKeepsInv(s: Group, slot: nat, q: Rid, s': Group)
    requires Inv(s) && Next(s, DeliverCommit(slot, q), s')
    ensures Inv(s')
  {
    var x := s.reps[q];
    assert ReplicaOk(s, x);
    ApplyReadyFacts(x.(committed := x.committed + {slot}));
    var y := s'.reps[q];
    forall i | 0 <= i < |y.applied|
      ensures i in s.commits && Agrees(s, i, y.applied[i])
    {
      if i < |x.applied| {
        assert y.applied[i] == x.applied[i];
      } else {
        assert slot in x.log;
        assert i in x.committed + {slot} && i in x.log && y.applied[i] == x.log[i].value;
      }
    }
    assert ReplicaOk(s', y);
    ReplicaStepKeepsInv(s, q, s'.reps[q], s');
  }

  lemma NextKeepsInv(s: Group, step: Step, s': Group)
    requires Inv(s) && Next(s, step, s')
    ensures Inv(s')
  {
    match step
    case Campaign(r) =>
      assert ReplicaOk(s, s.reps[r]);
      ReplicaStepKeepsInv(s, r, s'.reps[r], s');
    case GrantVote(q, _, _, _, _, _) =>
      assert ReplicaOk(s, s.reps[q]);
      ReplicaStepKeepsInv(s, q, s'.reps[q], s');
    case Hear(q) => HearKeepsInv(s, q, s');
    case RaiseSlot(n) =>
      assert ReplicaOk(s, s.reps[s.leader]);
      ReplicaStepKeepsInv(s, s.leader, s'.reps[s.leader], s');
    case SyncSend(slot, value) =>
      SendKeepsInv(s, Proposal(s.reps[s.leader].term, slot, value), s');
    case Propose(value) => ProposeKeepsInv(s, value, s');
    case Redrive(slot) =>
      assert ReplicaOk(s, s.reps[s.leader]);
      SendKeepsInv(s, Proposal(s.reps[s.leader].term, slot, s.reps[s.leader].log[slot].value), s');
    case Deliver(p, q, answered) => DeliverKeepsInv(s, p, q, answered, s');
    case SendCommit(p) => SendCommitKeepsInv(s, p, s');
    case DeliverCommit(slot, q) => CommitKeepsInv(s, slot, q, s');
  }

  lemma {:induction false} RunKeepsInv(run: seq<Group>, steps: seq<Step>, n: nat)
    requires IsRun(run, steps) && n < |run|
    ensures Inv(run[n])
  {
    if n > 0 {
      RunKeepsInv(run, steps, n - 1);
      NextKeepsInv(run[n - 1], steps[n - 1], run[n]);
    } else {
      assert forall r | r in run[0].reps :: ReplicaOk(run[0], run[0].reps[r]);
    }
  }

  // ---------- results ----------

  /** No slot holds two values across replicas, in any reachable state and whatever was lost. */
  lemma OneValuePerSlot(run: seq<Group>, steps: seq<Step>, n: nat, a: Rid, b: Rid, slot: nat)
    requires IsRun(run, steps) && n < |run| && a in run[n].reps && b in run[n].reps
    requires slot in run[n].reps[a].log && slot in run[n].reps[b].log
    ensures run[n].reps[a].log[slot].value == run[n].reps[b].log[slot].value
  {
    RunKeepsInv(run, steps, n);
    assert ReplicaOk(run[n], run[n].reps[a]) && ReplicaOk(run[n], run[n].reps[b]);
  }

  /** A slot is marked committed anywhere only after a quorum stored its value, and they all still hold it. */
  lemma CommittedIsStoredByQuorum(run: seq<Group>, steps: seq<Step>, n: nat, q: Rid, slot: nat) returns (quorum: set<Rid>)
    requires IsRun(run, steps) && n < |run| && q in run[n].reps && slot in run[n].reps[q].committed
    ensures |quorum| >= QuorumSize(|run[n].reps.Keys|) && slot in run[n].proposed
    ensures forall r | r in quorum :: r in run[n].reps && slot in run[n].reps[r].log &&
                                      run[n].reps[r].log[slot].value == run[n].proposed[slot]
  {
    RunKeepsInv(run, steps, n);
    var s := run[n];
    assert ReplicaOk(s, s.reps[q]);
    var p :| p in s.counted && p.slot == slot && |s.counted[p]| >= QuorumSize(|s.reps.Keys|);
    quorum := s.counted[p];
    forall r | r in quorum
      ensures Stores(s, r, slot)
    {
      assert Stores(s, r, p.slot);
    }
    assert quorum != {};
    var r :| r in quorum;
    assert Stores(s, r, slot);
  }

  /** Any two replicas' state machines received prefix-comparable value sequences. */
  lemma AppliedPrefixes(run: seq<Group>, steps: seq<Step>, n: nat, a: Rid, b: Rid)
    requires IsRun(run, steps) && n < |run| && a in run[n].reps && b in run[n].reps
    ensures run[n].reps[a].applied <= run[n].reps[b].applied || run[n].reps[b].applied <= run[n].reps[a].applied
  {
    RunKeepsInv(run, steps, n);
    var s := run[n];
    assert ReplicaOk(s, s.reps[a]) && ReplicaOk(s, s.reps[b]);
    var x, y := s.reps[a].applied, s.reps[b].applied;
    assert forall i | 0 <= i < |x| && i < |y| :: Agrees(s, i, x[i]) && Agrees(s, i, y[i]);
  }
}
