/**
 One Paxos replica: its state, its four message handlers as functions, and class `PaxosGroup`,
 whose imperative handlers and counting loops are proved to compute those functions.
 */
module PaxosReplica {
  import opened Options
  import opened Clock

  type Rid = nat
  type Value = string

  datatype Role = Follower | Candidate | Leader

  datatype Entry = Entry(term: nat, value: Value)

  datatype Vote = Vote(term: nat, candidate: Option<Rid>, end: int)

  datatype Replica = Replica(
    role: Role,
    leader: Option<Rid>,
    term: nat,
    leaseEnd: int,
    log: map<nat, Entry>,
    committed: set<nat>,
    nextSlot: nat,
    applied: seq<Value>,      // what the state machine received; applied_index is |applied| - 1
    lastVote: Vote)

  const FRESH := Replica(Follower, None, 0, 0, map[], {}, 0, [], Vote(0, None, 0))

  function QuorumSize(n: nat): nat {
    n / 2 + 1
  }

  /** The smallest number of replicas that is more than half. */
  lemma QuorumIsMajority(n: nat, m: nat)
    ensures m >= QuorumSize(n) <==> 2 * m > n
  {
  }

  // ---------- handlers ----------

  /**
   _on_lease_vote: Some(vote_end) when granted. `check` is the clock reading behind TT.after on the
   outstanding vote, `stamp` the reading that dates the new vote.
   */
  function OnLeaseVote(self: Rid, r: Replica, term: nat, candidate: Rid, check: Interval, stamp: Interval, leaseNs: nat)
    : (Replica, Option<int>)
  {
    if term < r.term then (r, None)
    else if r.lastVote.candidate.Some? && r.lastVote.candidate.value != candidate && !check.After(r.lastVote.end) then
      (r, None)
    else
      var end := stamp.latest + leaseNs;
      (r.(term := term,
          role := if candidate != self then Follower else r.role,
          leader := Some(candidate),
          lastVote := Vote(term, Some(candidate), end)),
       Some(end))
  }

  /** _on_accept: true when the value was stored. */
  function OnAccept(r: Replica, term: nat, slot: nat, value: Value): (Replica, bool) {
    if term < r.term then (r, false)
    else (r.(term := term, log := r.log[slot := Entry(term, value)],
             nextSlot := if r.nextSlot > slot + 1 then r.nextSlot else slot + 1), true)
  }

  /** _apply_ready: hands over the committed values that follow the last one applied. */
  function ApplyReady(r: Replica): Replica
    decreases |Unapplied(r)|
  {
    var i := |r.applied|;
    if i in r.committed && i in r.log then
      var r' := r.(applied := r.applied + [r.log[i].value]);
      assert Unapplied(r') == Unapplied(r) - {i};
      assert i in Unapplied(r);
      ApplyReady(r')
    else r
  }

  function Unapplied(r: Replica): set<nat> {
    set s | s in r.committed && s >= |r.applied|
  }

  function OnCommit(r: Replica, slot: nat): Replica {
    if slot in r.log then ApplyReady(r.(committed := r.committed + {slot})) else r
  }

  function HasLease(r: Replica, tt: Interval): bool {
    r.role == Leader && tt.latest < r.leaseEnd
  }

  /** A lease is certain: however the clock errs within its bounds, it has not ended. */
  lemma LeaseIsCertain(r: Replica, tt: Interval)
    requires tt.earliest <= tt.latest
    ensures HasLease(r, tt) <==> r.role == Leader && forall instant | tt.Contains(instant) :: instant < r.leaseEnd
  {
    assert tt.Contains(tt.latest);
  }

  /**
   A vote is granted exactly for a term that is not behind, to a candidate nobody else has an outstanding
   vote against; a candidate may renew its own vote before the old one ends.
   */
  lemma VoteGrantedIff(self: Rid, r: Replica, term: nat, candidate: Rid, check: Interval, stamp: Interval, leaseNs: nat)
    ensures
      var (r', granted) := OnLeaseVote(self, r, term, candidate, check, stamp, leaseNs);
      && (granted.Some? <==>
            term >= r.term && (r.lastVote.candidate == None || r.lastVote.candidate == Some(candidate) || check.After(r.lastVote.end)))
      && (granted.None? ==> r' == r)
      && (granted.Some? ==>
            && granted.value == stamp.latest + leaseNs && r'.lastVote == Vote(term, Some(candidate), granted.value)
            && r'.term == term && r'.leader == Some(candidate) && r'.role == (if candidate == self then r.role else Follower)
            && r' == r.(role := r'.role, term := r'.term, leader := r'.leader, lastVote := r'.lastVote))
  {
  }

  /**
   A commit notice for an unknown slot changes nothing. For a known one it marks that slot and no other, and
   hands over the logged values of committed slots in order until the next slot is not committed or not known.
   */
  lemma OnCommitFacts(r: Replica, slot: nat)
    ensures slot !in r.log ==> OnCommit(r, slot) == r
    ensures slot in r.log ==> CommitApplied(r, slot, OnCommit(r, slot))
  {
    ApplyReadyFacts(r.(committed := r.committed + {slot}));
  }

  ghost predicate CommitApplied(r: Replica, slot: nat, r': Replica) {
    && r'.committed == r.committed + {slot} && r' == r.(committed := r'.committed, applied := r'.applied)
    && r.applied <= r'.applied && !(|r'.applied| in r'.committed && |r'.applied| in r.log)
    && forall i | |r.applied| <= i < |r'.applied| :: i in r'.committed && i in r.log && r'.applied[i] == r.log[i].value
  }

  /** Applying only ever appends the logged values of committed slots, in slot order. */
  lemma {:induction false} ApplyReadyFacts(r: Replica)
    ensures ApplyReady(r).(applied := r.applied) == r
    ensures r.applied <= ApplyReady(r).applied
    ensures forall i | |r.applied| <= i < |ApplyReady(r).applied| ::
              i in r.committed && i in r.log && ApplyReady(r).applied[i] == r.log[i].value
    ensures var next := |ApplyReady(r).applied|; !(next in r.committed && next in r.log)
    decreases |Unapplied(r)|
  {
    var i := |r.applied|;
    if i in r.committed && i in r.log {
      var r' := r.(applied := r.applied + [r.log[i].value]);
      assert Unapplied(r') == Unapplied(r) - {i} && i in Unapplied(r);
      ApplyReadyFacts(r');
    }
  }

  // ---------- the leader's counting and merging ----------

  /** The value with the highest term per slot over a list of logs; earlier replies win ties. */
  function Merged(logs: seq<map<nat, Entry>>): map<nat, Entry> {
    if logs == [] then map[]
    else MergeInto(Merged(logs[..|logs| - 1]), logs[|logs| - 1])
  }

  function MergeInto(m: map<nat, Entry>, l: map<nat, Entry>): map<nat, Entry> {
    map s | s in m.Keys + l.Keys :: if s in l && (s !in m || m[s].term < l[s].term) then l[s] else m[s]
  }

  /** Merging keeps, for every slot some reply mentions, an entry of maximal term. */
  lemma {:induction false} MergedIsMaximal(logs: seq<map<nat, Entry>>)
    ensures forall s :: s in Merged(logs) <==> exists i :: 0 <= i < |logs| && s in logs[i]
    ensures forall s | s in Merged(logs) ::
              && (exists i :: 0 <= i < |logs| && s in logs[i] && logs[i][s] == Merged(logs)[s])
              && forall i | 0 <= i < |logs| && s in logs[i] :: logs[i][s].term <= Merged(logs)[s].term
  {
    if logs != [] {
      var n := |logs| - 1;
      var init := logs[..n];
      MergedIsMaximal(init);
      assert forall i | 0 <= i < n :: init[i] == logs[i];
      forall s
        ensures s in Merged(logs) <==> exists i :: 0 <= i < |logs| && s in logs[i]
        ensures s in Merged(logs) ==> exists i :: 0 <= i < |logs| && s in logs[i] && logs[i][s] == Merged(logs)[s]
      {
        if s in Merged(init) {
          var i :| 0 <= i < |init| && s in init[i] && init[i][s] == Merged(init)[s];
          assert s in logs[i] && logs[i][s] == Merged(init)[s];
        }
        if s in logs[n] {
          assert s in Merged(logs);
        }
      }
    }
  }

  /** Of replies with that term the first one counts. */
  lemma {:induction false} MergedIsFirst(logs: seq<map<nat, Entry>>, s: nat)
    requires s in Merged(logs)
    ensures exists i :: 0 <= i < |logs| && FirstOfTerm(logs, s, i) && logs[i][s] == Merged(logs)[s]
  {
    var n := |logs| - 1;
    var init := logs[..n];
    if s in logs[n] && (s !in Merged(init) || Merged(init)[s].term < logs[n][s].term) {
      MergedIsMaximal(init);
      assert forall j | 0 <= j < n :: init[j] == logs[j];
      assert FirstOfTerm(logs, s, n);
    } else {
      MergedIsFirst(init, s);
      var i :| 0 <= i < |init| && FirstOfTerm(init, s, i) && init[i][s] == Merged(init)[s];
      assert FirstOfTerm(logs, s, i);
    }
  }

  /** Reply i has the slot, and no earlier reply has it under the same term. */
  ghost predicate FirstOfTerm(logs: seq<map<nat, Entry>>, s: nat, i: nat)
    requires i < |logs|
  {
    s in logs[i] && forall j | 0 <= j < i && s in logs[j] :: logs[j][s].term != logs[i][s].term
  }

  class PaxosGroup {
    const self: Rid
    const replicas: seq<Rid>
    const leaseNs: nat
    var st: Replica

    constructor (self: Rid, replicas: seq<Rid>, leaseNs: nat)
      ensures this.self == self && this.replicas == replicas && this.leaseNs == leaseNs && st == FRESH
    {
      this.self, this.replicas, this.leaseNs, st := self, replicas, leaseNs, FRESH;
    }

    method HandleLeaseVote(term: nat, candidate: Rid, check: Interval, stamp: Interval) returns (granted: Option<int>)
      modifies this
      ensures (st, granted) == OnLeaseVote(self, old(st), term, candidate, check, stamp, leaseNs)
      ensures granted.Some? <==>
              term >= old(st).term && (old(st).lastVote.candidate.None? || old(st).lastVote.candidate == Some(candidate) ||
                                       check.After(old(st).lastVote.end))
      ensures granted.None? ==> st == old(st)
      ensures granted.Some? ==> granted.value == stamp.latest + leaseNs && st.lastVote == Vote(term, Some(candidate), granted.value)
    {
      if term < st.term {
        return None;
      }
      if st.lastVote.candidate.Some? && st.lastVote.candidate.value != candidate && !check.After(st.lastVote.end) {
        return None;
      }
      st := st.(term := term);
      if candidate != self {
        st := st.(role := Follower);
      }
      st := st.(leader := Some(candidate));
      var end := stamp.latest + leaseNs;
      st := st.(lastVote := Vote(term, Some(candidate), end));
      granted := Some(end);
    }

    method HandleAccept(term: nat, slot: nat, value: Value) returns (accepted: bool)
      modifies this
      ensures (st, accepted) == OnAccept(old(st), term, slot, value)
      ensures accepted <==> term >= old(st).term
      ensures st == if accepted then old(st).(term := term, log := old(st).log[slot := Entry(term, value)], nextSlot := st.nextSlot) else old(st)
      ensures accepted ==> st.nextSlot > slot && st.nextSlot >= old(st).nextSlot && (st.nextSlot == slot + 1 || st.nextSlot == old(st).nextSlot)
    {
      if term < st.term {
        return false;
      }
      st := st.(term := term);
      st := st.(log := st.log[slot := Entry(term, value)]);
      if st.nextSlot < slot + 1 {
        st := st.(nextSlot := slot + 1);
      }
      accepted := true;
    }

    method HandleCommit(slot: nat)
      modifies this
      ensures st == OnCommit(old(st), slot)
      ensures slot !in old(st).log ==> st == old(st)
      ensures slot in old(st).log ==> CommitApplied(old(st), slot, st)
    {
      OnCommitFacts(st, slot);
      if slot in st.log {
        st := st.(committed := st.committed + {slot});
        while |st.applied| in st.committed && |st.applied| in st.log
          invariant ApplyReady(st) == OnCommit(old(st), slot)
          decreases |Unapplied(st)|
        {
          ghost var i, before := |st.applied|, st;
          st := st.(applied := st.applied + [st.log[|st.applied|].value]);
          assert Unapplied(st) == Unapplied(before) - {i} && i in Unapplied(before);
        }
      }
    }

    /** The end of request_leadership: the lease is the earliest end among a quorum of granted votes. */
    method TallyVotes(replies: seq<Option<int>>) returns (won: bool)
      requires |replies| == |replicas|
      modifies this
      ensures won <==> |Granted(replies)| >= QuorumSize(|replicas|)
      ensures !won ==> st == old(st).(role := Follower)
      ensures won ==> st == old(st).(role := Leader, leader := Some(self), leaseEnd := st.leaseEnd)
      ensures won ==> (exists i | i in Granted(replies) :: st.leaseEnd == replies[i].value)
      ensures won ==> (forall i | i in Granted(replies) :: st.leaseEnd <= replies[i].value)
    {
      var count, end := 0, 0;
      for i := 0 to |replies|
        invariant st == old(st)
        invariant count == |Granted(replies[..i])|
        invariant count > 0 ==> exists j | j in Granted(replies[..i]) :: end == replies[j].value
        invariant forall j | j in Granted(replies[..i]) :: end <= replies[j].value
      {
        GrantedStep(replies, i);
        if replies[i].Some? {
          if count == 0 || replies[i].value < end {
            end := replies[i].value;
          }
          count := count + 1;
        }
      }
      assert replies[..|replies|] == replies;
      won := count >= |replicas| / 2 + 1;
      if won {
        st := st.(role := Leader, leader := Some(self), leaseEnd := end);
      } else {
        st := st.(role := Follower);
      }
    }

    /** _sync_from_followers, the merge: only replies that arrived take part. */
    method MergeReplies(replies: seq<Option<map<nat, Entry>>>) returns (merged: map<nat, Entry>)
      ensures merged == Merged(Arrived(replies))
      ensures forall s :: s in merged <==> exists i :: 0 <= i < |replies| && replies[i].Some? && s in replies[i].value
      ensures forall i, s | 0 <= i < |replies| && replies[i].Some? && s in replies[i].value :: replies[i].value[s].term <= merged[s].term
    {
      merged := map[];
      for i := 0 to |replies|
        invariant merged == Merged(Arrived(replies[..i]))
      {
        ghost var before := Arrived(replies[..i]);
        assert replies[..i + 1][..i] == replies[..i];
        ghost var after := Arrived(replies[..i + 1]);
        if replies[i].Some? {
          assert after == before + [replies[i].value] && after[..|after| - 1] == before;
          merged := MergeOne(merged, replies[i].value);
        } else {
          assert after == before;
        }
      }
      assert replies[..|replies|] == replies;
      ArrivedMerge(replies);
    }

    static method MergeOne(merged: map<nat, Entry>, accepted: map<nat, Entry>) returns (result: map<nat, Entry>)
      ensures result == MergeInto(merged, accepted)
    {
      result := merged;
      var todo := accepted.Keys;
      while todo != {}
        invariant todo <= accepted.Keys
        invariant result.Keys == merged.Keys + (accepted.Keys - todo)
        invariant forall s | s in result ::
                    result[s] == if s in accepted && s !in todo && (s !in merged || merged[s].term < accepted[s].term)
                                 then accepted[s] else merged[s]
        decreases todo
      {
        var s :| s in todo;
        todo := todo - {s};
        if s !in result || result[s].term < accepted[s].term {
          result := result[s := accepted[s]];
        }
      }
    }
  }

  function Granted(replies: seq<Option<int>>): set<nat> {
    set i: nat | i < |replies| && replies[i].Some?
  }

  lemma GrantedStep(replies: seq<Option<int>>, i: nat)
    requires i < |replies|
    ensures Granted(replies[..i + 1]) == Granted(replies[..i]) + if replies[i].Some? then {i} else {}
    ensures i !in Granted(replies[..i])
  {
  }

  function Arrived(replies: seq<Option<map<nat, Entry>>>): seq<map<nat, Entry>> {
    if replies == [] then []
    else
      var n := |replies| - 1;
      Arrived(replies[..n]) + if replies[n].Some? then [replies[n].value] else []
  }

  lemma {:induction false} ArrivedIff(replies: seq<Option<map<nat, Entry>>>)
    ensures forall l :: l in Arrived(replies) <==> Some(l) in replies
  {
    if replies != [] {
      ArrivedIff(replies[..|replies| - 1]);
      assert replies == replies[..|replies| - 1] + [replies[|replies| - 1]];
    }
  }

  lemma ArrivedMerge(replies: seq<Option<map<nat, Entry>>>)
    ensures forall s :: s in Merged(Arrived(replies)) <==> exists i :: 0 <= i < |replies| && replies[i].Some? && s in replies[i].value
    ensures forall i, s | 0 <= i < |replies| && replies[i].Some? && s in replies[i].value ::
              replies[i].value[s].term <= Merged(Arrived(replies))[s].term
  {
    var logs := Arrived(replies);
    MergedIsMaximal(logs);
    ArrivedIff(replies);
    hide Merged, Arrived;
    forall s
      ensures s in Merged(logs) <==> exists i :: 0 <= i < |replies| && replies[i].Some? && s in replies[i].value
    {
      if s in Merged(logs) {
        var j :| 0 <= j < |logs| && s in logs[j];
        assert logs[j] in logs;
        var i :| 0 <= i < |replies| && replies[i] == Some(logs[j]);
        assert replies[i].Some? && s in replies[i].value;
      }
      if i :| 0 <= i < |replies| && replies[i].Some? && s in replies[i].value {
        assert replies[i] in replies;
        var j :| 0 <= j < |logs| && logs[j] == replies[i].value;
        assert s in logs[j];
      }
    }
    forall i, s | 0 <= i < |replies| && replies[i].Some? && s in replies[i].value
      ensures replies[i].value[s].term <= Merged(logs)[s].term
    {
      assert replies[i] in replies;
      var j :| 0 <= j < |logs| && logs[j] == replies[i].value;
      assert s in logs[j];
    }
  }

  // ---------- quorums ----------

  /** Any two quorums of the same replica set share a replica. */
  lemma QuorumsMeet(all: set<Rid>, a: set<Rid>, b: set<Rid>) returns (q: Rid)
    requires a <= all && b <= all && |a| >= QuorumSize(|all|) && |b| >= QuorumSize(|all|)
    ensures q in a && q in b
  {
    if a * b == {} {
      assert |a + b| == |a| + |b|;
      SubsetSize(a + b, all);
      assert false;
    }
    q :| q in a * b;
  }

  lemma SubsetSize(a: set<Rid>, b: set<Rid>)
    requires a <= b
    ensures |a| <= |b|
  {
    assert b == a + (b - a);
  }
}
