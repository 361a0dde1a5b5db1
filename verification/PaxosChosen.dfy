/** What the guarded runs of module PaxosLog guarantee about chosen values. */
module PaxosChosen {
  import opened Options
  import opened Clock
  import opened PaxosReplica
  import opened PaxosLog

  /**
   Chosen values survive leader changes: in every run, once a quorum stored a value at a slot, every
   accept request a leader of that or a later term ever sends for that slot (by sync, by re-drive or
   by proposing) carries that same value.
   */
  lemma ChosenSurvives(run: seq<Group>, steps: seq<Step>, n: nat, quorum: set<Rid>, c: Proposal, p: Proposal)
    requires IsRun(run, steps) && n < |run| && Chosen(run[n], quorum, c)
    requires p in run[n].sent && p.slot == c.slot && p.term >= c.term
    ensures p.value == c.value
  {
    RunKeepsInv(run, steps, n);
    ChosenIsInherited(run[n], quorum, c, p);
  }

  /** Two values chosen at the same slot, at whatever terms and by whatever quorums, are equal. */
  lemma OneChosenValue(run: seq<Group>, steps: seq<Step>, n: nat, q1: set<Rid>, c1: Proposal, q2: set<Rid>, c2: Proposal)
    requires IsRun(run, steps) && n < |run| && Chosen(run[n], q1, c1) && Chosen(run[n], q2, c2) && c1.slot == c2.slot
    ensures c1.value == c2.value
  {
    RunKeepsInv(run, steps, n);
    var q := QuorumsMeet(run[n].reps.Keys, q1, q2);
    assert AckOk(run[n], Ack(q, c1)) && AckOk(run[n], Ack(q, c2));
    if c1.term <= c2.term {
      ChosenIsInherited(run[n], q1, c1, c2);
    } else {
      ChosenIsInherited(run[n], q2, c2, c1);
    }
  }
}
