/**
 A run of module Transactions with something to serialize: one transaction commits a write, and a second
 one reads it under a lock and passes its commit fence.
 */
module SerialRun {
  import opened Options
  import opened Clock
  import opened Locks
  import opened Transactions

  const WRITE := Mutation(7, Some("v"))
  const FIRST := Timestamp(1, 0)
  const SECOND := Timestamp(2, 0)

  function Writer(phase: Phase): Txn {
    Txn(Age(1, 0, 0), phase, [WRITE], {}, None)
  }

  function Stamped(phase: Phase): Txn {
    Writer(phase).(commitTs := Some(FIRST))
  }

  function Reader(phase: Phase): Txn {
    Txn(Age(2, 0, 1), phase, [], {}, None)
  }

  function Observer(phase: Phase): Txn {
    Reader(phase).(observed := {(7, Some("v"))})
  }

  /** The table in which one transaction holds the write lock on the key. */
  function Holding(t: TxnId, age: Age): State {
    State(map[7 := Lock(map[], Some(Holder(t, age)))], map[t := {7}], {}, {})
  }

  function Store(): set<Version> {
    {Version(7, FIRST, Some("v"), 0)}
  }

  lemma GrantsFreeKey(t: TxnId, age: Age)
    ensures Acquire(EMPTY, t, age, 7, Write, false) == (Holding(t, age), Acquired)
  {
    assert Conflicts(EMPTY.LockAt(7), t, Write) == {};
    assert Victims(EMPTY, t, age, 7, Write) == {};
    assert EMPTY.HeldKeys(t) + {7} == {7};
    assert Grant(EMPTY, t, age, 7, Write) == Holding(t, age);
  }

  lemma RetireFrees(t: TxnId, age: Age)
    ensures Retire(Fence(Holding(t, age), t), t) == EMPTY
  {
    var s := Fence(Holding(t, age), t);
    assert s.locks[7].Without({t}).Empty();
    assert Release(s, {t}).locks == map[];
    assert Release(s, {t}).held == map[];
  }

  /** The write, up to its commit fence. */
  function WriterRun(): seq<System> {
    var age := Age(1, 0, 0);
    [System(EMPTY, map[], {}, None, None),
     System(EMPTY, map[0 := Txn(age, Active, [], {}, None)], {}, None, None),
     System(EMPTY, map[0 := Writer(Active)], {}, None, None),
     System(EMPTY, map[0 := Writer(Preparing({7}))], {}, None, None),
     System(Holding(0, age), map[0 := Writer(Preparing({}))], {}, None, None),
     System(Holding(0, age), map[0 := Stamped(Chosen)], {}, Some(FIRST), None),
     System(Fence(Holding(0, age), 0), map[0 := Stamped(Applying(0))], {}, Some(FIRST), None)]
  }

  function WriterSteps(): seq<Step> {
    [Begin(0, Age(1, 0, 0)), Buffer(0, WRITE), StartCommit(0), LockForWrite(0, 7, false), Choose(0, FIRST, 1), Seal(0)]
  }

  /** The rest of the commit. */
  function CommitRun(): seq<System> {
    var fenced := Fence(Holding(0, Age(1, 0, 0)), 0);
    [System(fenced, map[0 := Stamped(Applying(1))], Store(), Some(FIRST), None),
     System(fenced, map[0 := Stamped(Advanced)], Store(), Some(FIRST), Some(FIRST)),
     System(EMPTY, map[0 := Stamped(Committed)], Store(), Some(FIRST), Some(FIRST))]
  }

  function CommitSteps(): seq<Step> {
    [Apply(0), Advance(0), Finalize(0)]
  }

  /** The second transaction: a locked read, then its own commit up to the fence. */
  function ReaderRun(): seq<System> {
    var age, done := Age(2, 0, 1), Stamped(Committed);
    var held := Holding(1, age);
    [System(EMPTY, map[0 := done, 1 := Reader(Active)], Store(), Some(FIRST), Some(FIRST)),
     System(held, map[0 := done, 1 := Reader(Locked(7))], Store(), Some(FIRST), Some(FIRST)),
     System(held, map[0 := done, 1 := Reader(ReadAt(7, SECOND))], Store(), Some(FIRST), Some(FIRST)),
     System(held, map[0 := done, 1 := Observer(Active)], Store(), Some(FIRST), Some(FIRST)),
     System(held, map[0 := done, 1 := Observer(Preparing({}))], Store(), Some(FIRST), Some(FIRST)),
     System(held, map[0 := done, 1 := Observer(Chosen).(commitTs := Some(SECOND))], Store(), Some(SECOND), Some(FIRST)),
     System(Fence(held, 1), map[0 := done, 1 := Observer(Applying(0)).(commitTs := Some(SECOND))], Store(), Some(SECOND), Some(FIRST))]
  }

  function ReaderSteps(): seq<Step> {
    [Begin(1, Age(2, 0, 1)), LockForRead(1, 7, false), PickReadTime(1, SECOND), ReadStore(1, Some("v")), StartCommit(1),
     Choose(1, SECOND, 2), Seal(1)]
  }

  lemma WriterBuffers()
    ensures forall i | 0 <= i < 3 :: Next(WriterRun()[i], WriterSteps()[i], WriterRun()[i + 1])
  {
    assert [] + [WRITE] == [WRITE];
    assert Writer(Active).WriteKeys() == {7};
  }

  lemma WriterLocks()
    ensures forall i | 3 <= i < 6 :: Next(WriterRun()[i], WriterSteps()[i], WriterRun()[i + 1])
  {
    WriterLock();
    WriterChoosesAndSeals();
    hide Next, WriterRun, WriterSteps;
  }

  lemma WriterLock()
    ensures Next(WriterRun()[3], WriterSteps()[3], WriterRun()[4])
  {
    GrantsFreeKey(0, Age(1, 0, 0));
    hide Acquire, Holding;
    assert {7} - {7} == {};
  }

  lemma WriterChoosesAndSeals()
    ensures Next(WriterRun()[4], WriterSteps()[4], WriterRun()[5]) && Next(WriterRun()[5], WriterSteps()[5], WriterRun()[6])
  {
    assert CommitTimestamp(FIRST, 1, None) == FIRST;
    assert 0 !in Holding(0, Age(1, 0, 0)).wounded;
    hide Holding;
  }

  lemma WriterCommits()
    ensures Next(WriterRun()[6], CommitSteps()[0], CommitRun()[0])
    ensures forall i | 0 <= i < 2 :: Next(CommitRun()[i], CommitSteps()[i + 1], CommitRun()[i + 1])
  {
    RetireFrees(0, Age(1, 0, 0));
    hide Retire, Fence;
    assert {} + {Version(7, FIRST, Some("v"), 0)} == Store();
  }

  lemma ReaderLocks()
    ensures Next(CommitRun()[2], ReaderSteps()[0], ReaderRun()[0])
    ensures Next(ReaderRun()[0], ReaderSteps()[1], ReaderRun()[1])
  {
    GrantsFreeKey(1, Age(2, 0, 1));
    hide Acquire, Holding;
    assert Reader(Active).WriteKeys() == {};
  }

  lemma ReaderPicks()
    ensures Next(ReaderRun()[1], ReaderSteps()[2], ReaderRun()[2])
  {
    hide Holding;
    assert ReadTimestamp(SECOND, Some(FIRST)) == SECOND;
  }

  lemma ReaderObserves()
    ensures Next(ReaderRun()[2], ReaderSteps()[3], ReaderRun()[3])
  {
    ShowsWrite();
    hide Holding, Shows;
    assert {} + {(7, Some("v"))} == Observer(Active).observed;
  }

  lemma ShowsWrite()
    ensures Shows(Store(), 7, UpTo(SECOND), Some("v"))
  {
    assert Version(7, FIRST, Some("v"), 0) in Store() && UpTo(SECOND)(FIRST);
  }

  lemma ReaderReads()
    ensures Next(CommitRun()[2], ReaderSteps()[0], ReaderRun()[0])
    ensures forall i | 0 <= i < 3 :: Next(ReaderRun()[i], ReaderSteps()[i + 1], ReaderRun()[i + 1])
  {
    ReaderLocks();
    ReaderPicks();
    ReaderObserves();
    hide Next, ReaderRun, ReaderSteps;
  }

  lemma ReaderCommits()
    ensures forall i | 3 <= i < 6 :: Next(ReaderRun()[i], ReaderSteps()[i + 1], ReaderRun()[i + 1])
  {
    assert Observer(Active).WriteKeys() == {};
  }

  /** A sealed transaction that read another one's write. */
  lemma ReadFromPredecessor() returns (run: seq<System>, steps: seq<Step>)
    ensures IsRun(run, steps) && |run| == 17
    ensures run[16].txns.Keys == {0, 1} && run[16].txns[0].Sealed() && run[16].txns[1].Sealed()
    ensures WRITE in run[16].txns[0].mutations && (7, Some("v")) in run[16].txns[1].observed
  {
    WriterIsRun();
    WriterCommits();
    ReaderReads();
    ReaderCommits();
    hide Next, IsRun, WriterRun, WriterSteps;
    Appended(WriterRun(), WriterSteps(), CommitRun(), CommitSteps());
    hide CommitRun, CommitSteps;
    Appended(WriterRun() + CommitRun(), WriterSteps() + CommitSteps(), ReaderRun(), ReaderSteps());
    run, steps := WriterRun() + CommitRun() + ReaderRun(), WriterSteps() + CommitSteps() + ReaderSteps();
    assert run[16] == ReaderRun()[6];
  }

  lemma WriterIsRun()
    ensures IsRun(WriterRun(), WriterSteps()) && |WriterRun()| == 7 && WriterRun()[6].table == Fence(Holding(0, Age(1, 0, 0)), 0)
  {
    WriterBuffers();
    WriterLocks();
    hide Next;
  }

  /** A run goes on with further states. */
  lemma Appended(run: seq<System>, steps: seq<Step>, more: seq<System>, moreSteps: seq<Step>)
    requires IsRun(run, steps) && |more| == |moreSteps| > 0 && Next(run[|run| - 1], moreSteps[0], more[0])
    requires forall i | 0 <= i < |more| - 1 :: Next(more[i], moreSteps[i + 1], more[i + 1])
    ensures IsRun(run + more, steps + moreSteps)
  {
    hide Next;
    var r, t := run + more, steps + moreSteps;
    forall i | 0 <= i < |t|
      ensures Next(r[i], t[i], r[i + 1])
    {
      var k := i - |steps|;
      if k < 0 {
        assert r[i] == run[i] && t[i] == steps[i] && r[i + 1] == run[i + 1];
      } else if k == 0 {
        assert r[i] == run[|run| - 1] && t[i] == moreSteps[0] && r[i + 1] == more[0];
      } else {
        assert r[i] == more[k - 1] && t[i] == moreSteps[k] && r[i + 1] == more[k];
      }
    }
  }
}
