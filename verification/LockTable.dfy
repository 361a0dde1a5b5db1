/**
 The wound-wait lock table. `State` and the functions on it describe one critical section
 each (the code run while holding the table's condition variable); class `LockTable` is the
 imperative table, every method of which is proved to compute those functions.
 Transaction ids and keys are only compared, so both are natural numbers.
 */
module Locks {
  import opened Options
  import opened Clock

  type TxnId = nat
  type Key = nat

  /** Age of a transaction: start timestamp, ties broken by the transaction id. */
  datatype Age = Age(physical: nat, logical: nat, id: TxnId) {
    predicate Older(that: Age) {
      || physical < that.physical
      || (physical == that.physical && logical < that.logical)
      || (physical == that.physical && logical == that.logical && id < that.id)
    }
  }

  /** Age is start time: who began earlier is older, and the id decides between equal starts. */
  lemma OlderBeganEarlier(a: Age, b: Age)
    ensures
      var beganA, beganB := Timestamp(a.physical, a.logical), Timestamp(b.physical, b.logical);
      a.Older(b) <==> beganA.Less(beganB) || (beganA == beganB && a.id < b.id)
    ensures a != b ==> (a.Older(b) <==> !b.Older(a))
  {
  }

  datatype Holder = Holder(txn: TxnId, age: Age)

  datatype Lock = Lock(readers: map<TxnId, Age>, writer: Option<Holder>) {
    predicate Empty() {
      readers.Keys == {} && writer.None?
    }

    predicate HeldBy(t: TxnId) {
      t in readers || WrittenBy(t)
    }

    predicate WrittenBy(t: TxnId) {
      writer.Some? && writer.value.txn == t
    }

    /** The age recorded for a transaction that holds this lock. */
    function AgeOf(t: TxnId): Age
      requires HeldBy(t)
    {
      if t in readers then readers[t] else writer.value.age
    }

    function Without(ts: set<TxnId>): Lock {
      Lock(readers - ts, if writer.Some? && writer.value.txn in ts then None else writer)
    }
  }

  datatype Mode = Read | Write

  datatype Outcome = Acquired | Waiting | Aborted

  datatype State = State(
    locks: map<Key, Lock>,
    held: map<TxnId, set<Key>>,
    wounded: set<TxnId>,
    committing: set<TxnId>)
  {
    predicate Holds(t: TxnId, k: Key) {
      k in locks && locks[k].HeldBy(t)
    }

    predicate Writes(t: TxnId, k: Key) {
      k in locks && locks[k].WrittenBy(t)
    }

    function LockAt(k: Key): Lock {
      if k in locks then locks[k] else Lock(map[], None)
    }

    function HeldKeys(t: TxnId): set<Key> {
      if t in held then held[t] else {}
    }
  }

  const EMPTY := State(map[], map[], {}, {})

  /** A write-locked key has no other holder. */
  ghost predicate Exclusive(s: State) {
    forall k, t | s.Holds(t, k) && s.locks[k].writer.Some? :: t == s.locks[k].writer.value.txn
  }

  /** The per-transaction sets mirror the per-key records, and no empty record is left. */
  ghost predicate Mirrored(s: State) {
    && (forall k | k in s.locks :: !s.locks[k].Empty())
    && (forall t, k :: k in s.HeldKeys(t) <==> s.Holds(t, k))
  }

  /** Wounded transactions hold nothing, and none of them is past the commit fence. */
  ghost predicate Fenced(s: State) {
    && (forall t | t in s.wounded :: s.HeldKeys(t) == {})
    && s.wounded !! s.committing
  }

  /** A transaction that upgraded a lock is recorded with one age. */
  ghost predicate OneAge(s: State) {
    forall k | k in s.locks && s.locks[k].writer.Some? && s.locks[k].writer.value.txn in s.locks[k].readers ::
      s.locks[k].readers[s.locks[k].writer.value.txn] == s.locks[k].writer.value.age
  }

  ghost predicate Valid(s: State) {
    Exclusive(s) && Mirrored(s) && Fenced(s) && OneAge(s)
  }

  /** Callers pass the same age every time: it is fixed when the transaction begins. */
  ghost predicate SameAge(s: State, t: TxnId, age: Age, k: Key) {
    s.Holds(t, k) ==> s.locks[k].AgeOf(t) == age
  }

  // ---------- what one critical section does ----------

  /** Strips every lock of the given transactions and drops the records left empty. */
  function Release(s: State, ts: set<TxnId>): State {
    s.(locks := map k | k in s.locks && !s.locks[k].Without(ts).Empty() :: s.locks[k].Without(ts),
       held := s.held - ts)
  }

  function Wound(s: State, ts: set<TxnId>): State {
    Release(s, ts).(wounded := s.wounded + ts)
  }

  function Conflicts(l: Lock, t: TxnId, mode: Mode): set<TxnId> {
    (if mode == Write then l.readers.Keys - {t} else {}) +
    (if l.writer.Some? && l.writer.value.txn != t then {l.writer.value.txn} else {})
  }

  /** The conflicting holders a requester wounds: strictly younger and not committing. */
  function Victims(s: State, t: TxnId, age: Age, k: Key, mode: Mode): set<TxnId> {
    set h | h in Conflicts(s.LockAt(k), t, mode) && age.Older(s.LockAt(k).AgeOf(h)) && h !in s.committing
  }

  function Grant(s: State, t: TxnId, age: Age, k: Key, mode: Mode): State {
    var l := s.LockAt(k);
    var l' := if mode == Read then l.(readers := l.readers[t := age]) else l.(writer := Some(Holder(t, age)));
    s.(locks := s.locks[k := l'], held := s.held[t := s.HeldKeys(t) + {k}])
  }

  /** One pass through acquire_read or acquire_write, up to the next wait, return or raise. */
  function Acquire(s: State, t: TxnId, age: Age, k: Key, mode: Mode, timedOut: bool): (State, Outcome) {
    if t in s.wounded then (s, Aborted)
    else
      var conflicts := Conflicts(s.LockAt(k), t, mode);
      var victims := Victims(s, t, age, k, mode);
      var s' := if victims == {} then s else Wound(s, victims);
      if victims == conflicts then (Grant(s', t, age, k, mode), Acquired)
      else if timedOut then (s', Aborted)
      else (s', Waiting)
  }

  /** enter_commit; when t is wounded the source raises and the state is unchanged. */
  function Fence(s: State, t: TxnId): State {
    if t in s.wounded then s else s.(committing := s.committing + {t})
  }

  function Retire(s: State, t: TxnId): State {
    Release(s, {t}).(wounded := s.wounded - {t}, committing := s.committing - {t})
  }

  // ---------- every critical section keeps the invariant ----------

  lemma ReleaseHolds(s: State, ts: set<TxnId>)
    requires Valid(s)
    ensures Exclusive(Release(s, ts)) && Mirrored(Release(s, ts)) && OneAge(Release(s, ts))
    ensures forall t, k :: Release(s, ts).Holds(t, k) <==> s.Holds(t, k) && t !in ts
    ensures forall t, k :: Release(s, ts).Writes(t, k) <==> s.Writes(t, k) && t !in ts
  {
    var r := Release(s, ts);
    forall t, k
      ensures r.Holds(t, k) <==> s.Holds(t, k) && t !in ts
      ensures r.Writes(t, k) <==> s.Writes(t, k) && t !in ts
    {
      if k in s.locks && s.locks[k].HeldBy(t) && t !in ts {
        var l := s.locks[k].Without(ts);
        assert t in s.locks[k].readers ==> t in l.readers.Keys;
      }
    }
    forall t, k | r.Holds(t, k) && r.locks[k].writer.Some?
      ensures t == r.locks[k].writer.value.txn
    {
      assert s.Holds(t, k);
    }
    forall t, k
      ensures k in r.HeldKeys(t) <==> r.Holds(t, k)
    {
      assert k in s.HeldKeys(t) <==> s.Holds(t, k);
    }
  }

  lemma WoundKeepsValid(s: State, ts: set<TxnId>)
    requires Valid(s) && ts !! s.committing
    ensures Valid(Wound(s, ts))
    ensures forall t, k :: Wound(s, ts).Holds(t, k) <==> s.Holds(t, k) && t !in ts
    ensures forall t, k :: Wound(s, ts).Writes(t, k) <==> s.Writes(t, k) && t !in ts
  {
    ReleaseHolds(s, ts);
    var r, w := Release(s, ts), Wound(s, ts);
    assert forall t, k :: w.Holds(t, k) == r.Holds(t, k) && w.Writes(t, k) == r.Writes(t, k);
    assert forall t :: w.HeldKeys(t) == r.HeldKeys(t);
  }

  lemma GrantKeepsValid(s: State, t: TxnId, age: Age, k: Key, mode: Mode)
    requires Valid(s) && SameAge(s, t, age, k) && t !in s.wounded && Conflicts(s.LockAt(k), t, mode) == {}
    ensures Valid(Grant(s, t, age, k, mode))
    ensures forall u, j :: Grant(s, t, age, k, mode).Holds(u, j) <==> s.Holds(u, j) || (u == t && j == k)
    ensures forall u, j :: Grant(s, t, age, k, mode).Writes(u, j) <==>
                           s.Writes(u, j) || (u == t && j == k && mode == Write)
  {
    var g := Grant(s, t, age, k, mode);
    var l := s.LockAt(k);
    assert mode == Write ==> forall u | l.HeldBy(u) :: u == t by {
      assert mode == Write ==> forall u | u in l.readers.Keys && u != t :: u in Conflicts(l, t, mode);
    }
    assert l.writer.Some? ==> l.writer.value.txn == t by {
      var w := if l.writer.Some? then l.writer.value.txn else t;
      assert w == t || w in Conflicts(l, t, mode);
    }
    forall u, j
      ensures g.Holds(u, j) <==> s.Holds(u, j) || (u == t && j == k)
      ensures g.Writes(u, j) <==> s.Writes(u, j) || (u == t && j == k && mode == Write)
      ensures j in g.HeldKeys(u) <==> g.Holds(u, j)
    {
      assert j in s.HeldKeys(u) <==> s.Holds(u, j);
    }
    forall u, j | g.Holds(u, j) && g.locks[j].writer.Some?
      ensures u == g.locks[j].writer.value.txn
    {
      assert s.Holds(u, j) || (u == t && j == k);
    }
    forall j | j in g.locks
      ensures !g.locks[j].Empty()
    {
      if j == k && mode == Read {
        assert t in g.locks[j].readers.Keys;
      }
    }
  }

  lemma VictimsAreConflicts(s: State, t: TxnId, age: Age, k: Key, mode: Mode)
    ensures Victims(s, t, age, k, mode) <= Conflicts(s.LockAt(k), t, mode)
    ensures t !in Conflicts(s.LockAt(k), t, mode)
    ensures Victims(s, t, age, k, mode) !! s.committing
  {
  }

  /**
   What one acquire pass does, for every state, requester and outcome: the invariant is kept, the
   wounded victims lose everything, nobody else loses or gains anything except the granted key.
   */
  lemma AcquireFacts(s: State, t: TxnId, age: Age, k: Key, mode: Mode, timedOut: bool)
    requires Valid(s) && SameAge(s, t, age, k)
    ensures
      var (s', outcome) := Acquire(s, t, age, k, mode, timedOut);
      var victims := if t in s.wounded then {} else Victims(s, t, age, k, mode);
      && Valid(s')
      && s'.committing == s.committing && s'.wounded == s.wounded + victims
      && t !in victims && victims !! s.committing && victims !! s.wounded
      && (outcome == Acquired <==> t !in s.wounded && victims == Conflicts(s.LockAt(k), t, mode))
      && (outcome == Waiting <==> t !in s.wounded && outcome != Acquired && !timedOut)
      && (forall u, j :: s'.Holds(u, j) <==>
           (s.Holds(u, j) && u !in victims) || (outcome == Acquired && u == t && j == k))
      && (forall u, j :: s'.Writes(u, j) <==>
           (s.Writes(u, j) && u !in victims) || (outcome == Acquired && mode == Write && u == t && j == k))
  {
    if t !in s.wounded {
      VictimsAreConflicts(s, t, age, k, mode);
      var conflicts := Conflicts(s.LockAt(k), t, mode);
      var victims := Victims(s, t, age, k, mode);
      forall v | v in victims
        ensures v !in s.wounded
      {
        assert s.Holds(v, k) && k in s.HeldKeys(v);
      }
      var w := if victims == {} then s else Wound(s, victims);
      if victims != {} {
        WoundKeepsValid(s, victims);
      }
      if victims == conflicts {
        assert Conflicts(w.LockAt(k), t, mode) == {} by {
          RetryFindsNoConflict(s, t, age, k, mode);
        }
        GrantKeepsValid(w, t, age, k, mode);
      }
    }
  }

  /** Read locks are shared: a reader minds only a writer, a writer minds every holder. */
  ghost predicate InTheWay(s: State, t: TxnId, k: Key, mode: Mode, h: TxnId) {
    h != t && (s.Writes(h, k) || (mode == Write && s.Holds(h, k)))
  }

  lemma ConflictsAreInTheWay(s: State, t: TxnId, k: Key, mode: Mode)
    ensures forall h :: h in Conflicts(s.LockAt(k), t, mode) <==> InTheWay(s, t, k, mode, h)
  {
  }

  /**
   A pass wounds exactly the younger, uncommitting transactions in the way, and is granted exactly when
   that removes all of them; so with nobody in the way it is granted at once, and wounds nobody.
   */
  lemma GrantedIff(s: State, t: TxnId, age: Age, k: Key, mode: Mode, timedOut: bool)
    requires Valid(s) && SameAge(s, t, age, k) && t !in s.wounded
    ensures
      var (s', outcome) := Acquire(s, t, age, k, mode, timedOut);
      && (outcome == Acquired <==>
            forall h | InTheWay(s, t, k, mode, h) :: age.Older(s.locks[k].AgeOf(h)) && h !in s.committing)
      && (forall h :: h in s'.wounded <==>
            h in s.wounded || (InTheWay(s, t, k, mode, h) && age.Older(s.locks[k].AgeOf(h)) && h !in s.committing))
      && ((forall h :: !InTheWay(s, t, k, mode, h)) <==> outcome == Acquired && s'.wounded == s.wounded)
  {
    hide Acquire, Conflicts, Valid;
    AcquireFacts(s, t, age, k, mode, timedOut);
    ConflictsAreInTheWay(s, t, k, mode);
  }

  lemma AcquireKeepsValid(s: State, t: TxnId, age: Age, k: Key, mode: Mode, timedOut: bool)
    requires Valid(s) && SameAge(s, t, age, k)
    ensures Valid(Acquire(s, t, age, k, mode, timedOut).0)
  {
    hide Acquire, Valid;
    AcquireFacts(s, t, age, k, mode, timedOut);
  }

  lemma UncontendedIsGranted(s: State, t: TxnId, age: Age, k: Key, mode: Mode, timedOut: bool)
    requires Valid(s) && SameAge(s, t, age, k)
    ensures
      t !in s.wounded && (forall h | h != t :: !(if mode == Read then s.Writes(h, k) else s.Holds(h, k))) ==>
        Acquire(s, t, age, k, mode, timedOut).1 == Acquired && Acquire(s, t, age, k, mode, timedOut).0.wounded == s.wounded
  {
    hide Acquire, Valid, SameAge;
    if t !in s.wounded {
      GrantedIff(s, t, age, k, mode, timedOut);
    }
  }

  lemma NotItsOwnVictim(s: State, t: TxnId, age: Age, k: Key, mode: Mode)
    ensures t in Wound(s, Victims(s, t, age, k, mode)).wounded ==> t in s.wounded
  {
  }

  lemma WriterAge(s: State, k: Key)
    requires Valid(s)
    ensures var w := s.LockAt(k).writer; w.Some? ==> s.LockAt(k).AgeOf(w.value.txn) == w.value.age
  {
  }

  /** Every (transaction, age) recorded in `after` is recorded in `before`, or is the given pair. */
  ghost predicate RecordsFrom(before: Lock, after: Lock, t: TxnId, age: Age) {
    && (forall u | u in after.readers ::
          (u in before.readers && before.readers[u] == after.readers[u]) || (u == t && after.readers[u] == age))
    && (after.writer.Some? ==> after.writer == before.writer || after.writer.value == Holder(t, age))
  }

  lemma WoundRecords(s: State, ts: set<TxnId>, t: TxnId, age: Age)
    ensures forall j | j in Wound(s, ts).locks :: RecordsFrom(s.LockAt(j), Wound(s, ts).locks[j], t, age)
  {
    forall j | j in Wound(s, ts).locks
      ensures RecordsFrom(s.LockAt(j), Wound(s, ts).locks[j], t, age)
    {
      assert Wound(s, ts).locks[j] == s.locks[j].Without(ts);
    }
  }

  /** Every age recorded after an acquire pass was recorded before, or is the requester's own. */
  lemma AcquireAges(s: State, t: TxnId, age: Age, k: Key, mode: Mode, timedOut: bool)
    ensures forall j | j in Acquire(s, t, age, k, mode, timedOut).0.locks ::
              RecordsFrom(s.LockAt(j), Acquire(s, t, age, k, mode, timedOut).0.locks[j], t, age)
  {
    hide Wound;
    var victims := Victims(s, t, age, k, mode);
    var w := if victims == {} then s else Wound(s, victims);
    WoundRecords(s, victims, t, age);
    hide Victims, Conflicts;
  }

  /** A requester that does not get the lock left some conflicting holder it was not allowed to wound. */
  lemma SurvivingConflict(s: State, t: TxnId, age: Age, k: Key, mode: Mode, timedOut: bool) returns (h: TxnId)
    requires Valid(s) && SameAge(s, t, age, k)
    requires t !in s.wounded && Acquire(s, t, age, k, mode, timedOut).1 != Acquired
    ensures h in Conflicts(s.LockAt(k), t, mode)
    ensures h in Conflicts(Acquire(s, t, age, k, mode, timedOut).0.LockAt(k), t, mode)
    ensures h in s.committing || !age.Older(s.LockAt(k).AgeOf(h))
  {
    hide Acquire;
    AcquireFacts(s, t, age, k, mode, timedOut);
    var s' := Acquire(s, t, age, k, mode, timedOut).0;
    h :| h in Conflicts(s.LockAt(k), t, mode) && h !in Victims(s, t, age, k, mode);
    assert s.Holds(h, k) && s'.Holds(h, k);
    assert s.Writes(h, k) == s'.Writes(h, k);
  }

  /** Once every conflicting holder is wounded the immediate retry succeeds: the loop runs at most twice. */
  lemma RetryFindsNoConflict(s: State, t: TxnId, age: Age, k: Key, mode: Mode)
    requires Valid(s)
    requires Victims(s, t, age, k, mode) == Conflicts(s.LockAt(k), t, mode)
    ensures
      var victims := Victims(s, t, age, k, mode);
      Conflicts((if victims == {} then s else Wound(s, victims)).LockAt(k), t, mode) == {}
  {
    var victims := Victims(s, t, age, k, mode);
    if victims != {} {
      var w := Wound(s, victims);
      WoundKeepsValid(s, victims);
      forall h
        ensures h !in Conflicts(w.LockAt(k), t, mode)
      {
        assert w.Holds(h, k) <==> s.Holds(h, k) && h !in victims;
        assert w.Writes(h, k) <==> s.Writes(h, k) && h !in victims;
      }
    }
  }

  lemma FenceKeepsValid(s: State, t: TxnId)
    requires Valid(s)
    ensures Valid(Fence(s, t))
    ensures forall u, j :: Fence(s, t).Holds(u, j) <==> s.Holds(u, j)
    ensures forall u, j :: Fence(s, t).Writes(u, j) <==> s.Writes(u, j)
  {
    var f := Fence(s, t);
    assert forall u, k :: f.Holds(u, k) == s.Holds(u, k) && f.Writes(u, k) == s.Writes(u, k);
    assert forall u :: f.HeldKeys(u) == s.HeldKeys(u);
  }

  lemma RetireKeepsValid(s: State, t: TxnId)
    requires Valid(s)
    ensures Valid(Retire(s, t))
    ensures forall u, j :: Retire(s, t).Holds(u, j) <==> s.Holds(u, j) && u != t
    ensures forall u, j :: Retire(s, t).Writes(u, j) <==> s.Writes(u, j) && u != t
  {
    ReleaseHolds(s, {t});
    var r, w := Release(s, {t}), Retire(s, t);
    assert forall u, k :: w.Holds(u, k) == r.Holds(u, k) && w.Writes(u, k) == r.Writes(u, k);
    assert forall u :: w.HeldKeys(u) == r.HeldKeys(u);
  }

  lemma RetireFields(s: State, t: TxnId)
    ensures Retire(s, t).committing == s.committing - {t}
    ensures Retire(s, t).wounded == s.wounded - {t}
    ensures forall u | u != t :: Retire(s, t).HeldKeys(u) == s.HeldKeys(u)
    ensures Retire(s, t).HeldKeys(t) == {}
  {
  }

  lemma RetireRecords(s: State, t: TxnId)
    ensures forall k | k in Retire(s, t).locks ::
              k in s.locks && Retire(s, t).locks[k] == s.locks[k].Without({t})
  {
  }

  /** The state a retry starts from: the requester found conflicts and wounded every one of them. */
  ghost predicate RetryOf(s: State, s': State, t: TxnId, age: Age, k: Key, mode: Mode) {
    var victims := Victims(s, t, age, k, mode);
    && t !in s.wounded && victims == Conflicts(s.LockAt(k), t, mode)
    && s' == if victims == {} then s else Wound(s, victims)
  }

  /** Record k of `locks` is the given lock without t, absent when that leaves it empty. */
  ghost predicate Stripped(before: Lock, t: TxnId, locks: map<Key, Lock>, k: Key) {
    if before.Without({t}).Empty() then k !in locks else k in locks && locks[k] == before.Without({t})
  }

  // ---------- the table itself ----------

  class LockTable {
    var locks: map<Key, Lock>
    var held: map<TxnId, set<Key>>
    var wounded: set<TxnId>
    var committing: set<TxnId>

    ghost function View(): State
      reads this
    {
      State(locks, held, wounded, committing)
    }

    constructor ()
      ensures View() == EMPTY && Valid(View())
    {
      locks, held, wounded, committing := map[], map[], {}, {};
    }

    method IsWounded(t: TxnId) returns (r: bool)
      ensures r <==> t in View().wounded
    {
      r := t in wounded;
    }

    /** enter_commit: Aborted is the TransactionAborted it raises. */
    method EnterCommit(t: TxnId) returns (outcome: Outcome)
      requires Valid(View())
      modifies this
      ensures Valid(View()) && View() == Fence(old(View()), t)
      ensures outcome == if t in old(wounded) then Aborted else Acquired
      ensures committing == old(committing) + if outcome == Acquired then {t} else {}
      ensures locks == old(locks) && held == old(held) && wounded == old(wounded)
    {
      FenceKeepsValid(View(), t);
      if t in wounded {
        return Aborted;
      }
      committing := committing + {t};
      outcome := Acquired;
    }

    method AcquireRead(t: TxnId, age: Age, k: Key, timedOut: bool) returns (outcome: Outcome)
      requires Valid(View()) && SameAge(View(), t, age, k)
      modifies this
      ensures Valid(View())
      ensures (View(), outcome) == Acquire(old(View()), t, age, k, Read, timedOut)
      ensures t !in old(wounded) && (forall h | h != t :: !old(View()).Writes(h, k)) ==> outcome == Acquired && wounded == old(wounded)
    {
      hide Valid, SameAge, Wound;
      AcquireKeepsValid(View(), t, age, k, Read, timedOut);
      UncontendedIsGranted(View(), t, age, k, Read, timedOut);
      NotItsOwnVictim(View(), t, age, k, Read);
      ghost var first, retried := View(), false;
      while true
        invariant Valid(View()) && (retried ==> t !in wounded)
        invariant !retried ==> View() == first
        invariant retried ==> RetryOf(first, View(), t, age, k, Read)
        decreases !retried
      {
        if t in wounded {
          return Aborted;
        }
        if retried {
          RetryFindsNoConflict(first, t, age, k, Read);
        }
        WriterAge(View(), k);
        var lock := if k in locks then locks[k] else Lock(map[], None);
        if lock.writer.None? || lock.writer.value.txn == t {
          assert Conflicts(View().LockAt(k), t, Read) == {};
          held := held[t := (if t in held then held[t] else {}) + {k}];
          locks := locks[k := lock.(readers := lock.readers[t := age])];
          return Acquired;
        }
        var resolution := ResolveConflict(t, age, [lock.writer.value], k, Read, timedOut);
        if resolution != Acquired {
          return resolution;
        }
        retried := true;
      }
    }

    method AcquireWrite(t: TxnId, age: Age, k: Key, timedOut: bool) returns (outcome: Outcome)
      requires Valid(View()) && SameAge(View(), t, age, k)
      modifies this
      ensures Valid(View())
      ensures (View(), outcome) == Acquire(old(View()), t, age, k, Write, timedOut)
      ensures t !in old(wounded) && (forall h | h != t :: !old(View()).Holds(h, k)) ==> outcome == Acquired && wounded == old(wounded)
    {
      hide Valid, SameAge, Wound;
      AcquireKeepsValid(View(), t, age, k, Write, timedOut);
      UncontendedIsGranted(View(), t, age, k, Write, timedOut);
      NotItsOwnVictim(View(), t, age, k, Write);
      ghost var first, retried := View(), false;
      while true
        invariant Valid(View()) && (retried ==> t !in wounded)
        invariant !retried ==> View() == first
        invariant retried ==> RetryOf(first, View(), t, age, k, Write)
        decreases !retried
      {
        if t in wounded {
          return Aborted;
        }
        if retried {
          RetryFindsNoConflict(first, t, age, k, Write);
        }
        WriterAge(View(), k);
        var lock := if k in locks then locks[k] else Lock(map[], None);
        var holders := ConflictingHolders(lock, t);
        if holders == [] {
          held := held[t := (if t in held then held[t] else {}) + {k}];
          locks := locks[k := lock.(writer := Some(Holder(t, age)))];
          return Acquired;
        }
        var resolution := ResolveConflict(t, age, holders, k, Write, timedOut);
        if resolution != Acquired {
          return resolution;
        }
        retried := true;
      }
    }

    /** The holders a writer must wait for or wound: every other reader, and another writer. */
    static method ConflictingHolders(lock: Lock, t: TxnId) returns (holders: seq<Holder>)
      requires forall r | r in lock.readers && lock.WrittenBy(r) :: lock.readers[r] == lock.writer.value.age
      ensures forall h | h in holders :: h.txn in Conflicts(lock, t, Write) && h.age == lock.AgeOf(h.txn)
      ensures forall u | u in Conflicts(lock, t, Write) :: Holder(u, lock.AgeOf(u)) in holders
      ensures holders == [] <==> Conflicts(lock, t, Write) == {}
    {
      var otherReaders := OtherReaders(lock.readers, t);
      var writerConflict := lock.writer.Some? && lock.writer.value.txn != t;
      holders := otherReaders + if writerConflict then [lock.writer.value] else [];
      if holders != [] {
        assert holders[0] in holders;
      }
    }

    /** The (txn, age) pairs of every reader but t, in some order. */
    static method OtherReaders(readers: map<TxnId, Age>, t: TxnId) returns (others: seq<Holder>)
      ensures forall h :: h in others <==> h.txn in readers && h.txn != t && h.age == readers[h.txn]
    {
      others := [];
      var todo := readers.Keys;
      while todo != {}
        invariant todo <= readers.Keys
        invariant forall h :: h in others <==> h.txn in readers && h.txn !in todo && h.txn != t && h.age == readers[h.txn]
        decreases todo
      {
        var u :| u in todo;
        todo := todo - {u};
        if u != t {
          others := others + [Holder(u, readers[u])];
        }
      }
    }

    /** The conflicting holders to wound, in the order in which they were listed. */
    method Younger(age: Age, holders: seq<Holder>) returns (younger: seq<Holder>)
      ensures forall h :: h in younger <==> h in holders && age.Older(h.age) && h.txn !in committing
      ensures |younger| == |holders| <==> forall h | h in holders :: age.Older(h.age) && h.txn !in committing
    {
      younger := [];
      for i := 0 to |holders|
        invariant |younger| <= i
        invariant forall h :: h in younger <==> h in holders[..i] && age.Older(h.age) && h.txn !in committing
        invariant |younger| == i <==> forall h | h in holders[..i] :: age.Older(h.age) && h.txn !in committing
      {
        assert holders[..i + 1] == holders[..i] + [holders[i]];
        if age.Older(holders[i].age) && holders[i].txn !in committing {
          younger := younger + [holders[i]];
        }
      }
      assert holders[..|holders|] == holders;
    }

    method WoundAll(younger: seq<Holder>)
      requires Valid(View()) && forall h | h in younger :: h.txn !in committing
      modifies this
      ensures Valid(View()) && View() == Wound(old(View()), set h | h in younger :: h.txn)
    {
      hide Valid, Wound, Release;
      ghost var first := View();
      ghost var done: set<TxnId> := {};
      WoundNobody(first);
      for i := 0 to |younger|
        invariant done == (set h | h in younger[..i] :: h.txn)
        invariant Valid(View()) && View() == Wound(first, done) && committing == first.committing
      {
        ghost var before := View();
        assert younger[i] in younger;
        wounded := wounded + {younger[i].txn};
        ReleaseLocked(younger[i].txn, before);
        WoundStep(first, done, younger[i].txn, before, View());
        assert younger[..i + 1] == younger[..i] + [younger[i]];
        done := done + {younger[i].txn};
      }
      assert younger[..|younger|] == younger;
    }

    /**
     _resolve_conflict: Acquired means every conflict was wounded and the caller retries at once,
     Aborted that the deadline passed, Waiting that the caller sleeps on the condition variable.
     */
    method ResolveConflict(t: TxnId, age: Age, holders: seq<Holder>, ghost k: Key, ghost mode: Mode, timedOut: bool)
      returns (outcome: Outcome)
      requires Valid(View()) && t !in wounded
      requires forall h | h in holders ::
                 h.txn in Conflicts(View().LockAt(k), t, mode) && h.age == View().LockAt(k).AgeOf(h.txn)
      requires forall u | u in Conflicts(View().LockAt(k), t, mode) :: Holder(u, View().LockAt(k).AgeOf(u)) in holders
      modifies this
      ensures Valid(View())
      ensures View() == var victims := Victims(old(View()), t, age, k, mode);
                        if victims == {} then old(View()) else Wound(old(View()), victims)
      ensures outcome == if Victims(old(View()), t, age, k, mode) == Conflicts(old(View()).LockAt(k), t, mode) then Acquired
                         else if timedOut then Aborted else Waiting
    {
      ghost var first := View();
      ghost var victims := Victims(first, t, age, k, mode);
      var younger := Younger(age, holders);
      assert (set h | h in younger :: h.txn) == victims by {
        forall u | u in victims
          ensures u in (set h | h in younger :: h.txn)
        {
          assert Holder(u, first.LockAt(k).AgeOf(u)) in younger;
        }
      }
      assert |younger| == |holders| <==> victims == Conflicts(first.LockAt(k), t, mode) by {
        if victims == Conflicts(first.LockAt(k), t, mode) {
          assert forall h | h in holders :: h.txn in victims;
        } else {
          var u :| u in Conflicts(first.LockAt(k), t, mode) && u !in victims;
          assert Holder(u, first.LockAt(k).AgeOf(u)) in holders;
        }
      }
      WoundNobody(first);
      WoundAll(younger);
      if |younger| == |holders| {
        return Acquired;
      }
      outcome := if timedOut then Aborted else Waiting;
    }

    /** _release_locked: strips t from every key of its held set, dropping the records left empty. */
    method ReleaseLocked(t: TxnId, ghost s: State)
      requires Valid(s) && locks == s.locks && held == s.held
      modifies this`locks, this`held
      ensures locks == Release(s, {t}).locks && held == Release(s, {t}).held
    {
      var todo := if t in held then held[t] else {};
      held := held - {t};
      ghost var all := s.HeldKeys(t);
      while todo != {}
        invariant todo <= all && held == s.held - {t}
        invariant locks.Keys <= s.locks.Keys
        invariant forall k | k in s.locks :: if k in all - todo then Stripped(s.locks[k], t, locks, k)
                                             else k in locks && locks[k] == s.locks[k]
        decreases todo
      {
        var k :| k in todo;
        assert s.Holds(t, k);
        todo := todo - {k};
        StripOne(k, t);
      }
      forall k | k in s.locks
        ensures Stripped(s.locks[k], t, locks, k)
      {
        assert k in all <==> s.Holds(t, k);
        if k !in all {
          assert s.locks[k].readers - {t} == s.locks[k].readers;
          assert !s.locks[k].Empty();
        }
      }
      assert locks == Release(s, {t}).locks;
    }

    method StripOne(k: Key, t: TxnId)
      requires k in locks
      modifies this`locks
      ensures Stripped(old(locks[k]), t, locks, k) && locks.Keys <= old(locks.Keys)
      ensures forall j | j in old(locks) && j != k :: j in locks && locks[j] == old(locks[j])
    {
      var lock := locks[k];
      lock := lock.(readers := lock.readers - {t});
      if lock.writer.Some? && lock.writer.value.txn == t {
        lock := lock.(writer := None);
      }
      if lock.readers == map[] && lock.writer.None? {
        assert lock.readers.Keys == {};
        locks := locks - {k};
      } else {
        locks := locks[k := lock];
      }
    }

    method ReleaseAll(t: TxnId)
      requires Valid(View())
      modifies this
      ensures Valid(View()) && View() == Retire(old(View()), t)
    {
      RetireKeepsValid(View(), t);
      ReleaseLocked(t, View());
      wounded := wounded - {t};
      committing := committing - {t};
    }
  }

  lemma WoundNobody(s: State)
    requires Valid(s)
    ensures Wound(s, {}) == s
  {
    forall k | k in s.locks
      ensures s.locks[k].Without({}) == s.locks[k]
    {
      assert s.locks[k].readers - {} == s.locks[k].readers;
    }
    assert s.held - {} == s.held;
    assert Release(s, {}).locks == s.locks;
  }

  /** One round of the wounding loop: t is marked, then its locks are released. */
  lemma WoundStep(first: State, done: set<TxnId>, t: TxnId, before: State, after: State)
    requires Valid(first) && Valid(before) && before == Wound(first, done) && t !in before.committing
    requires after.locks == Release(before, {t}).locks && after.held == Release(before, {t}).held
    requires after.wounded == before.wounded + {t} && after.committing == before.committing
    ensures Valid(after) && after == Wound(first, done + {t})
  {
    hide Valid;
    WoundTwice(first, done, {t});
    WoundKeepsValid(before, {t});
  }

  /** Wounding holders one after the other is wounding them together. */
  lemma WoundTwice(s: State, a: set<TxnId>, b: set<TxnId>)
    requires Valid(s)
    ensures Wound(Wound(s, a), b) == Wound(s, a + b)
  {
    forall k | k in s.locks
      ensures s.locks[k].Without(a).Without(b) == s.locks[k].Without(a + b)
      ensures s.locks[k].Without(a).Empty() ==> s.locks[k].Without(a + b).Empty()
    {
      StrippedTwice(s.locks[k], a, b);
    }
    assert s.held - a - b == s.held - (a + b);
    assert s.wounded + a + b == s.wounded + (a + b);
    hide Lock.Without, Lock.Empty, Valid;
    assert Release(Release(s, a), b).locks == Release(s, a + b).locks;
  }

  lemma StrippedTwice(l: Lock, a: set<TxnId>, b: set<TxnId>)
    ensures l.Without(a).Without(b) == l.Without(a + b)
    ensures l.Without(a).Empty() ==> l.Without(a + b).Empty()
  {
    assert l.readers - a - b == l.readers - (a + b);
  }
}
