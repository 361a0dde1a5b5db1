/**
 Read-write transactions over the lock table and a multi-version store, as a state machine whose
 steps are the source's critical sections: any number of transactions, interleaved in any order.
 The results are serializability in commit-timestamp order and its ingredients.
 */
module Transactions {
  import opened Options
  import opened Clock
  import opened Locks

  type Value = string

  /** None as the value is a delete. */
  datatype Mutation = Mutation(key: Key, value: Option<Value>)

  /** A stored version, tagged with the transaction that wrote it (history, never read by the code). */
  datatype Version = Version(key: Key, ts: Timestamp, value: Option<Value>, author: TxnId)

  datatype Phase =
    | Active                            // between calls
    | Locked(key: Key)                  // get(): lock taken, read timestamp not chosen yet
    | ReadAt(key: Key, ts: Timestamp)   // get(): read timestamp chosen, store not read yet
    | Preparing(todo: set<Key>)         // commit(): write locks still to take
    | Chosen                            // commit(): timestamp chosen, in commit wait
    | Applying(done: nat)               // commit(): past the fence, first `done` mutations stored
    | Advanced                          // commit(): safe time advanced, locks still held
    | Committed
    | Failed                            // raised, locks still to be released
    | Aborted

  datatype Txn = Txn(
    age: Age,
    phase: Phase,
    mutations: seq<Mutation>,
    observed: set<(Key, Option<Value>)>,   // results of locked reads
    commitTs: Option<Timestamp>)
  {
    predicate Sealed() {
      phase.Applying? || phase.Advanced? || phase.Committed?
    }

    /** Between the commit fence and release_all. */
    predicate Applies() {
      phase.Applying? || phase.Advanced?
    }

    predicate Live() {
      !phase.Committed? && !phase.Failed? && !phase.Aborted?
    }

    predicate Stamped() {
      phase.Chosen? || Sealed()
    }

    function Applied(): nat {
      match phase
      case Applying(n) => n
      case Advanced => |mutations|
      case Committed => |mutations|
      case _ => 0
    }

    function ReadKeys(): set<Key> {
      set r | r in observed :: r.0
    }

    function WriteKeys(): set<Key> {
      set m | m in mutations :: m.key
    }

    function Touched(): set<Key> {
      ReadKeys() + WriteKeys()
    }

    /** The keys an un-wounded live transaction must hold write locks on. */
    function Guarded(): set<Key> {
      ReadKeys() +
      match phase
      case Locked(k) => {k}
      case ReadAt(k, _) => {k}
      case Preparing(todo) => WriteKeys() - todo
      case Chosen => WriteKeys()
      case Applying(_) => WriteKeys()
      case Advanced => WriteKeys()
      case _ => {}
    }
  }

  datatype System = System(
    table: State,
    txns: map<TxnId, Txn>,
    store: set<Version>,
    lastAssigned: Option<Timestamp>,
    lastCommit: Option<Timestamp>)
  {
    /** Live and not wounded: the transaction can still commit. */
    predicate Sound(t: TxnId) {
      t in txns && txns[t].Live() && t !in table.wounded
    }
  }

  // ---------- reading the store ----------

  /** v is what the newest version of k satisfying the bound holds (None when deleted or absent). */
  ghost predicate Shows(store: set<Version>, k: Key, bound: Timestamp -> bool, v: Option<Value>) {
    || (exists w | w in store ::
          && w.key == k && bound(w.ts) && w.value == v
          && forall u | u in store && u.key == k && bound(u.ts) :: u.ts.AtMost(w.ts))
    || (v == None && forall u | u in store && u.key == k :: !bound(u.ts))
  }

  function UpTo(ts: Timestamp): Timestamp -> bool {
    (x: Timestamp) => x.AtMost(ts)
  }

  function Before(ts: Timestamp): Timestamp -> bool {
    (x: Timestamp) => x.Less(ts)
  }

  const ANY_TIME: Timestamp -> bool := _ => true

  // ---------- the manager's own critical sections ----------

  /** _choose_commit_timestamp: at least TT.now().latest, strictly above every earlier choice. */
  function CommitTimestamp(hlc: Timestamp, ttLatest: int, prev: Option<Timestamp>): (s: Timestamp)
    ensures s.physical >= ttLatest
    ensures prev.Some? ==> prev.value.Less(s)
  {
    var physical := if hlc.physical < ttLatest then ttLatest else hlc.physical;
    if prev.Some? && Timestamp(physical, hlc.logical).AtMost(prev.value)
    then Timestamp(prev.value.physical, prev.value.logical + 1)
    else Timestamp(physical, hlc.logical)
  }

  /** At or after the reading raised to TT.now().latest, and after the previous choice. */
  ghost predicate MayStamp(hlc: Timestamp, ttLatest: int, prev: Option<Timestamp>, u: Timestamp) {
    && Timestamp(if hlc.physical < ttLatest then ttLatest else hlc.physical, hlc.logical).AtMost(u)
    && (prev.Some? ==> prev.value.Less(u))
  }

  /** The choice is the earliest timestamp that meets both rules. */
  lemma CommitTimestampIsLeast(hlc: Timestamp, ttLatest: int, prev: Option<Timestamp>)
    ensures MayStamp(hlc, ttLatest, prev, CommitTimestamp(hlc, ttLatest, prev))
    ensures forall u | MayStamp(hlc, ttLatest, prev, u) :: CommitTimestamp(hlc, ttLatest, prev).AtMost(u)
  {
  }

  function SafeTime(last: Option<Timestamp>, s: Timestamp): Option<Timestamp> {
    if last.None? || last.value.Less(s) then Some(s) else last
  }

  /** The later of the two; likewise for the floor of a locked read. */
  lemma LaterOfTwo(a: Option<Timestamp>, b: Timestamp)
    ensures
      forall r | SafeTime(a, b) == Some(r) || ReadTimestamp(b, a) == r ::
        b.AtMost(r) && (a.Some? ==> a.value.AtMost(r)) && (r == b || a == Some(r))
    ensures SafeTime(a, b).Some?
  {
  }

  /** Floor of a locked read: the clock reading, raised to the last committed timestamp. */
  function ReadTimestamp(clock: Timestamp, last: Option<Timestamp>): Timestamp {
    if last.Some? && clock.Less(last.value) then last.value else clock
  }

  class TransactionManager {
    var lastAssigned: Option<Timestamp>
    var lastCommitTs: Option<Timestamp>

    constructor ()
      ensures lastAssigned == None && lastCommitTs == None
    {
      lastAssigned, lastCommitTs := None, None;
    }

    method ChooseCommitTimestamp(hlc: Timestamp, ttLatest: int) returns (s: Timestamp)
      modifies this`lastAssigned
      ensures s == CommitTimestamp(hlc, ttLatest, old(lastAssigned)) && lastAssigned == Some(s)
      ensures MayStamp(hlc, ttLatest, old(lastAssigned), s)
      ensures forall u | MayStamp(hlc, ttLatest, old(lastAssigned), u) :: s.AtMost(u)
    {
      CommitTimestampIsLeast(hlc, ttLatest, lastAssigned);
      var physical := hlc.physical;
      if physical < ttLatest {
        physical := ttLatest;
      }
      var logical := hlc.logical;
      if lastAssigned.Some? {
        var prev := lastAssigned.value;
        if physical < prev.physical || (physical == prev.physical && logical <= prev.logical) {
          physical, logical := prev.physical, prev.logical + 1;
        }
      }
      s := Timestamp(physical, logical);
      lastAssigned := Some(s);
    }

    method AdvanceSafeTime(s: Timestamp)
      modifies this`lastCommitTs
      ensures lastCommitTs == SafeTime(old(lastCommitTs), s)
      ensures lastCommitTs.Some? && s.AtMost(lastCommitTs.value) && (lastCommitTs == Some(s) || lastCommitTs == old(lastCommitTs))
      ensures old(lastCommitTs).Some? ==> old(lastCommitTs).value.AtMost(lastCommitTs.value)
    {
      if lastCommitTs.None? || lastCommitTs.value.Less(s) {
        lastCommitTs := Some(s);
      }
    }
  }

  // ---------- the transaction's own buffer ----------

  datatype Status = ACTIVE | PREPARING | COMMITTED | ABORTED

  class Transaction {
    const readOnly: bool
    var status: Status
    var mutations: seq<Mutation>

    constructor (readOnly: bool)
      ensures this.readOnly == readOnly && status == ACTIVE && mutations == []
    {
      this.readOnly := readOnly;
      status, mutations := ACTIVE, [];
    }

    /** put and delete: refused (an exception) once the transaction is not active, or if it only reads. */
    method Buffer(m: Mutation) returns (ok: bool)
      modifies this`mutations
      ensures ok <==> status == ACTIVE && !readOnly
      ensures mutations == if ok then old(mutations) + [m] else old(mutations)
    {
      ok := status == ACTIVE && !readOnly;
      if ok {
        mutations := mutations + [m];
      }
    }

    /** Read-your-writes: the last buffered mutation of the key answers, a deletion included. */
    method Buffered(k: Key) returns (hit: Option<Option<Value>>)
      ensures hit.Some? <==> exists m | m in mutations :: m.key == k
      ensures hit.Some? ==> hit.value == Written(mutations, k)
      ensures hit.Some? ==> exists i | 0 <= i < |mutations| ::
                mutations[i] == Mutation(k, hit.value) && forall j | i < j < |mutations| :: mutations[j].key != k
    {
      var i := |mutations|;
      assert mutations[..i] == mutations;
      while i > 0
        invariant i <= |mutations|
        invariant forall j | i <= j < |mutations| :: mutations[j].key != k
        invariant Written(mutations, k) == Written(mutations[..i], k)
      {
        i := i - 1;
        if mutations[i].key == k {
          assert mutations[i] == Mutation(k, mutations[i].value);
          return Some(mutations[i].value);
        }
        assert mutations[..i + 1][..i] == mutations[..i];
      }
      return None;
    }

    /** The order in which commit takes its write locks: every written key once, ascending. */
    method LockOrder() returns (keys: seq<Key>)
      ensures forall i, j | 0 <= i < j < |keys| :: keys[i] < keys[j]
      ensures forall k :: k in keys <==> exists m | m in mutations :: m.key == k
    {
      keys := [];
      for i := 0 to |mutations|
        invariant forall a, b | 0 <= a < b < |keys| :: keys[a] < keys[b]
        invariant forall k :: k in keys <==> exists m | m in mutations[..i] :: m.key == k
      {
        var k := mutations[i].key;
        var p := 0;
        while p < |keys| && keys[p] < k
          invariant p <= |keys| && forall a | 0 <= a < p :: keys[a] < k
        {
          p := p + 1;
        }
        assert mutations[..i + 1] == mutations[..i] + [mutations[i]];
        if p == |keys| || keys[p] != k {
          ghost var was := keys;
          keys := keys[..p] + [k] + keys[p..];
          assert forall x :: x in keys <==> x == k || x in was;
        } else {
          assert k in keys;
        }
      }
      assert mutations[..|mutations|] == mutations;
    }
  }

  // ---------- steps ----------

  datatype Step =
    | Begin(t: TxnId, age: Age)
    | Buffer(t: TxnId, m: Mutation)
    | LockForRead(t: TxnId, k: Key, timedOut: bool)
    | PickReadTime(t: TxnId, clock: Timestamp)
    | ReadStore(t: TxnId, v: Option<Value>)
    | StartCommit(t: TxnId)
    | LockForWrite(t: TxnId, k: Key, timedOut: bool)
    | Choose(t: TxnId, hlc: Timestamp, ttLatest: int)
    | Seal(t: TxnId)
    | Apply(t: TxnId)
    | Advance(t: TxnId)
    | Fail(t: TxnId)
    | Finalize(t: TxnId)

  function Put(s: System, t: TxnId, x: Txn): System {
    s.(txns := s.txns[t := x])
  }

  predicate Agrees(ms: seq<Mutation>, m: Mutation) {
    forall n | n in ms && n.key == m.key :: n == m
  }

  ghost predicate Next(s: System, step: Step, s': System) {
    match step
    case Begin(t, age) =>
      t !in s.txns && s' == Put(s, t, Txn(age, Active, [], {}, None))
    case _ =>
      step.t in s.txns && NextOf(s, step, s.txns[step.t], s')
  }

  ghost predicate NextOf(s: System, step: Step, x: Txn, s': System) {
    match step
    case Begin(_, _) => false
    case Buffer(t, m) =>
      // a key buffered before is buffered again only with the same value
      && x.phase == Active && Agrees(x.mutations, m) && s' == Put(s, t, x.(mutations := x.mutations + [m]))
    case LockForRead(t, k, timedOut) =>
      && x.phase == Active && k !in x.WriteKeys()
      && var (table', outcome) := Acquire(s.table, t, x.age, k, Write, timedOut);
      && s' == Put(s.(table := table'), t, if outcome == Acquired then x.(phase := Locked(k)) else x)
    case PickReadTime(t, clock) =>
      x.phase.Locked? && s' == Put(s, t, x.(phase := ReadAt(x.phase.key, ReadTimestamp(clock, s.lastCommit))))
    case ReadStore(t, v) =>
      && x.phase.ReadAt? && Shows(s.store, x.phase.key, UpTo(x.phase.ts), v)
      && s' == Put(s, t, x.(phase := Active, observed := x.observed + {(x.phase.key, v)}))
    case StartCommit(t) =>
      && x.phase == Active
      && s' == Put(s, t, x.(phase := if t in s.table.wounded then Failed else Preparing(x.WriteKeys())))
    case LockForWrite(t, k, timedOut) =>
      && x.phase.Preparing? && k in x.phase.todo && (forall j | j in x.phase.todo :: k <= j)
      && var (table', outcome) := Acquire(s.table, t, x.age, k, Write, timedOut);
      && s' == Put(s.(table := table'), t,
                   match outcome
                   case Acquired => x.(phase := Preparing(x.phase.todo - {k}))
                   case Waiting => x
                   case Aborted => x.(phase := Failed))
    case Choose(t, hlc, ttLatest) =>
      && x.phase == Preparing({})
      && var ts := CommitTimestamp(hlc, ttLatest, s.lastAssigned);
      && s' == Put(s.(lastAssigned := Some(ts)), t, x.(phase := Chosen, commitTs := Some(ts)))
    case Seal(t) =>
      && x.phase == Chosen
      && s' == Put(s.(table := Fence(s.table, t)), t,
                   x.(phase := if t in s.table.wounded then Failed else Applying(0)))
    case Apply(t) =>
      && x.phase.Applying? && x.phase.done < |x.mutations| && x.commitTs.Some?
      && var m := x.mutations[x.phase.done];
      && s' == Put(s.(store := s.store + {Version(m.key, x.commitTs.value, m.value, t)}), t,
                   x.(phase := Applying(x.phase.done + 1)))
    case Advance(t) =>
      && x.phase == Applying(|x.mutations|) && x.commitTs.Some?
      && s' == Put(s.(lastCommit := SafeTime(s.lastCommit, x.commitTs.value)), t, x.(phase := Advanced))
    case Fail(t) =>
      // user abort, clock error or any other exception before the fence
      (x.phase.Active? || x.phase.Preparing? || x.phase.Chosen?) && s' == Put(s, t, x.(phase := Failed))
    case Finalize(t) =>
      && (x.phase == Advanced || x.phase == Failed)
      && s' == Put(s.(table := Retire(s.table, t)), t,
                   x.(phase := if x.phase == Advanced then Committed else Phase.Aborted))
  }

  ghost predicate Init(s: System) {
    s == System(EMPTY, map[], {}, None, None)
  }

  ghost predicate IsRun(run: seq<System>, steps: seq<Step>) {
    && |run| == |steps| + 1 && Init(run[0])
    && forall i | 0 <= i < |steps| :: Next(run[i], steps[i], run[i + 1])
  }

  // ---------- invariant ----------

  ghost predicate AgesOk(s: System) {
    && (forall k, t | k in s.table.locks && t in s.table.locks[k].readers ::
          t in s.txns && s.table.locks[k].readers[t] == s.txns[t].age)
    && (forall k | k in s.table.locks && s.table.locks[k].writer.Some? ::
          var w := s.table.locks[k].writer.value; w.txn in s.txns && w.age == s.txns[w.txn].age)
  }

  /** The table's committing set is the transactions between the fence and release_all. */
  ghost predicate CommittingOk(s: System) {
    && (forall t | t in s.table.committing :: t in s.txns && s.txns[t].Applies())
    && (forall t | t in s.txns && s.txns[t].Applies() :: t in s.table.committing)
  }

  ghost predicate TableOk(s: System) {
    Valid(s.table) && AgesOk(s) && CommittingOk(s)
  }

  ghost predicate ShapeOk(x: Txn) {
    && (forall m | m in x.mutations :: Agrees(x.mutations, m))
    && (x.phase.Preparing? ==> x.phase.todo <= x.WriteKeys())
    && (x.phase.Applying? ==> x.phase.done <= |x.mutations|)
    && (x.Stamped() ==> x.commitTs.Some?)
    && (x.phase.Active? || x.phase.Locked? || x.phase.ReadAt? || x.phase.Preparing? ==> x.commitTs.None?)
  }

  ghost predicate NoLaterThan(ts: Timestamp, bound: Option<Timestamp>) {
    bound.Some? && ts.AtMost(bound.value)
  }

  ghost predicate StampOk(s: System, x: Txn) {
    && (x.commitTs.Some? ==> NoLaterThan(x.commitTs.value, s.lastAssigned))
    && (x.commitTs.Some? && (x.phase.Advanced? || x.phase.Committed?) ==> NoLaterThan(x.commitTs.value, s.lastCommit))
  }

  /** Two-phase locking: what a transaction that can still commit relies on is write-locked by it. */
  ghost predicate GuardsHeld(s: System, t: TxnId, x: Txn) {
    x.Live() && t !in s.table.wounded ==> forall k | k in x.Guarded() :: s.table.Writes(t, k)
  }

  /** Locked reads stay current until the fence, and below the commit timestamp from then on. */
  ghost predicate ReadsCurrent(s: System, t: TxnId, x: Txn) {
    && (x.Live() && t !in s.table.wounded && !x.Sealed() ==>
          forall r | r in x.observed :: Shows(s.store, r.0, ANY_TIME, r.1))
    && (x.Sealed() && x.commitTs.Some? ==>
          forall r | r in x.observed :: Shows(s.store, r.0, Before(x.commitTs.value), r.1))
    && (x.phase.ReadAt? && t !in s.table.wounded ==>
          forall v | v in s.store && v.key == x.phase.key :: v.ts.AtMost(x.phase.ts))
  }

  ghost predicate TxnOk(s: System, t: TxnId, x: Txn) {
    ShapeOk(x) && StampOk(s, x) && GuardsHeld(s, t, x) && ReadsCurrent(s, t, x)
  }

  ghost predicate TxnsOk(s: System) {
    forall t | t in s.txns :: TxnOk(s, t, s.txns[t])
  }

  ghost predicate StampsDistinct(s: System) {
    forall t, u | t in s.txns && u in s.txns && t != u && s.txns[t].commitTs.Some? ::
      s.txns[t].commitTs != s.txns[u].commitTs
  }

  /** A version is a mutation its author, a sealed transaction, has already applied. */
  ghost predicate AuthorOk(s: System, v: Version) {
    && v.author in s.txns && s.txns[v.author].Sealed() && s.txns[v.author].commitTs == Some(v.ts)
    && exists i | 0 <= i < |s.txns[v.author].mutations| ::
         i < s.txns[v.author].Applied() && s.txns[v.author].mutations[i] == Mutation(v.key, v.value)
  }

  ghost predicate AppliedStored(s: System, t: TxnId, x: Txn) {
    x.commitTs.Some? ==>
      forall i | 0 <= i < x.Applied() && i < |x.mutations| ::
        Version(x.mutations[i].key, x.commitTs.value, x.mutations[i].value, t) in s.store
  }

  /** The store holds exactly the mutations applied so far. */
  ghost predicate StoreOk(s: System) {
    && (forall v | v in s.store :: AuthorOk(s, v))
    && (forall t | t in s.txns :: AppliedStored(s, t, s.txns[t]))
  }

  /** Whoever now holds a key a sealed transaction touched commits after it. */
  ghost predicate LockOrderIsTimeOrder(s: System) {
    forall u, w, k | u in s.txns && s.txns[u].Sealed() && k in s.txns[u].Touched() && s.txns[u].commitTs.Some? &&
                     w != u && s.Sound(w) && s.table.Writes(w, k) && s.txns[w].commitTs.Some? ::
      s.txns[u].commitTs.value.Less(s.txns[w].commitTs.value)
  }

  ghost predicate Inv(s: System) {
    TableOk(s) && TxnsOk(s) && StampsDistinct(s) && StoreOk(s) && LockOrderIsTimeOrder(s)
  }

  lemma SameAgeFromTable(s: System, t: TxnId, k: Key)
    requires TableOk(s) && t in s.txns
    ensures SameAge(s.table, t, s.txns[t].age, k)
  {
  }

  /** Exclusivity: two different transactions never write-hold the same key. */
  lemma OneWriter(s: System, t: TxnId, u: TxnId, k: Key)
    requires s.table.Writes(t, k) && s.table.Writes(u, k)
    ensures t == u
  {
  }

  /** A sealed transaction is finished or still write-holds every key it touched. */
  lemma SealedHolds(s: System, u: TxnId, k: Key)
    requires Inv(s) && u in s.txns && s.txns[u].Applies() && k in s.txns[u].Touched()
    ensures s.Sound(u) && s.table.Writes(u, k)
  {
    assert u in s.table.committing && TxnOk(s, u, s.txns[u]);
  }

  /** Every version of a key was written by someone sealed who is finished or still holds the key. */
  lemma WriterOf(s: System, v: Version)
    requires Inv(s) && v in s.store
    ensures AuthorOk(s, v) && v.key in s.txns[v.author].Touched()
    ensures s.txns[v.author].phase.Committed? || s.table.Writes(v.author, v.key)
  {
    assert AuthorOk(s, v);
    assert v.key in s.txns[v.author].WriteKeys();
    if !s.txns[v.author].phase.Committed? {
      SealedHolds(s, v.author, v.key);
    }
  }

  // ---------- every step keeps the invariant ----------

  ghost predicate Grows(a: Option<Timestamp>, b: Option<Timestamp>) {
    a.Some? ==> NoLaterThan(a.value, b)
  }

  /** A transaction whose locks, store view and bounds did not get worse is still in order. */
  lemma TxnFrame(s: System, s': System, t: TxnId, x: Txn)
    requires TxnOk(s, t, x)
    requires s'.store == s.store && Grows(s.lastAssigned, s'.lastAssigned) && Grows(s.lastCommit, s'.lastCommit)
    requires x.Live() && t !in s'.table.wounded ==>
               t !in s.table.wounded && forall k | s.table.Writes(t, k) :: s'.table.Writes(t, k)
    ensures TxnOk(s', t, x)
  {
    hide Shows;
  }

  /** Steps that only move one transaction along, without touching locks, store or the fence. */
  ghost predicate Moves(s: System, t: TxnId, x': Txn, s': System) {
    && t in s.txns && s'.table == s.table && s'.store == s.store && s'.txns == s.txns[t := x']
    && Grows(s.lastAssigned, s'.lastAssigned) && Grows(s.lastCommit, s'.lastCommit)
    && var x := s.txns[t];
    && x'.age == x.age && x'.Sealed() == x.Sealed() && x'.Applies() == x.Applies()
    && (x.Sealed() ==> x'.mutations == x.mutations && x'.observed == x.observed && x'.Applied() == x.Applied())
    && (x'.Live() ==> x.Live())
    && (!x.Sealed() ==> x'.Applied() == 0)
    && (x'.commitTs == x.commitTs ||
        (!x.Sealed() && x'.commitTs.Some? && (s.lastAssigned.Some? ==> s.lastAssigned.value.Less(x'.commitTs.value))))
  }

  lemma MovesKeepsOrder(s: System, t: TxnId, x': Txn, s': System)
    requires Inv(s) && Moves(s, t, x', s')
    ensures LockOrderIsTimeOrder(s') && StampsDistinct(s')
  {
    hide TableOk, StoreOk, TxnOk;
    forall u | u in s.txns
      ensures s.txns[u].commitTs.Some? ==> NoLaterThan(s.txns[u].commitTs.value, s.lastAssigned)
    {
      if s.txns[u].commitTs.Some? {
        StampBound(s, u);
      }
    }
    forall u, w, k | u in s'.txns && s'.txns[u].Sealed() && k in s'.txns[u].Touched() && s'.txns[u].commitTs.Some? &&
                     w != u && s'.Sound(w) && s'.table.Writes(w, k) && s'.txns[w].commitTs.Some?
      ensures s'.txns[u].commitTs.value.Less(s'.txns[w].commitTs.value)
    {
      assert k in s.txns[u].Touched() && s.Sound(w) && s.table.Writes(w, k);
    }
  }

  lemma StampBound(s: System, u: TxnId)
    requires TxnsOk(s) && u in s.txns && s.txns[u].commitTs.Some?
    ensures NoLaterThan(s.txns[u].commitTs.value, s.lastAssigned)
  {
    assert TxnOk(s, u, s.txns[u]);
  }

  lemma MovesKeepsStore(s: System, t: TxnId, x': Txn, s': System)
    requires Inv(s) && Moves(s, t, x', s')
    ensures StoreOk(s')
  {
    forall v | v in s'.store
      ensures AuthorOk(s', v)
    {
      assert AuthorOk(s, v);
    }
    forall u | u in s'.txns
      ensures AppliedStored(s', u, s'.txns[u])
    {
      assert AppliedStored(s, u, s.txns[u]);
    }
  }

  lemma MovesKeepsInv(s: System, t: TxnId, x': Txn, s': System)
    requires Inv(s) && Moves(s, t, x', s') && TxnOk(s', t, x')
    ensures Inv(s')
  {
    MovesKeepsOrder(s, t, x', s');
    MovesKeepsStore(s, t, x', s');
    MovesKeepsTxns(s, t, x', s');
    MovesKeepsTable(s, t, x', s');
    hide Moves, TxnsOk, LockOrderIsTimeOrder, StampsDistinct, StoreOk, TableOk, TxnOk;
  }

  lemma MovesKeepsTable(s: System, t: TxnId, x': Txn, s': System)
    requires TableOk(s) && Moves(s, t, x', s')
    ensures TableOk(s')
  {
    hide Locks.Valid, Txn.Sealed, Txn.Applied;
    assert forall u | u in s'.txns :: u in s.txns && s'.txns[u].age == s.txns[u].age && s'.txns[u].Applies() == s.txns[u].Applies();
    hide Moves;
  }

  lemma MovesKeepsTxns(s: System, t: TxnId, x': Txn, s': System)
    requires TxnsOk(s) && Moves(s, t, x', s') && TxnOk(s', t, x')
    ensures TxnsOk(s')
  {
    hide TxnOk;
    forall u | u in s'.txns
      ensures TxnOk(s', u, s'.txns[u])
    {
      if u != t {
        TxnFrame(s, s', u, s.txns[u]);
      }
    }
  }

  lemma BeginKeepsInv(s: System, t: TxnId, age: Age, s': System)
    requires Inv(s) && Next(s, Begin(t, age), s')
    ensures Inv(s')
  {
    hide TxnOk, AppliedStored, AuthorOk;
    var x' := Txn(age, Active, [], {}, None);
    forall u | u in s'.txns
      ensures TxnOk(s', u, s'.txns[u]) && AppliedStored(s', u, s'.txns[u])
    {
      if u != t {
        TxnFrame(s, s', u, s.txns[u]);
        AppliedFrame(s, s', u, s.txns[u]);
      } else {
        FreshTxnOk(s', t, x');
      }
    }
    forall v | v in s'.store
      ensures AuthorOk(s', v)
    {
      AuthorFrame(s, s', v);
    }
    BeginKeepsOrder(s, t, age, s');
  }

  lemma AppliedFrame(s: System, s': System, u: TxnId, x: Txn)
    requires AppliedStored(s, u, x) && s.store <= s'.store
    ensures AppliedStored(s', u, x)
  {
  }

  lemma AuthorFrame(s: System, s': System, v: Version)
    requires AuthorOk(s, v)
    requires v.author in s.txns && s.txns[v.author].Sealed() ==>
               && v.author in s'.txns && s'.txns[v.author].Sealed()
               && s'.txns[v.author].commitTs == s.txns[v.author].commitTs
               && s'.txns[v.author].mutations == s.txns[v.author].mutations
               && s'.txns[v.author].Applied() >= s.txns[v.author].Applied()
    ensures AuthorOk(s', v)
  {
  }

  lemma FreshTxnOk(s: System, t: TxnId, x: Txn)
    requires x.phase == Active && x.mutations == [] && x.observed == {} && x.commitTs == None
    ensures TxnOk(s, t, x) && AppliedStored(s, t, x)
  {
  }

  lemma BeginKeepsOrder(s: System, t: TxnId, age: Age, s': System)
    requires Inv(s) && Next(s, Begin(t, age), s')
    ensures LockOrderIsTimeOrder(s') && StampsDistinct(s') && TableOk(s')
  {
    hide TxnsOk, StoreOk, Locks.Valid;
    assert TableOk(s');
    hide TableOk, StampsDistinct;
    assert StampsDistinct(s') by {
      BeginKeepsStamps(s, t, age, s');
    }
    forall u, w, k | u in s'.txns && s'.txns[u].Sealed() && k in s'.txns[u].Touched() && s'.txns[u].commitTs.Some? &&
                     w != u && s'.Sound(w) && s'.table.Writes(w, k) && s'.txns[w].commitTs.Some?
      ensures s'.txns[u].commitTs.value.Less(s'.txns[w].commitTs.value)
    {
      assert s.Sound(w) && k in s.txns[u].Touched();
    }
  }

  lemma BeginKeepsStamps(s: System, t: TxnId, age: Age, s': System)
    requires StampsDistinct(s) && Next(s, Begin(t, age), s')
    ensures StampsDistinct(s')
  {
  }

  lemma BufferKeepsInv(s: System, t: TxnId, m: Mutation, s': System)
    requires Inv(s) && Next(s, Buffer(t, m), s')
    ensures Inv(s')
  {
    hide Shows, UpTo, Acquire, Fence, Retire, TxnOk, StoreOk, TableOk;
    assert TxnOk(s, t, s.txns[t]);
    BufferedOk(s, t, s.txns[t], m, s');
    MovesKeepsInv(s, t, s'.txns[t], s');
  }

  /** The step's transaction moved on; table, store and bounds are the same, or the bounds grew. */
  ghost predicate SameView(s: System, s': System) {
    && s'.table == s.table && s'.store == s.store
    && Grows(s.lastAssigned, s'.lastAssigned) && Grows(s.lastCommit, s'.lastCommit)
  }

  lemma BufferedOk(s: System, t: TxnId, x: Txn, m: Mutation, s': System)
    requires TxnOk(s, t, x) && SameView(s, s') && x.phase == Active && Agrees(x.mutations, m)
    ensures TxnOk(s', t, x.(mutations := x.mutations + [m]))
  {
    hide Shows, UpTo;
    var x' := x.(mutations := x.mutations + [m]);
    assert x'.Guarded() == x.Guarded();
  }

  /** A locked read's timestamp is at or above every version of the key: their writers are all finished. */
  lemma PickReadTimeKeepsInv(s: System, t: TxnId, clock: Timestamp, s': System)
    requires Inv(s) && Next(s, PickReadTime(t, clock), s')
    ensures Inv(s')
  {
    hide Shows, UpTo, Acquire, Fence, Retire, TxnOk, StoreOk, TableOk;
    var x := s.txns[t];
    assert TxnOk(s, t, x);
    if s.Sound(t) {
      ReadTimeIsLate(s, t, clock);
    }
    PickerOk(s, t, x, ReadTimestamp(clock, s.lastCommit), s');
    MovesKeepsInv(s, t, s'.txns[t], s');
  }

  lemma ReadTimeIsLate(s: System, t: TxnId, clock: Timestamp)
    requires Inv(s) && s.Sound(t) && s.txns[t].phase.Locked?
    ensures forall v | v in s.store && v.key == s.txns[t].phase.key :: v.ts.AtMost(ReadTimestamp(clock, s.lastCommit))
  {
    hide LockOrderIsTimeOrder, StampsDistinct;
    var x := s.txns[t];
    assert TxnOk(s, t, x) && x.phase.key in x.Guarded();
    forall v | v in s.store && v.key == x.phase.key
      ensures v.ts.AtMost(ReadTimestamp(clock, s.lastCommit))
    {
      WriterIsDone(s, t, v);
    }
  }

  /** Whoever holds a key's write lock knows the writers of its versions to be finished, below the safe time. */
  lemma WriterIsDone(s: System, t: TxnId, v: Version)
    requires Inv(s) && t in s.txns && s.table.Writes(t, v.key) && v in s.store && !s.txns[t].Sealed()
    ensures NoLaterThan(v.ts, s.lastCommit)
  {
    WriterOf(s, v);
    if !s.txns[v.author].phase.Committed? {
      OneWriter(s, t, v.author, v.key);
    }
    assert TxnOk(s, v.author, s.txns[v.author]);
  }

  lemma PickerOk(s: System, t: TxnId, x: Txn, ts: Timestamp, s': System)
    requires TxnOk(s, t, x) && SameView(s, s') && x.phase.Locked?
    requires t !in s.table.wounded ==> forall v | v in s.store && v.key == x.phase.key :: v.ts.AtMost(ts)
    ensures TxnOk(s', t, x.(phase := ReadAt(x.phase.key, ts)))
  {
    hide Shows, UpTo;
    assert x.(phase := ReadAt(x.phase.key, ts)).Guarded() == x.Guarded();
  }

  lemma ReadStoreKeepsInv(s: System, t: TxnId, v: Option<Value>, s': System)
    requires Inv(s) && Next(s, ReadStore(t, v), s')
    ensures Inv(s')
  {
    hide Shows, UpTo, Acquire, Fence, Retire, TxnOk, StoreOk, TableOk;
    var x := s.txns[t];
    assert TxnOk(s, t, x);
    ReaderOk(s, t, x, v, s');
    MovesKeepsInv(s, t, s'.txns[t], s');
  }

  lemma ReaderOk(s: System, t: TxnId, x: Txn, v: Option<Value>, s': System)
    requires TxnOk(s, t, x) && x.phase.ReadAt? && Shows(s.store, x.phase.key, UpTo(x.phase.ts), v)
    requires s'.table == s.table && s'.store == s.store
    requires s'.lastAssigned == s.lastAssigned && s'.lastCommit == s.lastCommit
    ensures TxnOk(s', t, x.(phase := Active, observed := x.observed + {(x.phase.key, v)}))
  {
    var x' := x.(phase := Active, observed := x.observed + {(x.phase.key, v)});
    hide Shows, UpTo;
    assert x'.Guarded() <= x.Guarded();
    if t !in s.table.wounded {
      ShowsLatest(s.store, x.phase.key, x.phase.ts, v);
    }
  }

  lemma ShowsLatest(store: set<Version>, k: Key, ts: Timestamp, v: Option<Value>)
    requires Shows(store, k, UpTo(ts), v)
    requires forall u | u in store && u.key == k :: u.ts.AtMost(ts)
    ensures Shows(store, k, ANY_TIME, v)
  {
  }

  lemma StartCommitKeepsInv(s: System, t: TxnId, s': System)
    requires Inv(s) && Next(s, StartCommit(t), s')
    ensures Inv(s')
  {
    hide Shows, UpTo, Acquire, Fence, Retire, TxnOk, StoreOk, TableOk;
    assert TxnOk(s, t, s.txns[t]);
    ShiftOk(s, t, s.txns[t], s'.txns[t].phase, s');
    MovesKeepsInv(s, t, s'.txns[t], s');
  }

  /** Moving to a phase that guards no more, on the same side of the fence. */
  lemma ShiftOk(s: System, t: TxnId, x: Txn, phase: Phase, s': System)
    requires TxnOk(s, t, x) && SameView(s, s')
    requires
      || (x.phase.Active? && phase == Preparing(x.WriteKeys()))
      || ((x.phase.Active? || x.phase.Preparing? || x.phase.Chosen?) && phase == Failed)
    ensures TxnOk(s', t, x.(phase := phase))
  {
    hide Shows, UpTo;
    assert phase != Failed ==> x.(phase := phase).Guarded() <= x.Guarded();
  }

  lemma FailKeepsInv(s: System, t: TxnId, s': System)
    requires Inv(s) && Next(s, Fail(t), s')
    ensures Inv(s')
  {
    hide Shows, UpTo, Acquire, Fence, Retire, TxnOk, StoreOk, TableOk;
    assert TxnOk(s, t, s.txns[t]);
    ShiftOk(s, t, s.txns[t], Failed, s');
    MovesKeepsInv(s, t, s'.txns[t], s');
  }

  lemma ChooseKeepsInv(s: System, t: TxnId, hlc: Timestamp, ttLatest: int, s': System)
    requires Inv(s) && Next(s, Choose(t, hlc, ttLatest), s')
    ensures Inv(s')
  {
    hide Shows, UpTo, Acquire, Fence, Retire, TxnOk, StoreOk, TableOk;
    assert TxnOk(s, t, s.txns[t]);
    ChooserOk(s, t, s.txns[t], s'.txns[t].commitTs.value, s');
    MovesKeepsInv(s, t, s'.txns[t], s');
  }

  lemma ChooserOk(s: System, t: TxnId, x: Txn, ts: Timestamp, s': System)
    requires TxnOk(s, t, x) && SameView(s, s') && x.phase == Preparing({}) && s'.lastAssigned == Some(ts)
    ensures TxnOk(s', t, x.(phase := Chosen, commitTs := Some(ts)))
  {
    hide Shows, UpTo;
    assert x.(phase := Chosen, commitTs := Some(ts)).Guarded() == x.Guarded();
  }

  lemma AdvanceKeepsInv(s: System, t: TxnId, s': System)
    requires Inv(s) && Next(s, Advance(t), s')
    ensures Inv(s')
  {
    hide Shows, UpTo, Acquire, Fence, Retire, TxnOk, StoreOk, TableOk;
    assert TxnOk(s, t, s.txns[t]);
    AdvancerOk(s, t, s.txns[t], s');
    MovesKeepsInv(s, t, s'.txns[t], s');
  }

  lemma AdvancerOk(s: System, t: TxnId, x: Txn, s': System)
    requires TxnOk(s, t, x) && SameView(s, s') && x.phase == Applying(|x.mutations|) && x.commitTs.Some?
    requires NoLaterThan(x.commitTs.value, s'.lastCommit)
    ensures TxnOk(s', t, x.(phase := Advanced))
  {
    hide Shows, UpTo, Before;
    assert x.(phase := Advanced).Guarded() == x.Guarded();
  }

  /** A step that only changes the lock table and one transaction that has no commit timestamp yet. */
  ghost predicate LockStep(s: System, t: TxnId, k: Key, timedOut: bool, x': Txn, s': System) {
    && t in s.txns
    && var x := s.txns[t];
    && var (table', outcome) := Acquire(s.table, t, x.age, k, Write, timedOut);
    && s' == Put(s.(table := table'), t, x')
    && x' == x.(phase := x'.phase)
    && (x.phase.Active? || x.phase.Preparing?)
    && (x'.phase.Active? || x'.phase.Locked? || x'.phase.Preparing? || x'.phase.Failed?)
    && (x'.phase.Preparing? ==> x'.phase.todo <= x.WriteKeys())
    && x'.Guarded() <= x.Guarded() + if outcome == Acquired then {k} else {}
  }

  lemma LockStepKeepsTable(s: System, t: TxnId, k: Key, timedOut: bool, x': Txn, s': System)
    requires TableOk(s) && LockStep(s, t, k, timedOut, x', s')
    ensures TableOk(s')
  {
    hide Acquire, Txn.Guarded, Valid;
    SameAgeFromTable(s, t, k);
    AcquireFacts(s.table, t, s.txns[t].age, k, Write, timedOut);
    LockStepKeepsAges(s, t, k, timedOut, x', s');
  }

  lemma LockStepKeepsAges(s: System, t: TxnId, k: Key, timedOut: bool, x': Txn, s': System)
    requires AgesOk(s) && LockStep(s, t, k, timedOut, x', s')
    ensures AgesOk(s')
  {
    hide Acquire, Txn.Guarded;
    AcquireAges(s.table, t, s.txns[t].age, k, Write, timedOut);
  }

  lemma LockStepKeepsTxns(s: System, t: TxnId, k: Key, timedOut: bool, x': Txn, s': System)
    requires Inv(s) && LockStep(s, t, k, timedOut, x', s')
    ensures TxnsOk(s') && StoreOk(s')
  {
    hide Acquire, TxnOk, AppliedStored, AuthorOk;
    SameAgeFromTable(s, t, k);
    AcquireFacts(s.table, t, s.txns[t].age, k, Write, timedOut);
    forall u | u in s'.txns
      ensures TxnOk(s', u, s'.txns[u]) && AppliedStored(s', u, s'.txns[u])
    {
      assert TxnOk(s, u, s.txns[u]) && AppliedStored(s, u, s.txns[u]);
      AppliedFrame(s, s', u, s.txns[u]);
      TxnFrame(s, s', u, s.txns[u]);
      if u == t {
        LockerOk(s, t, k, timedOut, x', s');
      }
    }
    forall v | v in s'.store
      ensures AuthorOk(s', v)
    {
      AuthorFrame(s, s', v);
    }
  }

  lemma LockerOk(s: System, t: TxnId, k: Key, timedOut: bool, x': Txn, s': System)
    requires Inv(s) && LockStep(s, t, k, timedOut, x', s')
    ensures TxnOk(s', t, x') && AppliedStored(s', t, x')
  {
    hide Acquire, Shows, Txn.Guarded, GuardsHeld, StoreOk, LockOrderIsTimeOrder, StampsDistinct, TableOk;
    assert TxnOk(s, t, s.txns[t]);
    LockerGuards(s, t, k, timedOut, x', s');
    LockerStaysWounded(s, t, k, timedOut, x', s');
  }

  lemma LockerStaysWounded(s: System, t: TxnId, k: Key, timedOut: bool, x': Txn, s': System)
    requires TableOk(s) && LockStep(s, t, k, timedOut, x', s')
    ensures s.table.wounded <= s'.table.wounded
  {
    hide Acquire;
    SameAgeFromTable(s, t, k);
    AcquireFacts(s.table, t, s.txns[t].age, k, Write, timedOut);
  }

  lemma LockerGuards(s: System, t: TxnId, k: Key, timedOut: bool, x': Txn, s': System)
    requires TableOk(s) && LockStep(s, t, k, timedOut, x', s') && GuardsHeld(s, t, s.txns[t])
    ensures GuardsHeld(s', t, x')
  {
    hide Acquire, Txn.Guarded;
    SameAgeFromTable(s, t, k);
    AcquireFacts(s.table, t, s.txns[t].age, k, Write, timedOut);
  }

  lemma LockStepKeepsOrder(s: System, t: TxnId, k: Key, timedOut: bool, x': Txn, s': System)
    requires Inv(s) && LockStep(s, t, k, timedOut, x', s')
    ensures LockOrderIsTimeOrder(s') && StampsDistinct(s')
  {
    hide Acquire, TxnsOk, StoreOk, Txn.Guarded;
    SameAgeFromTable(s, t, k);
    AcquireFacts(s.table, t, s.txns[t].age, k, Write, timedOut);
    assert x'.commitTs == None by {
      NoStampYet(s, t);
    }
    forall u, w, j | u in s'.txns && s'.txns[u].Sealed() && j in s'.txns[u].Touched() && s'.txns[u].commitTs.Some? &&
                     w != u && s'.Sound(w) && s'.table.Writes(w, j) && s'.txns[w].commitTs.Some?
      ensures s'.txns[u].commitTs.value.Less(s'.txns[w].commitTs.value)
    {
      assert s.Sound(w) && j in s.txns[u].Touched() && s.table.Writes(w, j);
    }
  }

  lemma NoStampYet(s: System, t: TxnId)
    requires TxnsOk(s) && t in s.txns && (s.txns[t].phase.Active? || s.txns[t].phase.Preparing?)
    ensures s.txns[t].commitTs.None?
  {
    assert TxnOk(s, t, s.txns[t]);
  }

  lemma LockStepKeepsInv(s: System, t: TxnId, k: Key, timedOut: bool, x': Txn, s': System)
    requires Inv(s) && LockStep(s, t, k, timedOut, x', s')
    ensures Inv(s')
  {
    LockStepKeepsTable(s, t, k, timedOut, x', s');
    LockStepKeepsTxns(s, t, k, timedOut, x', s');
    LockStepKeepsOrder(s, t, k, timedOut, x', s');
  }

  lemma LockForReadKeepsInv(s: System, t: TxnId, k: Key, timedOut: bool, s': System)
    requires Inv(s) && Next(s, LockForRead(t, k, timedOut), s')
    ensures Inv(s')
  {
    hide Acquire;
    LockStepKeepsInv(s, t, k, timedOut, s'.txns[t], s');
  }

  lemma LockForWriteKeepsInv(s: System, t: TxnId, k: Key, timedOut: bool, s': System)
    requires Inv(s) && Next(s, LockForWrite(t, k, timedOut), s')
    ensures Inv(s')
  {
    hide Inv, Acquire;
    ShapeKnown(s, t);
    LockStepKeepsInv(s, t, k, timedOut, s'.txns[t], s');
  }

  lemma ShapeKnown(s: System, t: TxnId)
    requires Inv(s) && t in s.txns
    ensures ShapeOk(s.txns[t])
  {
    assert TxnOk(s, t, s.txns[t]);
  }

  /** The fence: from Newest to "newest below the commit timestamp". */
  lemma SealKeepsInv(s: System, t: TxnId, s': System)
    requires Inv(s) && Next(s, Seal(t), s')
    ensures Inv(s')
  {
    hide TxnsOk, StoreOk, TableOk, LockOrderIsTimeOrder, StampsDistinct;
    if t in s.table.wounded {
      FailedSeal(s, t, s');
    } else {
      SealKeepsTable(s, t, s');
      SealKeepsTxns(s, t, s');
      SealKeepsOrder(s, t, s');
    }
  }

  lemma FailedSeal(s: System, t: TxnId, s': System)
    requires Inv(s) && Next(s, Seal(t), s') && t in s.table.wounded
    ensures Inv(s')
  {
    assert TxnOk(s, t, s.txns[t]);
    hide TableOk, StoreOk, LockOrderIsTimeOrder, StampsDistinct;
    MovesKeepsInv(s, t, s'.txns[t], s');
  }

  lemma SealKeepsTable(s: System, t: TxnId, s': System)
    requires Inv(s) && Next(s, Seal(t), s') && t !in s.table.wounded
    ensures TableOk(s')
  {
    hide TxnOk, StoreOk, LockOrderIsTimeOrder, Fence;
    FenceKeepsValid(s.table, t);
    FenceFields(s.table, t);
  }

  lemma FenceFields(table: State, t: TxnId)
    requires t !in table.wounded
    ensures Fence(table, t) == table.(committing := table.committing + {t})
  {
  }

  lemma SealKeepsTxns(s: System, t: TxnId, s': System)
    requires Inv(s) && Next(s, Seal(t), s') && t !in s.table.wounded
    ensures TxnsOk(s') && StoreOk(s')
  {
    hide TxnOk, AppliedStored, AuthorOk;
    FenceKeepsValid(s.table, t);
    forall u | u in s'.txns
      ensures TxnOk(s', u, s'.txns[u]) && AppliedStored(s', u, s'.txns[u])
    {
      if u == t {
        SealerOk(s, t, s');
      } else {
        TxnFrame(s, s', u, s.txns[u]);
        AppliedFrame(s, s', u, s.txns[u]);
      }
    }
    forall v | v in s'.store
      ensures AuthorOk(s', v)
    {
      AuthorFrame(s, s', v);
    }
  }

  lemma SealerOk(s: System, t: TxnId, s': System)
    requires Inv(s) && Next(s, Seal(t), s') && t !in s.table.wounded
    ensures TxnOk(s', t, s'.txns[t]) && AppliedStored(s', t, s'.txns[t])
  {
    hide Inv, Shows, Locks.Valid;
    TxnKnown(s, t);
    FenceKeepsWrites(s, t);
    ReadsBeforeStamp(s, t);
    assert s'.txns[t].Guarded() == s.txns[t].Guarded();
  }

  lemma FenceKeepsWrites(s: System, t: TxnId)
    requires Inv(s)
    ensures forall u, k :: Fence(s.table, t).Writes(u, k) <==> s.table.Writes(u, k)
  {
    FenceKeepsValid(s.table, t);
  }

  /** At the fence everything read is still write-locked, so all its versions are older than the commit. */
  lemma ReadsBeforeStamp(s: System, t: TxnId)
    requires Inv(s) && t in s.txns && s.txns[t].phase.Chosen? && t !in s.table.wounded
    ensures s.txns[t].commitTs.Some?
    ensures forall r | r in s.txns[t].observed :: Shows(s.store, r.0, Before(s.txns[t].commitTs.value), r.1)
  {
    hide Shows;
    var x := s.txns[t];
    assert TxnOk(s, t, x);
    forall r | r in x.observed
      ensures Shows(s.store, r.0, Before(x.commitTs.value), r.1)
    {
      assert r.0 in x.Guarded();
      forall v | v in s.store && v.key == r.0
        ensures v.ts.Less(x.commitTs.value)
      {
        WriterOf(s, v);
        assert s.Sound(t) && s.table.Writes(t, r.0) && v.author != t;
      }
      ShowsBefore(s.store, r.0, x.commitTs.value, r.1);
    }
  }

  lemma ShowsBefore(store: set<Version>, k: Key, ts: Timestamp, v: Option<Value>)
    requires Shows(store, k, ANY_TIME, v)
    requires forall u | u in store && u.key == k :: u.ts.Less(ts)
    ensures Shows(store, k, Before(ts), v)
  {
  }

  lemma SealerHolds(s: System, t: TxnId)
    requires Inv(s) && t in s.txns && s.txns[t].phase.Chosen? && t !in s.table.wounded
    ensures forall k | k in s.txns[t].Touched() :: s.table.Writes(t, k)
    ensures forall u, k | u != t && s.table.Writes(u, k) :: k !in s.txns[t].Touched()
  {
    hide StoreOk, LockOrderIsTimeOrder, StampsDistinct;
    assert TxnOk(s, t, s.txns[t]);
    assert s.txns[t].Guarded() == s.txns[t].Touched();
  }

  lemma SealKeepsOrder(s: System, t: TxnId, s': System)
    requires Inv(s) && Next(s, Seal(t), s') && t !in s.table.wounded
    ensures LockOrderIsTimeOrder(s') && StampsDistinct(s')
  {
    hide TxnsOk, StoreOk, TableOk, Fence;
    FenceFields(s.table, t);
    SealerHolds(s, t);
    forall u, w, k | u in s'.txns && s'.txns[u].Sealed() && k in s'.txns[u].Touched() && s'.txns[u].commitTs.Some? &&
                     w != u && s'.Sound(w) && s'.table.Writes(w, k) && s'.txns[w].commitTs.Some?
      ensures s'.txns[u].commitTs.value.Less(s'.txns[w].commitTs.value)
    {
      assert s.table.Writes(w, k);
      if u != t {
        assert k in s.txns[u].Touched() && s.Sound(w);
      }
    }
  }

  lemma ShowsFrame(store: set<Version>, added: Version, k: Key, bound: Timestamp -> bool, v: Option<Value>)
    requires Shows(store, k, bound, v) && (added.key != k || !bound(added.ts))
    ensures Shows(store + {added}, k, bound, v)
  {
    if w :| w in store && w.key == k && bound(w.ts) && w.value == v &&
            forall u | u in store && u.key == k && bound(u.ts) :: u.ts.AtMost(w.ts) {
      assert w in store + {added};
    }
  }

  /** The version an Apply step stores. */
  function Stored(t: TxnId, x: Txn): Version
    requires x.phase.Applying? && x.phase.done < |x.mutations| && x.commitTs.Some?
  {
    Version(x.mutations[x.phase.done].key, x.commitTs.value, x.mutations[x.phase.done].value, t)
  }

  ghost predicate IsApply(s: System, t: TxnId, s': System) {
    && t in s.txns && s.txns[t].phase.Applying? && s.txns[t].phase.done < |s.txns[t].mutations|
    && s.txns[t].commitTs.Some?
    && s' == Put(s.(store := s.store + {Stored(t, s.txns[t])}), t,
                 s.txns[t].(phase := Applying(s.txns[t].phase.done + 1)))
  }

  /** Nobody's recorded read is disturbed by another transaction's write. */
  lemma ApplySparesReads(s: System, t: TxnId, s': System, u: TxnId, r: (Key, Option<Value>))
    requires Inv(s) && IsApply(s, t, s') && u in s.txns && r in s.txns[u].observed
    ensures s.Sound(u) && !s.txns[u].Sealed() ==> Shows(s'.store, r.0, ANY_TIME, r.1)
    ensures s.txns[u].Sealed() && s.txns[u].commitTs.Some? ==>
              Shows(s'.store, r.0, Before(s.txns[u].commitTs.value), r.1)
  {
    hide Shows, StoreOk;
    var x, y := s.txns[t], s.txns[u];
    var v := Stored(t, x);
    assert TxnOk(s, u, y);
    assert r.0 in y.ReadKeys();
    WriterHolds(s, t);
    if s.Sound(u) && !y.Sealed() {
      if r.0 == v.key {
        OneWriter(s, t, u, r.0);
      }
      ShowsFrame(s.store, v, r.0, ANY_TIME, r.1);
    }
    if y.Sealed() && y.commitTs.Some? {
      if r.0 == v.key && u != t && !y.phase.Committed? {
        SealedHolds(s, u, r.0);
        OneWriter(s, t, u, r.0);
      }
      assert r.0 == v.key ==> !v.ts.Less(y.commitTs.value);
      ShowsFrame(s.store, v, r.0, Before(y.commitTs.value), r.1);
    }
  }

  lemma WriterHolds(s: System, t: TxnId)
    requires Inv(s) && t in s.txns && s.txns[t].phase.Applying?
    requires s.txns[t].phase.done < |s.txns[t].mutations|
    ensures s.Sound(t) && s.table.Writes(t, s.txns[t].mutations[s.txns[t].phase.done].key)
  {
    var x := s.txns[t];
    assert x.mutations[x.phase.done] in x.mutations;
    assert x.mutations[x.phase.done].key in x.WriteKeys();
    SealedHolds(s, t, x.mutations[x.phase.done].key);
  }

  lemma ApplyKeepsTxn(s: System, t: TxnId, s': System, u: TxnId)
    requires Inv(s) && IsApply(s, t, s') && u in s.txns
    ensures TxnOk(s', u, s'.txns[u])
  {
    hide Inv, ReadsCurrent, Stored;
    ApplyKeepsReads(s, t, s', u);
    TxnKnown(s, u);
    assert s'.txns[u].Guarded() == s.txns[u].Guarded();
  }

  lemma TxnKnown(s: System, u: TxnId)
    requires Inv(s) && u in s.txns
    ensures TxnOk(s, u, s.txns[u])
  {
  }

  lemma ApplyKeepsReads(s: System, t: TxnId, s': System, u: TxnId)
    requires Inv(s) && IsApply(s, t, s') && u in s.txns
    ensures ReadsCurrent(s', u, s'.txns[u])
  {
    var x, y, y' := s.txns[t], s.txns[u], s'.txns[u];
    assert TxnOk(s, u, y);
    hide Shows, Inv, StampOk;
    forall r | r in y.observed
      ensures s.Sound(u) && !y.Sealed() ==> Shows(s'.store, r.0, ANY_TIME, r.1)
      ensures y.Sealed() && y.commitTs.Some? ==> Shows(s'.store, r.0, Before(y.commitTs.value), r.1)
    {
      ApplySparesReads(s, t, s', u, r);
    }
    if s.Sound(u) && y.phase.ReadAt? {
      WriterHolds(s, t);
      assert y.phase.key in y.Guarded();
      if y.phase.key == Stored(t, x).key {
        OneWriter(s, t, u, y.phase.key);
      }
    }
  }

  lemma ApplyKeepsStore(s: System, t: TxnId, s': System)
    requires Inv(s) && IsApply(s, t, s')
    ensures StoreOk(s')
  {
    ApplyKeepsAuthors(s, t, s');
    hide TableOk, TxnsOk, LockOrderIsTimeOrder, StampsDistinct, AuthorOk;
    forall u | u in s'.txns
      ensures AppliedStored(s', u, s'.txns[u])
    {
      AppliedFrame(s, s', u, s.txns[u]);
    }
  }

  lemma ApplyKeepsAuthors(s: System, t: TxnId, s': System)
    requires Inv(s) && IsApply(s, t, s')
    ensures forall v | v in s'.store :: AuthorOk(s', v)
  {
    var x := s.txns[t];
    hide TableOk, TxnsOk, LockOrderIsTimeOrder, StampsDistinct, AppliedStored;
    forall v | v in s'.store
      ensures AuthorOk(s', v)
    {
      if v in s.store {
        AuthorFrame(s, s', v);
      } else {
        assert v == Stored(t, x) && x.mutations[x.phase.done] in x.mutations;
      }
    }
  }

  lemma ApplyKeepsInv(s: System, t: TxnId, s': System)
    requires Inv(s) && Next(s, Apply(t), s')
    ensures Inv(s')
  {
    hide TxnOk, StoreOk, Acquire, Fence, Retire;
    forall u | u in s'.txns
      ensures TxnOk(s', u, s'.txns[u])
    {
      ApplyKeepsTxn(s, t, s', u);
    }
    ApplyKeepsStore(s, t, s');
    OrderFrame(s, s', t);
  }

  /** The lock order survives when nobody gains a lock, a timestamp or a touched key. */
  lemma OrderFrame(s: System, s': System, t: TxnId)
    requires LockOrderIsTimeOrder(s) && StampsDistinct(s) && t in s.txns && s'.txns.Keys == s.txns.Keys
    requires forall u | u in s.txns && u != t :: s'.txns[u] == s.txns[u]
    requires s'.txns[t].commitTs == s.txns[t].commitTs && s'.txns[t].Sealed() == s.txns[t].Sealed()
    requires s'.txns[t].mutations == s.txns[t].mutations && s'.txns[t].observed == s.txns[t].observed
    requires s'.txns[t].Live() ==> s.txns[t].Live()
    requires forall w, k | s'.Sound(w) && s'.table.Writes(w, k) :: s.Sound(w) && s.table.Writes(w, k)
    ensures LockOrderIsTimeOrder(s') && StampsDistinct(s')
  {
    forall u, w, k | u in s'.txns && s'.txns[u].Sealed() && k in s'.txns[u].Touched() && s'.txns[u].commitTs.Some? &&
                     w != u && s'.Sound(w) && s'.table.Writes(w, k) && s'.txns[w].commitTs.Some?
      ensures s'.txns[u].commitTs.value.Less(s'.txns[w].commitTs.value)
    {
      assert k in s.txns[u].Touched() && s.Sound(w) && s.table.Writes(w, k);
    }
  }

  lemma FinalizeKeepsTable(s: System, t: TxnId, s': System)
    requires TableOk(s) && t in s.txns && s'.table == Retire(s.table, t)
    requires t in s'.txns && s'.txns == s.txns[t := s'.txns[t]] && s'.txns[t].age == s.txns[t].age && !s'.txns[t].Applies()
    ensures TableOk(s')
  {
    hide Retire, Valid, AgesOk;
    RetireKeepsValid(s.table, t);
    RetireFields(s.table, t);
    FinalizeKeepsAges(s, t, s');
  }

  lemma FinalizeKeepsAges(s: System, t: TxnId, s': System)
    requires AgesOk(s) && t in s.txns && s'.table == Retire(s.table, t)
    requires t in s'.txns && s'.txns == s.txns[t := s'.txns[t]] && s'.txns[t].age == s.txns[t].age
    ensures AgesOk(s')
  {
    hide Retire;
    RetireRecords(s.table, t);
  }

  lemma FinalizeKeepsInv(s: System, t: TxnId, s': System)
    requires Inv(s) && Next(s, Finalize(t), s')
    ensures Inv(s')
  {
    hide TxnsOk, StoreOk, Acquire, Fence, TableOk, Retire, LockOrderIsTimeOrder, StampsDistinct;
    FinalizeKeepsTable(s, t, s');
    FinalizeKeepsTxns(s, t, s');
    FinalizeKeepsStore(s, t, s');
    FinalizeKeepsOrder(s, t, s');
  }

  lemma FinalizeKeepsOrder(s: System, t: TxnId, s': System)
    requires Inv(s) && Next(s, Finalize(t), s')
    ensures LockOrderIsTimeOrder(s') && StampsDistinct(s')
  {
    hide TxnsOk, StoreOk, Acquire, Fence, Retire, Locks.Valid;
    RetireKeepsValid(s.table, t);
    RetireFields(s.table, t);
    OrderFrame(s, s', t);
  }

  lemma FinalizeKeepsTxns(s: System, t: TxnId, s': System)
    requires Inv(s) && Next(s, Finalize(t), s')
    ensures TxnsOk(s')
  {
    FinalizerOk(s, t, s');
    RetireKeepsValid(s.table, t);
    hide TxnOk, StoreOk, Acquire, Fence, TableOk, Retire, LockOrderIsTimeOrder, StampsDistinct;
    RetireFields(s.table, t);
    forall u | u in s'.txns
      ensures TxnOk(s', u, s'.txns[u])
    {
      if u != t {
        TxnFrame(s, s', u, s.txns[u]);
      }
    }
  }

  lemma FinalizerOk(s: System, t: TxnId, s': System)
    requires TxnsOk(s) && Next(s, Finalize(t), s')
    ensures TxnOk(s', t, s'.txns[t])
  {
    assert TxnOk(s, t, s.txns[t]);
    hide Shows, Acquire, Fence, Retire;
  }

  lemma FinalizeKeepsStore(s: System, t: TxnId, s': System)
    requires Inv(s) && Next(s, Finalize(t), s')
    ensures StoreOk(s')
  {
    hide TableOk, TxnsOk, LockOrderIsTimeOrder, StampsDistinct, Acquire, Fence, Retire;
    forall v | v in s'.store
      ensures AuthorOk(s', v)
    {
      AuthorFrame(s, s', v);
    }
    forall u | u in s'.txns
      ensures AppliedStored(s', u, s'.txns[u])
    {
      AppliedFrame(s, s', u, s.txns[u]);
    }
  }

  lemma NextKeepsInv(s: System, step: Step, s': System)
    requires Inv(s) && Next(s, step, s')
    ensures Inv(s')
  {
    hide Inv;
    match step
    case Begin(t, age) => BeginKeepsInv(s, t, age, s');
    case Buffer(t, m) => BufferKeepsInv(s, t, m, s');
    case LockForRead(t, k, timedOut) => LockForReadKeepsInv(s, t, k, timedOut, s');
    case PickReadTime(t, clock) => PickReadTimeKeepsInv(s, t, clock, s');
    case ReadStore(t, v) => ReadStoreKeepsInv(s, t, v, s');
    case StartCommit(t) => StartCommitKeepsInv(s, t, s');
    case LockForWrite(t, k, timedOut) => LockForWriteKeepsInv(s, t, k, timedOut, s');
    case Choose(t, hlc, ttLatest) => ChooseKeepsInv(s, t, hlc, ttLatest, s');
    case Seal(t) => SealKeepsInv(s, t, s');
    case Apply(t) => ApplyKeepsInv(s, t, s');
    case Advance(t) => AdvanceKeepsInv(s, t, s');
    case Fail(t) => FailKeepsInv(s, t, s');
    case Finalize(t) => FinalizeKeepsInv(s, t, s');
  }

  lemma {:induction false} RunKeepsInv(run: seq<System>, steps: seq<Step>, n: nat)
    requires IsRun(run, steps) && n < |run|
    ensures Inv(run[n])
  {
    if n > 0 {
      RunKeepsInv(run, steps, n - 1);
      NextKeepsInv(run[n - 1], steps[n - 1], run[n]);
    }
  }

  // ---------- results ----------

  /** v is what the sealed writer of k with the greatest timestamp below ts wrote; None if there is none. */
  ghost predicate PredecessorWrote(s: System, k: Key, ts: Timestamp, v: Option<Value>) {
    || (exists u | u in s.txns ::
          && WritesBelow(s, u, k, ts) && Mutation(k, v) in s.txns[u].mutations
          && forall w | w in s.txns && WritesBelow(s, w, k, ts) ::
               s.txns[w].commitTs.value.AtMost(s.txns[u].commitTs.value))
    || (v == None && forall w | w in s.txns :: !WritesBelow(s, w, k, ts))
  }

  ghost predicate WritesBelow(s: System, u: TxnId, k: Key, ts: Timestamp) {
    && u in s.txns && s.txns[u].Sealed() && k in s.txns[u].WriteKeys()
    && s.txns[u].commitTs.Some? && s.txns[u].commitTs.value.Less(ts)
  }

  /** Every sealed writer of a key below the reader's timestamp is finished, its version stored. */
  lemma PredecessorStored(s: System, t: TxnId, k: Key, u: TxnId) returns (v: Version)
    requires Inv(s) && t in s.txns && s.txns[t].Sealed() && s.txns[t].commitTs.Some? && k in s.txns[t].Touched()
    requires WritesBelow(s, u, k, s.txns[t].commitTs.value)
    ensures v in s.store && v.author == u && v.key == k && v.ts == s.txns[u].commitTs.value
    ensures s.txns[u].phase.Committed?
  {
    var x := s.txns[u];
    assert u != t;
    if !x.phase.Committed? {
      SealedHolds(s, u, k);
    }
    var m :| m in x.mutations && m.key == k;
    var i :| 0 <= i < |x.mutations| && x.mutations[i] == m;
    assert AppliedStored(s, u, x);
    v := Version(k, x.commitTs.value, m.value, u);
  }

  /**
   Serializability, read by read: in every reachable state each locked read of a transaction past its
   fence returned what the sealed writer of that key with the greatest smaller timestamp wrote.
   */
  lemma ReadsSeeTheirPredecessor(run: seq<System>, steps: seq<Step>, n: nat, t: TxnId, r: (Key, Option<Value>))
    requires IsRun(run, steps) && n < |run|
    requires t in run[n].txns && run[n].txns[t].Sealed() && r in run[n].txns[t].observed
    ensures run[n].txns[t].commitTs.Some?
    ensures PredecessorWrote(run[n], r.0, run[n].txns[t].commitTs.value, r.1)
  {
    RunKeepsInv(run, steps, n);
    var s := run[n];
    assert TxnOk(s, t, s.txns[t]);
    SealedReadsPredecessor(s, t, r);
  }

  lemma SealedReadsPredecessor(s: System, t: TxnId, r: (Key, Option<Value>))
    requires Inv(s) && t in s.txns && s.txns[t].Sealed() && s.txns[t].commitTs.Some? && r in s.txns[t].observed
    ensures PredecessorWrote(s, r.0, s.txns[t].commitTs.value, r.1)
  {
    var x := s.txns[t];
    var k, ts := r.0, x.commitTs.value;
    assert TxnOk(s, t, x);
    assert k in x.ReadKeys();
    if v :| v in s.store && v.key == k && v.ts.Less(ts) && v.value == r.1 &&
            forall u | u in s.store && u.key == k && u.ts.Less(ts) :: u.ts.AtMost(v.ts) {
      WriterOf(s, v);
      assert WritesBelow(s, v.author, k, ts);
      forall w | w in s.txns && WritesBelow(s, w, k, ts)
        ensures s.txns[w].commitTs.value.AtMost(s.txns[v.author].commitTs.value)
      {
        var _ := PredecessorStored(s, t, k, w);
      }
    } else {
      forall w | w in s.txns
        ensures !WritesBelow(s, w, k, ts)
      {
        if WritesBelow(s, w, k, ts) {
          var _ := PredecessorStored(s, t, k, w);
        }
      }
    }
  }

  /** All sealed transactions, listed in commit-timestamp order. */
  ghost predicate InTimeOrder(s: System, order: seq<TxnId>) {
    && (forall t | t in order :: t in s.txns && s.txns[t].Sealed() && s.txns[t].commitTs.Some?)
    && (forall t | t in s.txns && s.txns[t].Sealed() :: t in order)
    && (forall i, j | 0 <= i < j < |order| :: s.txns[order[i]].commitTs.value.Less(s.txns[order[j]].commitTs.value))
  }

  /** In every reachable state there is such a list: no two transactions share a timestamp. */
  lemma TimeOrderExists(run: seq<System>, steps: seq<Step>, n: nat) returns (order: seq<TxnId>)
    requires IsRun(run, steps) && n < |run|
    ensures InTimeOrder(run[n], order)
  {
    RunKeepsInv(run, steps, n);
    var s := run[n];
    var sealed := set t | t in s.txns && s.txns[t].Sealed();
    forall t | t in sealed
      ensures s.txns[t].commitTs.Some?
    {
      assert TxnOk(s, t, s.txns[t]);
    }
    assert StampsDistinct(s);
    hide Inv, IsRun;
    order := SortedByStamp(s, sealed);
  }

  ghost predicate StampsAscend(s: System, order: seq<TxnId>) {
    && (forall t | t in order :: t in s.txns && s.txns[t].commitTs.Some?)
    && forall i, j | 0 <= i < j < |order| :: s.txns[order[i]].commitTs.value.Less(s.txns[order[j]].commitTs.value)
  }

  lemma {:induction false} SortedByStamp(s: System, ts: set<TxnId>) returns (order: seq<TxnId>)
    requires StampsDistinct(s) && forall t | t in ts :: t in s.txns && s.txns[t].commitTs.Some?
    ensures StampsAscend(s, order) && forall t :: t in order <==> t in ts
    decreases |ts|
  {
    if ts == {} {
      order := [];
    } else {
      var last := LatestOf(s, ts);
      var rest := SortedByStamp(s, ts - {last});
      hide StampsDistinct;
      order := rest + [last];
      assert forall i | 0 <= i < |rest| :: rest[i] in rest && rest[i] in ts - {last};
    }
  }

  lemma {:induction false} LatestOf(s: System, ts: set<TxnId>) returns (last: TxnId)
    requires ts != {} && StampsDistinct(s) && forall t | t in ts :: t in s.txns && s.txns[t].commitTs.Some?
    ensures last in ts && forall t | t in ts && t != last :: s.txns[t].commitTs.value.Less(s.txns[last].commitTs.value)
    decreases |ts|
  {
    last :| last in ts;
    if ts != {last} {
      assert ts - {last} != {};
      var other := LatestOf(s, ts - {last});
      assert s.txns[other].commitTs != s.txns[last].commitTs;
      if s.txns[last].commitTs.value.Less(s.txns[other].commitTs.value) {
        last := other;
      }
    }
  }

  function Written(ms: seq<Mutation>, k: Key): Option<Value> {
    if ms == [] then None
    else if ms[|ms| - 1].key == k then ms[|ms| - 1].value
    else Written(ms[..|ms| - 1], k)
  }

  /** The value of k after the first n transactions of the list ran alone, one after another. */
  ghost function Serially(s: System, order: seq<TxnId>, n: nat, k: Key): Option<Value>
    requires n <= |order| && forall t | t in order :: t in s.txns
  {
    if n == 0 then None
    else
      var x := s.txns[order[n - 1]];
      if k in x.WriteKeys() then Written(x.mutations, k) else Serially(s, order, n - 1, k)
  }

  lemma {:induction false} WrittenIsTheMutation(ms: seq<Mutation>, m: Mutation)
    requires m in ms && Agrees(ms, m)
    ensures Written(ms, m.key) == m.value
  {
    var last := |ms| - 1;
    if ms[last].key == m.key {
      assert ms[last] in ms;
    } else {
      WrittenIsTheMutation(ms[..last], m);
    }
  }

  /** The serial value of k comes from the last writer before position n, if there is one. */
  lemma {:induction false} SerialWriter(s: System, order: seq<TxnId>, n: nat, k: Key) returns (j: int)
    requires n <= |order| && forall t | t in order :: t in s.txns
    ensures -1 <= j < n
    ensures forall i | j < i < n :: k !in s.txns[order[i]].WriteKeys()
    ensures j >= 0 ==> k in s.txns[order[j]].WriteKeys() && Serially(s, order, n, k) == Written(s.txns[order[j]].mutations, k)
    ensures j < 0 ==> Serially(s, order, n, k) == None
  {
    if n == 0 {
      j := -1;
    } else if k in s.txns[order[n - 1]].WriteKeys() {
      j := n - 1;
    } else {
      j := SerialWriter(s, order, n - 1, k);
    }
  }

  /** The value the predecessor wrote is the value a serial run has reached by then. */
  lemma PredecessorIsSerial(s: System, order: seq<TxnId>, n: nat, k: Key, ts: Timestamp, v: Option<Value>)
    requires Inv(s) && InTimeOrder(s, order) && n <= |order| && PredecessorWrote(s, k, ts, v)
    requires forall i | 0 <= i < |order| :: i < n <==> s.txns[order[i]].commitTs.value.Less(ts)
    ensures v == Serially(s, order, n, k)
  {
    hide Inv;
    var j := SerialWriter(s, order, n, k);
    if u :| u in s.txns && WritesBelow(s, u, k, ts) && Mutation(k, v) in s.txns[u].mutations &&
            forall w | w in s.txns && WritesBelow(s, w, k, ts) ::
              s.txns[w].commitTs.value.AtMost(s.txns[u].commitTs.value) {
      var i :| 0 <= i < |order| && order[i] == u;
      assert j >= i;
      assert WritesBelow(s, order[j], k, ts);
      assert j == i;
      MutationsAgree(s, u);
      WrittenIsTheMutation(s.txns[u].mutations, Mutation(k, v));
    } else {
      forall i | 0 <= i < n
        ensures k !in s.txns[order[i]].WriteKeys()
      {
        assert !WritesBelow(s, order[i], k, ts);
      }
    }
  }

  lemma MutationsAgree(s: System, u: TxnId)
    requires Inv(s) && u in s.txns
    ensures forall m | m in s.txns[u].mutations :: Agrees(s.txns[u].mutations, m)
  {
    assert TxnOk(s, u, s.txns[u]);
  }

  /**
   Serializability: in every reachable state, running the sealed transactions alone one after another
   in commit-timestamp order gives every one of them the values its locked reads really returned.
   */
  lemma Serializable(run: seq<System>, steps: seq<Step>, n: nat, order: seq<TxnId>)
    requires IsRun(run, steps) && n < |run| && InTimeOrder(run[n], order)
    ensures forall i, r | 0 <= i < |order| && r in run[n].txns[order[i]].observed ::
              r.1 == Serially(run[n], order, i, r.0)
  {
    RunKeepsInv(run, steps, n);
    var s := run[n];
    hide Inv, IsRun, Serially, InTimeOrder;
    forall i, r | 0 <= i < |order| && r in s.txns[order[i]].observed
      ensures r.1 == Serially(s, order, i, r.0)
    {
      SealedReadsSerially(s, order, i, r);
    }
  }

  lemma SealedReadsSerially(s: System, order: seq<TxnId>, i: nat, r: (Key, Option<Value>))
    requires Inv(s) && InTimeOrder(s, order) && i < |order| && r in s.txns[order[i]].observed
    ensures r.1 == Serially(s, order, i, r.0)
  {
    hide Inv, PredecessorWrote, Serially;
    assert order[i] in order;
    SealedReadsPredecessor(s, order[i], r);
    PredecessorIsSerial(s, order, i, r.0, s.txns[order[i]].commitTs.value, r.1);
  }

  /** No update is lost: once nobody is mid-commit, the store's newest values are the serial run's results. */
  lemma StoreIsSerial(run: seq<System>, steps: seq<Step>, n: nat, order: seq<TxnId>, k: Key)
    requires IsRun(run, steps) && n < |run| && InTimeOrder(run[n], order)
    requires forall t | t in order :: run[n].txns[t].phase.Committed?
    ensures Shows(run[n].store, k, ANY_TIME, Serially(run[n], order, |order|, k))
  {
    RunKeepsInv(run, steps, n);
    var s := run[n];
    var j := SerialWriter(s, order, |order|, k);
    forall v | v in s.store && v.key == k
      ensures j >= 0 && v.ts.AtMost(s.txns[order[j]].commitTs.value)
    {
      AuthorBefore(s, order, j, v);
    }
    if j >= 0 {
      var v := LastVersion(s, order[j], k);
    }
  }

  lemma AuthorBefore(s: System, order: seq<TxnId>, j: int, v: Version)
    requires Inv(s) && InTimeOrder(s, order) && v in s.store
    requires -1 <= j < |order| && forall i | j < i < |order| :: v.key !in s.txns[order[i]].WriteKeys()
    ensures j >= 0 && v.ts.AtMost(s.txns[order[j]].commitTs.value)
  {
    assert AuthorOk(s, v);
    assert v.key in s.txns[v.author].WriteKeys();
    var i :| 0 <= i < |order| && order[i] == v.author;
    assert i <= j;
  }

  lemma LastVersion(s: System, t: TxnId, k: Key) returns (v: Version)
    requires Inv(s) && t in s.txns && s.txns[t].phase.Committed? && k in s.txns[t].WriteKeys()
    ensures s.txns[t].commitTs.Some?
    ensures v in s.store && v.key == k && v.ts == s.txns[t].commitTs.value && v.value == Written(s.txns[t].mutations, k)
  {
    var x := s.txns[t];
    assert TxnOk(s, t, x);
    var m :| m in x.mutations && m.key == k;
    var i :| 0 <= i < |x.mutations| && x.mutations[i] == m;
    assert AppliedStored(s, t, x);
    MutationsAgree(s, t);
    WrittenIsTheMutation(x.mutations, m);
    v := Version(k, x.commitTs.value, m.value, t);
  }

  /** Versions of a key reach the store in timestamp order: what the storage layer relies on. */
  lemma WritesArriveInOrder(run: seq<System>, steps: seq<Step>, n: nat, t: TxnId, v: Version)
    requires IsRun(run, steps) && n < |steps| && steps[n] == Apply(t)
    requires v in run[n + 1].store && v !in run[n].store
    ensures forall u | u in run[n].store && u.key == v.key :: u.ts.Less(v.ts)
  {
    hide Inv;
    RunKeepsInv(run, steps, n);
    var s := run[n];
    assert Next(s, steps[n], run[n + 1]);
    assert v == Stored(t, s.txns[t]);
    forall u | u in s.store && u.key == v.key
      ensures u.ts.Less(v.ts)
    {
      if u.author == t {
        OwnVersion(s, t, u);
      } else {
        OlderVersion(s, t, u);
      }
    }
  }

  /** A stored version of the key that t wrote itself is the one it stores again: its mutations of a key agree. */
  lemma OwnVersion(s: System, t: TxnId, u: Version)
    requires Inv(s) && t in s.txns && u in s.store && u.author == t && s.txns[t].commitTs.Some?
    requires s.txns[t].phase.Applying? && s.txns[t].phase.done < |s.txns[t].mutations|
    requires u.key == Stored(t, s.txns[t]).key
    ensures u == Stored(t, s.txns[t])
  {
    MutationsAgree(s, t);
    assert AuthorOk(s, u);
    hide Inv;
    var x := s.txns[t];
    var i :| 0 <= i < |x.mutations| && x.mutations[i] == Mutation(u.key, u.value);
    var m := x.mutations[x.phase.done];
    assert m in x.mutations && x.mutations[i] in x.mutations;
    assert Agrees(x.mutations, m);
  }

  /** A version somebody else wrote is older than the one t is about to store: t holds the key's write lock. */
  lemma OlderVersion(s: System, t: TxnId, u: Version)
    requires Inv(s) && t in s.txns && u in s.store && u.author != t && s.txns[t].commitTs.Some?
    requires s.txns[t].phase.Applying? && s.txns[t].phase.done < |s.txns[t].mutations|
    requires u.key == Stored(t, s.txns[t]).key
    ensures u.ts.Less(Stored(t, s.txns[t]).ts)
  {
    WriterHolds(s, t);
    WriterOf(s, u);
  }
}
