/**
 Lock-free reads against flush and compaction. A get is split into its real steps: probe the memtable,
 copy the reader list, then acquire, read and release one table after the other, starting over when a
 table turns out to be closed. Writes, flushes and compactions run in between, step by step.
 */
module Readers {
  import opened Options
  import opened Clock
  import opened Records
  import opened Layers
  import opened Compaction

  type TableId = nat
  type OpId = nat

  datatype Pc =
    | Probe
    | Snapshot
    | Walk(snap: seq<TableId>, i: nat)
    | Holding(snap: seq<TableId>, i: nat)                       // reference taken, table not read yet
    | Letting(snap: seq<TableId>, i: nat, hit: Option<Rec>)     // read, reference not released yet
    | Done(result: Option<Value>)

  /** `visible` (history) is the version visible at t when the memtable was probed. */
  datatype Op = Op(key: Key, t: Timestamp, pc: Pc, visible: Option<Rec>) {
    predicate Past() {
      pc.Snapshot? || pc.Walk? || pc.Holding? || pc.Letting?
    }

    predicate Refers(id: TableId) {
      (pc.Holding? || pc.Letting?) && pc.i < |pc.snap| && pc.snap[pc.i] == id
    }
  }

  datatype System = System(
    mem: seq<Rec>,
    list: seq<TableId>,                 // the store's reader list, newest first
    content: map<TableId, seq<Rec>>,    // every table ever opened
    refs: map<TableId, int>,
    closed: set<TableId>,
    closing: seq<TableId>,              // compacted-away tables whose owner reference is still to be dropped
    flushing: bool,                     // flush has published its table but not cleared the memtable
    ops: map<OpId, Op>,
    lent: map<OpId, TableId>)           // references held by scans (module Scanners)

  datatype Step =
    | StartGet(o: OpId, k: Key, t: Timestamp)
    | ProbeMem(o: OpId, visible: Option<Rec>)
    | TakeSnapshot(o: OpId)
    | Acquire(o: OpId)
    | Read(o: OpId)
    | Release(o: OpId)
    | Miss(o: OpId)
    | Write(r: Rec)
    | FlushPublish(id: TableId)
    | FlushClear
    | CompactSwap(id: TableId, watermark: int)
    | CloseOne
    | Lend(o: OpId, id: TableId)
    | Return(o: OpId)
    | Rest
  {
    predicate OfGet() {
      StartGet? || ProbeMem? || TakeSnapshot? || Acquire? || Read? || Release? || Miss?
    }
  }

  function Contents(s: System, ids: seq<TableId>): seq<seq<Rec>>
    requires forall id | id in ids :: id in s.content
  {
    seq(|ids|, i requires 0 <= i < |ids| => assert ids[i] in ids; s.content[ids[i]])
  }

  function Moved(s: System, o: OpId, pc: Pc): map<OpId, Op>
    requires o in s.ops
  {
    s.ops[o := s.ops[o].(pc := pc)]
  }

  /** release(): one reference less; the last one closes the file. */
  function Released(s: System, id: TableId): System
    requires id in s.refs
  {
    s.(refs := s.refs[id := s.refs[id] - 1], closed := if s.refs[id] - 1 <= 0 then s.closed + {id} else s.closed)
  }

  ghost predicate Known(s: System) {
    && (forall id | id in s.list :: id in s.content)
    && (forall id | id in s.closing :: id in s.content)
    && (forall o | o in s.ops :: SnapKnown(s, s.ops[o].pc))
    && (forall o | o in s.lent :: s.lent[o] in s.content)
    && s.refs.Keys == s.content.Keys
  }

  ghost predicate SnapKnown(s: System, pc: Pc) {
    match pc
    case Walk(snap, i) => i <= |snap| && forall id | id in snap :: id in s.content
    case Holding(snap, i) => i < |snap| && forall id | id in snap :: id in s.content
    case Letting(snap, i, _) => i < |snap| && forall id | id in snap :: id in s.content
    case _ => true
  }

  /** acquire() fails on a closed table, and the get starts over from a new snapshot. */
  ghost predicate IsAcquire(s: System, o: OpId, s': System)
    requires Known(s)
  {
    && o in s.ops && s.ops[o].pc.Walk? && s.ops[o].pc.i < |s.ops[o].pc.snap|
    && var Walk(snap, i) := s.ops[o].pc;
    && SnapKnown(s, s.ops[o].pc)
    && (if snap[i] in s.closed then s' == s.(ops := Moved(s, o, Snapshot))
        else s' == s.(refs := s.refs[snap[i] := s.refs[snap[i]] + 1], ops := Moved(s, o, Holding(snap, i))))
  }

  ghost predicate Next(s: System, step: Step, s': System)
    requires Known(s)
  {
    if step.OfGet() then NextOfGet(s, step, s') else NextOfStore(s, step, s')
  }

  ghost predicate NextOfGet(s: System, step: Step, s': System)
    requires Known(s)
  {
    match step
    case StartGet(o, k, t) =>
      o !in s.ops && s' == s.(ops := s.ops[o := Op(k, t, Probe, None)])
    case ProbeMem(o, visible) =>
      && o in s.ops && s.ops[o].pc == Probe
      && var x := s.ops[o];
      && Newest(All([s.mem] + Contents(s, s.list)), x.key, x.t, visible)   // history
      && var entry := Lookup(s.mem, x.key, x.t);
      && s' == s.(ops := s.ops[o := x.(visible := visible,
                                       pc := if entry.Some? then Done(entry.value.value) else Snapshot)])
    case TakeSnapshot(o) =>
      o in s.ops && s.ops[o].pc == Snapshot && s' == s.(ops := Moved(s, o, Walk(s.list, 0)))
    case Acquire(o) => IsAcquire(s, o, s')
    case Read(o) =>
      && o in s.ops && s.ops[o].pc.Holding?
      && var Holding(snap, i) := s.ops[o].pc;
      && s' == s.(ops := Moved(s, o, Letting(snap, i, Lookup(s.content[snap[i]], s.ops[o].key, s.ops[o].t))))
    case Release(o) =>
      && o in s.ops && s.ops[o].pc.Letting?
      && var Letting(snap, i, hit) := s.ops[o].pc;
      && s' == Released(s, snap[i]).(ops := Moved(s, o, if hit.Some? then Done(hit.value.value) else Walk(snap, i + 1)))
    case Miss(o) =>
      && o in s.ops && s.ops[o].pc.Walk? && s.ops[o].pc.i == |s.ops[o].pc.snap|
      && s' == s.(ops := Moved(s, o, Done(None)))
    case _ => false
  }

  ghost predicate NextOfStore(s: System, step: Step, s': System)
    requires Known(s)
  {
    match step
    case Write(r) =>
      && !s.flushing
         // timestamps of a key arrive in order, and above those of the gets already past their probe
      && (forall u | u in All([s.mem] + Contents(s, s.list)) && u.key == r.key :: u.ts.Less(r.ts))
      && (forall o | o in s.ops && s.ops[o].Past() :: !Matches(r, s.ops[o].key, s.ops[o].t))
      && s' == s.(mem := Insert(s.mem, r))
    case FlushPublish(id) =>
      && !s.flushing && s.mem != [] && id !in s.content
      && s' == s.(list := [id] + s.list, content := s.content[id := Sort(s.mem)], refs := s.refs[id := 1], flushing := true)
    case FlushClear =>
      s.flushing && s' == s.(mem := [], flushing := false)
    case CompactSwap(id, watermark) =>
      && !s.flushing && s.closing == [] && |s.list| > 1 && id !in s.content
         // the versions the gets in flight look for are among those compaction keeps
      && (forall o | o in s.ops && s.ops[o].Past() ::
            Retained(All(Contents(s, s.list)), LayerLookup(Contents(s, s.list), s.ops[o].key, s.ops[o].t), watermark))
      && s' == s.(list := [id], content := s.content[id := Compacted(Contents(s, s.list), watermark)],
                  refs := s.refs[id := 1], closing := s.list)
    case CloseOne =>
      s.closing != [] && s' == Released(s, s.closing[0]).(closing := s.closing[1..])
    case Lend(o, id) =>
      && o !in s.lent && id in s.content && id !in s.closed
      && s' == s.(refs := s.refs[id := s.refs[id] + 1], lent := s.lent[o := id])
    case Return(o) => o in s.lent && s' == Released(s, s.lent[o]).(lent := s.lent - {o})
    case Rest => s' == s
    case _ => false
  }

  ghost predicate Init(s: System) {
    s == System([], [], map[], map[], {}, [], false, map[], map[])
  }

  ghost predicate IsRun(run: seq<System>, steps: seq<Step>) {
    && |run| == |steps| + 1 && Init(run[0])
    && forall i | 0 <= i < |steps| :: Known(run[i]) && Next(run[i], steps[i], run[i + 1])
  }

  // ---------- reference counts ----------

  ghost function HoldersOf(s: System, id: TableId): set<OpId> {
    set o | o in s.ops && s.ops[o].Refers(id)
  }

  ghost function LentOf(lent: map<OpId, TableId>, id: TableId): set<OpId> {
    set o | o in lent && lent[o] == id
  }

  /** The store itself still holds a reference. */
  predicate Owned(s: System, id: TableId) {
    id in s.list || id in s.closing
  }

  ghost predicate RefOk(s: System, id: TableId)
    requires id in s.refs
  {
    && s.refs[id] == |HoldersOf(s, id)| + |LentOf(s.lent, id)| + (if Owned(s, id) then 1 else 0)
    && (id in s.closed <==> s.refs[id] <= 0)
  }

  ghost predicate RefsOk(s: System) {
    && Known(s) && (forall id | id in s.refs :: RefOk(s, id)) && s.closed <= s.refs.Keys
    && (forall i, j | 0 <= i < j < |s.closing| :: s.closing[i] != s.closing[j])
    && (forall i, j | 0 <= i < j < |s.list| :: s.list[i] != s.list[j])
    && (forall id | id in s.closing :: id !in s.list)
  }

  /** An operation moved without taking or dropping a reference. */
  lemma SameHolders(s: System, s': System)
    requires RefsOk(s) && s'.ops.Keys >= s.ops.Keys
    requires forall o, id | o in s'.ops :: s'.ops[o].Refers(id) <==> o in s.ops && s.ops[o].Refers(id)
    ensures forall id :: HoldersOf(s', id) == HoldersOf(s, id)
  {
  }

  /** Operation o took a reference to one table. */
  lemma OneMoreHolder(s: System, s': System, o: OpId, id: TableId)
    requires o in s.ops && o in s'.ops && s'.ops == s.ops[o := s'.ops[o]]
    requires (forall j :: !s.ops[o].Refers(j)) && (forall j :: s'.ops[o].Refers(j) <==> j == id)
    ensures |HoldersOf(s', id)| == |HoldersOf(s, id)| + 1
    ensures forall j | j != id :: HoldersOf(s', j) == HoldersOf(s, j)
  {
    assert HoldersOf(s', id) == HoldersOf(s, id) + {o};
  }

  lemma OneLessHolder(s: System, s': System, o: OpId, id: TableId)
    requires o in s.ops && o in s'.ops && s'.ops == s.ops[o := s'.ops[o]]
    requires (forall j :: s.ops[o].Refers(j) <==> j == id) && (forall j :: !s'.ops[o].Refers(j))
    ensures |HoldersOf(s', id)| == |HoldersOf(s, id)| - 1
    ensures forall j | j != id :: HoldersOf(s', j) == HoldersOf(s, j)
  {
    assert HoldersOf(s, id) == HoldersOf(s', id) + {o};
  }

  /** A table that was never opened before has no holders. */
  lemma FreshHasNoHolders(s: System, id: TableId)
    requires Known(s) && id !in s.content
    ensures HoldersOf(s, id) == {} && LentOf(s.lent, id) == {} && !Owned(s, id)
  {
    forall o | o in s.ops
      ensures !s.ops[o].Refers(id)
    {
      assert SnapKnown(s, s.ops[o].pc);
    }
  }

  lemma KnownStep(s: System, step: Step, s': System)
    requires Known(s) && Next(s, step, s')
    ensures Known(s')
  {
    hide NextOfGet, NextOfStore, SnapKnown;
    if step.OfGet() {
      KnownMove(s, step, s');
    } else {
      KnownStoreStep(s, step, s');
    }
  }

  lemma KnownStoreStep(s: System, step: Step, s': System)
    requires Known(s) && NextOfStore(s, step, s')
    ensures Known(s')
  {
    hide Sort, Compacted, Insert, Contents;
    forall o | o in s'.ops
      ensures SnapKnown(s', s'.ops[o].pc)
    {
      assert SnapKnown(s, s.ops[o].pc);
    }
  }

  lemma KnownMove(s: System, step: Step, s': System)
    requires Known(s) && Next(s, step, s')
    requires step.OfGet()
    ensures Known(s')
  {
    OthersStay(s, step, s');
    MoverKnown(s, step, s');
    hide Next;
    forall p | p in s'.ops
      ensures SnapKnown(s', s'.ops[p].pc)
    {
      assert p != step.o ==> SnapKnown(s, s.ops[p].pc);
    }
  }

  lemma MoverKnown(s: System, step: Step, s': System)
    requires Known(s) && Next(s, step, s')
    requires step.OfGet()
    ensures step.o in s'.ops && SnapKnown(s', s'.ops[step.o].pc) && s'.closing == s.closing && s'.refs.Keys == s'.content.Keys
  {
    var o := step.o;
    assert o in s.ops ==> SnapKnown(s, s.ops[o].pc);
    if step.Acquire? || step.Release? {
      var id := s.ops[o].pc.snap[s.ops[o].pc.i];
      assert id in s.ops[o].pc.snap && id in s.refs;
    }
  }

  /** Nothing that reference counts depend on has changed. */
  lemma QuietKeepsRefs(s: System, s': System)
    requires RefsOk(s) && Known(s')
    requires s'.refs == s.refs && s'.closed == s.closed && s'.list == s.list && s'.closing == s.closing && s'.lent == s.lent
    requires forall id :: HoldersOf(s', id) == HoldersOf(s, id)
    ensures RefsOk(s')
  {
    hide Known;
    forall id | id in s'.refs
      ensures RefOk(s', id)
    {
      assert RefOk(s, id);
    }
  }

  lemma TakeKeepsRefs(s: System, s': System, o: OpId, id: TableId)
    requires RefsOk(s) && Known(s') && id in s.refs && id !in s.closed
    requires s'.refs == s.refs[id := s.refs[id] + 1]
    requires s'.closed == s.closed && s'.list == s.list && s'.closing == s.closing && s'.lent == s.lent
    requires o in s.ops && o in s'.ops && s'.ops == s.ops[o := s'.ops[o]]
    requires (forall j :: !s.ops[o].Refers(j)) && (forall j :: s'.ops[o].Refers(j) <==> j == id)
    ensures RefsOk(s')
  {
    hide Known;
    OneMoreHolder(s, s', o, id);
    forall j | j in s'.refs
      ensures RefOk(s', j)
    {
      assert RefOk(s, j);
    }
  }

  lemma AcquireKeepsRefs(s: System, o: OpId, s': System)
    requires RefsOk(s) && Known(s') && IsAcquire(s, o, s')
    ensures RefsOk(s')
  {
    hide RefsOk, Known, IsAcquire;
    BothKnown(s, s');
    var id := AcquirerFacts(s, o, s');
    if id in s.closed {
      StartOverKeepsRefs(s, o, s');
    } else {
      TakeKeepsRefs(s, s', o, id);
    }
  }

  lemma AcquirerFacts(s: System, o: OpId, s': System) returns (id: TableId)
    requires Known(s) && IsAcquire(s, o, s')
    ensures o in s.ops && s.ops[o].pc.Walk? && id in s.refs
    ensures id in s.closed ==> s' == s.(ops := Moved(s, o, Snapshot))
    ensures id !in s.closed ==>
              && s'.refs == s.refs[id := s.refs[id] + 1] && s'.closed == s.closed && s'.list == s.list && s'.closing == s.closing
              && s'.lent == s.lent && o in s'.ops && s'.ops == s.ops[o := s'.ops[o]]
              && (forall j :: !s.ops[o].Refers(j)) && (forall j :: s'.ops[o].Refers(j) <==> j == id)
  {
    var Walk(snap, i) := s.ops[o].pc;
    id := snap[i];
    assert id in snap;
  }

  lemma StartOverKeepsRefs(s: System, o: OpId, s': System)
    requires RefsOk(s) && Known(s') && o in s.ops && s.ops[o].pc.Walk? && s' == s.(ops := Moved(s, o, Snapshot))
    ensures RefsOk(s')
  {
    hide Known, RefOk;
    SameHolders(s, s');
    QuietKeepsRefs(s, s');
  }

  lemma ReleaseKeepsRefs(s: System, o: OpId, s': System)
    requires RefsOk(s) && Next(s, Release(o), s')
    ensures RefsOk(s')
  {
    hide RefsOk, Next, Known, RefOk;
    BothKnown(s, s');
    KnownStep(s, Release(o), s');
    var id := ReleaserFacts(s, o, s');
    LetGoKeepsRefs(s, s', o, id);
  }

  lemma ReleaserFacts(s: System, o: OpId, s': System) returns (id: TableId)
    requires Known(s) && Next(s, Release(o), s')
    ensures id in s.refs && s'.refs == s.refs[id := s.refs[id] - 1] && s'.list == s.list && s'.closing == s.closing
    ensures s'.lent == s.lent
    ensures s'.closed == if s.refs[id] - 1 <= 0 then s.closed + {id} else s.closed
    ensures o in s.ops && o in s'.ops && s'.ops == s.ops[o := s'.ops[o]]
    ensures (forall j :: s.ops[o].Refers(j) <==> j == id) && (forall j :: !s'.ops[o].Refers(j))
  {
    var Letting(snap, i, _) := s.ops[o].pc;
    assert SnapKnown(s, s.ops[o].pc);
    id := snap[i];
    assert id in snap;
  }

  lemma LetGoKeepsRefs(s: System, s': System, o: OpId, id: TableId)
    requires RefsOk(s) && Known(s') && id in s.refs
    requires s'.refs == s.refs[id := s.refs[id] - 1] && s'.list == s.list && s'.closing == s.closing && s'.lent == s.lent
    requires s'.closed == if s.refs[id] - 1 <= 0 then s.closed + {id} else s.closed
    requires o in s.ops && o in s'.ops && s'.ops == s.ops[o := s'.ops[o]]
    requires (forall j :: s.ops[o].Refers(j) <==> j == id) && (forall j :: !s'.ops[o].Refers(j))
    ensures RefsOk(s')
  {
    hide Known;
    OneLessHolder(s, s', o, id);
    hide HoldersOf;
    forall j | j in s'.refs
      ensures RefOk(s', j)
    {
      assert RefOk(s, j);
    }
  }

  lemma CloseKeepsRefs(s: System, s': System)
    requires RefsOk(s) && Next(s, CloseOne, s')
    ensures RefsOk(s')
  {
    KnownStep(s, CloseOne, s');
    var id := s.closing[0];
    assert id in s.closing && id in s.refs && s' == Released(s, id).(closing := s.closing[1..]);
    DropKeepsRefs(s, id, s');
  }

  /** The owner lets go of the first table to be closed. */
  lemma DropKeepsRefs(s: System, id: TableId, s': System)
    requires RefsOk(s) && Known(s') && s.closing != [] && id == s.closing[0] && id in s.refs
    requires s' == Released(s, id).(closing := s.closing[1..])
    ensures RefsOk(s')
  {
    hide Known, Owned, HoldersOf, LentOf;
    TailOwned(s, s');
    SameHolders(s, s');
    assert s'.list == s.list && forall i | 0 <= i < |s'.closing| :: s'.closing[i] == s.closing[i + 1];
    forall j | j in s'.refs
      ensures RefOk(s', j)
    {
      assert RefOk(s, j);
    }
  }

  lemma TailOwned(s: System, s': System)
    requires RefsOk(s) && s.closing != [] && s'.closing == s.closing[1..] && s'.list == s.list
    ensures Owned(s, s.closing[0]) && forall j :: Owned(s', j) <==> Owned(s, j) && j != s.closing[0]
  {
    hide Known, RefOk;
    assert s.closing[0] in s.closing && s.closing == [s.closing[0]] + s.closing[1..];
    assert forall i | 0 <= i < |s'.closing| :: s'.closing[i] == s.closing[i + 1];
  }

  lemma OpenKeepsRefs(s: System, step: Step, s': System)
    requires RefsOk(s) && (step.FlushPublish? || step.CompactSwap?) && Next(s, step, s')
    ensures RefsOk(s')
  {
    KnownStep(s, step, s');
    FreshHasNoHolders(s, step.id);
    if step.FlushPublish? {
      assert s'.list[0] == step.id && forall i | 0 < i < |s'.list| :: s'.list[i] == s.list[i - 1];
    }
    assert step.id !in s.refs && step.id !in s.list && step.id !in s.closing;
    hide Known, RefOk, HoldersOf;
    OpenedKeepsRefs(s, step.id, s');
  }

  lemma OpenedKeepsRefs(s: System, id: TableId, s': System)
    requires RefsOk(s) && Known(s') && id !in s.refs && HoldersOf(s, id) == {} && LentOf(s.lent, id) == {}
    requires s'.refs == s.refs[id := 1] && s'.closed == s.closed && s'.ops == s.ops && s'.lent == s.lent
    requires forall j :: Owned(s', j) <==> Owned(s, j) || j == id
    requires (forall i, j | 0 <= i < j < |s'.closing| :: s'.closing[i] != s'.closing[j])
    requires (forall i, j | 0 <= i < j < |s'.list| :: s'.list[i] != s'.list[j])
    requires (forall j | j in s'.closing :: j !in s'.list)
    ensures RefsOk(s')
  {
    hide Known, Owned;
    SameHolders(s, s');
    hide HoldersOf;
    forall j | j in s'.refs
      ensures RefOk(s', j)
    {
      assert j != id ==> RefOk(s, j);
    }
  }

  lemma LendKeepsRefs(s: System, o: OpId, id: TableId, s': System)
    requires RefsOk(s) && Next(s, Lend(o, id), s')
    ensures RefsOk(s')
  {
    hide RefOk;
    KnownStep(s, Lend(o, id), s');
    LentGrows(s.lent, o, id);
    OpenIsCounted(s, id);
    hide Known, LentOf;
    LentMovesRefs(s, s', id, 1);
  }

  lemma OpenIsCounted(s: System, id: TableId)
    requires RefsOk(s) && id in s.refs && id !in s.closed
    ensures s.refs[id] > 0
  {
    assert RefOk(s, id);
  }

  lemma ReturnKeepsRefs(s: System, o: OpId, s': System)
    requires RefsOk(s) && Next(s, Return(o), s')
    ensures RefsOk(s')
  {
    hide RefOk;
    KnownStep(s, Return(o), s');
    var id := s.lent[o];
    LentGrows(s.lent - {o}, o, id);
    assert (s.lent - {o})[o := id] == s.lent;
    hide Known, LentOf;
    LentMovesRefs(s, s', id, -1);
  }

  lemma LentGrows(lent: map<OpId, TableId>, o: OpId, id: TableId)
    requires o !in lent
    ensures |LentOf(lent[o := id], id)| == |LentOf(lent, id)| + 1
    ensures forall j | j != id :: LentOf(lent[o := id], j) == LentOf(lent, j)
  {
    assert LentOf(lent[o := id], id) == LentOf(lent, id) + {o};
  }

  /** The references held by scans and the count of one table move together. */
  lemma LentMovesRefs(s: System, s': System, id: TableId, d: int)
    requires RefsOk(s) && Known(s') && id in s.refs && (d > 0 ==> id !in s.closed)
    requires s'.ops == s.ops && s'.list == s.list && s'.closing == s.closing && s'.refs == s.refs[id := s.refs[id] + d]
    requires s'.closed == if s.refs[id] + d <= 0 then s.closed + {id} else s.closed
    requires |LentOf(s'.lent, id)| == |LentOf(s.lent, id)| + d && (d < 0 ==> |LentOf(s.lent, id)| > 0)
    requires forall j | j != id :: LentOf(s'.lent, j) == LentOf(s.lent, j)
    ensures RefsOk(s')
  {
    hide Known, LentOf;
    SameHolders(s, s');
    hide HoldersOf;
    forall j | j in s'.refs
      ensures RefOk(s', j)
    {
      assert RefOk(s, j);
    }
  }

  lemma OtherKeepsRefs(s: System, step: Step, s': System)
    requires RefsOk(s) && Next(s, step, s')
    requires !(step.Acquire? || step.Release? || step.CloseOne? || step.FlushPublish? || step.CompactSwap?)
    requires !(step.Lend? || step.Return?)
    ensures RefsOk(s')
  {
    hide RefsOk, Known, Contents, Sort, Insert, Newest, Lookup;
    BothKnown(s, s');
    KnownStep(s, step, s');
    SameHolders(s, s');
    QuietKeepsRefs(s, s');
  }

  lemma RefsKept(s: System, step: Step, s': System)
    requires RefsOk(s) && Next(s, step, s')
    ensures RefsOk(s')
  {
    hide RefOk, HoldersOf, Owned;
    match step
    case Acquire(o) =>
      KnownStep(s, step, s');
      AcquireKeepsRefs(s, o, s');
    case Release(o) => ReleaseKeepsRefs(s, o, s');
    case CloseOne => CloseKeepsRefs(s, s');
    case FlushPublish(_) => OpenKeepsRefs(s, step, s');
    case CompactSwap(_, _) => OpenKeepsRefs(s, step, s');
    case Lend(o, id) => LendKeepsRefs(s, o, id, s');
    case Return(o) => ReturnKeepsRefs(s, o, s');
    case _ =>
      OtherKeepsRefs(s, step, s');
  }

  // ---------- what the reads see ----------

  ghost predicate LayersGood(s: System)
    requires Known(s)
  {
    var layers := [s.mem] + Contents(s, s.list);
    && Layered(layers) && Unique(All(layers))
    && (s.flushing ==> s.list != [] && Elements(s.content[s.list[0]]) == Elements(s.mem))
  }

  /** What is still to be read, from the current list and from the operation's own snapshot, is the answer. */
  ghost predicate OpOk(s: System, x: Op)
    requires Known(s) && SnapKnown(s, x.pc)
  {
    && (x.Past() ==> ValueOf(LayerLookup(Contents(s, s.list), x.key, x.t)) == ValueOf(x.visible) &&
                     forall r | r in s.mem :: !Matches(r, x.key, x.t))
    && match x.pc
       case Walk(snap, i) => ValueOf(LayerLookup(Contents(s, snap)[i..], x.key, x.t)) == ValueOf(x.visible)
       case Holding(snap, i) => ValueOf(LayerLookup(Contents(s, snap)[i..], x.key, x.t)) == ValueOf(x.visible)
       case Letting(snap, i, hit) =>
         if hit.Some? then hit.value.value == ValueOf(x.visible)
         else ValueOf(LayerLookup(Contents(s, snap)[i + 1..], x.key, x.t)) == ValueOf(x.visible)
       case Done(result) => result == ValueOf(x.visible)
       case _ => true
  }

  ghost predicate Inv(s: System) {
    RefsOk(s) && LayersGood(s) && forall o | o in s.ops :: OpOk(s, s.ops[o])
  }

  lemma SameContents(s: System, s': System, ids: seq<TableId>)
    requires forall id | id in ids :: id in s.content && id in s'.content && s'.content[id] == s.content[id]
    ensures Contents(s', ids) == Contents(s, ids)
  {
    assert forall i | 0 <= i < |ids| :: ids[i] in ids;
  }

  /** Tables are immutable: what an operation has snapshotted keeps its contents. */
  lemma OpFrame(s: System, s': System, x: Op)
    requires Known(s) && Known(s') && SnapKnown(s, x.pc) && SnapKnown(s', x.pc) && OpOk(s, x)
    requires forall id | id in s.content :: id in s'.content && s'.content[id] == s.content[id]
    requires x.Past() ==> ValueOf(LayerLookup(Contents(s', s'.list), x.key, x.t)) == ValueOf(LayerLookup(Contents(s, s.list), x.key, x.t))
    requires x.Past() ==> forall r | r in s'.mem :: !Matches(r, x.key, x.t)
    ensures OpOk(s', x)
  {
    if x.pc.Walk? || x.pc.Holding? || x.pc.Letting? {
      SameContents(s, s', x.pc.snap);
    }
  }

  /** Steps that leave memtable, list and contents alone. */
  lemma ViewKept(s: System, s': System)
    requires Inv(s) && Known(s') && s'.mem == s.mem && s'.list == s.list && s'.flushing == s.flushing && s'.content == s.content
    ensures LayersGood(s')
    ensures forall o | o in s.ops && SnapKnown(s', s.ops[o].pc) :: OpOk(s', s.ops[o])
  {
    SameContents(s, s', s.list);
    forall o | o in s.ops && SnapKnown(s', s.ops[o].pc)
      ensures OpOk(s', s.ops[o])
    {
      OpFrame(s, s', s.ops[o]);
    }
  }

  /** The memtable probe decides, or leaves the whole answer to the tables. */
  lemma ProbeFixesAnswer(s: System, k: Key, t: Timestamp, visible: Option<Rec>)
    requires Known(s) && LayersGood(s) && Newest(All([s.mem] + Contents(s, s.list)), k, t, visible)
    ensures var entry := Lookup(s.mem, k, t);
            if entry.Some? then entry.value.value == ValueOf(visible)
            else ValueOf(LayerLookup(Contents(s, s.list), k, t)) == ValueOf(visible) && forall r | r in s.mem :: !Matches(r, k, t)
  {
    var layers := [s.mem] + Contents(s, s.list);
    LayeredIsNewest(layers, k, t);
    NewestIsUnique(All(layers), k, t, visible, LayerLookup(layers, k, t));
    assert layers[1..] == Contents(s, s.list);
    assert Sorted(s.mem) by {
      assert s.mem in layers;
    }
    LookupIsNewest(s.mem, k, t);
    assert forall r | r in s.mem :: r in Elements(s.mem);
  }

  lemma OpStepKeepsInv(s: System, step: Step, s': System)
    requires Inv(s) && Next(s, step, s')
    requires step.OfGet()
    ensures Inv(s')
  {
    RefsKept(s, step, s');
    MoverOk(s, step, s');
    OthersStay(s, step, s');
    hide Next, RefOk, LayersGood, OpOk;
    ViewKept(s, s');
    forall p | p in s'.ops
      ensures OpOk(s', s'.ops[p])
    {
      if p != step.o {
        assert p in s.ops && s'.ops[p] == s.ops[p] && SnapKnown(s', s.ops[p].pc);
      }
    }
  }

  lemma OthersStay(s: System, step: Step, s': System)
    requires Known(s) && Next(s, step, s')
    requires step.OfGet()
    ensures forall p | p in s'.ops && p != step.o :: p in s.ops && s'.ops[p] == s.ops[p]
    ensures s'.mem == s.mem && s'.list == s.list && s'.flushing == s.flushing && s'.content == s.content
  {
  }

  lemma MoverOk(s: System, step: Step, s': System)
    requires Inv(s) && RefsOk(s') && Next(s, step, s')
    requires step.OfGet()
    ensures step.o in s'.ops && OpOk(s', s'.ops[step.o])
  {
    hide RefOk, RefsOk, LayersGood, OpOk;
    assert Known(s) && Known(s') by {
      BothKnown(s, s');
    }
    hide Known;
    match step
    case StartGet(_, _, _) => StarterOk(s, step, s');
    case ProbeMem(_, _) => ProberOk(s, step, s');
    case TakeSnapshot(o) => SnapshotterOk(s, o, s');
    case Acquire(o) => AcquirerOk(s, o, s');
    case _ => WalkerOk(s, step, s');
  }

  lemma BothKnown(s: System, s': System)
    ensures (RefsOk(s) ==> Known(s)) && (RefsOk(s') ==> Known(s'))
  {
  }

  lemma StarterOk(s: System, step: Step, s': System)
    requires Known(s) && Known(s') && Next(s, step, s') && step.StartGet?
    ensures step.o in s'.ops && OpOk(s', s'.ops[step.o])
  {
  }

  lemma ProberOk(s: System, step: Step, s': System)
    requires Known(s) && Known(s') && LayersGood(s) && Next(s, step, s') && step.ProbeMem?
    ensures step.o in s'.ops && OpOk(s', s'.ops[step.o])
  {
    ProbeFixesAnswer(s, s.ops[step.o].key, s.ops[step.o].t, step.visible);
    hide LayersGood, Newest, Lookup, LayerLookup;
    SameContents(s, s', s.list);
  }

  lemma SnapshotterOk(s: System, o: OpId, s': System)
    requires Known(s) && Known(s') && Next(s, TakeSnapshot(o), s') && OpOk(s, s.ops[o])
    ensures o in s'.ops && OpOk(s', s'.ops[o])
  {
    SameContents(s, s', s.list);
    hide LayerLookup;
    assert Contents(s, s.list)[0..] == Contents(s, s.list);
  }

  lemma AcquirerOk(s: System, o: OpId, s': System)
    requires Known(s) && Known(s') && IsAcquire(s, o, s') && OpOk(s, s.ops[o])
    ensures o in s'.ops && OpOk(s', s'.ops[o])
  {
    SameContents(s, s', s.list);
    SameContents(s, s', s.ops[o].pc.snap);
  }

  lemma WalkerOk(s: System, step: Step, s': System)
    requires Known(s) && Known(s') && Next(s, step, s') && (step.Read? || step.Release? || step.Miss?)
    requires OpOk(s, s.ops[step.o])
    ensures step.o in s'.ops && OpOk(s', s'.ops[step.o])
  {
    var x := s.ops[step.o];
    SameContents(s, s', s.list);
    assert SnapKnown(s, x.pc);
    SameContents(s, s', x.pc.snap);
    var rest := Contents(s, x.pc.snap)[x.pc.i..];
    assert x.pc.i < |x.pc.snap| ==> rest[0] == s.content[x.pc.snap[x.pc.i]] && rest[1..] == Contents(s, x.pc.snap)[x.pc.i + 1..];
  }

  /** Layers stay in order when the newest version of a key joins the memtable. */
  lemma WriteKeepsLayers(mem: seq<Rec>, tables: seq<seq<Rec>>, r: Rec)
    requires Layered([mem] + tables) && Unique(All([mem] + tables))
    requires forall u | u in All([mem] + tables) && u.key == r.key :: u.ts.Less(r.ts)
    ensures Layered([Insert(mem, r)] + tables) && Unique(All([Insert(mem, r)] + tables))
  {
    WriteKeepsUnique(mem, tables, r);
    var before, after := [mem] + tables, [Insert(mem, r)] + tables;
    hide Unique, All;
    assert mem in before;
    InsertSorted(mem, r);
    forall i, j | 0 <= i < j < |after|
      ensures Covers(after[i], after[j])
    {
      assert Covers(before[i], before[j]) && after[j] == before[j];
      if i == 0 {
        InAll(before, j);
        InsertElements(mem, r);
        NewTopCovers(mem, before[j], r, All(before));
      }
    }
    assert Layered(after) by {
      hide Covers, Insert, Sorted;
      assert forall l | l in after :: l == after[0] || l in before;
    }
  }

  lemma WriteKeepsUnique(mem: seq<Rec>, tables: seq<seq<Rec>>, r: Rec)
    requires Unique(All([mem] + tables))
    requires forall u | u in All([mem] + tables) && u.key == r.key :: u.ts.Less(r.ts)
    ensures Unique(All([Insert(mem, r)] + tables))
  {
    var before, after := [mem] + tables, [Insert(mem, r)] + tables;
    InsertElements(mem, r);
    AllSplits(before);
    AllSplits(after);
    assert before[1..] == tables && after[1..] == tables;
    hide Insert, All, Elements;
    assert All(after) == All(before) + {r};
  }

  lemma InAll(layers: seq<seq<Rec>>, j: nat)
    requires j < |layers|
    ensures Elements(layers[j]) <= All(layers)
  {
    assert layers[j] in layers;
  }

  lemma NewTopCovers(mem: seq<Rec>, layer: seq<Rec>, r: Rec, all: set<Rec>)
    requires Covers(mem, layer) && Elements(layer) <= all
    requires forall u | u in all && u.key == r.key :: u.ts.Less(r.ts)
    requires Elements(Insert(mem, r)) == Elements(mem) + {r}
    ensures Covers(Insert(mem, r), layer)
  {
    hide Insert;
    forall a: Rec, u: Rec | a in Insert(mem, r) && u in layer && a.key == u.key && a.ts.AtMost(u.ts)
      ensures u in Insert(mem, r)
    {
      assert a in Elements(Insert(mem, r)) && u in Elements(layer);
      if a != r {
        assert a in Elements(mem);
        assert u in Elements(mem);
        assert u in Elements(Insert(mem, r));
      }
    }
  }

  lemma WriteKeepsInv(s: System, r: Rec, s': System)
    requires Inv(s) && Next(s, Write(r), s')
    ensures Inv(s')
  {
    RefsKept(s, Write(r), s');
    SameContents(s, s', s.list);
    WriteKeepsLayers(s.mem, Contents(s, s.list), r);
    InsertElements(s.mem, r);
    assert forall u | u in s'.mem :: u in Elements(s'.mem);
    forall o | o in s'.ops
      ensures OpOk(s', s'.ops[o])
    {
      OpFrame(s, s', s.ops[o]);
    }
  }

  lemma PublishKeepsLayers(s: System, id: TableId, s': System)
    requires Known(s) && Known(s') && LayersGood(s) && Next(s, FlushPublish(id), s')
    ensures LayersGood(s') && Contents(s', s'.list) == [Sort(s.mem)] + Contents(s, s.list)
  {
    SortSorts(s.mem);
    var tables, table := Contents(s, s.list), Sort(s.mem);
    SameContents(s, s', s.list);
    assert Contents(s', s'.list) == [table] + tables;
    DoubledTop(s.mem, table, tables);
  }

  lemma PublishKeepsInv(s: System, id: TableId, s': System)
    requires Inv(s) && Next(s, FlushPublish(id), s')
    ensures Inv(s')
  {
    RefsKept(s, FlushPublish(id), s');
    PublishKeepsLayers(s, id, s');
    var tables := Contents(s, s.list);
    assert Known(s) && Known(s') && s'.ops == s.ops && s'.mem == s.mem;
    assert forall id | id in s.content :: id in s'.content && s'.content[id] == s.content[id];
    hide Next, RefsOk, LayersGood, Sort;
    forall o | o in s'.ops
      ensures OpOk(s', s'.ops[o])
    {
      var x := s.ops[o];
      assert OpOk(s, x) && SnapKnown(s, x.pc) && SnapKnown(s', x.pc);
      if x.Past() {
        FlushedHasNoMatch(s.mem, tables, x.key, x.t);
      }
      OpFrame(s, s', x);
    }
  }

  /** A get that missed the memtable also misses the table flushed from it. */
  lemma FlushedHasNoMatch(mem: seq<Rec>, tables: seq<seq<Rec>>, k: Key, t: Timestamp)
    requires forall r | r in mem :: !Matches(r, k, t)
    ensures LayerLookup([Sort(mem)] + tables, k, t) == LayerLookup(tables, k, t)
  {
    SortSorts(mem);
    LookupIsNewest(Sort(mem), k, t);
    assert forall r | r in Elements(Sort(mem)) :: r in Elements(mem);
    assert ([Sort(mem)] + tables)[1..] == tables;
  }

  /** Memtable and freshly flushed table may coexist: they hold the same records. */
  lemma DoubledTop(mem: seq<Rec>, table: seq<Rec>, tables: seq<seq<Rec>>)
    requires Layered([mem] + tables) && Unique(All([mem] + tables)) && Sorted(table) && Elements(table) == Elements(mem)
    ensures Layered([mem] + ([table] + tables)) && Unique(All([mem] + ([table] + tables)))
  {
    var before, after := [mem] + tables, [mem] + ([table] + tables);
    AllSplits(before);
    AllSplits(after);
    AllSplits(after[1..]);
    assert before[1..] == tables && after[1..] == [table] + tables && after[1..][1..] == tables;
    assert All(after) == All(before);
    assert forall r :: (r in mem <==> r in Elements(mem)) && (r in table <==> r in Elements(table));
    forall i, j | 0 <= i < j < |after|
      ensures Covers(after[i], after[j])
    {
      if j >= 2 {
        assert Covers(before[if i == 0 then 0 else i - 1], before[j - 1]);
      }
    }
    forall l | l in after
      ensures Sorted(l)
    {
      assert l == table || l in before;
    }
  }

  lemma ClearKeepsInv(s: System, s': System)
    requires Inv(s) && Next(s, FlushClear, s')
    ensures Inv(s')
  {
    hide RefsOk, Layered, Unique, All, LayerLookup;
    RefsKept(s, FlushClear, s');
    BothKnown(s, s');
    KnownContents(s, s');
    ClearedTop(s.mem, Contents(s, s.list));
    assert LayersGood(s');
    hide LayersGood;
    forall o | o in s'.ops
      ensures OpOk(s', s'.ops[o])
    {
      OpFrame(s, s', s.ops[o]);
    }
  }

  lemma KnownContents(s: System, s': System)
    requires Known(s) && s'.content == s.content
    ensures Contents(s', s.list) == Contents(s, s.list)
  {
    SameContents(s, s', s.list);
  }

  /** An empty memtable may stand on top of any layers. */
  lemma ClearedTop(mem: seq<Rec>, tables: seq<seq<Rec>>)
    requires Layered([mem] + tables) && Unique(All([mem] + tables))
    ensures Layered([[]] + tables) && Unique(All([[]] + tables))
  {
    LowerLayers(mem, tables);
    var after := [[]] + tables;
    AllSplits(after);
    assert after[1..] == tables;
    hide All;
    forall i, j | 0 <= i < j < |after|
      ensures Covers(after[i], after[j])
    {
      assert i > 0 ==> Covers(tables[i - 1], tables[j - 1]);
    }
    forall l | l in after
      ensures Sorted(l)
    {
      assert l == [] || l in tables;
    }
  }

  /** The tables below the memtable, and the merged table in their place. */
  lemma SwapKeepsLayers(mem: seq<Rec>, tables: seq<seq<Rec>>, watermark: int)
    requires Layered([mem] + tables) && Unique(All([mem] + tables))
    ensures Layered(tables) && Unique(All(tables))
    ensures Layered([mem] + [Compacted(tables, watermark)]) && Unique(All([mem] + [Compacted(tables, watermark)]))
  {
    hide Compacted;
    LowerLayers(mem, tables);
    CompactedFacts(tables, watermark);
    hide Covers, Sorted, Unique;
    MergedBelow(mem, tables, Compacted(tables, watermark));
  }

  lemma LowerLayers(mem: seq<Rec>, tables: seq<seq<Rec>>)
    requires Layered([mem] + tables) && Unique(All([mem] + tables))
    ensures Layered(tables) && Unique(All(tables))
  {
    var before := [mem] + tables;
    AllSplits(before);
    assert before[1..] == tables;
    hide Covers, Sorted;
    assert forall l | l in tables :: l in before;
    assert forall i, j | 0 <= i < j < |tables| :: tables[i] == before[i + 1] && tables[j] == before[j + 1];
  }

  lemma MergedBelow(mem: seq<Rec>, tables: seq<seq<Rec>>, c: seq<Rec>)
    requires Layered([mem] + tables) && Unique(All([mem] + tables)) && Sorted(c) && Elements(c) <= All(tables)
    ensures Layered([mem] + [c]) && Unique(All([mem] + [c]))
  {
    MergedIsUnique(mem, tables, c);
    hide Unique, Sorted;
    var before, after := [mem] + tables, [mem] + [c];
    assert mem in before;
    forall r, u | r in mem && u in c && r.key == u.key && r.ts.AtMost(u.ts)
      ensures u in mem
    {
      assert u in Elements(c);
      var l :| l in tables && u in l;
      var j :| 0 <= j < |tables| && tables[j] == l;
      assert Covers(before[0], before[j + 1]);
    }
    assert Covers(mem, c);
    hide Covers;
    assert forall l | l in after :: l == mem || l == c;
  }

  lemma MergedIsUnique(mem: seq<Rec>, tables: seq<seq<Rec>>, c: seq<Rec>)
    requires Unique(All([mem] + tables)) && Elements(c) <= All(tables)
    ensures Unique(All([mem] + [c]))
  {
    hide Elements, All;
    AllSplits([mem] + tables);
    AllSplits([mem] + [c]);
    AllSplits([c]);
    assert ([mem] + tables)[1..] == tables && ([mem] + [c])[1..] == [c] && [c][1..] == [];
    NoLayers();
  }

  lemma NoLayers()
    ensures All([]) == {}
  {
  }

  lemma SwapKeepsInv(s: System, id: TableId, watermark: int, s': System)
    requires Inv(s) && Next(s, CompactSwap(id, watermark), s')
    ensures Inv(s')
  {
    hide Compacted, RefsOk, Layered, Unique, All, Retained;
    RefsKept(s, CompactSwap(id, watermark), s');
    BothKnown(s, s');
    var tables := Contents(s, s.list);
    SwapContents(s, id, watermark, s');
    SwapKeepsLayers(s.mem, tables, watermark);
    assert LayersGood(s');
    hide LayersGood, LayerLookup;
    forall o | o in s'.ops
      ensures OpOk(s', s'.ops[o])
    {
      var x := s.ops[o];
      assert OpOk(s, x) && SnapKnown(s, x.pc) && SnapKnown(s', x.pc);
      if x.Past() {
        SwappedAnswer(tables, watermark, x.key, x.t);
      }
      OpFrame(s, s', x);
    }
  }

  lemma PublishContents(s: System, id: TableId, s': System)
    requires Known(s) && Known(s') && Next(s, FlushPublish(id), s')
    ensures Contents(s', s'.list) == [Sort(s.mem)] + Contents(s, s.list)
  {
    hide Sort;
    SameContents(s, s', s.list);
  }

  lemma SwapContents(s: System, id: TableId, watermark: int, s': System)
    requires Known(s) && Known(s') && Next(s, CompactSwap(id, watermark), s')
    ensures Contents(s', s'.list) == [Compacted(Contents(s, s.list), watermark)]
  {
  }

  lemma SwappedAnswer(tables: seq<seq<Rec>>, watermark: int, k: Key, t: Timestamp)
    requires Layered(tables) && Unique(All(tables)) && Retained(All(tables), LayerLookup(tables, k, t), watermark)
    ensures ValueOf(LayerLookup([Compacted(tables, watermark)], k, t)) == ValueOf(LayerLookup(tables, k, t))
  {
    LayeredIsNewest(tables, k, t);
    CompactionPreservesReads(tables, watermark, k, t, LayerLookup(tables, k, t));
    hide Compacted;
    assert [Compacted(tables, watermark)][1..] == [];
  }

  lemma TableStepKeepsInv(s: System, step: Step, s': System)
    requires Inv(s) && Next(s, step, s') && (step.CloseOne? || step.Lend? || step.Return?)
    ensures Inv(s')
  {
    hide RefsOk, LayersGood, OpOk, NextOfGet;
    RefsKept(s, step, s');
    BothKnown(s, s');
    KnownStoreStep(s, step, s');
    TableStepView(s, step, s');
    ViewKept(s, s');
    hide NextOfStore;
    assert forall o | o in s'.ops :: SnapKnown(s', s'.ops[o].pc);
  }

  lemma TableStepView(s: System, step: Step, s': System)
    requires Known(s) && Next(s, step, s') && (step.CloseOne? || step.Lend? || step.Return?)
    ensures s'.mem == s.mem && s'.list == s.list && s'.flushing == s.flushing && s'.content == s.content && s'.ops == s.ops
  {
  }

  lemma NextKeepsInv(s: System, step: Step, s': System)
    requires Inv(s) && Next(s, step, s')
    ensures Inv(s')
  {
    match step
    case Write(r) => WriteKeepsInv(s, r, s');
    case FlushPublish(id) => PublishKeepsInv(s, id, s');
    case FlushClear => ClearKeepsInv(s, s');
    case CompactSwap(id, watermark) => SwapKeepsInv(s, id, watermark, s');
    case CloseOne => TableStepKeepsInv(s, step, s');
    case Lend(_, _) => TableStepKeepsInv(s, step, s');
    case Return(_) => TableStepKeepsInv(s, step, s');
    case Rest =>
    case _ => OpStepKeepsInv(s, step, s');
  }

  lemma {:induction false} RunKeepsInv(run: seq<System>, steps: seq<Step>, n: nat)
    requires IsRun(run, steps) && n < |run|
    ensures Inv(run[n])
  {
    if n > 0 {
      RunKeepsInv(run, steps, n - 1);
      NextKeepsInv(run[n - 1], steps[n - 1], run[n]);
    }
  }

  // ---------- results ----------

  /** No read touches a closed file; a file is closed exactly when its owner and all readers have let go. */
  lemma OpenWhileRead(run: seq<System>, steps: seq<Step>, n: nat, id: TableId)
    requires IsRun(run, steps) && n < |run| && id in run[n].content
    ensures id in run[n].closed <==> !Owned(run[n], id) && Unread(run[n], id)
  {
    RunKeepsInv(run, steps, n);
    ClosedIff(run[n], id);
  }

  /** Neither a get nor a scan holds a reference. */
  ghost predicate Unread(s: System, id: TableId) {
    (forall o | o in s.ops :: !s.ops[o].Refers(id)) && forall o | o in s.lent :: s.lent[o] != id
  }

  lemma ClosedIff(s: System, id: TableId)
    requires RefsOk(s) && id in s.content
    ensures id in s.closed <==> !Owned(s, id) && Unread(s, id)
  {
    assert RefOk(s, id);
    if |HoldersOf(s, id)| > 0 {
      var o :| o in HoldersOf(s, id);
    } else {
      assert forall o | o in s.ops && s.ops[o].Refers(id) :: o in HoldersOf(s, id);
    }
    if |LentOf(s.lent, id)| > 0 {
      var o :| o in LentOf(s.lent, id);
    } else {
      assert forall o | o in s.lent && s.lent[o] == id :: o in LentOf(s.lent, id);
    }
  }

  /**
   Whatever flushes, compactions and writes ran in between, a get that returns gives the value of the
   version that was visible at its timestamp when it probed the memtable.
   */
  lemma GetReturnsVisible(run: seq<System>, steps: seq<Step>, n: nat, o: OpId)
    requires IsRun(run, steps) && n < |run| && o in run[n].ops && run[n].ops[o].pc.Done?
    ensures run[n].ops[o].pc.result == ValueOf(run[n].ops[o].visible)
  {
    RunKeepsInv(run, steps, n);
    assert OpOk(run[n], run[n].ops[o]);
  }
}
