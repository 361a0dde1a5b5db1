/**
 Scans against flush and compaction, on top of module Readers. A scan reads the memtable, copies the
 reader list, then acquires, reads and releases one table after the other, starting over from the memtable
 when a table turns out to be closed; at the end it resolves what it gathered. Gets, writes, flushes and
 compactions run in between.
 */
module Scanners {
  import opened Options
  import opened Clock
  import opened Records
  import opened MemTables
  import opened Layers
  import opened Compaction
  import Readers

  type TableId = Readers.TableId
  type OpId = Readers.OpId

  datatype Pc =
    | Opening
    | Listing                                 // memtable read, reader list not copied yet
    | Walking(snap: seq<TableId>, i: nat)
    | Reading(snap: seq<TableId>, i: nat)     // reference taken, table not read yet
    | Leaving(snap: seq<TableId>, i: nat)     // read, reference not released yet
    | Ended(found: seq<(Key, Value)>)

  /** `seen` (history) is every version the store had when the memtable was read last. */
  datatype Scan = Scan(start: Option<Key>, end: Option<Key>, t: Timestamp, pc: Pc, records: seq<Rec>, seen: set<Rec>) {
    predicate Covers(k: Key) {
      InRange(k, start, end)
    }

    predicate Wants(r: Rec) {
      Covers(r.key) && r.ts.AtMost(t)
    }
  }

  datatype System = System(base: Readers.System, scans: map<OpId, Scan>)

  datatype Step =
    | Base(step: Readers.Step)
    | StartScan(o: OpId, start: Option<Key>, end: Option<Key>, t: Timestamp)
    | ScanMem(o: OpId)
    | ScanList(o: OpId)
    | ScanAcquire(o: OpId)
    | ScanRead(o: OpId)
    | ScanRelease(o: OpId)
    | ScanEnd(o: OpId)

  ghost function Versions(b: Readers.System): set<Rec>
    requires Readers.Known(b)
  {
    All([b.mem] + Readers.Contents(b, b.list))
  }

  /**
   As for gets: what is written between a scan's reading of the memtable and of the reader list carries a
   timestamp the scan cannot see, and a compaction in between keeps the versions it looks for.
   */
  ghost predicate Spares(s: System, step: Readers.Step)
    requires Readers.Known(s.base)
  {
    && (step.Write? ==> forall o | o in s.scans && s.scans[o].pc.Listing? :: !s.scans[o].Wants(step.r))
    && (step.CompactSwap? ==> forall o | o in s.scans && s.scans[o].pc.Listing? ::
          RetainsFor(s.scans[o], Readers.Contents(s.base, s.base.list), step.watermark))
  }

  ghost predicate RetainsFor(x: Scan, tables: seq<seq<Rec>>, watermark: int) {
    forall k: Key | x.Covers(k) :: Retained(All(tables), LayerLookup(tables, k, x.t), watermark)
  }

  /** The step's part in the machine of module Readers. */
  function BaseStep(s: System, step: Step): Readers.Step {
    match step
    case Base(b) => b
    case ScanAcquire(o) =>
      if o in s.scans && s.scans[o].pc.Walking? && s.scans[o].pc.i < |s.scans[o].pc.snap| &&
         s.scans[o].pc.snap[s.scans[o].pc.i] !in s.base.closed
      then Readers.Lend(o, s.scans[o].pc.snap[s.scans[o].pc.i]) else Readers.Rest
    case ScanRelease(o) => Readers.Return(o)
    case _ => Readers.Rest
  }

  /** What a step does to the scan that takes it. */
  ghost predicate Moves(s: System, step: Step, x: Scan, x': Scan)
    requires Readers.Known(s.base)
  {
    match step
    case ScanMem(_) =>
      && x.pc.Opening?
      && x' == x.(pc := Listing, records := InRangeOnly(s.base.mem, x.start, x.end), seen := Versions(s.base))
    case ScanList(_) => x.pc.Listing? && x' == x.(pc := Walking(s.base.list, 0))
    case ScanAcquire(_) =>
      && x.pc.Walking? && x.pc.i < |x.pc.snap|
      && x' == x.(pc := if x.pc.snap[x.pc.i] in s.base.closed then Opening else Reading(x.pc.snap, x.pc.i))
    case ScanRead(_) =>
      && x.pc.Reading? && x.pc.i < |x.pc.snap| && x.pc.snap[x.pc.i] in s.base.content
      && x' == x.(pc := Leaving(x.pc.snap, x.pc.i),
                  records := x.records + InRangeOnly(s.base.content[x.pc.snap[x.pc.i]], x.start, x.end))
    case ScanRelease(_) => x.pc.Leaving? && x' == x.(pc := Walking(x.pc.snap, x.pc.i + 1))
    case ScanEnd(_) =>
      && x.pc.Walking? && x.pc.i == |x.pc.snap|
      && x' == x.(pc := Ended(Resolved(Sort(x.records), |Sort(x.records)|, x.t)))
    case _ => false
  }

  ghost predicate Next(s: System, step: Step, s': System)
    requires Readers.Known(s.base)
  {
    && Readers.Next(s.base, BaseStep(s, step), s'.base)
    && match step
       case Base(b) => !b.Lend? && !b.Return? && Spares(s, b) && s'.scans == s.scans
       case StartScan(o, start, end, t) =>
         o !in s.scans && s'.scans == s.scans[o := Scan(start, end, t, Opening, [], {})]
       case _ => step.o in s.scans && step.o in s'.scans && s'.scans == s.scans[step.o := s'.scans[step.o]] &&
                 Moves(s, step, s.scans[step.o], s'.scans[step.o])
  }

  ghost predicate Init(s: System) {
    Readers.Init(s.base) && s.scans == map[]
  }

  ghost predicate IsRun(run: seq<System>, steps: seq<Step>) {
    && |run| == |steps| + 1 && Init(run[0])
    && forall i | 0 <= i < |steps| :: Readers.Known(run[i].base) && Next(run[i], steps[i], run[i + 1])
  }

  // ---------- what a scan has gathered, and what is still to come ----------

  ghost predicate Within(x: Scan, versions: set<Rec>) {
    forall r | r in versions && x.Wants(r) :: r in x.seen
  }

  ghost predicate Gathered(x: Scan) {
    (forall r | r in x.records :: x.Covers(r.key)) && Unique(x.seen)
  }

  /** Before the reader list is copied: the answer for a key is in hand, or left to the tables as they are now. */
  ghost predicate ListOk(x: Scan, mem: seq<Rec>, tables: seq<seq<Rec>>) {
    && Gathered(x) && (forall r | r in mem && x.Wants(r) :: r in x.records)
    && Within(x, Elements(x.records) + All(tables))
    && forall k: Key, found | x.Covers(k) && Newest(x.seen, k, x.t, found) :: KeyOk(x, tables, k, found)
  }

  ghost predicate KeyOk(x: Scan, tables: seq<seq<Rec>>, k: Key, found: Option<Rec>) {
    || (found.Some? && found.value in x.records)
    || ((forall r | r in x.records :: !Matches(r, k, x.t)) && ValueOf(LayerLookup(tables, k, x.t)) == ValueOf(found))
  }

  /** Afterwards: records in hand and tables to come together hold the answer. */
  ghost predicate WalkOk(x: Scan, rest: seq<seq<Rec>>) {
    && Gathered(x) && Within(x, Elements(x.records) + All(rest))
    && forall k: Key, found | x.Covers(k) && Newest(x.seen, k, x.t, found) :: Agrees(x, Elements(x.records) + All(rest), k, found)
  }

  ghost predicate Agrees(x: Scan, versions: set<Rec>, k: Key, found: Option<Rec>) {
    exists got :: Newest(versions, k, x.t, got) && ValueOf(got) == ValueOf(found)
  }

  /** The keys of the range, ascending, each with the value visible in what the scan saw. */
  ghost predicate IsAnswer(x: Scan, found: seq<(Key, Value)>) {
    && (forall i, j | 0 <= i < j < |found| :: found[i].0 < found[j].0)
    && forall k: Key, v: Value :: (k, v) in found <==> x.Covers(k) && exists r :: Newest(x.seen, k, x.t, Some(r)) && r.value == Some(v)
  }

  // ---------- reading the memtable ----------

  lemma MemListed(x: Scan, mem: seq<Rec>, tables: seq<seq<Rec>>)
    requires Layered([mem] + tables) && Unique(All([mem] + tables))
    requires x.records == InRangeOnly(mem, x.start, x.end) && x.seen == All([mem] + tables)
    ensures ListOk(x, mem, tables)
  {
    hide InRangeOnly, All, Layered, LayerLookup;
    InRangeElements(mem, x.start, x.end);
    AllSplits([mem] + tables);
    assert ([mem] + tables)[1..] == tables;
    forall k: Key, found | x.Covers(k) && Newest(x.seen, k, x.t, found)
      ensures KeyOk(x, tables, k, found)
    {
      KeyListed(x, mem, tables, k, found);
    }
  }

  lemma KeyListed(x: Scan, mem: seq<Rec>, tables: seq<seq<Rec>>, k: Key, found: Option<Rec>)
    requires Layered([mem] + tables) && Unique(All([mem] + tables)) && x.Covers(k)
    requires (forall r :: r in x.records <==> r in mem && x.Covers(r.key)) && Newest(All([mem] + tables), k, x.t, found)
    ensures KeyOk(x, tables, k, found)
  {
    var layers := [mem] + tables;
    LayeredIsNewest(layers, k, x.t);
    NewestIsUnique(All(layers), k, x.t, found, LayerLookup(layers, k, x.t));
    assert layers[1..] == tables;
    assert mem in layers;
    LookupIsNewest(mem, k, x.t);
    hide All, Lookup, Layered;
    assert forall r | r in mem :: r in Elements(mem);
  }

  // ---------- what happens before the reader list is copied ----------

  lemma WriteListed(x: Scan, mem: seq<Rec>, tables: seq<seq<Rec>>, r: Rec)
    requires ListOk(x, mem, tables) && !x.Wants(r)
    ensures ListOk(x, Insert(mem, r), tables)
  {
    hide Insert, KeyOk;
    InsertElements(mem, r);
    assert forall u | u in Insert(mem, r) :: u in Elements(Insert(mem, r));
  }

  lemma PublishListed(x: Scan, mem: seq<Rec>, tables: seq<seq<Rec>>)
    requires ListOk(x, mem, tables)
    ensures ListOk(x, mem, [Sort(mem)] + tables)
  {
    hide Sort, All, LayerLookup;
    SortSorts(mem);
    AllSplits([Sort(mem)] + tables);
    assert ([Sort(mem)] + tables)[1..] == tables;
    forall k: Key, found | x.Covers(k) && Newest(x.seen, k, x.t, found)
      ensures KeyOk(x, [Sort(mem)] + tables, k, found)
    {
      assert KeyOk(x, tables, k, found);
      if !(found.Some? && found.value in x.records) {
        Readers.FlushedHasNoMatch(mem, tables, k, x.t);
      }
    }
  }

  lemma SwapListed(x: Scan, mem: seq<Rec>, tables: seq<seq<Rec>>, watermark: int)
    requires ListOk(x, mem, tables) && Layered(tables) && Unique(All(tables)) && RetainsFor(x, tables, watermark)
    ensures ListOk(x, mem, [Compacted(tables, watermark)])
  {
    hide Compacted, LayerLookup, Layered;
    CompactedFacts(tables, watermark);
    var c := Compacted(tables, watermark);
    AllSplits([c]);
    assert [c][1..] == [] && All([]) == {};
    hide All;
    forall k: Key, found | x.Covers(k) && Newest(x.seen, k, x.t, found)
      ensures KeyOk(x, [c], k, found)
    {
      assert KeyOk(x, tables, k, found);
      Readers.SwappedAnswer(tables, watermark, k, x.t);
    }
  }

  // ---------- the walk ----------

  lemma WalkBegins(x: Scan, mem: seq<Rec>, tables: seq<seq<Rec>>)
    requires ListOk(x, mem, tables) && Layered(tables)
    ensures WalkOk(x, tables)
  {
    hide All, LayerLookup, Layered;
    var versions := Elements(x.records) + All(tables);
    forall k: Key, found | x.Covers(k) && Newest(x.seen, k, x.t, found)
      ensures Agrees(x, versions, k, found)
    {
      assert KeyOk(x, tables, k, found);
      if found.Some? && found.value in x.records {
        assert Newest(versions, k, x.t, found);
      } else {
        LayeredIsNewest(tables, k, x.t);
        assert forall r | r in Elements(x.records) :: r in x.records;
        assert Newest(versions, k, x.t, LayerLookup(tables, k, x.t));
      }
    }
  }

  /** A table read moves its records within the range from what is to come to what is in hand. */
  lemma WalkGoesOn(x: Scan, rest: seq<seq<Rec>>, x': Scan)
    requires WalkOk(x, rest) && rest != []
    requires x' == x.(records := x.records + InRangeOnly(rest[0], x.start, x.end), pc := x'.pc)
    ensures WalkOk(x', rest[1..])
  {
    hide InRangeOnly, All;
    InRangeElements(rest[0], x.start, x.end);
    AllSplits(rest);
    var before, after := Elements(x.records) + All(rest), Elements(x'.records) + All(rest[1..]);
    assert forall r: Rec | x.Covers(r.key) :: r in before <==> r in after;
    forall k: Key, found | x'.Covers(k) && Newest(x'.seen, k, x'.t, found)
      ensures Agrees(x', after, k, found)
    {
      assert Agrees(x, before, k, found);
      var got :| Newest(before, k, x.t, got) && ValueOf(got) == ValueOf(found);
      assert Newest(after, k, x.t, got);
    }
  }

  lemma WalkEnds(x: Scan)
    requires WalkOk(x, [])
    ensures IsAnswer(x, Resolved(Sort(x.records), |Sort(x.records)|, x.t))
  {
    hide Sort, Resolved, Lookup;
    var s := Sort(x.records);
    SortSorts(x.records);
    ResolvedAscends(s, |s|, x.t);
    forall k: Key, v: Value
      ensures (k, v) in Resolved(s, |s|, x.t) <==> x.Covers(k) && exists r :: Newest(x.seen, k, x.t, Some(r)) && r.value == Some(v)
    {
      ResolvedIsLookup(s, x.t, k, v);
      KeyAnswered(x, s, k, v);
    }
  }

  lemma KeyAnswered(x: Scan, s: seq<Rec>, k: Key, v: Value)
    requires WalkOk(x, []) && Sorted(s) && Elements(s) == Elements(x.records)
    ensures ValueOf(Lookup(s, k, x.t)) == Some(v) <==>
            x.Covers(k) && exists r :: Newest(x.seen, k, x.t, Some(r)) && r.value == Some(v)
  {
    LookupIsNewest(s, k, x.t);
    hide Lookup, Sorted;
    var got := Lookup(s, k, x.t);
    assert Elements(x.records) + All([]) == Elements(s);
    if got.Some? {
      assert got.value in Elements(x.records);
    }
    if x.Covers(k) {
      var found := NewestExists(x.seen, k, x.t);
      assert Agrees(x, Elements(s), k, found);
      var other :| Newest(Elements(s), k, x.t, other) && ValueOf(other) == ValueOf(found);
      SameAnswer(x, Elements(s), k, got, other);
      if r :| Newest(x.seen, k, x.t, Some(r)) && r.value == Some(v) {
        NewestIsUnique(x.seen, k, x.t, Some(r), found);
      }
    }
  }

  lemma SameAnswer(x: Scan, versions: set<Rec>, k: Key, a: Option<Rec>, b: Option<Rec>)
    requires Within(x, versions) && Unique(x.seen) && x.Covers(k)
    requires Newest(versions, k, x.t, a) && Newest(versions, k, x.t, b)
    ensures a == b
  {
  }

  /** Some version is the newest, if any is visible. */
  lemma {:induction false} NewestExists(versions: set<Rec>, k: Key, t: Timestamp) returns (found: Option<Rec>)
    ensures Newest(versions, k, t, found)
    decreases |versions|
  {
    if r :| r in versions {
      found := NewestExists(versions - {r}, k, t);
      if Matches(r, k, t) && (found.None? || found.value.ts.AtMost(r.ts)) {
        found := Some(r);
      }
    } else {
      found := None;
    }
  }

  // ---------- invariant ----------

  /** The scan holds a reference exactly between acquire and release, and its tables are known. */
  ghost predicate HoldsOk(s: System, o: OpId, x: Scan) {
    match x.pc
    case Walking(snap, i) => o !in s.base.lent && i <= |snap| && forall id | id in snap :: id in s.base.content
    case Reading(snap, i) => i < |snap| && o in s.base.lent && s.base.lent[o] == snap[i] && forall id | id in snap :: id in s.base.content
    case Leaving(snap, i) => i < |snap| && o in s.base.lent && s.base.lent[o] == snap[i] && forall id | id in snap :: id in s.base.content
    case _ => o !in s.base.lent
  }

  ghost predicate DataOk(s: System, o: OpId, x: Scan)
    requires Readers.Known(s.base) && HoldsOk(s, o, x)
  {
    match x.pc
    case Opening => true
    case Listing => ListOk(x, s.base.mem, Readers.Contents(s.base, s.base.list))
    case Walking(snap, i) => WalkOk(x, Readers.Contents(s.base, snap)[i..])
    case Reading(snap, i) => WalkOk(x, Readers.Contents(s.base, snap)[i..])
    case Leaving(snap, i) => WalkOk(x, Readers.Contents(s.base, snap)[i + 1..])
    case Ended(found) => IsAnswer(x, found)
  }

  ghost predicate Inv(s: System) {
    && Readers.Inv(s.base) && (forall o | o in s.base.lent :: o in s.scans)
    && forall o | o in s.scans :: HoldsOk(s, o, s.scans[o]) && DataOk(s, o, s.scans[o])
  }

  // ---------- the invariant is kept ----------

  /** A step that is not this scan's leaves its references alone. */
  lemma HoldsKept(s: System, s': System, o: OpId, x: Scan)
    requires HoldsOk(s, o, x)
    requires o in s'.base.lent <==> o in s.base.lent
    requires o in s.base.lent ==> s'.base.lent[o] == s.base.lent[o]
    requires forall id | id in s.base.content :: id in s'.base.content
    ensures HoldsOk(s', o, x)
  {
  }

  /** Tables are immutable, so only a scan that has not copied the reader list is affected by the store. */
  lemma DataFrame(s: System, s': System, o: OpId, x: Scan)
    requires Readers.Known(s.base) && Readers.Known(s'.base) && HoldsOk(s, o, x) && HoldsOk(s', o, x) && DataOk(s, o, x)
    requires forall id | id in s.base.content :: id in s'.base.content && s'.base.content[id] == s.base.content[id]
    requires x.pc.Listing? ==> ListOk(x, s'.base.mem, Readers.Contents(s'.base, s'.base.list))
    ensures DataOk(s', o, x)
  {
    hide ListOk, WalkOk, IsAnswer, Readers.Known;
    if x.pc.Walking? || x.pc.Reading? || x.pc.Leaving? {
      Readers.SameContents(s.base, s'.base, x.pc.snap);
    }
  }

  lemma ContentStays(b: Readers.System, step: Readers.Step, b': Readers.System)
    requires Readers.Known(b) && Readers.Next(b, step, b')
    ensures forall id | id in b.content :: id in b'.content && b'.content[id] == b.content[id]
    ensures !step.Lend? && !step.Return? ==> b'.lent == b.lent
  {
    hide Sort, Compacted, Insert, Newest, Lookup, Readers.Contents;
  }

  /** Writes, flushes and compactions between the two readings. */
  lemma StoreListed(s: System, step: Readers.Step, s': System, x: Scan)
    requires Readers.Inv(s.base) && Readers.Known(s'.base) && Readers.Next(s.base, step, s'.base)
    requires ListOk(x, s.base.mem, Readers.Contents(s.base, s.base.list))
    requires step.Write? ==> !x.Wants(step.r)
    requires step.CompactSwap? ==> RetainsFor(x, Readers.Contents(s.base, s.base.list), step.watermark)
    ensures ListOk(x, s'.base.mem, Readers.Contents(s'.base, s'.base.list))
  {
    hide ListOk, Readers.Known, Readers.RefsOk, Readers.OpOk, Readers.NextOfGet, Layered, Unique, All, Sort, Insert, Compacted, RetainsFor;
    Readers.BothKnown(s.base, s'.base);
    var tables := Readers.Contents(s.base, s.base.list);
    match step
    case Write(r) =>
      Readers.KnownContents(s.base, s'.base);
      WriteListed(x, s.base.mem, tables, r);
    case FlushPublish(id) =>
      Readers.PublishContents(s.base, id, s'.base);
      PublishListed(x, s.base.mem, tables);
    case FlushClear =>
      Readers.KnownContents(s.base, s'.base);
      ClearListed(x, s.base.mem, tables);
    case CompactSwap(id, watermark) =>
      Readers.SwapContents(s.base, id, watermark, s'.base);
      Readers.LowerLayers(s.base.mem, tables);
      SwapListed(x, s.base.mem, tables, watermark);
    case _ => QuietView(s.base, step, s'.base);
  }

  lemma ClearListed(x: Scan, mem: seq<Rec>, tables: seq<seq<Rec>>)
    requires ListOk(x, mem, tables)
    ensures ListOk(x, [], tables)
  {
    hide KeyOk;
  }

  /** Steps that leave memtable and reader list alone. */
  lemma QuietView(b: Readers.System, step: Readers.Step, b': Readers.System)
    requires Readers.Known(b) && Readers.Known(b') && Readers.Next(b, step, b')
    requires !(step.Write? || step.FlushPublish? || step.FlushClear? || step.CompactSwap?)
    ensures b'.mem == b.mem && b'.list == b.list && Readers.Contents(b', b'.list) == Readers.Contents(b, b.list)
  {
    if step.OfGet() {
      Readers.OthersStay(b, step, b');
    }
    Readers.KnownContents(b, b');
  }

  lemma BaseStepKeepsInv(s: System, b: Readers.Step, s': System)
    requires Inv(s) && Next(s, Base(b), s') && Readers.Inv(s'.base)
    ensures Inv(s')
  {
    hide Readers.Inv, Readers.Known, Readers.Next, ListOk, DataOk, HoldsOk;
    BaseKnown(s);
    BaseKnown(s');
    ContentStays(s.base, b, s'.base);
    forall o | o in s'.scans
      ensures HoldsOk(s', o, s'.scans[o]) && DataOk(s', o, s'.scans[o])
    {
      HoldsKept(s, s', o, s.scans[o]);
      if s.scans[o].pc.Listing? {
        ListingOk(s, o);
        StoreListed(s, b, s', s.scans[o]);
      }
      DataFrame(s, s', o, s.scans[o]);
    }
  }

  lemma BaseKnown(s: System)
    ensures Readers.Inv(s.base) ==> Readers.Known(s.base)
  {
  }

  lemma ListingOk(s: System, o: OpId)
    requires Inv(s) && o in s.scans && s.scans[o].pc.Listing?
    ensures ListOk(s.scans[o], s.base.mem, Readers.Contents(s.base, s.base.list))
  {
  }

  /** What the steps of a scan do to the store: at most one reference taken or given back. */
  lemma ScanStepBase(s: System, step: Step, s': System)
    requires Readers.Known(s.base) && Next(s, step, s') && !step.Base?
    ensures s'.base.mem == s.base.mem && s'.base.list == s.base.list && s'.base.content == s.base.content
    ensures forall o | o != step.o :: (o in s'.base.lent <==> o in s.base.lent) && (o in s.base.lent ==> s'.base.lent[o] == s.base.lent[o])
    ensures step.ScanAcquire? || step.ScanRelease? || s'.base == s.base
  {
    hide Moves, Readers.NextOfGet, Readers.Known, Readers.Contents, Sort, Insert, Compacted;
  }

  lemma OtherScansKept(s: System, step: Step, s': System, o: OpId)
    requires Inv(s) && Next(s, step, s') && !step.Base? && Readers.Known(s'.base) && o in s.scans && o != step.o
    ensures HoldsOk(s', o, s.scans[o]) && DataOk(s', o, s.scans[o])
  {
    hide Next, Readers.Inv, Readers.Known, ListOk, DataOk, HoldsOk;
    BaseKnown(s);
    ScanStepBase(s, step, s');
    HoldsKept(s, s', o, s.scans[o]);
    if s.scans[o].pc.Listing? {
      ListingOk(s, o);
      Readers.KnownContents(s.base, s'.base);
    }
    DataFrame(s, s', o, s.scans[o]);
  }

  lemma StartOk(s: System, step: Step, s': System)
    requires Inv(s) && Next(s, step, s') && step.StartScan? && Readers.Known(s'.base)
    ensures HoldsOk(s', step.o, s'.scans[step.o]) && DataOk(s', step.o, s'.scans[step.o])
  {
    hide Readers.Inv, Readers.Known;
  }

  lemma ScanMemOk(s: System, o: OpId, s': System)
    requires Inv(s) && Next(s, ScanMem(o), s') && Readers.Known(s'.base)
    ensures HoldsOk(s', o, s'.scans[o]) && DataOk(s', o, s'.scans[o])
  {
    MemListed(s'.scans[o], s.base.mem, Readers.Contents(s.base, s.base.list));
    hide ListOk, Readers.Known;
  }

  lemma ScanListOk(s: System, o: OpId, s': System)
    requires Inv(s) && Next(s, ScanList(o), s') && Readers.Known(s'.base)
    ensures HoldsOk(s', o, s'.scans[o]) && DataOk(s', o, s'.scans[o])
  {
    hide ListOk, WalkOk, Layered, Unique;
    var x, tables := s.scans[o], Readers.Contents(s.base, s.base.list);
    Readers.LowerLayers(s.base.mem, tables);
    ListingOk(s, o);
    WalkBegins(x, s.base.mem, tables);
    SameRecords(x, s'.scans[o], tables);
    assert tables[0..] == tables;
  }

  lemma SameRecords(x: Scan, x': Scan, rest: seq<seq<Rec>>)
    requires WalkOk(x, rest) && x' == x.(pc := x'.pc)
    ensures WalkOk(x', rest)
  {
    hide Newest, Gathered;
    assert Gathered(x') by {
      SameGathered(x, x');
    }
    forall k: Key, found | x'.Covers(k) && Newest(x'.seen, k, x'.t, found)
      ensures Agrees(x', Elements(x'.records) + All(rest), k, found)
    {
      assert Agrees(x, Elements(x.records) + All(rest), k, found);
    }
  }

  lemma SameGathered(x: Scan, x': Scan)
    requires Gathered(x) && x' == x.(pc := x'.pc)
    ensures Gathered(x')
  {
  }

  lemma ScanAcquireOk(s: System, o: OpId, s': System)
    requires Inv(s) && Next(s, ScanAcquire(o), s') && Readers.Known(s'.base)
    ensures HoldsOk(s', o, s'.scans[o]) && DataOk(s', o, s'.scans[o])
  {
    hide ListOk, WalkOk, Readers.Inv;
    BaseKnown(s);
    var x := s.scans[o];
    assert HoldsOk(s, o, x) && DataOk(s, o, x);
    ScanStepBase(s, ScanAcquire(o), s');
    if s'.scans[o].pc.Reading? {
      Readers.SameContents(s.base, s'.base, x.pc.snap);
      SameRecords(x, s'.scans[o], Readers.Contents(s.base, x.pc.snap)[x.pc.i..]);
    }
  }

  lemma ScanReadOk(s: System, o: OpId, s': System)
    requires Inv(s) && Next(s, ScanRead(o), s') && Readers.Known(s'.base)
    ensures HoldsOk(s', o, s'.scans[o]) && DataOk(s', o, s'.scans[o])
  {
    hide ListOk, WalkOk, Readers.Inv, InRangeOnly;
    BaseKnown(s);
    var x := s.scans[o];
    assert HoldsOk(s, o, x) && DataOk(s, o, x);
    var rest := Readers.Contents(s.base, x.pc.snap)[x.pc.i..];
    assert rest[0] == s.base.content[x.pc.snap[x.pc.i]] && rest[1..] == Readers.Contents(s.base, x.pc.snap)[x.pc.i + 1..];
    WalkGoesOn(x, rest, s'.scans[o]);
  }

  lemma ScanReleaseOk(s: System, o: OpId, s': System)
    requires Inv(s) && Next(s, ScanRelease(o), s') && Readers.Known(s'.base)
    ensures HoldsOk(s', o, s'.scans[o]) && DataOk(s', o, s'.scans[o])
  {
    hide ListOk, WalkOk, Readers.Inv;
    BaseKnown(s);
    var x := s.scans[o];
    assert HoldsOk(s, o, x) && DataOk(s, o, x);
    ScanStepBase(s, ScanRelease(o), s');
    Readers.SameContents(s.base, s'.base, x.pc.snap);
    SameRecords(x, s'.scans[o], Readers.Contents(s.base, x.pc.snap)[x.pc.i + 1..]);
  }

  lemma ScanEndOk(s: System, o: OpId, s': System)
    requires Inv(s) && Next(s, ScanEnd(o), s') && Readers.Known(s'.base)
    ensures HoldsOk(s', o, s'.scans[o]) && DataOk(s', o, s'.scans[o])
  {
    hide ListOk, WalkOk, Readers.Inv, Sort, Resolved;
    BaseKnown(s);
    var x := s.scans[o];
    assert HoldsOk(s, o, x) && DataOk(s, o, x);
    assert Readers.Contents(s.base, x.pc.snap)[x.pc.i..] == [];
    WalkEnds(x);
    SameAnswers(x, s'.scans[o], Resolved(Sort(x.records), |Sort(x.records)|, x.t));
  }

  lemma SameAnswers(x: Scan, x': Scan, found: seq<(Key, Value)>)
    requires IsAnswer(x, found) && x' == x.(pc := x'.pc)
    ensures IsAnswer(x', found)
  {
    hide Newest;
  }

  lemma MoverOk(s: System, step: Step, s': System)
    requires Inv(s) && Next(s, step, s') && !step.Base? && Readers.Known(s'.base)
    ensures step.o in s'.scans && HoldsOk(s', step.o, s'.scans[step.o]) && DataOk(s', step.o, s'.scans[step.o])
  {
    hide Inv, Readers.Known, Moves, DataOk, HoldsOk, Readers.Next;
    match step
    case StartScan(_, _, _, _) => StartOk(s, step, s');
    case ScanMem(o) => ScanMemOk(s, o, s');
    case ScanList(o) => ScanListOk(s, o, s');
    case ScanAcquire(o) => ScanAcquireOk(s, o, s');
    case ScanRead(o) => ScanReadOk(s, o, s');
    case ScanRelease(o) => ScanReleaseOk(s, o, s');
    case ScanEnd(o) => ScanEndOk(s, o, s');
  }

  lemma ScanStepKeepsInv(s: System, step: Step, s': System)
    requires Inv(s) && Next(s, step, s') && !step.Base? && Readers.Inv(s'.base)
    ensures Inv(s')
  {
    hide Readers.Inv, Readers.Known, Moves, DataOk, HoldsOk, Readers.Next;
    BaseKnown(s);
    BaseKnown(s');
    ScanStepBase(s, step, s');
    MoverOk(s, step, s');
    forall o | o in s'.scans
      ensures HoldsOk(s', o, s'.scans[o]) && DataOk(s', o, s'.scans[o])
    {
      if o != step.o {
        OtherScansKept(s, step, s', o);
      }
    }
  }

  lemma NextKeepsInv(s: System, step: Step, s': System)
    requires Inv(s) && Next(s, step, s')
    ensures Inv(s')
  {
    hide Readers.Inv, Readers.Known, Readers.Next, Moves, Spares, DataOk, HoldsOk;
    Readers.NextKeepsInv(s.base, BaseStep(s, step), s'.base);
    if step.Base? {
      BaseStepKeepsInv(s, step.step, s');
    } else {
      ScanStepKeepsInv(s, step, s');
    }
  }

  lemma {:induction false} RunKeepsInv(run: seq<System>, steps: seq<Step>, n: nat)
    requires IsRun(run, steps) && n < |run|
    ensures Inv(run[n])
  {
    if n == 0 {
      InitOk(run[0]);
    } else {
      RunKeepsInv(run, steps, n - 1);
      hide Inv, Next, Readers.Known;
      NextKeepsInv(run[n - 1], steps[n - 1], run[n]);
    }
  }

  lemma InitOk(s: System)
    requires Init(s)
    ensures Inv(s)
  {
  }

  // ---------- results ----------

  /**
   Whatever gets, writes, flushes and compactions ran in between, a scan that ends has found, in ascending
   order, exactly the keys of its range that had a value at its timestamp when it last read the memtable.
   */
  lemma ScanReturnsVisible(run: seq<System>, steps: seq<Step>, n: nat, o: OpId)
    requires IsRun(run, steps) && n < |run| && o in run[n].scans && run[n].scans[o].pc.Ended?
    ensures IsAnswer(run[n].scans[o], run[n].scans[o].pc.found)
  {
    RunKeepsInv(run, steps, n);
    hide IsAnswer;
    assert HoldsOk(run[n], o, run[n].scans[o]) && DataOk(run[n], o, run[n].scans[o]);
  }

  /** A scan reads open files only. */
  lemma ScannedIsOpen(run: seq<System>, steps: seq<Step>, n: nat, o: OpId)
    requires IsRun(run, steps) && n < |run| && o in run[n].scans && run[n].scans[o].pc.Reading?
    ensures run[n].scans[o].pc.i < |run[n].scans[o].pc.snap|
    ensures run[n].scans[o].pc.snap[run[n].scans[o].pc.i] !in run[n].base.closed
  {
    RunKeepsInv(run, steps, n);
    hide DataOk, Readers.LayersGood, Readers.OpOk;
    var s := run[n];
    assert HoldsOk(s, o, s.scans[o]);
    Readers.ClosedIff(s.base, s.scans[o].pc.snap[s.scans[o].pc.i]);
  }

  /** No step of a scan waits: references can always be taken from open tables and given back. */
  lemma ScansNeverBlock(s: System, o: OpId) returns (step: Step, s': System)
    requires Inv(s) && o in s.scans && !s.scans[o].pc.Ended?
    ensures !step.Base? && !step.StartScan? && step.o == o && Next(s, step, s')
  {
    hide Inv, DataOk, HoldsOk, Readers.Inv, Readers.Known, Sort, Resolved;
    KnownHere(s, o);
    var x, b := s.scans[o], s.base;
    match x.pc
    case Opening =>
      var x' := x.(pc := Listing, records := InRangeOnly(b.mem, x.start, x.end), seen := Versions(b));
      step, s' := ScanMem(o), s.(scans := s.scans[o := x']);
    case Listing =>
      step, s' := ScanList(o), s.(scans := s.scans[o := x.(pc := Walking(b.list, 0))]);
    case Walking(snap, i) =>
      step, s' := WalkerMoves(s, o);
    case Reading(snap, i) =>
      ReaderKnows(s, o);
      step, s' := ScanRead(o), s.(scans := s.scans[o := x.(pc := Leaving(snap, i), records := x.records + InRangeOnly(b.content[snap[i]], x.start, x.end))]);
    case Leaving(_, _) =>
      step, s' := LeaverMoves(s, o);
  }

  lemma KnownHere(s: System, o: OpId)
    requires Inv(s) && o in s.scans
    ensures Readers.Known(s.base) && HoldsOk(s, o, s.scans[o])
  {
  }

  lemma ReaderKnows(s: System, o: OpId)
    requires o in s.scans && s.scans[o].pc.Reading? && HoldsOk(s, o, s.scans[o])
    ensures s.scans[o].pc.i < |s.scans[o].pc.snap| && s.scans[o].pc.snap[s.scans[o].pc.i] in s.base.content
  {
    assert s.scans[o].pc.snap[s.scans[o].pc.i] in s.scans[o].pc.snap;
  }

  lemma WalkerMoves(s: System, o: OpId) returns (step: Step, s': System)
    requires Readers.Known(s.base) && o in s.scans && s.scans[o].pc.Walking? && HoldsOk(s, o, s.scans[o])
    ensures !step.Base? && !step.StartScan? && step.o == o && Next(s, step, s')
  {
    hide Sort, Resolved;
    var x, b := s.scans[o], s.base;
    var Walking(snap, i) := x.pc;
    if i == |snap| {
      step, s' := ScanEnd(o), s.(scans := s.scans[o := x.(pc := Ended(Resolved(Sort(x.records), |Sort(x.records)|, x.t)))]);
    } else {
      var id := snap[i];
      assert id in snap && id in b.content && id in b.refs;
      step := ScanAcquire(o);
      if id in b.closed {
        s' := s.(scans := s.scans[o := x.(pc := Opening)]);
      } else {
        s' := System(b.(refs := b.refs[id := b.refs[id] + 1], lent := b.lent[o := id]), s.scans[o := x.(pc := Reading(snap, i))]);
      }
    }
  }

  lemma LeaverMoves(s: System, o: OpId) returns (step: Step, s': System)
    requires Readers.Known(s.base) && o in s.scans && s.scans[o].pc.Leaving? && HoldsOk(s, o, s.scans[o])
    ensures !step.Base? && !step.StartScan? && step.o == o && Next(s, step, s')
  {
    var Leaving(snap, i) := s.scans[o].pc;
    assert snap[i] in snap && snap[i] in s.base.refs;
    step := ScanRelease(o);
    s' := System(Readers.Released(s.base, snap[i]).(lent := s.base.lent - {o}), s.scans[o := s.scans[o].(pc := Walking(snap, i + 1))]);
  }
}
