/**
 The store object itself: reads merge the memtable with the tables newest first, scans resolve a merged
 sorted list, flush and compact rebuild the table list. Reference counting during concurrent reads
 is the subject of module Readers; the log is the subject of modules Store and WalFraming.
 */
module MVCC {
  import opened Options
  import opened Clock
  import opened Records
  import opened MemTables
  import opened SSTables
  import opened Layers
  import opened Compaction
  import opened Recovery
  import Store

  // ---------- scan over layers ----------

  /** The records of all layers inside the key range, layer after layer. */
  function Gather(layers: seq<seq<Rec>>, start: Option<Key>, end: Option<Key>): seq<Rec> {
    if layers == [] then []
    else Gather(layers[..|layers| - 1], start, end) + InRangeOnly(layers[|layers| - 1], start, end)
  }

  ghost function ScanResult(layers: seq<seq<Rec>>, start: Option<Key>, end: Option<Key>, t: Timestamp): seq<(Key, Value)> {
    var s := Sort(Gather(layers, start, end));
    Resolved(s, |s|, t)
  }

  lemma GatherStep(layers: seq<seq<Rec>>, start: Option<Key>, end: Option<Key>, i: nat)
    requires i < |layers|
    ensures Gather(layers[..i + 1], start, end) == Gather(layers[..i], start, end) + InRangeOnly(layers[i], start, end)
    ensures Gather(layers[..0], start, end) == []
  {
    assert layers[..i + 1][..i] == layers[..i];
  }

  lemma {:induction false} GatherElements(layers: seq<seq<Rec>>, start: Option<Key>, end: Option<Key>)
    ensures Elements(Gather(layers, start, end)) == set r | r in All(layers) && InRange(r.key, start, end)
  {
    if layers != [] {
      var n := |layers| - 1;
      GatherElements(layers[..n], start, end);
      InRangeElements(layers[n], start, end);
      assert layers == layers[..n] + [layers[n]];
      assert forall r :: r in All(layers) <==> r in All(layers[..n]) || r in layers[n];
      assert forall r :: r in Elements(Gather(layers, start, end)) <==>
                         r in Elements(Gather(layers[..n], start, end)) || r in InRangeOnly(layers[n], start, end);
    }
  }

  /** A scan yields, in ascending order and once each, exactly the keys in range for which get has a value. */
  lemma ScanAgreesWithGet(layers: seq<seq<Rec>>, start: Option<Key>, end: Option<Key>, t: Timestamp, k: Key, v: Value)
    requires Layered(layers) && Unique(All(layers))
    ensures (k, v) in ScanResult(layers, start, end, t) <==>
            InRange(k, start, end) && ValueOf(LayerLookup(layers, k, t)) == Some(v)
    ensures var found := ScanResult(layers, start, end, t);
            forall i, j | 0 <= i < j < |found| :: found[i].0 < found[j].0
  {
    var gathered := Gather(layers, start, end);
    var s := Sort(gathered);
    SortSorts(gathered);
    GatherElements(layers, start, end);
    ResolvedAscends(s, |s|, t);
    LayeredIsNewest(layers, k, t);
    ResolvedIsNewest(s, t, k, v);
    hide Sort, Gather, Resolved, LayerLookup, Layered;
    RangedNewest(Elements(s), All(layers), start, end, k, t, LayerLookup(layers, k, t), v);
  }

  /** Restricting the versions to a key range does not change what is visible of a key inside it. */
  lemma RangedNewest(some: set<Rec>, all: set<Rec>, start: Option<Key>, end: Option<Key>,
                     k: Key, t: Timestamp, got: Option<Rec>, v: Value)
    requires Unique(all) && Newest(all, k, t, got) && some == set r | r in all && InRange(r.key, start, end)
    ensures Unique(some)
    ensures (exists r :: Newest(some, k, t, Some(r)) && r.value == Some(v)) <==>
            InRange(k, start, end) && ValueOf(got) == Some(v)
  {
    if InRange(k, start, end) {
      assert forall u | Matches(u, k, t) :: u in some <==> u in all;
      if r :| Newest(some, k, t, Some(r)) && r.value == Some(v) {
        assert Newest(all, k, t, Some(r));
        NewestIsUnique(all, k, t, Some(r), got);
      }
      if got.Some? {
        assert Newest(some, k, t, got);
      }
    }
  }

  /** The range is the half-open interval of its bounds exactly when the end bound is not the empty key. */
  lemma RangeIsHalfOpen(start: Option<Key>, end: Option<Key>)
    ensures end != Some(0) <==>
            forall k: Key :: InRange(k, start, end) <==> (start.None? || k >= start.value) && (end.None? || k < end.value)
    ensures end == Some(0) ==> forall k: Key :: InRange(k, start, end) <==> start.None? || k >= start.value
  {
    if end == Some(0) {
      var k := if start.Some? then start.value else 0;
      assert InRange(k, start, end);
    }
  }

  /** Over every run of writes, flushes, compactions and crashes, scan and get agree key by key. */
  lemma ScanIsExact(run: seq<Store.Db>, steps: seq<Store.Step>, n: nat,
                    start: Option<Key>, end: Option<Key>, t: Timestamp, k: Key, v: Value)
    requires Store.IsRun(run, steps) && n < |run|
    ensures var layers := [run[n].mem] + run[n].tables;
            && ((k, v) in ScanResult(layers, start, end, t) <==> InRange(k, start, end) && Store.Get(run[n], k, t) == Some(v))
            && forall i, j | 0 <= i < j < |ScanResult(layers, start, end, t)| ::
                 ScanResult(layers, start, end, t)[i].0 < ScanResult(layers, start, end, t)[j].0
  {
    Store.RunKeepsInv(run, steps, n);
    if run[n].phase.Down? {
      assert forall l | l in [run[n].mem] + run[n].tables :: l == [];
    } else {
      Store.LayersAreGood(run[n]);
    }
    ScanAgreesWithGet([run[n].mem] + run[n].tables, start, end, t, k, v);
  }

  // ---------- the store ----------

  class MVCCStore {
    const memtable: MemTable
    var sstables: seq<SSTableReader>

    ghost predicate Valid()
      reads this, memtable
    {
      memtable.Valid() && forall i | 0 <= i < |sstables| :: sstables[i].Valid()
    }

    ghost function Tables(): seq<seq<Rec>>
      reads this
    {
      seq(|sstables|, i requires 0 <= i < |sstables| reads this => sstables[i].recs)
    }

    ghost function View(): seq<seq<Rec>>
      reads this, memtable
    {
      [memtable.entries] + Tables()
    }

    constructor ()
      ensures Valid() && memtable.entries == [] && sstables == [] && fresh(memtable)
    {
      memtable := new MemTable();
      sstables := [];
    }

    /** put (a value) and delete (None), past the log append. */
    method Write(k: Key, value: Option<Value>, t: Timestamp)
      requires Valid()
      modifies memtable
      ensures Valid() && memtable.entries == Insert(old(memtable.entries), Rec(k, t, value))
    {
      if value.Some? {
        var _ := memtable.Put(k, value, t);
      } else {
        memtable.Delete(k, t);
      }
    }

    /** _recover over what the log replays; false when it raises. */
    method Reload(log: seq<Logged>) returns (ok: bool)
      requires Valid() && memtable.entries == []
      modifies memtable
      ensures Valid() && ok == Recover(log).Some?
      ensures ok ==> memtable.entries == Recover(log).value
    {
      for i := 0 to |log|
        invariant Valid() && Recover(log[..i]) == Some(memtable.entries)
      {
        var e := log[i];
        assert log[..i + 1][..i] == log[..i];
        if e.deleted {
          memtable.Delete(e.key, e.ts);
        } else {
          var put := memtable.Put(e.key, e.value, e.ts);
          if !put {
            RaisesFrom(log, i + 1);
            return false;
          }
        }
      }
      assert log[..|log|] == log;
      return true;
    }

    method Get(k: Key, t: Timestamp) returns (value: Option<Value>)
      requires Valid()
      ensures value == ValueOf(LayerLookup(View(), k, t))
    {
      ghost var tables := Tables();
      assert View()[0] == memtable.entries && View()[1..] == tables;
      var entry := memtable.GetEntry(k, t);
      if entry.Some? {
        return entry.value.value;
      }
      for i := 0 to |sstables|
        invariant LayerLookup(tables, k, t) == LayerLookup(tables[i..], k, t)
      {
        var hit := sstables[i].Get(k, t);
        assert tables[i..][0] == tables[i] && tables[i..][1..] == tables[i + 1..];
        if hit.Some? {
          return hit.value.value;
        }
      }
      return None;
    }

    method Scan(start: Option<Key>, end: Option<Key>, t: Timestamp) returns (found: seq<(Key, Value)>)
      requires Valid()
      ensures found == ScanResult(View(), start, end, t)
    {
      hide Gather, Sort, Resolved, InRangeOnly;
      ghost var layers := View();
      var records := memtable.ScanEntries(start, end);
      GatherStep(layers, start, end, 0);
      for i := 0 to |sstables|
        invariant records == Gather(layers[..i + 1], start, end)
      {
        var more := sstables[i].Scan(start, end);
        GatherStep(layers, start, end, i + 1);
        records := records + more;
      }
      assert layers[..|sstables| + 1] == layers;
      SortSorts(records);
      records := Sort(records);
      found := Resolve(records, t);
    }

    /** flush: the memtable becomes the newest table; an empty memtable is left alone. */
    method Flush(size: Packing)
      requires Valid()
      modifies this, memtable
      ensures Valid() && memtable.entries == []
      ensures Tables() == if old(memtable.entries) == [] then old(Tables()) else [Sort(old(memtable.entries))] + old(Tables())
    {
      if memtable.entries == [] {
        return;
      }
      ghost var before, recs := Tables(), Sort(memtable.entries);
      SortSorts(memtable.entries);
      var file := WriteSSTable(memtable.entries, size);
      var reader := new SSTableReader(file, recs, size);
      sstables := [reader] + sstables;
      memtable.Clear();
      assert Tables() == [recs] + before;
    }

    /** compact: one merged table replaces all, unless there is at most one. */
    method CompactAll(watermark: int, size: Packing)
      requires Valid()
      modifies this
      ensures Valid()
      ensures Tables() == if |old(Tables())| <= 1 then old(Tables()) else [Compacted(old(Tables()), watermark)]
    {
      if |sstables| <= 1 {
        return;
      }
      hide Compacted, Sort, InRangeOnly;
      ghost var before := Tables();
      var tables := TableContents();
      var kept := Compact(tables, watermark);
      ghost var recs := Sort(kept);
      SortSorts(kept);
      CompactedIsSorted(tables, watermark);
      var file := WriteSSTable(kept, size);
      var reader := new SSTableReader(file, recs, size);
      sstables := [reader];
      assert Tables() == [Compacted(before, watermark)];
    }

    /** Every record of every table, read back through full scans. */
    method TableContents() returns (tables: seq<seq<Rec>>)
      requires Valid()
      ensures tables == Tables()
    {
      tables := [];
      for i := 0 to |sstables|
        invariant tables == Tables()[..i]
      {
        var recs := sstables[i].Scan(None, None);
        WholeRange(sstables[i].recs);
        tables := tables + [recs];
      }
    }
  }

  /** An exception in the middle is one of the whole recovery. */
  lemma {:induction false} RaisesFrom(log: seq<Logged>, n: nat)
    requires n <= |log| && Recover(log[..n]) == None
    ensures Recover(log) == None
    decreases |log| - n
  {
    if n < |log| {
      assert log[..n + 1][..n] == log[..n];
      RaisesFrom(log, n + 1);
    } else {
      assert log[..n] == log;
    }
  }

  lemma {:induction false} WholeRange(recs: seq<Rec>)
    ensures InRangeOnly(recs, None, None) == recs
  {
    if recs != [] {
      WholeRange(recs[..|recs| - 1]);
      assert recs == recs[..|recs| - 1] + [recs[|recs| - 1]];
    }
  }

  lemma {:induction false} InsertLast(s: seq<Rec>, r: Rec)
    requires forall u | u in s :: !Precedes(r, u)
    ensures Insert(s, r) == s + [r]
  {
    if s != [] {
      InsertLast(s[1..], r);
      assert s + [r] == [s[0]] + (s[1..] + [r]);
    }
  }

  /** Sorting what is sorted changes nothing, so the merged table is written as computed. */
  lemma {:induction false} SortIsIdempotent(s: seq<Rec>)
    requires Sorted(s)
    ensures Sort(s) == s
  {
    if s != [] {
      var n := |s| - 1;
      SortIsIdempotent(s[..n]);
      InsertLast(s[..n], s[n]);
      assert s == s[..n] + [s[n]];
    }
  }

  lemma CompactedIsSorted(tables: seq<seq<Rec>>, watermark: int)
    ensures Sort(Compacted(tables, watermark)) == Compacted(tables, watermark)
  {
    var s := Sort(Concat(tables));
    SortSorts(Concat(tables));
    KeptSorted(s, |s|, watermark);
    SortIsIdempotent(Kept(s, |s|, watermark));
  }
}
