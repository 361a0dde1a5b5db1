/**
 Immutable sorted tables. A file is modelled as the packed records at their byte offsets plus the
 sparse index; msgpack is an arbitrary packing that gives every record a positive size. Checksums,
 magic bytes and the footer are not part of this model.
 */
module SSTables {
  import opened Options
  import opened Clock
  import opened Records
  import opened MemTables

  const HEADER: nat := 5

  /** The packed size of each record. */
  type Packing = f: Rec -> nat | forall r :: f(r) > 0 witness _ => 1

  datatype File = File(blocks: map<nat, (Rec, nat)>, index: seq<(Key, nat)>, dataEnd: nat)

  /** Byte offset of record i. */
  function Offset(recs: seq<Rec>, size: Packing, i: nat): nat
    requires i <= |recs|
  {
    if i == 0 then HEADER else Offset(recs, size, i - 1) + size(recs[i - 1])
  }

  lemma {:induction false} OffsetsGrow(recs: seq<Rec>, size: Packing, i: nat, j: nat)
    requires i < j <= |recs|
    ensures Offset(recs, size, i) < Offset(recs, size, j)
  {
    if i < j - 1 {
      OffsetsGrow(recs, size, i, j - 1);
    }
  }

  lemma OffsetStep(recs: seq<Rec>, size: Packing, i: nat)
    requires i < |recs|
    ensures Offset(recs, size, i + 1) == Offset(recs, size, i) + size(recs[i])
    ensures Offset(recs, size, 0) == HEADER
  {
  }

  ghost predicate BlocksOk(blocks: map<nat, (Rec, nat)>, recs: seq<Rec>, size: Packing, n: nat)
    requires n <= |recs|
  {
    forall j | 0 <= j < n ::
      Offset(recs, size, j) in blocks && blocks[Offset(recs, size, j)] == (recs[j], size(recs[j]))
  }

  ghost predicate IndexOk(index: seq<(Key, nat)>, recs: seq<Rec>, size: Packing, n: nat)
    requires n <= |recs|
  {
    && 64 * |index| >= n && 64 * |index| < n + 64
    && forall j | 0 <= j < |index| :: EntryOk(index[j], recs, size, 64 * j, n)
  }

  ghost predicate EntryOk(entry: (Key, nat), recs: seq<Rec>, size: Packing, i: nat, n: nat)
    requires n <= |recs|
  {
    i < n && entry == (recs[i].key, Offset(recs, size, i))
  }

  /** The file stores these records, in this order, with an index entry every 64 records. */
  ghost predicate Stores(f: File, recs: seq<Rec>, size: Packing) {
    && BlocksOk(f.blocks, recs, size, |recs|) && IndexOk(f.index, recs, size, |recs|)
    && f.dataEnd == Offset(recs, size, |recs|)
  }

  lemma BlockAdded(blocks: map<nat, (Rec, nat)>, recs: seq<Rec>, size: Packing, i: nat)
    requires i < |recs| && BlocksOk(blocks, recs, size, i)
    ensures BlocksOk(blocks[Offset(recs, size, i) := (recs[i], size(recs[i]))], recs, size, i + 1)
  {
    hide Offset;
    forall j | 0 <= j < i
      ensures Offset(recs, size, j) != Offset(recs, size, i)
    {
      OffsetsGrow(recs, size, j, i);
    }
  }

  /** What a reader finds at the offset of record i, and when it has reached the end. */
  lemma BlockAt(f: File, recs: seq<Rec>, size: Packing, i: nat)
    requires Stores(f, recs, size) && i <= |recs|
    ensures Offset(recs, size, i) < f.dataEnd <==> i < |recs|
    ensures i < |recs| ==>
              && Offset(recs, size, i) in f.blocks && f.blocks[Offset(recs, size, i)] == (recs[i], size(recs[i]))
              && Offset(recs, size, i + 1) == Offset(recs, size, i) + size(recs[i])
  {
    if i < |recs| {
      OffsetsGrow(recs, size, i, |recs|);
      OffsetStep(recs, size, i);
    }
  }

  /** write_sstable: sorts, packs, and indexes every 64th record. */
  method WriteSSTable(entries: seq<Rec>, size: Packing) returns (f: File)
    ensures Stores(f, Sort(entries), size)
  {
    hide Offset, BlocksOk, IndexOk, Sort;
    var ordered := Sort(entries);
    var blocks: map<nat, (Rec, nat)> := map[];
    var index: seq<(Key, nat)> := [];
    var length := HEADER;
    EmptyOk(ordered, size);
    for i := 0 to |ordered|
      invariant length == Offset(ordered, size, i)
      invariant BlocksOk(blocks, ordered, size, i)
      invariant IndexOk(index, ordered, size, i)
    {
      IndexAdded(index, ordered, size, i);
      if i % 64 == 0 {
        index := index + [(ordered[i].key, length)];
      }
      BlockAdded(blocks, ordered, size, i);
      OffsetStep(ordered, size, i);
      blocks := blocks[length := (ordered[i], size(ordered[i]))];
      length := length + size(ordered[i]);
    }
    f := File(blocks, index, length);
  }

  lemma EmptyOk(recs: seq<Rec>, size: Packing)
    ensures Offset(recs, size, 0) == HEADER && BlocksOk(map[], recs, size, 0) && IndexOk([], recs, size, 0)
  {
  }

  lemma IndexAdded(index: seq<(Key, nat)>, recs: seq<Rec>, size: Packing, i: nat)
    requires i < |recs| && IndexOk(index, recs, size, i)
    ensures IndexOk(if i % 64 == 0 then index + [(recs[i].key, Offset(recs, size, i))] else index, recs, size, i + 1)
  {
    hide Offset;
    forall j | 0 <= j < |index|
      ensures EntryOk(index[j], recs, size, 64 * j, i + 1)
    {
      assert EntryOk(index[j], recs, size, 64 * j, i);
    }
    if i % 64 == 0 {
      assert i == 64 * |index|;
    }
  }

  /** An open table: reads, and the reference count that keeps its file open. */
  class SSTableReader {
    const file: File
    ghost const recs: seq<Rec>
    ghost const size: Packing
    var refs: int
    var closed: bool

    ghost predicate Valid() {
      Stores(file, recs, size) && Sorted(recs)
    }

    constructor (file: File, ghost recs: seq<Rec>, ghost size: Packing)
      requires Stores(file, recs, size) && Sorted(recs)
      ensures Valid() && this.file == file && this.recs == recs && this.size == size && refs == 1 && !closed
    {
      this.file, this.recs, this.size, refs, closed := file, recs, size, 1, false;
    }

    /**
     _seek_offset: the offset of an indexed record such that everything before it has a smaller key
     (or the first record, for a key at or before the first index entry).
     */
    method SeekOffset(k: Key) returns (offset: nat, ghost start: nat)
      requires Valid()
      ensures start <= |recs| && offset == Offset(recs, size, start)
      ensures forall i | 0 <= i < start :: recs[i].key < k
    {
      hide Offset;
      if file.index == [] {
        EmptyOk(recs, size);
        return HEADER, 0;
      }
      // bisect.bisect_left over the index keys
      var lo, hi := 0, |file.index|;
      while lo < hi
        invariant 0 <= lo <= hi <= |file.index|
        invariant lo > 0 ==> file.index[lo - 1].0 < k
      {
        var mid := (lo + hi) / 2;
        if file.index[mid].0 < k {
          lo := mid + 1;
        } else {
          hi := mid;
        }
      }
      var i := if lo - 1 > 0 then lo - 1 else 0;
      start := 64 * i;
      offset := file.index[i].1;
      assert EntryOk(file.index[i], recs, size, 64 * i, |recs|);
      forall j | 0 <= j < start
        ensures recs[j].key < k
      {
        assert !Precedes(recs[start], recs[j]);
      }
    }

    /** get: starts at the sparse index, yet answers as a linear search of the whole table would. */
    method Get(k: Key, t: Timestamp) returns (found: Option<Rec>)
      requires Valid()
      ensures found == Lookup(recs, k, t)
    {
      hide Offset, Lookup, Stores;
      ghost var i: nat;
      var pos: nat;
      pos, i := SeekOffset(k);
      BlockAt(file, recs, size, i);
      while pos < file.dataEnd
        invariant i <= |recs| && (pos < file.dataEnd <==> i < |recs|) && pos == Offset(recs, size, i)
        invariant forall j | 0 <= j < i :: !Matches(recs[j], k, t)
        decreases |recs| - i
      {
        BlockAt(file, recs, size, i);
        var (r, width) := file.blocks[pos];
        if r.key > k {
          forall j | 0 <= j < |recs|
            ensures !Matches(recs[j], k, t)
          {
            assert i < j ==> !Precedes(recs[j], recs[i]);
          }
          LookupAt(recs, k, t, |recs|);
          return None;
        }
        if r.key == k && r.ts.AtMost(t) {
          LookupAt(recs, k, t, i);
          return Some(r);
        }
        pos, i := pos + width, i + 1;
        BlockAt(file, recs, size, i);
      }
      LookupAt(recs, k, t, |recs|);
      return None;
    }

    /** scan: exactly the records of the table in the range, in order. */
    method Scan(start: Option<Key>, end: Option<Key>) returns (found: seq<Rec>)
      requires Valid()
      ensures found == InRangeOnly(recs, start, end)
    {
      hide Offset, Stores, InRangeOnly;
      EmptyOk(recs, size);
      ghost var i: nat := 0;
      var pos: nat := HEADER;
      if start.Some? && start.value != 0 {
        pos, i := SeekOffset(start.value);
      }
      found := [];
      SkippedIsOutOfRange(recs, start, end, i);
      BlockAt(file, recs, size, i);
      while pos < file.dataEnd
        invariant i <= |recs| && (pos < file.dataEnd <==> i < |recs|) && pos == Offset(recs, size, i)
        invariant found == InRangeOnly(recs[..i], start, end)
        decreases |recs| - i
      {
        BlockAt(file, recs, size, i);
        var (r, width) := file.blocks[pos];
        InRangeStep(recs, start, end, i);
        if start.Some? && start.value != 0 && r.key < start.value {
          pos, i := pos + width, i + 1;
          BlockAt(file, recs, size, i);
          continue;
        }
        if end.Some? && end.value != 0 && r.key >= end.value {
          RestIsOutOfRange(recs, start, end, i);
          return;
        }
        found := found + [r];
        pos, i := pos + width, i + 1;
        BlockAt(file, recs, size, i);
      }
      assert recs[..|recs|] == recs;
    }

    /** acquire: takes a reference unless the file is already closed. */
    method Acquire() returns (ok: bool)
      modifies this`refs
      ensures ok == !closed && refs == old(refs) + if ok then 1 else 0
    {
      if closed {
        return false;
      }
      refs := refs + 1;
      ok := true;
    }

    /** release (and close, which drops the owner's reference): the last reference closes the file. */
    method Release()
      modifies this
      ensures refs == old(refs) - 1 && closed == (old(closed) || refs <= 0)
    {
      refs := refs - 1;
      if refs <= 0 && !closed {
        closed := true;
      }
    }
  }

  lemma InRangeStep(recs: seq<Rec>, start: Option<Key>, end: Option<Key>, i: nat)
    requires i < |recs|
    ensures InRangeOnly(recs[..i + 1], start, end) ==
            InRangeOnly(recs[..i], start, end) + if InRange(recs[i].key, start, end) then [recs[i]] else []
  {
    assert recs[..i + 1][..i] == recs[..i];
  }

  lemma {:induction false} SkippedIsOutOfRange(recs: seq<Rec>, start: Option<Key>, end: Option<Key>, n: nat)
    requires n <= |recs| && forall i | 0 <= i < n :: !InRange(recs[i].key, start, end)
    ensures InRangeOnly(recs[..n], start, end) == []
  {
    if n > 0 {
      SkippedIsOutOfRange(recs, start, end, n - 1);
      assert recs[..n][..n - 1] == recs[..n - 1];
    }
  }

  lemma {:induction false} RestIsOutOfRange(recs: seq<Rec>, start: Option<Key>, end: Option<Key>, n: nat)
    requires Sorted(recs) && n < |recs| && end.Some? && end.value != 0 && recs[n].key >= end.value
    ensures InRangeOnly(recs, start, end) == InRangeOnly(recs[..n], start, end)
    decreases |recs|
  {
    var last := |recs| - 1;
    if n < last {
      assert !Precedes(recs[last], recs[n]);
      RestIsOutOfRange(recs[..last], start, end, n);
      assert recs[..last][..n] == recs[..n];
    }
  }
}
