/**
 Versioned, partitioned tables over a key-value store. The three key families of the store (version
 counters, meta records, partitions) are three maps; a partition is kept as its rows.
 */
module TableStores {
  import opened Options
  import opened Values
  import opened Pruning

  type PartKey = (string, nat, nat)   // table, version, index

  datatype Catalog = Catalog(versions: map<string, nat>, metas: map<string, Meta>, parts: map<PartKey, seq<Row>>)

  function VersionOf(c: Catalog, table: string): nat {
    if table in c.versions then c.versions[table] else 0
  }

  // ---------- cutting rows into partitions ----------

  function Chunks(rows: seq<Row>, size: nat): (r: seq<seq<Row>>)
    requires size > 0
    ensures forall i | 0 <= i < |r| :: 0 < |r[i]| <= size
  {
    if rows == [] then []
    else if |rows| <= size then [rows]
    else [rows[..size]] + Chunks(rows[size..], size)
  }

  function Concat(chunks: seq<seq<Row>>): seq<Row> {
    if chunks == [] then [] else Concat(chunks[..|chunks| - 1]) + chunks[|chunks| - 1]
  }

  lemma {:induction false} ConcatFront(chunk: seq<Row>, chunks: seq<seq<Row>>)
    ensures Concat([chunk] + chunks) == chunk + Concat(chunks)
  {
    var all := [chunk] + chunks;
    if chunks == [] {
      assert all[..0] == [] && all == [chunk];
    } else {
      assert all[..|all| - 1] == [chunk] + chunks[..|chunks| - 1];
      ConcatFront(chunk, chunks[..|chunks| - 1]);
    }
  }

  lemma {:induction false} ChunksCover(rows: seq<Row>, size: nat)
    requires size > 0
    ensures Concat(Chunks(rows, size)) == rows
  {
    if rows == [] {
    } else if |rows| <= size {
      assert [rows][..0] == [];
    } else {
      ConcatFront(rows[..size], Chunks(rows[size..], size));
      ChunksCover(rows[size..], size);
    }
  }

  /** Every partition but the last is full, and the last holds what is left. */
  lemma {:induction false} ChunkSizes(rows: seq<Row>, size: nat)
    requires size > 0
    ensures
      var r := Chunks(rows, size);
      && (forall i | 0 <= i < |r| - 1 :: |r[i]| == size)
      && (if rows == [] then r == [] else r != [] && |rows| == size * (|r| - 1) + |r[|r| - 1]|)
  {
    if |rows| > size {
      ChunkSizes(rows[size..], size);
      var rest := Chunks(rows[size..], size);
      OneMore(size, |rest|);
      hide Chunks;
      FirstChunk(rows, size);
    } else if rows != [] {
      assert size * 0 == 0;
    }
  }

  lemma FirstChunk(rows: seq<Row>, size: nat)
    requires |rows| > size > 0
    ensures Chunks(rows, size) == [rows[..size]] + Chunks(rows[size..], size)
  {
  }

  lemma OneMore(size: nat, n: nat)
    ensures size * n == size * (n - 1) + size
  {
  }

  function PartitionOf(columns: seq<string>, chunk: seq<Row>, idx: nat): Partition {
    Partition(idx, |chunk|, map c | c in columns :: ZoneMap(Column(chunk, c)))
  }

  function PartitionsOf(columns: seq<string>, chunks: seq<seq<Row>>): (r: seq<Partition>)
    ensures |r| == |chunks| && forall i | 0 <= i < |r| :: r[i] == PartitionOf(columns, chunks[i], i)
  {
    seq(|chunks|, i requires 0 <= i < |chunks| => PartitionOf(columns, chunks[i], i))
  }

  lemma PartitionDescribes(columns: seq<string>, chunk: seq<Row>, idx: nat)
    ensures Describes(columns, PartitionOf(columns, chunk, idx), chunk)
  {
    hide ZoneMap, Column;
  }

  lemma PartitionsStep(columns: seq<string>, chunks: seq<seq<Row>>, n: nat)
    requires n < |chunks|
    ensures PartitionsOf(columns, chunks[..n + 1]) == PartitionsOf(columns, chunks[..n]) + [PartitionOf(columns, chunks[n], n)]
  {
    hide PartitionOf;
  }

  function PutParts(parts: map<PartKey, seq<Row>>, table: string, version: nat, chunks: seq<seq<Row>>): map<PartKey, seq<Row>> {
    if chunks == [] then parts
    else PutParts(parts, table, version, chunks[..|chunks| - 1])[(table, version, |chunks| - 1) := chunks[|chunks| - 1]]
  }

  lemma PutPartsStep(parts: map<PartKey, seq<Row>>, table: string, version: nat, chunks: seq<seq<Row>>, n: nat)
    requires n < |chunks|
    ensures PutParts(parts, table, version, chunks[..n + 1]) == PutParts(parts, table, version, chunks[..n])[(table, version, n) := chunks[n]]
  {
    assert chunks[..n + 1][..n] == chunks[..n];
  }

  /** _delete_data: the partitions a meta record lists. */
  function DropParts(parts: map<PartKey, seq<Row>>, table: string, version: nat, listed: seq<Partition>): map<PartKey, seq<Row>> {
    if listed == [] then parts
    else DropParts(parts, table, version, listed[..|listed| - 1]) - {(table, version, listed[|listed| - 1].idx)}
  }

  lemma {:induction false} PutPartsFacts(parts: map<PartKey, seq<Row>>, table: string, version: nat, chunks: seq<seq<Row>>)
    ensures
      var r := PutParts(parts, table, version, chunks);
      forall k: PartKey ::
        var added := k.0 == table && k.1 == version && k.2 < |chunks|;
        && (k in r <==> added || k in parts)
        && (k in r ==> r[k] == if added then chunks[k.2] else parts[k])
  {
    if chunks != [] {
      PutPartsFacts(parts, table, version, chunks[..|chunks| - 1]);
    }
  }

  lemma {:induction false} DropPartsFacts(parts: map<PartKey, seq<Row>>, table: string, version: nat, listed: seq<Partition>)
    requires forall i | 0 <= i < |listed| :: listed[i].idx == i
    ensures
      var r := DropParts(parts, table, version, listed);
      forall k: PartKey ::
        && (k in r <==> k in parts && !(k.0 == table && k.1 == version && k.2 < |listed|))
        && (k in r ==> r[k] == parts[k])
  {
    if listed != [] {
      DropPartsFacts(parts, table, version, listed[..|listed| - 1]);
    }
  }

  // ---------- the catalog ----------

  function Current(c: Catalog, table: string, idx: nat): PartKey
    requires table in c.metas
  {
    (table, c.metas[table].version, idx)
  }

  ghost predicate TableOk(c: Catalog, table: string)
    requires table in c.metas
  {
    var meta := c.metas[table];
    && meta.version <= VersionOf(c, table)
    && forall i | 0 <= i < |meta.partitions| ::
         && meta.partitions[i].idx == i
         && Current(c, table, i) in c.parts
         && Describes(meta.columns, meta.partitions[i], c.parts[Current(c, table, i)])
  }

  /** Every listed partition is stored and described by its zone maps, and no other partition is stored. */
  ghost predicate Valid(c: Catalog) {
    && (forall t | t in c.metas :: TableOk(c, t))
    && forall k | k in c.parts :: k.0 in c.metas && k.1 == c.metas[k.0].version && k.2 < |c.metas[k.0].partitions|
  }

  /** The rows a load of these partitions returns; a missing partition is skipped. */
  function Gather(c: Catalog, table: string, version: nat, indexes: seq<nat>): seq<Row> {
    if indexes == [] then []
    else
      var key := (table, version, indexes[|indexes| - 1]);
      Gather(c, table, version, indexes[..|indexes| - 1]) + if key in c.parts then c.parts[key] else []
  }

  function Upto(n: nat): (r: seq<nat>)
    ensures |r| == n && forall i | 0 <= i < n :: r[i] == i
  {
    seq(n, i => i)
  }

  /** The whole table. */
  function RowsOf(c: Catalog, table: string): seq<Row>
    requires table in c.metas
  {
    Gather(c, table, c.metas[table].version, Upto(|c.metas[table].partitions|))
  }

  /** A table's meta record and partitions, written under the next version. */
  function Published(c: Catalog, table: string, columns: seq<string>, rows: seq<Row>, size: nat): Catalog
    requires size > 0
  {
    var version, chunks := VersionOf(c, table) + 1, Chunks(rows, size);
    Catalog(c.versions[table := version], c.metas[table := Meta(columns, PartitionsOf(columns, chunks), version)],
            PutParts(c.parts, table, version, chunks))
  }

  function Stored(c: Catalog, table: string, columns: seq<string>, rows: seq<Row>, size: nat): Catalog
    requires size > 0
  {
    var p := Published(c, table, columns, rows, size);
    if table in c.metas then p.(parts := DropParts(p.parts, table, c.metas[table].version, c.metas[table].partitions)) else p
  }

  function Bumped(c: Catalog, table: string): Catalog {
    c.(versions := c.versions[table := VersionOf(c, table) + 1])
  }

  function Deleted(c: Catalog, table: string, meta: Meta): Catalog {
    Bumped(c.(parts := DropParts(c.parts, table, meta.version, meta.partitions), metas := c.metas - {table}), table)
  }

  lemma {:induction false} GatherSame(a: Catalog, b: Catalog, table: string, version: nat, indexes: seq<nat>)
    requires forall i | i in indexes ::
      var k := (table, version, i);
      (k in a.parts <==> k in b.parts) && (k in a.parts ==> a.parts[k] == b.parts[k])
    ensures Gather(a, table, version, indexes) == Gather(b, table, version, indexes)
  {
    if indexes != [] {
      GatherSame(a, b, table, version, indexes[..|indexes| - 1]);
    }
  }

  lemma {:induction false} GatherChunks(c: Catalog, table: string, version: nat, chunks: seq<seq<Row>>, n: nat)
    requires n <= |chunks| && forall i | 0 <= i < |chunks| :: (table, version, i) in c.parts && c.parts[(table, version, i)] == chunks[i]
    ensures Gather(c, table, version, Upto(n)) == Concat(chunks[..n])
  {
    if n > 0 {
      GatherChunks(c, table, version, chunks, n - 1);
      assert Upto(n)[..n - 1] == Upto(n - 1) && chunks[..n][..n - 1] == chunks[..n - 1];
    }
  }

  /** What a reader sees of a table depends on its meta record and the partitions that record lists. */
  predicate SameTable(a: Catalog, b: Catalog, t: string) {
    && (t in a.metas <==> t in b.metas)
    && (t in a.metas ==>
          && a.metas[t] == b.metas[t]
          && forall i | 0 <= i < |a.metas[t].partitions| ::
               var k := Current(a, t, i);
               (k in a.parts <==> k in b.parts) && (k in a.parts ==> a.parts[k] == b.parts[k]))
  }

  lemma PublishedFacts(c: Catalog, table: string, columns: seq<string>, rows: seq<Row>, size: nat)
    requires size > 0 && Valid(c)
    ensures
      var p := Published(c, table, columns, rows, size);
      && table in p.metas && TableOk(p, table) && RowsOf(p, table) == rows
      && VersionOf(p, table) == p.metas[table].version == VersionOf(c, table) + 1
      && (forall t | t != table :: SameTable(c, p, t) && VersionOf(p, t) == VersionOf(c, t))
  {
    var chunks, p := Chunks(rows, size), Published(c, table, columns, rows, size);
    ChunksCover(rows, size);
    PublishedFrame(c, table, columns, rows, size);
    assert forall i | 0 <= i < |chunks| :: Current(p, table, i) in p.parts && p.parts[Current(p, table, i)] == chunks[i] by {
      PutPartsFacts(c.parts, table, VersionOf(c, table) + 1, chunks);
    }
    hide Chunks, PartitionsOf, TableOk, RowsOf, Concat, PutParts, Valid, SameTable;
    WrittenOk(p, table, columns, chunks);
  }

  lemma PublishedFrame(c: Catalog, table: string, columns: seq<string>, rows: seq<Row>, size: nat)
    requires size > 0
    ensures
      var p := Published(c, table, columns, rows, size);
      forall t | t != table :: SameTable(c, p, t) && VersionOf(p, t) == VersionOf(c, t)
  {
    var p := Published(c, table, columns, rows, size);
    PutPartsFacts(c.parts, table, VersionOf(c, table) + 1, Chunks(rows, size));
    hide Chunks, PartitionsOf, PutParts;
    OtherTables(c, p, table);
  }

  /** Changes confined to one table's records leave every other table as it was. */
  lemma OtherTables(a: Catalog, b: Catalog, table: string)
    requires forall t | t != table :: (t in a.metas <==> t in b.metas) && (t in a.metas ==> a.metas[t] == b.metas[t])
    requires forall k: PartKey | k.0 != table :: (k in a.parts <==> k in b.parts) && (k in a.parts ==> a.parts[k] == b.parts[k])
    ensures forall t | t != table :: SameTable(a, b, t)
  {
  }

  /** A table whose partitions have just been written is in order and reads back as the rows they were cut from. */
  lemma WrittenOk(p: Catalog, table: string, columns: seq<string>, chunks: seq<seq<Row>>)
    requires table in p.metas && p.metas[table] == Meta(columns, PartitionsOf(columns, chunks), VersionOf(p, table))
    requires forall i | 0 <= i < |chunks| :: Current(p, table, i) in p.parts && p.parts[Current(p, table, i)] == chunks[i]
    ensures TableOk(p, table) && RowsOf(p, table) == Concat(chunks)
  {
    var meta := p.metas[table];
    forall i | 0 <= i < |meta.partitions|
      ensures meta.partitions[i].idx == i && Describes(columns, meta.partitions[i], chunks[i])
    {
      ListedPartition(columns, chunks, i);
    }
    assert TableOk(p, table) by {
      hide Describes, PartitionsOf;
    }
    WrittenRows(p, table, chunks);
  }

  lemma WrittenRows(p: Catalog, table: string, chunks: seq<seq<Row>>)
    requires table in p.metas && |p.metas[table].partitions| == |chunks|
    requires forall i | 0 <= i < |chunks| :: Current(p, table, i) in p.parts && p.parts[Current(p, table, i)] == chunks[i]
    ensures RowsOf(p, table) == Concat(chunks)
  {
    var version := p.metas[table].version;
    hide Gather, Concat, Upto;
    forall i | 0 <= i < |chunks|
      ensures (table, version, i) in p.parts && p.parts[(table, version, i)] == chunks[i]
    {
      assert Current(p, table, i) == (table, version, i);
    }
    GatherChunks(p, table, version, chunks, |chunks|);
    assert chunks[..|chunks|] == chunks;
  }

  lemma ListedPartition(columns: seq<string>, chunks: seq<seq<Row>>, i: nat)
    requires i < |chunks|
    ensures PartitionsOf(columns, chunks)[i].idx == i && Describes(columns, PartitionsOf(columns, chunks)[i], chunks[i])
  {
    PartitionDescribes(columns, chunks[i], i);
    hide Describes, ZoneMap, Column;
    assert PartitionsOf(columns, chunks)[i] == PartitionOf(columns, chunks[i], i);
  }

  /** Storing keeps the catalog in order: the new rows are the table, the old partitions are gone, others untouched. */
  lemma StoredFacts(c: Catalog, table: string, columns: seq<string>, rows: seq<Row>, size: nat)
    requires size > 0 && Valid(c)
    ensures
      var s := Stored(c, table, columns, rows, size);
      && Valid(s) && table in s.metas && RowsOf(s, table) == rows && s.metas[table].columns == columns
      && VersionOf(s, table) == s.metas[table].version == VersionOf(c, table) + 1
      && (forall t | t != table :: SameTable(c, s, t) && VersionOf(s, t) == VersionOf(c, t))
  {
    PublishedFacts(c, table, columns, rows, size);
    var p, s := Published(c, table, columns, rows, size), Stored(c, table, columns, rows, size);
    StoredParts(c, table, columns, rows, size);
    hide Describes, Chunks, Published, Stored, PutParts;
    assert s.metas == p.metas && s.versions == p.versions by {
      StoredMetas(c, table, columns, rows, size);
    }
    GatherSame(p, s, table, s.metas[table].version, Upto(|s.metas[table].partitions|));
    forall t | t in s.metas
      ensures TableOk(s, t)
    {
      assert t != table ==> TableOk(c, t) && SameTable(c, p, t);
      assert TableOk(p, table);
    }
  }

  /** The meta record counts the rows of each partition and has a zone map for every column. */
  lemma StoredCounts(c: Catalog, table: string, columns: seq<string>, rows: seq<Row>, size: nat)
    requires size > 0 && Valid(c)
    ensures
      var s := Stored(c, table, columns, rows, size);
      table in s.metas &&
      forall i | 0 <= i < |s.metas[table].partitions| ::
        && Current(s, table, i) in s.parts && s.metas[table].partitions[i].rowCount == |s.parts[Current(s, table, i)]|
        && s.metas[table].partitions[i].zones.Keys == set c | c in columns
  {
    hide Chunks, Stored, Valid, PartitionsOf;
    var s, chunks := Stored(c, table, columns, rows, size), Chunks(rows, size);
    NewMeta(c, table, columns, rows, size);
    StoredChunks(c, table, columns, rows, size);
    forall i | 0 <= i < |chunks|
      ensures
        var part := PartitionsOf(columns, chunks)[i];
        part.rowCount == |chunks[i]| && part.zones.Keys == set c | c in columns
    {
      assert PartitionsOf(columns, chunks)[i] == PartitionOf(columns, chunks[i], i);
    }
  }

  lemma NewMeta(c: Catalog, table: string, columns: seq<string>, rows: seq<Row>, size: nat)
    requires size > 0
    ensures
      var s := Stored(c, table, columns, rows, size);
      table in s.metas && s.metas[table] == Meta(columns, PartitionsOf(columns, Chunks(rows, size)), VersionOf(c, table) + 1)
  {
  }

  lemma StoredChunks(c: Catalog, table: string, columns: seq<string>, rows: seq<Row>, size: nat)
    requires size > 0 && Valid(c)
    ensures
      var s, version, chunks := Stored(c, table, columns, rows, size), VersionOf(c, table) + 1, Chunks(rows, size);
      forall i | 0 <= i < |chunks| :: (table, version, i) in s.parts && s.parts[(table, version, i)] == chunks[i]
  {
    hide Chunks, PutParts, Stored, Valid;
    StoredParts(c, table, columns, rows, size);
    PutPartsFacts(c.parts, table, VersionOf(c, table) + 1, Chunks(rows, size));
  }

  lemma StoredMetas(c: Catalog, table: string, columns: seq<string>, rows: seq<Row>, size: nat)
    requires size > 0
    ensures
      var p, s := Published(c, table, columns, rows, size), Stored(c, table, columns, rows, size);
      s.metas == p.metas && s.versions == p.versions && p.metas[table].columns == columns
      && |p.metas[table].partitions| == |Chunks(rows, size)|
  {
  }

  /** After a store the partitions of a table are the new ones, and those of other tables are unchanged. */
  lemma StoredParts(c: Catalog, table: string, columns: seq<string>, rows: seq<Row>, size: nat)
    requires size > 0 && Valid(c)
    ensures
      var p, s := Published(c, table, columns, rows, size), Stored(c, table, columns, rows, size);
      var version, n := VersionOf(c, table) + 1, |Chunks(rows, size)|;
      && (forall k: PartKey | k.0 == table :: (k in s.parts <==> k.1 == version && k.2 < n) && (k in s.parts ==> k in p.parts && s.parts[k] == p.parts[k]))
      && (forall k: PartKey | k.0 != table :: (k in s.parts <==> k in c.parts) && (k in s.parts ==> s.parts[k] == c.parts[k]))
  {
    var p := Published(c, table, columns, rows, size);
    PutPartsFacts(c.parts, table, VersionOf(c, table) + 1, Chunks(rows, size));
    if table in c.metas {
      assert TableOk(c, table);
      DropPartsFacts(p.parts, table, c.metas[table].version, c.metas[table].partitions);
    }
    hide Describes, Chunks;
  }

  lemma DeletedFacts(c: Catalog, table: string, meta: Meta)
    requires Valid(c) && table in c.metas && meta == c.metas[table]
    ensures
      var d := Deleted(c, table, meta);
      && Valid(d) && table !in d.metas && VersionOf(d, table) == VersionOf(c, table) + 1
      && (forall t | t != table :: SameTable(c, d, t) && VersionOf(d, t) == VersionOf(c, t))
  {
    assert TableOk(c, table);
    DropPartsFacts(c.parts, table, meta.version, meta.partitions);
    hide Describes;
    var d := Deleted(c, table, meta);
    forall t | t in d.metas
      ensures TableOk(d, t)
    {
      assert TableOk(c, t);
    }
  }

  // ---------- pruning over the stored table ----------

  /** The answer over the rows of some partitions. */
  function AnswerOf(c: Catalog, table: string, lower: Lower, engine: Engine, where: Where, indexes: seq<nat>): seq<Row>
    requires table in c.metas
  {
    Answer(engine, lower, c.metas[table].columns, Gather(c, table, c.metas[table].version, indexes), where)
  }

  /** The partitions loaded for a name-wise weaker set of predicates answer the full WHERE clause. */
  lemma PruningChangesNoAnswer(c: Catalog, table: string, lower: Lower, engine: Engine, few: seq<Predicate>, where: Where)
    requires Valid(c) && table in c.metas && Weaker(few, where.preds)
    ensures
      var meta := c.metas[table];
      var loaded := Gather(c, table, meta.version, Selected(lower, meta.columns, meta.partitions, few));
      Answer(engine, lower, meta.columns, loaded, where) == Answer(engine, lower, meta.columns, RowsOf(c, table), where)
  {
    var meta := c.metas[table];
    assert TableOk(c, table);
    hide TableOk, Weaker, Answer, Gather, Selected, Upto;
    PruningPrefix(c, table, lower, engine, few, where, |meta.partitions|);
    assert meta.partitions[..|meta.partitions|] == meta.partitions;
  }

  lemma {:induction false} PruningPrefix(c: Catalog, table: string, lower: Lower, engine: Engine, few: seq<Predicate>, where: Where, n: nat)
    requires table in c.metas && TableOk(c, table) && Weaker(few, where.preds) && n <= |c.metas[table].partitions|
    ensures AnswerOf(c, table, lower, engine, where, Selected(lower, c.metas[table].columns, c.metas[table].partitions[..n], few))
         == AnswerOf(c, table, lower, engine, where, Upto(n))
  {
    hide AnswerOf, Weaker, Loads, Describes;
    var meta := c.metas[table];
    if n == 0 {
      assert Upto(0) == [];
    } else {
      PruningPrefix(c, table, lower, engine, few, where, n - 1);
      SelectedStep(lower, meta.columns, meta.partitions, few, n - 1);
      var picked := Selected(lower, meta.columns, meta.partitions[..n - 1], few);
      assert meta.partitions[n - 1].idx == n - 1;
      hide Selected, TableOk;
      PruningStep(c, table, lower, engine, few, where, n - 1, picked);
      assert Upto(n) == Upto(n - 1) + [n - 1];
      assert picked + [] == picked;
    }
  }

  lemma SelectedStep(lower: Lower, columns: seq<string>, parts: seq<Partition>, preds: seq<Predicate>, n: nat)
    requires n < |parts|
    ensures Selected(lower, columns, parts[..n + 1], preds)
         == Selected(lower, columns, parts[..n], preds) + if Loads(lower, columns, parts[n], preds) then [parts[n].idx] else []
  {
    hide Loads;
    assert parts[..n + 1][..n] == parts[..n];
  }

  /** One more partition: loaded on both sides, or skipped and without any answer. */
  lemma PruningStep(c: Catalog, table: string, lower: Lower, engine: Engine, few: seq<Predicate>, where: Where, n: nat, picked: seq<nat>)
    requires table in c.metas && TableOk(c, table) && Weaker(few, where.preds) && n < |c.metas[table].partitions|
    requires AnswerOf(c, table, lower, engine, where, picked) == AnswerOf(c, table, lower, engine, where, Upto(n))
    ensures
      var loads := Loads(lower, c.metas[table].columns, c.metas[table].partitions[n], few);
      AnswerOf(c, table, lower, engine, where, if loads then picked + [n] else picked)
        == AnswerOf(c, table, lower, engine, where, Upto(n) + [n])
  {
    var meta := c.metas[table];
    var part, rows := meta.partitions[n], c.parts[Current(c, table, n)];
    assert Describes(meta.columns, part, rows);
    hide Describes, TableOk, Loads, Answer, Weaker, Gather, Upto;
    GatherStep(c, table, meta.version, Upto(n), n);
    AnswerConcat(engine, lower, meta.columns, Gather(c, table, meta.version, Upto(n)), rows, where);
    if Loads(lower, meta.columns, part, few) {
      GatherStep(c, table, meta.version, picked, n);
      AnswerConcat(engine, lower, meta.columns, Gather(c, table, meta.version, picked), rows, where);
    } else {
      if Loads(lower, meta.columns, part, where.preds) {
        FewerPredicatesLoadMore(lower, meta.columns, part, few, where.preds);
      }
      SkippedIsSilent(engine, lower, meta.columns, part, rows, where);
    }
  }

  lemma GatherStep(c: Catalog, table: string, version: nat, indexes: seq<nat>, i: nat)
    ensures Gather(c, table, version, indexes + [i])
         == Gather(c, table, version, indexes) + if (table, version, i) in c.parts then c.parts[(table, version, i)] else []
  {
    assert (indexes + [i])[..|indexes|] == indexes;
  }

  // ---------- the object ----------

  predicate CaseCollision(lower: Lower, columns: seq<string>) {
    exists i, j | 0 <= i < j < |columns| :: lower(columns[i]) == lower(columns[j])
  }

  /** sorted(indexes). */
  function InsertIndex(s: seq<nat>, x: nat): (r: seq<nat>)
    ensures multiset(r) == multiset(s) + multiset{x}
  {
    if s == [] || x < s[0] then [x] + s
    else
      assert s == [s[0]] + s[1..];
      [s[0]] + InsertIndex(s[1..], x)
  }

  function SortIndexes(s: seq<nat>): (r: seq<nat>)
    ensures multiset(r) == multiset(s)
  {
    if s == [] then []
    else
      assert s == s[..|s| - 1] + [s[|s| - 1]];
      InsertIndex(SortIndexes(s[..|s| - 1]), s[|s| - 1])
  }

  predicate Ascending(s: seq<nat>) {
    forall i, j | 0 <= i < j < |s| :: s[i] < s[j]
  }

  predicate Rising(s: seq<nat>) {
    forall i, j | 0 <= i < j < |s| :: s[i] <= s[j]
  }

  lemma {:induction false} InsertKeepsOrder(s: seq<nat>, x: nat)
    requires Rising(s)
    ensures Rising(InsertIndex(s, x))
  {
    if s != [] && x >= s[0] {
      InsertKeepsOrder(s[1..], x);
      var rest := InsertIndex(s[1..], x);
      forall i | 0 <= i < |rest|
        ensures s[0] <= rest[i]
      {
        assert rest[i] in multiset(rest);
        assert rest[i] == x || rest[i] in s[1..];
      }
    }
  }

  /** Loading goes in ascending order of the indexes, whatever the order asked for. */
  lemma {:induction false} SortIndexesSorts(s: seq<nat>)
    ensures Rising(SortIndexes(s))
  {
    if s != [] {
      SortIndexesSorts(s[..|s| - 1]);
      InsertKeepsOrder(SortIndexes(s[..|s| - 1]), s[|s| - 1]);
    }
  }

  lemma {:induction false} InsertGreatest(s: seq<nat>, x: nat)
    requires forall i | 0 <= i < |s| :: s[i] < x
    ensures InsertIndex(s, x) == s + [x]
  {
    if s != [] {
      assert s == [s[0]] + s[1..];
      InsertGreatest(s[1..], x);
    }
  }

  lemma {:induction false} SortAscending(s: seq<nat>)
    requires Ascending(s)
    ensures SortIndexes(s) == s
  {
    if s != [] {
      SortAscending(s[..|s| - 1]);
      InsertGreatest(s[..|s| - 1], s[|s| - 1]);
    }
  }

  /** Selected partitions come in ascending order, so loading them in sorted order is loading them as selected. */
  lemma {:induction false} SelectedAscends(lower: Lower, columns: seq<string>, parts: seq<Partition>, preds: seq<Predicate>)
    requires forall i | 0 <= i < |parts| :: parts[i].idx == i
    ensures
      var s := Selected(lower, columns, parts, preds);
      Ascending(s) && forall i | 0 <= i < |s| :: s[i] < |parts|
  {
    hide Loads;
    if parts != [] {
      SelectedAscends(lower, columns, parts[..|parts| - 1], preds);
    }
  }

  class TableStorage {
    const lower: Lower
    var versions: map<string, nat>
    var metas: map<string, Meta>
    var parts: map<PartKey, seq<Row>>

    constructor (lower: Lower)
      ensures this.lower == lower && View() == Catalog(map[], map[], map[])
    {
      this.lower := lower;
      versions, metas, parts := map[], map[], map[];
    }

    function View(): Catalog
      reads this
    {
      Catalog(versions, metas, parts)
    }

    method BumpVersion(table: string) returns (version: nat)
      modifies this`versions
      ensures View() == Bumped(old(View()), table) && version == VersionOf(View(), table)
    {
      version := (if table in versions then versions[table] else 0) + 1;
      versions := versions[table := version];
    }

    /**
     store_table on cleaned rows. Names that collide by case are refused before anything is written;
     a partition size that is not positive is refused after the version was bumped.
     */
    method StoreTable(table: string, columns: seq<string>, rows: seq<Row>, size: int) returns (meta: Option<Meta>)
      requires Valid(View())
      modifies this
      ensures Valid(View())
      ensures meta.Some? <==> !CaseCollision(lower, columns) && size > 0
      ensures meta.Some? ==> View() == Stored(old(View()), table, columns, rows, size) && table in metas && metas[table] == meta.value
      ensures meta.Some? ==> RowsOf(View(), table) == rows && meta.value.version > old(VersionOf(View(), table))
      ensures meta.None? ==> View() == if CaseCollision(lower, columns) then old(View()) else Bumped(old(View()), table)
    {
      var before := View();
      if CaseCollision(lower, columns) {
        return None;
      }
      var version := BumpVersion(table);
      if size <= 0 {
        BumpKeepsValid(before, table);
        return None;
      }
      StoredFacts(before, table, columns, rows, size);
      var listed := WriteParts(table, columns, rows, size, version);
      var written := Meta(columns, listed, version);
      metas := metas[table := written];
      if table in before.metas {
        DeleteData(table, before.metas[table]);
      }
      meta := Some(written);
    }

    /** The partition loop of store_table. */
    method WriteParts(table: string, columns: seq<string>, rows: seq<Row>, size: nat, version: nat) returns (listed: seq<Partition>)
      requires size > 0
      modifies this`parts
      ensures listed == PartitionsOf(columns, Chunks(rows, size))
      ensures parts == PutParts(old(parts), table, version, Chunks(rows, size))
    {
      assert Chunks(rows[|rows|..], size) == [];
      hide Chunks, PartitionOf, PartitionsOf, PutParts;
      NothingWritten(parts, table, version, columns);
      listed := [];
      ghost var chunks := Chunks(rows, size);
      var start, idx := 0, 0;
      while start < |rows|
        invariant start <= |rows| && idx <= |chunks| && chunks[idx..] == Chunks(rows[start..], size)
        invariant listed == PartitionsOf(columns, chunks[..idx])
        invariant parts == PutParts(old(parts), table, version, chunks[..idx])
      {
        var end := if start + size <= |rows| then start + size else |rows|;
        var chunk := rows[start..end];
        NextChunk(rows, size, start, chunks, idx);
        PutPartsStep(old(parts), table, version, chunks, idx);
        parts := parts[(table, version, idx) := chunk];
        listed := listed + [PartitionOf(columns, chunk, idx)];
        PartitionsStep(columns, chunks, idx);
        assert chunks[idx..][1..] == chunks[idx + 1..];
        start, idx := end, idx + 1;
      }
      assert chunks[..idx] == chunks;
    }

    static lemma NothingWritten(parts: map<PartKey, seq<Row>>, table: string, version: nat, columns: seq<string>)
      ensures PartitionsOf(columns, []) == [] && PutParts(parts, table, version, []) == parts
    {
    }

    static lemma NextChunk(rows: seq<Row>, size: nat, start: nat, chunks: seq<seq<Row>>, idx: nat)
      requires size > 0 && start < |rows| && idx <= |chunks| && chunks[idx..] == Chunks(rows[start..], size)
      ensures
        var end := if start + size <= |rows| then start + size else |rows|;
        idx < |chunks| && chunks[idx] == rows[start..end] && chunks[idx..][1..] == Chunks(rows[end..], size)
    {
      var rest := rows[start..];
      assert chunks[idx] == chunks[idx..][0];
      if |rest| <= size {
        assert rows[start..|rows|] == rest && rows[|rows|..] == [] && [rest][1..] == Chunks([], size);
      } else {
        assert rest[..size] == rows[start..start + size] && rest[size..] == rows[start + size..];
      }
    }

    method DeleteData(table: string, meta: Meta)
      modifies this`parts
      ensures parts == DropParts(old(parts), table, meta.version, meta.partitions)
    {
      for i := 0 to |meta.partitions|
        invariant parts == DropParts(old(parts), table, meta.version, meta.partitions[..i])
      {
        parts := parts - {(table, meta.version, meta.partitions[i].idx)};
        assert meta.partitions[..i + 1][..i] == meta.partitions[..i];
      }
      assert meta.partitions[..|meta.partitions|] == meta.partitions;
    }

    /** delete_table, with the meta record its caller has read. */
    method DeleteTable(table: string, meta: Meta)
      modifies this
      ensures View() == Deleted(old(View()), table, meta)
      ensures old(Valid(View()) && table in metas && metas[table] == meta) ==> Valid(View()) && table !in metas
    {
      if Valid(View()) && table in metas && metas[table] == meta {
        DeletedFacts(View(), table, meta);
      }
      DeleteData(table, meta);
      metas := metas - {table};
      var _ := BumpVersion(table);
    }

    /** load_partitions. */
    method LoadPartitions(table: string, meta: Meta, indexes: seq<nat>) returns (rows: seq<Row>)
      ensures rows == Gather(View(), table, meta.version, SortIndexes(indexes))
    {
      rows := [];
      var order := SortIndexes(indexes);
      for i := 0 to |order|
        invariant rows == Gather(View(), table, meta.version, order[..i])
      {
        var key := (table, meta.version, order[i]);
        if key in parts {
          rows := rows + parts[key];
        }
        assert order[..i + 1][..i] == order[..i];
      }
      assert order[..|order|] == order;
    }

    /** Select, load: what a query sees of one table, and what its WHERE clause makes of it. */
    method LoadForQuery(table: string, preds: seq<Predicate>, ghost engine: Engine, ghost where: Where) returns (rows: seq<Row>)
      requires Valid(View()) && table in metas && where.preds == preds
      ensures Answer(engine, lower, metas[table].columns, rows, where)
           == Answer(engine, lower, metas[table].columns, RowsOf(View(), table), where)
    {
      var meta := metas[table];
      assert TableOk(View(), table);
      hide Describes, Loads, Answer, Gather;
      var selected, _ := SelectPartitions(lower, meta, preds);
      rows := LoadPartitions(table, meta, selected);
      SelectedAscends(lower, meta.columns, meta.partitions, preds);
      SortAscending(selected);
      PruningChangesNoAnswer(View(), table, lower, engine, preds, where);
    }
  }

  lemma BumpKeepsValid(c: Catalog, table: string)
    requires Valid(c)
    ensures Valid(Bumped(c, table))
  {
    var b := Bumped(c, table);
    forall t | t in b.metas
      ensures TableOk(b, t)
    {
      assert TableOk(c, t);
    }
  }
}
