/**
 Queries over versioned tables with the result cache in front, next to uploads and deletes. A query reads
 one meta record, then one partition at a time; uploads and deletes hold a common lock, but their writes to
 the store become visible one after the other.
 */
module CachedQueries {
  import opened Options
  import opened Pruning
  import opened TableStores
  import Cache = ResultCaches

  type QueryId = nat
  type Payload = seq<Row>

  /** One loaded table, with the meta record it was loaded by. */
  datatype Frame = Frame(table: string, meta: Meta, rows: seq<Row>)

  /** What is fixed: the reading of the SQL text, its execution over frames, and the cache capacity. */
  datatype Planner = Planner(
    tables: string -> seq<string>,
    preds: string -> seq<Predicate>,
    lower: Lower,
    less: (string, string) -> bool,
    run: (string, seq<Frame>) -> Payload,
    capacity: nat)

  /** A query under way: meta records read, tables loaded, and rows of the next table so far. */
  datatype Flight = Flight(sql: string, metas: seq<Meta>, frames: seq<Frame>, rows: seq<Row>, next: nat)

  datatype System = System(
    c: Catalog,
    deleting: set<string>,                  // tables whose partitions are being removed
    cache: seq<Cache.Entry<Payload>>,
    queries: map<QueryId, Flight>)

  datatype Step =
    | Publish(table: string, columns: seq<string>, rows: seq<Row>, size: nat)
    | FailedUpload(table: string)
    | DropStale(key: PartKey)
    | StartDelete(table: string)
    | DropCurrent(key: PartKey)
    | RemoveMeta(table: string)
    | FinishDelete(table: string)
    | Begin(q: QueryId, sql: string)
    | ReadMeta(q: QueryId)
    | Serve(q: QueryId, now: int)
    | LoadPart(q: QueryId)
    | NextTable(q: QueryId)
    | Finish(q: QueryId, expiresAt: int)
    | Abandon(q: QueryId)
    | Clear

  // ---------- a query ----------

  /** Only single-table queries are pruned. */
  function PartsToLoad(pl: Planner, sql: string, meta: Meta): seq<nat> {
    Selected(pl.lower, meta.columns, meta.partitions, if |pl.tables(sql)| == 1 then pl.preds(sql) else [])
  }

  function FrameOf(pl: Planner, c: Catalog, sql: string, table: string): Frame
    requires table in c.metas
  {
    var meta := c.metas[table];
    Frame(table, meta, Gather(c, table, meta.version, PartsToLoad(pl, sql, meta)))
  }

  predicate AllPresent(c: Catalog, tables: seq<string>) {
    forall i | 0 <= i < |tables| :: tables[i] in c.metas
  }

  /** What executing the statement on this catalog returns. */
  function Execute(pl: Planner, c: Catalog, sql: string): Payload
    requires AllPresent(c, pl.tables(sql))
  {
    var tables := pl.tables(sql);
    pl.run(sql, seq(|tables|, i requires 0 <= i < |tables| => FrameOf(pl, c, sql, tables[i])))
  }

  function VersionsOf(tables: seq<string>, metas: seq<Meta>): (r: seq<Cache.Versioned>)
    requires |metas| == |tables|
    ensures |r| == |tables| && forall i | 0 <= i < |r| :: r[i] == (tables[i], metas[i].version)
  {
    seq(|tables|, i requires 0 <= i < |tables| => (tables[i], metas[i].version))
  }

  function KeyOf(pl: Planner, sql: string, metas: seq<Meta>): string
    requires |metas| == |pl.tables(sql)|
  {
    Cache.KeyText(pl.less, sql, VersionsOf(pl.tables(sql), metas))
  }

  function CurrentMetas(c: Catalog, tables: seq<string>): (r: seq<Meta>)
    requires AllPresent(c, tables)
    ensures |r| == |tables| && forall i | 0 <= i < |r| :: r[i] == c.metas[tables[i]]
  {
    seq(|tables|, i requires 0 <= i < |tables| => c.metas[tables[i]])
  }

  /** Table names passed the name check, and extraction lists each table once. */
  predicate Admissible(tables: seq<string>) {
    && (forall i | 0 <= i < |tables| :: Cache.SafeName(tables[i]))
    && forall i, j | 0 <= i < j < |tables| :: tables[i] != tables[j]
  }

  // ---------- steps ----------

  ghost predicate IsStore(s: System, step: Step, s': System) {
    && s'.cache == s.cache && s'.queries == s.queries
    && match step
       case Publish(t, columns, rows, size) =>
         s.deleting == {} && size > 0 && s' == s.(c := Published(s.c, t, columns, rows, size))
       case FailedUpload(t) => s.deleting == {} && s' == s.(c := Bumped(s.c, t))
       case DropStale(key) =>
         && (key.0 in s.c.metas ==> key.1 != s.c.metas[key.0].version)
         && s' == s.(c := s.c.(parts := s.c.parts - {key}))
       case StartDelete(t) => s.deleting == {} && t in s.c.metas && s' == s.(deleting := {t})
       case DropCurrent(key) => key.0 in s.deleting && s' == s.(c := s.c.(parts := s.c.parts - {key}))
       case RemoveMeta(t) => t in s.deleting && s' == s.(c := s.c.(metas := s.c.metas - {t}))
       case FinishDelete(t) =>
         t in s.deleting && t !in s.c.metas && s' == s.(c := Bumped(s.c, t), deleting := s.deleting - {t})
       case _ => false
  }

  ghost predicate IsQuery(pl: Planner, s: System, step: Step, s': System) {
    && s'.c == s.c && s'.deleting == s.deleting
    && match step
       case Begin(q, sql) =>
         && q !in s.queries && Admissible(pl.tables(sql))
         && s' == s.(queries := s.queries[q := Flight(sql, [], [], [], 0)])
       case ReadMeta(q) =>
         && q in s.queries && var f := s.queries[q];
         && |f.metas| < |pl.tables(f.sql)| && pl.tables(f.sql)[|f.metas|] in s.c.metas
         && s' == s.(queries := s.queries[q := f.(metas := f.metas + [s.c.metas[pl.tables(f.sql)[|f.metas|]]])])
       case Serve(q, now) =>
         && q in s.queries && var f := s.queries[q];
         && |f.metas| == |pl.tables(f.sql)|
         && var (entries, hit) := Cache.Get(s.cache, KeyOf(pl, f.sql, f.metas), now);
         && s' == s.(cache := entries, queries := if hit.Some? then s.queries - {q} else s.queries)
       case LoadPart(q) =>
         && q in s.queries && var f := s.queries[q];
         && |f.metas| == |pl.tables(f.sql)| && |f.frames| < |f.metas|
         && var meta := f.metas[|f.frames|];
         && f.next < |PartsToLoad(pl, f.sql, meta)|
         && var key := (pl.tables(f.sql)[|f.frames|], meta.version, PartsToLoad(pl, f.sql, meta)[f.next]);
         && s' == s.(queries := s.queries[q := f.(rows := f.rows + if key in s.c.parts then s.c.parts[key] else [], next := f.next + 1)])
       case NextTable(q) =>
         && q in s.queries && var f := s.queries[q];
         && |f.metas| == |pl.tables(f.sql)| && |f.frames| < |f.metas|
         && var meta := f.metas[|f.frames|];
         && f.next == |PartsToLoad(pl, f.sql, meta)|
         && s' == s.(queries := s.queries[q := f.(frames := f.frames + [Frame(pl.tables(f.sql)[|f.frames|], meta, f.rows)], rows := [], next := 0)])
       case Finish(q, expiresAt) =>
         && q in s.queries && var f := s.queries[q];
         && |f.metas| == |pl.tables(f.sql)| && |f.frames| == |f.metas|
         && var e := Cache.Entry(KeyOf(pl, f.sql, f.metas), expiresAt, pl.run(f.sql, f.frames));
         && s' == s.(cache := Cache.Put(s.cache, e, pl.capacity), queries := s.queries - {q})
       case Abandon(q) => s' == s.(queries := s.queries - {q})
       case Clear => s' == s.(cache := [])
       case _ => false
  }

  ghost predicate Next(pl: Planner, s: System, step: Step, s': System) {
    IsStore(s, step, s') || IsQuery(pl, s, step, s')
  }

  ghost predicate Init(s: System) {
    s == System(Catalog(map[], map[], map[]), {}, [], map[])
  }

  ghost predicate IsRun(pl: Planner, run: seq<System>, steps: seq<Step>) {
    && |run| == |steps| + 1 && Init(run[0])
    && forall i | 0 <= i < |steps| :: Next(pl, run[i], steps[i], run[i + 1])
  }

  // ---------- what a step does to one table ----------

  /** The table is in use, at this version. */
  predicate Live(s: System, t: string, version: nat) {
    t in s.c.metas && t !in s.deleting && s.c.metas[t].version == version
  }

  /** A version counter never falls, and a table live after a step is unchanged by it or has a version never used before. */
  ghost predicate Progress(s: System, s': System, t: string) {
    && VersionOf(s.c, t) <= VersionOf(s'.c, t)
    && forall v: nat | Live(s', t, v) :: v > VersionOf(s.c, t) || (Live(s, t, v) && SameTable(s.c, s'.c, t))
  }

  lemma StoreProgress(s: System, step: Step, s': System, t: string)
    requires IsStore(s, step, s')
    ensures Progress(s, s', t)
  {
    match step
    case Publish(table, columns, rows, size) =>
      PublishedFrame(s.c, table, columns, rows, size);
      hide Chunks, PartitionsOf, PutParts;
    case _ =>
  }

  lemma StepProgress(pl: Planner, s: System, step: Step, s': System, t: string)
    requires Next(pl, s, step, s')
    ensures Progress(s, s', t)
  {
    hide IsStore;
    if IsStore(s, step, s') {
      StoreProgress(s, step, s', t);
    } else {
      hide Cache.Get, Cache.Put, KeyOf, PartsToLoad;
    }
  }

  // ---------- invariants ----------

  /** Meta records carry versions already counted, and number their partitions from 0. */
  ghost predicate MetasOk(c: Catalog) {
    forall t | t in c.metas :: c.metas[t].version <= VersionOf(c, t) && Numbered(c.metas[t].partitions)
  }

  predicate Numbered(parts: seq<Partition>) {
    forall i | 0 <= i < |parts| :: parts[i].idx == i
  }

  /** What has been loaded is what would be loaded now, as far as the tables still have the versions read. */
  ghost predicate FlightOk(pl: Planner, s: System, f: Flight) {
    var tables := pl.tables(f.sql);
    && Admissible(tables) && |f.frames| <= |f.metas| <= |tables|
    && (|f.metas| < |tables| ==> f.frames == [])
    && (forall i | 0 <= i < |f.metas| :: MetaOk(s, tables[i], f.metas[i]))
    && (forall i | 0 <= i < |f.frames| :: FrameOk(pl, s, f.sql, tables[i], f.metas[i], f.frames[i]))
    && (|f.frames| < |f.metas| ==> PartialOk(pl, s, f.sql, tables[|f.frames|], f.metas[|f.frames|], f.rows, f.next))
    && (f.frames == [] && |f.metas| < |tables| ==> f.rows == [] && f.next == 0)
  }

  predicate MetaOk(s: System, t: string, meta: Meta) {
    meta.version <= VersionOf(s.c, t) && (Live(s, t, meta.version) ==> s.c.metas[t] == meta)
  }

  predicate FrameOk(pl: Planner, s: System, sql: string, t: string, meta: Meta, frame: Frame) {
    Live(s, t, meta.version) ==> frame == FrameOf(pl, s.c, sql, t)
  }

  predicate PartialOk(pl: Planner, s: System, sql: string, t: string, meta: Meta, rows: seq<Row>, next: nat) {
    && next <= |PartsToLoad(pl, sql, meta)|
    && (Live(s, t, meta.version) ==> rows == Gather(s.c, t, meta.version, PartsToLoad(pl, sql, meta)[..next]))
  }

  /** The entry was computed for this statement at these versions, and is right while they are current. */
  ghost predicate MadeFor(pl: Planner, s: System, e: Cache.Entry<Payload>, sql: string, metas: seq<Meta>) {
    var tables := pl.tables(sql);
    && Admissible(tables) && |metas| == |tables| && e.key == KeyOf(pl, sql, metas)
    && (forall i | 0 <= i < |tables| :: metas[i].version <= VersionOf(s.c, tables[i]))
    && ((forall i | 0 <= i < |tables| :: Live(s, tables[i], metas[i].version)) ==>
          AllPresent(s.c, tables) && e.payload == Execute(pl, s.c, sql))
  }

  ghost predicate EntryOk(pl: Planner, s: System, e: Cache.Entry<Payload>) {
    exists sql, metas :: MadeFor(pl, s, e, sql, metas)
  }

  ghost predicate Inv(pl: Planner, s: System) {
    && MetasOk(s.c)
    && (forall q | q in s.queries :: FlightOk(pl, s, s.queries[q]))
    && (forall e | e in s.cache :: EntryOk(pl, s, e))
    && Cache.Distinct(s.cache) && |s.cache| <= pl.capacity
  }

  // ---------- loads see only the table ----------

  lemma {:induction false} GatherWithin(a: Catalog, b: Catalog, t: string, indexes: seq<nat>)
    requires t in a.metas && SameTable(a, b, t) && forall i | 0 <= i < |indexes| :: indexes[i] < |a.metas[t].partitions|
    ensures Gather(a, t, a.metas[t].version, indexes) == Gather(b, t, a.metas[t].version, indexes)
  {
    forall i | i in indexes
      ensures var k := (t, a.metas[t].version, i);
              (k in a.parts <==> k in b.parts) && (k in a.parts ==> a.parts[k] == b.parts[k])
    {
      assert Current(a, t, i) == (t, a.metas[t].version, i);
    }
    GatherSame(a, b, t, a.metas[t].version, indexes);
  }

  /** A table that stayed the same is loaded the same, whole or in part. */
  lemma LoadsSame(pl: Planner, a: Catalog, b: Catalog, sql: string, t: string, next: nat)
    requires t in a.metas && SameTable(a, b, t) && Numbered(a.metas[t].partitions)
    requires next <= |PartsToLoad(pl, sql, a.metas[t])|
    ensures FrameOf(pl, a, sql, t) == FrameOf(pl, b, sql, t)
    ensures
      var meta := a.metas[t];
      Gather(a, t, meta.version, PartsToLoad(pl, sql, meta)[..next]) == Gather(b, t, meta.version, PartsToLoad(pl, sql, meta)[..next])
  {
    var meta := a.metas[t];
    var order := PartsToLoad(pl, sql, meta);
    SelectedAscends(pl.lower, meta.columns, meta.partitions, if |pl.tables(sql)| == 1 then pl.preds(sql) else []);
    hide PartsToLoad;
    GatherWithin(a, b, t, order);
    GatherWithin(a, b, t, order[..next]);
  }

  // ---------- what a step keeps ----------

  lemma MetaKept(s: System, s': System, t: string, meta: Meta)
    requires Progress(s, s', t) && MetaOk(s, t, meta)
    ensures MetaOk(s', t, meta)
    ensures Live(s', t, meta.version) ==> Live(s, t, meta.version) && SameTable(s.c, s'.c, t)
  {
  }

  lemma FrameKept(pl: Planner, s: System, s': System, sql: string, t: string, meta: Meta, frame: Frame)
    requires MetasOk(s.c) && Progress(s, s', t) && MetaOk(s, t, meta) && FrameOk(pl, s, sql, t, meta, frame)
    ensures FrameOk(pl, s', sql, t, meta, frame)
  {
    MetaKept(s, s', t, meta);
    hide Progress, SameTable, FrameOf;
    if Live(s', t, meta.version) {
      LoadsSame(pl, s.c, s'.c, sql, t, 0);
    }
  }

  lemma PartialKept(pl: Planner, s: System, s': System, sql: string, t: string, meta: Meta, rows: seq<Row>, next: nat)
    requires MetasOk(s.c) && Progress(s, s', t) && MetaOk(s, t, meta) && PartialOk(pl, s, sql, t, meta, rows, next)
    ensures PartialOk(pl, s', sql, t, meta, rows, next)
  {
    MetaKept(s, s', t, meta);
    hide Progress, SameTable, PartsToLoad, FrameOf;
    if Live(s', t, meta.version) {
      LoadsSame(pl, s.c, s'.c, sql, t, next);
    }
  }

  lemma FlightKept(pl: Planner, s: System, s': System, f: Flight)
    requires MetasOk(s.c) && FlightOk(pl, s, f) && forall t :: Progress(s, s', t)
    ensures FlightOk(pl, s', f)
  {
    var tables := pl.tables(f.sql);
    hide Progress, MetasOk;
    forall i | 0 <= i < |f.metas|
      ensures MetaOk(s', tables[i], f.metas[i])
    {
      MetaKept(s, s', tables[i], f.metas[i]);
    }
    hide MetaOk;
    forall i | 0 <= i < |f.frames|
      ensures FrameOk(pl, s', f.sql, tables[i], f.metas[i], f.frames[i])
    {
      FrameKept(pl, s, s', f.sql, tables[i], f.metas[i], f.frames[i]);
    }
    hide FrameOk;
    if |f.frames| < |f.metas| {
      PartialKept(pl, s, s', f.sql, tables[|f.frames|], f.metas[|f.frames|], f.rows, f.next);
    }
  }

  lemma ExecuteSame(pl: Planner, a: Catalog, b: Catalog, sql: string)
    requires MetasOk(a) && AllPresent(a, pl.tables(sql))
    requires forall i | 0 <= i < |pl.tables(sql)| :: SameTable(a, b, pl.tables(sql)[i])
    ensures AllPresent(b, pl.tables(sql)) && Execute(pl, a, sql) == Execute(pl, b, sql)
  {
    var tables := pl.tables(sql);
    assert AllPresent(b, tables);
    forall i | 0 <= i < |tables|
      ensures FrameOf(pl, a, sql, tables[i]) == FrameOf(pl, b, sql, tables[i])
    {
      LoadsSame(pl, a, b, sql, tables[i], 0);
    }
    hide FrameOf, SameTable, MetasOk;
    var fa := seq(|tables|, i requires 0 <= i < |tables| => FrameOf(pl, a, sql, tables[i]));
    var fb := seq(|tables|, i requires 0 <= i < |tables| => FrameOf(pl, b, sql, tables[i]));
    assert fa == fb;
    assert Execute(pl, a, sql) == pl.run(sql, fa) && Execute(pl, b, sql) == pl.run(sql, fb);
  }

  lemma EntryKept(pl: Planner, s: System, s': System, e: Cache.Entry<Payload>)
    requires MetasOk(s.c) && EntryOk(pl, s, e) && forall t :: Progress(s, s', t)
    ensures EntryOk(pl, s', e)
  {
    var sql: string, metas: seq<Meta> :| MadeFor(pl, s, e, sql, metas);
    MadeKept(pl, s, s', e, sql, metas);
  }

  lemma MadeKept(pl: Planner, s: System, s': System, e: Cache.Entry<Payload>, sql: string, metas: seq<Meta>)
    requires MetasOk(s.c) && MadeFor(pl, s, e, sql, metas) && forall t :: Progress(s, s', t)
    ensures MadeFor(pl, s', e, sql, metas)
  {
    var tables := pl.tables(sql);
    hide SameTable, MetasOk, Admissible, Execute, KeyOf;
    assert forall i | 0 <= i < |tables| :: Progress(s, s', tables[i]);
    if forall i | 0 <= i < |tables| :: Live(s', tables[i], metas[i].version) {
      forall i | 0 <= i < |tables|
        ensures Live(s, tables[i], metas[i].version) && SameTable(s.c, s'.c, tables[i])
      {
        assert Live(s', tables[i], metas[i].version);
      }
      ExecuteSame(pl, s.c, s'.c, sql);
    }
  }

  lemma MetasKept(pl: Planner, s: System, step: Step, s': System)
    requires MetasOk(s.c) && Next(pl, s, step, s')
    ensures MetasOk(s'.c)
  {
    if IsStore(s, step, s') {
      match step
      case Publish(table, columns, rows, size) =>
        PublishedNumbered(s.c, table, columns, rows, size);
        PublishedFrame(s.c, table, columns, rows, size);
        hide Published;
      case _ =>
    } else {
      hide Cache.Get, Cache.Put, KeyOf, PartsToLoad;
    }
  }

  lemma PublishedNumbered(c: Catalog, table: string, columns: seq<string>, rows: seq<Row>, size: nat)
    requires size > 0
    ensures
      var p := Published(c, table, columns, rows, size);
      table in p.metas && Numbered(p.metas[table].partitions) && p.metas[table].version == VersionOf(p, table)
  {
    hide Chunks, ZoneMap, PutParts;
  }

  // ---------- the moving query ----------

  lemma ReadMetaOk(pl: Planner, s: System, q: QueryId, s': System)
    requires MetasOk(s.c) && q in s.queries && FlightOk(pl, s, s.queries[q]) && IsQuery(pl, s, ReadMeta(q), s')
    ensures FlightOk(pl, s', s'.queries[q])
  {
    hide Admissible, FrameOf, PartsToLoad, Gather;
    var f, f' := s.queries[q], s'.queries[q];
    var tables := pl.tables(f.sql);
    assert PartialOk(pl, s', f.sql, tables[0], f'.metas[0], [], 0) by {
      assert PartsToLoad(pl, f.sql, f'.metas[0])[..0] == [];
      NothingGathered(s'.c, tables[0], f'.metas[0].version);
    }
  }

  lemma NothingGathered(c: Catalog, t: string, version: nat)
    ensures Gather(c, t, version, []) == []
  {
  }

  lemma LoadPartOk(pl: Planner, s: System, q: QueryId, s': System)
    requires MetasOk(s.c) && q in s.queries && FlightOk(pl, s, s.queries[q]) && IsQuery(pl, s, LoadPart(q), s')
    ensures FlightOk(pl, s', s'.queries[q])
  {
    hide Admissible, FrameOf, PartsToLoad;
    var f := s.queries[q];
    var t, meta := pl.tables(f.sql)[|f.frames|], f.metas[|f.frames|];
    var order := PartsToLoad(pl, f.sql, meta);
    GatherStep(s.c, t, meta.version, order[..f.next], order[f.next]);
    assert order[..f.next + 1] == order[..f.next] + [order[f.next]];
  }

  lemma NextTableOk(pl: Planner, s: System, q: QueryId, s': System)
    requires MetasOk(s.c) && q in s.queries && FlightOk(pl, s, s.queries[q]) && IsQuery(pl, s, NextTable(q), s')
    ensures FlightOk(pl, s', s'.queries[q])
  {
    hide Admissible, PartsToLoad, Gather;
    var f, f' := s.queries[q], s'.queries[q];
    var tables := pl.tables(f.sql);
    var t, meta := tables[|f.frames|], f.metas[|f.frames|];
    assert MetaOk(s, t, meta);
    var order := PartsToLoad(pl, f.sql, meta);
    assert order[..f.next] == order;
    if |f'.frames| < |f'.metas| {
      var t', meta' := tables[|f'.frames|], f'.metas[|f'.frames|];
      assert PartsToLoad(pl, f.sql, meta')[..0] == [];
      NothingGathered(s'.c, t', meta'.version);
    }
  }

  /** The payload stored by a finishing query is made for the versions it read. */
  lemma FinishMakes(pl: Planner, s: System, f: Flight, e: Cache.Entry<Payload>)
    requires FlightOk(pl, s, f) && |f.frames| == |f.metas| == |pl.tables(f.sql)|
    requires e.key == KeyOf(pl, f.sql, f.metas) && e.payload == pl.run(f.sql, f.frames)
    ensures EntryOk(pl, s, e)
  {
    var tables := pl.tables(f.sql);
    hide Admissible, FrameOf, KeyOf;
    if forall i | 0 <= i < |tables| :: Live(s, tables[i], f.metas[i].version) {
      assert forall i | 0 <= i < |tables| :: Live(s, tables[i], f.metas[i].version) && FrameOk(pl, s, f.sql, tables[i], f.metas[i], f.frames[i]);
      assert AllPresent(s.c, tables);
      assert f.frames == seq(|tables|, i requires 0 <= i < |tables| => FrameOf(pl, s.c, f.sql, tables[i]));
    }
    assert forall i | 0 <= i < |tables| :: MetaOk(s, tables[i], f.metas[i]);
    assert MadeFor(pl, s, e, f.sql, f.metas);
  }

  lemma AllProgress(pl: Planner, s: System, step: Step, s': System)
    requires Next(pl, s, step, s')
    ensures forall t :: Progress(s, s', t)
  {
    hide Next;
    forall t
      ensures Progress(s, s', t)
    {
      StepProgress(pl, s, step, s', t);
    }
  }

  lemma QueriesKept(pl: Planner, s: System, step: Step, s': System)
    requires Inv(pl, s) && Next(pl, s, step, s')
    ensures forall q | q in s'.queries :: FlightOk(pl, s', s'.queries[q])
  {
    AllProgress(pl, s, step, s');
    forall q | q in s'.queries
      ensures FlightOk(pl, s', s'.queries[q])
    {
      if q in s.queries && s'.queries[q] == s.queries[q] {
        hide Next;
        FlightKept(pl, s, s', s.queries[q]);
      } else {
        hide IsStore, FlightOk, Progress, MetasOk;
        MovedOk(pl, s, step, s', q);
      }
    }
  }

  lemma MovedOk(pl: Planner, s: System, step: Step, s': System, q: QueryId)
    requires MetasOk(s.c) && q in s'.queries && (q in s.queries ==> FlightOk(pl, s, s.queries[q]) && s'.queries[q] != s.queries[q])
    requires Next(pl, s, step, s')
    ensures FlightOk(pl, s', s'.queries[q])
  {
    hide FlightOk, IsStore, MetasOk, KeyOf, PartsToLoad, Cache.Get, Cache.Put;
    StoreLeavesQueries(s, step, s');
    match step
    case Begin(_, sql) => BeginOk(pl, s', sql);
    case ReadMeta(_) => ReadMetaOk(pl, s, q, s');
    case LoadPart(_) => LoadPartOk(pl, s, q, s');
    case NextTable(_) => NextTableOk(pl, s, q, s');
    case _ =>
  }

  lemma StoreLeavesQueries(s: System, step: Step, s': System)
    ensures IsStore(s, step, s') ==> s'.queries == s.queries && s'.cache == s.cache
  {
  }

  lemma BeginOk(pl: Planner, s: System, sql: string)
    requires Admissible(pl.tables(sql))
    ensures FlightOk(pl, s, Flight(sql, [], [], [], 0))
  {
  }

  lemma CacheKept(pl: Planner, s: System, step: Step, s': System)
    requires Inv(pl, s) && Next(pl, s, step, s')
    ensures forall e | e in s'.cache :: EntryOk(pl, s', e)
    ensures Cache.Distinct(s'.cache) && |s'.cache| <= pl.capacity
  {
    AllProgress(pl, s, step, s');
    StoreLeavesQueries(s, step, s');
    hide IsStore, Progress, MetasOk, FlightOk, EntryOk, KeyOf, PartsToLoad, Cache.Distinct, Cache.Put, Cache.Get;
    match step
    case Serve(q, now) =>
      if IsQuery(pl, s, step, s') {
        Cache.GetKeepsBounds(s.cache, KeyOf(pl, s.queries[q].sql, s.queries[q].metas), now);
      }
      OldEntriesKept(pl, s, s');
    case Finish(q, expiresAt) =>
      OldEntriesKept(pl, s, s');
      if IsQuery(pl, s, step, s') {
        var f := s.queries[q];
        var e := Cache.Entry(KeyOf(pl, f.sql, f.metas), expiresAt, pl.run(f.sql, f.frames));
        Cache.PutKeepsBounds(s.cache, e, pl.capacity);
        FinishMakes(pl, s, f, e);
        EntryKept(pl, s, s', e);
      }
    case Clear =>
      EmptyCache<Payload>();
      OldEntriesKept(pl, s, s');
    case _ =>
      OldEntriesKept(pl, s, s');
  }

  lemma EmptyCache<P>()
    ensures Cache.Distinct<P>([])
  {
  }

  lemma OldEntriesKept(pl: Planner, s: System, s': System)
    requires Inv(pl, s) && forall t :: Progress(s, s', t)
    ensures forall e | e in s.cache :: EntryOk(pl, s', e)
  {
    hide Progress, FlightOk, EntryOk;
    forall e | e in s.cache
      ensures EntryOk(pl, s', e)
    {
      EntryKept(pl, s, s', e);
    }
  }

  lemma NextKeepsInv(pl: Planner, s: System, step: Step, s': System)
    requires Inv(pl, s) && Next(pl, s, step, s')
    ensures Inv(pl, s')
  {
    hide Next, FlightOk, EntryOk;
    MetasKept(pl, s, step, s');
    QueriesKept(pl, s, step, s');
    CacheKept(pl, s, step, s');
  }

  lemma {:induction false} RunKeepsInv(pl: Planner, run: seq<System>, steps: seq<Step>, n: nat)
    requires IsRun(pl, run, steps) && n < |run|
    ensures Inv(pl, run[n])
  {
    hide Next, FlightOk, EntryOk;
    if n > 0 {
      RunKeepsInv(pl, run, steps, n - 1);
      NextKeepsInv(pl, run[n - 1], steps[n - 1], run[n]);
    }
  }

  // ---------- results ----------

  /** The cache never holds more than its capacity, whatever was queried. */
  lemma CapacityHolds(pl: Planner, run: seq<System>, steps: seq<Step>, n: nat)
    requires IsRun(pl, run, steps) && n < |run|
    ensures |run[n].cache| <= pl.capacity && Cache.Distinct(run[n].cache)
  {
    RunKeepsInv(pl, run, steps, n);
  }

  /**
   A cache hit under the current versions returns what executing the statement now would, unless one of
   its tables is just being deleted.
   */
  lemma HitIsFresh(pl: Planner, run: seq<System>, steps: seq<Step>, n: nat, sql: string, e: Cache.Entry<Payload>)
    requires IsRun(pl, run, steps) && n < |run|
    requires Admissible(pl.tables(sql)) && AllPresent(run[n].c, pl.tables(sql))
    requires forall i | 0 <= i < |pl.tables(sql)| :: pl.tables(sql)[i] !in run[n].deleting
    requires Cache.Find(run[n].cache, KeyOf(pl, sql, CurrentMetas(run[n].c, pl.tables(sql)))) == Some(e)
    ensures e.payload == Execute(pl, run[n].c, sql)
  {
    RunKeepsInv(pl, run, steps, n);
    var s := run[n];
    var now := CurrentMetas(s.c, pl.tables(sql));
    assert e in s.cache && e.key == KeyOf(pl, sql, now);
    var sql': string, metas: seq<Meta> :| MadeFor(pl, s, e, sql', metas);
    KeyFixesVersions(pl, sql, now, sql', metas);
    hide IsRun, Inv, KeyOf, Execute;
    forall i | 0 <= i < |metas|
      ensures Live(s, pl.tables(sql)[i], metas[i].version)
    {
      assert now[i] == s.c.metas[pl.tables(sql)[i]];
    }
  }

  /**
   A hit is served under the meta records its query read, and those may be out of date by then. While all of
   them are still live, the payload is what executing the statement now returns.
   */
  lemma ServedHitIsFresh(pl: Planner, run: seq<System>, steps: seq<Step>, n: nat, q: QueryId, now: int)
    requires IsRun(pl, run, steps) && n < |steps| && steps[n] == Serve(q, now) && q in run[n].queries
    requires
      var f := run[n].queries[q];
      && |f.metas| == |pl.tables(f.sql)|
      && Cache.Get(run[n].cache, KeyOf(pl, f.sql, f.metas), now).1.Some?
      && forall i | 0 <= i < |f.metas| :: Live(run[n], pl.tables(f.sql)[i], f.metas[i].version)
    ensures
      var f := run[n].queries[q];
      && AllPresent(run[n].c, pl.tables(f.sql))
      && Cache.Get(run[n].cache, KeyOf(pl, f.sql, f.metas), now).1 == Some(Execute(pl, run[n].c, f.sql))
  {
    RunKeepsInv(pl, run, steps, n);
    var s := run[n];
    var f := s.queries[q];
    var tables := pl.tables(f.sql);
    assert FlightOk(pl, s, f);
    assert forall i | 0 <= i < |f.metas| :: MetaOk(s, tables[i], f.metas[i]) && Live(s, tables[i], f.metas[i].version);
    hide Inv, FlightOk, KeyOf, Execute, IsRun, PartialOk, FrameOk;
    assert AllPresent(s.c, tables) && f.metas == CurrentMetas(s.c, tables);
    var e := Cache.Find(s.cache, KeyOf(pl, f.sql, f.metas)).value;
    HitIsFresh(pl, run, steps, n, f.sql, e);
  }

  /** Equal keys mean the same statement at the same version of every table. */
  lemma KeyFixesVersions(pl: Planner, sql: string, a: seq<Meta>, sql': string, b: seq<Meta>)
    requires Admissible(pl.tables(sql)) && Admissible(pl.tables(sql'))
    requires |a| == |pl.tables(sql)| && |b| == |pl.tables(sql')| && KeyOf(pl, sql, a) == KeyOf(pl, sql', b)
    ensures sql == sql' && forall i | 0 <= i < |a| :: a[i].version == b[i].version
  {
    var va, vb := VersionsOf(pl.tables(sql), a), VersionsOf(pl.tables(sql'), b);
    assert Cache.SafeNames(va) && Cache.SafeNames(vb);
    hide Cache.KeyText, Cache.SortPairs;
    Cache.KeyInjective(pl.less, sql, va, sql', vb);
    SameNamesSamePairs(va, vb);
    assert forall i | 0 <= i < |a| :: va[i] == vb[i];
  }

  /** With each name listed once and in the same order, equal multisets of pairs are equal lists. */
  lemma SameNamesSamePairs(va: seq<Cache.Versioned>, vb: seq<Cache.Versioned>)
    requires |va| == |vb| && multiset(va) == multiset(vb) && forall i | 0 <= i < |va| :: va[i].0 == vb[i].0
    requires forall i, j | 0 <= i < j < |va| :: va[i].0 != va[j].0
    ensures va == vb
  {
    forall i | 0 <= i < |va|
      ensures va[i] == vb[i]
    {
      assert va[i] in multiset(va);
      assert va[i] in vb;
      var j :| 0 <= j < |vb| && vb[j] == va[i];
      assert va[j].0 == va[i].0;
    }
  }

  /** Version counters never fall. */
  lemma {:induction false} VersionsNeverFall(pl: Planner, run: seq<System>, steps: seq<Step>, i: nat, j: nat, t: string)
    requires IsRun(pl, run, steps) && i <= j < |run|
    ensures VersionOf(run[i].c, t) <= VersionOf(run[j].c, t)
  {
    if i < j {
      VersionsNeverFall(pl, run, steps, i, j - 1, t);
      StepProgress(pl, run[j - 1], steps[j - 1], run[j], t);
    }
  }

  /** An upload gets a version no table of that name ever had, deleted ones included. */
  lemma VersionsNeverReissued(pl: Planner, run: seq<System>, steps: seq<Step>, i: nat, n: nat)
    requires IsRun(pl, run, steps) && i <= n < |steps| && steps[n].Publish? && steps[n].table in run[i].c.metas
    ensures
      var t := steps[n].table;
      t in run[n + 1].c.metas && run[i].c.metas[t].version < run[n + 1].c.metas[t].version
  {
    var t := steps[n].table;
    VersionsNeverFall(pl, run, steps, i, n, t);
    RunKeepsInv(pl, run, steps, i);
    assert Next(pl, run[n], steps[n], run[n + 1]);
    hide Chunks, PartitionsOf, PutParts;
  }

  /** One version, one content: while a table carries a version, its meta record and partitions never change. */
  lemma VersionNamesContent(pl: Planner, run: seq<System>, steps: seq<Step>, i: nat, j: nat, t: string, version: nat)
    requires IsRun(pl, run, steps) && i <= j < |run|
    requires t in run[i].c.metas && run[i].c.metas[t].version == version && Live(run[j], t, version)
    ensures Live(run[i], t, version) && SameTable(run[i].c, run[j].c, t)
  {
    RunKeepsInv(pl, run, steps, i);
    hide IsRun, SameTable;
    LiveSince(pl, run, steps, i, j, t, version);
  }

  lemma {:induction false} LiveSince(pl: Planner, run: seq<System>, steps: seq<Step>, i: nat, j: nat, t: string, version: nat)
    requires IsRun(pl, run, steps) && i <= j < |run| && version <= VersionOf(run[i].c, t) && Live(run[j], t, version)
    ensures Live(run[i], t, version) && SameTable(run[i].c, run[j].c, t)
  {
    hide Next, SameTable;
    if i == j {
      SameTableItself(run[i].c, t);
    } else {
      VersionsNeverFall(pl, run, steps, i, j - 1, t);
      StepProgress(pl, run[j - 1], steps[j - 1], run[j], t);
      hide IsRun;
      LiveSince(pl, run, steps, i, j - 1, t, version);
      SameTableChains(run[i].c, run[j - 1].c, run[j].c, t);
    }
  }

  lemma SameTableItself(a: Catalog, t: string)
    ensures SameTable(a, a, t)
  {
  }

  lemma SameTableChains(a: Catalog, b: Catalog, c: Catalog, t: string)
    requires t in b.metas && SameTable(a, b, t) && SameTable(b, c, t)
    ensures SameTable(a, c, t)
  {
    forall i | 0 <= i < |b.metas[t].partitions|
      ensures var k := Current(a, t, i);
              (k in a.parts <==> k in c.parts) && (k in a.parts ==> a.parts[k] == c.parts[k])
    {
      assert Current(a, t, i) == Current(b, t, i);
    }
  }
}
