/**
 Runs of module CachedQueries in which a hit differs from executing the statement now: after a re-upload,
 in the middle of a delete, and with a payload that was loaded while its partitions were being removed.
 They show that the condition of CachedQueries.ServedHitIsFresh cannot be dropped.
 */
module ServedHits {
  import opened Options
  import opened Pruning
  import opened TableStores
  import opened CachedQueries
  import Cache = ResultCaches

  // ---------- one table, one statement ----------

  /** Every statement reads table "a" whole. */
  function OneTable(): Planner {
    Planner(_ => ["a"], _ => [], name => name, (x, y) => false,
            (sql: string, frames: seq<Frame>) => if frames == [] then [] else frames[0].rows, 1)
  }

  /** The meta record of n one-row partitions. */
  function MetaOf(n: nat, version: nat): Meta {
    Meta([], seq(n, i requires 0 <= i < n => Partition(i, 1, map[])), version)
  }

  function Uploaded(c: Catalog, rows: seq<Row>): Catalog {
    Published(c, "a", [], rows, 1)
  }

  lemma {:induction false} OneRowChunks(rows: seq<Row>)
    ensures |Chunks(rows, 1)| == |rows| && forall i | 0 <= i < |rows| :: Chunks(rows, 1)[i] == [rows[i]]
  {
    if |rows| == 1 {
      assert rows == [rows[0]];
    } else if |rows| > 1 {
      OneRowChunks(rows[1..]);
      assert rows[..1] == [rows[0]];
    }
  }

  /** What an upload of one-row partitions writes. */
  lemma UploadedFacts(c: Catalog, rows: seq<Row>)
    ensures
      var u, v := Uploaded(c, rows), VersionOf(c, "a") + 1;
      && "a" in u.metas && u.metas["a"] == MetaOf(|rows|, v) && VersionOf(u, "a") == v
      && forall k: PartKey :: (k in u.parts <==> (k.0 == "a" && k.1 == v && k.2 < |rows|) || k in c.parts) &&
                              (k in u.parts ==> u.parts[k] == if k.0 == "a" && k.1 == v && k.2 < |rows| then [rows[k.2]] else c.parts[k])
  {
    hide Chunks, ZoneMap, PutParts;
    var chunks := Chunks(rows, 1);
    OneRowChunks(rows);
    PutPartsFacts(c.parts, "a", VersionOf(c, "a") + 1, chunks);
    forall i | 0 <= i < |rows|
      ensures PartitionOf([], chunks[i], i) == Partition(i, 1, map[])
    {
      NoColumns(chunks[i], i);
    }
    assert PartitionsOf([], chunks) == MetaOf(|rows|, 0).partitions;
  }

  lemma NoColumns(chunk: seq<Row>, i: nat)
    ensures PartitionOf([], chunk, i) == Partition(i, |chunk|, map[])
  {
  }

  lemma {:induction false} AllPartsLoad(parts: seq<Partition>, n: nat)
    requires n <= |parts| && forall i | 0 <= i < |parts| :: parts[i].idx == i
    ensures Selected(OneTable().lower, [], parts[..n], []) == Upto(n)
  {
    if n > 0 {
      AllPartsLoad(parts, n - 1);
      SelectedStep(OneTable().lower, [], parts, [], n - 1);
      assert Upto(n) == Upto(n - 1) + [n - 1];
    }
  }

  lemma LoadsAll(n: nat, version: nat)
    ensures PartsToLoad(OneTable(), "q", MetaOf(n, version)) == Upto(n)
  {
    var meta := MetaOf(n, version);
    AllPartsLoad(meta.partitions, n);
    assert meta.partitions[..n] == meta.partitions;
  }

  /** Executing the statement returns the rows of the partitions still there. */
  lemma ExecuteIs(c: Catalog, n: nat, version: nat)
    requires "a" in c.metas && c.metas["a"] == MetaOf(n, version)
    ensures Execute(OneTable(), c, "q") == Gather(c, "a", version, Upto(n))
  {
    LoadsAll(n, version);
  }

  lemma GatherNone(c: Catalog, version: nat)
    ensures Gather(c, "a", version, Upto(0)) == []
  {
  }

  lemma GatherUpto(c: Catalog, version: nat, n: nat)
    ensures Gather(c, "a", version, Upto(n + 1))
         == Gather(c, "a", version, Upto(n)) + if ("a", version, n) in c.parts then c.parts[("a", version, n)] else []
  {
    assert Upto(n + 1) == Upto(n) + [n];
    GatherStep(c, "a", version, Upto(n), n);
  }

  // ---------- runs, step by step ----------

  /** A run of the one-table system. */
  datatype Trace = Trace(run: seq<System>, steps: seq<Step>) {
    ghost predicate Valid() {
      IsRun(OneTable(), run, steps)
    }

    function Last(): System
      requires run != []
    {
      run[|run| - 1]
    }

    function Then(step: Step, s': System): Trace {
      Trace(run + [s'], steps + [step])
    }
  }

  lemma Grows(t: Trace, step: Step, s': System)
    requires t.Valid() && Next(OneTable(), t.Last(), step, s')
    ensures t.Then(step, s').Valid() && t.Then(step, s').Last() == s'
  {
    hide Next;
    var r := t.Then(step, s');
    forall i | 0 <= i < |r.steps|
      ensures Next(OneTable(), r.run[i], r.steps[i], r.run[i + 1])
    {
      assert i < |t.steps| ==> Next(OneTable(), t.run[i], t.steps[i], t.run[i + 1]);
      assert r.run[i] == t.run[i];
    }
  }

  /** r goes on where t ends, with one and the same store contents from there on. */
  ghost predicate Extends(t: Trace, r: Trace) {
    && r.Valid() && |t.run| < |r.run| && r.run[..|t.run|] == t.run
    && forall i | |t.run| <= i < |r.run| :: r.run[i].c == r.Last().c
  }

  function Fresh(): Flight {
    Flight("q", [], [], [], 0)
  }

  lemma DoBegin(t: Trace, q: QueryId) returns (r: Trace)
    requires t.Valid() && q !in t.Last().queries
    ensures r.Valid() && r.run != [] && Extends(t, r) && r.Last() == t.Last().(queries := t.Last().queries[q := Fresh()])
  {
    var s := t.Last();
    var s' := s.(queries := s.queries[q := Fresh()]);
    assert Next(OneTable(), s, Begin(q, "q"), s');
    Grows(t, Begin(q, "q"), s');
    r := t.Then(Begin(q, "q"), s');
  }

  lemma DoReadMeta(t: Trace, q: QueryId) returns (r: Trace)
    requires t.Valid() && q in t.Last().queries && t.Last().queries[q] == Fresh() && "a" in t.Last().c.metas
    ensures r.Valid() && r.run != [] && Extends(t, r)
    ensures r.Last() == t.Last().(queries := t.Last().queries[q := Fresh().(metas := [t.Last().c.metas["a"]])])
  {
    var s := t.Last();
    var s' := s.(queries := s.queries[q := Fresh().(metas := [s.c.metas["a"]])]);
    assert Fresh().metas + [s.c.metas["a"]] == [s.c.metas["a"]];
    assert Next(OneTable(), s, ReadMeta(q), s');
    Grows(t, ReadMeta(q), s');
    r := t.Then(ReadMeta(q), s');
  }

  /** The query has read a meta record of n one-row partitions, and has loaded some of them. */
  predicate Loading(s: System, q: QueryId, n: nat, version: nat) {
    && q in s.queries && s.queries[q].sql == "q" && s.queries[q].metas == [MetaOf(n, version)]
    && s.queries[q].frames == [] && s.queries[q].next <= n
  }

  lemma DoLoadPart(t: Trace, q: QueryId, n: nat, version: nat) returns (r: Trace)
    requires t.Valid() && Loading(t.Last(), q, n, version) && t.Last().queries[q].next < n
    ensures
      var s := t.Last();
      var f := s.queries[q];
      var key := ("a", version, f.next);
      && r.Valid() && r.run != [] && Extends(t, r)
      && r.Last() == s.(queries := s.queries[q := f.(rows := f.rows + (if key in s.c.parts then s.c.parts[key] else []), next := f.next + 1)])
  {
    var s := t.Last();
    LoadsAll(n, version);
    hide PartsToLoad, IsRun;
    var f := s.queries[q];
    var key := ("a", version, f.next);
    var s' := s.(queries := s.queries[q := f.(rows := f.rows + (if key in s.c.parts then s.c.parts[key] else []), next := f.next + 1)]);
    assert Next(OneTable(), s, LoadPart(q), s');
    Grows(t, LoadPart(q), s');
    r := t.Then(LoadPart(q), s');
  }

  lemma DoNextTable(t: Trace, q: QueryId, n: nat, version: nat) returns (r: Trace)
    requires t.Valid() && Loading(t.Last(), q, n, version) && t.Last().queries[q].next == n
    ensures
      var f := t.Last().queries[q];
      && r.Valid() && r.run != [] && Extends(t, r)
      && r.Last() == t.Last().(queries := t.Last().queries[q := f.(frames := [Frame("a", MetaOf(n, version), f.rows)], rows := [], next := 0)])
  {
    var s := t.Last();
    var f := s.queries[q];
    var s' := s.(queries := s.queries[q := f.(frames := [Frame("a", MetaOf(n, version), f.rows)], rows := [], next := 0)]);
    LoadsAll(n, version);
    hide PartsToLoad, IsRun, KeyOf, MetaOf;
    assert [] + [Frame("a", MetaOf(n, version), f.rows)] == [Frame("a", MetaOf(n, version), f.rows)];
    assert Next(OneTable(), s, NextTable(q), s');
    Grows(t, NextTable(q), s');
    r := t.Then(NextTable(q), s');
  }

  /** All partitions loaded: the last two steps of a query, into an empty cache. */
  lemma DoFinish(t: Trace, q: QueryId, n: nat, version: nat) returns (r: Trace)
    requires t.Valid() && Loading(t.Last(), q, n, version) && t.Last().queries[q].next == n && t.Last().cache == []
    ensures r.Valid() && r.run != [] && Extends(t, r)
    ensures r.Last() == t.Last().(cache := [EntryFor(n, version, t.Last().queries[q].rows)], queries := t.Last().queries - {q})
  {
    var u := DoNextTable(t, q, n, version);
    var s, s' := t.Last(), u.Last();
    hide IsRun, KeyOf, MetaOf;
    var e := EntryFor(n, version, s.queries[q].rows);
    FirstEntry(e);
    hide Cache.Put;
    var s'' := s.(cache := [e], queries := s.queries - {q});
    assert s'.queries - {q} == s.queries - {q};
    assert Next(OneTable(), s', Finish(q, 0), s'');
    hide Next;
    Grows(u, Finish(q, 0), s'');
    r := u.Then(Finish(q, 0), s'');
    assert r.run[..|t.run|] == t.run;
  }

  function EntryFor(n: nat, version: nat, payload: Payload): Cache.Entry<Payload> {
    Cache.Entry(KeyOf(OneTable(), "q", [MetaOf(n, version)]), 0, payload)
  }

  lemma FirstEntry(e: Cache.Entry<Payload>)
    ensures Cache.Put([], e, 1) == [e]
  {
    assert Cache.Without<Payload>([], e.key) == [];
    assert [] + [e] == [e];
  }

  /** The one cached entry is a hit under its key. */
  lemma OnlyEntry(e: Cache.Entry<Payload>, now: int)
    requires now <= e.expiresAt
    ensures Cache.Get([e], e.key, now) == ([e], Some(e.payload))
  {
    assert Cache.Without([e], e.key) == [] by {
      assert [e][..0] + [e][1..] == [];
    }
    assert [] + [e] == [e];
  }

  /** A step of an upload or delete. */
  lemma DoStore(t: Trace, step: Step, s': System) returns (r: Trace)
    requires t.Valid() && IsStore(t.Last(), step, s')
    ensures r.Valid() && r.run != [] && Extends(t, r) && r.Last() == s'
  {
    hide IsStore;
    assert Next(OneTable(), t.Last(), step, s');
    Grows(t, step, s');
    r := t.Then(step, s');
  }

  /** The last step is a hit of query q with this payload; execution returns something else by then. */
  ghost predicate StaleHit(t: Trace, q: QueryId, payload: Payload) {
    && t.Valid() && t.steps != [] && t.steps[|t.steps| - 1] == Serve(q, 0)
    && var s := t.run[|t.steps| - 1];
    && q in s.queries && s.queries[q].sql == "q" && |s.queries[q].metas| == 1
    && Cache.Get(s.cache, KeyOf(OneTable(), "q", s.queries[q].metas), 0).1 == Some(payload)
    && "a" in s.c.metas && Execute(OneTable(), s.c, "q") != payload
  }

  /** A query that has read its meta record is served the one cached entry. */
  lemma DoServe(t: Trace, q: QueryId, n: nat, version: nat, payload: Payload) returns (r: Trace)
    requires t.Valid() && Loading(t.Last(), q, n, version) && t.Last().cache == [EntryFor(n, version, payload)]
    requires "a" in t.Last().c.metas && Execute(OneTable(), t.Last().c, "q") != payload
    ensures StaleHit(r, q, payload) && Extends(t, r) && |r.run| == |t.run| + 1 == |r.steps| + 1 && r.Last().c == t.Last().c
  {
    hide KeyOf, MetaOf, Execute, IsRun, Cache.Get, Next;
    TraceLength(t);
    var s := t.Last();
    var s' := s.(queries := s.queries - {q});
    ServeStep(s, q, n, version, payload, s');
    Grows(t, Serve(q, 0), s');
    r := t.Then(Serve(q, 0), s');
    TraceLength(r);
  }

  lemma ServeStep(s: System, q: QueryId, n: nat, version: nat, payload: Payload, s': System)
    requires Loading(s, q, n, version) && s.cache == [EntryFor(n, version, payload)] && s' == s.(queries := s.queries - {q})
    ensures Next(OneTable(), s, Serve(q, 0), s')
    ensures Cache.Get(s.cache, EntryFor(n, version, payload).key, 0) == (s.cache, Some(payload))
  {
    hide KeyOf, MetaOf, Cache.Get;
    OnlyEntry(EntryFor(n, version, payload), 0);
  }

  lemma TraceLength(t: Trace)
    requires t.Valid()
    ensures |t.run| == |t.steps| + 1
  {
  }

  // ---------- the common beginning ----------

  const NOTHING := Catalog(map[], map[], map[])

  /** A table uploaded into an empty store. */
  function Start(rows: seq<Row>): System {
    System(Uploaded(NOTHING, rows), {}, [], map[])
  }

  lemma StartIsReachable(rows: seq<Row>) returns (r: Trace)
    ensures r.Valid() && |r.run| == 2 && r.Last() == Start(rows)
  {
    var empty := System(NOTHING, {}, [], map[]);
    r := Trace([empty, Start(rows)], [Publish("a", [], rows, 1)]);
    assert IsStore(empty, r.steps[0], Start(rows));
  }

  /** The statement answered and cached over one row. */
  function Answered(row: Row): System {
    Start([row]).(cache := [EntryFor(1, 1, [row])])
  }

  lemma AnsweredIsReachable(row: Row) returns (r: Trace)
    ensures r.Valid() && r.run != [] && r.Last() == Answered(row)
  {
    r := StartIsReachable([row]);
    UploadedFacts(NOTHING, [row]);
    hide IsRun, Uploaded, KeyOf, MetaOf;
    r := DoBegin(r, 0);
    r := DoReadMeta(r, 0);
    r := DoLoadPart(r, 0, 1, 1);
    assert [] + [row] == [row];
    r := DoFinish(r, 0, 1, 1);
    assert r.Last().queries == map[];
  }

  lemma RowsNow(c: Catalog, row: Row, version: nat)
    requires "a" in c.metas && c.metas["a"] == MetaOf(1, version) && ("a", version, 0) in c.parts && c.parts[("a", version, 0)] == [row]
    ensures Execute(OneTable(), c, "q") == [row]
  {
    ExecuteIs(c, 1, version);
    GatherUpto(c, version, 0);
    GatherNone(c, version);
  }

  // ---------- three windows ----------

  /** A query has read the meta record when the table is uploaded again: it is served the old rows. */
  lemma HitAfterReupload(row: Row, row2: Row) returns (r: Trace)
    requires row != row2
    ensures StaleHit(r, 1, [row])
    ensures r.run[|r.steps| - 1].deleting == {} && Execute(OneTable(), r.run[|r.steps| - 1].c, "q") == [row2]
  {
    r := AnsweredIsReachable(row);
    UploadedTwice(row, row2);
    UploadedFacts(NOTHING, [row]);
    hide IsRun, KeyOf, MetaOf, StaleHit, Uploaded, Execute;
    r := DoBegin(r, 1);
    r := DoReadMeta(r, 1);
    var s := r.Last();
    var s' := s.(c := Uploaded(s.c, [row2]));
    PublishStep(s, [row2]);
    r := DoStore(r, Publish("a", [], [row2], 1), s');
    r := DoServe(r, 1, 1, 1, [row]);
    assert StaleHit(r, 1, [row]);
  }

  lemma PublishStep(s: System, rows: seq<Row>)
    requires s.deleting == {}
    ensures IsStore(s, Publish("a", [], rows, 1), s.(c := Uploaded(s.c, rows)))
  {
  }

  lemma UploadedTwice(row: Row, row2: Row)
    ensures
      var c := Uploaded(Uploaded(NOTHING, [row]), [row2]);
      "a" in c.metas && Execute(OneTable(), c, "q") == [row2]
  {
    UploadedFacts(NOTHING, [row]);
    UploadedFacts(Uploaded(NOTHING, [row]), [row2]);
    hide Uploaded, MetaOf, Execute;
    RowsNow(Uploaded(Uploaded(NOTHING, [row]), [row2]), row2, 2);
  }

  /**
   Delete removes the partitions before the meta record and the version bump: in between a hit returns the
   whole old answer while executing the statement already finds rows missing.
   */
  lemma HitDuringDelete(row: Row) returns (r: Trace)
    ensures StaleHit(r, 1, [row])
    ensures Execute(OneTable(), r.run[|r.steps| - 1].c, "q") == []
  {
    hide IsRun, KeyOf, MetaOf, Uploaded, StaleHit, Execute, IsStore;
    r := AnsweredIsReachable(row);
    UploadedFacts(NOTHING, [row]);
    r := DoBegin(r, 1);
    r := DoReadMeta(r, 1);
    var s := r.Last();
    var d := s.(deleting := {"a"});
    var d' := d.(c := Emptied(d.c));
    DeleteSteps(s, d, d');
    NoRowsNow(s.c);
    r := DoStore(r, StartDelete("a"), d);
    r := DoStore(r, DropCurrent(("a", 1, 0)), d');
    r := DoServe(r, 1, 1, 1, [row]);
    assert StaleHit(r, 1, [row]);
  }

  /** The catalog without the one partition of the first version. */
  function Emptied(c: Catalog): Catalog {
    c.(parts := c.parts - {("a", 1, 0)})
  }

  lemma DeleteSteps(s: System, d: System, d': System)
    requires s.deleting == {} && "a" in s.c.metas && d == s.(deleting := {"a"}) && d' == d.(c := Emptied(d.c))
    ensures IsStore(s, StartDelete("a"), d) && IsStore(d, DropCurrent(("a", 1, 0)), d')
  {
  }

  lemma NoRowsNow(c: Catalog)
    requires "a" in c.metas && c.metas["a"] == MetaOf(1, 1)
    ensures Execute(OneTable(), Emptied(c), "q") == []
  {
    hide Execute, MetaOf;
    ExecuteIs(Emptied(c), 1, 1);
    GatherUpto(Emptied(c), 1, 0);
    GatherNone(Emptied(c), 1);
  }

  /** No state of the run has a table for which executing the statement gives this payload. */
  ghost predicate NeverRight(t: Trace, payload: Payload) {
    forall i | 0 <= i < |t.run| && "a" in t.run[i].c.metas :: Execute(OneTable(), t.run[i].c, "q") != payload
  }

  lemma StillNeverRight(t: Trace, r: Trace, payload: Payload)
    requires NeverRight(t, payload) && Extends(t, r)
    requires "a" in r.Last().c.metas ==> Execute(OneTable(), r.Last().c, "q") != payload
    ensures NeverRight(r, payload)
  {
    hide Execute, IsRun;
    forall i | 0 <= i < |r.run| && "a" in r.run[i].c.metas
      ensures Execute(OneTable(), r.run[i].c, "q") != payload
    {
      assert i < |t.run| ==> r.run[i] == t.run[i];
    }
  }

  /** The two uploads of TornHit, and the removal of a superseded partition. */
  lemma TornCatalogs(row: Row, row2: Row)
    ensures
      var c1 := Uploaded(NOTHING, [row, row2]);
      var c2 := Uploaded(c1, []);
      var c3 := c2.(parts := c2.parts - {("a", 1, 1)});
      && "a" in c1.metas && c1.metas["a"] == MetaOf(2, 1) && ("a", 1, 0) in c1.parts && c1.parts[("a", 1, 0)] == [row]
      && Execute(OneTable(), c1, "q") == [row, row2]
      && "a" in c2.metas && c2.metas["a"].version == 2 && Execute(OneTable(), c2, "q") == []
      && c3.metas == c2.metas && Execute(OneTable(), c3, "q") == []
  {
    var c1 := Uploaded(NOTHING, [row, row2]);
    var c2 := Uploaded(c1, []);
    var c3 := c2.(parts := c2.parts - {("a", 1, 1)});
    UploadedFacts(NOTHING, [row, row2]);
    UploadedFacts(c1, []);
    assert c2.metas["a"].version == 2;
    hide Uploaded, MetaOf, Execute;
    ExecuteIs(c1, 2, 1);
    GatherUpto(c1, 1, 1);
    GatherUpto(c1, 1, 0);
    GatherNone(c1, 1);
    assert [] + [row] + [row2] == [row, row2];
    ExecuteIs(c2, 0, 2);
    GatherNone(c2, 2);
    ExecuteIs(c3, 0, 2);
    GatherNone(c3, 2);
  }

  /** Query 0 has loaded the first of two rows, query 1 has read the meta record. */
  function HalfLoaded(row: Row, row2: Row): System {
    var read := Fresh().(metas := [MetaOf(2, 1)]);
    Start([row, row2]).(queries := map[0 := read.(rows := [row], next := 1), 1 := read])
  }

  lemma HalfLoadedIsReachable(row: Row, row2: Row) returns (r: Trace)
    ensures r.Valid() && r.run != [] && r.Last() == HalfLoaded(row, row2) && NeverRight(r, [row])
  {
    TornCatalogs(row, row2);
    hide IsRun, KeyOf, MetaOf, Uploaded, Execute, Extends;
    var t0 := StartIsReachable([row, row2]);
    NeverAtStart(t0, [row, row2], [row]);
    var t1 := DoBegin(t0, 0);
    StillNeverRight(t0, t1, [row]);
    var t2 := DoReadMeta(t1, 0);
    StillNeverRight(t1, t2, [row]);
    var t3 := DoLoadPart(t2, 0, 2, 1);
    StillNeverRight(t2, t3, [row]);
    assert [] + [row] == [row];
    var t4 := DoBegin(t3, 1);
    StillNeverRight(t3, t4, [row]);
    r := DoReadMeta(t4, 1);
    StillNeverRight(t4, r, [row]);
    assert r.Last().queries == HalfLoaded(row, row2).queries;
  }

  lemma NeverAtStart(t: Trace, rows: seq<Row>, payload: Payload)
    requires t.Valid() && |t.run| == 2 && t.Last() == Start(rows)
    requires "a" in Start(rows).c.metas && Execute(OneTable(), Start(rows).c, "q") != payload
    ensures NeverRight(t, payload)
  {
    hide Execute, Uploaded;
    assert t.run[0].c == NOTHING;
  }

  /**
   A query that loads while a re-upload removes the old partitions caches an answer the table never had;
   another query that read the old meta record is served it.
   */
  lemma TornHit(row: Row, row2: Row) returns (r: Trace)
    ensures StaleHit(r, 1, [row]) && NeverRight(r, [row])
  {
    var t := TornIsReachable(row, row2);
    hide IsRun, KeyOf, MetaOf, Uploaded, Execute, Extends, StaleHit, NeverRight;
    var t1 := DoLoadPart(t, 0, 2, 1);
    StillNeverRight(t, t1, [row]);
    assert [row] + [] == [row];
    var t2 := DoFinish(t1, 0, 2, 1);
    StillNeverRight(t1, t2, [row]);
    r := DoServe(t2, 1, 2, 1, [row]);
    StillNeverRight(t2, r, [row]);
  }

  /** The table is uploaded again, without rows, and the second old partition is removed. */
  function Torn(row: Row, row2: Row): System {
    var c := Uploaded(Uploaded(NOTHING, [row, row2]), []);
    HalfLoaded(row, row2).(c := c.(parts := c.parts - {("a", 1, 1)}))
  }

  lemma TornIsReachable(row: Row, row2: Row) returns (r: Trace)
    ensures r.Valid() && r.run != [] && r.Last() == Torn(row, row2) && NeverRight(r, [row])
    ensures "a" in Torn(row, row2).c.metas && Execute(OneTable(), Torn(row, row2).c, "q") == []
    ensures ("a", 1, 1) !in Torn(row, row2).c.parts
  {
    TornCatalogs(row, row2);
    var t0 := HalfLoadedIsReachable(row, row2);
    var s := t0.Last();
    PublishStep(s, []);
    var s1 := s.(c := Uploaded(s.c, []));
    DropStep(s1, ("a", 1, 1));
    hide IsRun, KeyOf, MetaOf, Uploaded, Execute, Extends, NeverRight, IsStore;
    var t1 := DoStore(t0, Publish("a", [], [], 1), s1);
    StillNeverRight(t0, t1, [row]);
    r := DoStore(t1, DropStale(("a", 1, 1)), Torn(row, row2));
    StillNeverRight(t1, r, [row]);
  }

  lemma DropStep(s: System, key: PartKey)
    requires key.0 in s.c.metas ==> key.1 != s.c.metas[key.0].version
    ensures IsStore(s, DropStale(key), s.(c := s.c.(parts := s.c.parts - {key})))
  {
  }
}
