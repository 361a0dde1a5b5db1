/**
 The LSM store as a state machine: writes go to the log and then the memtable, flushes and compactions
 proceed file by file, and a crash may strike between any two of those steps. `hist` lists every
 write that took effect, in arrival order; every read the store means to keep answers from it.
 */
module Store {
  import opened Options
  import opened Clock
  import opened Records
  import opened Layers
  import opened Compaction
  import opened Recovery

  datatype Phase =
    | Idle
    | TableWritten             // flush: table durable, not yet in the reader list
    | Published                // flush: in the reader list, memtable not yet cleared
    | MemCleared               // flush: memtable cleared, log not yet rotated
    | Deleting                 // flush: log rotated, old segments being deleted one by one
    | Merged(watermark: int)   // compaction: merged table durable, old tables still in place
    | Down                     // recovery raised: there is no store, only its files

  datatype Db = Db(
    hist: seq<Rec>,
    mem: seq<Rec>,             // volatile
    tables: seq<seq<Rec>>,     // volatile: the reader list, newest first
    files: seq<seq<Rec>>,      // durable: table files, newest first
    wal: seq<seq<Rec>>,        // durable: log segments, oldest first
    pending: seq<Rec>,         // the write that is logged but not yet in the memtable, if any
    phase: Phase,
    walFrom: nat,              // history: position in hist of the first record still in the log
    memFrom: nat,              // history: position in hist of the first record in the memtable
    gc: int)                   // history: greatest watermark any compaction used

  datatype Step =
    | Log(r: Rec, rotate: bool)
    | Insert
    | FlushWrite
    | FlushPublish
    | FlushClear
    | FlushRotate
    | FlushDelete
    | FlushDone
    | CompactWrite(watermark: int)
    | CompactSwap
    | Crash

  /** The log's records in storage order, as a successful recovery restores them. */
  function Replay(wal: seq<seq<Rec>>): seq<Rec> {
    Sort(Concat(wal))
  }

  /** The process dies, then __init__ runs: _load_sstables, then _recover, which may raise. */
  function Restart(s: Db): Db {
    var died := s.(tables := [], mem := [], hist := s.hist + s.pending, pending := [], memFrom := s.walFrom);
    match Recover(FromLogAll(Concat(s.wal)))
    case None => died.(phase := Down)
    case Some(mem) => died.(tables := s.files, mem := mem, phase := Idle)
  }

  ghost predicate Next(s: Db, step: Step, s': Db) {
    match step
    case Log(r, rotate) =>
      && s.phase.Idle? && s.pending == [] && s.wal != []
         // timestamps of a key arrive in order (as the transaction layer provides)
      && (forall h | h in s.hist && h.key == r.key :: h.ts.Less(r.ts))
      && var n := |s.wal| - 1;
      && s' == s.(pending := [r], wal := if rotate then s.wal + [[r]] else s.wal[..n] + [s.wal[n] + [r]])
    case Insert =>
      && s.pending != []
      && s' == s.(mem := Records.Insert(s.mem, s.pending[0]), hist := s.hist + s.pending, pending := [])
    case FlushWrite =>
      && s.phase.Idle? && s.pending == [] && s.mem != []
      && s' == s.(files := [Sort(s.mem)] + s.files, phase := TableWritten)
    case FlushPublish =>
      && s.phase.TableWritten? && s.files != []
      && s' == s.(tables := [s.files[0]] + s.tables, phase := Published)
    case FlushClear =>
      s.phase.Published? && s' == s.(mem := [], memFrom := |s.hist|, phase := MemCleared)
    case FlushRotate =>
      s.phase.MemCleared? && s' == s.(wal := s.wal + [[]], phase := Deleting)
    case FlushDelete =>
      s.phase.Deleting? && |s.wal| > 1 && s' == s.(wal := s.wal[1..], walFrom := s.walFrom + |s.wal[0]|)
    case FlushDone =>
      s.phase.Deleting? && |s.wal| == 1 && s' == s.(phase := Idle)
    case CompactWrite(watermark) =>
      && s.phase.Idle? && s.pending == [] && |s.tables| > 1
      && s' == s.(files := [Compacted(s.tables, watermark)] + s.files, phase := Merged(watermark))
    case CompactSwap =>
      && s.phase.Merged? && s.files != []
      && s' == s.(tables := [s.files[0]], files := [s.files[0]], phase := Idle,
                  gc := if s.gc < s.phase.watermark then s.phase.watermark else s.gc)
    case Crash =>
      s' == Restart(s)
  }

  ghost predicate Init(s: Db) {
    s == Db([], [], [], [], [[]], [], Idle, 0, 0, 0)
  }

  ghost predicate IsRun(run: seq<Db>, steps: seq<Step>) {
    && |run| == |steps| + 1 && Init(run[0])
    && forall i | 0 <= i < |steps| :: Next(run[i], steps[i], run[i + 1])
  }

  /** MVCCStore.get. */
  function Get(s: Db, k: Key, t: Timestamp): Option<Value> {
    ValueOf(LayerLookup([s.mem] + s.tables, k, t))
  }

  // ---------- invariant ----------

  /** Per key, later arrivals carry greater timestamps. */
  ghost predicate Arrival(hist: seq<Rec>) {
    forall i, j | 0 <= i < j < |hist| && hist[i].key == hist[j].key :: hist[i].ts.Less(hist[j].ts)
  }

  ghost predicate MemOk(hist: seq<Rec>, mem: seq<Rec>, from: nat) {
    from <= |hist| && Sorted(mem) && Elements(mem) == Elements(hist[from..])
  }

  ghost predicate Droppable(hist: seq<Rec>, r: Rec, gc: int) {
    r.ts.physical < gc && (r.value.None? || !IsKeyNewest(Elements(hist), r))
  }

  /** Nothing below the memtable's part of the history is missing unless compaction may drop it. */
  ghost predicate Complete(hist: seq<Rec>, from: nat, layers: seq<seq<Rec>>, gc: int) {
    forall i | 0 <= i < from && i < |hist| :: hist[i] in All(layers) || Droppable(hist, hist[i], gc)
  }

  /** A dropped tombstone that is its key's newest version leaves no older version behind it. */
  ghost predicate NoResurrection(hist: seq<Rec>, mem: seq<Rec>, layers: seq<seq<Rec>>) {
    forall r, u | r in hist && r.value.None? && IsKeyNewest(Elements(hist), r) && r !in All(layers) && r !in mem &&
                  u in All(layers) :: u.key != r.key
  }

  ghost predicate LayersOk(hist: seq<Rec>, mem: seq<Rec>, from: nat, layers: seq<seq<Rec>>, gc: int) {
    && Layered(layers) && All(layers) <= Elements(hist)
    && Complete(hist, from, layers, gc) && NoResurrection(hist, mem, layers)
  }

  ghost predicate PhaseOk(s: Db) {
    match s.phase
    case TableWritten => s.files == [Sort(s.mem)] + s.tables && s.pending == []
    case Published => s.tables == s.files && s.tables != [] && Elements(s.tables[0]) == Elements(s.mem) && s.pending == []
    case Merged(watermark) => s.files == [Compacted(s.tables, watermark)] + s.tables && s.pending == []
    case Idle => s.tables == s.files
    case Down => false
    case _ => s.tables == s.files && s.pending == [] && s.mem == [] && s.memFrom == |s.hist|
  }

  ghost predicate Inv(s: Db) {
    if s.phase.Down? then DownInv(s) else UpInv(s)
  }

  /** The log is a suffix of the history, and with it the files answer for all of the history. */
  ghost predicate Durable(hist: seq<Rec>, wal: seq<seq<Rec>>, from: nat, files: seq<seq<Rec>>, gc: int) {
    && Arrival(hist) && wal != [] && from <= |hist| && Concat(wal) == hist[from..]
    && MemOk(hist, Replay(wal), from) && LayersOk(hist, Replay(wal), from, files, gc)
  }

  /** Only files are left, and they still hold what another attempt at recovery would need. */
  ghost predicate DownInv(s: Db) {
    && s.pending == [] && s.tables == [] && s.mem == [] && s.memFrom == s.walFrom
    && Durable(s.hist, s.wal, s.walFrom, s.files, s.gc) && HasEmptyValue(Concat(s.wal))
  }

  ghost predicate UpInv(s: Db) {
    && Arrival(s.hist + s.pending) && MemOk(s.hist, s.mem, s.memFrom)
    && s.walFrom <= s.memFrom && s.wal != [] && Concat(s.wal) == s.hist[s.walFrom..] + s.pending
    && LayersOk(s.hist, s.mem, s.memFrom, s.tables, s.gc)
    && LayersOk(s.hist, s.mem, s.memFrom, s.files, s.gc)
    && PhaseOk(s) && |s.pending| <= 1
  }

  lemma ArrivalIsUnique(hist: seq<Rec>)
    requires Arrival(hist)
    ensures Unique(Elements(hist))
  {
  }

  /** The memtable is a suffix of the history: it holds everything that arrived after one of its records. */
  lemma MemCovers(hist: seq<Rec>, mem: seq<Rec>, from: nat, r: Rec, u: Rec)
    requires Arrival(hist) && MemOk(hist, mem, from) && r in mem && u in hist && r.key == u.key && r.ts.AtMost(u.ts)
    ensures u in mem
  {
    assert r in Elements(hist[from..]);
    var j :| from <= j < |hist| && hist[j] == r;
    var i :| 0 <= i < |hist| && hist[i] == u;
    assert i >= j;
    assert u in hist[from..] && u in Elements(mem);
  }

  lemma MemOnTop(hist: seq<Rec>, mem: seq<Rec>, from: nat, layers: seq<seq<Rec>>, gc: int)
    requires Arrival(hist) && MemOk(hist, mem, from) && LayersOk(hist, mem, from, layers, gc)
    ensures Layered([mem] + layers)
    ensures All([mem] + layers) == Elements(mem) + All(layers) <= Elements(hist)
  {
    var top := [mem] + layers;
    AllSplits(top);
    assert top[1..] == layers;
    assert All(top) <= Elements(hist) by {
      assert forall r | r in hist[from..] :: r in hist;
    }
    forall i, j | 0 <= i < j < |top|
      ensures Covers(top[i], top[j])
    {
      if i == 0 {
        forall r: Rec, u: Rec | r in mem && u in top[j] && r.key == u.key && r.ts.AtMost(u.ts)
          ensures u in mem
        {
          assert u in All(layers);
          MemCovers(hist, mem, from, r, u);
        }
      } else {
        assert top[i] == layers[i - 1] && top[j] == layers[j - 1];
      }
    }
  }

  // ---------- every step keeps the invariant ----------

  /** One more write: nothing that may be missing becomes something that may not. */
  lemma LayersAfterWrite(hist: seq<Rec>, r: Rec, mem: seq<Rec>, mem': seq<Rec>, from: nat, from': nat, layers: seq<seq<Rec>>, gc: int)
    requires Arrival(hist + [r]) && from <= |hist| && from' <= from && LayersOk(hist, mem, from, layers, gc)
    requires Elements(mem) + {r} <= Elements(mem')
    ensures LayersOk(hist + [r], mem', from', layers, gc)
  {
    var hist' := hist + [r];
    assert Elements(hist') == Elements(hist) + {r};
    forall i | 0 <= i < from'
      ensures hist'[i] in All(layers) || Droppable(hist', hist'[i], gc)
    {
      assert hist'[i] == hist[i];
      if hist[i] !in All(layers) && hist[i].value.Some? {
        assert !IsKeyNewest(Elements(hist), hist[i]);
      }
    }
    forall x, u | x in hist' && x.value.None? && IsKeyNewest(Elements(hist'), x) && x !in All(layers) && x !in mem' &&
                  u in All(layers)
      ensures u.key != x.key
    {
      assert r in Elements(mem') && x != r && x in hist;
      assert forall y | y in mem :: y in Elements(mem');
      assert IsKeyNewest(Elements(hist), x);
    }
  }

  lemma InsertKeepsInv(s: Db, s': Db)
    requires UpInv(s) && Next(s, Step.Insert, s')
    ensures UpInv(s')
  {
    var r := s.pending[0];
    assert s.pending == [r];
    InsertSorted(s.mem, r);
    InsertElements(s.mem, r);
    assert s'.hist[s.memFrom..] == s.hist[s.memFrom..] + [r];
    assert s'.hist[s.walFrom..] + [] == s.hist[s.walFrom..] + [r];
    assert s'.hist + [] == s.hist + s.pending;
    LayersAfterWrite(s.hist, r, s.mem, s'.mem, s.memFrom, s.memFrom, s.tables, s.gc);
    LayersAfterWrite(s.hist, r, s.mem, s'.mem, s.memFrom, s.memFrom, s.files, s.gc);
  }

  lemma ConcatAppend(wal: seq<seq<Rec>>, segment: seq<Rec>)
    ensures Concat(wal + [segment]) == Concat(wal) + segment
  {
    assert (wal + [segment])[..|wal|] == wal;
  }

  lemma {:induction false} ConcatFirst(wal: seq<seq<Rec>>)
    requires wal != []
    ensures Concat(wal) == wal[0] + Concat(wal[1..])
  {
    var n := |wal| - 1;
    if n > 0 {
      ConcatFirst(wal[..n]);
      assert wal[..n][1..] == wal[1..][..n - 1];
    } else {
      assert wal[..0] == [];
    }
  }

  lemma LogKeepsInv(s: Db, r: Rec, rotate: bool, s': Db)
    requires UpInv(s) && Next(s, Log(r, rotate), s')
    ensures UpInv(s')
  {
    hide LayersOk;
    var n := |s.wal| - 1;
    assert s.hist + [] == s.hist;
    assert s.hist[s.walFrom..] + [] == s.hist[s.walFrom..];
    if rotate {
      ConcatAppend(s.wal, [r]);
    } else {
      ConcatAppend(s.wal[..n], s.wal[n]);
      ConcatAppend(s.wal[..n], s.wal[n] + [r]);
      assert s.wal[..n] + [s.wal[n]] == s.wal;
    }
  }

  /** Crash and recovery: the log holds a suffix of the history that reaches back at least to the last flush. */
  lemma CrashKeepsInv(s: Db, s': Db)
    requires UpInv(s) && s' == Restart(s)
    ensures Inv(s')
  {
    AlwaysDurable(s);
    RecoverIff(Concat(s.wal));
    hide UpInv, Durable, HasEmptyValue, FromLogAll, Recover;
    if !s'.phase.Down? {
      RestartedOk(s');
    }
  }

  /** At any moment the files alone would do. */
  lemma AlwaysDurable(s: Db)
    requires UpInv(s)
    ensures Durable(s.hist + s.pending, s.wal, s.walFrom, s.files, s.gc)
  {
    ReplayIsSuffix(s);
    CrashKeepsLayers(s);
    hide LayersOk, MemOk, Arrival, Replay;
    assert (s.hist + s.pending)[s.walFrom..] == s.hist[s.walFrom..] + s.pending;
  }

  lemma RestartedOk(s: Db)
    requires s.phase.Idle? && s.pending == [] && s.tables == s.files && s.mem == Replay(s.wal) && s.memFrom == s.walFrom
    requires Durable(s.hist, s.wal, s.walFrom, s.files, s.gc)
    ensures UpInv(s)
  {
    hide LayersOk, MemOk, Arrival, Replay, Concat;
    assert s.hist + [] == s.hist && s.hist[s.walFrom..] + [] == s.hist[s.walFrom..];
  }

  /** Nothing changes while recovery keeps raising. */
  lemma DownStaysDown(s: Db, step: Step, s': Db)
    requires DownInv(s) && s.phase.Down? && Next(s, step, s')
    ensures s' == s && DownInv(s')
  {
    RecoverIff(Concat(s.wal));
    hide Recover, FromLogAll, HasEmptyValue, Durable;
    assert s.hist + [] == s.hist;
  }

  lemma ReplayIsSuffix(s: Db)
    requires UpInv(s)
    ensures MemOk(s.hist + s.pending, Replay(s.wal), s.walFrom)
    ensures Elements(s.mem) + Elements(s.pending) <= Elements(Replay(s.wal))
  {
    hide LayersOk, Arrival;
    SortSorts(Concat(s.wal));
    assert (s.hist + s.pending)[s.walFrom..] == s.hist[s.walFrom..] + s.pending;
    forall x | x in Elements(s.mem)
      ensures x in Elements(Replay(s.wal))
    {
      assert x in s.hist[s.memFrom..];
      assert x in s.hist[s.walFrom..] && x in Concat(s.wal);
    }
    forall x | x in Elements(s.pending)
      ensures x in Elements(Replay(s.wal))
    {
      assert x in Concat(s.wal);
    }
  }

  lemma CrashKeepsLayers(s: Db)
    requires UpInv(s)
    ensures LayersOk(s.hist + s.pending, Replay(s.wal), s.walFrom, s.files, s.gc)
  {
    ReplayIsSuffix(s);
    hide Replay, LayersOk, Arrival;
    if s.pending == [] {
      assert s.hist + s.pending == s.hist;
      FewerFromMem(s.hist, s.mem, Replay(s.wal), s.memFrom, s.walFrom, s.files, s.gc);
    } else {
      var r := s.pending[0];
      assert s.pending == [r] && r in Elements(s.pending);
      LayersAfterWrite(s.hist, r, s.mem, Replay(s.wal), s.memFrom, s.walFrom, s.files, s.gc);
    }
  }

  /** A memtable that reaches further back asks no more of the tables. */
  lemma FewerFromMem(hist: seq<Rec>, mem: seq<Rec>, mem': seq<Rec>, from: nat, from': nat, layers: seq<seq<Rec>>, gc: int)
    requires LayersOk(hist, mem, from, layers, gc) && from' <= from && Elements(mem) <= Elements(mem')
    ensures LayersOk(hist, mem', from', layers, gc)
  {
    forall x | x !in mem'
      ensures x !in mem
    {
      assert x in mem ==> x in Elements(mem');
    }
  }

  lemma FlushWriteKeepsInv(s: Db, s': Db)
    requires UpInv(s) && Next(s, FlushWrite, s')
    ensures UpInv(s')
  {
    assert s.hist + [] == s.hist;
    SortSorts(s.mem);
    NewTable(s.hist, s.mem, s.memFrom, Sort(s.mem), s.files, s.gc);
  }

  /** A table with the memtable's records may be put on top of the others. */
  lemma NewTable(hist: seq<Rec>, mem: seq<Rec>, from: nat, table: seq<Rec>, layers: seq<seq<Rec>>, gc: int)
    requires Arrival(hist) && MemOk(hist, mem, from) && LayersOk(hist, mem, from, layers, gc)
    requires Sorted(table) && Elements(table) == Elements(mem)
    ensures LayersOk(hist, mem, from, [table] + layers, gc)
  {
    assert MemOk(hist, table, from);
    FewerFromMem(hist, mem, table, from, from, layers, gc);
    MemOnTop(hist, table, from, layers, gc);
    var top := [table] + layers;
    forall r, u | r in hist && r.value.None? && IsKeyNewest(Elements(hist), r) && r !in All(top) && r !in mem && u in All(top)
      ensures u.key != r.key
    {
      if u in table && u.key == r.key {
        assert u in Elements(hist);
        MemCovers(hist, table, from, u, r);
      }
    }
  }

  lemma FlushClearKeepsInv(s: Db, s': Db)
    requires UpInv(s) && Next(s, FlushClear, s')
    ensures UpInv(s')
  {
    assert s.hist + [] == s.hist;
    AllSplits(s.tables);
    forall i | 0 <= i < |s.hist|
      ensures s.hist[i] in All(s.tables) || Droppable(s.hist, s.hist[i], s.gc)
    {
      if i >= s.memFrom {
        assert s.hist[i] in s.hist[s.memFrom..];
        assert s.hist[i] in Elements(s.mem);
      }
    }
    forall r | r in s.mem
      ensures r in All(s.tables)
    {
      assert r in Elements(s.mem);
    }
    assert s.hist[|s.hist|..] == [];
  }

  lemma FlushRotateKeepsInv(s: Db, s': Db)
    requires UpInv(s) && Next(s, FlushRotate, s')
    ensures UpInv(s')
  {
    hide LayersOk;
    ConcatAppend(s.wal, []);
  }

  lemma FlushDeleteKeepsInv(s: Db, s': Db)
    requires UpInv(s) && Next(s, FlushDelete, s')
    ensures UpInv(s')
  {
    hide LayersOk;
    ConcatFirst(s.wal);
    var rest := s.hist[s.walFrom..] + s.pending;
    assert rest == s.wal[0] + Concat(s.wal[1..]);
    assert s.pending == [];
    assert Concat(s.wal[1..]) == rest[|s.wal[0]|..] == s.hist[s.walFrom + |s.wal[0]|..];
  }

  lemma CompactWriteKeepsInv(s: Db, watermark: int, s': Db)
    requires UpInv(s) && Next(s, CompactWrite(watermark), s')
    ensures UpInv(s')
  {
    hide LayersOk, Compacted, MemOk, Arrival;
    TablesAreGood(s);
    MergedOnTop(s.tables, watermark);
    SameUnion(s.hist, s.mem, s.memFrom, s.tables, s'.files, s.gc);
  }

  lemma TablesAreGood(s: Db)
    requires UpInv(s)
    ensures Layered(s.tables) && Unique(All(s.tables))
  {
    assert forall i | 0 <= i < |s.hist| :: (s.hist + s.pending)[i] == s.hist[i];
    ArrivalIsUnique(s.hist);
  }

  lemma SameUnion(hist: seq<Rec>, mem: seq<Rec>, from: nat, layers: seq<seq<Rec>>, layers': seq<seq<Rec>>, gc: int)
    requires LayersOk(hist, mem, from, layers, gc) && Layered(layers') && All(layers') == All(layers)
    ensures LayersOk(hist, mem, from, layers', gc)
  {
  }

  lemma CompactSwapKeepsInv(s: Db, s': Db)
    requires UpInv(s) && Next(s, CompactSwap, s')
    ensures UpInv(s')
  {
    assert s.hist + [] == s.hist;
    ArrivalIsUnique(s.hist);
    var watermark := s.phase.watermark;
    var c := Compacted(s.tables, watermark);
    CompactedFacts(s.tables, watermark);
    AllSplits([c]);
    assert All([c]) == Elements(c);
    SwapComplete(s, watermark, s'.gc);
    SwapResurrectsNothing(s, watermark);
  }

  lemma SwapComplete(s: Db, watermark: int, gc: int)
    requires UpInv(s) && gc >= watermark && gc >= s.gc && Unique(All(s.tables))
    ensures Complete(s.hist, s.memFrom, [Compacted(s.tables, watermark)], gc)
  {
    var c := Compacted(s.tables, watermark);
    CompactedFacts(s.tables, watermark);
    forall i | 0 <= i < s.memFrom
      ensures s.hist[i] in All([c]) || Droppable(s.hist, s.hist[i], gc)
    {
      var r := s.hist[i];
      if r in All(s.tables) && r !in c {
        assert IsKeyNewest(Elements(s.hist), r) ==> IsKeyNewest(All(s.tables), r);
      }
    }
  }

  lemma SwapResurrectsNothing(s: Db, watermark: int)
    requires UpInv(s) && Unique(All(s.tables))
    ensures NoResurrection(s.hist, s.mem, [Compacted(s.tables, watermark)])
  {
    var c := Compacted(s.tables, watermark);
    CompactedFacts(s.tables, watermark);
    forall r, u | r in s.hist && r.value.None? && IsKeyNewest(Elements(s.hist), r) && r !in All([c]) && r !in s.mem &&
                  u in All([c])
      ensures u.key != r.key
    {
      assert u in c && u in Elements(c);
      assert r in All(s.tables) ==> IsKeyNewest(All(s.tables), r);
    }
  }

  lemma NextKeepsInv(s: Db, step: Step, s': Db)
    requires Inv(s) && Next(s, step, s')
    ensures Inv(s')
  {
    if s.phase.Down? {
      DownStaysDown(s, step, s');
    } else {
      UpStepKeepsInv(s, step, s');
    }
  }

  lemma UpStepKeepsInv(s: Db, step: Step, s': Db)
    requires UpInv(s) && !s.phase.Down? && Next(s, step, s')
    ensures Inv(s')
  {
    match step
    case Log(r, rotate) => LogKeepsInv(s, r, rotate, s');
    case Insert => InsertKeepsInv(s, s');
    case FlushWrite => FlushWriteKeepsInv(s, s');
    case FlushPublish => SortSorts(s.mem);
    case FlushClear => FlushClearKeepsInv(s, s');
    case FlushRotate => FlushRotateKeepsInv(s, s');
    case FlushDelete => FlushDeleteKeepsInv(s, s');
    case FlushDone =>
    case CompactWrite(watermark) => CompactWriteKeepsInv(s, watermark, s');
    case CompactSwap => CompactSwapKeepsInv(s, s');
    case Crash => CrashKeepsInv(s, s');
  }

  lemma {:induction false} RunKeepsInv(run: seq<Db>, steps: seq<Step>, n: nat)
    requires IsRun(run, steps) && n < |run|
    ensures Inv(run[n])
  {
    if n > 0 {
      RunKeepsInv(run, steps, n - 1);
      NextKeepsInv(run[n - 1], steps[n - 1], run[n]);
    }
  }

  // ---------- results ----------

  /**
   The layered store refines the plain history: in every reachable state with a running store (mid-flush,
   mid-compaction or after any number of crashes) get returns what the newest version at or before t in
   the whole history holds, for every read that no compaction so far was allowed to forget.
   */
  lemma GetIsNewestOfHistory(run: seq<Db>, steps: seq<Step>, n: nat, k: Key, t: Timestamp, found: Option<Rec>)
    requires IsRun(run, steps) && n < |run| && !run[n].phase.Down?
    requires Newest(Elements(run[n].hist), k, t, found) && Retained(Elements(run[n].hist), found, run[n].gc)
    ensures Get(run[n], k, t) == ValueOf(found)
  {
    RunKeepsInv(run, steps, n);
    UnionAnswers(run[n], k, t, found);
  }

  lemma LayersAreGood(s: Db)
    requires UpInv(s)
    ensures Arrival(s.hist) && Layered([s.mem] + s.tables) && Unique(All([s.mem] + s.tables))
    ensures All([s.mem] + s.tables) == Elements(s.mem) + All(s.tables) <= Elements(s.hist)
  {
    assert forall i | 0 <= i < |s.hist| :: (s.hist + s.pending)[i] == s.hist[i];
    ArrivalIsUnique(s.hist);
    MemOnTop(s.hist, s.mem, s.memFrom, s.tables, s.gc);
  }

  /** The union of the layers answers like the history, up to forgotten tombstones. */
  lemma UnionAnswers(s: Db, k: Key, t: Timestamp, found: Option<Rec>)
    requires UpInv(s) && Newest(Elements(s.hist), k, t, found) && Retained(Elements(s.hist), found, s.gc)
    ensures Get(s, k, t) == ValueOf(found)
  {
    LayersAreGood(s);
    var top := [s.mem] + s.tables;
    LayeredIsNewest(top, k, t);
    var got := LayerLookup(top, k, t);
    if found.Some? {
      var r := found.value;
      if r in All(top) {
        assert Newest(All(top), k, t, found);
        NewestIsUnique(All(top), k, t, found, got);
      } else {
        ForgottenTombstone(s, r);
        assert forall u | u in All(top) :: u.key != k;
      }
    }
  }

  lemma ForgottenTombstone(s: Db, r: Rec)
    requires UpInv(s) && Arrival(s.hist) && r in s.hist && r !in s.mem && r !in All(s.tables)
    requires IsKeyNewest(Elements(s.hist), r) || r.ts.physical >= s.gc
    ensures r.value.None? && IsKeyNewest(Elements(s.hist), r)
    ensures forall u | u in All(s.tables) || u in s.mem :: u.key != r.key
  {
    forall i | s.memFrom <= i < |s.hist|
      ensures s.hist[i] in s.mem
    {
      assert s.hist[i] in s.hist[s.memFrom..] && s.hist[i] in Elements(s.mem);
    }
    forall u | u in s.mem
      ensures u.key != r.key
    {
      if u.key == r.key {
        assert u in Elements(s.mem) && u in s.hist[s.memFrom..] && u in Elements(s.hist);
        MemCovers(s.hist, s.mem, s.memFrom, u, r);
      }
    }
  }

  /**
   Restarting fails exactly when an empty value was put since the oldest log segment still kept: the log
   is the history from there on, and one record of it is neither a deletion nor a readable value.
   */
  lemma RestartFailsIff(run: seq<Db>, steps: seq<Step>, n: nat)
    requires IsRun(run, steps) && n < |steps| && steps[n] == Crash
    ensures run[n + 1].phase.Down? <==> exists r :: r in Concat(run[n].wal) && r.value == Some("")
    ensures run[n].walFrom <= |run[n].hist| && Concat(run[n].wal) == run[n].hist[run[n].walFrom..] + run[n].pending
  {
    RunKeepsInv(run, steps, n);
    assert Next(run[n], steps[n], run[n + 1]);
    RecoverIff(Concat(run[n].wal));
    hide Recover, FromLogAll, Sort;
  }

  /** A store that fails to restart fails every time. */
  lemma {:induction false} DownForever(run: seq<Db>, steps: seq<Step>, m: nat, n: nat)
    requires IsRun(run, steps) && m <= n < |run| && run[m].phase.Down?
    ensures run[n].phase.Down?
  {
    hide Next, Durable, HasEmptyValue;
    if m < n {
      DownForever(run, steps, m, n - 1);
      RunKeepsInv(run, steps, n - 1);
      DownStaysDown(run[n - 1], steps[n - 1], run[n]);
    }
  }

  /** It does happen: put an empty value, crash, and the store cannot be opened again. */
  lemma EmptyValueBringsDown() returns (run: seq<Db>, steps: seq<Step>)
    ensures IsRun(run, steps) && |run| == 4 && run[2].phase.Idle? && run[3].phase.Down?
    ensures Get(run[2], 7, Timestamp(1, 0)) == Some("")
  {
    var r := Rec(7, Timestamp(1, 0), Some(""));
    var s0 := Db([], [], [], [], [[]], [], Idle, 0, 0, 0);
    var s1 := s0.(pending := [r], wal := [[r]]);
    var s2 := s1.(mem := [r], hist := [r], pending := []);
    hide Next, Restart, IsRun, Get;
    EmptyValueLogged(r, s0, s1);
    EmptyValueStored(r, s1, s2);
    EmptyValueFails(r, s2);
    ThreeSteps(s0, Log(r, false), s1, Step.Insert, s2, Crash, Restart(s2));
    run, steps := [s0, s1, s2, Restart(s2)], [Log(r, false), Step.Insert, Crash];
  }

  lemma ThreeSteps(s0: Db, a: Step, s1: Db, b: Step, s2: Db, c: Step, s3: Db)
    requires Init(s0) && Next(s0, a, s1) && Next(s1, b, s2) && Next(s2, c, s3)
    ensures IsRun([s0, s1, s2, s3], [a, b, c])
  {
    hide Next;
  }

  lemma EmptyValueLogged(r: Rec, s0: Db, s1: Db)
    requires Init(s0) && s1 == s0.(pending := [r], wal := [[r]])
    ensures Next(s0, Log(r, false), s1)
  {
    var wal: seq<seq<Rec>> := [[]];
    assert wal[..0] == [] && wal[0] + [r] == [r];
  }

  lemma EmptyValueStored(r: Rec, s1: Db, s2: Db)
    requires s1.phase.Idle? && s1.pending == [r] && s1.mem == [] && s1.hist == []
    requires s2 == s1.(mem := [r], hist := [r], pending := [])
    ensures Next(s1, Step.Insert, s2)
  {
    assert [] + s1.pending == [r];
  }

  lemma EmptyValueFails(r: Rec, s2: Db)
    requires s2.wal == [[r]] && s2.mem == [r] && s2.tables == [] && r.value == Some("")
    ensures Next(s2, Crash, Restart(s2)) && Restart(s2).phase.Down? && Get(s2, r.key, r.ts) == Some("")
  {
    hide Recover, FromLogAll, Concat, LayerLookup;
    OneRecordLog(r);
    EmptyValueIsRead(r);
    assert [s2.mem] + s2.tables == [[r]];
  }

  lemma OneRecordLog(r: Rec)
    requires r.value == Some("")
    ensures Recover(FromLogAll(Concat([[r]]))) == None
  {
    hide Recover;
    assert Concat([[r]]) == [r] by {
      assert [[r]][..0] == [];
    }
    RecoverIff([r]);
    assert r in [r];
  }

  lemma EmptyValueIsRead(r: Rec)
    ensures LayerLookup([[r]], r.key, r.ts) == Some(r)
  {
    assert [[r]][0] == [r] && Lookup([r], r.key, r.ts) == Some(r);
  }

  /**
   Crash recovery: whatever the step boundary, a store that restarts (see RestartFailsIff) answers every
   retained read as if every acknowledged write had been kept. The write in flight, if any, took effect as well.
   */
  lemma RecoveryKeepsAcknowledged(run: seq<Db>, steps: seq<Step>, n: nat, k: Key, t: Timestamp, found: Option<Rec>)
    requires IsRun(run, steps) && n < |steps| && steps[n] == Crash
    requires Newest(Elements(run[n].hist + run[n].pending), k, t, found)
    requires Retained(Elements(run[n].hist + run[n].pending), found, run[n].gc)
    ensures !run[n + 1].phase.Down? ==> Get(run[n + 1], k, t) == ValueOf(found)
    ensures !run[n + 1].phase.Down? && run[n].pending == [] && Retained(Elements(run[n].hist), found, run[n].gc) ==>
              Get(run[n + 1], k, t) == Get(run[n], k, t)
  {
    assert Next(run[n], steps[n], run[n + 1]);
    if !run[n + 1].phase.Down? {
      if run[n].phase.Down? {
        DownForever(run, steps, n, n + 1);
      }
      GetIsNewestOfHistory(run, steps, n + 1, k, t, found);
      if run[n].pending == [] {
        assert run[n].hist + run[n].pending == run[n].hist;
        GetIsNewestOfHistory(run, steps, n, k, t, found);
      }
    }
  }
}
