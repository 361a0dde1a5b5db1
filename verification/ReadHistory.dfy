/**
 Modules Readers and Store put together: a get that runs against flushes and compactions returns the
 newest version of the whole write history, because every run of the reader machine is matched by a run
 of the store machine with the same memtable and the same tables.
 */
module ReadHistory {
  import opened Options
  import opened Clock
  import opened Records
  import opened Layers
  import opened Compaction
  import Readers
  import Store

  /** The writes among the first n steps, in order. */
  function History(steps: seq<Readers.Step>, n: nat): seq<Rec>
    requires n <= |steps|
  {
    if n == 0 then []
    else History(steps, n - 1) + if steps[n - 1].Write? then [steps[n - 1].r] else []
  }

  /** The greatest watermark among the first n steps. */
  function Watermark(steps: seq<Readers.Step>, n: nat): int
    requires n <= |steps|
  {
    if n == 0 then 0
    else
      var before := Watermark(steps, n - 1);
      if steps[n - 1].CompactSwap? && before < steps[n - 1].watermark then steps[n - 1].watermark else before
  }

  /** Timestamps of a key arrive in order over the whole run. */
  ghost predicate WritesInOrder(steps: seq<Readers.Step>) {
    forall i | 0 <= i < |steps| && steps[i].Write? :: Newer(steps[i].r, History(steps, i))
  }

  ghost predicate Newer(r: Rec, hist: seq<Rec>) {
    forall h | h in hist && h.key == r.key :: h.ts.Less(r.ts)
  }

  ghost predicate Matched(r: Readers.System, d: Store.Db) {
    && Readers.Known(r) && d.mem == r.mem && d.tables == Readers.Contents(r, r.list) && d.pending == []
    && d.phase == if r.flushing then Store.Published else Store.Idle
  }

  // ---------- growing a run of the store ----------

  datatype Trace = Trace(run: seq<Store.Db>, steps: seq<Store.Step>) {
    ghost predicate Valid() {
      Store.IsRun(run, steps)
    }

    function Last(): Store.Db
      requires run != []
    {
      run[|run| - 1]
    }
  }

  lemma Grow(t: Trace, step: Store.Step, s': Store.Db) returns (r: Trace)
    requires t.Valid() && Store.Next(t.Last(), step, s')
    ensures r.Valid() && r.run != [] && r.Last() == s'
  {
    hide Store.Next;
    r := Trace(t.run + [s'], t.steps + [step]);
    forall i | 0 <= i < |r.steps|
      ensures Store.Next(r.run[i], r.steps[i], r.run[i + 1])
    {
      assert i < |t.steps| ==> Store.Next(t.run[i], t.steps[i], t.run[i + 1]);
      assert r.run[i] == t.run[i];
    }
  }

  lemma LogExists(t: Trace)
    requires t.Valid() && !t.Last().phase.Down?
    ensures t.Last().wal != []
  {
    Store.RunKeepsInv(t.run, t.steps, |t.run| - 1);
    hide Store.LayersOk, Store.MemOk, Store.Arrival;
  }

  lemma Written(t: Trace, rec: Rec) returns (r: Trace)
    requires t.Valid() && t.Last().phase.Idle? && t.Last().pending == []
    requires Newer(rec, t.Last().hist)
    ensures r.Valid() && r.run != [] && r.Last().mem == Insert(t.Last().mem, rec) && r.Last().tables == t.Last().tables
    ensures r.Last().phase.Idle? && r.Last().pending == [] && r.Last().hist == t.Last().hist + [rec] && r.Last().gc == t.Last().gc
  {
    LogExists(t);
    var s := t.Last();
    var n := |s.wal| - 1;
    var s1 := s.(pending := [rec], wal := s.wal[..n] + [s.wal[n] + [rec]]);
    assert Store.Next(s, Store.Log(rec, false), s1);
    r := Grow(t, Store.Log(rec, false), s1);
    var s2 := s1.(mem := Insert(s1.mem, rec), hist := s1.hist + [rec], pending := []);
    assert Store.Next(s1, Store.Step.Insert, s2);
    hide Store.IsRun, Store.Next, Insert;
    r := Grow(r, Store.Step.Insert, s2);
  }

  lemma Published(t: Trace) returns (r: Trace)
    requires t.Valid() && t.Last().phase.Idle? && t.Last().pending == [] && t.Last().mem != []
    ensures r.Valid() && r.run != [] && r.Last().mem == t.Last().mem && r.Last().tables == [Sort(t.Last().mem)] + t.Last().tables
    ensures r.Last().phase.Published? && r.Last().pending == [] && r.Last().hist == t.Last().hist && r.Last().gc == t.Last().gc
  {
    var s := t.Last();
    var s1 := s.(files := [Sort(s.mem)] + s.files, phase := Store.TableWritten);
    var s2 := s1.(tables := [Sort(s.mem)] + s.tables, phase := Store.Published);
    assert Store.Next(s, Store.FlushWrite, s1) && Store.Next(s1, Store.FlushPublish, s2);
    hide Store.IsRun, Store.Next, Sort;
    r := Grow(t, Store.FlushWrite, s1);
    r := Grow(r, Store.FlushPublish, s2);
  }

  lemma Cleared(t: Trace) returns (r: Trace)
    requires t.Valid() && t.Last().phase.Published? && t.Last().pending == []
    ensures r.Valid() && r.run != [] && r.Last().mem == [] && r.Last().tables == t.Last().tables
    ensures r.Last().phase.Idle? && r.Last().pending == [] && r.Last().hist == t.Last().hist && r.Last().gc == t.Last().gc
  {
    var s := t.Last();
    var s1 := s.(mem := [], memFrom := |s.hist|, phase := Store.MemCleared);
    var s2 := s1.(wal := s1.wal + [[]], phase := Store.Deleting);
    assert Store.Next(s, Store.FlushClear, s1) && Store.Next(s1, Store.FlushRotate, s2);
    hide Store.IsRun, Store.Next;
    r := Grow(t, Store.FlushClear, s1);
    r := Grow(r, Store.FlushRotate, s2);
    r := Pruned(r);
  }

  /** Old segments are deleted one by one until only the fresh one is left. */
  lemma {:induction false} Pruned(t: Trace) returns (r: Trace)
    requires t.Valid() && t.Last().phase.Deleting? && t.Last().wal != []
    ensures r.Valid() && r.run != [] && r.Last().mem == t.Last().mem && r.Last().tables == t.Last().tables
    ensures r.Last().phase.Idle? && r.Last().pending == t.Last().pending && r.Last().hist == t.Last().hist && r.Last().gc == t.Last().gc
    decreases |t.Last().wal|
  {
    var s := t.Last();
    if |s.wal| == 1 {
      assert Store.Next(s, Store.FlushDone, s.(phase := Store.Idle));
      r := Grow(t, Store.FlushDone, s.(phase := Store.Idle));
    } else {
      var s1 := s.(wal := s.wal[1..], walFrom := s.walFrom + |s.wal[0]|);
      assert Store.Next(s, Store.FlushDelete, s1);
      hide Store.IsRun, Store.Next;
      r := Grow(t, Store.FlushDelete, s1);
      r := Pruned(r);
    }
  }

  lemma Merged(t: Trace, watermark: int) returns (r: Trace)
    requires t.Valid() && t.Last().phase.Idle? && t.Last().pending == [] && |t.Last().tables| > 1
    ensures r.Valid() && r.run != [] && r.Last().mem == t.Last().mem && r.Last().tables == [Compacted(t.Last().tables, watermark)]
    ensures r.Last().phase.Idle? && r.Last().pending == [] && r.Last().hist == t.Last().hist
    ensures r.Last().gc == if t.Last().gc < watermark then watermark else t.Last().gc
  {
    var s := t.Last();
    var c := Compacted(s.tables, watermark);
    var s1 := s.(files := [c] + s.files, phase := Store.Merged(watermark));
    var s2 := s1.(tables := [c], files := [c], phase := Store.Idle, gc := if s.gc < watermark then watermark else s.gc);
    assert Store.Next(s, Store.CompactWrite(watermark), s1) && Store.Next(s1, Store.CompactSwap, s2);
    hide Store.IsRun, Store.Next, Compacted;
    r := Grow(t, Store.CompactWrite(watermark), s1);
    r := Grow(r, Store.CompactSwap, s2);
  }

  // ---------- matching a run of the readers ----------

  /** Steps of gets, and the closing of files, change neither memtable nor reader list. */
  predicate Reads(step: Readers.Step) {
    !(step.Write? || step.FlushPublish? || step.FlushClear? || step.CompactSwap?)
  }

  lemma ReadsKeepView(s: Readers.System, step: Readers.Step, s': Readers.System)
    requires Readers.Known(s) && Readers.Next(s, step, s') && Reads(step)
    ensures s'.mem == s.mem && s'.list == s.list && s'.flushing == s.flushing
    ensures Readers.Contents(s', s.list) == Readers.Contents(s, s.list)
  {
    if !(step.CloseOne? || step.Lend? || step.Return? || step.Rest?) {
      Readers.OthersStay(s, step, s');
    }
    Readers.KnownContents(s, s');
  }

  lemma SimulatedStep(s: Readers.System, step: Readers.Step, s': Readers.System, t: Trace) returns (r: Trace)
    requires Readers.Known(s) && Readers.Known(s') && Readers.Next(s, step, s') && t.Valid() && Matched(s, t.Last())
    requires step.Write? ==> Newer(step.r, t.Last().hist)
    ensures r.Valid() && r.run != [] && Matched(s', r.Last())
    ensures r.Last().hist == t.Last().hist + if step.Write? then [step.r] else []
    ensures r.Last().gc == if step.CompactSwap? && t.Last().gc < step.watermark then step.watermark else t.Last().gc
  {
    hide Store.IsRun, Readers.Known, Readers.NextOfGet, Sort, Insert, Compacted, Newer;
    Nonempty(t);
    assert t.Last().hist + [] == t.Last().hist;
    if Reads(step) {
      ReadsKeepView(s, step, s');
      r := t;
    } else if step.Write? {
      Readers.KnownContents(s, s');
      r := Written(t, step.r);
    } else if step.FlushPublish? {
      Readers.PublishContents(s, step.id, s');
      r := Published(t);
    } else if step.FlushClear? {
      Readers.KnownContents(s, s');
      r := Cleared(t);
    } else {
      Readers.SwapContents(s, step.id, step.watermark, s');
      r := Merged(t, step.watermark);
    }
  }

  lemma Nonempty(t: Trace)
    requires t.Valid()
    ensures t.run != []
  {
  }

  /** Every run of the readers is a run of the store, with the same memtable and tables, over the same history. */
  lemma {:induction false} Simulated(run: seq<Readers.System>, steps: seq<Readers.Step>, n: nat) returns (t: Trace)
    requires Readers.IsRun(run, steps) && n < |run| && WritesInOrder(steps)
    ensures t.Valid() && t.run != [] && Matched(run[n], t.Last())
    ensures t.Last().hist == History(steps, n) && t.Last().gc == Watermark(steps, n)
    decreases n
  {
    hide Readers.IsRun, Readers.Init, Store.IsRun, Readers.Next, Readers.Known, Matched, WritesInOrder, Newer;
    RunShape(run, steps);
    if n == 0 {
      t := SimulatedStart(run[0]);
    } else {
      StepFacts(run, steps, n);
      var u := Simulated(run, steps, n - 1);
      t := SimulatedStep(run[n - 1], steps[n - 1], run[n], u);
    }
  }

  lemma SimulatedStart(s: Readers.System) returns (t: Trace)
    requires Readers.Init(s)
    ensures t.Valid() && t.run != [] && Matched(s, t.Last()) && t.Last().hist == [] && t.Last().gc == 0
  {
    t := Trace([Store.Db([], [], [], [], [[]], [], Store.Idle, 0, 0, 0)], []);
  }

  lemma RunShape(run: seq<Readers.System>, steps: seq<Readers.Step>)
    requires Readers.IsRun(run, steps)
    ensures |run| == |steps| + 1 && Readers.Init(run[0])
  {
  }

  lemma StepFacts(run: seq<Readers.System>, steps: seq<Readers.Step>, n: nat)
    requires Readers.IsRun(run, steps) && 0 < n < |run| && WritesInOrder(steps)
    ensures
      var step := steps[n - 1];
      && Readers.Known(run[n - 1]) && Readers.Known(run[n]) && Readers.Next(run[n - 1], step, run[n])
      && (step.Write? ==> Newer(step.r, History(steps, n - 1)))
  {
    Readers.RunKeepsInv(run, steps, n - 1);
    Readers.RunKeepsInv(run, steps, n);
    hide Readers.Next, Readers.Known, Newer, History;
  }

  // ---------- result ----------

  /** After its probe a get keeps what it looks for. */
  lemma {:induction false} StaysProbed(run: seq<Readers.System>, steps: seq<Readers.Step>, i: nat, n: nat)
    requires Readers.IsRun(run, steps) && i < n < |run| && steps[i].ProbeMem?
    ensures
      var o := steps[i].o;
      && o in run[i].ops && o in run[n].ops && !run[n].ops[o].pc.Probe?
      && run[n].ops[o].visible == steps[i].visible
  {
    assert Readers.Next(run[n - 1], steps[n - 1], run[n]);
    if i < n - 1 {
      StaysProbed(run, steps, i, n - 1);
      KeepsVisible(run[n - 1], steps[n - 1], run[n], steps[i].o);
    }
  }

  lemma KeepsVisible(s: Readers.System, step: Readers.Step, s': Readers.System, o: Readers.OpId)
    requires Readers.Known(s) && Readers.Next(s, step, s') && o in s.ops && !s.ops[o].pc.Probe?
    ensures o in s'.ops && !s'.ops[o].pc.Probe? && s'.ops[o].visible == s.ops[o].visible
  {
    hide Readers.Known, Readers.Contents, Sort, Insert, Compacted, Newest, Lookup;
  }

  /**
   A get that runs against any flushes and compactions returns what the newest version at or before its
   timestamp in the whole history of writes holds, as of its memtable probe, for every version that
   the compactions until then had to keep.
   */
  lemma GetReturnsNewestOfHistory(run: seq<Readers.System>, steps: seq<Readers.Step>, i: nat, n: nat, found: Option<Rec>)
    requires Readers.IsRun(run, steps) && WritesInOrder(steps) && i < n < |run| && steps[i].ProbeMem?
    requires steps[i].o in run[i].ops && steps[i].o in run[n].ops && run[n].ops[steps[i].o].pc.Done?
    requires
      var x := run[i].ops[steps[i].o];
      Newest(Elements(History(steps, i)), x.key, x.t, found) && Retained(Elements(History(steps, i)), found, Watermark(steps, i))
    ensures run[n].ops[steps[i].o].pc.result == ValueOf(found)
  {
    var x := run[i].ops[steps[i].o];
    StaysProbed(run, steps, i, n);
    Readers.GetReturnsVisible(run, steps, n, steps[i].o);
    assert Readers.Next(run[i], steps[i], run[i + 1]);
    VisibleIsNewestOfHistory(run, steps, i, x.key, x.t, steps[i].visible, found);
  }

  /** What is visible in the store at some moment is what is newest in the history until then. */
  lemma VisibleIsNewestOfHistory(run: seq<Readers.System>, steps: seq<Readers.Step>, i: nat, k: Key, time: Timestamp,
                                 visible: Option<Rec>, found: Option<Rec>)
    requires Readers.IsRun(run, steps) && WritesInOrder(steps) && i < |run| && Readers.Known(run[i])
    requires Newest(All([run[i].mem] + Readers.Contents(run[i], run[i].list)), k, time, visible)
    requires Newest(Elements(History(steps, i)), k, time, found) && Retained(Elements(History(steps, i)), found, Watermark(steps, i))
    ensures ValueOf(visible) == ValueOf(found)
  {
    var t := Simulated(run, steps, i);
    Store.GetIsNewestOfHistory(t.run, t.steps, |t.run| - 1, k, time, found);
    VisibleIsAnswer(run, steps, i, t, k, time, visible);
  }

  lemma VisibleIsAnswer(run: seq<Readers.System>, steps: seq<Readers.Step>, i: nat, t: Trace, k: Key, time: Timestamp, visible: Option<Rec>)
    requires Readers.IsRun(run, steps) && i < |run| && t.run != [] && Matched(run[i], t.Last())
    requires Newest(All([run[i].mem] + Readers.Contents(run[i], run[i].list)), k, time, visible)
    ensures Store.Get(t.Last(), k, time) == ValueOf(visible)
  {
    Readers.RunKeepsInv(run, steps, i);
    var layers := [run[i].mem] + Readers.Contents(run[i], run[i].list);
    assert Layered(layers) && Unique(All(layers));
    hide Readers.Inv, Readers.IsRun, Layered;
    LayeredIsNewest(layers, k, time);
    NewestIsUnique(All(layers), k, time, visible, LayerLookup(layers, k, time));
  }
}
