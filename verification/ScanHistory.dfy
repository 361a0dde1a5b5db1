/**
 Scans and the whole write history: a scan that runs against flushes and compactions returns, for every
 key of its range, the newest version of the history as of its last reading of the memtable.
 */
module ScanHistory {
  import opened Options
  import opened Clock
  import opened Records
  import opened Layers
  import opened Compaction
  import opened Scanners
  import Readers
  import ReadHistory

  /** The run of module Readers inside a run with scans. */
  function BaseRun(run: seq<System>): seq<Readers.System> {
    seq(|run|, i requires 0 <= i < |run| => run[i].base)
  }

  function BaseSteps(run: seq<System>, steps: seq<Step>): seq<Readers.Step>
    requires |run| == |steps| + 1
  {
    seq(|steps|, i requires 0 <= i < |steps| => BaseStep(run[i], steps[i]))
  }

  lemma BaseIsRun(run: seq<System>, steps: seq<Step>)
    requires IsRun(run, steps)
    ensures Readers.IsRun(BaseRun(run), BaseSteps(run, steps))
  {
    hide Readers.Next, Readers.Known, BaseStep, Moves, Spares;
    var bases, moves := BaseRun(run), BaseSteps(run, steps);
    assert Readers.Init(bases[0]);
    forall i | 0 <= i < |moves|
      ensures Readers.Known(bases[i]) && Readers.Next(bases[i], moves[i], bases[i + 1])
    {
      assert Readers.Known(run[i].base) && Next(run[i], steps[i], run[i + 1]);
    }
  }

  /** Step i is the scan's last reading of the memtable before state n. */
  predicate LastReading(steps: seq<Step>, i: nat, n: nat, o: OpId)
    requires i < n <= |steps|
  {
    steps[i] == ScanMem(o) && forall j | i < j < n :: steps[j] != ScanMem(o)
  }

  lemma {:induction false} StaysSeen(run: seq<System>, steps: seq<Step>, i: nat, n: nat, o: OpId)
    requires IsRun(run, steps) && i < n < |run| && LastReading(steps, i, n, o)
    ensures Readers.Known(run[i].base) && o in run[i].scans && o in run[n].scans
    ensures
      var x, x' := run[i].scans[o], run[n].scans[o];
      x'.start == x.start && x'.end == x.end && x'.t == x.t && x'.seen == Versions(run[i].base)
  {
    assert Readers.Known(run[n - 1].base) && Next(run[n - 1], steps[n - 1], run[n]);
    hide Readers.Known, Readers.Next;
    if i < n - 1 {
      StaysSeen(run, steps, i, n - 1, o);
      SeenKept(run[n - 1], steps[n - 1], run[n], o);
    }
  }

  lemma SeenKept(s: System, step: Step, s': System, o: OpId)
    requires Readers.Known(s.base) && Next(s, step, s') && o in s.scans && step != ScanMem(o)
    ensures o in s'.scans
    ensures
      var x, x' := s.scans[o], s'.scans[o];
      x'.start == x.start && x'.end == x.end && x'.t == x.t && x'.seen == x.seen
  {
    hide Readers.Known, Readers.Next, Spares;
  }

  /**
   A scan that has ended found key k with value v exactly when k is in its range and v is the value of the
   newest version of k in the whole history of writes, at the scan's timestamp and as of its last
   reading of the memtable, for every version that the compactions until then had to keep.
   */
  lemma ScanReturnsNewestOfHistory(run: seq<System>, steps: seq<Step>, i: nat, n: nat, o: OpId, k: Key, v: Value, newest: Option<Rec>)
    requires IsRun(run, steps) && i < n < |run| && LastReading(steps, i, n, o)
    requires ReadHistory.WritesInOrder(BaseSteps(run, steps))
    requires o in run[n].scans && run[n].scans[o].pc.Ended?
    requires
      var hist := Elements(ReadHistory.History(BaseSteps(run, steps), i));
      Newest(hist, k, run[n].scans[o].t, newest) && Retained(hist, newest, ReadHistory.Watermark(BaseSteps(run, steps), i))
    ensures (k, v) in run[n].scans[o].pc.found <==> run[n].scans[o].Covers(k) && ValueOf(newest) == Some(v)
  {
    hide IsRun, Readers.IsRun, Readers.Known, Newest, Retained, ReadHistory.WritesInOrder;
    var x := run[n].scans[o];
    RunLength(run, steps);
    ScanReturnsVisible(run, steps, n, o);
    StaysSeen(run, steps, i, n, o);
    BaseIsRun(run, steps);
    var visible := SeenVisible(run, steps, i, k, x.t);
    ReadHistory.VisibleIsNewestOfHistory(BaseRun(run), BaseSteps(run, steps), i, k, x.t, visible, newest);
    FoundIsVisible(x, x.pc.found, k, v, visible);
  }

  lemma RunLength(run: seq<System>, steps: seq<Step>)
    requires IsRun(run, steps)
    ensures |run| == |steps| + 1
  {
  }

  lemma SeenVisible(run: seq<System>, steps: seq<Step>, i: nat, k: Key, t: Timestamp) returns (visible: Option<Rec>)
    requires IsRun(run, steps) && i < |run|
    ensures Readers.Known(run[i].base) && Newest(Versions(run[i].base), k, t, visible)
    ensures Unique(Versions(run[i].base))
  {
    RunKeepsInv(run, steps, i);
    var layers := [run[i].base.mem] + Readers.Contents(run[i].base, run[i].base.list);
    assert Layered(layers) && Unique(All(layers));
    hide IsRun, Inv, Layered, Unique, All, LayerLookup;
    LayeredIsNewest(layers, k, t);
    visible := LayerLookup(layers, k, t);
  }

  lemma FoundIsVisible(x: Scan, found: seq<(Key, Value)>, k: Key, v: Value, visible: Option<Rec>)
    requires IsAnswer(x, found) && Unique(x.seen) && Newest(x.seen, k, x.t, visible)
    ensures (k, v) in found <==> x.Covers(k) && ValueOf(visible) == Some(v)
  {
    if x.Covers(k) {
      if r :| Newest(x.seen, k, x.t, Some(r)) && r.value == Some(v) {
        NewestIsUnique(x.seen, k, x.t, Some(r), visible);
      }
      if ValueOf(visible) == Some(v) {
        assert Newest(x.seen, k, x.t, Some(visible.value));
      }
    }
  }
}
