/**
 Several buffered writes of one key in one transaction. They reach the store in buffer order under one
 commit timestamp, and the record inserted first keeps answering; the transaction's own reads before
 the commit answer from the end of the buffer.
 */
module BufferedWrites {
  import opened Options
  import opened Clock
  import opened Records
  import opened MemTables
  import opened Layers
  import opened Transactions

  /** The apply loop of commit, on the memtable. */
  function Applied(mem: seq<Rec>, ms: seq<Mutation>, ts: Timestamp): seq<Rec>
    decreases |ms|
  {
    if ms == [] then mem else Applied(Insert(mem, Rec(ms[0].key, ts, ms[0].value)), ms[1..], ts)
  }

  function FirstWritten(ms: seq<Mutation>, k: Key): Option<Option<Value>> {
    if ms == [] then None else if ms[0].key == k then Some(ms[0].value) else FirstWritten(ms[1..], k)
  }

  /** What Transaction.Buffered answers: the last buffered value, if the key was written. */
  function OwnRead(ms: seq<Mutation>, k: Key): Option<Option<Value>> {
    if FirstWritten(ms, k).Some? then Some(Written(ms, k)) else None
  }

  lemma {:induction false} AppliedAnswers(mem: seq<Rec>, ms: seq<Mutation>, ts: Timestamp, k: Key, t: Timestamp)
    requires Sorted(mem) && ts.AtMost(t)
    ensures Sorted(Applied(mem, ms, ts))
    ensures
      Lookup(Applied(mem, ms, ts), k, t) ==
      var before, first := Lookup(mem, k, t), FirstWritten(ms, k);
      if first.Some? && (before.None? || before.value.ts.Less(ts)) then Some(Rec(k, ts, first.value)) else before
    decreases |ms|
  {
    if ms != [] {
      var r := Rec(ms[0].key, ts, ms[0].value);
      InsertSorted(mem, r);
      LookupAfterInsert(mem, r, k, t);
      hide Insert, Lookup, Sorted;
      AppliedAnswers(Insert(mem, r), ms[1..], ts, k, t);
    }
  }

  /**
   After the commit every read of a written key, until a later write of it, returns the value buffered
   first. That is the transaction's own last read of the key exactly when first and last agree.
   */
  lemma CommittedReadIff(mem: seq<Rec>, tables: seq<seq<Rec>>, ms: seq<Mutation>, ts: Timestamp, k: Key, t: Timestamp)
    requires Sorted(mem) && ts.AtMost(t) && FirstWritten(ms, k).Some?
    requires forall u | u in mem && u.key == k :: u.ts.Less(ts)
    ensures Some(ValueOf(LayerLookup([Applied(mem, ms, ts)] + tables, k, t))) == FirstWritten(ms, k)
    ensures Some(ValueOf(LayerLookup([Applied(mem, ms, ts)] + tables, k, t))) == OwnRead(ms, k) <==>
            FirstWritten(ms, k) == Some(Written(ms, k))
  {
    OlderAnswer(mem, ts, k, t);
    AppliedAnswers(mem, ms, ts, k, t);
    hide Lookup, Applied, FirstWritten, Sorted;
    assert ([Applied(mem, ms, ts)] + tables)[0] == Applied(mem, ms, ts);
  }

  lemma OlderAnswer(mem: seq<Rec>, ts: Timestamp, k: Key, t: Timestamp)
    requires Sorted(mem) && forall u | u in mem && u.key == k :: u.ts.Less(ts)
    ensures Lookup(mem, k, t).Some? ==> Lookup(mem, k, t).value.ts.Less(ts)
  {
    LookupIsNewest(mem, k, t);
    hide Lookup;
  }

  /** When a flush falls between two of the writes, the first one after it answers, if there is one. */
  lemma CommittedReadAcrossFlush(mem: seq<Rec>, tables: seq<seq<Rec>>, ms: seq<Mutation>, n: nat, ts: Timestamp, k: Key, t: Timestamp)
    requires Sorted(mem) && ts.AtMost(t) && n <= |ms| && FirstWritten(ms, k).Some?
    requires forall u | u in mem && u.key == k :: u.ts.Less(ts)
    ensures
      var answer := LayerLookup([Applied([], ms[n..], ts)] + ([Applied(mem, ms[..n], ts)] + tables), k, t);
      && Some(ValueOf(answer)) == (if FirstWritten(ms[n..], k).Some? then FirstWritten(ms[n..], k) else FirstWritten(ms[..n], k))
      && (Some(ValueOf(answer)) == OwnRead(ms, k) <==>
            Some(Written(ms, k)) == if FirstWritten(ms[n..], k).Some? then FirstWritten(ms[n..], k) else FirstWritten(ms[..n], k))
  {
    FirstSplits(ms, n, k);
    AppliedAnswers([], ms[n..], ts, k, t);
    assert Lookup([], k, t) == None;
    hide Lookup, Applied, Sorted;
    var lower := [Applied(mem, ms[..n], ts)] + tables;
    var layers := [Applied([], ms[n..], ts)] + lower;
    assert layers[0] == Applied([], ms[n..], ts) && layers[1..] == lower;
    if FirstWritten(ms[n..], k).None? {
      CommittedReadIff(mem, tables, ms[..n], ts, k, t);
    }
  }

  lemma {:induction false} FirstSplits(ms: seq<Mutation>, n: nat, k: Key)
    requires n <= |ms|
    ensures FirstWritten(ms, k) == if FirstWritten(ms[..n], k).Some? then FirstWritten(ms[..n], k) else FirstWritten(ms[n..], k)
  {
    if n == 0 {
      assert ms[0..] == ms;
    } else {
      FirstSplits(ms[1..], n - 1, k);
      assert ms[..n][1..] == ms[1..][..n - 1] && ms[1..][n - 1..] == ms[n..];
    }
  }

  /** So a second value for the same key, buffered after the first, is read back before the commit and lost after it. */
  lemma SecondWriteIsLost(k: Key, first: Option<Value>, second: Option<Value>, ts: Timestamp)
    requires first != second
    ensures
      var ms := [Mutation(k, first), Mutation(k, second)];
      OwnRead(ms, k) == Some(second) && ValueOf(LayerLookup([Applied([], ms, ts)], k, ts)) == first
  {
    var ms := [Mutation(k, first), Mutation(k, second)];
    assert ms[0].key == k && ms[1].key == k;
    CommittedReadIff([], [], ms, ts, k, ts);
    hide Applied, LayerLookup;
    assert [Applied([], ms, ts)] + [] == [Applied([], ms, ts)];
  }
}
