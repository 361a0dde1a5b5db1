/**
 Compaction: merge all tables, drop byte-identical duplicates, old tombstones that are a key's newest
 version, and old versions that are not. Every read the source means to keep is unchanged.
 */
module Compaction {
  import opened Options
  import opened Clock
  import opened Records
  import opened Layers

  predicate SameIdent(a: Rec, b: Rec) {
    a.key == b.key && a.ts == b.ts
  }

  /** Whether record i of the merged, sorted list survives. */
  predicate Keeps(s: seq<Rec>, i: nat, watermark: int)
    requires i < |s|
  {
    if i > 0 && SameIdent(s[i - 1], s[i]) then false
    else if i == 0 || s[i - 1].key != s[i].key then !(s[i].value.None? && s[i].ts.physical < watermark)
    else s[i].ts.physical >= watermark
  }

  function Kept(s: seq<Rec>, n: nat, watermark: int): seq<Rec>
    requires n <= |s|
  {
    if n == 0 then []
    else Kept(s, n - 1, watermark) + if Keeps(s, n - 1, watermark) then [s[n - 1]] else []
  }

  function Concat(layers: seq<seq<Rec>>): seq<Rec> {
    if layers == [] then [] else Concat(layers[..|layers| - 1]) + layers[|layers| - 1]
  }

  function Compacted(tables: seq<seq<Rec>>, watermark: int): seq<Rec> {
    var s := Sort(Concat(tables));
    Kept(s, |s|, watermark)
  }

  /** compact(): the merge and the garbage-collecting loop, statement for statement. */
  method Compact(tables: seq<seq<Rec>>, watermark: int) returns (kept: seq<Rec>)
    ensures kept == Compacted(tables, watermark)
    ensures StrictlySorted(kept)
  {
    CompactedStrictly(tables, watermark);
    var records: seq<Rec> := [];
    for i := 0 to |tables|
      invariant records == Concat(tables[..i])
    {
      assert tables[..i + 1][..i] == tables[..i];
      records := records + tables[i];
    }
    assert tables[..|tables|] == tables;
    records := Sort(records);
    kept := [];
    var currentKey: Option<Key> := None;
    var newestForKey := false;
    var prevIdent: Option<(Key, Timestamp)> := None;
    for i := 0 to |records|
      invariant kept == Kept(records, i, watermark)
      invariant i == 0 ==> currentKey == None && prevIdent == None
      invariant i > 0 ==> currentKey == Some(records[i - 1].key) && prevIdent == Some((records[i - 1].key, records[i - 1].ts))
      invariant i > 0 ==> !newestForKey
    {
      var r := records[i];
      if Some((r.key, r.ts)) == prevIdent {
        continue;
      }
      prevIdent := Some((r.key, r.ts));
      if Some(r.key) != currentKey {
        currentKey, newestForKey := Some(r.key), true;
      }
      if newestForKey {
        if !(r.value.None? && r.ts.physical < watermark) {
          kept := kept + [r];
        }
        newestForKey := false;
      } else if r.ts.physical >= watermark {
        kept := kept + [r];
      }
    }
  }

  lemma {:induction false} ConcatElements(layers: seq<seq<Rec>>)
    ensures Elements(Concat(layers)) == All(layers)
  {
    if layers != [] {
      var n := |layers| - 1;
      ConcatElements(layers[..n]);
      assert layers == layers[..n] + [layers[n]];
      assert forall r :: r in All(layers) <==> r in All(layers[..n]) || r in layers[n];
      assert forall r :: r in Elements(Concat(layers)) <==> r in Elements(Concat(layers[..n])) || r in layers[n];
    }
  }

  lemma {:induction false} KeptAt(s: seq<Rec>, n: nat, watermark: int, r: Rec) returns (i: nat)
    requires n <= |s| && r in Kept(s, n, watermark)
    ensures i < n && Keeps(s, i, watermark) && s[i] == r
  {
    if r in Kept(s, n - 1, watermark) {
      i := KeptAt(s, n - 1, watermark, r);
    } else {
      i := n - 1;
    }
  }

  lemma {:induction false} KeptIs(s: seq<Rec>, n: nat, watermark: int, i: nat)
    requires i < n <= |s| && Keeps(s, i, watermark)
    ensures s[i] in Kept(s, n, watermark)
  {
    if i < n - 1 {
      KeptIs(s, n - 1, watermark, i);
    }
  }

  lemma {:induction false} KeptSorted(s: seq<Rec>, n: nat, watermark: int)
    requires Sorted(s) && n <= |s|
    ensures Sorted(Kept(s, n, watermark))
  {
    if n > 0 {
      KeptSorted(s, n - 1, watermark);
      var kept := Kept(s, n - 1, watermark);
      forall j | 0 <= j < |kept|
        ensures !Precedes(s[n - 1], kept[j])
      {
        assert kept[j] in kept;
        var i := KeptAt(s, n - 1, watermark, kept[j]);
      }
    }
  }

  ghost predicate IsKeyNewest(versions: set<Rec>, r: Rec) {
    r in versions && forall u | u in versions && u.key == r.key :: u.ts.AtMost(r.ts)
  }

  /** The leftmost copy of a record is never skipped as a duplicate. */
  lemma FirstCopy(s: seq<Rec>, r: Rec) returns (i: nat)
    requires Sorted(s) && Unique(Elements(s)) && r in s
    ensures i < |s| && s[i] == r && (i > 0 ==> !SameIdent(s[i - 1], s[i]))
  {
    i :| i < |s| && s[i] == r;
    while i > 0 && SameIdent(s[i - 1], s[i])
      invariant i < |s| && s[i] == r
    {
      assert s[i - 1] in Elements(s) && s[i] in Elements(s);
      i := i - 1;
    }
  }

  /** What is dropped is below the watermark, and a tombstone or not its key's newest version. */
  lemma DroppedIsOld(s: seq<Rec>, watermark: int, r: Rec)
    requires Sorted(s) && Unique(Elements(s)) && r in s && r !in Kept(s, |s|, watermark)
    ensures r.ts.physical < watermark
    ensures r.value.None? || !IsKeyNewest(Elements(s), r)
  {
    var i := FirstCopy(s, r);
    if Keeps(s, i, watermark) {
      KeptIs(s, |s|, watermark, i);
    }
    if i > 0 && s[i - 1].key == s[i].key {
      assert !Precedes(s[i], s[i - 1]) && s[i - 1] in Elements(s);
    }
  }

  lemma FirstOfKeyIsNewest(s: seq<Rec>, i: nat)
    requires Sorted(s) && i < |s| && (i == 0 || s[i - 1].key != s[i].key)
    ensures IsKeyNewest(Elements(s), s[i])
  {
    forall u | u in Elements(s) && u.key == s[i].key
      ensures u.ts.AtMost(s[i].ts)
    {
      assert forall a, b | 0 <= a < b < |s| :: !Precedes(s[b], s[a]) && s[a].key <= s[b].key;
      var j :| 0 <= j < |s| && s[j] == u;
    }
  }

  /** A key's versions disappear only together: if any survives, so does the newest. */
  lemma NewestSurvives(s: seq<Rec>, watermark: int, r: Rec, newest: Rec)
    requires Sorted(s) && Unique(Elements(s)) && r in Kept(s, |s|, watermark)
    requires IsKeyNewest(Elements(s), newest) && newest.key == r.key
    ensures newest in Kept(s, |s|, watermark)
  {
    var i := KeptAt(s, |s|, watermark, r);
    assert s[i] in Elements(s);
    if i == 0 || s[i - 1].key != s[i].key {
      FirstOfKeyIsNewest(s, i);
      assert newest == r;
    } else if newest !in Kept(s, |s|, watermark) {
      DroppedIsOld(s, watermark, newest);
    }
  }

  lemma CompactedFacts(tables: seq<seq<Rec>>, watermark: int)
    requires Unique(All(tables))
    ensures Sorted(Compacted(tables, watermark)) && Elements(Compacted(tables, watermark)) <= All(tables)
    ensures forall r | r in All(tables) && r !in Compacted(tables, watermark) ::
              r.ts.physical < watermark && (r.value.None? || !IsKeyNewest(All(tables), r))
    ensures forall r, n | r in Compacted(tables, watermark) && IsKeyNewest(All(tables), n) && n.key == r.key ::
              n in Compacted(tables, watermark)
    ensures forall r | r in Compacted(tables, watermark) :: r.ts.physical >= watermark || IsKeyNewest(All(tables), r)
    ensures forall r :: r in Compacted(tables, watermark) <==>
                        r in All(tables) && (r.ts.physical >= watermark || (IsKeyNewest(All(tables), r) && r.value.Some?))
  {
    var s := Sort(Concat(tables));
    SortSorts(Concat(tables));
    ConcatElements(tables);
    KeptSorted(s, |s|, watermark);
    forall r | r in Compacted(tables, watermark)
      ensures r in s && (r.ts.physical >= watermark || (IsKeyNewest(All(tables), r) && r.value.Some?))
    {
      var i := KeptAt(s, |s|, watermark, r);
      if i == 0 || s[i - 1].key != s[i].key {
        FirstOfKeyIsNewest(s, i);
      }
    }
    assert forall r | r in Compacted(tables, watermark) :: r in Elements(s);
    forall r | r in All(tables) && r !in Compacted(tables, watermark)
      ensures r.ts.physical < watermark && (r.value.None? || !IsKeyNewest(All(tables), r))
    {
      assert r in Elements(s);
      DroppedIsOld(s, watermark, r);
    }
    forall r, n | r in Compacted(tables, watermark) && IsKeyNewest(All(tables), n) && n.key == r.key
      ensures n in Compacted(tables, watermark)
    {
      NewestSurvives(s, watermark, r, n);
    }
  }

  ghost predicate StrictlySorted(s: seq<Rec>) {
    forall i, j | 0 <= i < j < |s| :: Precedes(s[i], s[j])
  }

  /** No (key, timestamp) stands twice in the compacted table, however often the tables hold it. */
  lemma CompactedStrictly(tables: seq<seq<Rec>>, watermark: int)
    ensures StrictlySorted(Compacted(tables, watermark))
  {
    var s := Sort(Concat(tables));
    SortSorts(Concat(tables));
    hide Sort;
    KeptStrictly(s, |s|, watermark);
  }

  /** A record that is not a copy of the one before it comes strictly after all earlier ones. */
  lemma EarlierPrecedes(s: seq<Rec>, k: nat, n: nat)
    requires Sorted(s) && k < n < |s| && !SameIdent(s[n - 1], s[n])
    ensures Precedes(s[k], s[n])
  {
    assert !Precedes(s[n], s[n - 1]);
    assert k < n - 1 ==> !Precedes(s[n - 1], s[k]);
  }

  lemma {:induction false} KeptStrictly(s: seq<Rec>, n: nat, watermark: int)
    requires Sorted(s) && n <= |s|
    ensures StrictlySorted(Kept(s, n, watermark))
  {
    if n > 0 {
      KeptStrictly(s, n - 1, watermark);
      var c := Kept(s, n - 1, watermark);
      if Keeps(s, n - 1, watermark) {
        forall i | 0 <= i < |c|
          ensures Precedes(c[i], s[n - 1])
        {
          assert c[i] in c;
          var k := KeptAt(s, n - 1, watermark, c[i]);
          EarlierPrecedes(s, k, n - 1);
        }
        assert Kept(s, n, watermark) == c + [s[n - 1]];
      } else {
        assert Kept(s, n, watermark) == c + [];
      }
    }
  }

  /** Between writing the merged table and removing the old ones, it sits on top and changes no read. */
  lemma MergedOnTop(tables: seq<seq<Rec>>, watermark: int)
    requires Layered(tables) && Unique(All(tables))
    ensures Layered([Compacted(tables, watermark)] + tables)
    ensures All([Compacted(tables, watermark)] + tables) == All(tables)
  {
    CompactedFacts(tables, watermark);
    hide Compacted;
    var c := Compacted(tables, watermark);
    var top := [c] + tables;
    AllSplits(top);
    assert top[1..] == tables;
    assert All(top) == All(tables);
    forall i, j | 0 <= i < j < |top|
      ensures Covers(top[i], top[j])
    {
      if i == 0 {
        CompactedCovers(tables, watermark, top[j]);
      } else {
        assert top[i] == tables[i - 1] && top[j] == tables[j - 1];
      }
    }
  }

  lemma CompactedCovers(tables: seq<seq<Rec>>, watermark: int, table: seq<Rec>)
    requires Unique(All(tables)) && table in tables
    ensures Covers(Compacted(tables, watermark), table)
  {
    CompactedFacts(tables, watermark);
    hide Compacted;
    forall r, u | r in Compacted(tables, watermark) && u in table && r.key == u.key && r.ts.AtMost(u.ts)
      ensures u in Compacted(tables, watermark)
    {
      assert r in Elements(Compacted(tables, watermark)) && u in All(tables);
    }
  }

  /** The reads compaction promises to keep: of a key's newest version, or of one at or above the watermark. */
  ghost predicate Retained(versions: set<Rec>, found: Option<Rec>, watermark: int) {
    match found
    case None => true
    case Some(r) => IsKeyNewest(versions, r) || r.ts.physical >= watermark
  }

  /**
   Compaction preserves meaning: for every key and time, if the version visible in the tables is
   retained (or there is none), reading the compacted table gives the same value, although an old
   tombstone may have become no version at all.
   */
  lemma CompactionPreservesReads(tables: seq<seq<Rec>>, watermark: int, k: Key, t: Timestamp, found: Option<Rec>)
    requires Layered(tables) && Unique(All(tables))
    requires Newest(All(tables), k, t, found) && Retained(All(tables), found, watermark)
    ensures LayerLookup(tables, k, t) == found
    ensures ValueOf(Lookup(Compacted(tables, watermark), k, t)) == ValueOf(found)
  {
    LayeredIsNewest(tables, k, t);
    NewestIsUnique(All(tables), k, t, found, LayerLookup(tables, k, t));
    CompactedFacts(tables, watermark);
    var c := Compacted(tables, watermark);
    LookupIsNewest(c, k, t);
    var after := Lookup(c, k, t);
    if found.Some? && found.value in c {
      assert Newest(Elements(c), k, t, found);
      NewestIsUnique(All(tables), k, t, found, found);
      assert after == found by {
        assert Unique(Elements(c));
        NewestIsUnique(Elements(c), k, t, found, after);
      }
    } else if found.Some? {
      // an old tombstone, its key's newest version, was dropped: then no version of the key is left
      assert IsKeyNewest(All(tables), found.value);
      assert forall r | r in c :: r.key != k;
    }
  }

  // ---------- a crash while old tables are being unlinked ----------

  /** What a restart finds after a crash that left the newest j of the old tables unlinked. */
  function LeftBehind(tables: seq<seq<Rec>>, watermark: int, j: nat): (left: seq<seq<Rec>>)
    requires j <= |tables|
  {
    [Compacted(tables, watermark)] + tables[j..]
  }

  lemma LeftBehindIsLayered(tables: seq<seq<Rec>>, watermark: int, j: nat)
    requires Layered(tables) && Unique(All(tables)) && j <= |tables|
    ensures
      var left := LeftBehind(tables, watermark, j);
      Layered(left) && All(left) == Elements(Compacted(tables, watermark)) + All(tables[j..]) <= All(tables)
  {
    MergedOnTop(tables, watermark);
    CompactedFacts(tables, watermark);
    hide Compacted;
    var c := Compacted(tables, watermark);
    SuffixUnderTop(c, tables, j);
    SuffixElements(c, tables, j);
  }

  lemma SuffixUnderTop(c: seq<Rec>, tables: seq<seq<Rec>>, j: nat)
    requires Layered([c] + tables) && j <= |tables|
    ensures Layered([c] + tables[j..])
  {
    hide Covers, Sorted;
    var all, left := [c] + tables, [c] + tables[j..];
    assert forall l | l in left :: l in all;
    forall a, b | 0 <= a < b < |left|
      ensures Covers(left[a], left[b])
    {
      assert left[b] == all[b + j] && left[a] == all[if a == 0 then 0 else a + j];
    }
  }

  lemma SuffixElements(c: seq<Rec>, tables: seq<seq<Rec>>, j: nat)
    requires j <= |tables|
    ensures All([c] + tables[j..]) == Elements(c) + All(tables[j..]) && All(tables[j..]) <= All(tables)
  {
    AllSplits([c] + tables[j..]);
    assert ([c] + tables[j..])[1..] == tables[j..];
    hide Elements;
    assert forall l | l in tables[j..] :: l in tables;
  }

  /**
   A crash in the unlink loop leaves a read's version alone exactly when that version survived the
   compaction or still stands in a table not yet unlinked.
   */
  lemma PartialUnlinkKeepsVersionIff(tables: seq<seq<Rec>>, watermark: int, j: nat, k: Key, t: Timestamp, found: Option<Rec>)
    requires Layered(tables) && Unique(All(tables)) && j <= |tables| && Newest(All(tables), k, t, found)
    ensures
      LayerLookup(LeftBehind(tables, watermark, j), k, t) == found
      <==> (found.Some? ==> found.value in Compacted(tables, watermark) || found.value in All(tables[j..]))
  {
    LeftBehindIsLayered(tables, watermark, j);
    hide Compacted, LeftBehind, Layered, LayerLookup;
    var left := LeftBehind(tables, watermark, j);
    LayeredIsNewest(left, k, t);
    var got := LayerLookup(left, k, t);
    if found.None? || found.value in All(left) {
      assert Newest(All(left), k, t, found);
      NewestIsUnique(All(left), k, t, found, got);
    }
  }

  /**
   And it leaves the answer alone exactly when the version survived that way, or the tables not yet unlinked
   give the same value by themselves. A deletion comes undone exactly when it survived nowhere and
   those tables still show a value.
   */
  lemma PartialUnlinkKeepsAnswerIff(tables: seq<seq<Rec>>, watermark: int, j: nat, k: Key, t: Timestamp, found: Option<Rec>)
    requires Layered(tables) && Unique(All(tables)) && j <= |tables| && Newest(All(tables), k, t, found)
    ensures
      ValueOf(LayerLookup(LeftBehind(tables, watermark, j), k, t)) == ValueOf(LayerLookup(tables, k, t))
      <==> || (found.Some? && (found.value in Compacted(tables, watermark) || found.value in All(tables[j..])))
           || ValueOf(LayerLookup(tables[j..], k, t)) == ValueOf(found)
  {
    hide Compacted, LeftBehind, Layered, LayerLookup;
    LayeredIsNewest(tables, k, t);
    NewestIsUnique(All(tables), k, t, found, LayerLookup(tables, k, t));
    PartialUnlinkKeepsVersionIff(tables, watermark, j, k, t, found);
    if found.None? || found.value !in Compacted(tables, watermark) {
      DroppedLeavesNothing(tables, watermark, k, t, found);
      OnlyOldTables(tables, watermark, j, k, t);
    }
  }

  /** When the visible version is dropped, so are all older versions of its key. */
  lemma DroppedLeavesNothing(tables: seq<seq<Rec>>, watermark: int, k: Key, t: Timestamp, found: Option<Rec>)
    requires Unique(All(tables)) && Newest(All(tables), k, t, found)
    requires found.None? || found.value !in Compacted(tables, watermark)
    ensures Lookup(Compacted(tables, watermark), k, t) == None
  {
    CompactedFacts(tables, watermark);
    hide Compacted, All;
    var c := Compacted(tables, watermark);
    LookupIsNewest(c, k, t);
    hide Lookup, Sorted;
    forall r | r in Elements(c)
      ensures !Matches(r, k, t)
    {
      assert r in All(tables) && (r.ts.physical >= watermark || IsKeyNewest(All(tables), r));
      assert found.Some? ==> found.value.ts.physical < watermark;
    }
  }

  lemma OnlyOldTables(tables: seq<seq<Rec>>, watermark: int, j: nat, k: Key, t: Timestamp)
    requires j <= |tables| && Lookup(Compacted(tables, watermark), k, t) == None
    ensures LayerLookup(LeftBehind(tables, watermark, j), k, t) == LayerLookup(tables[j..], k, t)
  {
    hide Compacted, Lookup;
    var left := LeftBehind(tables, watermark, j);
    assert left[0] == Compacted(tables, watermark) && left[1..] == tables[j..];
  }

  /** Such a deletion does exist: after the first unlink the old value of a deleted key is readable again. */
  lemma PartialUnlinkResurrects()
    ensures
      var put := Rec(1, Timestamp(1, 0), Some("v"));
      var deletion := Rec(1, Timestamp(2, 0), None);
      var tables := [[deletion], [put]];
      && Layered(tables) && Unique(All(tables))
      && ValueOf(LayerLookup(tables, 1, Timestamp(3, 0))) == None
      && ValueOf(LayerLookup(LeftBehind(tables, 10, 1), 1, Timestamp(3, 0))) == Some("v")
  {
    var put := Rec(1, Timestamp(1, 0), Some("v"));
    var deletion := Rec(1, Timestamp(2, 0), None);
    var tables := [[deletion], [put]];
    OldValueReturns(put, deletion);
    InOrder(put, deletion);
    hide Compacted, All, Layered, LayerLookup, LeftBehind;
  }

  lemma OldValueReturns(put: Rec, deletion: Rec)
    requires put.key == deletion.key == 1 && put.ts.Less(deletion.ts) && deletion.ts.AtMost(Timestamp(3, 0))
    requires put.value == Some("v") && deletion.value == None && deletion.ts.physical < 10
    ensures ValueOf(LayerLookup([[deletion], [put]], 1, Timestamp(3, 0))) == None
    ensures ValueOf(LayerLookup(LeftBehind([[deletion], [put]], 10, 1), 1, Timestamp(3, 0))) == Some("v")
  {
    DeletedKeyVanishes(put, deletion);
    hide Compacted, LayerLookup;
    assert LeftBehind([[deletion], [put]], 10, 1) == [[], [put]];
    TwoLayers([], [put], 1, Timestamp(3, 0));
    TwoLayers([deletion], [put], 1, Timestamp(3, 0));
    LookupNothing(1, Timestamp(3, 0));
  }

  lemma InOrder(put: Rec, deletion: Rec)
    requires put.key == deletion.key && put.ts.Less(deletion.ts)
    ensures Layered([[deletion], [put]]) && Unique(All([[deletion], [put]]))
  {
    var tables := [[deletion], [put]];
    assert forall l | l in tables :: l == [deletion] || l == [put];
  }

  lemma LookupNothing(k: Key, t: Timestamp)
    ensures Lookup([], k, t) == None
  {
  }

  lemma TwoLayers(upper: seq<Rec>, lower: seq<Rec>, k: Key, t: Timestamp)
    ensures LayerLookup([upper, lower], k, t) == if Lookup(upper, k, t).Some? then Lookup(upper, k, t) else Lookup(lower, k, t)
  {
    hide Lookup;
    assert [upper, lower][1..] == [lower] && [lower][1..] == [];
    assert LayerLookup([lower], k, t) == Lookup(lower, k, t);
  }

  /** A deletion and the value below it, both older than the watermark, leave nothing behind. */
  lemma DeletedKeyVanishes(put: Rec, deletion: Rec)
    requires put.key == deletion.key && put.ts.Less(deletion.ts) && deletion.value == None && deletion.ts.physical < 10
    ensures Compacted([[deletion], [put]], 10) == []
  {
    var tables, s := [[deletion], [put]], [deletion, put];
    assert Concat(tables) == s by {
      assert Concat([[deletion]]) == [deletion] by {
        assert [[deletion]][..0] == [];
      }
      assert tables[..1] == [[deletion]];
    }
    assert Sort(s) == s by {
      assert Sort([]) == [] && [deletion][..0] == [];
      assert Sort([deletion]) == [deletion];
      assert s[..1] == [deletion];
      assert Insert([deletion], put) == [deletion] + Insert([], put);
    }
    assert !Keeps(s, 0, 10) && !Keeps(s, 1, 10);
    assert Kept(s, 1, 10) == Kept(s, 0, 10) + [] && Kept(s, 2, 10) == Kept(s, 1, 10) + [];
  }
}
