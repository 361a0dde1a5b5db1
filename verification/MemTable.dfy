/** The sorted in-memory write buffer. Its size accounting is not modelled: a flush may come at any time. */
module MemTables {
  import opened Options
  import opened Clock
  import opened Records

  /** Key range of a scan as the source tests it: an absent or empty bound (falsy) does not restrict. */
  predicate InRange(k: Key, start: Option<Key>, end: Option<Key>) {
    && (start.None? || start.value == 0 || k >= start.value)
    && (end.None? || end.value == 0 || k < end.value)
  }

  /** The elements of s within the range, in order. */
  function InRangeOnly(s: seq<Rec>, start: Option<Key>, end: Option<Key>): seq<Rec> {
    if s == [] then []
    else
      var n := |s| - 1;
      InRangeOnly(s[..n], start, end) + if InRange(s[n].key, start, end) then [s[n]] else []
  }

  class MemTable {
    var entries: seq<Rec>

    ghost predicate Valid()
      reads this
    {
      Sorted(entries)
    }

    constructor ()
      ensures Valid() && entries == []
    {
      entries := [];
    }

    /** put: the size update after the insertion raises on a missing value (ok is false). */
    method Put(k: Key, value: Option<Value>, t: Timestamp) returns (ok: bool)
      requires Valid()
      modifies this
      ensures Valid() && entries == Insert(old(entries), Rec(k, t, value))
      ensures ok <==> value.Some?
    {
      Add(Rec(k, t, value));
      ok := value.Some?;
    }

    method Delete(k: Key, t: Timestamp)
      requires Valid()
      modifies this
      ensures Valid() && entries == Insert(old(entries), Rec(k, t, None))
    {
      Add(Rec(k, t, None));
    }

    /** One bisect.insort of a new entry. */
    method Add(r: Rec)
      requires Valid()
      modifies this
      ensures Valid() && entries == Insert(old(entries), r)
    {
      var lo, hi := 0, |entries|;
      while lo < hi
        invariant entries == old(entries) && 0 <= lo <= hi <= |entries|
        invariant forall i | 0 <= i < lo :: !Precedes(r, entries[i])
        invariant forall i | hi <= i < |entries| :: Precedes(r, entries[i])
      {
        var mid := (lo + hi) / 2;
        if Precedes(r, entries[mid]) {
          hi := mid;
        } else {
          lo := mid + 1;
        }
      }
      InsertAt(entries, r, lo);
      InsertSorted(entries, r);
      entries := entries[..lo] + [r] + entries[lo..];
    }

    /** _find_key_index: the first entry with the key, or -1. */
    method FindKeyIndex(k: Key) returns (idx: int)
      requires Valid()
      ensures -1 <= idx < |entries|
      ensures idx >= 0 ==> entries[idx].key == k && forall i | 0 <= i < idx :: entries[i].key < k
      ensures idx == -1 ==> forall i | 0 <= i < |entries| :: entries[i].key != k
    {
      var left, right := 0, |entries|;
      while left < right
        invariant 0 <= left <= right <= |entries|
        invariant forall i | 0 <= i < left :: entries[i].key < k
        invariant forall i | right <= i < |entries| :: entries[i].key >= k
      {
        var mid := (left + right) / 2;
        if entries[mid].key < k {
          left := mid + 1;
        } else {
          right := mid;
        }
      }
      if left < |entries| && entries[left].key == k {
        return left;
      }
      return -1;
    }

    /** get_entry: the newest version at or before t, tombstones included. */
    method GetEntry(k: Key, t: Timestamp) returns (found: Option<Rec>)
      requires Valid()
      ensures found == Lookup(entries, k, t) && Newest(Elements(entries), k, t, found)
    {
      LookupIsNewest(entries, k, t);
      var idx := FindKeyIndex(k);
      if idx == -1 {
        LookupAt(entries, k, t, |entries|);
        return None;
      }
      var i := idx;
      while i < |entries|
        invariant idx <= i <= |entries|
        invariant forall j | 0 <= j < i :: !Matches(entries[j], k, t)
      {
        if entries[i].key != k {
          break;
        }
        if entries[i].ts.AtMost(t) {
          LookupAt(entries, k, t, i);
          return Some(entries[i]);
        }
        i := i + 1;
      }
      LookupAt(entries, k, t, |entries|);
      return None;
    }

    method ScanEntries(start: Option<Key>, end: Option<Key>) returns (found: seq<Rec>)
      ensures found == InRangeOnly(entries, start, end)
    {
      found := [];
      for i := 0 to |entries|
        invariant found == InRangeOnly(entries[..i], start, end)
      {
        assert entries[..i + 1][..i] == entries[..i];
        if InRange(entries[i].key, start, end) {
          found := found + [entries[i]];
        }
      }
      assert entries[..|entries|] == entries;
    }

    method Clear()
      modifies this
      ensures Valid() && entries == []
    {
      entries := [];
    }
  }

  /** A scan lists what is in range as often as it occurs. */
  lemma {:induction false} InRangeCounts(s: seq<Rec>, start: Option<Key>, end: Option<Key>, r: Rec)
    ensures multiset(InRangeOnly(s, start, end))[r] == if InRange(r.key, start, end) then multiset(s)[r] else 0
  {
    if s != [] {
      var n := |s| - 1;
      InRangeCounts(s[..n], start, end, r);
      assert s == s[..n] + [s[n]];
      hide InRange;
    }
  }

  /** And in storage order when the table is. */
  lemma {:induction false} InRangeKeepsOrder(s: seq<Rec>, start: Option<Key>, end: Option<Key>)
    requires Sorted(s)
    ensures Sorted(InRangeOnly(s, start, end))
  {
    hide InRange, Precedes;
    if s != [] {
      var n := |s| - 1;
      InRangeKeepsOrder(s[..n], start, end);
      InRangeElements(s[..n], start, end);
      var some := InRangeOnly(s[..n], start, end);
      forall i | 0 <= i < |some|
        ensures !Precedes(s[n], some[i])
      {
        assert some[i] in some && some[i] in s[..n];
        var j :| 0 <= j < n && s[j] == some[i];
      }
      assert InRange(s[n].key, start, end) ==> InRangeOnly(s, start, end) == some + [s[n]];
      assert !InRange(s[n].key, start, end) ==> InRangeOnly(s, start, end) == some + [];
    }
  }

  lemma {:induction false} InRangeElements(s: seq<Rec>, start: Option<Key>, end: Option<Key>)
    ensures forall r :: r in InRangeOnly(s, start, end) <==> r in s && InRange(r.key, start, end)
  {
    if s != [] {
      InRangeElements(s[..|s| - 1], start, end);
      assert s == s[..|s| - 1] + [s[|s| - 1]];
    }
  }

  /**
   What one insertion does to any read: the new record answers if it matches and the previous answer was
   strictly older. Of two records with equal key and timestamp the one inserted first keeps answering.
   */
  lemma {:induction false} LookupAfterInsert(s: seq<Rec>, r: Rec, k: Key, t: Timestamp)
    requires Sorted(s)
    ensures
      Lookup(Insert(s, r), k, t) ==
      var before := Lookup(s, k, t);
      if Matches(r, k, t) && (before.None? || before.value.ts.Less(r.ts)) then Some(r) else before
  {
    if s == [] {
      assert [r][1..] == [];
    } else if Precedes(r, s[0]) {
      assert ([r] + s)[1..] == s;
      LookupIsNewest(s, k, t);
      if Matches(r, k, t) && Lookup(s, k, t).Some? {
        var u := Lookup(s, k, t).value;
        var i :| 0 <= i < |s| && s[i] == u;
        assert i > 0 ==> !Precedes(s[i], s[0]);
      }
    } else {
      LookupAfterInsert(s[1..], r, k, t);
      assert Insert(s, r)[1..] == Insert(s[1..], r);
    }
  }
}
