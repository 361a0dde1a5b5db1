/**
 Versions of keys, their storage order (key ascending, newest first), and what a read at a timestamp
 means over a plain set of versions. A key stands for its position in the byte order of keys, 0 being
 the empty byte string. A version without a value is a tombstone.
 */
module Records {
  import opened Options
  import opened Clock

  type Key = nat
  type Value = string

  datatype Rec = Rec(key: Key, ts: Timestamp, value: Option<Value>)

  /** The strict storage order: MemTableEntry.__lt__ and the sort key (key, -physical, -logical). */
  predicate Precedes(a: Rec, b: Rec) {
    a.key < b.key || (a.key == b.key && b.ts.Less(a.ts))
  }

  ghost predicate Sorted(s: seq<Rec>) {
    forall i, j | 0 <= i < j < |s| :: !Precedes(s[j], s[i])
  }

  ghost function Elements(s: seq<Rec>): set<Rec> {
    set r | r in s
  }

  predicate Matches(r: Rec, k: Key, t: Timestamp) {
    r.key == k && r.ts.AtMost(t)
  }

  /** The meaning of a read: the version of k with the greatest timestamp at or before t, if any. */
  ghost predicate Newest(versions: set<Rec>, k: Key, t: Timestamp, found: Option<Rec>) {
    match found
    case None => forall r | r in versions :: !Matches(r, k, t)
    case Some(r) => r in versions && Matches(r, k, t) && forall u | u in versions && Matches(u, k, t) :: u.ts.AtMost(r.ts)
  }

  /** What the caller of get sees. */
  function ValueOf(found: Option<Rec>): Option<Value> {
    match found
    case None => None
    case Some(r) => r.value
  }

  /** No two different versions of a key carry the same timestamp. */
  ghost predicate Unique(versions: set<Rec>) {
    forall a, b | a in versions && b in versions && a.key == b.key && a.ts == b.ts :: a == b
  }

  lemma NewestIsUnique(versions: set<Rec>, k: Key, t: Timestamp, a: Option<Rec>, b: Option<Rec>)
    requires Unique(versions) && Newest(versions, k, t, a) && Newest(versions, k, t, b)
    ensures a == b
  {
  }

  /** Linear search from the left, as every layer does. */
  function Lookup(s: seq<Rec>, k: Key, t: Timestamp): Option<Rec> {
    if s == [] then None
    else if Matches(s[0], k, t) then Some(s[0])
    else Lookup(s[1..], k, t)
  }

  /** In storage order the first match is the newest one. */
  lemma {:induction false} LookupIsNewest(s: seq<Rec>, k: Key, t: Timestamp)
    requires Sorted(s)
    ensures Newest(Elements(s), k, t, Lookup(s, k, t))
  {
    if s != [] {
      LookupIsNewest(s[1..], k, t);
      assert forall r :: r in Elements(s) <==> r == s[0] || r in Elements(s[1..]);
      if Matches(s[0], k, t) {
        forall u | u in Elements(s) && Matches(u, k, t)
          ensures u.ts.AtMost(s[0].ts)
        {
          var i :| 0 <= i < |s| && s[i] == u;
        }
      }
    }
  }

  /** The first match, described by position. */
  lemma {:induction false} LookupAt(s: seq<Rec>, k: Key, t: Timestamp, i: nat)
    requires i <= |s| && forall j | 0 <= j < i :: !Matches(s[j], k, t)
    ensures Lookup(s, k, t) == Lookup(s[i..], k, t)
    ensures i < |s| && Matches(s[i], k, t) ==> Lookup(s, k, t) == Some(s[i])
    ensures i == |s| ==> Lookup(s, k, t) == None
  {
    if i == 0 {
      assert s[0..] == s;
    } else {
      LookupAt(s[1..], k, t, i - 1);
      assert s[1..][i - 1..] == s[i..];
    }
  }

  // ---------- insertion and sorting (Python's insort and sort) ----------

  /** Inserts after every element that does not come later: equal elements keep their order. */
  function Insert(s: seq<Rec>, r: Rec): seq<Rec> {
    if s == [] || Precedes(r, s[0]) then [r] + s else [s[0]] + Insert(s[1..], r)
  }

  function Sort(s: seq<Rec>): seq<Rec> {
    if s == [] then [] else Insert(Sort(s[..|s| - 1]), s[|s| - 1])
  }

  lemma {:induction false} InsertElements(s: seq<Rec>, r: Rec)
    ensures Elements(Insert(s, r)) == Elements(s) + {r} && multiset(Insert(s, r)) == multiset(s) + multiset{r}
  {
    if s != [] && !Precedes(r, s[0]) {
      InsertElements(s[1..], r);
      assert s == [s[0]] + s[1..];
      assert forall u :: u in Insert(s, r) <==> u == s[0] || u in Elements(Insert(s[1..], r));
      assert forall u :: u in s <==> u == s[0] || u in Elements(s[1..]);
    } else {
      assert forall u :: u in Insert(s, r) <==> u == r || u in s;
    }
  }

  lemma {:induction false} InsertSorted(s: seq<Rec>, r: Rec)
    requires Sorted(s)
    ensures Sorted(Insert(s, r))
  {
    if s != [] && !Precedes(r, s[0]) {
      InsertSorted(s[1..], r);
      InsertElements(s[1..], r);
      var rest := Insert(s[1..], r);
      forall j | 0 <= j < |rest|
        ensures !Precedes(rest[j], s[0])
      {
        assert rest[j] in Elements(rest);
        if rest[j] != r {
          assert rest[j] in s[1..];
        }
      }
    }
  }

  lemma EmptySorted()
    ensures Sorted([])
  {
  }

  lemma {:induction false} SortSorts(s: seq<Rec>)
    ensures Sorted(Sort(s)) && Elements(Sort(s)) == Elements(s) && multiset(Sort(s)) == multiset(s)
  {
    hide Insert, Sorted;
    if s == [] {
      EmptySorted();
    } else {
      var n := |s| - 1;
      SortSorts(s[..n]);
      InsertSorted(Sort(s[..n]), s[n]);
      InsertElements(Sort(s[..n]), s[n]);
      assert s == s[..n] + [s[n]];
      assert Elements(s) == Elements(s[..n]) + {s[n]};
    }
  }

  /** Where a binary search puts the new element is where Insert puts it. */
  lemma {:induction false} InsertAt(s: seq<Rec>, r: Rec, p: nat)
    requires p <= |s| && (forall i | 0 <= i < p :: !Precedes(r, s[i])) && (p < |s| ==> Precedes(r, s[p]))
    ensures Insert(s, r) == s[..p] + [r] + s[p..]
  {
    if p == 0 {
      assert s[..0] + [r] + s[0..] == [r] + s;
    } else {
      InsertAt(s[1..], r, p - 1);
      assert s[..p] == [s[0]] + s[1..][..p - 1] && s[1..][p - 1..] == s[p..];
    }
  }
}
