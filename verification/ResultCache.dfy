/**
 The query-result cache: an ordered map from keys to expiring payloads with least-recently-used eviction,
 and the key text built from a statement and the versions of its tables. The digest of that text is taken
 to be collision-free, so the text itself is the key.
 */
module ResultCaches {
  import opened Options

  // ---------- key text ----------

  type Versioned = (string, nat)

  function Digit(d: nat): char
    requires d < 10
  {
    '0' + (d as char)
  }

  function Decimal(n: nat): (s: string)
    ensures |s| >= 1 && (|s| == 1 <==> n < 10)
    ensures forall c | c in s :: '0' <= c <= '9'
  {
    if n < 10 then [Digit(n)] else Decimal(n / 10) + [Digit(n % 10)]
  }

  lemma {:induction false} DecimalInjective(a: nat, b: nat)
    requires Decimal(a) == Decimal(b)
    ensures a == b
  {
    var s := Decimal(a);
    assert s[|s| - 1] == Digit(a % 10) && s[|s| - 1] == Digit(b % 10);
    if a >= 10 {
      assert s[..|s| - 1] == Decimal(a / 10);
      assert s[..|s| - 1] == Decimal(b / 10);
      DecimalInjective(a / 10, b / 10);
    }
  }

  /** The number a text of digits stands for, read in base ten. */
  function InBaseTen(s: string): int {
    if s == "" then 0 else 10 * InBaseTen(s[..|s| - 1]) + (s[|s| - 1] as int - '0' as int)
  }

  lemma {:induction false} DecimalReadsBack(n: nat)
    ensures InBaseTen(Decimal(n)) == n
  {
    var s := Decimal(n);
    if n < 10 {
      assert s[..0] == "";
    } else {
      DecimalReadsBack(n / 10);
      assert s[..|s| - 1] == Decimal(n / 10);
    }
  }

  /** Order of tuples: by name, then by version. */
  predicate PairLess(less: (string, string) -> bool, a: Versioned, b: Versioned) {
    less(a.0, b.0) || (a.0 == b.0 && a.1 < b.1)
  }

  function InsertPair(less: (string, string) -> bool, s: seq<Versioned>, x: Versioned): (r: seq<Versioned>)
    ensures multiset(r) == multiset(s) + multiset{x}
  {
    if s == [] || PairLess(less, x, s[0]) then [x] + s
    else
      assert s == [s[0]] + s[1..];
      [s[0]] + InsertPair(less, s[1..], x)
  }

  function SortPairs(less: (string, string) -> bool, s: seq<Versioned>): (r: seq<Versioned>)
    ensures multiset(r) == multiset(s)
  {
    if s == [] then []
    else
      assert s == s[..|s| - 1] + [s[|s| - 1]];
      InsertPair(less, SortPairs(less, s[..|s| - 1]), s[|s| - 1])
  }

  function PairText(p: Versioned): (s: string)
    ensures s != ""
  {
    p.0 + ":" + Decimal(p.1)
  }

  /** ";".join(...) */
  function JoinText(pairs: seq<Versioned>): string {
    if pairs == [] then ""
    else if |pairs| == 1 then PairText(pairs[0])
    else PairText(pairs[0]) + ";" + JoinText(pairs[1..])
  }

  function KeyText(less: (string, string) -> bool, sql: string, versions: seq<Versioned>): string {
    sql + "|" + JoinText(SortPairs(less, versions))
  }

  /** What is_safe_table_name guarantees: none of the separators occurs. */
  predicate SafeName(name: string) {
    ':' !in name && ';' !in name && '|' !in name
  }

  predicate SafeNames(pairs: seq<Versioned>) {
    forall i | 0 <= i < |pairs| :: SafeName(pairs[i].0)
  }

  /** The first occurrence of a separator splits a text in one way. */
  lemma FirstSplit(a: string, b: string, x: string, y: string, c: char)
    requires a + [c] + b == x + [c] + y && c !in a && c !in x
    ensures a == x && b == y
  {
    var s := a + [c] + b;
    assert s[|a|] == c && s[|x|] == c;
    assert forall i | 0 <= i < |a| :: s[i] == a[i];
    assert forall i | 0 <= i < |x| :: s[i] == x[i];
    assert |a| == |x|;
    assert a == s[..|a|] == x && b == s[|a| + 1..] == y;
  }

  /** And so does the last one. */
  lemma LastSplit(a: string, b: string, x: string, y: string, c: char)
    requires a + [c] + b == x + [c] + y && c !in b && c !in y
    ensures a == x && b == y
  {
    var s := a + [c] + b;
    assert s[|a|] == c && s[|x|] == c;
    assert forall i | |a| < i < |s| :: s[i] == b[i - |a| - 1];
    assert forall i | |x| < i < |s| :: s[i] == y[i - |x| - 1];
    assert |a| == |x|;
    assert a == s[..|a|] == x && b == s[|a| + 1..] == y;
  }

  lemma PairTextInjective(p: Versioned, q: Versioned)
    requires SafeName(p.0) && SafeName(q.0) && PairText(p) == PairText(q)
    ensures p == q
  {
    FirstSplit(p.0, Decimal(p.1), q.0, Decimal(q.1), ':');
    DecimalInjective(p.1, q.1);
  }

  lemma PairTextIsClean(p: Versioned)
    requires SafeName(p.0)
    ensures ';' !in PairText(p) && '|' !in PairText(p)
  {
  }

  lemma {:induction false} JoinIsClean(pairs: seq<Versioned>)
    requires SafeNames(pairs)
    ensures '|' !in JoinText(pairs)
  {
    hide PairText;
    if pairs != [] {
      PairTextIsClean(pairs[0]);
      assert SafeNames(pairs[1..]);
      JoinIsClean(pairs[1..]);
    }
  }

  lemma {:induction false} JoinInjective(a: seq<Versioned>, b: seq<Versioned>)
    requires SafeNames(a) && SafeNames(b) && JoinText(a) == JoinText(b)
    ensures a == b
  {
    if a != [] && b != [] {
      PairTextIsClean(a[0]);
      PairTextIsClean(b[0]);
      assert |a| > 1 ==> ';' in JoinText(a);
      assert |b| > 1 ==> ';' in JoinText(b);
      assert a == [a[0]] + a[1..] && b == [b[0]] + b[1..];
      if |a| > 1 {
        FirstSplit(PairText(a[0]), JoinText(a[1..]), PairText(b[0]), JoinText(b[1..]), ';');
        assert SafeNames(a[1..]) && SafeNames(b[1..]);
        JoinInjective(a[1..], b[1..]);
      }
      PairTextInjective(a[0], b[0]);
    }
  }

  lemma SortKeepsSafe(less: (string, string) -> bool, s: seq<Versioned>)
    requires SafeNames(s)
    ensures SafeNames(SortPairs(less, s))
  {
    var r := SortPairs(less, s);
    forall i | 0 <= i < |r|
      ensures SafeName(r[i].0)
    {
      assert r[i] in multiset(r);
      assert r[i] in s;
    }
  }

  /** The key determines the statement and the multiset of table versions. */
  lemma KeyInjective(less: (string, string) -> bool, sql: string, versions: seq<Versioned>, sql': string, versions': seq<Versioned>)
    requires SafeNames(versions) && SafeNames(versions')
    ensures KeyText(less, sql, versions) == KeyText(less, sql', versions')
       <==> sql == sql' && SortPairs(less, versions) == SortPairs(less, versions')
    ensures KeyText(less, sql, versions) == KeyText(less, sql', versions') ==> multiset(versions) == multiset(versions')
  {
    SortKeepsSafe(less, versions);
    SortKeepsSafe(less, versions');
    var a, b := SortPairs(less, versions), SortPairs(less, versions');
    JoinIsClean(a);
    JoinIsClean(b);
    if KeyText(less, sql, versions) == KeyText(less, sql', versions') {
      LastSplit(sql, JoinText(a), sql', JoinText(b), '|');
      JoinInjective(a, b);
    }
  }

  // ---------- the order of the tables does not matter ----------

  /** As Python orders strings. */
  ghost predicate IsOrder(less: (string, string) -> bool) {
    && (forall a :: !less(a, a)) && (forall a, b :: less(a, b) || less(b, a) || a == b)
    && forall a, b, c :: less(a, b) && less(b, c) ==> less(a, c)
  }

  ghost predicate InOrder(less: (string, string) -> bool, s: seq<Versioned>) {
    forall i, j | 0 <= i < j < |s| :: !PairLess(less, s[j], s[i])
  }

  lemma {:induction false} InsertPairKeepsOrder(less: (string, string) -> bool, s: seq<Versioned>, x: Versioned)
    requires IsOrder(less) && InOrder(less, s)
    ensures InOrder(less, InsertPair(less, s, x))
  {
    var r := InsertPair(less, s, x);
    if s == [] || PairLess(less, x, s[0]) {
      forall j | 0 <= j < |s|
        ensures !PairLess(less, s[j], x)
      {
        assert j > 0 ==> !PairLess(less, s[j], s[0]);
        assert less(x.0, s[0].0) || x.0 == s[0].0;
      }
    } else {
      InsertPairKeepsOrder(less, s[1..], x);
      var rest := InsertPair(less, s[1..], x);
      forall j | 0 <= j < |rest|
        ensures !PairLess(less, rest[j], s[0])
      {
        assert rest[j] in multiset(rest);
        assert rest[j] == x || rest[j] in s[1..];
      }
    }
  }

  lemma {:induction false} SortPairsSorts(less: (string, string) -> bool, s: seq<Versioned>)
    requires IsOrder(less)
    ensures InOrder(less, SortPairs(less, s))
  {
    hide IsOrder, PairLess;
    if s != [] {
      SortPairsSorts(less, s[..|s| - 1]);
      InsertPairKeepsOrder(less, SortPairs(less, s[..|s| - 1]), s[|s| - 1]);
    }
  }

  lemma {:induction false} OneOrder(less: (string, string) -> bool, a: seq<Versioned>, b: seq<Versioned>)
    requires IsOrder(less) && InOrder(less, a) && InOrder(less, b) && multiset(a) == multiset(b)
    ensures a == b
    decreases |a|
  {
    hide IsOrder, InOrder, PairLess;
    assert |a| == |multiset(a)| == |multiset(b)| == |b|;
    if a != [] {
      var n := |a| - 1;
      OneLast(less, a, b);
      PrefixInOrder(less, a, n);
      PrefixInOrder(less, b, n);
      LastTakenAway(a);
      LastTakenAway(b);
      OneOrder(less, a[..n], b[..n]);
      assert a == a[..n] + [a[n]] && b == b[..n] + [b[n]];
    }
  }

  lemma PrefixInOrder(less: (string, string) -> bool, s: seq<Versioned>, n: nat)
    requires InOrder(less, s) && n <= |s|
    ensures InOrder(less, s[..n])
  {
    hide PairLess;
  }

  lemma LastTakenAway(s: seq<Versioned>)
    requires s != []
    ensures multiset(s[..|s| - 1]) == multiset(s) - multiset{s[|s| - 1]}
  {
    assert s == s[..|s| - 1] + [s[|s| - 1]];
  }

  lemma OneLast(less: (string, string) -> bool, a: seq<Versioned>, b: seq<Versioned>)
    requires IsOrder(less) && InOrder(less, a) && InOrder(less, b)
    requires multiset(a) == multiset(b) && a != [] && b != []
    ensures a[|a| - 1] == b[|b| - 1]
  {
    hide IsOrder, InOrder, PairLess;
    var x, y := a[|a| - 1], b[|b| - 1];
    assert x in multiset(a) && y in multiset(b);
    LastIsGreatest(less, a, y);
    LastIsGreatest(less, b, x);
    OnlyOneGreater(less, x, y);
  }

  lemma LastIsGreatest(less: (string, string) -> bool, s: seq<Versioned>, x: Versioned)
    requires IsOrder(less) && InOrder(less, s) && x in s
    ensures !PairLess(less, s[|s| - 1], x)
  {
    var i :| 0 <= i < |s| && s[i] == x;
  }

  lemma OnlyOneGreater(less: (string, string) -> bool, a: Versioned, b: Versioned)
    requires IsOrder(less) && !PairLess(less, a, b) && !PairLess(less, b, a)
    ensures a == b
  {
  }

  /** Two lookups have one key exactly when statement and table versions agree, in whatever order the tables come. */
  lemma KeyIff(less: (string, string) -> bool, sql: string, versions: seq<Versioned>, sql': string, versions': seq<Versioned>)
    requires IsOrder(less) && SafeNames(versions) && SafeNames(versions')
    ensures KeyText(less, sql, versions) == KeyText(less, sql', versions') <==> sql == sql' && multiset(versions) == multiset(versions')
  {
    KeyInjective(less, sql, versions, sql', versions');
    SortPairsSorts(less, versions);
    SortPairsSorts(less, versions');
    if multiset(versions) == multiset(versions') {
      OneOrder(less, SortPairs(less, versions), SortPairs(less, versions'));
    }
  }

  // ---------- entries ----------

  /** Least recently used first. */
  datatype Entry<P> = Entry(key: string, expiresAt: int, payload: P)

  function IndexOf<P>(entries: seq<Entry<P>>, key: string): (i: nat)
    ensures i <= |entries|
    ensures i < |entries| ==> entries[i].key == key
    ensures forall j | 0 <= j < i :: entries[j].key != key
  {
    if entries == [] || entries[0].key == key then 0 else 1 + IndexOf(entries[1..], key)
  }

  function Without<P>(entries: seq<Entry<P>>, key: string): (r: seq<Entry<P>>)
    ensures |r| <= |entries| && forall e | e in r :: e in entries
  {
    var i := IndexOf(entries, key);
    if i == |entries| then entries else entries[..i] + entries[i + 1..]
  }

  predicate Distinct<P>(entries: seq<Entry<P>>) {
    forall i, j | 0 <= i < j < |entries| :: entries[i].key != entries[j].key
  }

  function Newest<P>(entries: seq<Entry<P>>, max: nat): seq<Entry<P>> {
    if |entries| <= max then entries else entries[|entries| - max..]
  }

  function Find<P>(entries: seq<Entry<P>>, key: string): Option<Entry<P>> {
    var i := IndexOf(entries, key);
    if i == |entries| then None else Some(entries[i])
  }

  /** put: the entry becomes the newest, then the oldest ones beyond the capacity go. */
  function Put<P>(entries: seq<Entry<P>>, e: Entry<P>, max: nat): seq<Entry<P>> {
    Newest(Without(entries, e.key) + [e], max)
  }

  /** get: an expired entry is dropped, a live one becomes the newest. */
  function Get<P>(entries: seq<Entry<P>>, key: string, now: int): (seq<Entry<P>>, Option<P>) {
    match Find(entries, key)
    case None => (entries, None)
    case Some(e) =>
      if now > e.expiresAt then (Without(entries, key), None) else (Without(entries, key) + [e], Some(e.payload))
  }

  lemma WithoutKey<P>(entries: seq<Entry<P>>, key: string)
    requires Distinct(entries)
    ensures Distinct(Without(entries, key))
    ensures forall e :: e in Without(entries, key) <==> e in entries && e.key != key
  {
    var i := IndexOf(entries, key);
    hide Distinct, IndexOf;
    if i < |entries| {
      OneRemoved(entries, i);
    } else {
      assert forall e | e in entries :: e.key != key;
    }
  }

  lemma OneRemoved<P>(entries: seq<Entry<P>>, i: nat)
    requires Distinct(entries) && i < |entries|
    ensures
      var r := entries[..i] + entries[i + 1..];
      Distinct(r) && forall e :: e in r <==> e in entries && e.key != entries[i].key
  {
    var r := entries[..i] + entries[i + 1..];
    assert Distinct(r);
    OthersStay(entries, i);
    forall e | e in r
      ensures e in entries && e.key != entries[i].key
    {
      var j :| 0 <= j < |r| && r[j] == e;
      assert e == entries[if j < i then j else j + 1];
    }
  }

  lemma OthersStay<P>(entries: seq<Entry<P>>, i: nat)
    requires i < |entries|
    ensures forall e | e in entries && e.key != entries[i].key :: e in entries[..i] + entries[i + 1..]
  {
    var r := entries[..i] + entries[i + 1..];
    forall e | e in entries && e.key != entries[i].key
      ensures e in r
    {
      var j :| 0 <= j < |entries| && entries[j] == e;
      assert r[if j < i then j else j - 1] == e;
    }
  }

  lemma NewestFacts<P>(all: seq<Entry<P>>, max: nat)
    requires Distinct(all)
    ensures
      var r := Newest(all, max);
      && Distinct(r) && |r| <= max && (forall x | x in r :: x in all)
      && (max > 0 && all != [] ==> Find(r, all[|all| - 1].key) == Some(all[|all| - 1]))
  {
    var r := Newest(all, max);
    NewestIsDistinct(all, max);
    hide Newest, Distinct, Find, IndexOf;
    if max > 0 && all != [] {
      assert r[|r| - 1] == all[|all| - 1];
      FoundAt(r, |r| - 1);
    }
  }

  lemma NewestIsDistinct<P>(all: seq<Entry<P>>, max: nat)
    requires Distinct(all)
    ensures
      var r := Newest(all, max);
      && Distinct(r) && (forall x | x in r :: x in all)
      && |r| == (if |all| <= max then |all| else max) && (r != [] ==> r[|r| - 1] == all[|all| - 1])
  {
  }

  lemma FoundAt<P>(entries: seq<Entry<P>>, i: nat)
    requires Distinct(entries) && i < |entries|
    ensures Find(entries, entries[i].key) == Some(entries[i])
  {
    var j := IndexOf(entries, entries[i].key);
    hide IndexOf;
    assert j <= i;
  }

  /** Capacity and distinct keys hold after every put, and the new entry is found unless nothing may be kept. */
  lemma PutKeepsBounds<P>(entries: seq<Entry<P>>, e: Entry<P>, max: nat)
    requires Distinct(entries)
    ensures Distinct(Put(entries, e, max)) && |Put(entries, e, max)| <= max
    ensures max > 0 ==> Find(Put(entries, e, max), e.key) == Some(e)
    ensures forall x | x in Put(entries, e, max) :: x == e || (x in entries && x.key != e.key)
  {
    WithoutKey(entries, e.key);
    hide Without, Newest, Find, Distinct;
    var left := Without(entries, e.key);
    var all := left + [e];
    AppendDistinct(left, e);
    NewestFacts(all, max);
  }

  lemma GetKeepsBounds<P>(entries: seq<Entry<P>>, key: string, now: int)
    requires Distinct(entries)
    ensures
      var (r, hit) := Get(entries, key, now);
      && Distinct(r) && |r| <= |entries| && (forall x | x in r :: x in entries)
      && (hit.Some? <==> exists e | e in entries :: e.key == key && now <= e.expiresAt)
      && (hit.Some? ==> r != [] && r[|r| - 1].key == key && r[|r| - 1].payload == hit.value && |r| == |entries|)
      && (hit.None? ==> forall x | x in r :: x.key != key)
      && forall x | x in entries && x.key != key :: x in r
  {
    WithoutKey(entries, key);
    FoundIs(entries, key);
    hide Distinct, Without, Find;
    if Find(entries, key).Some? {
      var e := Find(entries, key).value;
      AppendDistinct(Without(entries, key), e);
      forall x | x in entries && x.key == key
        ensures x == e
      {
        OneWithKey(entries, x, e);
      }
    }
  }

  lemma FoundIs<P>(entries: seq<Entry<P>>, key: string)
    ensures
      match Find(entries, key)
      case None => forall x | x in entries :: x.key != key
      case Some(e) => e in entries && e.key == key && |Without(entries, key)| == |entries| - 1
  {
    var i := IndexOf(entries, key);
    hide IndexOf;
    assert i < |entries| ==> entries[i] in entries;
  }

  lemma OneWithKey<P>(entries: seq<Entry<P>>, a: Entry<P>, b: Entry<P>)
    requires Distinct(entries) && a in entries && b in entries && a.key == b.key
    ensures a == b
  {
    var i, j :| 0 <= i < |entries| && 0 <= j < |entries| && entries[i] == a && entries[j] == b;
    assert i == j;
  }

  lemma AppendDistinct<P>(entries: seq<Entry<P>>, e: Entry<P>)
    requires Distinct(entries) && forall x | x in entries :: x.key != e.key
    ensures Distinct(entries + [e])
  {
    assert forall i | 0 <= i < |entries| :: entries[i] in entries;
  }

  function PutAll<P>(entries: seq<Entry<P>>, es: seq<Entry<P>>, max: nat): seq<Entry<P>>
    decreases |es|
  {
    if es == [] then entries else PutAll(Put(entries, es[0], max), es[1..], max)
  }

  /**
   Least recently used goes first: an entry with `newer` entries behind it survives any puts of other
   keys as long as those and the newer ones stay below the capacity.
   */
  lemma {:induction false} RecentSurvives<P>(entries: seq<Entry<P>>, i: nat, es: seq<Entry<P>>, max: nat)
    requires Distinct(entries) && i < |entries| && forall e | e in es :: e.key != entries[i].key
    requires |entries| - 1 - i + |es| < max
    ensures entries[i] in PutAll(entries, es, max)
    decreases |es|
  {
    if es != [] {
      var rest := es[1..];
      assert es[0] in es;
      PutKeepsBounds(entries, es[0], max);
      var j := PutKeepsRecent(entries, i, es[0], max);
      hide Put, Distinct, IndexOf;
      assert forall x | x in rest :: x in es;
      RecentSurvives(Put(entries, es[0], max), j, rest, max);
    }
  }

  /** One put moves an entry that is recent enough by at most one place towards the oldest. */
  lemma PutKeepsRecent<P>(entries: seq<Entry<P>>, i: nat, e: Entry<P>, max: nat) returns (j: nat)
    requires i < |entries| && e.key != entries[i].key && |entries| - i < max
    ensures
      var r := Put(entries, e, max);
      j < |r| && r[j] == entries[i] && |r| - j <= |entries| - i + 1
  {
    j := WithoutKeepsRecent(entries, i, e.key);
    hide Without, IndexOf;
    var all := Without(entries, e.key) + [e];
    assert all[j] == entries[i];
    j := NewestKeeps(all, j, max);
  }

  lemma NewestKeeps<P>(all: seq<Entry<P>>, i: nat, max: nat) returns (j: nat)
    requires i < |all| && |all| - i <= max
    ensures
      var r := Newest(all, max);
      j < |r| && r[j] == all[i] && |r| - j == |all| - i
  {
    j := if |all| <= max then i else i - (|all| - max);
  }

  lemma WithoutKeepsRecent<P>(entries: seq<Entry<P>>, i: nat, key: string) returns (j: nat)
    requires i < |entries| && key != entries[i].key
    ensures
      var r := Without(entries, key);
      j < |r| && r[j] == entries[i] && |r| - j <= |entries| - i
  {
    hide IndexOf;
    var n, r := IndexOf(entries, key), Without(entries, key);
    j := if n < i then i - 1 else i;
    assert n < |entries| ==> r == entries[..n] + entries[n + 1..];
    assert r[j] == entries[i];
  }

  class ResultCache<P> {
    const maxEntries: nat
    const ttl: int
    var entries: seq<Entry<P>>
    var hits: nat
    var misses: nat

    ghost predicate Valid()
      reads this
    {
      Distinct(entries) && |entries| <= maxEntries
    }

    constructor (maxEntries: nat, ttl: int)
      ensures Valid() && entries == [] && hits == misses == 0
      ensures this.maxEntries == maxEntries && this.ttl == ttl
    {
      this.maxEntries, this.ttl := maxEntries, ttl;
      entries, hits, misses := [], 0, 0;
    }

    /** get(key), at the reading `now` of the monotonic clock. */
    method Lookup(key: string, now: int) returns (payload: Option<P>)
      requires Valid()
      modifies this
      ensures Valid() && (entries, payload) == Get(old(entries), key, now)
      ensures if payload.Some? then hits == old(hits) + 1 && misses == old(misses) else hits == old(hits) && misses == old(misses) + 1
    {
      GetKeepsBounds(entries, key, now);
      var i := 0;
      while i < |entries| && entries[i].key != key
        invariant i <= IndexOf(entries, key)
      {
        i := i + 1;
      }
      assert i == IndexOf(entries, key);
      hide IndexOf, Distinct;
      if i == |entries| {
        misses := misses + 1;
        return None;
      }
      var e := entries[i];
      entries := entries[..i] + entries[i + 1..];
      if now > e.expiresAt {
        misses := misses + 1;
        return None;
      }
      entries := entries + [e];
      hits := hits + 1;
      return Some(e.payload);
    }

    /** put(key, payload), at the reading `now`. */
    method Store(key: string, payload: P, now: int)
      requires Valid()
      modifies this`entries
      ensures Valid() && entries == Put(old(entries), Entry(key, now + ttl, payload), maxEntries)
    {
      var e := Entry(key, now + ttl, payload);
      PutKeepsBounds(entries, e, maxEntries);
      entries := Without(entries, key) + [e];
      hide Without, Distinct, Find;
      ghost var all := entries;
      while |entries| > maxEntries
        invariant |entries| <= |all| && entries == all[|all| - |entries|..]
        invariant |all| >= maxEntries ==> |entries| >= maxEntries
        invariant |all| < maxEntries ==> entries == all
      {
        entries := entries[1..];
      }
    }

    method Clear()
      modifies this`entries
      ensures Valid() && entries == []
    {
      entries := [];
    }
  }
}
