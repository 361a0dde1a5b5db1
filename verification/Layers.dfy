/**
 Reading through layers (memtable first, then tables newest first), and merging tables into one.
 Both are related to the plain set of versions the layers hold.
 */
module Layers {
  import opened Options
  import opened Clock
  import opened Records
  import opened MemTables

  ghost function All(layers: seq<seq<Rec>>): set<Rec> {
    set l, r | l in layers && r in l :: r
  }

  /** get: the first layer with a match answers, a tombstone included. */
  function LayerLookup(layers: seq<seq<Rec>>, k: Key, t: Timestamp): Option<Rec> {
    if layers == [] then None
    else
      var hit := Lookup(layers[0], k, t);
      if hit.Some? then hit else LayerLookup(layers[1..], k, t)
  }

  /** A newer layer holds whatever an older one has at or above a version of its own. */
  ghost predicate Covers(newer: seq<Rec>, older: seq<Rec>) {
    forall r, u | r in newer && u in older && r.key == u.key && r.ts.AtMost(u.ts) :: u in newer
  }

  ghost predicate Layered(layers: seq<seq<Rec>>) {
    && (forall l | l in layers :: Sorted(l))
    && forall i, j | 0 <= i < j < |layers| :: Covers(layers[i], layers[j])
  }

  /** With covering layers, stopping at the first match still finds the newest version of all. */
  lemma {:induction false} LayeredIsNewest(layers: seq<seq<Rec>>, k: Key, t: Timestamp)
    requires Layered(layers)
    ensures Newest(All(layers), k, t, LayerLookup(layers, k, t))
  {
    if layers != [] {
      var top, rest := layers[0], layers[1..];
      assert Layered(rest) by {
        assert forall l | l in rest :: l in layers;
        assert forall i | 0 <= i < |rest| :: rest[i] == layers[i + 1];
      }
      LayeredIsNewest(rest, k, t);
      LookupIsNewest(top, k, t);
      AllSplits(layers);
      var hit := Lookup(top, k, t);
      if hit.Some? {
        forall u | u in All(layers) && Matches(u, k, t)
          ensures u.ts.AtMost(hit.value.ts)
        {
          if u !in top {
            CoveredBelow(layers, hit.value, u);
          }
        }
      }
    }
  }

  lemma AllSplits(layers: seq<seq<Rec>>)
    requires layers != []
    ensures All(layers) == Elements(layers[0]) + All(layers[1..])
  {
    assert layers == [layers[0]] + layers[1..];
  }

  /** A version outside the top layer that is not older than one inside cannot exist. */
  lemma CoveredBelow(layers: seq<seq<Rec>>, r: Rec, u: Rec)
    requires Layered(layers) && layers != [] && r in layers[0] && u in All(layers) && u !in layers[0] && r.key == u.key
    ensures u.ts.Less(r.ts)
  {
    var l :| l in layers && u in l;
    var j :| 0 <= j < |layers| && layers[j] == l;
    assert Covers(layers[0], layers[j]);
  }

  // ---------- scan ----------

  /** Position i of a sorted record list decides its key at time t: the first version at or before t. */
  predicate Decides(s: seq<Rec>, i: nat, t: Timestamp)
    requires i < |s|
  {
    s[i].ts.AtMost(t) && forall j | 0 <= j < i :: !Matches(s[j], s[i].key, t)
  }

  /** The key-value pairs a scan yields for the first n records. */
  ghost function Resolved(s: seq<Rec>, n: nat, t: Timestamp): seq<(Key, Value)>
    requires n <= |s|
  {
    if n == 0 then []
    else Resolved(s, n - 1, t) +
         if Decides(s, n - 1, t) && s[n - 1].value.Some? then [(s[n - 1].key, s[n - 1].value.value)] else []
  }

  /** The resolving loop of scan over sorted records. */
  method Resolve(s: seq<Rec>, t: Timestamp) returns (found: seq<(Key, Value)>)
    requires Sorted(s)
    ensures found == Resolved(s, |s|, t)
  {
    found := [];
    var currentKey: Option<Key> := None;
    var resolved := false;
    for i := 0 to |s|
      invariant found == Resolved(s, i, t)
      invariant i == 0 ==> currentKey == None
      invariant i > 0 ==> currentKey == Some(s[i - 1].key)
      invariant i > 0 ==> (resolved <==> exists j | 0 <= j < i :: Matches(s[j], s[i - 1].key, t))
    {
      if currentKey != Some(s[i].key) {
        currentKey, resolved := Some(s[i].key), false;
        if i > 0 {
          forall j | 0 <= j < i
            ensures s[j].key < s[i].key
          {
            assert !Precedes(s[i - 1], s[j]) || j == i - 1;
            assert !Precedes(s[i], s[i - 1]);
          }
        }
      }
      assert resolved <==> exists j | 0 <= j < i :: Matches(s[j], s[i].key, t);
      if resolved || !s[i].ts.AtMost(t) {
        continue;
      }
      resolved := true;
      assert Matches(s[i], s[i].key, t);
      if s[i].value.Some? {
        found := found + [(s[i].key, s[i].value.value)];
      }
    }
  }

  /** Every pair of a scan comes from a deciding position. */
  lemma {:induction false} ResolvedAt(s: seq<Rec>, n: nat, t: Timestamp, p: (Key, Value)) returns (i: nat)
    requires n <= |s| && p in Resolved(s, n, t)
    ensures i < n && Decides(s, i, t) && s[i].key == p.0 && s[i].value == Some(p.1)
  {
    if p in Resolved(s, n - 1, t) {
      i := ResolvedAt(s, n - 1, t, p);
    } else {
      i := n - 1;
    }
  }

  lemma {:induction false} DecidedIsResolved(s: seq<Rec>, n: nat, t: Timestamp, i: nat)
    requires i < n <= |s| && Decides(s, i, t) && s[i].value.Some?
    ensures (s[i].key, s[i].value.value) in Resolved(s, n, t)
  {
    if i < n - 1 {
      DecidedIsResolved(s, n - 1, t, i);
    }
  }

  /** Keys come out in strictly ascending order, so each at most once. */
  lemma {:induction false} ResolvedAscends(s: seq<Rec>, n: nat, t: Timestamp)
    requires Sorted(s) && n <= |s|
    ensures forall i, j | 0 <= i < j < |Resolved(s, n, t)| :: Resolved(s, n, t)[i].0 < Resolved(s, n, t)[j].0
  {
    if n > 0 {
      ResolvedAscends(s, n - 1, t);
      var found := Resolved(s, n - 1, t);
      if Decides(s, n - 1, t) {
        forall p | p in found
          ensures p.0 < s[n - 1].key
        {
          var i := ResolvedAt(s, n - 1, t, p);
          assert !Precedes(s[n - 1], s[i]);
          assert !Matches(s[i], s[n - 1].key, t);
        }
      }
    }
  }

  /** A scan yields (k, v) exactly when v is the value of the first version of k at time t. */
  lemma ResolvedIsLookup(s: seq<Rec>, t: Timestamp, k: Key, v: Value)
    ensures (k, v) in Resolved(s, |s|, t) <==> ValueOf(Lookup(s, k, t)) == Some(v)
  {
    var i := FirstMatch(s, k, t);
    hide Lookup;
    if (k, v) in Resolved(s, |s|, t) {
      var j := ResolvedAt(s, |s|, t, (k, v));
      assert Matches(s[j], k, t) && j == i;
    }
    if i < |s| && s[i].value == Some(v) {
      DecidedIsResolved(s, |s|, t, i);
    }
  }

  /** The position of the first version of k at time t, |s| when there is none. */
  lemma FirstMatch(s: seq<Rec>, k: Key, t: Timestamp) returns (i: nat)
    ensures i <= |s| && forall j | 0 <= j < i :: !Matches(s[j], k, t)
    ensures Lookup(s, k, t) == if i < |s| then Some(s[i]) else None
    ensures i < |s| ==> Matches(s[i], k, t)
  {
    i := 0;
    while i < |s| && !Matches(s[i], k, t)
      invariant i <= |s| && forall j | 0 <= j < i :: !Matches(s[j], k, t)
    {
      i := i + 1;
    }
    LookupAt(s, k, t, i);
  }

  /** Over records in storage order that is the newest version of k. */
  lemma ResolvedIsNewest(s: seq<Rec>, t: Timestamp, k: Key, v: Value)
    requires Sorted(s) && Unique(Elements(s))
    ensures (k, v) in Resolved(s, |s|, t) <==> exists r :: Newest(Elements(s), k, t, Some(r)) && r.value == Some(v)
  {
    ResolvedIsLookup(s, t, k, v);
    LookupIsNewest(s, k, t);
    hide Resolved, Lookup, Sorted;
    if r :| Newest(Elements(s), k, t, Some(r)) && r.value == Some(v) {
      NewestIsUnique(Elements(s), k, t, Some(r), Lookup(s, k, t));
    }
    if ValueOf(Lookup(s, k, t)) == Some(v) {
      assert Newest(Elements(s), k, t, Some(Lookup(s, k, t).value));
    }
  }
}
