/**
 The byte format of the write-ahead log: entries, checksummed frames, segments, and what replay makes of
 them. The two checksums are arbitrary functions; integers are stored little-endian.
 */
module WalFraming {
  import opened Options

  type Byte = b: int | 0 <= b < 256
  type U32 = n: int | 0 <= n < 0x1_0000_0000
  type Bytes = seq<Byte>
  type Checksum = Bytes -> U32

  const MAGIC: Bytes := [0x53, 0x57, 0x41, 0x4C]   // "SWAL"
  const HEADER: Bytes := MAGIC + [1]

  datatype Entry = Entry(physical: nat, logical: nat, uncertainty: nat, key: Bytes, value: Option<Bytes>, deleted: bool)

  /** How a replay ended: at the end of the file, at a damaged record, or with an exception. */
  datatype Ending = Finished | Stopped | Raised

  datatype Replayed = Replayed(entries: seq<Entry>, ending: Ending) {
    function After(earlier: seq<Entry>): Replayed {
      Replayed(earlier + entries, ending)
    }
  }

  // ---------- integers ----------

  function Limit(width: nat): (r: nat)
    ensures r > 0
  {
    if width == 0 then 1 else 256 * Limit(width - 1)
  }

  function Pack(n: nat, width: nat): (s: Bytes)
    ensures |s| == width
  {
    if width == 0 then [] else [n % 256] + Pack(n / 256, width - 1)
  }

  function Unpack(s: Bytes): nat {
    if s == [] then 0 else s[0] + 256 * Unpack(s[1..])
  }

  lemma {:induction false} UnpackInvertsPack(n: nat, width: nat)
    ensures Unpack(Pack(n, width)) == n <==> n < Limit(width)
  {
    if width > 0 {
      UnpackInvertsPack(n / 256, width - 1);
      var s := Pack(n, width);
      assert s[1..] == Pack(n / 256, width - 1);
    }
  }

  /** Little-endian: a byte counts 256 times the one before it. */
  lemma {:induction false} UnpackIsLittleEndian(a: Bytes, b: Bytes)
    ensures Unpack(a + b) == Unpack(a) + Limit(|a|) * Unpack(b)
    ensures forall x: Byte :: Unpack([x]) == x
  {
    if a == [] {
      assert a + b == b;
    } else {
      UnpackIsLittleEndian(a[1..], b);
      assert (a + b)[1..] == a[1..] + b;
      assert 256 * (Limit(|a| - 1) * Unpack(b)) == Limit(|a|) * Unpack(b);
    }
  }

  lemma Limits()
    ensures Limit(4) == 0x1_0000_0000
    ensures Limit(8) == 0x1_0000_0000_0000_0000
  {
    assert Limit(2) == 256 * Limit(1) && Limit(1) == 256;
    assert Limit(4) == 256 * Limit(3) && Limit(3) == 256 * Limit(2);
    assert Limit(6) == 256 * Limit(5) && Limit(5) == 256 * Limit(4);
    assert Limit(8) == 256 * Limit(7) && Limit(7) == 256 * Limit(6);
  }

  // ---------- entries ----------

  /** No value and an empty value are both stored as length 0. */
  function ValueBytes(e: Entry): Bytes {
    match e.value
    case None => []
    case Some(v) => v
  }

  function Body(e: Entry): Bytes {
    Pack(e.physical, 8) + Pack(e.logical, 8) + Pack(e.uncertainty, 8) + [if e.deleted then 1 else 0] +
    Pack(|e.key|, 4) + e.key + Pack(|ValueBytes(e)|, 4) + ValueBytes(e)
  }

  /** Every integer fits its field; outside, struct.pack raises. */
  predicate Fits(e: Entry) {
    && e.physical < 0x1_0000_0000_0000_0000 && e.logical < 0x1_0000_0000_0000_0000
    && e.uncertainty < 0x1_0000_0000_0000_0000
    && |Body(e)| < 0x1_0000_0000
  }

  /** An entry fits when each of its integers comes back from the bytes of its field. */
  lemma FitsIff(e: Entry)
    ensures Fits(e) <==>
            && Unpack(Pack(e.physical, 8)) == e.physical && Unpack(Pack(e.logical, 8)) == e.logical
            && Unpack(Pack(e.uncertainty, 8)) == e.uncertainty && Unpack(Pack(|e.key|, 4)) == |e.key|
            && Unpack(Pack(|ValueBytes(e)|, 4)) == |ValueBytes(e)| && Unpack(Pack(|Body(e)|, 4)) == |Body(e)|
  {
    Limits();
    UnpackInvertsPack(e.physical, 8);
    UnpackInvertsPack(e.logical, 8);
    UnpackInvertsPack(e.uncertainty, 8);
    UnpackInvertsPack(|e.key|, 4);
    UnpackInvertsPack(|ValueBytes(e)|, 4);
    UnpackInvertsPack(|Body(e)|, 4);
    hide Pack, Unpack, Limit;
  }

  function Frame(crc: Checksum, e: Entry): Bytes {
    Pack(|Body(e)|, 4) + Pack(crc(Body(e)), 4) + Body(e)
  }

  /** serialize(): None stands for the exception. */
  function Serialize(crc: Checksum, e: Entry): Option<Bytes> {
    if Fits(e) then Some(Frame(crc, e)) else None
  }

  /** A slice data[from:to] that may run past the end. */
  function Slice(s: Bytes, from: nat, to: nat): Bytes
    requires from <= to
  {
    var hi := if to <= |s| then to else |s|;
    if from <= hi then s[from..hi] else []
  }

  /** deserialize(): None stands for the exception of a short field. */
  function Deserialize(data: Bytes): Option<Entry> {
    if |data| < 29 then None
    else
      var keyEnd := 29 + Unpack(data[25..29]);
      if |data| < keyEnd + 4 then None
      else
        var valueLen := Unpack(data[keyEnd..keyEnd + 4]);
        var value := if valueLen > 0 then Some(Slice(data, keyEnd + 4, keyEnd + 4 + valueLen)) else None;
        Some(Entry(Unpack(data[..8]), Unpack(data[8..16]), Unpack(data[16..24]), data[29..keyEnd], value, data[24] == 1))
  }

  /** What comes back: an empty value has become no value. */
  function Stored(e: Entry): Entry {
    e.(value := if e.value == Some([]) then None else e.value)
  }

  lemma BodyLayout(e: Entry)
    ensures
      var b, k := Body(e), 29 + |e.key|;
      && |b| == k + 4 + |ValueBytes(e)|
      && b[..8] == Pack(e.physical, 8) && b[8..16] == Pack(e.logical, 8) && b[16..24] == Pack(e.uncertainty, 8)
      && b[24] == (if e.deleted then 1 else 0) && b[25..29] == Pack(|e.key|, 4) && b[29..k] == e.key
      && b[k..k + 4] == Pack(|ValueBytes(e)|, 4) && b[k + 4..] == ValueBytes(e)
  {
  }

  /** Reading back bytes whose two lengths match what follows them. */
  lemma DeserializeAt(data: Bytes, key: Bytes, value: Bytes)
    requires |data| == 33 + |key| + |value|
    requires Unpack(data[25..29]) == |key| && data[29..29 + |key|] == key
    requires Unpack(data[29 + |key|..33 + |key|]) == |value| && data[33 + |key|..] == value
    ensures Deserialize(data)
         == Some(Entry(Unpack(data[..8]), Unpack(data[8..16]), Unpack(data[16..24]), key,
                       if value == [] then None else Some(value), data[24] == 1))
  {
    hide Unpack;
    assert Slice(data, 33 + |key|, |data|) == value;
  }

  /** The body round-trips up to the empty value. */
  lemma BodyComesBack(e: Entry)
    requires Fits(e)
    ensures Deserialize(Body(e)) == Some(Stored(e))
  {
    BodyLayout(e);
    Limits();
    UnpackInvertsPack(e.physical, 8);
    UnpackInvertsPack(e.logical, 8);
    UnpackInvertsPack(e.uncertainty, 8);
    UnpackInvertsPack(|e.key|, 4);
    UnpackInvertsPack(|ValueBytes(e)|, 4);
    hide Body, Pack, Limit, Unpack, Deserialize;
    DeserializeAt(Body(e), e.key, ValueBytes(e));
  }

  /** Exactly the entries with an empty value are changed by a round trip. */
  lemma RoundTripIff(e: Entry)
    requires Fits(e)
    ensures Deserialize(Body(e)) == Some(e) <==> e.value != Some([])
  {
    BodyComesBack(e);
  }

  // ---------- frames ----------

  /** One round of the record loop: the entry read and where the next record starts, or how it ends. */
  datatype Round = Over(ending: Ending) | Read(entry: Entry, next: nat)

  function ReadRecord(check: Checksum, f: Bytes): (r: Round)
    ensures r.Read? ==> 8 <= r.next <= |f|
  {
    if f == [] then Over(Finished)
    else if |f| < 8 then Over(Stopped)
    else
      var end := 8 + Unpack(f[..4]);
      if |f| < end then Over(Stopped)
      else if Unpack(f[4..8]) != check(f[8..end]) then Over(Stopped)
      else
        match Deserialize(f[8..end])
        case None => Over(Raised)
        case Some(e) => Read(e, end)
  }

  /** The record loop of replay over the bytes after the header. */
  function Records(check: Checksum, f: Bytes): Replayed
    decreases |f|
  {
    match ReadRecord(check, f)
    case Over(ending) => Replayed([], ending)
    case Read(e, next) => Records(check, f[next..]).After([e])
  }

  /** A complete record is read the same whatever follows it. */
  lemma RecordKept(check: Checksum, f: Bytes, g: Bytes)
    requires ReadRecord(check, f).Read?
    ensures ReadRecord(check, f + g) == ReadRecord(check, f)
  {
    hide Unpack, Deserialize;
    var end := 8 + Unpack(f[..4]);
    assert (f + g)[..4] == f[..4] && (f + g)[4..8] == f[4..8];
    assert (f + g)[8..end] == f[8..end];
  }

  /** What follows a cleanly ending run of frames is replayed as if it stood alone. */
  lemma {:induction false} RecordsConcat(check: Checksum, f: Bytes, g: Bytes)
    requires Records(check, f).ending == Finished
    ensures Records(check, f + g) == Records(check, g).After(Records(check, f).entries)
    decreases |f|
  {
    hide ReadRecord;
    OverOnlyWhenEmpty(check, f);
    match ReadRecord(check, f)
    case Over(_) =>
      assert f + g == g && Records(check, f).entries == [];
    case Read(e, next) =>
      RecordKept(check, f, g);
      assert (f + g)[next..] == f[next..] + g;
      RecordsConcat(check, f[next..], g);
      assert Records(check, f + g) == Records(check, f[next..] + g).After([e]);
      assert Records(check, f).entries == [e] + Records(check, f[next..]).entries;
  }

  /** Whatever is written behind them, records once readable stay readable. */
  lemma {:induction false} RecordsStay(check: Checksum, f: Bytes, g: Bytes)
    ensures Records(check, f).entries <= Records(check, f + g).entries
    decreases |f|
  {
    hide ReadRecord;
    match ReadRecord(check, f)
    case Over(_) =>
      assert Records(check, f).entries == [];
    case Read(e, next) =>
      RecordKept(check, f, g);
      assert (f + g)[next..] == f[next..] + g;
      RecordsStay(check, f[next..], g);
      assert Records(check, f + g).entries == [e] + Records(check, f[next..] + g).entries;
  }

  lemma OverOnlyWhenEmpty(check: Checksum, f: Bytes)
    ensures ReadRecord(check, f) == Over(Finished) <==> f == []
  {
  }

  lemma FrameLayout(crc: Checksum, e: Entry)
    ensures |Frame(crc, e)| == 8 + |Body(e)| && Frame(crc, e)[..4] == Pack(|Body(e)|, 4)
    ensures Frame(crc, e)[4..8] == Pack(crc(Body(e)), 4) && Frame(crc, e)[8..] == Body(e)
  {
    hide Body;
  }

  lemma ReadRecordAt(check: Checksum, f: Bytes, b: Bytes, e: Entry)
    requires |f| == 8 + |b| && f[8..] == b && Unpack(f[..4]) == |b| && Unpack(f[4..8]) == check(b)
    requires Deserialize(b) == Some(e)
    ensures ReadRecord(check, f) == Read(e, |f|)
  {
    hide Unpack, Deserialize;
    assert f[8..|f|] == b;
  }

  lemma OneRecord(check: Checksum, f: Bytes, e: Entry)
    requires ReadRecord(check, f) == Read(e, |f|)
    ensures Records(check, f) == Replayed([e], Finished)
  {
    OverOnlyWhenEmpty(check, []);
    hide ReadRecord;
    assert f[|f|..] == [];
    assert Records(check, []) == Replayed([], Finished);
  }

  lemma FrameReplays(crc: Checksum, e: Entry)
    requires Fits(e)
    ensures Records(crc, Frame(crc, e)) == Replayed([Stored(e)], Finished)
  {
    var f, b := Frame(crc, e), Body(e);
    BodyComesBack(e);
    FrameLayout(crc, e);
    Limits();
    UnpackInvertsPack(|b|, 4);
    UnpackInvertsPack(crc(b), 4);
    hide Body, Frame, Limit, Pack, Unpack, Deserialize, Records;
    ReadRecordAt(crc, f, b, Stored(e));
    OneRecord(crc, f, Stored(e));
  }

  /** A frame cut short is recognised as such, whatever the checksum. */
  lemma TornFrameStops(crc: Checksum, e: Entry, n: nat)
    requires Fits(e) && 0 < n < |Frame(crc, e)|
    ensures Records(crc, Frame(crc, e)[..n]) == Replayed([], Stopped)
  {
    var f, b := Frame(crc, e), Body(e);
    FrameLayout(crc, e);
    Limits();
    UnpackInvertsPack(|b|, 4);
    hide Body, Frame, Limit, Pack, Unpack, Deserialize;
    assert n >= 8 ==> f[..n][..4] == f[..4];
  }

  // ---------- segments ----------

  /** One segment of a replay. A file of exactly the four magic bytes has no version byte to read. */
  function ReplayFile(crc: Checksum, legacy: Checksum, f: Bytes): Replayed {
    if |f| >= 4 && f[..4] == MAGIC then
      if |f| == 4 then Replayed([], Raised)
      else if f[4] > 1 then Replayed([], Stopped)
      else Records(if f[4] == 0 then legacy else crc, f[5..])
    else Records(legacy, f)
  }

  function ReplayAll(crc: Checksum, legacy: Checksum, files: seq<Bytes>): Replayed {
    if files == [] then Replayed([], Finished)
    else
      var first := ReplayFile(crc, legacy, files[0]);
      if first.ending != Finished then first
      else ReplayAll(crc, legacy, files[1..]).After(first.entries)
  }

  function Frames(crc: Checksum, es: seq<Entry>): Bytes {
    if es == [] then [] else Frame(crc, es[0]) + Frames(crc, es[1..])
  }

  function StoredAll(es: seq<Entry>): (r: seq<Entry>)
    ensures |r| == |es| && forall i | 0 <= i < |es| :: r[i] == Stored(es[i])
  {
    seq(|es|, i requires 0 <= i < |es| => Stored(es[i]))
  }

  predicate AllFit(es: seq<Entry>) {
    forall e | e in es :: Fits(e)
  }

  /** How many frames lie wholly within the first n bytes. */
  function Whole(crc: Checksum, es: seq<Entry>, n: nat): (k: nat)
    ensures k <= |es|
  {
    if es == [] || |Frame(crc, es[0])| > n then 0 else 1 + Whole(crc, es[1..], n - |Frame(crc, es[0])|)
  }

  lemma {:induction false} WholeIsExact(crc: Checksum, es: seq<Entry>, n: nat)
    ensures
      var k := Whole(crc, es, n);
      |Frames(crc, es[..k])| <= n && (k < |es| ==> n < |Frames(crc, es[..k + 1])|)
  {
    hide Frame;
    var k := Whole(crc, es, n);
    if es != [] {
      assert es[..1] == [es[0]] && es[..1][1..] == [];
      assert Frames(crc, es[..1]) == Frame(crc, es[0]) + Frames(crc, []);
      if |Frame(crc, es[0])| <= n {
        WholeIsExact(crc, es[1..], n - |Frame(crc, es[0])|);
        assert es[..k][0] == es[0] && es[..k][1..] == es[1..][..k - 1];
        if k < |es| {
          assert es[..k + 1][0] == es[0] && es[..k + 1][1..] == es[1..][..k];
        }
      }
    }
  }

  lemma StoredSplits(es: seq<Entry>, k: nat)
    requires 0 < k <= |es|
    ensures StoredAll(es[..k]) == [Stored(es[0])] + StoredAll(es[1..][..k - 1])
  {
    assert es[..k][1..] == es[1..][..k - 1];
  }

  lemma {:induction false} CutFrames(crc: Checksum, es: seq<Entry>, n: nat)
    requires AllFit(es) && n <= |Frames(crc, es)|
    ensures
      var k := Whole(crc, es, n);
      Records(crc, Frames(crc, es)[..n])
        == Replayed(StoredAll(es[..k]), if n == |Frames(crc, es[..k])| then Finished else Stopped)
  {
    hide Frame, Records, Fits, Stored;
    var all, k := Frames(crc, es), Whole(crc, es, n);
    if es == [] {
      NoBytes(crc);
      assert all[..n] == [];
    } else {
      assert es[0] in es && forall e | e in es[1..] :: e in es;
      var first, rest := Frame(crc, es[0]), Frames(crc, es[1..]);
      if |first| <= n {
        assert all[..n] == first + rest[..n - |first|];
        FrameReplays(crc, es[0]);
        RecordsConcat(crc, first, rest[..n - |first|]);
        CutFrames(crc, es[1..], n - |first|);
        StoredSplits(es, k);
        assert es[..k][0] == es[0] && es[..k][1..] == es[1..][..k - 1];
      } else if n == 0 {
        NoBytes(crc);
        assert all[..n] == [];
      } else {
        assert all[..n] == first[..n];
        TornFrameStops(crc, es[0], n);
      }
    }
  }

  lemma NoBytes(check: Checksum)
    ensures Records(check, []) == Replayed([], Finished)
  {
  }

  lemma {:induction false} WholeOfAll(crc: Checksum, es: seq<Entry>)
    ensures Whole(crc, es, |Frames(crc, es)|) == |es|
  {
    hide Frame;
    if es != [] {
      WholeOfAll(crc, es[1..]);
    }
  }

  // ---------- results ----------

  /** Behind its header, a cut segment is cut records. */
  lemma CutFile(crc: Checksum, legacy: Checksum, all: Bytes, n: nat)
    requires n <= |all|
    ensures ReplayFile(crc, legacy, (HEADER + all)[..5 + n]) == Records(crc, all[..n])
  {
    hide Records;
    var f := (HEADER + all)[..5 + n];
    assert f[..4] == MAGIC && f[4] == 1 && f[5..] == all[..n];
  }

  /** A version-1 segment cut at any byte after its header replays exactly the entries wholly before the cut. */
  lemma CutReplaysPrefix(crc: Checksum, legacy: Checksum, es: seq<Entry>, cut: nat)
    requires AllFit(es) && |HEADER| <= cut <= |HEADER| + |Frames(crc, es)|
    ensures
      var k := Whole(crc, es, cut - |HEADER|);
      ReplayFile(crc, legacy, (HEADER + Frames(crc, es))[..cut])
        == Replayed(StoredAll(es[..k]), if cut == |HEADER| + |Frames(crc, es[..k])| then Finished else Stopped)
  {
    hide Frame, Frames, Whole, Records, ReplayFile, AllFit, Stored, StoredAll;
    CutFrames(crc, es, cut - 5);
    CutFile(crc, legacy, Frames(crc, es), cut - 5);
  }

  /** An undamaged segment replays to the entries written, a list without empty values to itself. */
  lemma SegmentReplays(crc: Checksum, legacy: Checksum, es: seq<Entry>)
    requires AllFit(es)
    ensures ReplayFile(crc, legacy, HEADER + Frames(crc, es)) == Replayed(StoredAll(es), Finished)
    ensures StoredAll(es) == es <==> forall e | e in es :: e.value != Some([])
  {
    hide Frame, Frames, ReplayFile, Fits, Whole;
    var f := HEADER + Frames(crc, es);
    CutReplaysPrefix(crc, legacy, es, |f|);
    WholeOfAll(crc, es);
    assert f[..|f|] == f && es[..|es|] == es;
    StoredIsSame(es);
  }

  lemma StoredIsSame(es: seq<Entry>)
    ensures StoredAll(es) == es <==> forall e | e in es :: e.value != Some([])
  {
    if StoredAll(es) == es {
      forall e | e in es
        ensures e.value != Some([])
      {
        var i :| 0 <= i < |es| && es[i] == e;
        assert StoredAll(es)[i] == Stored(e);
      }
    }
  }

  /** A cut inside the header recovers nothing; after exactly the magic bytes the version read fails. */
  lemma CutInHeader(crc: Checksum, legacy: Checksum, cut: nat)
    requires cut < |HEADER|
    ensures ReplayFile(crc, legacy, HEADER[..cut])
         == Replayed([], if cut == 0 then Finished else if cut < 4 then Stopped else Raised)
  {
    if cut == 4 {
      assert HEADER[..4] == MAGIC && HEADER[..4][..4] == MAGIC;
    }
  }

  lemma ReplayOne(crc: Checksum, legacy: Checksum, f: Bytes)
    ensures ReplayAll(crc, legacy, [f]) == ReplayFile(crc, legacy, f)
  {
    hide ReplayFile;
    assert [f][1..] == [];
  }

  lemma EntriesStay(crc: Checksum, legacy: Checksum, f: Bytes, g: Bytes)
    ensures ReplayFile(crc, legacy, f).entries <= ReplayFile(crc, legacy, f + g).entries
  {
    if |f| < 5 {
      TooShort(legacy, f);
    } else {
      hide Records;
      assert (f + g)[..4] == f[..4] && (f + g)[4] == f[4] && (f + g)[5..] == f[5..] + g;
      RecordsStay(legacy, f, g);
      RecordsStay(if f[4] == 0 then legacy else crc, f[5..], g);
    }
  }

  lemma TooShort(check: Checksum, f: Bytes)
    requires |f| < 8
    ensures Records(check, f).entries == []
  {
  }

  lemma {:induction false} ReplayConcat(crc: Checksum, legacy: Checksum, files: seq<Bytes>, more: seq<Bytes>)
    ensures ReplayAll(crc, legacy, files + more)
         == var r := ReplayAll(crc, legacy, files);
            if r.ending == Finished then ReplayAll(crc, legacy, more).After(r.entries) else r
  {
    hide ReplayFile;
    if files == [] {
      assert files + more == more;
    } else {
      assert (files + more)[0] == files[0] && (files + more)[1..] == files[1..] + more;
      ReplayConcat(crc, legacy, files[1..], more);
    }
  }

  /** What follows well-formed frames is read after them. */
  lemma {:induction false} FramesThen(check: Checksum, es: seq<Entry>, more: Bytes)
    requires AllFit(es)
    ensures Records(check, Frames(check, es) + more) == Records(check, more).After(StoredAll(es))
  {
    hide Frame, Records, Fits, Stored;
    WholeOfAll(check, es);
    CutFrames(check, es, |Frames(check, es)|);
    assert Frames(check, es)[..|Frames(check, es)|] == Frames(check, es) && es[..|es|] == es;
    RecordsConcat(check, Frames(check, es), more);
  }

  /** A record as the writer lays it out, with any sum and any body. */
  function Laid(sum: U32, body: Bytes): Bytes {
    Pack(|body|, 4) + Pack(sum, 4) + body
  }

  lemma LaidLayout(sum: U32, body: Bytes, tail: Bytes)
    requires |body| < 0x1_0000_0000
    ensures
      var f := Laid(sum, body) + tail;
      && |f| == 8 + |body| + |tail| && Unpack(f[..4]) == |body| && Unpack(f[4..8]) == sum
      && f[8..8 + |body|] == body
  {
    Limits();
    UnpackInvertsPack(|body|, 4);
    UnpackInvertsPack(sum, 4);
    hide Pack, Unpack, Limit;
    var f := Laid(sum, body) + tail;
    assert f[..4] == Pack(|body|, 4) && f[4..8] == Pack(sum, 4);
  }

  /** A record whose sum is not that of its body ends the replay there, whatever comes behind it. */
  lemma WrongSumStops(check: Checksum, es: seq<Entry>, sum: U32, body: Bytes, tail: Bytes)
    requires AllFit(es) && |body| < 0x1_0000_0000 && sum != check(body)
    ensures Records(check, Frames(check, es) + (Laid(sum, body) + tail)) == Replayed(StoredAll(es), Stopped)
  {
    hide Unpack, Laid, Frames, AllFit, StoredAll;
    LaidLayout(sum, body, tail);
    FramesThen(check, es, Laid(sum, body) + tail);
    assert ReadRecord(check, Laid(sum, body) + tail) == Over(Stopped);
    hide ReadRecord;
  }

  /** A record with the right sum over too few bytes for an entry makes the replay raise. */
  lemma ShortBodyRaises(check: Checksum, es: seq<Entry>, body: Bytes, tail: Bytes)
    requires AllFit(es) && |body| < 0x1_0000_0000 && (|body| < 29 || |body| < 33 + Unpack(body[25..29]))
    ensures Records(check, Frames(check, es) + (Laid(check(body), body) + tail)) == Replayed(StoredAll(es), Raised)
  {
    hide Unpack, Laid, Frames, AllFit, StoredAll;
    LaidLayout(check(body), body, tail);
    FramesThen(check, es, Laid(check(body), body) + tail);
    assert ReadRecord(check, Laid(check(body), body) + tail) == Over(Raised);
    hide ReadRecord;
  }

  /** Which bytes of a segment are records, and under which checksum they are read. */
  lemma SegmentKinds(crc: Checksum, legacy: Checksum, x: Bytes, version: Byte)
    ensures ReplayFile(crc, legacy, HEADER + x) == Records(crc, x)
    ensures ReplayFile(crc, legacy, MAGIC + [0] + x) == Records(legacy, x)
    ensures version > 1 ==> ReplayFile(crc, legacy, MAGIC + [version] + x) == Replayed([], Stopped)
    ensures !(MAGIC <= x) ==> ReplayFile(crc, legacy, x) == Records(legacy, x)
  {
    hide Records;
    var f, g, h := HEADER + x, MAGIC + [0] + x, MAGIC + [version] + x;
    assert f[..4] == MAGIC && f[4] == 1 && f[5..] == x;
    assert g[..4] == MAGIC && g[4] == 0 && g[5..] == x;
    assert h[..4] == MAGIC && h[4] == version;
    assert |x| >= 4 && x[..4] == MAGIC ==> MAGIC <= x;
  }

  /**
   In every kind of segment a record with a wrong checksum is dropped with all that follows it in the
   segment, and everything before it is kept.
   */
  lemma DamageStops(crc: Checksum, legacy: Checksum, es: seq<Entry>, sum: U32, e: Entry, tail: Bytes)
    requires AllFit(es) && Fits(e)
    ensures sum != crc(Body(e)) ==>
              ReplayFile(crc, legacy, HEADER + (Frames(crc, es) + (Laid(sum, Body(e)) + tail))) == Replayed(StoredAll(es), Stopped)
    ensures sum != legacy(Body(e)) ==>
              var x := Frames(legacy, es) + (Laid(sum, Body(e)) + tail);
              && ReplayFile(crc, legacy, MAGIC + [0] + x) == Replayed(StoredAll(es), Stopped)
              && (!(MAGIC <= x) ==> ReplayFile(crc, legacy, x) == Replayed(StoredAll(es), Stopped))
    ensures Laid(crc(Body(e)), Body(e)) == Frame(crc, e)
  {
    SegmentKinds(crc, legacy, Frames(crc, es) + (Laid(sum, Body(e)) + tail), 0);
    SegmentKinds(crc, legacy, Frames(legacy, es) + (Laid(sum, Body(e)) + tail), 0);
    hide Frames, StoredAll, AllFit, ReplayFile, Records, Body;
    if sum != crc(Body(e)) {
      WrongSumStops(crc, es, sum, Body(e), tail);
    }
    if sum != legacy(Body(e)) {
      WrongSumStops(legacy, es, sum, Body(e), tail);
    }
  }

  /** Undamaged segments of the older kinds: a version byte of 0, or no header at all. */
  lemma LegacySegmentReplays(crc: Checksum, legacy: Checksum, es: seq<Entry>)
    requires AllFit(es)
    ensures ReplayFile(crc, legacy, MAGIC + [0] + Frames(legacy, es)) == Replayed(StoredAll(es), Finished)
    ensures !(MAGIC <= Frames(legacy, es)) ==> ReplayFile(crc, legacy, Frames(legacy, es)) == Replayed(StoredAll(es), Finished)
  {
    SegmentKinds(crc, legacy, Frames(legacy, es), 0);
    FramesThen(legacy, es, []);
    NoBytes(legacy);
    hide Frames, Records, ReplayFile, StoredAll;
    assert Frames(legacy, es) + [] == Frames(legacy, es);
    assert StoredAll(es) + [] == StoredAll(es);
  }

  /** A damaged segment hides everything in the segments after it. */
  lemma DamageHidesLaterSegments(crc: Checksum, legacy: Checksum, files: seq<Bytes>, damaged: Bytes, later: seq<Bytes>)
    requires ReplayFile(crc, legacy, damaged).ending != Finished
    ensures ReplayAll(crc, legacy, files + [damaged] + later) == ReplayAll(crc, legacy, files + [damaged])
  {
    ReplayConcat(crc, legacy, files, [damaged]);
    ReplayConcat(crc, legacy, files + [damaged], later);
    hide ReplayFile;
    ReplayOne(crc, legacy, damaged);
  }

  /** Entries appended to a cleanly ending version-1 segment are replayed after what is there. */
  lemma AppendReplays(crc: Checksum, legacy: Checksum, f: Bytes, e: Entry)
    requires HEADER <= f && ReplayFile(crc, legacy, f).ending == Finished && Fits(e)
    ensures ReplayFile(crc, legacy, f + Frame(crc, e))
         == Replayed(ReplayFile(crc, legacy, f).entries + [Stored(e)], Finished)
  {
    hide Frame, Records, Fits;
    var g := f + Frame(crc, e);
    assert f[..4] == MAGIC && f[4] == 1 by {
      assert f[..5] == HEADER;
      assert f[..4] == f[..5][..4];
    }
    assert g[..4] == f[..4] && g[4] == f[4] && g[5..] == f[5..] + Frame(crc, e);
    RecordsConcat(crc, f[5..], Frame(crc, e));
    FrameReplays(crc, e);
  }
}
