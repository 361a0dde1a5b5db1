/**
 The write-ahead log over a directory of segments: appending with rotation, replay of all segments in
 sequence order, checkpoints, and reopening. The directory maps sequence numbers to file contents.
 */
module WriteAheadLogs {
  import opened Options
  import opened WalFraming

  type Directory = map<nat, Bytes>

  /** The files numbered below n, in ascending order. */
  function Ordered(dir: Directory, n: nat): seq<Bytes> {
    if n == 0 then [] else Ordered(dir, n - 1) + if n - 1 in dir then [dir[n - 1]] else []
  }

  lemma {:induction false} OrderedSame(a: Directory, b: Directory, n: nat)
    requires forall i | 0 <= i < n :: (i in a <==> i in b) && (i in a ==> a[i] == b[i])
    ensures Ordered(a, n) == Ordered(b, n)
  {
    if n > 0 {
      OrderedSame(a, b, n - 1);
    }
  }

  /** Segments come in the order of their numbers: those below n stand before number n and those above. */
  lemma {:induction false} OrderedAt(dir: Directory, n: nat, m: nat)
    requires n < m && n in dir
    ensures Ordered(dir, n) + [dir[n]] <= Ordered(dir, m)
  {
    if n < m - 1 {
      OrderedAt(dir, n, m - 1);
    }
  }

  /** Nothing above m: the order may be cut there. */
  lemma {:induction false} OrderedStops(dir: Directory, m: nat, n: nat)
    requires m <= n && forall i | m <= i < n :: i !in dir
    ensures Ordered(dir, n) == Ordered(dir, m)
  {
    if m < n {
      OrderedStops(dir, m, n - 1);
    }
  }

  ghost predicate AllClean(crc: Checksum, legacy: Checksum, dir: Directory) {
    forall i | i in dir :: ReplayFile(crc, legacy, dir[i]).ending == Finished
  }

  ghost predicate IsNewest(dir: Directory, i: nat) {
    i in dir && forall j | j in dir :: j <= i
  }

  /** Every segment ends cleanly: replaying any number of them does. */
  lemma {:induction false} CleanReplay(crc: Checksum, legacy: Checksum, dir: Directory, n: nat)
    requires AllClean(crc, legacy, dir)
    ensures ReplayAll(crc, legacy, Ordered(dir, n)).ending == Finished
  {
    hide ReplayFile;
    if n > 0 {
      CleanReplay(crc, legacy, dir, n - 1);
      if n - 1 in dir {
        ReplayConcat(crc, legacy, Ordered(dir, n - 1), [dir[n - 1]]);
        ReplayOne(crc, legacy, dir[n - 1]);
      } else {
        assert Ordered(dir, n) == Ordered(dir, n - 1);
      }
    }
  }

  /** An empty segment of the current version behind clean ones adds nothing to a replay. */
  lemma FreshSegment(crc: Checksum, legacy: Checksum, dir: Directory, n: nat)
    requires n !in dir && AllClean(crc, legacy, dir) && ReplayFile(crc, legacy, HEADER) == Replayed([], Finished)
    ensures AllClean(crc, legacy, dir[n := HEADER])
    ensures ReplayAll(crc, legacy, Ordered(dir[n := HEADER], n + 1)) == ReplayAll(crc, legacy, Ordered(dir, n + 1))
  {
    var files := dir[n := HEADER];
    hide ReplayFile, ReplayAll;
    OrderedSame(files, dir, n);
    CleanReplay(crc, legacy, dir, n);
    ReplayConcat(crc, legacy, Ordered(dir, n), [HEADER]);
    ReplayOne(crc, legacy, HEADER);
    assert Ordered(dir, n + 1) == Ordered(dir, n);
    assert Ordered(files, n + 1) == Ordered(files, n) + [HEADER];
    var r := ReplayAll(crc, legacy, Ordered(dir, n));
    assert r.entries + [] == r.entries;
  }

  class WriteAheadLog {
    const crc: Checksum
    const legacy: Checksum
    const maxSize: nat
    var files: Directory
    var currentSeq: nat
    var currentSize: nat

    /** The log is open on its newest segment. */
    ghost predicate Valid()
      reads this
    {
      && currentSeq in files && currentSize == |files[currentSeq]|
      && forall i | i in files :: i <= currentSeq
    }

    /** Every segment ends cleanly, and new entries go to one of the current version. */
    ghost predicate Clean()
      requires Valid()
      reads this
    {
      HEADER <= files[currentSeq] && AllClean(crc, legacy, files)
    }

    /** What a replay now would recover. */
    ghost function Contents(): Replayed
      reads this
    {
      ReplayAll(crc, legacy, Ordered(files, currentSeq + 1))
    }

    /** _find_latest_wal and _open_wal on whatever the directory holds. */
    constructor (crc: Checksum, legacy: Checksum, maxSize: nat, dir: Directory)
      ensures this.crc == crc && this.legacy == legacy && this.maxSize == maxSize
      ensures Valid() && files == if currentSeq in dir then dir else dir[currentSeq := HEADER]
      ensures forall i: nat | IsNewest(dir, i) ::
                currentSeq == if MAGIC <= dir[i] then i else i + 1
      ensures dir == map[] ==> currentSeq == 0
      ensures AllClean(crc, legacy, dir) && (currentSeq in dir ==> HEADER <= dir[currentSeq]) ==>
                Clean() && Contents() == ReplayAll(crc, legacy, Ordered(dir, currentSeq + 1))
    {
      hide ReplayFile, ReplayAll, Ordered, AllClean;
      this.crc, this.legacy, this.maxSize := crc, legacy, maxSize;
      var latest := Latest(dir);
      if latest in dir && MAGIC <= dir[latest] {
        files, currentSeq, currentSize := dir, latest, |dir[latest]|;
      } else if latest in dir {
        // a headerless segment is never appended to
        files, currentSeq, currentSize := dir[latest + 1 := HEADER], latest + 1, |HEADER|;
      } else {
        files, currentSeq, currentSize := dir[latest := HEADER], latest, |HEADER|;
      }
      new;
      NewSegment(crc, legacy);
      if currentSeq !in dir && AllClean(crc, legacy, dir) {
        FreshSegment(crc, legacy, dir, currentSeq);
      }
    }

    /** The highest sequence number present, 0 when there is none. */
    static method Latest(dir: Directory) returns (latest: nat)
      ensures forall i | i in dir :: i <= latest
      ensures if dir == map[] then latest == 0 else latest in dir
    {
      latest := 0;
      var todo := dir.Keys;
      var seen := false;
      while todo != {}
        invariant todo <= dir.Keys
        invariant forall i | i in dir && i !in todo :: i <= latest
        invariant if seen then latest in dir else latest == 0 && todo == dir.Keys
        decreases |todo|
      {
        var i :| i in todo;
        latest := if !seen || i > latest then i else latest;
        seen := true;
        todo := todo - {i};
      }
    }

    static lemma NewSegment(crc: Checksum, legacy: Checksum)
      ensures ReplayFile(crc, legacy, HEADER) == Replayed([], Finished)
    {
      assert HEADER[..4] == MAGIC && HEADER[5..] == [];
    }

    /** _rotate: close the current segment and start the next one. */
    method Rotate()
      requires Valid()
      modifies this
      ensures Valid() && Contents() == old(Contents())
      ensures currentSeq == old(currentSeq) + 1 && files == old(files)[currentSeq := HEADER]
      ensures old(Clean()) ==> Clean()
    {
      ghost var was := files;
      currentSeq := currentSeq + 1;
      files := files[currentSeq := HEADER];
      currentSize := |HEADER|;
      NewSegment(crc, legacy);
      hide ReplayFile;
      OrderedSame(files, was, currentSeq);
      ReplayConcat(crc, legacy, Ordered(files, currentSeq), [HEADER]);
      ReplayOne(crc, legacy, HEADER);
    }

    /**
     append: an entry that does not fit its fields raises before anything is written. Nothing readable
     is ever lost; the new entry follows all others when every segment ends cleanly, which a torn record
     in the log may prevent.
     */
    method Append(e: Entry) returns (ok: bool)
      requires Valid()
      modifies this
      ensures Valid() && ok == Fits(e)
      ensures !ok ==> files == old(files) && currentSeq == old(currentSeq)
      ensures ok ==>
                if old(currentSize) + |Frame(crc, e)| > maxSize
                then currentSeq == old(currentSeq) + 1 && files == old(files)[currentSeq := HEADER + Frame(crc, e)]
                else currentSeq == old(currentSeq) && files == old(files)[currentSeq := old(files[currentSeq]) + Frame(crc, e)]
      ensures old(Contents()).entries <= Contents().entries
      ensures old(Clean()) ==> Clean()
      ensures old(Clean()) && ok ==> Contents() == old(Contents()).(entries := old(Contents()).entries + [Stored(e)])
    {
      hide Fits, Frame, ReplayFile, ReplayAll, Ordered;
      match Serialize(crc, e)
      case None =>
        ok := false;
      case Some(bytes) =>
        if currentSize + |bytes| > maxSize {
          Rotate();
        }
        Extend(e, bytes);
        ok := true;
    }

    method Extend(e: Entry, bytes: Bytes)
      requires Valid() && Fits(e) && bytes == Frame(crc, e)
      modifies this
      ensures Valid()
      ensures currentSeq == old(currentSeq) && files == old(files)[currentSeq := old(files[currentSeq]) + bytes]
      ensures old(Contents()).entries <= Contents().entries
      ensures old(Clean()) ==> Clean() && Contents() == old(Contents()).(entries := old(Contents()).entries + [Stored(e)])
    {
      hide Frame, ReplayFile, Fits, ReplayAll, Ordered;
      ghost var was, f := files, files[currentSeq];
      if Clean() {
        CleanReplay(crc, legacy, was, currentSeq);
        AppendReplays(crc, legacy, f, e);
      }
      files := files[currentSeq := files[currentSeq] + bytes];
      currentSize := currentSize + |bytes|;
      LastSegment(was, files, currentSeq, f, bytes);
    }

    /** A replay before and after bytes were added to the last segment. */
    lemma LastSegment(was: Directory, now: Directory, n: nat, f: Bytes, bytes: Bytes)
      requires n in was && was[n] == f && now == was[n := f + bytes]
      ensures
        var r := ReplayAll(crc, legacy, Ordered(was, n));
        && ReplayAll(crc, legacy, Ordered(was, n + 1)) == (if r.ending == Finished then ReplayFile(crc, legacy, f).After(r.entries) else r)
        && ReplayAll(crc, legacy, Ordered(now, n + 1)) == (if r.ending == Finished then ReplayFile(crc, legacy, f + bytes).After(r.entries) else r)
      ensures ReplayAll(crc, legacy, Ordered(was, n + 1)).entries <= ReplayAll(crc, legacy, Ordered(now, n + 1)).entries
    {
      EntriesStay(crc, legacy, f, bytes);
      hide ReplayFile;
      OrderedSame(now, was, n);
      ReplayConcat(crc, legacy, Ordered(was, n), [f]);
      ReplayConcat(crc, legacy, Ordered(was, n), [f + bytes]);
      ReplayOne(crc, legacy, f);
      ReplayOne(crc, legacy, f + bytes);
      hide ReplayAll;
    }

    /** checkpoint: rotate, then delete every older segment. What was damaged goes with them. */
    method Checkpoint()
      requires Valid()
      modifies this
      ensures Valid() && Clean() && Contents() == Replayed([], Finished)
      ensures currentSeq == old(currentSeq) + 1 && files == map[currentSeq := HEADER]
    {
      Rotate();
      RemoveOlder();
      NewSegment(crc, legacy);
      ReplayOne(crc, legacy, HEADER);
      OrderedStops(files, 0, currentSeq);
      hide ReplayFile, ReplayAll;
      assert Ordered(files, currentSeq + 1) == [HEADER];
    }

    method RemoveOlder()
      requires currentSeq in files && forall i | i in files :: i <= currentSeq
      modifies this`files
      ensures files == map[currentSeq := old(files[currentSeq])]
    {
      for i := 0 to currentSeq
        invariant currentSeq in files && files[currentSeq] == old(files[currentSeq])
        invariant forall j | j in files :: i <= j <= currentSeq
      {
        files := files - {i};
      }
    }

    /** replay: all segments in sequence order, stopping at the first damaged record. */
    method Replay() returns (r: Replayed)
      requires forall i | i in files :: i <= currentSeq
      ensures r == Contents()
    {
      r := Replayed([], Finished);
      hide ReplayFile;
      for i := 0 to currentSeq + 1
        invariant r == ReplayAll(crc, legacy, Ordered(files, i)) && r.ending == Finished
      {
        if i in files {
          var one := ReplaySegment(files[i]);
          ReplayConcat(crc, legacy, Ordered(files, i), [files[i]]);
          ReplayOne(crc, legacy, files[i]);
          r := one.After(r.entries);
          if one.ending != Finished {
            StopsEarly(i + 1);
            return;
          }
        } else {
          assert Ordered(files, i + 1) == Ordered(files, i);
        }
      }
    }

    lemma {:induction false} StopsEarly(n: nat)
      requires n <= currentSeq + 1 && ReplayAll(crc, legacy, Ordered(files, n)).ending != Finished
      ensures Contents() == ReplayAll(crc, legacy, Ordered(files, n))
      decreases currentSeq + 1 - n
    {
      hide ReplayFile, ReplayAll;
      if n <= currentSeq {
        assert Ordered(files, n + 1) == Ordered(files, n) + if n in files then [files[n]] else [];
        hide Ordered;
        if n in files {
          ReplayConcat(crc, legacy, Ordered(files, n), [files[n]]);
        } else {
          assert Ordered(files, n) + [] == Ordered(files, n);
        }
        StopsEarly(n + 1);
      }
    }

    /** Header, then the records after it. */
    method ReplaySegment(f: Bytes) returns (r: Replayed)
      ensures r == ReplayFile(crc, legacy, f)
    {
      if MAGIC <= f {
        assert f[..4] == MAGIC;
        if |f| == 4 {
          return Replayed([], Raised);
        }
        if f[4] > 1 {
          return Replayed([], Stopped);
        }
        r := ReplayRecords(f, |HEADER|, if f[4] == 0 then legacy else crc);
      } else {
        assert |f| < 4 || f[..4] != MAGIC;
        assert f[0..] == f;
        r := ReplayRecords(f, 0, legacy);
      }
    }

    /** The record loop over one segment, with the file position as its cursor. */
    method ReplayRecords(f: Bytes, start: nat, check: Checksum) returns (r: Replayed)
      requires start <= |f|
      ensures r == Records(check, f[start..])
    {
      var pos := start;
      var found: seq<Entry> := [];
      hide Unpack, Deserialize, ReadRecord, Records;
      while pos < |f|
        invariant start <= pos <= |f|
        invariant Records(check, f[start..]) == Records(check, f[pos..]).After(found)
      {
        var round := ReadAt(f, pos, check);
        OneRound(f, pos, check, found);
        match round {
          case Over(ending) =>
            return Replayed(found, ending);
          case Read(e, next) =>
            found := found + [e];
            pos := pos + next;
        }
      }
      OverOnlyWhenEmpty(check, f[pos..]);
      OneRound(f, pos, check, found);
      return Replayed(found, Finished);
    }

    /** What one round does to the records still to be read. */
    static lemma OneRound(f: Bytes, pos: nat, check: Checksum, found: seq<Entry>)
      requires pos <= |f|
      ensures
        Records(check, f[pos..]).After(found) ==
        match ReadRecord(check, f[pos..])
        case Over(ending) => Replayed(found, ending)
        case Read(e, next) => Records(check, f[pos + next..]).After(found + [e])
    {
      hide ReadRecord;
      match ReadRecord(check, f[pos..])
      case Over(_) =>
      case Read(e, next) =>
        assert f[pos..][next..] == f[pos + next..];
    }

    /** The reads of one round; they may run into the end of the file. */
    method ReadAt(f: Bytes, pos: nat, check: Checksum) returns (round: Round)
      requires pos < |f|
      ensures round == ReadRecord(check, f[pos..])
    {
      hide Unpack, Deserialize;
      var lengthBytes := Slice(f, pos, pos + 4);
      if |lengthBytes| < 4 {
        return Over(Stopped);
      }
      var total := Unpack(lengthBytes);
      var checksumBytes := Slice(f, pos + 4, pos + 8);
      var data := Slice(f, pos + 8, pos + 8 + total);
      if |checksumBytes| < 4 || |data| < total {
        assert |f| >= pos + 8 ==> f[pos..][..4] == lengthBytes;
        return Over(Stopped);
      }
      RecordAt(f, pos, total);
      if Unpack(checksumBytes) != check(data) {
        return Over(Stopped);
      }
      match Deserialize(data) {
        case None => return Over(Raised);
        case Some(e) => return Read(e, 8 + total);
      }
    }
  }

  /** The three reads of one record, as slices of the rest of the file. */
  lemma RecordAt(f: Bytes, pos: nat, total: nat)
    requires pos + 8 + total <= |f|
    ensures
      var rest := f[pos..];
      && rest[..4] == Slice(f, pos, pos + 4) && rest[4..8] == Slice(f, pos + 4, pos + 8)
      && rest[8..8 + total] == Slice(f, pos + 8, pos + 8 + total) && rest[8 + total..] == f[pos + 8 + total..]
  {
  }
}
