/** Optional values, as the source's `Optional[...]` results. */
module Options {
  datatype Option<+T> = None | Some(value: T)
}

/**
 Timestamps of the hybrid logical clock and the intervals of the TrueTime facade.
 Physical readings are nanoseconds; only their order matters here. The uncertainty
 field of the source takes no part in comparisons and is not kept.
 */
module Clock {
  datatype Timestamp = Timestamp(physical: nat, logical: nat) {
    predicate Less(that: Timestamp) {
      physical < that.physical || (physical == that.physical && logical < that.logical)
    }

    predicate AtMost(that: Timestamp) {
      Less(that) || this == that
    }
  }

  /** What `TrueTime.now()` returns; it is trustworthy when it contains real time. */
  datatype Interval = Interval(earliest: int, latest: int) {
    predicate Contains(instant: int) {
      earliest <= instant <= latest
    }

    /** `TrueTime.after(ts)` for the physical part of ts. */
    predicate After(physical: int) {
      earliest > physical
    }
  }

  /** The deterministic clock used for tests: commit wait on it is a real loop that must end. */
  class MockTrueTime {
    var nowNs: int
    const epsNs: nat
    var sleeps: seq<int>

    constructor (startNs: int, epsNs: nat)
      ensures nowNs == startNs && this.epsNs == epsNs && sleeps == []
    {
      nowNs, this.epsNs, sleeps := startNs, epsNs, [];
    }

    function Now(): Interval
      reads this
    {
      Interval(nowNs - epsNs, nowNs + epsNs)
    }

    method Sleep(ns: int)
      requires ns > 0
      modifies this
      ensures nowNs == old(nowNs) + ns && sleeps == old(sleeps) + [ns]
    {
      sleeps := sleeps + [ns];
      nowNs := nowNs + ns;
    }

    /** Ends with TT.after(s), after at most two sleeps, and never oversleeps by more than 0.1 ms. */
    method CommitWait(s: Timestamp)
      modifies this
      ensures Now().After(s.physical)
      ensures old(Now().After(s.physical)) ==> nowNs == old(nowNs) && sleeps == old(sleeps)
      ensures !old(Now().After(s.physical)) ==> Now().earliest <= s.physical + 100_000
      ensures |sleeps| <= |old(sleeps)| + 2
    {
      while !Now().After(s.physical)
        invariant !old(Now().After(s.physical)) ==> Now().earliest <= s.physical + 100_000
        invariant old(Now().After(s.physical)) ==> nowNs == old(nowNs) && sleeps == old(sleeps)
        invariant |sleeps| <= |old(sleeps)| + 2
        invariant |sleeps| >= |old(sleeps)| + 1 ==> Now().earliest >= s.physical
        invariant |sleeps| == |old(sleeps)| + 2 ==> Now().After(s.physical)
        decreases s.physical - Now().earliest
      {
        var gapNs := s.physical - Now().earliest;
        Sleep(if gapNs > 100_000 then gapNs else 100_000);
      }
    }
  }
}
