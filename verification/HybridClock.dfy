/**
 The hybrid logical clock behind all timestamps, and the TrueTime intervals derived from it. Physical
 readings come from outside and may step backwards.
 */
module HybridClock {
  import opened Options
  import opened Clock

  /** (last_physical, logical). */
  datatype State = State(last: nat, logical: nat) {
    function Stamp(): Timestamp {
      Timestamp(last, logical)
    }
  }

  function NowLogical(s: State, physical: nat): nat {
    if physical <= s.last then s.logical + 1 else 0
  }

  function UpdateLogical(s: State, physical: nat, msg: Timestamp): nat {
    var max := if physical < msg.physical then msg.physical else physical;
    if max == s.last == msg.physical then (if s.logical < msg.logical then msg.logical else s.logical) + 1
    else if max == s.last then s.logical + 1
    else if max == msg.physical then msg.logical + 1
    else 0
  }

  /** Above a state that is not ahead a reading is the least later timestamp, otherwise its counter still counts on. */
  ghost predicate IsNext(s: State, physical: nat, ts: Timestamp) {
    && ts.physical == physical
    && if physical < s.last then ts.logical == s.logical + 1
       else forall u: Timestamp | u.physical == physical && s.Stamp().Less(u) :: ts.AtMost(u)
  }

  lemma ReadingIsNext(s: State, physical: nat)
    ensures IsNext(s, physical, Timestamp(physical, NowLogical(s, physical)))
  {
  }

  class HybridLogicalClock {
    var last: nat
    var logical: nat

    constructor ()
      ensures View() == State(0, 0)
    {
      last, logical := 0, 0;
    }

    function View(): State
      reads this
    {
      State(last, logical)
    }

    /** now(), at a physical reading. The reading itself is returned, also when it lags behind. */
    method Now(physical: nat) returns (ts: Timestamp)
      modifies this
      ensures ts == Timestamp(physical, NowLogical(old(View()), physical))
      ensures View() == State(if physical <= old(last) then old(last) else physical, ts.logical)
      ensures old(View()).Stamp().Less(ts) <==> physical >= old(last)
      ensures IsNext(old(View()), physical, ts)
    {
      if physical <= last {
        logical := logical + 1;
      } else {
        logical := 0;
        last := physical;
      }
      ts := Timestamp(physical, logical);
    }

    /** update(): the result is later than the message, and than the clock's own state unless that lies in the future. */
    method Update(physical: nat, msg: Timestamp) returns (ts: Timestamp)
      modifies this
      ensures ts == View().Stamp() && ts.logical == UpdateLogical(old(View()), physical, msg)
      ensures msg.Less(ts) && ts.physical == (if physical < msg.physical then msg.physical else physical)
      ensures forall u: Timestamp | u.physical == ts.physical && msg.Less(u) && (old(last) <= u.physical ==> old(View()).Stamp().Less(u)) ::
                ts.AtMost(u)
      ensures old(View()).Stamp().Less(ts) <==> physical >= old(last) || msg.physical >= old(last)
    {
      var max := if physical < msg.physical then msg.physical else physical;
      if max == last == msg.physical {
        logical := (if logical < msg.logical then msg.logical else logical) + 1;
      } else if max == last {
        logical := logical + 1;
      } else if max == msg.physical {
        logical := msg.logical + 1;
      } else {
        logical := 0;
      }
      last := max;
      ts := Timestamp(max, logical);
    }
  }

  /** Successive readings without a backward step of the physical clock strictly increase, and only those. */
  lemma ReadingsIncreaseIff(s: State, first: nat, second: nat)
    ensures
      var after := State(if first <= s.last then s.last else first, NowLogical(s, first));
      Timestamp(first, NowLogical(s, first)).Less(Timestamp(second, NowLogical(after, second))) <==> first <= second
  {
  }

  /** TrueTime.now(): refused (None) when the uncertainty exceeds the ceiling. */
  function TrueTimeNow(physical: nat, uncertainty: nat, floor: nat, ceiling: nat): Option<Interval> {
    var eps := if uncertainty < floor then floor else uncertainty;
    if eps > ceiling then None else Some(Interval(physical - eps, physical + eps))
  }

  /** An interval contains every instant within the uncertainty, and even within the floor; it is refused just above the ceiling. */
  lemma IntervalContains(physical: nat, uncertainty: nat, floor: nat, ceiling: nat, instant: int)
    ensures
      var interval := TrueTimeNow(physical, uncertainty, floor, ceiling);
      && (interval.None? <==> uncertainty > ceiling || floor > ceiling)
      && (interval.Some? ==>
            (interval.value.Contains(instant) <==>
               (physical - uncertainty <= instant <= physical + uncertainty) || (physical - floor <= instant <= physical + floor)))
  {
  }
}
