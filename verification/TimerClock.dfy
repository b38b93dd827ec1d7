/** One timer of voyager/core/timerlist.cc and a clock that may step back: when the timer is due,
    and when too early. */
module TimerClock {
  /** What became of a timer since it was set: the clock then, the list's latest reading of the
      clock then, the deadline asked for, and the readings of RunTimerProcs from then on. */
  datatype Birth = Birth(clock: nat, last: nat, asked: nat, readings: seq<nat>)

  function Max(a: nat, b: nat): nat { if a < b then b else a }

  /** A deadline after the clock has stepped back by diff. */
  function Shifted(value: nat, diff: nat): nat { if value > diff then value - diff else 0 }

  function Reading(start: nat, rs: seq<nat>): nat { if rs == [] then start else rs[|rs| - 1] }

  /** What RunTimerProcs has made of a deadline. */
  function Value(last: nat, asked: nat, rs: seq<nat>): nat {
    if rs == [] then asked
    else
      var n := |rs| - 1;
      var before, value := Reading(last, rs[..n]), Value(last, asked, rs[..n]);
      if rs[n] < before then Shifted(value, before - rs[n]) else value
  }

  /** The clock without its steps back: start, and all the advances from reading to reading. */
  function Unwound(start: nat, rs: seq<nat>): (u: nat)
    ensures u >= start && u >= Reading(start, rs)
  {
    if rs == [] then start
    else
      var n := |rs| - 1;
      var before := Reading(start, rs[..n]);
      Unwound(start, rs[..n]) + if rs[n] > before then rs[n] - before else 0
  }

  predicate Due(b: Birth) { Value(b.last, b.asked, b.readings) <= Reading(b.last, b.readings) }

  /** The time that has passed since the timer was set, as far as the readings show. */
  function Elapsed(b: Birth): nat { Unwound(b.clock, b.readings) - b.clock }

  /** How far the clock has stepped back since the timer was set. */
  function SteppedBack(b: Birth): nat { Unwound(b.clock, b.readings) - Reading(b.clock, b.readings) }

  /** By how much the timer is ahead of its time. */
  function Lead(b: Birth): int
    requires b.readings != []
  {
    Max(b.last, b.readings[0]) - Max(b.clock, b.readings[0])
  }

  /** Due although less time has passed than there was to wait. */
  predicate TooEarly(b: Birth) { Due(b) && Elapsed(b) < b.asked - b.clock }

  lemma {:induction false} ValueIsUnwound(last: nat, asked: nat, rs: seq<nat>)
    ensures Value(last, asked, rs) == Shifted(asked, Unwound(last, rs) - Reading(last, rs))
    decreases |rs|
  {
    if rs != [] { ValueIsUnwound(last, asked, rs[..|rs| - 1]); }
  }

  /** From the first reading on, two unwound clocks keep their distance. */
  lemma {:induction false} UnwoundApart(last: nat, clock: nat, rs: seq<nat>)
    requires rs != []
    ensures Unwound(last, rs) - Unwound(clock, rs) == Max(last, rs[0]) - Max(clock, rs[0])
    decreases |rs|
  {
    var n := |rs| - 1;
    if n == 0 {
      assert rs[..0] == [];
    } else {
      UnwoundApart(last, clock, rs[..n]);
      assert Reading(last, rs[..n]) == Reading(clock, rs[..n]);
    }
  }

  /** A timer is due exactly when the time to wait has passed, less its lead. The lead is positive
      if and only if the clock was behind the latest reading when the timer was set and was still
      behind it at the next; it is then what was left of that gap. It is negative, and the timer
      late, if and only if the clock was ahead of the latest reading when the timer was set and had
      stepped back at the next. */
  lemma DueExactlyWhen(b: Birth)
    requires b.readings != []
    ensures Due(b) <==> Elapsed(b) + Lead(b) >= b.asked - b.clock
    ensures Due(b) && Reading(b.last, b.readings) < b.asked <==>
      var now := Reading(b.last, b.readings); now < b.asked <= now + SteppedBack(b) + Lead(b)
    ensures Lead(b) > 0 <==> b.clock < b.last && b.readings[0] < b.last
    ensures Lead(b) > 0 ==> Lead(b) == b.last - Max(b.clock, b.readings[0])
    ensures Lead(b) < 0 <==> b.last < b.clock && b.readings[0] < b.clock
  {
    ValueIsUnwound(b.last, b.asked, b.readings);
    UnwoundApart(b.last, b.clock, b.readings);
    hide Unwound, Value;
  }

  /** Some deadline and some later readings make a timer fire too early if and only if the clock
      was behind the latest reading when the timer was set and was still behind it at the next. */
  lemma EarlyExactlyWhen(clock: nat, last: nat, first: nat)
    ensures (exists asked: nat, more: seq<nat> :: TooEarly(Birth(clock, last, asked, [first] + more))) <==>
      clock < last && first < last
  {
    forall asked: nat, more: seq<nat> | TooEarly(Birth(clock, last, asked, [first] + more)) ensures clock < last && first < last {
      DueExactlyWhen(Birth(clock, last, asked, [first] + more));
    }
    if clock < last && first < last {
      var b := Birth(clock, last, last, [first] + []);
      assert b.readings[..0] == [];
      assert Unwound(clock, b.readings) == Max(clock, first);
      assert TooEarly(b);
    }
  }

  predicate Rising(start: nat, rs: seq<nat>) {
    rs == [] || (Rising(start, rs[..|rs| - 1]) && Reading(start, rs[..|rs| - 1]) <= rs[|rs| - 1])
  }

  /** While the clock does not step back, too early means before the deadline that was asked for. */
  lemma {:induction false} EarlyOnARisingClock(b: Birth)
    requires Rising(b.clock, b.readings) && b.readings != []
    ensures TooEarly(b) <==> Due(b) && Reading(b.last, b.readings) < b.asked
  {
    UnwoundOnARisingClock(b.clock, b.readings);
  }

  lemma {:induction false} UnwoundOnARisingClock(start: nat, rs: seq<nat>)
    requires Rising(start, rs)
    ensures Unwound(start, rs) == Reading(start, rs)
    decreases |rs|
  {
    if rs != [] { UnwoundOnARisingClock(start, rs[..|rs| - 1]); }
  }
}
