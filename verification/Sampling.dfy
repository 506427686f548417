/** Adaptive sampling of new sockets (nfm-controller/src/events/event_provider_ebpf.rs). */
module Sampling {
  import opened Arith

  const MAX_SAMPLING_INTERVAL: nat := 1000

  function Increase(interval: nat): nat {
    if interval > MAX_SAMPLING_INTERVAL then interval
    else if interval > 1 then Min(MAX_SAMPLING_INTERVAL, SatMul(interval, 3, U32) / 2)
    else 2
  }

  function DivCeil(a: nat, b: nat): nat
    requires b > 0
  {
    (a + b - 1) / b
  }

  function Decrease(interval: nat): nat {
    if interval > 1 then interval - DivCeil(interval, 7) else interval
  }

  /** One cycle: more sampling after insertion errors, less after a clean one. */
  function Adapt(interval: nat, errors: bool): nat {
    if errors then Increase(interval) else Decrease(interval)
  }

  /** The agent is built with a zero interval that is increased once. */
  function Interval(cycles: seq<bool>): nat {
    if cycles == [] then Increase(0) else Adapt(Interval(cycles[..|cycles| - 1]), cycles[|cycles| - 1])
  }

  function Repeat(interval: nat, errors: bool, n: nat): nat
    decreases n
  {
    if n == 0 then interval else Repeat(Adapt(interval, errors), errors, n - 1)
  }

  lemma AdaptMonotone(a: nat, b: nat, errors: bool)
    requires 1 <= a <= b <= MAX_SAMPLING_INTERVAL
    ensures 1 <= Adapt(a, errors) <= Adapt(b, errors) <= MAX_SAMPLING_INTERVAL
  {
  }

  lemma {:induction false} RepeatMonotone(a: nat, b: nat, errors: bool, n: nat)
    requires 1 <= a <= b <= MAX_SAMPLING_INTERVAL
    ensures 1 <= Repeat(a, errors, n) <= Repeat(b, errors, n) <= MAX_SAMPLING_INTERVAL
    decreases n
  {
    if n > 0 {
      AdaptMonotone(a, b, errors);
      RepeatMonotone(Adapt(a, errors), Adapt(b, errors), errors, n - 1);
    }
  }

  /** Over every sequence of error and clean cycles the interval stays usable as a modulus. */
  lemma {:induction false} IntervalInRange(cycles: seq<bool>)
    ensures 1 <= Interval(cycles) <= 1000
  {
    if cycles != [] {
      IntervalInRange(cycles[..|cycles| - 1]);
      var i := Interval(cycles[..|cycles| - 1]);
      AdaptMonotone(i, i, cycles[|cycles| - 1]);
    }
  }

  /** One step at a time along a given sequence of intervals. */
  lemma {:induction false} FollowsLadder(ladder: seq<nat>, errors: bool, n: nat, i: nat)
    requires i + n < |ladder|
    requires forall j :: i <= j < i + n ==> ladder[j + 1] == Adapt(ladder[j], errors)
    ensures Repeat(ladder[i], errors, n) == ladder[i + n]
    decreases n
  {
    if n > 0 {
      FollowsLadder(ladder, errors, n - 1, i + 1);
    }
  }

  const UP: seq<nat> := [1, 2, 3, 4, 6, 9, 13, 19, 28, 42, 63, 94, 141, 211, 316, 474, 711, 1000]

  const DOWN: seq<nat> :=
    [1000, 857, 734, 629, 539, 462, 396, 339, 290, 248, 212, 181, 155, 132, 113, 96, 82, 70, 60,
     51, 43, 36, 30, 25, 21, 18, 15, 12, 10, 8, 6, 5, 4, 3, 2, 1]

  lemma ClimbFromOne()
    ensures Repeat(1, true, 17) == MAX_SAMPLING_INTERVAL && Repeat(1, true, 16) < MAX_SAMPLING_INTERVAL
  {
    FollowsLadder(UP, true, 17, 0);
    FollowsLadder(UP, true, 16, 0);
  }

  lemma DescendFromMax()
    ensures Repeat(MAX_SAMPLING_INTERVAL, false, 35) == 1 && Repeat(MAX_SAMPLING_INTERVAL, false, 34) > 1
  {
    FollowsLadder(DOWN, false, 35, 0);
    FollowsLadder(DOWN, false, 34, 0);
  }

  /** From any reachable interval, 17 error cycles in a row give the maximum and 35 clean cycles in a
      row give 1; neither number can be smaller. */
  lemma SamplingConverges(cycles: seq<bool>)
    ensures Repeat(Interval(cycles), true, 17) == MAX_SAMPLING_INTERVAL
    ensures Repeat(Interval(cycles), false, 35) == 1
    ensures Repeat(1, true, 16) < MAX_SAMPLING_INTERVAL && Repeat(MAX_SAMPLING_INTERVAL, false, 34) > 1
  {
    IntervalInRange(cycles);
    RepeatMonotone(1, Interval(cycles), true, 17);
    RepeatMonotone(Interval(cycles), MAX_SAMPLING_INTERVAL, false, 35);
    ClimbFromOne();
    DescendFromMax();
  }
}
