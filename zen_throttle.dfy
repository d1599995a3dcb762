/** The arithmetic of a system's throttle in src/zen.ts: an accumulator
    `elapsedInterval` that each update advances by `dt`, and an `interval`
    (0, or `1 / frequency`) that it must strictly exceed before the system
    executes, after which it is reset to 0. */
module ZenThrottle {
  import opened Wrappers

  /** `if (frequency) this.interval = 1 / frequency`: a missing or zero
      frequency (falsy in JavaScript) leaves the interval at 0. */
  function IntervalOf(frequency: Option<real>): (interval: real)
    ensures frequency.Some? && frequency.value != 0.0 ==> interval * frequency.value == 1.0
    ensures frequency.None? || frequency.value == 0.0 ==> interval == 0.0
  {
    if frequency.Some? && frequency.value != 0.0 then 1.0 / frequency.value else 0.0
  }

  /** A step is due when the accumulator plus `dt` strictly exceeds the
      interval. */
  predicate Due(elapsed: real, interval: real, dt: real) {
    elapsed + dt > interval
  }

  /** The accumulator after an update that did not throw. */
  function Advance(elapsed: real, interval: real, dt: real): real {
    if Due(elapsed, interval, dt) then 0.0 else elapsed + dt
  }

  /** How often a system ran over a run of ticks, and its accumulator after. */
  datatype Throttled = Throttled(runs: nat, elapsed: real)

  function Ticks(elapsed: real, interval: real, dts: seq<real>): Throttled
    decreases dts
  {
    if dts == [] then Throttled(0, elapsed)
    else
      var rest := Ticks(Advance(elapsed, interval, dts[0]), interval, dts[1..]);
      if Due(elapsed, interval, dts[0]) then Throttled(rest.runs + 1, rest.elapsed) else rest
  }

  function Sum(dts: seq<real>): real {
    if dts == [] then 0.0 else dts[0] + Sum(dts[1..])
  }

  /** An update never leaves the accumulator above the interval, and with a
      non-negative step from a non-negative accumulator it stays
      non-negative. */
  lemma AdvanceBounded(elapsed: real, interval: real, dt: real)
    ensures Advance(elapsed, interval, dt) <= interval || Advance(elapsed, interval, dt) == 0.0
    ensures 0.0 <= elapsed && 0.0 <= dt ==> 0.0 <= Advance(elapsed, interval, dt)
  {
  }

  /** At most one execution per interval of accumulated time: each run
      consumes strictly more than `interval` of the time fed in, and what is
      left over sits in the accumulator. */
  lemma {:induction false} ThrottleBound(elapsed: real, interval: real, dts: seq<real>)
    ensures (Ticks(elapsed, interval, dts).runs as real) * interval + Ticks(elapsed, interval, dts).elapsed
            <= elapsed + Sum(dts)
    decreases dts
  {
    if dts != [] {
      var next := Advance(elapsed, interval, dts[0]);
      var rest := Ticks(next, interval, dts[1..]);
      ThrottleBound(next, interval, dts[1..]);
      if Due(elapsed, interval, dts[0]) {
        assert ((rest.runs + 1) as real) * interval == (rest.runs as real) * interval + interval;
      }
    }
  }

  /** With non-negative steps from a non-negative accumulator, the
      accumulator never goes negative. */
  lemma {:induction false} TicksNonneg(elapsed: real, interval: real, dts: seq<real>)
    requires 0.0 <= elapsed
    requires forall i :: 0 <= i < |dts| ==> 0.0 <= dts[i]
    ensures 0.0 <= Ticks(elapsed, interval, dts).elapsed
    decreases dts
  {
    if dts != [] {
      AdvanceBounded(elapsed, interval, dts[0]);
      TicksNonneg(Advance(elapsed, interval, dts[0]), interval, dts[1..]);
    }
  }

  /** A system created with an empty accumulator and fed non-negative steps
      executes at most once per interval of total elapsed time. */
  lemma RunsWithinElapsedTime(interval: real, dts: seq<real>)
    requires forall i :: 0 <= i < |dts| ==> 0.0 <= dts[i]
    ensures (Ticks(0.0, interval, dts).runs as real) * interval <= Sum(dts)
  {
    ThrottleBound(0.0, interval, dts);
    TicksNonneg(0.0, interval, dts);
  }

  /** Frequency 2 Hz with four ticks of 0.3 s executes exactly twice, at the
      second and the fourth tick, and ends with an empty accumulator. */
  lemma FrequencyTwoExample()
    ensures Ticks(0.0, IntervalOf(Some(2.0)), [0.3, 0.3, 0.3, 0.3]) == Throttled(2, 0.0)
    ensures Ticks(0.0, IntervalOf(Some(2.0)), [0.3, 0.3, 0.3]) == Throttled(1, 0.3)
  {
  }

  /** Without a frequency a system runs on every tick when every step is
      positive, and the accumulator ends at 0. */
  lemma {:induction false} UnthrottledRunsEveryPositiveTick(dts: seq<real>)
    requires forall i :: 0 <= i < |dts| ==> 0.0 < dts[i]
    ensures Ticks(0.0, IntervalOf(None), dts) == Throttled(|dts|, 0.0)
    decreases dts
  {
    if dts != [] {
      UnthrottledRunsEveryPositiveTick(dts[1..]);
    }
  }
}
