/** _gcmPROFILE_QUERY: elapsed ticks of a 64-bit counter that wraps. */
module ProfileTick {

  const TWO64: int := 0x1_0000_0000_0000_0000

  type Tick = n: int | 0 <= n < 0x1_0000_0000_0000_0000

  /** The macro: `ticks` is the sample that gcoOS_GetProfileTick delivers, overwritten by the interval. */
  method ProfileQuery(start: Tick, sample: Tick) returns (ticks: Tick)
    ensures ticks == Interval(start, sample)
  {
    ticks := sample;
    if ticks > start {
      ticks := ticks - start;
    } else {
      var notZero: Tick := TWO64 - 1;
      ticks := (notZero - start + ticks + 1) % TWO64;
    }
  }

  function Interval(start: Tick, sample: Tick): Tick {
    (sample - start) % TWO64
  }

  /** The counter at a true time. */
  function Counter(time: nat): Tick {
    time % TWO64
  }

  lemma SameRemainder(x: int, y: int, k: int)
    requires x == y + k * TWO64
    ensures x % TWO64 == y % TWO64
  {
    var r := y % TWO64;
    var e := x / TWO64 - (y / TWO64 + k);
    assert x == (y / TWO64 + k) * TWO64 + r;
    assert e * TWO64 == r - x % TWO64;
  }

  /** The interval is the true elapsed time exactly when less than 2^64 ticks have passed. */
  lemma IntervalIsElapsedTime(t0: nat, t1: nat)
    requires t0 <= t1
    ensures Interval(Counter(t0), Counter(t1)) == (t1 - t0) % TWO64
    ensures Interval(Counter(t0), Counter(t1)) == t1 - t0 <==> t1 - t0 < TWO64
  {
    SameRemainder(t1 - t0, Counter(t1) - Counter(t0), t1 / TWO64 - t0 / TWO64);
  }

  /** The sum of the intervals between successive samples. */
  function SumIntervals(samples: seq<Tick>): int {
    if |samples| < 2 then 0
    else SumIntervals(samples[..|samples| - 1]) + Interval(samples[|samples| - 2], samples[|samples| - 1])
  }

  /** Intervals telescope: modulo 2^64 they add up to the interval from the first sample to the last,
      however often the counter wrapped or stood still. */
  lemma {:induction false} IntervalsTelescope(samples: seq<Tick>)
    requires |samples| >= 1
    ensures SumIntervals(samples) % TWO64 == Interval(samples[0], samples[|samples| - 1])
  {
    var n := |samples| - 1;
    if n == 0 {
      assert SumIntervals(samples) == 0;
    } else {
      var init := samples[..n];
      IntervalsTelescope(init);
      var sum := SumIntervals(init);
      var first: int, prev: int, last: int := samples[0], samples[n - 1], samples[n];
      var d := last - prev;
      var whole := prev - first;
      SameRemainder(sum + d % TWO64, whole + d, (sum / TWO64) - (whole / TWO64) - (d / TWO64));
    }
  }
}
