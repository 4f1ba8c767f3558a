/** The word pushed for a step, and how the pulse period it makes relates to the speed asked for. */
module StepTiming {
  import opened Planner

  const F_SYS := 150000000.0

  /** `hz_to_half_period`. */
  function HalfPeriod(hz: real): nat
    requires hz > 0.0
  {
    var half := F_SYS / (2.0 * hz) - 3.0;
    if half > 0.0 then half.Floor else 0
  }

  /** Half the longest even number of cycles, up to `2*limit`, not longer than a period at squared speed `w`. */
  function HalfCycles(w: real, limit: nat): (n: nat)
    ensures n <= limit && Fits(n, w)
    ensures n < limit ==> !Fits(n + 1, w)
  {
    if limit == 0 || Fits(limit, w) then limit else HalfCycles(w, limit - 1)
  }

  /** `2n` cycles last no longer than one period of the speed whose square is `w`. */
  predicate Fits(n: nat, w: real) {
    (2 * n) as real * (2 * n) as real * w <= F_SYS * F_SYS
  }

  const MAX_HALF_CYCLES := 1500000 // half a period at MIN_SPEED_HZ

  /** The word pushed for a step at squared speed `w`. */
  function StepWord(w: real): nat {
    var n := HalfCycles(w, MAX_HALF_CYCLES);
    if n > 3 then n - 3 else 0
  }

  lemma FitsIff(n: nat, hz: real)
    requires hz > 0.0
    ensures Fits(n, hz * hz) <==> (2 * n) as real * hz <= F_SYS
  {
    var t := (2 * n) as real * hz;
    assert (2 * n) as real * (2 * n) as real * (hz * hz) == t * t;
    if t <= F_SYS {
      SquareMonotone(t, F_SYS);
    } else {
      assert t * t > t * F_SYS > F_SYS * F_SYS;
    }
  }

  lemma HalfPeriodFloor(hz: real, n: nat)
    requires hz > 0.0
    requires (2 * n) as real * hz <= F_SYS < (2 * (n + 1)) as real * hz
    ensures HalfPeriod(hz) == if n > 3 then n - 3 else 0
  {
    var c := F_SYS / (2.0 * hz);
    assert c * (2.0 * hz) == F_SYS;
    assert n as real * (2.0 * hz) <= c * (2.0 * hz) < (n + 1) as real * (2.0 * hz);
    assert n as real <= c < (n + 1) as real;
    assert c.Floor == n;
  }

  /** Working from the square of the speed gives the word the program computes from the speed itself. */
  lemma StepWordIsHalfPeriod(hz: real)
    requires MIN_SPEED_HZ <= hz
    ensures StepWord(hz * hz) == HalfPeriod(hz)
  {
    SquareMonotone(MIN_SPEED_HZ, hz);
    var n := HalfCycles(hz * hz, MAX_HALF_CYCLES);
    FitsIff(n, hz);
    FitsIff(n + 1, hz);
    HalfPeriodFloor(hz, n);
  }

  lemma {:induction false} FitsMonotone(w: real, i: nat, j: nat)
    requires w > 0.0 && i <= j && Fits(j, w)
    ensures Fits(i, w)
  {
    var x, y := (2 * i) as real, (2 * j) as real;
    SquareMonotone(x, y);
    assert x * x * w <= y * y * w;
  }

  /** Every word pushed for a speed the planner can produce is in range. */
  lemma StepWordRange(w: real)
    requires VMIN2 <= w <= ABS_MAX_SPEED * ABS_MAX_SPEED
    ensures 465 <= StepWord(w) <= 1499997
  {
    var n := HalfCycles(w, MAX_HALF_CYCLES);
    if n < 468 {
      var c := (2 * 468) as real * (2 * 468) as real;
      assert c * w <= c * (ABS_MAX_SPEED * ABS_MAX_SPEED);
      FitsMonotone(w, n + 1, 468);
    }
  }

  lemma PeriodBounds(hz: real, n: nat)
    requires hz > 0.0
    requires (2 * n) as real * hz <= F_SYS < (2 * (n + 1)) as real * hz
    ensures F_SYS / hz - 2.0 < (2 * n) as real <= F_SYS / hz
  {
    var p := F_SYS / hz;
    assert p * hz == F_SYS;
    assert (2 * n) as real <= p < (2 * (n + 1)) as real;
  }

  /** A pulse of word `h` takes `2h+6` cycles: never more than a period of the requested speed,
      and less than two cycles short of one. */
  lemma PeriodTracksSpeed(hz: real)
    requires MIN_SPEED_HZ <= hz <= ABS_MAX_SPEED
    ensures 150000000.0 / hz - 2.0 < (2 * StepWord(hz * hz) + 6) as real <= 150000000.0 / hz
  {
    SquareMonotone(MIN_SPEED_HZ, hz);
    SquareMonotone(hz, ABS_MAX_SPEED);
    StepWordRange(hz * hz);
    var n := HalfCycles(hz * hz, MAX_HALF_CYCLES);
    FitsIff(n, hz);
    FitsIff(n + 1, hz);
    PeriodBounds(hz, n);
  }
}
