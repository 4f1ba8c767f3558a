/** Stepping and trimming the 1588 clock. */
module PtpClock {
  import opened Wrappers

  const BILLION := 1_000_000_000
  const UINT32 := 0x1_0000_0000

  // ---------- One-time step ----------

  /** Division of C: truncation toward zero. */
  function TruncDiv(n: int, d: int): int
    requires d > 0
  {
    if n >= 0 then n / d else -(-n / d)
  }

  function TruncMod(n: int, d: int): int
    requires d > 0
  {
    n - d * TruncDiv(n, d)
  }

  predicate IsTime(sec: int, ns: int) {
    0 <= sec < UINT32 && 0 <= ns < BILLION
  }

  /** `lan9250_ptp_clock_adjust` on the time read: the time loaded. */
  function Adjusted(sec: int, ns: int, increment: int): (int, int) {
    var total := ns + increment;
    var sec' := (sec + TruncDiv(total, BILLION)) % UINT32;
    var ns' := TruncMod(total, BILLION);
    if ns' < 0 then ((sec' - 1) % UINT32, ns' + BILLION) else (sec', ns')
  }

  function Nanoseconds(sec: int, ns: int): int {
    sec * BILLION + ns
  }

  /** The step loads a proper time that differs from the old one by exactly the increment, modulo the clock's range. */
  lemma AdjustIsExact(sec: int, ns: int, increment: int)
    requires IsTime(sec, ns)
    ensures var (sec', ns') := Adjusted(sec, ns, increment);
            && IsTime(sec', ns')
            && Nanoseconds(sec', ns') == (Nanoseconds(sec, ns) + increment) % (UINT32 * BILLION)
  {
    var (sec', ns') := Adjusted(sec, ns, increment);
    var total := ns + increment;
    var q := FloorSeconds(total);
    assert ns' == total - q * BILLION;
    assert sec' == (sec + q) % UINT32 by { ModStep(sec, TruncDiv(total, BILLION), q); }
    ModSplit(sec + q, ns');
    assert (sec + q) * BILLION + ns' == Nanoseconds(sec, ns) + increment;
  }

  /** Whole seconds of a count of nanoseconds, rounded down. */
  function FloorSeconds(total: int): int {
    total / BILLION
  }

  lemma ModStep(sec: int, t: int, q: int)
    requires q == t || q == t - 1
    ensures (sec + q) % UINT32 == if q == t then (sec + t) % UINT32 else ((sec + t) % UINT32 - 1) % UINT32
  {
  }

  lemma ModSplit(s: int, ns: int)
    requires 0 <= ns < BILLION
    ensures (s * BILLION + ns) % (UINT32 * BILLION) == s % UINT32 * BILLION + ns
  {
    var r, k := s % UINT32, s / UINT32;
    assert s * BILLION + ns == k * (UINT32 * BILLION) + (r * BILLION + ns);
  }

  lemma TimeIsUnique(s1: int, n1: int, s2: int, n2: int)
    requires IsTime(s1, n1) && IsTime(s2, n2) && Nanoseconds(s1, n1) == Nanoseconds(s2, n2)
    ensures s1 == s2 && n1 == n2
  {
  }

  lemma ModAdd(y: int, b: int)
    ensures (y % (UINT32 * BILLION) + b) % (UINT32 * BILLION) == (y + b) % (UINT32 * BILLION)
  {
    var k := y / (UINT32 * BILLION);
    assert y + b == (y % (UINT32 * BILLION) + b) + k * (UINT32 * BILLION);
  }

  /** Two steps add up to one. */
  lemma AdjustmentsCompose(sec: int, ns: int, a: int, b: int)
    requires IsTime(sec, ns)
    ensures var (s1, n1) := Adjusted(sec, ns, a); Adjusted(s1, n1, b) == Adjusted(sec, ns, a + b)
  {
    var (s1, n1) := Adjusted(sec, ns, a);
    var (s2, n2) := Adjusted(s1, n1, b);
    var (s3, n3) := Adjusted(sec, ns, a + b);
    AdjustIsExact(sec, ns, a);
    AdjustIsExact(s1, n1, b);
    AdjustIsExact(sec, ns, a + b);
    ModAdd(Nanoseconds(sec, ns) + a, b);
    TimeIsUnique(s2, n2, s3, n3);
  }

  lemma AdjustByNothing(sec: int, ns: int)
    requires IsTime(sec, ns)
    ensures Adjusted(sec, ns, 0) == (sec, ns)
  {
    assert TruncDiv(ns, BILLION) == 0;
  }

  /** A step is undone by its opposite. */
  lemma AdjustmentUndone(sec: int, ns: int, a: int)
    requires IsTime(sec, ns)
    ensures var (s1, n1) := Adjusted(sec, ns, a); Adjusted(s1, n1, -a) == (sec, ns)
  {
    AdjustmentsCompose(sec, ns, a, -a);
    AdjustByNothing(sec, ns);
  }

  // ---------- Rate trim ----------

  const VALUE_MASK := 0x3FFF_FFFF

  function Abs(x: real): real { if x < 0.0 then -x else x }

  /** `llround` of a non-negative number. */
  function Round(x: real): int {
    (x + 0.5).Floor
  }

  datatype Trim = Trim(faster: bool, value: nat)

  function Magnitude(ratio: real): int {
    var ppb := (ratio - 1.0) * 1000000000.0;
    Round(Abs(ppb) * 42.94967296)
  }

  /** `lan9250_ptp_clock_rate_adjust`; None is -ERANGE. */
  function RateAdjust(ratio: real): Option<Trim> {
    var magnitude := Magnitude(ratio);
    if magnitude > VALUE_MASK then None else Some(Trim(ratio >= 1.0, if magnitude >= 0 then magnitude else 0))
  }

  /** The register drives an accumulator of 2^32 units, once every 10 ns: each overflow makes that tick one
      nanosecond longer or shorter. The result is the elapsed time and the accumulator. */
  function Ticks(t: Trim, start: nat, n: nat): (int, nat) {
    if n == 0 then (0, start) else
      var (elapsed, acc) := Ticks(t, start, n - 1);
      var sum := acc + t.value;
      if sum >= UINT32 then (elapsed + (if t.faster then 11 else 9), sum - UINT32) else (elapsed + 10, sum)
  }

  /** Nanoseconds gained or lost in `n` ticks. */
  function Gain(t: Trim, start: nat, n: nat): int {
    var elapsed := Ticks(t, start, n).0;
    if t.faster then elapsed - 10 * n else 10 * n - elapsed
  }

  /** The gain is the number of times the accumulator has overflowed. */
  lemma {:induction false} GainIsOverflows(t: Trim, start: nat, n: nat)
    requires start < UINT32 && t.value <= VALUE_MASK
    ensures Ticks(t, start, n).1 < UINT32
    ensures Gain(t, start, n) * UINT32 + Ticks(t, start, n).1 == start + n * t.value
  {
    if n > 0 {
      GainIsOverflows(t, start, n - 1);
      assert n * t.value == (n - 1) * t.value + t.value;
    }
  }

  /** The ratio's offset in units of the register: 2^-32 ns per tick of 10 ns. */
  function Offset(ratio: real): real {
    Abs(ratio - 1.0) * 10.0 * UINT32 as real
  }

  lemma MagnitudeIsRounded(ratio: real)
    ensures Magnitude(ratio) >= 0
    ensures Offset(ratio) - 0.5 < Magnitude(ratio) as real <= Offset(ratio) + 0.5
  {
  }

  /** A ratio is refused exactly when its offset rounds to more than 30 bits. */
  lemma RefusedIff(ratio: real)
    ensures RateAdjust(ratio).None? <==> Offset(ratio) >= (VALUE_MASK as real) + 0.5
  {
    MagnitudeIsRounded(ratio);
  }

  /** `n` times `x`, tick by tick. */
  function Drift(x: real, n: nat): real {
    if n == 0 then 0.0 else Drift(x, n - 1) + x
  }

  lemma {:induction false} DriftIsProduct(x: real, n: nat)
    ensures Drift(x, n) == n as real * x
  {
    if n > 0 {
      DriftIsProduct(x, n - 1);
      assert n as real * x == (n - 1) as real * x + x;
    }
  }

  lemma {:induction false} GainBounds(t: Trim, x: real, start: nat, n: nat)
    requires start < UINT32 && t.value <= VALUE_MASK && x - 0.5 < t.value as real <= x + 0.5
    ensures Ticks(t, start, n).1 < UINT32
    ensures var k := (Gain(t, start, n) * UINT32 + Ticks(t, start, n).1 - start) as real;
            Drift(x, n) - n as real / 2.0 <= k <= Drift(x, n) + n as real / 2.0
  {
    if n > 0 {
      GainBounds(t, x, start, n - 1);
    }
  }

  lemma {:induction false} DriftOfOffset(ratio: real, n: nat)
    ensures Drift(Offset(ratio), n) == Drift(10.0 * Abs(ratio - 1.0), n) * UINT32 as real
  {
    if n > 0 {
      DriftOfOffset(ratio, n - 1);
    }
  }

  lemma {:induction false} IdealElapsed(ratio: real, n: nat)
    ensures Drift(10.0 * ratio, n)
         == 10.0 * n as real
            + (if ratio >= 1.0 then Drift(10.0 * Abs(ratio - 1.0), n) else -Drift(10.0 * Abs(ratio - 1.0), n))
  {
    if n > 0 {
      IdealElapsed(ratio, n - 1);
    }
  }

  lemma ElapsedIsGain(t: Trim, start: nat, n: nat)
    ensures Ticks(t, start, n).0 == 10 * n + (if t.faster then Gain(t, start, n) else -Gain(t, start, n))
  {
  }

  lemma ErrorBound(elapsed: int, n: nat, gain: int, acc: int, start: nat, faster: bool, drift: real, ideal: real)
    requires 0 <= acc < UINT32 && start < UINT32
    requires elapsed == 10 * n + (if faster then gain else -gain)
    requires ideal == 10.0 * n as real + (if faster then drift else -drift)
    requires var k := (gain * UINT32 + acc - start) as real;
             drift * UINT32 as real - n as real / 2.0 <= k <= drift * UINT32 as real + n as real / 2.0
    ensures Abs(elapsed as real - ideal) < 1.0 + n as real / 8589934592.0
  {
  }

  lemma ErrorAgainstDrift(ratio: real, start: nat, n: nat)
    requires start < UINT32 && RateAdjust(ratio).Some?
    ensures var elapsed := Ticks(RateAdjust(ratio).value, start, n).0 as real;
            Abs(elapsed - Drift(10.0 * ratio, n)) < 1.0 + n as real / 8589934592.0
  {
    var t := RateAdjust(ratio).value;
    MagnitudeIsRounded(ratio);
    GainBounds(t, Offset(ratio), start, n);
    DriftOfOffset(ratio, n);
    IdealElapsed(ratio, n);
    ElapsedIsGain(t, start, n);
    ErrorBound(Ticks(t, start, n).0, n, Gain(t, start, n), Ticks(t, start, n).1, start, t.faster,
               Drift(10.0 * Abs(ratio - 1.0), n), Drift(10.0 * ratio, n));
  }

  lemma SameBound(e: real, d: real, p: real, b: real)
    requires Abs(e - d) < b && d == p
    ensures Abs(e - p) < b
  {
  }

  /** `elapsed` is within 1 + n/2^33 ns of `n` times `tick` ns. */
  predicate Accurate(elapsed: real, tick: real, n: nat) {
    Abs(elapsed - n as real * tick) < 1.0 + n as real / 8589934592.0
  }

  lemma ErrorAgainstProduct(e: real, x: real, n: nat)
    requires Abs(e - Drift(x, n)) < 1.0 + n as real / 8589934592.0
    ensures Accurate(e, x, n)
  {
    DriftIsProduct(x, n);
    SameBound(e, Drift(x, n), n as real * x, 1.0 + n as real / 8589934592.0);
  }

  // ---------- The device ----------

  const DIR := 0x8000_0000

  /** The CLOCK_RATE_ADJ register. */
  function Encode(t: Trim): nat {
    (if t.faster then DIR else 0) + t.value
  }

  function Decode(register: nat): Trim {
    Trim(register >= DIR, register % DIR)
  }

  lemma RegisterRoundTrip(ratio: real)
    requires RateAdjust(ratio).Some?
    ensures Decode(Encode(RateAdjust(ratio).value)) == RateAdjust(ratio).value
    ensures Encode(RateAdjust(ratio).value) < UINT32
  {
    var t := RateAdjust(ratio).value;
    assert t.value <= VALUE_MASK < DIR;
  }

  /** Bit 31 of the register says whether an overflow makes a tick longer, bits 29:0 are added every tick. */
  function Elapsed(register: nat, start: nat, n: nat): (int, nat) {
    if n == 0 then (0, start) else
      var (ns, acc) := Elapsed(register, start, n - 1);
      var sum := acc + register % 0x4000_0000;
      if sum < 0x1_0000_0000 then (ns + 10, sum)
      else if register / 0x8000_0000 % 2 == 1 then (ns + 11, sum - 0x1_0000_0000)
      else (ns + 9, sum - 0x1_0000_0000)
  }

  lemma EncodedBits(t: Trim)
    requires t.value <= VALUE_MASK
    ensures Encode(t) % 0x4000_0000 == t.value && (Encode(t) / 0x8000_0000 % 2 == 1 <==> t.faster)
  {
  }

  lemma {:induction false} ElapsedIsTicks(t: Trim, start: nat, n: nat)
    requires t.value <= VALUE_MASK
    ensures Elapsed(Encode(t), start, n) == Ticks(t, start, n)
  {
    EncodedBits(t);
    if n > 0 {
      ElapsedIsTicks(t, start, n - 1);
    }
  }

  /** Long-run accuracy: with the register an accepted ratio is encoded in, after `n` ticks of 10 ns the clock is
      within 1 + n/2^33 ns of `n` times `10*ratio` ns. */
  lemma RateTrimError(ratio: real, start: nat, n: nat)
    requires start < UINT32 && RateAdjust(ratio).Some?
    ensures Accurate(Elapsed(Encode(RateAdjust(ratio).value), start, n).0 as real, 10.0 * ratio, n)
  {
    var t := RateAdjust(ratio).value;
    ElapsedIsTicks(t, start, n);
    ErrorAgainstDrift(ratio, start, n);
    ErrorAgainstProduct(Ticks(t, start, n).0 as real, 10.0 * ratio, n);
  }

  class Clock {
    var sec: int
    var ns: int
    var rateAdj: nat

    constructor ()
      ensures sec == ns == 0 && rateAdj == 0
    {
      sec, ns, rateAdj := 0, 0, 0;
    }

    /** Reads the clock, adjusts the time in software and loads it. */
    method Adjust(increment: int)
      modifies `sec, `ns
      ensures (sec, ns) == Adjusted(old(sec), old(ns), increment)
    {
      var total := ns + increment;
      var s := (sec + TruncDiv(total, BILLION)) % UINT32;
      total := TruncMod(total, BILLION);
      if total < 0 {
        total := total + BILLION;
        s := (s - 1) % UINT32;
      }
      sec, ns := s, total;
    }

    /** False is -ERANGE: the register keeps its value. */
    method AdjustRate(ratio: real) returns (ok: bool)
      modifies `rateAdj
      ensures ok == RateAdjust(ratio).Some?
      ensures rateAdj == if ok then Encode(RateAdjust(ratio).value) else old(rateAdj)
    {
      MagnitudeIsRounded(ratio);
      var magnitude := Magnitude(ratio);
      if magnitude > VALUE_MASK {
        return false;
      }
      rateAdj := magnitude;
      if (ratio - 1.0) * 1000000000.0 >= 0.0 {
        rateAdj := rateAdj + DIR;
      }
      return true;
    }
  }
}
