/** The motion planner of core1: squared-speed kinematics, one step at a time.

    The program only ever squares the speed it carries, so the model carries the
    square `w` of the speed and the square root disappears. Arithmetic is exact. */
module Planner {
  import opened Wrappers

  const MIN_SPEED_HZ := 50.0
  const VMIN2 := 2500.0 // MIN_SPEED_HZ squared
  const ABS_MAX_SPEED := 160000.0
  const ABS_MAX_ACCEL := 2666666.0
  const DEF_MAX_SPEED := 100000.0
  const DEF_ACCEL := 1000000.0
  const DEF_DECEL := 1000000.0
  const INT32_MAX := 0x7FFF_FFFF
  const INT32_MIN := -0x8000_0000

  datatype Settings = Settings(maxSpeed: real, accel: real, decel: real) {
    predicate InRange() {
      && MIN_SPEED_HZ <= maxSpeed <= ABS_MAX_SPEED
      && 0.0 < accel <= ABS_MAX_ACCEL
      && 0.0 < decel <= ABS_MAX_ACCEL
    }

    function Vmax2(): real {
      maxSpeed * maxSpeed
    }
  }

  datatype Motion = Motion(moving: bool, settings: Settings, speed2: real, remaining: int, stopReq: bool)

  const PowerOn := Motion(false, Settings(DEF_MAX_SPEED, DEF_ACCEL, DEF_DECEL), 0.0, 0, false)

  /** The float-to-int32 conversion of this core: truncation that saturates. */
  function CastInt32(x: real): int {
    var t := if x >= 0.0 then x.Floor else -((-x).Floor);
    if t > INT32_MAX then INT32_MAX else if t < INT32_MIN then INT32_MIN else t
  }

  predicate BrakeDue(s: Settings, w: real, r: int)
    requires s.decel > 0.0
  {
    r <= CastInt32((w - VMIN2) / (2.0 * s.decel) + 1.0)
  }

  function NextSpeed2(s: Settings, w: real, r: int): real
    requires s.decel > 0.0
  {
    if BrakeDue(s, w, r) then
      var w' := w - 2.0 * s.decel;
      if w' > VMIN2 then w' else VMIN2
    else if w < s.Vmax2() then
      var w' := w + 2.0 * s.accel;
      if w' < s.Vmax2() then w' else s.Vmax2()
    else
      s.Vmax2()
  }

  /** `feed_step`: the motion afterwards and, when a step was pushed, its squared speed. */
  function FeedStep(m: Motion): (Motion, Option<real>)
    requires m.settings.decel > 0.0
  {
    if !m.moving then (m, None)
    else if m.stopReq || m.remaining <= 0 then (m.(moving := false, speed2 := 0.0, stopReq := false), None)
    else
      var w := NextSpeed2(m.settings, m.speed2, m.remaining);
      (m.(speed2 := w, remaining := m.remaining - 1), Some(w))
  }

  /** Two's-complement negation: INT32_MIN is its own negative. */
  function Negate32(n: int): int {
    if n == INT32_MIN then INT32_MIN else -n
  }

  function MotionStart(m: Motion, steps: int): Motion {
    if steps == 0 then m
    else
      m.(remaining := if steps > 0 then steps else Negate32(steps), speed2 := VMIN2, stopReq := false, moving := true)
  }

  function ClampSpeed(v: real): real {
    if v < MIN_SPEED_HZ then MIN_SPEED_HZ else if v > ABS_MAX_SPEED then ABS_MAX_SPEED else v
  }

  function ClampRate(v: real, default: real): real {
    if v <= 0.0 || v > ABS_MAX_ACCEL then default else v
  }

  /** What a command does to the motion; a status query does nothing. */
  datatype Command = SetSpeed(v: real) | SetAccel(v: real) | SetDecel(v: real) | Move(steps: int) | Stop | Query

  function Apply(m: Motion, c: Command): Motion {
    match c
    case SetSpeed(v) => m.(settings := m.settings.(maxSpeed := ClampSpeed(v)))
    case SetAccel(v) => m.(settings := m.settings.(accel := ClampRate(v, DEF_ACCEL)))
    case SetDecel(v) => m.(settings := m.settings.(decel := ClampRate(v, DEF_DECEL)))
    case Move(steps) => if m.moving then m else MotionStart(m, steps)
    case Stop => if m.moving then m.(stopReq := true) else m
    case Query => m
  }

  /** What every command and every step keeps. */
  predicate Valid(m: Motion) {
    && m.settings.InRange()
    && (m.moving ==> VMIN2 <= m.speed2 <= ABS_MAX_SPEED * ABS_MAX_SPEED)
    && 0 <= m.remaining <= INT32_MAX
    && (!m.moving ==> !m.stopReq)
  }

  lemma SquareMonotone(a: real, b: real)
    requires 0.0 <= a <= b
    ensures a * a <= b * b
  {
    assert a * a <= a * b <= b * b;
  }

  lemma VmaxBounds(s: Settings)
    requires s.InRange()
    ensures VMIN2 <= s.Vmax2() <= ABS_MAX_SPEED * ABS_MAX_SPEED
  {
    SquareMonotone(MIN_SPEED_HZ, s.maxSpeed);
    SquareMonotone(s.maxSpeed, ABS_MAX_SPEED);
  }

  /** Every command keeps the record valid, but for a move of INT32_MIN steps: its negative is no int32. */
  lemma CommandKeepsValid(m: Motion, c: Command)
    requires Valid(m)
    requires c.Move? ==> INT32_MIN <= c.steps <= INT32_MAX
    ensures Valid(Apply(m, c)) <==> m.moving || c != Move(INT32_MIN)
  {
  }

  predicate IsSpeed(v: real) { MIN_SPEED_HZ <= v <= ABS_MAX_SPEED }
  predicate IsRate(v: real) { 0.0 < v <= ABS_MAX_ACCEL }

  function Distance(a: real, b: real): real { if a < b then b - a else a - b }

  /** A speed is taken as it is if it is in range, and as the nearest one that is otherwise; nothing else changes. */
  lemma SpeedIsTaken(m: Motion, v: real)
    ensures var m' := Apply(m, SetSpeed(v)); var taken := m'.settings.maxSpeed;
            && m' == m.(settings := Settings(taken, m.settings.accel, m.settings.decel))
            && IsSpeed(taken) && (IsSpeed(v) ==> taken == v)
            && forall x :: IsSpeed(x) ==> Distance(taken, v) <= Distance(x, v)
  {
  }

  /** A rate is taken as it is if it is in range, and as the default otherwise; nothing else changes. */
  lemma RatesAreTaken(m: Motion, v: real)
    ensures Apply(m, SetAccel(v)) ==
            m.(settings := m.settings.(accel := if 0.0 < v <= 2666666.0 then v else 1000000.0))
    ensures Apply(m, SetDecel(v)) ==
            m.(settings := m.settings.(decel := if 0.0 < v <= 2666666.0 then v else 1000000.0))
  {
  }

  /** If the negation wraps, that move is accepted and ends without a step. */
  lemma MinimumMoveMakesNoStep(m: Motion)
    requires Valid(m) && !m.moving
    ensures var r := Apply(m, Move(INT32_MIN));
            r.moving && FeedStep(r).1.None? && !FeedStep(r).0.moving && FeedStep(r).0.settings == m.settings
  {
    assert Apply(m, Move(INT32_MIN)).remaining < 0;
  }

  /** Every pushed speed is between MIN_SPEED_HZ and ABS_MAX_SPEED, whatever was commanded in between. */
  lemma FeedKeepsValid(m: Motion)
    requires Valid(m)
    ensures Valid(FeedStep(m).0)
    ensures FeedStep(m).1.Some? ==> VMIN2 <= FeedStep(m).1.value <= ABS_MAX_SPEED * ABS_MAX_SPEED
  {
    VmaxBounds(m.settings);
  }

  /** The squared-speed change `2*c*k` of `k` steps at rate `c`. */
  function Ramp(c: real, k: nat): real {
    if k == 0 then 0.0 else Ramp(c, k - 1) + 2.0 * c
  }

  lemma {:induction false} RampIsProduct(c: real, k: nat)
    ensures Ramp(c, k) == 2.0 * c * k as real
  {
    if k > 0 {
      RampIsProduct(c, k - 1);
      assert 2.0 * c * k as real == 2.0 * c * (k - 1) as real + 2.0 * c;
    }
  }

  lemma {:induction false} RampMonotone(c: real, i: nat, j: nat)
    requires c >= 0.0 && i <= j
    ensures 0.0 <= Ramp(c, i) <= Ramp(c, j)
    decreases j
  {
    if i < j {
      RampMonotone(c, i, j - 1);
    } else if i > 0 {
      RampMonotone(c, i - 1, j - 1);
    }
  }

  lemma DivideBound(x: real, d: real, q: real)
    requires d > 0.0
    ensures q <= x / d <==> q * d <= x
  {
    var b := x / d;
    assert b * d == x;
    if q <= b {
      assert (b - q) * d >= 0.0;
    } else {
      assert (q - b) * d > 0.0;
    }
  }

  lemma CastInt32Floor(b: real, r: int)
    requires b >= 0.0 && 1 <= r <= INT32_MAX
    ensures r <= CastInt32(b + 1.0) <==> (r - 1) as real <= b
  {
  }

  /** The saturating conversion decides the brake test as exact arithmetic would. */
  lemma BrakeDueExact(s: Settings, w: real, r: int)
    requires s.decel > 0.0 && w >= VMIN2 && 1 <= r <= INT32_MAX
    ensures BrakeDue(s, w, r) <==> VMIN2 + Ramp(s.decel, r - 1) <= w
  {
    var d2, q := 2.0 * s.decel, (r - 1) as real;
    DivideBound(w - VMIN2, d2, q);
    DivideBound(w - VMIN2, d2, 0.0);
    CastInt32Floor((w - VMIN2) / d2, r);
    RampIsProduct(s.decel, r - 1);
    assert Ramp(s.decel, r - 1) == q * d2;
  }

  function Max(a: real, b: real): real { if a < b then b else a }
  function Min(a: real, b: real): real { if a < b then a else b }

  lemma NextIsLimited(s: Settings, w: real, r: int)
    requires s.accel > 0.0 && s.decel > 0.0
    ensures NextSpeed2(s, w, r) == if BrakeDue(s, w, r) then Max(w - 2.0 * s.decel, VMIN2)
                                   else Min(w + 2.0 * s.accel, s.Vmax2())
  {
  }

  /** What a step pushes, for every motion under way, one faster than a maximum just lowered included: on or above the
      ramp to MIN_SPEED_HZ it brakes, and below it it takes an acceleration step, cut off at the maximum. */
  lemma StepPushes(m: Motion)
    requires Valid(m) && m.moving && !m.stopReq && m.remaining > 0
    ensures var s, w := m.settings, m.speed2;
            FeedStep(m).1 == Some(if VMIN2 + Ramp(s.decel, m.remaining - 1) <= w then Max(w - 2.0 * s.decel, VMIN2)
                                  else Min(w + 2.0 * s.accel, s.Vmax2()))
    ensures FeedStep(m).0 == m.(speed2 := FeedStep(m).1.value, remaining := m.remaining - 1)
  {
    BrakeDueExact(m.settings, m.speed2, m.remaining);
    NextIsLimited(m.settings, m.speed2, m.remaining);
  }

  /** With a stop requested or no step left, the move ends there and then; an idle motion stays as it is. */
  lemma StepEnds(m: Motion)
    requires Valid(m) && !(m.moving && !m.stopReq && m.remaining > 0)
    ensures FeedStep(m).1.None?
    ensures FeedStep(m).0 == if m.moving then Motion(false, m.settings, 0.0, m.remaining, false) else m
  {
  }

  // ---------- The profile of a whole move, settings fixed ----------

  datatype Phase = Accelerate | Cruise | Brake {
    function Rank(): nat {
      match this case Accelerate => 0 case Cruise => 1 case Brake => 2
    }
  }

  datatype Step = Step(phase: Phase, speed2: real)

  function PhaseOf(s: Settings, w: real, r: int): Phase
    requires s.decel > 0.0
  {
    if BrakeDue(s, w, r) then Brake else if w < s.Vmax2() then Accelerate else Cruise
  }

  /** The steps pushed from squared speed `w` with `r` steps left. */
  function Profile(s: Settings, w: real, r: nat): (p: seq<Step>)
    requires s.decel > 0.0
    ensures |p| == r
    decreases r
  {
    if r == 0 then [] else
      var w' := NextSpeed2(s, w, r);
      [Step(PhaseOf(s, w, r), w')] + Profile(s, w', r - 1)
  }

  /** Feeding until `feed_step` reports 0. */
  function FeedAll(m: Motion): (Motion, seq<real>)
    requires m.settings.decel > 0.0
    decreases if m.remaining > 0 then m.remaining else 0
  {
    var (m', p) := FeedStep(m);
    if p.None? then (m', []) else
      var (m'', ps) := FeedAll(m');
      (m'', [p.value] + ps)
  }

  /** An undisturbed move pushes exactly its profile and ends idle with nothing remaining. */
  lemma {:induction false} FeedAllIsProfile(m: Motion)
    requires m.settings.decel > 0.0 && m.moving && !m.stopReq && m.remaining >= 0
    ensures var (m', ps) := FeedAll(m); var p := Profile(m.settings, m.speed2, m.remaining);
            && !m'.moving && m'.remaining == 0 && |ps| == m.remaining
            && forall i :: 0 <= i < |ps| ==> ps[i] == p[i].speed2
    decreases m.remaining
  {
    if m.remaining > 0 {
      FeedAllIsProfile(FeedStep(m).0);
    }
  }

  predicate Within(s: Settings, w: real) {
    VMIN2 <= w <= s.Vmax2()
  }

  lemma NextWithin(s: Settings, w: real, r: int)
    requires s.InRange() && Within(s, w)
    ensures Within(s, NextSpeed2(s, w, r))
    ensures NextSpeed2(s, w, r) <= w + 2.0 * s.accel
    ensures NextSpeed2(s, w, r) >= w - 2.0 * s.decel
  {
    VmaxBounds(s);
  }

  /** Once braking is due it stays due to the end of the move. */
  lemma BrakeAbsorbs(s: Settings, w: real, r: int)
    requires s.InRange() && w >= VMIN2 && 1 < r <= INT32_MAX && BrakeDue(s, w, r)
    ensures BrakeDue(s, NextSpeed2(s, w, r), r - 1)
  {
    BrakeDueExact(s, w, r);
    BrakeDueExact(s, NextSpeed2(s, w, r), r - 1);
  }

  /** Accelerate*, cruise*, brake*: from any speed the phases of a move never go back. */
  lemma {:induction false} ProfileShape(s: Settings, w: real, r: nat)
    requires s.InRange() && w >= VMIN2 && r <= INT32_MAX
    ensures forall i, j :: 0 <= i < j < r ==>
              Profile(s, w, r)[i].phase.Rank() <= Profile(s, w, r)[j].phase.Rank()
    ensures r > 0 ==> forall i :: 0 <= i < r ==> PhaseOf(s, w, r).Rank() <= Profile(s, w, r)[i].phase.Rank()
    decreases r
  {
    if r > 1 {
      var w' := NextSpeed2(s, w, r);
      VmaxBounds(s);
      ProfileShape(s, w', r - 1);
      if BrakeDue(s, w, r) {
        BrakeAbsorbs(s, w, r);
      }
      var rest := Profile(s, w', r - 1);
      assert Profile(s, w, r) == [Step(PhaseOf(s, w, r), w')] + rest;
      assert PhaseOf(s, w, r).Rank() <= PhaseOf(s, w', r - 1).Rank();
      forall i | 0 <= i < r
        ensures PhaseOf(s, w, r).Rank() <= Profile(s, w, r)[i].phase.Rank()
      {
        if i > 0 { assert Profile(s, w, r)[i] == rest[i - 1]; }
      }
    }
  }

  /** From any speed, only braking steps exceed the maximum, and a cruising step is at the maximum. */
  lemma {:induction false} ProfileLimit(s: Settings, w: real, r: nat, i: nat)
    requires s.InRange() && w >= VMIN2 && i < r
    ensures var step := Profile(s, w, r)[i];
            && (step.phase != Brake ==> step.speed2 <= s.Vmax2())
            && (step.phase == Cruise ==> step.speed2 == s.Vmax2())
    decreases r
  {
    VmaxBounds(s);
    if i > 0 {
      ProfileLimit(s, NextSpeed2(s, w, r), r - 1, i - 1);
    }
  }

  /** The speed is lowered or raised in the middle of a move: the rest of it is the profile from the speed it had. */
  lemma SpeedChangedOnTheWay(m: Motion, v: real)
    requires Valid(m) && m.moving && !m.stopReq
    ensures var s := m.settings.(maxSpeed := ClampSpeed(v)); var p := Profile(s, m.speed2, m.remaining);
            var ps := FeedAll(Apply(m, SetSpeed(v))).1;
            && |ps| == m.remaining && (forall i :: 0 <= i < |ps| ==> ps[i] == p[i].speed2)
            && forall i :: 0 <= i < |ps| ==>
                 && (p[i].phase != Brake ==> ps[i] <= s.Vmax2())
                 && (p[i].phase == Cruise ==> ps[i] == s.Vmax2())
  {
    var m' := Apply(m, SetSpeed(v));
    FeedAllIsProfile(m');
    forall i | 0 <= i < m.remaining
      ensures var step := Profile(m'.settings, m.speed2, m.remaining)[i];
              && (step.phase != Brake ==> step.speed2 <= m'.settings.Vmax2())
              && (step.phase == Cruise ==> step.speed2 == m'.settings.Vmax2())
    {
      ProfileLimit(m'.settings, m.speed2, m.remaining, i);
    }
  }

  /** From one step of a move to the next the squared speed rises by at most 2*accel and falls by at most 2*decel. */
  lemma {:induction false} ProfileSlew(s: Settings, w: real, r: nat, i: nat)
    requires s.InRange() && Within(s, w) && i < r
    ensures var p := Profile(s, w, r); var before := if i == 0 then w else p[i - 1].speed2;
            before - 2.0 * s.decel <= p[i].speed2 <= before + 2.0 * s.accel
    decreases r
  {
    NextWithin(s, w, r);
    if i > 0 {
      ProfileSlew(s, NextSpeed2(s, w, r), r - 1, i - 1);
    }
  }

  // ---------- Where the last step lands ----------

  /** Squared speed after `k` steps of a move that has not begun to brake. */
  function Reach(s: Settings, k: nat): real {
    Min(VMIN2 + Ramp(s.accel, k), s.Vmax2())
  }

  lemma ReachWithin(s: Settings, k: nat)
    requires s.InRange()
    ensures Within(s, Reach(s, k))
  {
    VmaxBounds(s);
    RampMonotone(s.accel, 0, k);
  }

  /** Braking is due for a move of `n` steps after `k` of them. */
  predicate Brakes(s: Settings, n: nat, k: nat)
    requires k < n
  {
    Ramp(s.decel, n - k - 1) <= Reach(s, k) - VMIN2
  }

  /** Steps a move of `n` makes before it begins to brake, counted from `k` on. */
  function BrakeStart(s: Settings, n: nat, k: nat): (k0: nat)
    requires s.InRange() && k < n
    ensures k <= k0 < n && Brakes(s, n, k0)
    ensures forall i :: k <= i < k0 ==> !Brakes(s, n, i)
    decreases n - k
  {
    ReachWithin(s, k);
    if Brakes(s, n, k) then k else BrakeStart(s, n, k + 1)
  }

  lemma ReachStep(s: Settings, n: nat, k: nat)
    requires s.InRange() && k < n <= INT32_MAX && !Brakes(s, n, k)
    ensures NextSpeed2(s, Reach(s, k), n - k) == Reach(s, k + 1)
  {
    ReachWithin(s, k);
    BrakeDueExact(s, Reach(s, k), n - k);
  }

  lemma BrakeStep(s: Settings, w: real, r: int)
    requires s.InRange() && w >= VMIN2 && 0 < r <= INT32_MAX && VMIN2 + Ramp(s.decel, r - 1) <= w
    ensures NextSpeed2(s, w, r) == Max(VMIN2, w - 2.0 * s.decel)
  {
    BrakeDueExact(s, w, r);
  }

  lemma {:induction false} BrakingLast(s: Settings, w: real, r: nat)
    requires s.InRange() && w >= VMIN2 && 0 < r <= INT32_MAX && VMIN2 + Ramp(s.decel, r - 1) <= w
    ensures Profile(s, w, r)[r - 1].speed2 == Max(VMIN2, w - Ramp(s.decel, r))
    decreases r
  {
    BrakeStep(s, w, r);
    var w' := NextSpeed2(s, w, r);
    if r > 1 {
      RampMonotone(s.decel, 0, r - 2);
      BrakingLast(s, w', r - 1);
      assert Profile(s, w, r)[r - 1] == Profile(s, w', r - 1)[r - 2];
    }
  }

  lemma ProfileTail(s: Settings, w: real, r: nat, i: nat)
    requires s.decel > 0.0 && 0 < i < r
    ensures Profile(s, w, r)[i] == Profile(s, NextSpeed2(s, w, r), r - 1)[i - 1]
  {
  }

  /** The last squared speed of a move of `n` steps, in closed form. */
  lemma {:induction false} LastStep(s: Settings, n: nat, k: nat)
    requires s.InRange() && k < n <= INT32_MAX
    ensures var k0 := BrakeStart(s, n, k);
            Profile(s, Reach(s, k), n - k)[n - k - 1].speed2 == Max(VMIN2, Reach(s, k0) - Ramp(s.decel, n - k0))
    decreases n - k
  {
    ReachWithin(s, k);
    if Brakes(s, n, k) {
      BrakingLast(s, Reach(s, k), n - k);
    } else {
      ReachStep(s, n, k);
      LastStep(s, n, k + 1);
      ProfileTail(s, Reach(s, k), n - k, n - k - 1);
    }
  }

  /** Squared speed of the last step of a move of `n` steps. */
  function LastSpeed2(s: Settings, n: nat): real
    requires s.decel > 0.0 && n > 0
  {
    Profile(s, VMIN2, n)[n - 1].speed2
  }

  lemma LastSpeedClosedForm(s: Settings, n: nat)
    requires s.InRange() && 0 < n <= INT32_MAX
    ensures var k0 := BrakeStart(s, n, 0); LastSpeed2(s, n) == Max(VMIN2, Reach(s, k0) - Ramp(s.decel, n - k0))
  {
    VmaxBounds(s);
    assert Reach(s, 0) == VMIN2;
    LastStep(s, n, 0);
  }

  /** The last step is slower than one acceleration step above MIN_SPEED_HZ. */
  lemma LastStepAccuracy(s: Settings, n: nat)
    requires s.InRange() && 0 < n <= INT32_MAX
    ensures VMIN2 <= LastSpeed2(s, n) < VMIN2 + 2.0 * s.accel
  {
    LastSpeedClosedForm(s, n);
    var k0 := BrakeStart(s, n, 0);
    RampMonotone(s.decel, 0, n);
    if k0 > 0 {
      assert !Brakes(s, n, k0 - 1);
    }
  }

  /** Some number of steps `k` after which ramping down from the speed reached lands within the
      `k`-th step of the end: what a caller can compute from the settings and the step count. */
  ghost predicate RampsMeet(s: Settings, n: nat) {
    exists k: nat :: k < n && Brakes(s, n, k) && Reach(s, k) - VMIN2 <= Ramp(s.decel, n - k)
  }

  /** The move ends exactly at MIN_SPEED_HZ if and only if the ramps meet. */
  lemma LastStepExact(s: Settings, n: nat)
    requires s.InRange() && 0 < n <= INT32_MAX
    ensures LastSpeed2(s, n) == VMIN2 <==> RampsMeet(s, n)
  {
    LastSpeedClosedForm(s, n);
    var k0 := BrakeStart(s, n, 0);
    if RampsMeet(s, n) {
      var k: nat :| k < n && Brakes(s, n, k) && Reach(s, k) - VMIN2 <= Ramp(s.decel, n - k);
      assert k0 <= k;
      RampMonotone(s.accel, k0, k);
      RampMonotone(s.decel, n - k, n - k0);
    }
  }

  /** Equal acceleration and deceleration always end at MIN_SPEED_HZ. */
  lemma SymmetricMoveIsExact(s: Settings, n: nat)
    requires s.InRange() && 0 < n <= INT32_MAX && s.accel == s.decel
    ensures LastSpeed2(s, n) == VMIN2
  {
    LastSpeedClosedForm(s, n);
    var k0 := BrakeStart(s, n, 0);
    RampMonotone(s.decel, 0, n - k0);
    if k0 > 0 {
      assert !Brakes(s, n, k0 - 1);
      if k0 > n - k0 {
        RampMonotone(s.accel, n - k0, k0 - 1);
      } else {
        RampMonotone(s.accel, k0, n - k0);
      }
    }
  }

  /** From a step of the ramp-up on: if the profile cruises anywhere, it ends at MIN_SPEED_HZ. */
  lemma {:induction false} CruiseEndsExact(s: Settings, n: nat, k: nat, i: nat)
    requires s.InRange() && k < n <= INT32_MAX && i < n - k
    requires Profile(s, Reach(s, k), n - k)[i].phase == Cruise
    ensures var k0 := BrakeStart(s, n, k); Reach(s, k0) - Ramp(s.decel, n - k0) <= VMIN2
    decreases n - k
  {
    ReachWithin(s, k);
    BrakeDueExact(s, Reach(s, k), n - k);
    if Brakes(s, n, k) {
      ProfileShape(s, Reach(s, k), n - k);
      assert false;
    } else if i == 0 {
      var k0 := BrakeStart(s, n, k);
      assert !Brakes(s, n, k0 - 1);
      RampMonotone(s.accel, k, k0 - 1);
      RampMonotone(s.accel, k, k0);
    } else {
      ReachStep(s, n, k);
      ProfileTail(s, Reach(s, k), n - k, i);
      CruiseEndsExact(s, n, k + 1, i - 1);
    }
  }

  /** A move that cruises at all ends at MIN_SPEED_HZ. */
  lemma CruisedMoveIsExact(s: Settings, n: nat, i: nat)
    requires s.InRange() && i < n <= INT32_MAX && Profile(s, VMIN2, n)[i].phase == Cruise
    ensures LastSpeed2(s, n) == VMIN2
  {
    VmaxBounds(s);
    assert Reach(s, 0) == VMIN2;
    LastSpeedClosedForm(s, n);
    CruiseEndsExact(s, n, 0, i);
  }

  /** The design note's claim that every move reaches MIN_SPEED_HZ on its last step
      fails for accel 3, decel 2 and four steps. */
  lemma LastStepNotAlwaysMinimum()
    ensures var s := Settings(100.0, 3.0, 2.0); s.InRange() && LastSpeed2(s, 4) == VMIN2 + 4.0
  {
    var s := Settings(100.0, 3.0, 2.0);
    LastSpeedClosedForm(s, 4);
    ExampleBrakeStart(s);
    RampIsProduct(3.0, 2);
    RampIsProduct(2.0, 2);
  }

  lemma ExampleBrakeStart(s: Settings)
    requires s == Settings(100.0, 3.0, 2.0)
    ensures BrakeStart(s, 4, 0) == 2
  {
    RampIsProduct(3.0, 1);
    RampIsProduct(3.0, 2);
    RampIsProduct(2.0, 1);
    RampIsProduct(2.0, 2);
    RampIsProduct(2.0, 3);
    assert !Brakes(s, 4, 0) && !Brakes(s, 4, 1) && Brakes(s, 4, 2);
  }
}
