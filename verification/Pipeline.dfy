/** Planner, 4-word TX FIFO and PIO program together: what is pushed is what comes out. */
module Pipeline {
  import opened Wrappers
  import opened Planner
  import opened Pio
  import opened StepTiming

  const FIFO_DEPTH := 4

  /** `motion`, `fifo` and `sm` are the machine; the rest is history:
      every word `pushed` and every word whose pulse has risen (`pulses`), and for the latest accepted
      move how many words were `pushed` before it (`base`), its step count, the words `plan`ned with the
      settings in force at its start, whether it was `stopped`, and whether it ran undisturbed (`calm`). */
  datatype State = State(motion: Motion, fifo: seq<Word>, sm: Sm,
                         pushed: seq<Word>, pulses: seq<Word>,
                         base: nat, steps: nat, plan: seq<Word>, stopped: bool, calm: bool)

  const Init := State(PowerOn, [], PowerUp, [], [], 0, 0, [], false, true)

  datatype Event = Feed | Do(c: Command) | Cycle

  /** The words of the steps left to push from squared speed `w`. */
  function Plan(s: Settings, w: real, r: nat): (p: seq<Word>)
    requires s.decel > 0.0
    ensures |p| == r && forall i :: 0 <= i < r ==> p[i] == StepWord(Profile(s, w, r)[i].speed2)
  {
    seq(r, i requires 0 <= i < r => StepWord(Profile(s, w, r)[i].speed2))
  }

  /** The inner loop's body: one `feed_step`, attempted only when the FIFO has room. */
  function FeedEvent(s: State): State
    requires s.motion.settings.decel > 0.0
  {
    if |s.fifo| >= FIFO_DEPTH then s else
      var (m, p) := FeedStep(s.motion);
      if p.None? then s.(motion := m)
      else s.(motion := m, fifo := s.fifo + [StepWord(p.value)], pushed := s.pushed + [StepWord(p.value)])
  }

  predicate Starts(s: State, c: Command) {
    c.Move? && !s.motion.moving && c.steps != 0
  }

  function Abs(n: int): nat { if n < 0 then -n else n }

  function DoEvent(s: State, c: Command): State
    requires s.motion.settings.decel > 0.0
  {
    var m := Apply(s.motion, c);
    if Starts(s, c) then
      s.(motion := m, base := |s.pushed|, steps := Abs(c.steps), stopped := false, calm := true,
      plan := Plan(m.settings, VMIN2, Abs(c.steps)))
    else if s.motion.moving then
      s.(motion := m, stopped := s.stopped || c.Stop?, calm := s.calm && (c.Move? || c.Query?))
    else
      s.(motion := m)
  }

  function Head(fifo: seq<Word>): Option<Word> {
    if fifo == [] then None else Some(fifo[0])
  }

  function CycleEvent(s: State): State {
    var head := Head(s.fifo);
    s.(sm := Tick(s.sm, head),
    fifo := if Pulls(s.sm, head) then s.fifo[1..] else s.fifo,
    pulses := if Rises(s.sm, head) then s.pulses + [s.sm.y] else s.pulses)
  }

  predicate Allowed(e: Event) {
    e.Do? && e.c.Move? ==> INT32_MIN < e.c.steps <= INT32_MAX
  }

  function Next(s: State, e: Event): State
    requires s.motion.settings.decel > 0.0
  {
    match e
    case Feed => FeedEvent(s)
    case Do(c) => DoEvent(s, c)
    case Cycle => CycleEvent(s)
  }

  /** The word pulled from the FIFO whose pulse has not risen yet. */
  function InHand(sm: Sm): seq<Word> {
    if sm.pc == 1 then [sm.osr] else if sm.pc == 2 then [sm.y] else []
  }

  predicate Valid(s: State) {
    && Planner.Valid(s.motion) && Pio.Valid(s.sm)
    && |s.fifo| <= FIFO_DEPTH
    && s.pushed == s.pulses + InHand(s.sm) + s.fifo
    && s.base <= |s.pushed|
    && |s.pushed| - s.base + s.motion.remaining == s.steps
    && (!s.stopped ==> !s.motion.stopReq && (s.motion.moving || s.motion.remaining == 0))
    && (s.calm ==>
          && !s.stopped
          && s.plan == s.pushed[s.base..] + Plan(s.motion.settings, s.motion.speed2, s.motion.remaining))
    && forall i :: 0 <= i < |s.pushed| ==> 465 <= s.pushed[i] <= 1499997
  }

  lemma PlanStep(s: Settings, w: real, r: nat)
    requires s.decel > 0.0 && r > 0
    ensures Plan(s, w, r) == [StepWord(NextSpeed2(s, w, r))] + Plan(s, NextSpeed2(s, w, r), r - 1)
  {
  }

  lemma FeedKeepsPipeline(s: State)
    requires Valid(s)
    ensures Valid(FeedEvent(s))
  {
    FeedKeepsValid(s.motion);
    var s' := FeedEvent(s);
    var (m, p) := FeedStep(s.motion);
    if |s.fifo| < FIFO_DEPTH && p.Some? {
      StepWordRange(p.value);
      PlanStep(s.motion.settings, s.motion.speed2, s.motion.remaining);
      assert s'.pushed[s.base..] == s.pushed[s.base..] + [StepWord(p.value)];
      assert s'.pushed == s'.pulses + InHand(s'.sm) + s'.fifo;
    } else {
      assert s'.motion.remaining == s.motion.remaining;
      if s.motion.remaining == 0 {
        assert Plan(m.settings, m.speed2, 0) == [];
      }
    }
  }

  lemma DoKeepsPipeline(s: State, c: Command)
    requires Valid(s) && Allowed(Do(c))
    ensures Valid(DoEvent(s, c))
  {
    CommandKeepsValid(s.motion, c);
    var s' := DoEvent(s, c);
    if Starts(s, c) {
      assert s'.pushed[s'.base..] == [];
    } else if !s.motion.moving && s.calm {
      assert Plan(s'.motion.settings, s'.motion.speed2, 0) == [];
    }
  }

  lemma CycleKeepsPipeline(s: State)
    requires Valid(s)
    ensures Valid(CycleEvent(s))
  {
    TickKeepsValid(s.sm, Head(s.fifo));
  }

  function Run(s: State, es: seq<Event>): State
    requires Valid(s) && forall e :: e in es ==> Allowed(e)
    ensures Valid(Run(s, es))
    decreases |es|
  {
    if es == [] then s else
      NextKeepsValid(s, es[0]);
      Run(Next(s, es[0]), es[1..])
  }

  /** Every step of planner, command handler and PIO program keeps the pipeline invariant. */
  lemma NextKeepsValid(s: State, e: Event)
    requires Valid(s) && Allowed(e)
    ensures Valid(Next(s, e))
  {
    match e
    case Feed => FeedKeepsPipeline(s);
    case Do(c) => DoKeepsPipeline(s, c);
    case Cycle => CycleKeepsPipeline(s);
  }

  predicate Drained(s: State) {
    s.fifo == [] && InHand(s.sm) == []
  }

  lemma DrainedMove(s: State)
    requires Valid(s) && !s.motion.moving && Drained(s)
    ensures !s.stopped ==> |s.pulses| == s.base + s.steps
    ensures s.calm ==> s.base <= |s.pulses| && s.pulses[s.base..] == s.plan
  {
    assert s.pushed == s.pulses;
    assert Plan(s.motion.settings, s.motion.speed2, 0) == [];
  }

  /** Conservation on every run: rising edges, the word in hand and the FIFO make up what was pushed, in order,
      pushed plus remaining make up the move, and every word is one for a speed in range. A drained, unstopped move
      has emitted exactly its steps; an undisturbed one emitted exactly the words of its planned profile. */
  lemma Conservation(es: seq<Event>)
    requires forall e :: e in es ==> Allowed(e)
    ensures Valid(Init)
    ensures var s := Run(Init, es);
            && s.pushed == s.pulses + InHand(s.sm) + s.fifo
            && |s.pushed| - s.base + s.motion.remaining == s.steps
            && (forall i :: 0 <= i < |s.pushed| ==> 465 <= s.pushed[i] <= 1499997)
            && (!s.motion.moving && Drained(s) && !s.stopped ==> |s.pulses| == s.base + s.steps)
            && (!s.motion.moving && Drained(s) && s.calm ==> s.pulses[s.base..] == s.plan)
  {
    var s := Run(Init, es);
    if !s.motion.moving && Drained(s) {
      DrainedMove(s);
    }
  }

  predicate NoMove(es: seq<Event>) {
    forall e :: e in es ==> Allowed(e) && !(e.Do? && e.c.Move?)
  }

  /** From STOP on nothing is pushed until another move is asked for, so no more pulses come out than were pushed by
      then. */
  lemma {:induction false} StopIsFinal(s: State, es: seq<Event>)
    requires Valid(s) && NoMove(es) && (s.motion.moving ==> s.motion.stopReq)
    ensures Run(s, es).pushed == s.pushed
    ensures |s.pulses| <= |Run(s, es).pulses| <= |s.pushed|
    decreases |es|
  {
    if es != [] {
      NextKeepsValid(s, es[0]);
      var s' := Next(s, es[0]);
      assert s'.pushed == s.pushed && (s'.motion.moving ==> s'.motion.stopReq);
      assert |s'.pulses| >= |s.pulses|;
      StopIsFinal(s', es[1..]);
    }
  }

  /** The same, counted from the moment the STOP command is handled. */
  lemma StopTakesEffect(s: State, es: seq<Event>)
    requires Valid(s) && NoMove(es)
    ensures Valid(DoEvent(s, Stop))
    ensures Run(DoEvent(s, Stop), es).pushed == s.pushed
    ensures |s.pulses| <= |Run(DoEvent(s, Stop), es).pulses| <= |s.pushed|
  {
    DoKeepsPipeline(s, Stop);
    StopIsFinal(DoEvent(s, Stop), es);
  }

  // ---------- The maximum speed ----------

  predicate NoSpeed(es: seq<Event>) {
    forall e :: e in es ==> Allowed(e) && !(e.Do? && e.c.SetSpeed?)
  }

  lemma {:induction false} MaxSpeedStays(s: State, es: seq<Event>)
    requires Valid(s) && NoSpeed(es)
    ensures Run(s, es).motion.settings.maxSpeed == s.motion.settings.maxSpeed
    decreases |es|
  {
    if es != [] {
      NextKeepsValid(s, es[0]);
      MaxSpeedStays(Next(s, es[0]), es[1..]);
    }
  }

  /** There is room for a step, and the move is not yet on the ramp down to its end. */
  predicate Free(s: State) {
    var m := s.motion;
    && |s.fifo| < FIFO_DEPTH && m.moving && !m.stopReq && m.remaining > 0
    && m.speed2 < VMIN2 + Ramp(m.settings.decel, m.remaining - 1)
  }

  /** The step fed next is within the maximum speed `max`, at the maximum if the motion was not below it. */
  predicate Limited(s: State, s': State, max: real)
    requires max > 0.0
  {
    && s'.motion.speed2 <= max * max
    && (max * max <= s.motion.speed2 ==>
          s'.motion.speed2 == max * max && s'.fifo == s.fifo + [HalfPeriod(max)])
  }

  lemma FeedIsLimited(s: State)
    requires Valid(s) && Free(s)
    ensures Limited(s, FeedEvent(s), s.motion.settings.maxSpeed)
  {
    var max := s.motion.settings.maxSpeed;
    StepPushes(s.motion);
    StepWordIsHalfPeriod(max);
    assert s.motion.settings.Vmax2() == max * max;
  }

  /** From a speed command on, in the middle of a move too and until the next one, whatever else is asked for: a step
      that is not braking is never faster than the new maximum, and at the maximum it is pushed with its half period,
      a motion that was faster included. */
  lemma SpeedCommandHolds(s: State, v: real, es: seq<Event>)
    requires Valid(s) && NoSpeed(es) && IsSpeed(v)
    ensures Valid(DoEvent(s, SetSpeed(v)))
    ensures var r := Run(DoEvent(s, SetSpeed(v)), es);
            r.motion.settings.maxSpeed == v && (Free(r) ==> Limited(r, FeedEvent(r), v))
  {
    DoKeepsPipeline(s, SetSpeed(v));
    MaxSpeedStays(DoEvent(s, SetSpeed(v)), es);
    var r := Run(DoEvent(s, SetSpeed(v)), es);
    if Free(r) {
      FeedIsLimited(r);
    }
  }

  // ---------- Timing of the pipeline's pulses ----------

  /** The FIFO heads the PIO program sees, cycle by cycle, during a run. */
  function Heads(s: State, es: seq<Event>): seq<Option<Word>>
    requires Valid(s) && forall e :: e in es ==> Allowed(e)
    decreases |es|
  {
    if es == [] then [] else
      NextKeepsValid(s, es[0]);
      (if es[0].Cycle? then [Head(s.fifo)] else []) + Heads(Next(s, es[0]), es[1..])
  }

  /** Feeding and commands never disturb the PIO program, so the edge spacing of `Pio.EdgeSpacing` holds in
      every interleaving. */
  lemma {:induction false} SmRunsFreely(s: State, es: seq<Event>)
    requires Valid(s) && forall e :: e in es ==> Allowed(e)
    ensures Run(s, es).sm == Pio.Run(s.sm, Heads(s, es))
    decreases |es|
  {
    if es != [] {
      NextKeepsValid(s, es[0]);
      var s', rest := Next(s, es[0]), Heads(Next(s, es[0]), es[1..]);
      SmRunsFreely(s', es[1..]);
      if es[0].Cycle? {
        assert Heads(s, es) == [Head(s.fifo)] + rest;
        assert ([Head(s.fifo)] + rest)[1..] == rest;
      } else {
        PulsesOnlyInCycles(s, es[0]);
        assert Heads(s, es) == [] + rest == rest;
      }
    }
  }

  /** A pipeline with a clock: `now` counts cycles, `rises` has the cycle in which each pulse rose, and `waits` for
      each pulse how many cycles the program has since stood at its pull with the FIFO empty. */
  datatype Clocked = Clocked(pipe: State, now: nat, rises: seq<nat>, waits: seq<nat>)

  function ClockedNext(c: Clocked, e: Event): Clocked
    requires c.pipe.motion.settings.decel > 0.0
  {
    var pipe := Next(c.pipe, e);
    if !e.Cycle? then c.(pipe := pipe) else
      var head := Head(c.pipe.fifo);
      if Rises(c.pipe.sm, head) then Clocked(pipe, c.now + 1, c.rises + [c.now], c.waits + [0])
      else if c.waits != [] && c.pipe.sm.pc == 0 && head.None? then
        var last := |c.waits| - 1;
        Clocked(pipe, c.now + 1, c.rises, c.waits[last := c.waits[last] + 1])
      else Clocked(pipe, c.now + 1, c.rises, c.waits)
  }

  /** Cycles, waiting aside, since the pulse of word `h` rose. */
  function Since(sm: Sm, h: Word): int {
    match sm.pc
    case 0 => 2 * h + 4
    case 1 => 2 * h + 5
    case 2 => 2 * h + 6
    case 3 => h + 1 - sm.x
    case 4 => h + 2
    case _ => 2 * h + 3 - sm.x
  }

  /** The gap after each pulse but the last is `2h+6` cycles and its waiting. */
  predicate SpacedOut(rises: seq<nat>, waits: seq<nat>, pulses: seq<Word>) {
    && |rises| == |waits| == |pulses|
    && forall i :: 0 <= i < |rises| - 1 ==>
                     var h: int := pulses[i]; rises[i + 1] == rises[i] + 2 * h + 6 + waits[i]
  }

  /** The last pulse rose as many cycles ago as the state of the program says. */
  predicate InTime(sm: Sm, pulses: seq<Word>, now: nat, rises: seq<nat>, waits: seq<nat>) {
    && SpacedOut(rises, waits, pulses)
    && (pulses == [] ==> sm.pc <= 2)
    && (pulses != [] ==>
          var last := |pulses| - 1;
          var h := pulses[last];
          && now == rises[last] + Since(sm, h) + waits[last]
          && (3 <= sm.pc ==> sm.y == h)
          && (sm.pc == 3 || sm.pc == 5 ==> sm.x <= h))
  }

  predicate ClockOk(c: Clocked) {
    InTime(c.pipe.sm, c.pipe.pulses, c.now, c.rises, c.waits)
  }

  lemma RiseInTime(sm: Sm, head: Option<Word>, pulses: seq<Word>, now: nat, rises: seq<nat>, waits: seq<nat>)
    requires Pio.Valid(sm) && sm.pc == 2 && InTime(sm, pulses, now, rises, waits)
    ensures InTime(Tick(sm, head), pulses + [sm.y], now + 1, rises + [now], waits + [0])
  {
  }

  lemma WaitInTime(sm: Sm, pulses: seq<Word>, now: nat, rises: seq<nat>, waits: seq<nat>)
    requires Pio.Valid(sm) && sm.pc == 0 && waits != [] && InTime(sm, pulses, now, rises, waits)
    ensures var last := |waits| - 1; InTime(Tick(sm, None), pulses, now + 1, rises, waits[last := waits[last] + 1])
  {
  }

  lemma MoveInTime(sm: Sm, head: Option<Word>, pulses: seq<Word>, now: nat, rises: seq<nat>, waits: seq<nat>)
    requires Pio.Valid(sm) && sm.pc != 2 && InTime(sm, pulses, now, rises, waits)
    requires sm.pc == 0 && head.None? ==> waits == []
    ensures InTime(Tick(sm, head), pulses, now + 1, rises, waits)
  {
  }

  lemma ClockedNextOk(c: Clocked, e: Event)
    requires Valid(c.pipe) && ClockOk(c) && Allowed(e)
    ensures ClockOk(ClockedNext(c, e))
  {
    var sm, head := c.pipe.sm, Head(c.pipe.fifo);
    if e.Cycle? {
      TickKeepsValid(sm, head);
      if sm.pc == 2 {
        RiseInTime(sm, head, c.pipe.pulses, c.now, c.rises, c.waits);
      } else if sm.pc == 0 && head.None? && c.waits != [] {
        WaitInTime(sm, c.pipe.pulses, c.now, c.rises, c.waits);
      } else {
        MoveInTime(sm, head, c.pipe.pulses, c.now, c.rises, c.waits);
      }
    } else {
      PulsesOnlyInCycles(c.pipe, e);
    }
  }

  lemma PulsesOnlyInCycles(s: State, e: Event)
    requires s.motion.settings.decel > 0.0 && !e.Cycle?
    ensures Next(s, e).sm == s.sm && Next(s, e).pulses == s.pulses
  {
  }

  function ClockedRun(c: Clocked, es: seq<Event>): (r: Clocked)
    requires Valid(c.pipe) && forall e :: e in es ==> Allowed(e)
    ensures Valid(r.pipe) && r.pipe == Run(c.pipe, es)
    decreases |es|
  {
    if es == [] then c else
      NextKeepsValid(c.pipe, es[0]);
      ClockedRun(ClockedNext(c, es[0]), es[1..])
  }

  lemma {:induction false} ClockedRunOk(c: Clocked, es: seq<Event>)
    requires Valid(c.pipe) && ClockOk(c) && forall e :: e in es ==> Allowed(e)
    ensures ClockOk(ClockedRun(c, es))
    decreases |es|
  {
    if es != [] {
      NextKeepsValid(c.pipe, es[0]);
      ClockedNextOk(c, es[0]);
      ClockedRunOk(ClockedNext(c, es[0]), es[1..]);
    }
  }

  /** On every run, whatever is fed and commanded in between, the rising edges of a pulse of word `h` and of the next
      one are exactly `2h+6` cycles apart plus the cycles for which the FIFO was empty at the pull: none if the next
      word was already queued. */
  lemma PulseSpacing(es: seq<Event>)
    requires forall e :: e in es ==> Allowed(e)
    ensures Valid(Init)
    ensures var c := ClockedRun(Clocked(Init, 0, [], []), es);
            c.pipe == Run(Init, es) && SpacedOut(c.rises, c.waits, c.pipe.pulses)
  {
    ClockedRunOk(Clocked(Init, 0, [], []), es);
  }
}
