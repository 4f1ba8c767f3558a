/** Shell, mailbox, core1 and step pipeline as one system: what its runs do to the pipeline, and that every move
    comes to its end. */
module System {
  import Planner
  import Pio
  import opened MailboxProto
  import opened Mailbox
  import Pipeline

  // ---------- Runs of the system are runs of the pipeline ----------

  /** What a step of the system does to the pipeline: one event or none. */
  function PipeEvent(f: Floats, s: State, e: Event): seq<Pipeline.Event> {
    match e
    case PioCycle => [Pipeline.Cycle]
    case Core1 =>
      (match s.core
       case Feeding => if |s.pipe.fifo| >= Pipeline.FIFO_DEPTH then [] else [Pipeline.Feed]
       case Poll => if s.toCore1 != [] && s.toCore1[0] == CMD_STOP then [Pipeline.Do(Planner.Stop)] else []
       case AwaitPayload(op) => if s.toCore1 == [] then [] else [Pipeline.Do(Decode(f, op, s.toCore1[0]))]
       case _ => [])
    case _ => []
  }

  function PipeEvents(f: Floats, s: State, es: seq<Event>): seq<Pipeline.Event>
    requires Valid(f, s) && forall e :: e in es ==> Allowed(e)
    decreases |es|
  {
    if es == [] then [] else
      StepKeepsValid(f, s, es[0]);
      PipeEvent(f, s, es[0]) + PipeEvents(f, Step(f, s, es[0]), es[1..])
  }

  predicate AllAllowedInPipe(es: seq<Pipeline.Event>) {
    forall e :: e in es ==> Pipeline.Allowed(e)
  }

  lemma RunOfOne(s: Pipeline.State, es: seq<Pipeline.Event>)
    requires Pipeline.Valid(s) && AllAllowedInPipe(es) && |es| <= 1
    ensures Pipeline.Run(s, es) == if es == [] then s else Pipeline.Next(s, es[0])
  {
    if es != [] {
      Pipeline.NextKeepsValid(s, es[0]);
      assert Pipeline.Run(Pipeline.Next(s, es[0]), es[1..]) == Pipeline.Next(s, es[0]);
    }
  }

  lemma StepIsPipeEvent(f: Floats, s: State, e: Event)
    requires Valid(f, s) && Allowed(e)
    ensures var es := PipeEvent(f, s, e);
            && |es| <= 1 && AllAllowedInPipe(es)
            && Step(f, s, e).pipe == if es == [] then s.pipe else Pipeline.Next(s.pipe, es[0])
  {
  }

  lemma {:induction false} PipeRunAppends(s: Pipeline.State, a: seq<Pipeline.Event>, b: seq<Pipeline.Event>)
    requires Pipeline.Valid(s) && AllAllowedInPipe(a) && AllAllowedInPipe(b)
    ensures AllAllowedInPipe(a + b)
    ensures Pipeline.Run(s, a + b) == Pipeline.Run(Pipeline.Run(s, a), b)
    decreases |a|
  {
    if a == [] {
      assert a + b == b;
    } else {
      Pipeline.NextKeepsValid(s, a[0]);
      PipeRunAppends(Pipeline.Next(s, a[0]), a[1..], b);
      assert (a + b)[0] == a[0] && (a + b)[1..] == a[1..] + b;
    }
  }

  /** The pipeline of every run of the system is a run of the pipeline. */
  lemma {:induction false} RunIsPipeRun(f: Floats, s: State, es: seq<Event>)
    requires Valid(f, s) && forall e :: e in es ==> Allowed(e)
    ensures AllAllowedInPipe(PipeEvents(f, s, es))
    ensures Run(f, s, es).pipe == Pipeline.Run(s.pipe, PipeEvents(f, s, es))
    decreases |es|
  {
    if es != [] {
      StepKeepsValid(f, s, es[0]);
      StepIsPipeEvent(f, s, es[0]);
      var first, s' := PipeEvent(f, s, es[0]), Step(f, s, es[0]);
      RunOfOne(s.pipe, first);
      RunIsPipeRun(f, s', es[1..]);
      PipeRunAppends(s.pipe, first, PipeEvents(f, s', es[1..]));
    }
  }

  /** On every run of the system, whatever is asked of it, the pulses are spaced as `Pipeline.PulseSpacing` says. */
  lemma SystemPulseSpacing(f: Floats, es: seq<Event>)
    requires forall e :: e in es ==> Allowed(e)
    ensures Valid(f, Init()) && AllAllowedInPipe(PipeEvents(f, Init(), es))
    ensures var c := Pipeline.ClockedRun(Pipeline.Clocked(Pipeline.Init, 0, [], []), PipeEvents(f, Init(), es));
            c.pipe == Run(f, Init(), es).pipe && Pipeline.SpacedOut(c.rises, c.waits, c.pipe.pulses)
  {
    InitValid(f);
    RunIsPipeRun(f, Init(), es);
    Pipeline.PulseSpacing(PipeEvents(f, Init(), es));
  }

  // ---------- No move is about to be asked for ----------

  predicate AsksMove(e: Event) {
    e.Start? && e.r.op == CMD_MOVE
  }

  /** No move request is on its way to core1. */
  predicate Quiet(s: State) {
    s.client != Idle && s.request.op == CMD_MOVE ==> Measure(s) <= 8
  }

  predicate QuietEvents(es: seq<Event>) {
    forall e :: e in es ==> Allowed(e) && !AsksMove(e)
  }

  lemma QuietStays(f: Floats, s: State, e: Event)
    requires Valid(f, s) && Quiet(s) && Allowed(e) && !AsksMove(e)
    ensures Quiet(Step(f, s, e))
  {
    if !e.Start? && s.client != Idle {
      StepProgress(f, s, e);
    }
  }

  lemma QuietStartsNone(f: Floats, s: State, e: Event)
    requires Valid(f, s) && Quiet(s) && Allowed(e)
    ensures Pipeline.NoMove(PipeEvent(f, s, e))
  {
    StepIsPipeEvent(f, s, e);
  }

  lemma {:induction false} QuietRun(f: Floats, s: State, es: seq<Event>)
    requires Valid(f, s) && Quiet(s) && QuietEvents(es)
    ensures Quiet(Run(f, s, es)) && Pipeline.NoMove(PipeEvents(f, s, es))
    decreases |es|
  {
    if es != [] {
      StepKeepsValid(f, s, es[0]);
      QuietStays(f, s, es[0]);
      QuietStartsNone(f, s, es[0]);
      QuietRun(f, Step(f, s, es[0]), es[1..]);
    }
  }

  /** From the shell to the motor: once a stop has been acknowledged, and until another move is asked for, no more
      pulses come out than were pushed when the acknowledgement was returned. */
  lemma StopFromTheShell(f: Floats, s: State, es: seq<Event>)
    requires Valid(f, s) && s.client == Idle && QuietEvents(es)
    requires s.results != [] && s.results[|s.results| - 1].0.op == CMD_STOP
    ensures var p := Run(f, s, es).pipe; p.pushed == s.pipe.pushed && |s.pipe.pulses| <= |p.pulses| <= |s.pipe.pushed|
  {
    QuietRun(f, s, es);
    RunIsPipeRun(f, s, es);
    Pipeline.StopIsFinal(s.pipe, PipeEvents(f, s, es));
  }

  // ---------- Every move comes to its end ----------

  /** Cycles until the PIO program is back at its pull. */
  function PulseLeft(sm: Pio.Sm): nat {
    match sm.pc
    case 0 => 0
    case 1 => 2 * sm.osr + 5
    case 2 => 2 * sm.y + 4
    case 3 => sm.x + sm.y + 3
    case 4 => sm.y + 2
    case _ => sm.x + 1
  }

  /** Cycles the words of the FIFO take. */
  function QueueWork(fifo: seq<Pio.Word>): nat {
    if fifo == [] then 0 else
      var h: int := fifo[0];
      2 * h + 6 + QueueWork(fifo[1..])
  }

  function PipeWork(p: Pipeline.State): nat {
    PulseLeft(p.sm) + QueueWork(p.fifo)
  }

  /** The PIO program stands at its pull with nothing to pull. */
  predicate Starved(p: Pipeline.State) {
    p.fifo == [] && p.sm.pc == 0
  }

  lemma {:induction false} QueueSnoc(fifo: seq<Pio.Word>, w: Pio.Word)
    ensures var h: int := w; QueueWork(fifo + [w]) == QueueWork(fifo) + 2 * h + 6
    decreases |fifo|
  {
    if fifo == [] {
      assert fifo + [w] == [w] && [w][1..] == [];
    } else {
      QueueSnoc(fifo[1..], w);
      assert (fifo + [w])[1..] == fifo[1..] + [w];
    }
  }

  /** Every cycle of the PIO program off a starved pull is one less to go. */
  lemma CycleWorks(p: Pipeline.State)
    requires Pipeline.Valid(p)
    ensures var p' := Pipeline.CycleEvent(p);
            && PipeWork(p') == PipeWork(p) - (if Starved(p) then 0 else 1)
            && (Starved(p) ==> Starved(p'))
  {
  }

  /** A feed ends the move or takes a step off it, for one pulse of the slowest speed at most. */
  lemma FeedWorks(p: Pipeline.State)
    requires Pipeline.Valid(p) && p.motion.moving && |p.fifo| < Pipeline.FIFO_DEPTH
    ensures var p' := Pipeline.FeedEvent(p);
            && p'.sm == p.sm
            && (if p'.motion.moving
                then p'.fifo != [] && p'.motion.remaining == p.motion.remaining - 1 >= 0
                     && PipeWork(p') <= PipeWork(p) + 2 * 1499997 + 6
                else p'.fifo == p.fifo)
  {
    Pipeline.FeedKeepsPipeline(p);
    var p' := Pipeline.FeedEvent(p);
    if p'.motion.moving {
      var w := p'.fifo[|p.fifo|];
      assert p'.pushed[|p.pushed|] == w;
      QueueSnoc(p.fifo, w);
    }
  }

  const TURN := 6

  /** The longest pulse, and a turn of core1's main loop. */
  const STEP_WORK := 2 * 1499997 + 6 + TURN

  /** How many steps core1 is from its next feed. */
  function ToFeed(s: State): nat {
    match s.core
    case Feeding => 1
    case Top => 2
    case Answer(_) => 3
    case AwaitPayload(_) => if s.toCore1 != [] then 4 else 5
    case Poll => TURN
  }

  /** Work for the steps not yet pushed. */
  function MoveWork(s: State): nat {
    var m := s.pipe.motion;
    if !m.moving || m.remaining < 0 then 0
    else m.remaining * STEP_WORK + if Starved(s.pipe) then ToFeed(s) else TURN
  }

  /** What is left to do until the motion is idle and the pipeline drained. */
  function Work(s: State): nat {
    PipeWork(s.pipe) + MoveWork(s)
  }

  /** The party whose next step is sure to lower it. */
  function Mover(s: State): Event {
    if !s.pipe.motion.moving || !Starved(s.pipe) then PioCycle
    else if s.core.AwaitPayload? && s.toCore1 == [] then Client
    else Core1
  }

  /** Nothing puts a move back, and its mover's step brings it forward. */
  predicate Onward(s: State, s': State, e: Event) {
    && Work(s') <= Work(s)
    && (Work(s) > 0 && e == Mover(s) ==> Work(s') < Work(s))
    && (Work(s') == Work(s) ==> Mover(s') == Mover(s))
    && s'.pipe.base == s.pipe.base && s'.pipe.steps == s.pipe.steps
  }

  lemma CycleOnward(f: Floats, s: State)
    requires Valid(f, s)
    ensures Onward(s, Step(f, s, PioCycle), PioCycle)
  {
    CycleWorks(s.pipe);
  }

  lemma FeedOnward(f: Floats, s: State)
    requires Valid(f, s) && s.core == Feeding
    ensures Onward(s, Step(f, s, Core1), Core1)
  {
    if |s.pipe.fifo| < Pipeline.FIFO_DEPTH && s.pipe.motion.moving {
      MovingFeedOnward(f, s);
    } else {
      assert Step(f, s, Core1) == s.(core := Poll);
    }
  }

  lemma MovingFeedOnward(f: Floats, s: State)
    requires Valid(f, s) && s.core == Feeding && |s.pipe.fifo| < Pipeline.FIFO_DEPTH && s.pipe.motion.moving
    ensures Onward(s, Step(f, s, Core1), Core1)
  {
    FeedWorks(s.pipe);
    var s' := Step(f, s, Core1);
    assert s'.pipe == Pipeline.FeedEvent(s.pipe);
  }

  /** A command that starts no move leaves the pulses, the words and the steps still to push as they are. */
  lemma CommandKeepsWork(p: Pipeline.State, c: Planner.Command)
    requires Pipeline.Valid(p) && !c.Move?
    ensures var p' := Pipeline.DoEvent(p, c);
            && p'.sm == p.sm && p'.fifo == p.fifo && p'.base == p.base && p'.steps == p.steps
            && p'.motion.moving == p.motion.moving && p'.motion.remaining == p.motion.remaining
  {
  }

  lemma CommandOnward(f: Floats, s: State)
    requires Valid(f, s) && Quiet(s) && (s.core == Poll || s.core.AwaitPayload?)
    ensures Onward(s, Step(f, s, Core1), Core1)
  {
    QuietStartsNone(f, s, Core1);
    StepIsPipeEvent(f, s, Core1);
    var es := PipeEvent(f, s, Core1);
    if es != [] {
      CommandKeepsWork(s.pipe, es[0].c);
    }
    CoreTurn(f, s);
  }

  /** Where core1 goes from its poll. */
  lemma CoreTurn(f: Floats, s: State)
    requires Valid(f, s) && (s.core == Poll || s.core.AwaitPayload?)
    ensures ToFeed(CoreStep(f, s)) < ToFeed(s) || (s.core.AwaitPayload? && s.toCore1 == [] && CoreStep(f, s) == s)
  {
  }

  lemma CoreOnward(f: Floats, s: State)
    requires Valid(f, s) && Quiet(s)
    ensures Onward(s, Step(f, s, Core1), Core1)
  {
    match s.core
    case Feeding => FeedOnward(f, s);
    case Top =>
    case Answer(_) => assert s.toCore0 == [];
    case _ => CommandOnward(f, s);
  }

  lemma ClientOnward(f: Floats, s: State)
    requires Valid(f, s)
    ensures Onward(s, Step(f, s, Client), Client)
  {
  }

  lemma OthersOnward(f: Floats, s: State, e: Event)
    requires Valid(f, s) && (e.Isr? || e.Start?)
    ensures Onward(s, Step(f, s, e), e)
  {
  }

  lemma StepOnward(f: Floats, s: State, e: Event)
    requires Valid(f, s) && Quiet(s) && Allowed(e) && !AsksMove(e)
    ensures Onward(s, Step(f, s, e), e)
  {
    match e
    case PioCycle => CycleOnward(f, s);
    case Core1 => CoreOnward(f, s);
    case Client => ClientOnward(f, s);
    case _ => OthersOnward(f, s, e);
  }

  lemma {:induction false} StretchOnward(f: Floats, s: State, es: seq<Event>)
    requires Valid(f, s) && Quiet(s) && QuietEvents(es)
    ensures var s' := Run(f, s, es);
            && Quiet(s')
            && Work(s') <= Work(s)
            && (Work(s) > 0 && Mover(s) in es ==> Work(s') < Work(s))
            && s'.pipe.base == s.pipe.base && s'.pipe.steps == s.pipe.steps
    decreases |es|
  {
    if es != [] {
      StepKeepsValid(f, s, es[0]);
      QuietStays(f, s, es[0]);
      StepOnward(f, s, es[0]);
      StretchOnward(f, Step(f, s, es[0]), es[1..]);
    }
  }

  /** A round in which client, core1 and the PIO program each step, and no move is asked for. */
  predicate Busy(es: seq<Event>) {
    QuietEvents(es) && Client in es && Core1 in es && PioCycle in es
  }

  predicate AllBusy(rounds: seq<seq<Event>>) {
    forall i :: 0 <= i < |rounds| ==> Busy(rounds[i])
  }

  lemma {:induction false} WorkRunsOut(f: Floats, s: State, rounds: seq<seq<Event>>)
    requires Valid(f, s) && Quiet(s) && AllBusy(rounds) && |rounds| >= Work(s)
    ensures var s' := RunRounds(f, s, rounds);
            Work(s') == 0 && s'.pipe.base == s.pipe.base && s'.pipe.steps == s.pipe.steps
    decreases |rounds|
  {
    if rounds != [] {
      StretchOnward(f, s, rounds[0]);
      WorkRunsOut(f, Run(f, s, rounds[0]), rounds[1..]);
    }
  }

  /** The motion is idle and the pipeline drained; unless it was stopped, `n` pulses have been made, and if no setting
      was changed on the way the last of them with the planned words. */
  predicate Finished(p: Pipeline.State, n: nat) {
    && !p.motion.moving && Pipeline.Drained(p)
    && (!p.stopped ==> |p.pulses| == n)
    && (p.calm ==> p.base <= |p.pulses| && p.pulses[p.base..] == p.plan)
  }

  lemma NoWorkIsFinished(s: State)
    requires Pipeline.Valid(s.pipe) && Work(s) == 0
    ensures Finished(s.pipe, s.pipe.base + s.pipe.steps)
  {
    assert PipeWork(s.pipe) == 0 && Pipeline.Drained(s.pipe);
    Pipeline.DrainedMove(s.pipe);
  }

  /** Every move comes to its end: within as many busy rounds as there is work it is finished, whatever else the
      shell asks for. */
  lemma MoveCompletes(f: Floats, s: State, rounds: seq<seq<Event>>)
    requires Valid(f, s) && Quiet(s) && AllBusy(rounds) && |rounds| >= Work(s)
    ensures Finished(RunRounds(f, s, rounds).pipe, s.pipe.base + s.pipe.steps)
  {
    WorkRunsOut(f, s, rounds);
    NoWorkIsFinished(RunRounds(f, s, rounds));
  }

  /** From the shell to the motor: a move the shell was told is accepted makes exactly the steps asked for, unless it
      is stopped, and the motion is idle and the pipeline drained within as many busy rounds as there is work. */
  lemma ShellMoveIsMade(f: Floats, s: State, r: Request, rounds: seq<seq<Event>>)
    requires Valid(f, s) && s.client == Idle && s.results != [] && s.results[|s.results| - 1] == (r, ACK_OK)
    requires r.op == CMD_MOVE && r.payload.Some? && r.payload.value != 0
    requires AllBusy(rounds) && |rounds| >= Work(s)
    ensures Finished(RunRounds(f, s, rounds).pipe, s.pipe.base + Pipeline.Abs(ToInt32(r.payload.value)))
  {
    assert InForce(f, s, ACK_OK);
    MoveCompletes(f, s, rounds);
  }

  /** From the command to the last pulse: an accepted move of `n` steps has made exactly these, after those of earlier
      moves, within a number of rounds given by `n` and what was queued, unless it was stopped. */
  lemma AcceptedMoveIsMade(f: Floats, s: State, n: int, rounds: seq<seq<Event>>)
    requires Valid(f, s) && s.core == AwaitPayload(CMD_MOVE) && s.toCore1 != [] && !s.pipe.motion.moving
    requires n == ToInt32(s.toCore1[0]) != 0
    requires AllBusy(rounds) && |rounds| >= PipeWork(s.pipe) + Pipeline.Abs(n) * STEP_WORK + TURN
    ensures var s1 := Step(f, s, Core1);
            && Valid(f, s1) && s1.core == Answer(ACK_OK)
            && Finished(RunRounds(f, s1, rounds).pipe, |s.pipe.pushed| + Pipeline.Abs(n))
  {
    StepKeepsValid(f, s, Core1);
    AcceptedWork(f, s, n);
    MoveCompletes(f, Step(f, s, Core1), rounds);
  }

  lemma AcceptedWork(f: Floats, s: State, n: int)
    requires Valid(f, s) && s.core == AwaitPayload(CMD_MOVE) && s.toCore1 != [] && !s.pipe.motion.moving
    requires n == ToInt32(s.toCore1[0]) != 0
    ensures var s1 := Step(f, s, Core1);
            && s1.core == Answer(ACK_OK) && Quiet(s1)
            && Work(s1) <= PipeWork(s.pipe) + Pipeline.Abs(n) * STEP_WORK + TURN
            && s1.pipe.base == |s.pipe.pushed| && s1.pipe.steps == Pipeline.Abs(n)
  {
    assert Progress(Step(f, s, Core1)) == AtCore1;
  }
}
