/** One shell client, the mailbox interrupt of core0 and the main loop of core1, step by step.

    core0's interrupt reads one word, delivers it, and then discards whatever else is queued.
    The client is a thread of the same core as the interrupt, so it does not run while the interrupt does. */
module Mailbox {
  import opened Wrappers
  import opened Planner
  import opened Pio
  import opened MailboxProto
  import Pipeline

  const SIO_DEPTH := 4

  datatype Request = Request(op: Word, payload: Option<Word>)

  /** What the shell sends: a payload for every command but STOP; INT32_MIN steps are not asked for. */
  predicate WellFormed(r: Request) {
    && Known(r.op)
    && (r.payload.Some? <==> HasPayload(r.op))
    && (r.op == CMD_MOVE ==> INT32_MIN < ToInt32(r.payload.value) <= INT32_MAX)
  }

  datatype ClientPc = Idle | SendOp | SendPayload | Waiting | Reading
  datatype IsrPc = Off | Deliver(w: Word) | Drain
  datatype CorePc = Top | Feeding | Poll | AwaitPayload(op: Word) | Answer(w: Word)

  /** History: the requests `issued` by the client, the requests core1 read and the replies it gave (`served`),
      what the client was returned (`results`), and how many words the interrupt's drain `discarded`. */
  datatype State = State(client: ClientPc, request: Request, sem: bool, lastReply: Word, isr: IsrPc,
                         toCore1: seq<Word>, toCore0: seq<Word>, core: CorePc, pipe: Pipeline.State,
                         issued: seq<Request>, served: seq<(Request, Word)>, results: seq<(Request, Word)>,
                         discarded: nat)

  datatype Event = Start(r: Request) | Client | Isr | Core1 | PioCycle

  function Init(): State {
    State(Idle, Request(0, None), false, 0, Off, [], [], Top, Pipeline.Init, [], [], [], 0)
  }

  function ClientStep(s: State): State {
    if s.isr != Off then s else
    match s.client
    case Idle => s
    case SendOp =>
      if |s.toCore1| >= SIO_DEPTH then s
      else s.(toCore1 := s.toCore1 + [s.request.op], client := if s.request.payload.Some? then SendPayload else Waiting)
    case SendPayload =>
      if |s.toCore1| >= SIO_DEPTH || s.request.payload.None? then s
      else s.(toCore1 := s.toCore1 + [s.request.payload.value], client := Waiting)
    case Waiting => if s.sem then s.(sem := false, client := Reading) else s
    case Reading => s.(client := Idle, results := s.results + [(s.request, s.lastReply)])
  }

  function IsrStep(s: State): State {
    match s.isr
    case Off => if s.toCore0 == [] then s else s.(isr := Deliver(s.toCore0[0]), toCore0 := s.toCore0[1..])
    case Deliver(w) => s.(lastReply := w, sem := true, isr := Drain)
    case Drain =>
      if s.toCore0 == [] then s.(isr := Off) else s.(toCore0 := s.toCore0[1..], discarded := s.discarded + 1)
  }

  /** `handle_command` once all its words are read. */
  function Execute(f: Floats, s: State, r: Request): State
    requires s.pipe.motion.settings.decel > 0.0
  {
    var payload := if r.payload.Some? then r.payload.value else 0;
    var w := Reply(f, s.pipe.motion, r.op, payload);
    s.(pipe := Pipeline.DoEvent(s.pipe, Decode(f, r.op, payload)), core := Answer(w), served := s.served + [(r, w)])
  }

  function CoreStep(f: Floats, s: State): State
    requires s.pipe.motion.settings.decel > 0.0
  {
    match s.core
    case Top => s.(core := if s.pipe.motion.moving then Feeding else Poll)
    case Feeding =>
      if |s.pipe.fifo| >= Pipeline.FIFO_DEPTH then s.(core := Poll)
      else s.(pipe := Pipeline.FeedEvent(s.pipe), core := if FeedStep(s.pipe.motion).1.Some? then Feeding else Poll)
    case Poll =>
      if s.toCore1 == [] then s.(core := Top) else
        var op := s.toCore1[0];
        var s' := s.(toCore1 := s.toCore1[1..]);
        if HasPayload(op) then s'.(core := AwaitPayload(op))
        else if Known(op) then Execute(f, s', Request(op, None))
        else s'.(core := Top)
    case AwaitPayload(op) =>
      if s.toCore1 == [] then s
      else Execute(f, s.(toCore1 := s.toCore1[1..]), Request(op, Some(s.toCore1[0])))
    case Answer(w) =>
      if |s.toCore0| >= SIO_DEPTH then s else s.(toCore0 := s.toCore0 + [w], core := Top)
  }

  /** Once a command and its payload are in, core1 does what they say and answers with the reply to it. */
  lemma CommandIsObeyed(f: Floats, s: State)
    requires s.pipe.motion.settings.decel > 0.0 && s.core.AwaitPayload? && s.toCore1 != []
    ensures var s', m, op, payload := CoreStep(f, s), s.pipe.motion, s.core.op, s.toCore1[0];
            && s'.pipe.motion == Apply(m, Decode(f, op, payload)) && s'.core == Answer(Reply(f, m, op, payload))
            && s'.pipe.fifo == s.pipe.fifo && s'.pipe.sm == s.pipe.sm && s'.toCore1 == s.toCore1[1..]
  {
  }

  lemma StopIsObeyed(f: Floats, s: State)
    requires Planner.Valid(s.pipe.motion) && s.core == Poll && s.toCore1 != [] && s.toCore1[0] == 4
    ensures var s', m := CoreStep(f, s), s.pipe.motion;
            && s'.pipe.motion == m.(stopReq := m.moving) && s'.core == Answer(0)
            && s'.pipe.fifo == s.pipe.fifo && s'.pipe.sm == s.pipe.sm && s'.toCore1 == s.toCore1[1..]
  {
  }

  predicate Allowed(e: Event) {
    e.Start? ==> WellFormed(e.r)
  }

  function Step(f: Floats, s: State, e: Event): State
    requires s.pipe.motion.settings.decel > 0.0
  {
    match e
    case Start(r) =>
      if s.client == Idle && s.isr == Off then s.(client := SendOp, request := r, issued := s.issued + [r]) else s
    case Client => ClientStep(s)
    case Isr => IsrStep(s)
    case Core1 => CoreStep(f, s)
    case PioCycle => s.(pipe := Pipeline.CycleEvent(s.pipe))
  }

  // ---------- Safety ----------

  predicate Looping(core: CorePc) {
    core == Top || core == Feeding || core == Poll
  }

  /** Nothing of a reply exists anywhere. */
  predicate NoReply(s: State) {
    s.toCore0 == [] && !s.sem && s.isr == Off && s.results == s.served
  }

  /** What a reply tells the client is still so: the accepted setting is in force, the accepted move is the
      latest one, a stop has been requested, the status reported still bounds the state. */
  predicate InForce(f: Floats, s: State, w: Word) {
    var m, r := s.pipe.motion, s.request;
    && (r.op == CMD_SPEED ==> w == f.pack(m.settings.maxSpeed))
    && (r.op == CMD_ACCEL ==> w == f.pack(m.settings.accel))
    && (r.op == CMD_DECEL ==> w == f.pack(m.settings.decel))
    && (r.op == CMD_MOVE && r.payload.Some? && r.payload.value != 0 && w == ACK_OK ==>
          s.pipe.steps == Pipeline.Abs(ToInt32(r.payload.value)) && !s.pipe.stopped)
    && (r.op == CMD_STOP && m.moving ==> m.stopReq)
    && (r.op == CMD_STATUS && r.payload.Some? ==> StatusHolds(f, m, r.payload.value, w))
  }

  /** A reported setting is in force, a reported standstill lasts, and no more steps remain than reported. */
  predicate StatusHolds(f: Floats, m: Motion, field: Word, w: Word) {
    && (field == STATUS_STATE && w == 0 ==> !m.moving)
    && (field == STATUS_MAX_SPEED ==> w == f.pack(m.settings.maxSpeed))
    && (field == STATUS_ACCEL ==> w == f.pack(m.settings.accel))
    && (field == STATUS_DECEL ==> w == f.pack(m.settings.decel))
    && (field == STATUS_REMAINING ==> m.remaining <= ToInt32(w))
  }

  /** core1 has read and executed the request: `w` is its reply, the only one in flight. */
  predicate Replied(f: Floats, s: State, w: Word) {
    && s.toCore1 == []
    && s.served == s.results + [(s.request, w)]
    && InForce(f, s, w)
  }

  datatype Where = Unread | OpRead | AtCore1 | Queued | InIsr | Draining | Given | Taken

  /** How far the outstanding request has come. */
  function Progress(s: State): Where {
    if s.client == Reading then Taken
    else if s.core.AwaitPayload? then OpRead
    else if s.core.Answer? then AtCore1
    else if s.isr.Deliver? then InIsr
    else if s.isr.Drain? then Draining
    else if s.sem then Given
    else if s.toCore0 != [] then Queued
    else Unread
  }

  /** The words of the outstanding request that are still in the FIFO towards core1. */
  function Unsent(s: State): seq<Word> {
    if s.client == SendOp || s.client == Idle || s.request.payload.None? then []
    else if s.client == SendPayload then []
    else [s.request.payload.value]
  }

  predicate InFlight(f: Floats, s: State) {
    match Progress(s)
    case Unread =>
      && NoReply(s) && Looping(s.core)
      && s.toCore1 == (if s.client == SendOp then [] else [s.request.op] + Unsent(s))
    case OpRead =>
      && NoReply(s) && s.client != SendOp && s.core == AwaitPayload(s.request.op) && s.request.payload.Some?
      && s.toCore1 == Unsent(s)
    case AtCore1 => s.client == Waiting && !s.sem && s.isr == Off && s.toCore0 == [] && Replied(f, s, s.core.w)
    case Queued => s.client == Waiting && Looping(s.core) && |s.toCore0| == 1 && Replied(f, s, s.toCore0[0])
    case InIsr => s.client == Waiting && Looping(s.core) && !s.sem && s.toCore0 == [] && Replied(f, s, s.isr.w)
    case Draining => s.client == Waiting && Looping(s.core) && s.sem && s.toCore0 == [] && Replied(f, s, s.lastReply)
    case Given => s.client == Waiting && Looping(s.core) && s.toCore0 == [] && Replied(f, s, s.lastReply)
    case Taken => !s.sem && s.isr == Off && Looping(s.core) && s.toCore0 == [] && Replied(f, s, s.lastReply)
  }

  /** Until the next request, what the last reply said stays so. */
  predicate LastResultInForce(f: Floats, s: State) {
    s.results != [] ==> s.results[|s.results| - 1] == (s.request, s.lastReply) && InForce(f, s, s.lastReply)
  }

  predicate Protocol(f: Floats, s: State) {
    && s.discarded == 0
    && s.issued == Names(s.results) + (if s.client == Idle then [] else [s.request])
    && if s.client == Idle then NoReply(s) && s.toCore1 == [] && Looping(s.core) && LastResultInForce(f, s)
       else WellFormed(s.request) && (s.client == SendPayload ==> s.request.payload.Some?) && InFlight(f, s)
  }

  function Names(results: seq<(Request, Word)>): seq<Request> {
    seq(|results|, i requires 0 <= i < |results| => results[i].0)
  }

  predicate Valid(f: Floats, s: State) {
    Pipeline.Valid(s.pipe) && Protocol(f, s)
  }

  lemma CoreKeepsPipe(f: Floats, s: State)
    requires Valid(f, s)
    ensures Pipeline.Valid(CoreStep(f, s).pipe)
  {
    match s.core
    case Feeding => Pipeline.FeedKeepsPipeline(s.pipe);
    case Poll =>
      if s.toCore1 != [] && s.toCore1[0] == CMD_STOP {
        Pipeline.DoKeepsPipeline(s.pipe, Stop);
      }
    case AwaitPayload(op) =>
      if s.toCore1 != [] {
        Pipeline.DoKeepsPipeline(s.pipe, Decode(f, op, s.toCore1[0]));
      }
    case _ =>
  }

  lemma ExecuteIsInForce(f: Floats, s: State, r: Request)
    requires WellFormed(r) && r == s.request && Planner.Valid(s.pipe.motion)
    ensures var s' := Execute(f, s, r); InForce(f, s', s'.core.w)
  {
  }

  lemma FeedKeepsInForce(f: Floats, s: State, w: Word)
    requires InForce(f, s, w) && Planner.Valid(s.pipe.motion)
    ensures InForce(f, s.(pipe := Pipeline.FeedEvent(s.pipe)), w)
  {
  }

  lemma ExecuteKeepsProtocol(f: Floats, s: State)
    requires Protocol(f, s) && s.client == Waiting && NoReply(s) && Planner.Valid(s.pipe.motion)
    ensures Protocol(f, Execute(f, s.(toCore1 := []), s.request))
  {
    ExecuteIsInForce(f, s.(toCore1 := []), s.request);
  }

  lemma FeedTouchesPipe(f: Floats, s: State)
    requires s.core == Feeding && s.pipe.motion.settings.decel > 0.0
    ensures var s' := CoreStep(f, s); s' == s.(core := s'.core, pipe := s'.pipe) && Looping(s'.core)
  {
  }

  /** A change of core1's place in its loop, and of the pipe, as long as what a reply said stays so. */
  lemma LoopTurnKeepsProtocol(f: Floats, s: State, s': State)
    requires Protocol(f, s) && s.client != Idle && Looping(s.core)
    requires s' == s.(core := s'.core, pipe := s'.pipe) && Looping(s'.core)
    requires s.results != s.served ==> forall w :: InForce(f, s, w) ==> InForce(f, s', w)
    ensures Protocol(f, s')
  {
    assert Progress(s') == Progress(s);
  }

  lemma IdleTurnKeepsProtocol(f: Floats, s: State, s': State)
    requires Protocol(f, s) && s.client == Idle && Looping(s.core)
    requires s' == s.(core := s'.core, pipe := s'.pipe) && Looping(s'.core)
    requires InForce(f, s, s.lastReply) ==> InForce(f, s', s.lastReply)
    ensures Protocol(f, s')
  {
  }

  lemma FeedKeepsAllInForce(f: Floats, s: State)
    requires s.core == Feeding && Planner.Valid(s.pipe.motion)
    ensures forall w :: InForce(f, s, w) ==> InForce(f, CoreStep(f, s), w)
  {
    forall w | InForce(f, s, w)
      ensures InForce(f, CoreStep(f, s), w)
    {
      FeedKeepsInForce(f, s, w);
    }
  }

  lemma FeedKeepsProtocol(f: Floats, s: State)
    requires Protocol(f, s) && s.core == Feeding && Planner.Valid(s.pipe.motion)
    ensures Protocol(f, CoreStep(f, s))
  {
    FeedTouchesPipe(f, s);
    FeedKeepsAllInForce(f, s);
    if s.client == Idle {
      IdleTurnKeepsProtocol(f, s, CoreStep(f, s));
    } else {
      LoopTurnKeepsProtocol(f, s, CoreStep(f, s));
    }
  }

  lemma LoopingKeepsProtocol(f: Floats, s: State, core: CorePc)
    requires Protocol(f, s) && Looping(s.core) && Looping(core)
    ensures Protocol(f, s.(core := core))
  {
    assert s.client != Idle ==> Progress(s.(core := core)) == Progress(s);
  }

  lemma AnswerKeepsProtocol(f: Floats, s: State)
    requires Protocol(f, s) && s.core.Answer? && Planner.Valid(s.pipe.motion)
    ensures Protocol(f, CoreStep(f, s))
  {
    assert Progress(s) == AtCore1;
  }

  lemma ReadOpKeepsProtocol(f: Floats, s: State)
    requires Protocol(f, s) && s.core == Poll && s.toCore1 != [] && HasPayload(s.toCore1[0])
    requires s.pipe.motion.settings.decel > 0.0
    ensures Protocol(f, CoreStep(f, s))
  {
    assert s.client != Idle && Progress(s) == Unread;
  }

  lemma CoreKeepsProtocol(f: Floats, s: State)
    requires Protocol(f, s) && Planner.Valid(s.pipe.motion)
    ensures Protocol(f, CoreStep(f, s))
  {
    match s.core
    case Top => LoopingKeepsProtocol(f, s, CoreStep(f, s).core);
    case Feeding => FeedKeepsProtocol(f, s);
    case Poll =>
      if s.toCore1 == [] {
        LoopingKeepsProtocol(f, s, Top);
      } else if HasPayload(s.toCore1[0]) {
        ReadOpKeepsProtocol(f, s);
      } else {
        assert s.toCore1[1..] == [] && s.request == Request(CMD_STOP, None);
        ExecuteKeepsProtocol(f, s);
      }
    case AwaitPayload(op) =>
      if s.toCore1 != [] {
        assert s.toCore1[1..] == [] && s.request == Request(op, Some(s.toCore1[0]));
        ExecuteKeepsProtocol(f, s);
      }
    case Answer(w) => AnswerKeepsProtocol(f, s);
  }

  lemma ClientKeepsProtocol(f: Floats, s: State)
    requires Protocol(f, s)
    ensures Protocol(f, ClientStep(s))
  {
    var s' := ClientStep(s);
    if s.client == Reading {
      assert Names(s'.results) == Names(s.results) + [s.request];
    }
  }

  lemma IsrKeepsProtocol(f: Floats, s: State)
    requires Protocol(f, s)
    ensures Protocol(f, IsrStep(s))
  {
  }

  lemma StartKeepsProtocol(f: Floats, s: State, r: Request)
    requires Protocol(f, s) && s.client == Idle && WellFormed(r)
    ensures Protocol(f, s.(client := SendOp, request := r, issued := s.issued + [r]))
  {
  }

  lemma CycleKeepsProtocol(f: Floats, s: State)
    requires Protocol(f, s)
    ensures Protocol(f, s.(pipe := Pipeline.CycleEvent(s.pipe)))
  {
    assert Progress(s.(pipe := Pipeline.CycleEvent(s.pipe))) == Progress(s);
  }

  /** Every interleaving keeps the protocol: at most one reply word exists, the drain never discards one,
      and core1 is at a request boundary exactly when it reads an opcode. */
  lemma StepKeepsValid(f: Floats, s: State, e: Event)
    requires Valid(f, s) && Allowed(e)
    ensures Valid(f, Step(f, s, e))
  {
    match e
    case Core1 =>
      CoreKeepsPipe(f, s);
      CoreKeepsProtocol(f, s);
    case PioCycle =>
      Pipeline.CycleKeepsPipeline(s.pipe);
      CycleKeepsProtocol(f, s);
    case Client => ClientKeepsProtocol(f, s);
    case Isr => IsrKeepsProtocol(f, s);
    case Start(r) => if s.client == Idle { StartKeepsProtocol(f, s, r); }
  }

  function Run(f: Floats, s: State, es: seq<Event>): State
    requires Valid(f, s) && forall e :: e in es ==> Allowed(e)
    ensures Valid(f, Run(f, s, es))
    decreases |es|
  {
    if es == [] then s else
      StepKeepsValid(f, s, es[0]);
      Run(f, Step(f, s, es[0]), es[1..])
  }

  function Count(b: bool): nat { if b then 1 else 0 }

  predicate Safe(s: State) {
    && s.discarded == 0
    && |s.toCore0| + Count(s.core.Answer?) + Count(s.isr.Deliver?) + Count(s.sem) <= 1
    && |s.toCore1| <= 2
    && s.results <= s.served && |s.served| <= |s.results| + 1
    && Names(s.served) <= s.issued
    && (s.client == Idle ==> s.results == s.served && Names(s.results) == s.issued)
  }

  lemma ProtocolIsSafe(f: Floats, s: State)
    requires Protocol(f, s)
    ensures Safe(s)
  {
    if s.client != Idle && s.served != s.results {
      var w := if s.core.Answer? then s.core.w else if s.toCore0 != [] then s.toCore0[0]
               else if s.isr.Deliver? then s.isr.w else s.lastReply;
      assert s.served == s.results + [(s.request, w)];
      assert Names(s.served) == Names(s.results) + [s.request];
    }
  }

  lemma InitValid(f: Floats)
    ensures Valid(f, Init())
  {
  }

  /** Safety of every run: no word is ever discarded and at most one reply word is in flight, requests never
      meet a full FIFO, core1 serves exactly the requests issued, in order, and whenever the client is idle
      every round trip has returned the reply core1 gave to that very request. */
  lemma RoundTripSafety(f: Floats, es: seq<Event>)
    requires forall e :: e in es ==> Allowed(e)
    ensures Valid(f, Init()) && Safe(Run(f, Init(), es))
  {
    InitValid(f);
    ProtocolIsSafe(f, Run(f, Init(), es));
  }

  /** The step that completes a round trip returns the reply to its own request, and what it says holds. */
  lemma RoundTripReturns(f: Floats, s: State)
    requires Valid(f, s) && s.client == Reading
    ensures var s' := Step(f, s, Client);
            && s'.client == Idle
            && s'.results == s.results + [(s.request, s.lastReply)] == s.served
            && InForce(f, s', s.lastReply)
  {
  }

  /** From the shell to the motor: when the shell was told that a move is accepted, then once core1 is idle and
      the pipeline has drained the motor has made exactly the steps asked for, unless it was stopped; and if no
      setting was changed on the way, with exactly the planned words. */
  lemma MoveIsCarriedOut(f: Floats, es: seq<Event>, r: Request)
    requires forall e :: e in es ==> Allowed(e)
    requires Valid(f, Init())
    requires r.op == CMD_MOVE && r.payload.Some? && r.payload.value != 0
    requires var s := Run(f, Init(), es);
             && s.client == Idle && s.results != [] && s.results[|s.results| - 1] == (r, ACK_OK)
             && !s.pipe.motion.moving && Pipeline.Drained(s.pipe) && !s.pipe.stopped
    ensures var p := Run(f, Init(), es).pipe;
            && |p.pulses| == p.base + Pipeline.Abs(ToInt32(r.payload.value))
            && (p.calm ==> p.pulses[p.base..] == p.plan)
  {
    var s := Run(f, Init(), es);
    Pipeline.DrainedMove(s.pipe);
  }

  function Interrupts(s: State, n: nat): State
    decreases n
  {
    if n == 0 then s else Interrupts(IsrStep(s), n - 1)
  }

  lemma {:induction false} DrainDiscards(s: State)
    requires s.isr == Drain
    ensures var s' := Interrupts(s, |s.toCore0| + 1);
            s' == s.(isr := Off, toCore0 := [], discarded := s.discarded + |s.toCore0|)
    decreases |s.toCore0|
  {
    if s.toCore0 != [] {
      DrainDiscards(IsrStep(s));
    } else {
      assert Interrupts(IsrStep(s), 0) == IsrStep(s);
    }
  }

  /** Why every request gets one word: of a burst the interrupt delivers the first word and loses all others. */
  lemma BurstKeepsOnlyFirst(s: State)
    requires s.isr == Off && s.toCore0 != []
    ensures var s' := Interrupts(s, |s.toCore0| + 2);
            s'.lastReply == s.toCore0[0] && s'.sem && s'.toCore0 == [] && s'.discarded == s.discarded + |s.toCore0| - 1
  {
    var s2 := IsrStep(IsrStep(s));
    assert Interrupts(s, |s.toCore0| + 2) == Interrupts(IsrStep(s), |s.toCore0| + 1);
    DrainDiscards(s2);
  }

  // ---------- Progress ----------

  /** Rounds of core1's feed loop that a move can still ask for. */
  function FeedsLeft(m: Motion): nat {
    if m.moving && m.remaining >= 0 then m.remaining + 1 else 0
  }

  /** Steps of core1 before it reads the opcode that is waiting for it. */
  function ToPoll(s: State): nat {
    match s.core
    case Top => FeedsLeft(s.pipe.motion) + 3
    case Feeding => FeedsLeft(s.pipe.motion) + 2
    case _ => 1
  }

  function Measure(s: State): nat {
    match Progress(s)
    case Unread =>
      if s.client == SendOp then FeedsLeft(s.pipe.motion) + 15 else 10 + ToPoll(s) + Count(s.client == SendPayload)
    case OpRead => 9 + Count(s.client == SendPayload)
    case AtCore1 => 8
    case Queued => 7
    case InIsr => 6
    case Draining => 5
    case Given => 4
    case Taken => 3
  }

  /** The party whose next step brings the outstanding round trip forward. */
  function Helper(s: State): Event {
    match Progress(s)
    case Unread => if s.client == SendOp then Client else Core1
    case OpRead => if s.toCore1 == [] then Client else Core1
    case AtCore1 => Core1
    case Queued => Isr
    case InIsr => Isr
    case Draining => Isr
    case Given => Client
    case Taken => Client
  }

  predicate Done(s: State, s': State) {
    && s'.client == Idle && |s'.results| == |s.results| + 1
    && s'.results == s'.served && s'.results[|s.results|].0 == s.request
  }

  /** No step sets an outstanding round trip back, and its helper's step always brings it forward. */
  lemma StepProgress(f: Floats, s: State, e: Event)
    requires Valid(f, s) && !e.Start? && s.client != Idle
    ensures var s' := Step(f, s, e);
            || Done(s, s')
            || (s'.client != Idle && s'.request == s.request && s'.results == s.results
                && (|| Measure(s') < Measure(s)
                    || (e != Helper(s) && Measure(s') == Measure(s) && Helper(s') == Helper(s))))
  {
    match e
    case Core1 => CoreProgress(f, s);
    case _ =>
  }

  predicate Forward(s: State, s': State) {
    && s'.client == s.client && s'.request == s.request && s'.results == s.results
    && (Measure(s') < Measure(s) || (Helper(s) != Core1 && Measure(s') == Measure(s) && Helper(s') == Helper(s)))
  }

  lemma FeedsRunOut(f: Floats, s: State)
    requires s.core == Feeding && s.pipe.motion.settings.decel > 0.0
    ensures var s' := CoreStep(f, s);
            && s' == s.(core := s'.core, pipe := s'.pipe) && Looping(s'.core)
            && FeedsLeft(s'.pipe.motion) <= FeedsLeft(s.pipe.motion)
            && ToPoll(s') < ToPoll(s)
  {
  }

  /** core1's feed loop reaches a full FIFO or the end of the move, and then it polls. */
  lemma LoopProgress(f: Floats, s: State)
    requires Protocol(f, s) && s.client != Idle && s.pipe.motion.settings.decel > 0.0
    requires s.core == Top || s.core == Feeding || (s.core == Poll && s.toCore1 == [])
    ensures Forward(s, CoreStep(f, s))
  {
    var s' := CoreStep(f, s);
    if s.core == Feeding {
      FeedsRunOut(f, s);
    }
    assert s' == s.(core := s'.core, pipe := s'.pipe) && Looping(s'.core);
    assert Progress(s') == Progress(s);
  }

  lemma CoreProgress(f: Floats, s: State)
    requires Protocol(f, s) && s.client != Idle && s.pipe.motion.settings.decel > 0.0
    ensures Forward(s, CoreStep(f, s))
  {
    if Looping(s.core) && (s.core == Poll ==> s.toCore1 == []) {
      LoopProgress(f, s);
    } else if s.core == Poll && HasPayload(s.toCore1[0]) {
      assert Measure(CoreStep(f, s)) <= 10;
    } else if s.core.Answer? {
      assert Progress(CoreStep(f, s)) == Queued;
    } else if s.toCore1 != [] {
      assert s.client == Waiting;
      assert Progress(CoreStep(f, s)) == AtCore1;
    } else {
      assert CoreStep(f, s) == s;
    }
  }

  predicate NoStart(es: seq<Event>) {
    forall e :: e in es ==> !e.Start?
  }

  lemma {:induction false} IdleStays(f: Floats, s: State, es: seq<Event>)
    requires Valid(f, s) && NoStart(es) && s.client == Idle
    ensures var s' := Run(f, s, es); s'.client == Idle && s'.results == s.results
    decreases |es|
  {
    if es != [] {
      StepKeepsValid(f, s, es[0]);
      IdleStays(f, Step(f, s, es[0]), es[1..]);
    }
  }

  lemma {:induction false} StretchProgress(f: Floats, s: State, es: seq<Event>)
    requires Valid(f, s) && NoStart(es) && s.client != Idle
    ensures var s' := Run(f, s, es);
            || Done(s, s')
            || (s'.client != Idle && s'.request == s.request && s'.results == s.results
                && Measure(s') <= Measure(s) && (Helper(s) in es ==> Measure(s') < Measure(s))
                && (Measure(s') == Measure(s) ==> Helper(s') == Helper(s)))
    decreases |es|
  {
    if es != [] {
      StepKeepsValid(f, s, es[0]);
      StepProgress(f, s, es[0]);
      var s1 := Step(f, s, es[0]);
      if s1.client == Idle {
        IdleStays(f, s1, es[1..]);
      } else {
        StretchProgress(f, s1, es[1..]);
      }
    }
  }

  /** A fair round lets every party move at least once, in any order and as often as it likes. */
  predicate Fair(es: seq<Event>) {
    NoStart(es) && Client in es && Isr in es && Core1 in es
  }

  predicate AllFair(rounds: seq<seq<Event>>) {
    forall i :: 0 <= i < |rounds| ==> Fair(rounds[i])
  }

  predicate AllAllowed(rounds: seq<seq<Event>>) {
    forall i, e :: 0 <= i < |rounds| && e in rounds[i] ==> Allowed(e)
  }

  function RunRounds(f: Floats, s: State, rounds: seq<seq<Event>>): State
    requires Valid(f, s) && AllAllowed(rounds)
    ensures Valid(f, RunRounds(f, s, rounds))
    decreases |rounds|
  {
    if rounds == [] then s else RunRounds(f, Run(f, s, rounds[0]), rounds[1..])
  }

  lemma {:induction false} IdleStaysRounds(f: Floats, s: State, rounds: seq<seq<Event>>)
    requires Valid(f, s) && s.client == Idle && AllFair(rounds)
    ensures var s' := RunRounds(f, s, rounds); s'.client == Idle && s'.results == s.results
    decreases |rounds|
  {
    if rounds != [] {
      IdleStays(f, s, rounds[0]);
      IdleStaysRounds(f, Run(f, s, rounds[0]), rounds[1..]);
    }
  }

  /** Every round trip that was started completes, within as many fair rounds as its measure says. */
  lemma {:induction false} RoundTripCompletes(f: Floats, s: State, rounds: seq<seq<Event>>)
    requires Valid(f, s) && s.client != Idle
    requires AllFair(rounds)
    requires |rounds| >= Measure(s)
    ensures Done(s, RunRounds(f, s, rounds))
    decreases |rounds|
  {
    StretchProgress(f, s, rounds[0]);
    var s1 := Run(f, s, rounds[0]);
    if s1.client == Idle {
      IdleStaysRounds(f, s1, rounds[1..]);
    } else {
      RoundTripCompletes(f, s1, rounds[1..]);
    }
  }

  /** The measure is bounded by the steps the current move has left. */
  lemma MeasureBound(f: Floats, s: State)
    requires Valid(f, s)
    ensures Measure(s) <= FeedsLeft(s.pipe.motion) + 15
  {
  }
}
