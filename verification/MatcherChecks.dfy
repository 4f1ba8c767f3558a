/** What one check does, case by case, and that checks empty the hardware queue. */
module MatcherChecks {
  import opened Wrappers
  import opened PtpHeader
  import opened SlotTable
  import opened Matcher
  import opened MatcherTheorems
  import opened MatcherFates

  /** Filed under `k`, and its deadline is not reached at `now`. */
  predicate Live<T>(slot: Slot<T>, k: Key, now: int) {
    slot.Held? && slot.key == k && now < slot.deadline
  }

  predicate NoneLive<T>(table: seq<Slot<T>>, k: Key, now: int) {
    forall i :: 0 <= i < |table| ==> !Live(table[i], k, now)
  }

  predicate FirstLive<T>(table: seq<Slot<T>>, i: nat, k: Key, now: int) {
    && i < |table| && Live(table[i], k, now)
    && forall j :: 0 <= j < i ==> !Live(table[j], k, now)
  }

  lemma FindAfterExpiry<T>(table: seq<Slot<T>>, left: seq<Slot<T>>, k: Key, now: int)
    requires Expired(table, left, now, 0)
    ensures var i := FindKey(left, k, 0);
            if i < |table| then FirstLive(table, i, k, now) && left[i] == table[i] else NoneLive(table, k, now)
  {
    var i := FindKey(left, k, 0);
    forall j | 0 <= j < |table|
      ensures HasKey(left[j], k) <==> Live(table[j], k, now)
    {
    }
  }

  /** A capture is stamped on packet `p`, and nothing else is stamped. */
  predicate StampsOne(s: State, r: State, p: nat, cap: Capture) {
    r.stamps == s.stamps + [Stamp(p, cap)]
  }

  /** A frame left without its capture: held for two seconds if it is one the hardware timestamps, else in no slot. */
  ghost predicate LeftWaiting(r: State, p: nat, k: Key, now: int) {
    if k.msgType in {0, 1, 2, 3} then exists j :: 0 <= j < |r.pending| && r.pending[j] == Held(p, k, now + 2000)
    else forall j :: 0 <= j < |r.pending| && r.pending[j].Held? ==> r.pending[j].item != p
  }

  /** A capture left without its frame: held for two seconds. */
  ghost predicate LeftUnclaimed(r: State, cap: Capture, now: int) {
    exists i :: 0 <= i < |r.unclaimed| && r.unclaimed[i] == Held(cap, cap.key, now + 2000)
  }

  /** The capture at the head of the queue, of another frame than the one checked, is drained: stamped on the first
      packet pending under its key, or held for its frame. */
  ghost predicate HeadIsTaken(s: State, r: State, cap: Capture, t: Turn) {
    if NoneLive(s.pending, cap.key, t.expire) then r.stamps == s.stamps && LeftUnclaimed(r, cap, t.stash)
    else exists j: nat :: FirstLive(s.pending, j, cap.key, t.expire) && StampsOne(s, r, s.pending[j].item, cap)
  }

  /** The four ways a check can go, for packet `p` with key `k`. */
  ghost predicate Outcome(s: State, r: State, p: nat, k: Key, t: Turn) {
    if !NoneLive(s.unclaimed, k, t.expire) then
      r.queue == s.queue
      && exists i: nat :: FirstLive(s.unclaimed, i, k, t.expire) && StampsOne(s, r, p, s.unclaimed[i].item)
                          && i < |r.unclaimed| && r.unclaimed[i].Free?
    else if s.queue == [] || !t.readable then
      r.queue == s.queue && r.stamps == s.stamps && LeftWaiting(r, p, k, t.hold)
    else if s.queue[0].key == k then
      r.queue == s.queue[1..] && StampsOne(s, r, p, s.queue[0])
    else
      r.queue == s.queue[1..] && HeadIsTaken(s, r, s.queue[0], t) && LeftWaiting(r, p, k, t.hold)
  }

  lemma EnqueueOutcome(s: State, p: nat, k: Key, now: int)
    requires Sized(s) && forall j :: 0 <= j < |s.pending| && s.pending[j].Held? ==> s.pending[j].item != p
    ensures var r := Enqueue(s, p, k, now);
            r.queue == s.queue && r.stamps == s.stamps && r.unclaimed == s.unclaimed && LeftWaiting(r, p, k, now)
  {
    var r := Enqueue(s, p, k, now);
    if Timestamped(k) {
      var i := FindFree(s.pending, 0);
      var j := if i < SLOTS then i else Soonest(s.pending, 0, 1);
      assert r.pending[j] == Held(p, k, now + 2000);
    }
  }

  lemma StashOutcome(s: State, now: int)
    requires Sized(s) && s.queue != []
    ensures var r := StashSomewhere(s, now);
            && r.queue == s.queue[1..] && r.stamps == s.stamps && r.pending == s.pending
            && LeftUnclaimed(r, s.queue[0], now)
  {
    var i := FindFree(s.unclaimed, 0);
    var j := if i < SLOTS then i else Soonest(s.unclaimed, 0, 1);
    assert StashSomewhere(s, now).unclaimed[j] == Held(s.queue[0], s.queue[0].key, now + 2000);
  }

  /** Expiry frees slots and leaves queue and stamps alone. */
  predicate AfterExpiry(s: State, s1: State, now: int) {
    && s1.queue == s.queue && s1.stamps == s.stamps
    && Expired(s.pending, s1.pending, now, 0) && Expired(s.unclaimed, s1.unclaimed, now, 0)
  }

  lemma JoinOutcome(s: State, s1: State, p: nat, k: Key, t: Turn)
    requires Sized(s) && Sized(s1) && AfterExpiry(s, s1, t.expire) && s.queue != []
    requires forall j :: 0 <= j < |s1.pending| && s1.pending[j].Held? ==> s1.pending[j].item != p
    ensures var j := FindKey(s1.pending, s1.queue[0].key, 0);
            var r := Enqueue(if j < SLOTS then Match(s1, j) else StashSomewhere(s1, t.stash), p, k, t.hold);
            r.queue == s.queue[1..] && HeadIsTaken(s, r, s.queue[0], t) && LeftWaiting(r, p, k, t.hold)
  {
    var head := s1.queue[0];
    FindAfterExpiry(s.pending, s1.pending, head.key, t.expire);
    var j := FindKey(s1.pending, head.key, 0);
    if j < SLOTS {
      EnqueueOutcome(Match(s1, j), p, k, t.hold);
    } else {
      StashOutcome(s1, t.stash);
      EnqueueOutcome(StashSomewhere(s1, t.stash), p, k, t.hold);
    }
  }

  lemma CheckOutcome(s: State, p: nat, k: Key, t: Turn)
    requires Sized(s) && forall j :: 0 <= j < |s.pending| && s.pending[j].Held? ==> s.pending[j].item != p
    ensures Outcome(s, Check(s, p, k, t), p, k, t)
  {
    ExpireEffect(s, t.expire);
    var s1 := Expire(s, t.expire);
    FindAfterExpiry(s.unclaimed, s1.unclaimed, k, t.expire);
    var u := FindKey(s1.unclaimed, k, 0);
    if u < SLOTS {
    } else if s1.queue == [] || !t.readable {
      EnqueueOutcome(s1, p, k, t.hold);
    } else if s1.queue[0].key != k {
      JoinOutcome(s, s1, p, k, t);
    }
  }

  /** Every received frame recognised as PTP has one of these outcomes. */
  lemma ReceiveOutcome(s: State, frame: seq<Byte>, t: Turn, k: Key)
    requires Valid(s, -1) && Allowed(s, Receive(frame, t)) && Parse(frame) == Some(k)
    ensures Outcome(s, Next(s, Receive(frame, t)), |s.frames|, k, t)
  {
    ParseTruncated(frame);
    CheckOutcome(Arrived(s, Some(k)), |s.frames|, k, t);
  }

  /** A frame that is not recognised as PTP changes nothing in tables, queue and stamps. */
  lemma OtherFramesPass(s: State, frame: seq<Byte>, t: Turn)
    requires Valid(s, -1) && Allowed(s, Receive(frame, t)) && Parse(frame).None?
    ensures var r := Next(s, Receive(frame, t));
            r.pending == s.pending && r.unclaimed == s.unclaimed && r.queue == s.queue && r.stamps == s.stamps
  {
    ParseTruncated(frame);
  }

  // ---------- Checks empty the queue ----------

  /** A check that gets as far as the registers. */
  predicate Reaches(s: State, a: Action) {
    a.Receive? && a.t.readable && Parse(a.frame).Some? && NoneLive(s.unclaimed, Parse(a.frame).value, a.t.expire)
  }

  function Reaching(s: State, actions: seq<Action>): nat
    requires Sized(s) && RunOk(s, actions)
    decreases |actions|
  {
    if actions == [] then 0 else
      (if Reaches(s, actions[0]) then 1 else 0) + Reaching(Next(s, actions[0]), actions[1..])
  }

  /** How many captures have been drained. */
  function DrainCount(s: State): int {
    |s.events| - |s.queue|
  }

  lemma StepDrains(s: State, a: Action)
    requires Valid(s, -1) && Allowed(s, a)
    ensures var r := Next(s, a);
            && |s.events| <= |r.events|
            && DrainCount(r) >= DrainCount(s) + if Reaches(s, a) && s.queue != [] then 1 else 0
  {
    if s.events != [] {
      CaptureFates(s, a, |s.events| - 1);
    }
    if a.Receive? {
      ParseTruncated(a.frame);
      if Parse(a.frame).Some? {
        ReceiveOutcome(s, a.frame, a.t, Parse(a.frame).value);
      }
    } else if a.NoBuffer? {
      ExpireEffect(s, a.now);
    }
  }

  lemma {:induction false} RunDrains(s: State, actions: seq<Action>)
    requires Valid(s, -1) && RunOk(s, actions)
    ensures var r := Run(s, actions);
            && |s.events| <= |r.events|
            && (DrainCount(r) >= DrainCount(s) + Reaching(s, actions) || DrainCount(r) >= |s.events|)
    decreases |actions|
  {
    if actions != [] {
      NextValid(s, actions[0]);
      StepDrains(s, actions[0]);
      RunDrains(Next(s, actions[0]), actions[1..]);
    }
  }

  /** After as many checks that reach the registers as there are captures queued, each of these has been drained:
      joined, held for its frame, or given up since. */
  lemma QueueIsDrained(s: State, actions: seq<Action>, e: nat)
    requires Valid(s, -1) && RunOk(s, actions) && Reaching(s, actions) >= |s.queue| && e < |s.events|
    ensures var r := Run(s, actions); Drained(r, e)
  {
    RunDrains(s, actions);
    RunValid(s, actions);
  }

  // ---------- What is filed stays for two seconds ----------

  /** No expiry of the step is at `d` or later, and it leaves no table full. */
  predicate Calm(s: State, a: Action, d: int)
    requires Sized(s) && Allowed(s, a)
  {
    && (a.Receive? ==> a.t.expire < d) && (a.NoBuffer? ==> a.now < d)
    && !Full(Next(s, a).pending) && !Full(Next(s, a).unclaimed)
  }

  predicate CalmRun(s: State, actions: seq<Action>, d: int)
    requires Sized(s) && RunOk(s, actions)
    decreases |actions|
  {
    actions == [] || (Calm(s, actions[0], d) && CalmRun(Next(s, actions[0]), actions[1..], d))
  }

  /** Packet `q` has been stamped, or it is held in slot `i`, which is `slot`. */
  predicate StampedOrHeld(s: State, q: nat, i: nat, slot: Slot<nat>) {
    && q < |s.frames| && i < |s.pending|
    && (s.frames[q].fate.Stamped? || (s.frames[q].fate == Filed(i) && s.pending[i] == slot))
  }

  predicate CaptureStampedOrHeld(s: State, e: nat, i: nat, slot: Slot<Capture>) {
    && e < |s.events| && i < |s.unclaimed|
    && (s.events[e].fate.Stamped? || (s.events[e].fate == Filed(i) && s.unclaimed[i] == slot))
  }

  lemma NothingExpires(s: State, a: Action)
    requires Sized(s) && Allowed(s, a) && !a.Receive? && !a.NoBuffer?
    ensures var r := Next(s, a);
            && r.pending == s.pending && r.unclaimed == s.unclaimed && r.frames == s.frames
            && |s.events| <= |r.events| && forall e :: 0 <= e < |s.events| ==> r.events[e] == s.events[e]
  {
  }

  lemma StepStays(s: State, a: Action, q: nat, i: nat, slot: Slot<nat>)
    requires Valid(s, -1) && Allowed(s, a) && StampedOrHeld(s, q, i, slot) && slot.Held? && Calm(s, a, slot.deadline)
    ensures StampedOrHeld(Next(s, a), q, i, slot)
  {
    if a.Receive? || a.NoBuffer? {
      FrameFates(s, a, q);
      assert Sized(Next(s, a));
    } else {
      NothingExpires(s, a);
    }
  }

  lemma CaptureStepStays(s: State, a: Action, e: nat, i: nat, slot: Slot<Capture>)
    requires Valid(s, -1) && Allowed(s, a) && CaptureStampedOrHeld(s, e, i, slot) && slot.Held?
    requires Calm(s, a, slot.deadline)
    ensures CaptureStampedOrHeld(Next(s, a), e, i, slot)
  {
    if a.Receive? || a.NoBuffer? {
      CaptureFates(s, a, e);
      assert Sized(Next(s, a));
    } else {
      NothingExpires(s, a);
    }
  }

  /** A packet held stays held, in its slot, until it is stamped, its deadline has passed or the table is full. */
  lemma {:induction false} FrameStays(s: State, actions: seq<Action>, q: nat, i: nat, slot: Slot<nat>)
    requires Valid(s, -1) && RunOk(s, actions) && slot.Held? && CalmRun(s, actions, slot.deadline)
    requires StampedOrHeld(s, q, i, slot)
    ensures StampedOrHeld(Run(s, actions), q, i, slot)
    decreases |actions|
  {
    if actions != [] {
      NextValid(s, actions[0]);
      StepStays(s, actions[0], q, i, slot);
      FrameStays(Next(s, actions[0]), actions[1..], q, i, slot);
    }
  }

  /** The same for a capture held. */
  lemma {:induction false} CaptureStays(s: State, actions: seq<Action>, e: nat, i: nat, slot: Slot<Capture>)
    requires Valid(s, -1) && RunOk(s, actions) && slot.Held? && CalmRun(s, actions, slot.deadline)
    requires CaptureStampedOrHeld(s, e, i, slot)
    ensures CaptureStampedOrHeld(Run(s, actions), e, i, slot)
    decreases |actions|
  {
    if actions != [] {
      NextValid(s, actions[0]);
      CaptureStepStays(s, actions[0], e, i, slot);
      CaptureStays(Next(s, actions[0]), actions[1..], e, i, slot);
    }
  }
}
