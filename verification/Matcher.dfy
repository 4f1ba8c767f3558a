/** Joining received PTP frames with the receive timestamps the hardware captured for them.

    Frames and captures arrive in any order. `pending` holds packets waiting for their capture,
    `unclaimed` captures waiting for their frame; both are bounded, expire, and evict the oldest. */
module Matcher {
  import opened Wrappers
  import opened PtpHeader
  import opened SlotTable

  const SLOTS := 16
  const TIMEOUT_MS := 2000

  datatype Time = Time(sec: nat, ns: nat)

  /** A captured receive event; `id` is its place in the order of capture. */
  datatype Capture = Capture(id: nat, key: Key, time: Time)

  /** Capture `cap` attached to packet `pkt`. */
  datatype Stamp = Stamp(pkt: nat, cap: Capture)

  /** What became of a frame or a capture: still under way, never to be matched, filed in a table slot,
      part of the n-th stamp, or given up by expiry or eviction. */
  datatype Fate = Open | Passed | Filed(slot: nat) | Stamped(n: nat) | Lost

  datatype Frame = Frame(key: Option<Key>, fate: Fate)
  datatype Event = Event(cap: Capture, fate: Fate)

  /** `pending`, `unclaimed`, the hardware `queue`, the packets' reference counts `refs` and the time are the
      system's; the rest is history. Packets are numbered as they are received; `others` counts the references
      that are not the matcher's. */
  datatype State = State(pending: seq<Slot<nat>>, unclaimed: seq<Slot<Capture>>, queue: seq<Capture>,
                         refs: seq<int>, clock: int, stamps: seq<Stamp>,
                         others: seq<nat>, frames: seq<Frame>, events: seq<Event>, heldAt: int)

  function Init(now: int): State {
    State(seq(SLOTS, _ => Free), seq(SLOTS, _ => Free), [], [], now, [], [], [], [], now)
  }

  predicate Sized(s: State) {
    |s.pending| == |s.unclaimed| == SLOTS
  }

  /** `lan9250_1588_msg_type_is_timestamped`: Sync, Delay_Req, Pdelay_Req, Pdelay_Resp. */
  predicate Timestamped(k: Key) {
    k.msgType < 4
  }

  // ---------- What the driver does to its tables ----------

  function Add(refs: seq<int>, p: nat, d: int): seq<int> {
    if p < |refs| then refs[p := refs[p] + d] else refs
  }

  function FrameFate(frames: seq<Frame>, p: nat, f: Fate): seq<Frame> {
    if p < |frames| then frames[p := frames[p].(fate := f)] else frames
  }

  function EventFate(events: seq<Event>, e: nat, f: Fate): seq<Event> {
    if e < |events| then events[e := events[e].(fate := f)] else events
  }

  /** Gives up the packet in slot `i`: expiry or eviction. */
  function Drop(s: State, i: nat): State
    requires i < |s.pending| && s.pending[i].Held?
  {
    var p := s.pending[i].item;
    s.(pending := s.pending[i := Free], refs := Add(s.refs, p, -1), frames := FrameFate(s.frames, p, Lost))
  }

  /** Gives up the capture in slot `i`. */
  function Forget(s: State, i: nat): State
    requires i < |s.unclaimed| && s.unclaimed[i].Held?
  {
    s.(unclaimed := s.unclaimed[i := Free], events := EventFate(s.events, s.unclaimed[i].item.id, Lost))
  }

  /** Attaches a capture to a packet. */
  function Attach(s: State, p: nat, cap: Capture): State {
    s.(stamps := s.stamps + [Stamp(p, cap)],
    frames := FrameFate(s.frames, p, Stamped(|s.stamps|)),
    events := EventFate(s.events, cap.id, Stamped(|s.stamps|)))
  }

  /** Attaches the capture in slot `i` to packet `p`. */
  function Claim(s: State, i: nat, p: nat): State
    requires i < |s.unclaimed| && s.unclaimed[i].Held?
  {
    Attach(s.(unclaimed := s.unclaimed[i := Free]), p, s.unclaimed[i].item)
  }

  /** Attaches the capture at the head of the queue to packet `p`. */
  function StampHead(s: State, p: nat): State
    requires s.queue != []
  {
    Attach(s.(queue := s.queue[1..]), p, s.queue[0])
  }

  /** Attaches the capture at the head of the queue to the packet pending in slot `i`, and lets go of it. */
  function Match(s: State, i: nat): State
    requires s.queue != [] && i < |s.pending| && s.pending[i].Held?
  {
    var p := s.pending[i].item;
    StampHead(s.(pending := s.pending[i := Free], refs := Add(s.refs, p, -1)), p)
  }

  /** Files the capture at the head of the queue in the free slot `i`. */
  function Stash(s: State, i: nat, now: int): State
    requires s.queue != [] && i < |s.unclaimed|
  {
    var cap := s.queue[0];
    s.(unclaimed := s.unclaimed[i := Held(cap, cap.key, now + TIMEOUT_MS)], queue := s.queue[1..], clock := now,
    events := EventFate(s.events, cap.id, Filed(i)))
  }

  /** Takes a reference on packet `p` and files it in the free slot `i`. */
  function Hold(s: State, i: nat, p: nat, k: Key, now: int): State
    requires i < |s.pending|
  {
    s.(pending := s.pending[i := Held(p, k, now + TIMEOUT_MS)], refs := Add(s.refs, p, 1), clock := now, heldAt := now,
    frames := FrameFate(s.frames, p, Filed(i)))
  }

  function ExpirePending(s: State, now: int, i: nat): (r: State)
    requires Sized(s) && i <= SLOTS
    ensures Sized(r)
    decreases SLOTS - i
  {
    if i == SLOTS then s else ExpirePending(if Due(s.pending[i], now) then Drop(s, i) else s, now, i + 1)
  }

  function ExpireUnclaimed(s: State, now: int, i: nat): (r: State)
    requires Sized(s) && i <= SLOTS
    ensures Sized(r)
    decreases SLOTS - i
  {
    if i == SLOTS then s else ExpireUnclaimed(if Due(s.unclaimed[i], now) then Forget(s, i) else s, now, i + 1)
  }

  /** `lan9250_1588_rx_pending_expire`. */
  function Expire(s: State, now: int): (r: State)
    requires Sized(s)
    ensures Sized(r)
  {
    ExpireUnclaimed(ExpirePending(s.(clock := now), now, 0), now, 0)
  }

  /** Files the queue's head, evicting the capture with the soonest deadline when no slot is free. */
  function StashSomewhere(s: State, now: int): (r: State)
    requires Sized(s) && s.queue != []
    ensures Sized(r)
  {
    var i := FindFree(s.unclaimed, 0);
    if i < SLOTS then Stash(s, i, now)
    else
      var j := Soonest(s.unclaimed, 0, 1);
      Stash(Forget(s, j), j, now)
  }

  /** The end of the check: a timestamped frame without a capture is held. */
  function Enqueue(s: State, p: nat, k: Key, now: int): (r: State)
    requires Sized(s)
    ensures Sized(r)
  {
    if !Timestamped(k) then s.(frames := FrameFate(s.frames, p, Passed)) else
      var i := FindFree(s.pending, 0);
      if i < SLOTS then Hold(s, i, p, k, now)
      else
        var j := Soonest(s.pending, 0, 1);
        Hold(Drop(s, j), j, p, k, now)
  }

  /** One check's circumstances: its three readings of the uptime clock, and whether its transfers reach the
      capture's registers: a bank select or register read that fails leaves the capture in the queue. */
  datatype Turn = Turn(expire: int, stash: int, hold: int, readable: bool)

  /** A check once expiry has run. */
  function CheckRest(s: State, p: nat, k: Key, t: Turn): (r: State)
    requires Sized(s)
    ensures Sized(r)
  {
    var u := FindKey(s.unclaimed, k, 0);
    if u < SLOTS then Claim(s, u, p)
    else if s.queue == [] || !t.readable then Enqueue(s, p, k, t.hold)
    else if s.queue[0].key == k then StampHead(s, p)
    else
      var j := FindKey(s.pending, s.queue[0].key, 0);
      Enqueue(if j < SLOTS then Match(s, j) else StashSomewhere(s, t.stash), p, k, t.hold)
  }

  /** `lan9250_1588_rx_timestamp_check` for packet `p`, recognised as PTP with key `k`. */
  function Check(s: State, p: nat, k: Key, t: Turn): (r: State)
    requires Sized(s)
    ensures Sized(r)
  {
    CheckRest(Expire(s, t.expire), p, k, t)
  }

  // ---------- Runs ----------

  /** A frame is received into a new packet; an allocation fails; the hardware captures an event;
      the network stack takes or releases a reference. */
  datatype Action = Receive(frame: seq<Byte>, t: Turn) | NoBuffer(now: int) | Capturing(key: Key, time: Time)
                  | Retain(p: nat) | Release(p: nat)

  predicate Allowed(s: State, a: Action) {
    match a
    case Receive(_, t) => s.clock <= t.expire <= t.stash <= t.hold
    case NoBuffer(now) => s.clock <= now
    case Capturing(_, _) => true
    case Retain(p) => p < |s.others| && s.others[p] > 0
    case Release(p) => p < |s.others| && s.others[p] > 0
  }

  function Arrived(s: State, key: Option<Key>): State {
    s.(refs := s.refs + [1], others := s.others + [1],
    frames := s.frames + [Frame(key, if key.Some? then Open else Passed)])
  }

  function Next(s: State, a: Action): (r: State)
    requires Sized(s) && Allowed(s, a)
    ensures Sized(r)
  {
    match a
    case Receive(frame, t) =>
      var key := Parse(Truncated(frame));
      var s' := Arrived(s, key);
      if key.None? then s' else Check(s', |s.frames|, key.value, t)
    case NoBuffer(now) => Expire(s, now)
    case Capturing(key, time) =>
      var cap := Capture(|s.events|, key, time);
      s.(queue := s.queue + [cap], events := s.events + [Event(cap, Open)])
    case Retain(p) => s.(refs := Add(s.refs, p, 1), others := s.others[p := s.others[p] + 1])
    case Release(p) => s.(refs := Add(s.refs, p, -1), others := s.others[p := s.others[p] - 1])
  }

  // ---------- The invariant ----------

  /** Frame ledger and `pending` describe each other; only packet `hand` is under way. */
  predicate FramesOk(frames: seq<Frame>, pending: seq<Slot<nat>>, hand: int) {
    && (forall q :: 0 <= q < |frames| ==>
          match frames[q].fate
          case Open => q == hand
          case Passed => frames[q].key.None? || !Timestamped(frames[q].key.value)
          case Filed(i) => i < |pending| && pending[i].Held? && pending[i].item == q
          case _ => true)
    && (forall i :: 0 <= i < |pending| && pending[i].Held? ==>
          pending[i].item < |frames| && frames[pending[i].item] == Frame(Some(pending[i].key), Filed(i)))
    && (forall i :: 0 <= i < |pending| && pending[i].Held? ==> Timestamped(pending[i].key))
    && (hand >= 0 ==> hand < |frames| && frames[hand].fate == Open && frames[hand].key.Some?)
  }

  /** Event ledger, hardware queue and `unclaimed` describe each other. */
  predicate EventsOk(events: seq<Event>, unclaimed: seq<Slot<Capture>>, queue: seq<Capture>) {
    && |queue| <= |events|
    && (forall e :: 0 <= e < |events| ==> events[e].cap.id == e)
    && (forall e :: 0 <= e < |events| ==> (events[e].fate == Open <==> e >= |events| - |queue|))
    && (forall e :: 0 <= e < |events| ==> events[e].fate != Passed)
    && (forall j :: 0 <= j < |queue| ==> queue[j] == events[|events| - |queue| + j].cap)
    && (forall e :: 0 <= e < |events| && events[e].fate.Filed? ==>
          var i := events[e].fate.slot; i < |unclaimed| && unclaimed[i].Held? && unclaimed[i].item.id == e)
    && (forall i :: 0 <= i < |unclaimed| && unclaimed[i].Held? ==>
          unclaimed[i].item.id < |events| && events[unclaimed[i].item.id] == Event(unclaimed[i].item, Filed(i)))
    && (forall i :: 0 <= i < |unclaimed| && unclaimed[i].Held? ==> unclaimed[i].key == unclaimed[i].item.key)
  }

  predicate StampedFrames(stamps: seq<Stamp>, frames: seq<Frame>) {
    forall n :: 0 <= n < |stamps| ==>
                  stamps[n].pkt < |frames| && frames[stamps[n].pkt] == Frame(Some(stamps[n].cap.key), Stamped(n))
  }

  predicate StampedEvents(stamps: seq<Stamp>, events: seq<Event>) {
    forall n :: 0 <= n < |stamps| ==>
                  stamps[n].cap.id < |events| && events[stamps[n].cap.id] == Event(stamps[n].cap, Stamped(n))
  }

  predicate KnownFrames(stamps: seq<Stamp>, frames: seq<Frame>) {
    forall q :: 0 <= q < |frames| && frames[q].fate.Stamped? ==>
                  frames[q].fate.n < |stamps| && stamps[frames[q].fate.n].pkt == q
  }

  predicate KnownEvents(stamps: seq<Stamp>, events: seq<Event>) {
    forall e :: 0 <= e < |events| && events[e].fate.Stamped? ==>
                  events[e].fate.n < |stamps| && stamps[events[e].fate.n].cap.id == e
  }

  /** Every stamp joins a frame and a capture with the same key, and each of them knows its one stamp. */
  predicate StampsOk(stamps: seq<Stamp>, frames: seq<Frame>, events: seq<Event>) {
    && StampedFrames(stamps, frames) && StampedEvents(stamps, events)
    && KnownFrames(stamps, frames) && KnownEvents(stamps, events)
  }

  /** No key is live in both tables. */
  predicate Exclusive(pending: seq<Slot<nat>>, unclaimed: seq<Slot<Capture>>) {
    forall i, j :: 0 <= i < |pending| && 0 <= j < |unclaimed| && pending[i].Held? && unclaimed[j].Held? ==>
                     pending[i].key != unclaimed[j].key
  }

  /** A packet's references are those of others and one if it is filed. */
  predicate RefsOk(refs: seq<int>, others: seq<nat>, frames: seq<Frame>) {
    && |refs| == |others| == |frames|
    && forall q :: 0 <= q < |refs| ==> refs[q] == others[q] + if frames[q].fate.Filed? then 1 else 0
  }

  /** `hand` is the packet being checked, -1 between checks. */
  predicate Inv(s: State, hand: int) {
    && Sized(s)
    && FramesOk(s.frames, s.pending, hand)
    && EventsOk(s.events, s.unclaimed, s.queue)
    && StampsOk(s.stamps, s.frames, s.events)
    && Exclusive(s.pending, s.unclaimed)
    && RefsOk(s.refs, s.others, s.frames)
  }

  lemma DropKeeps(s: State, i: nat, hand: int)
    requires Inv(s, hand) && i < SLOTS && s.pending[i].Held?
    ensures Inv(Drop(s, i), hand)
  {
  }

  lemma ForgetKeeps(s: State, i: nat, hand: int)
    requires Inv(s, hand) && i < SLOTS && s.unclaimed[i].Held?
    ensures Inv(Forget(s, i), hand)
  {
  }

  lemma AttachKeepsFrameSide(stamps: seq<Stamp>, frames: seq<Frame>, p: nat, cap: Capture)
    requires StampedFrames(stamps, frames) && KnownFrames(stamps, frames)
    requires p < |frames| && !frames[p].fate.Stamped? && frames[p].key == Some(cap.key)
    ensures var r := FrameFate(frames, p, Stamped(|stamps|));
            StampedFrames(stamps + [Stamp(p, cap)], r) && KnownFrames(stamps + [Stamp(p, cap)], r)
  {
  }

  lemma AttachKeepsEventSide(stamps: seq<Stamp>, events: seq<Event>, p: nat, cap: Capture)
    requires StampedEvents(stamps, events) && KnownEvents(stamps, events)
    requires cap.id < |events| && !events[cap.id].fate.Stamped? && events[cap.id].cap == cap
    ensures var r := EventFate(events, cap.id, Stamped(|stamps|));
            StampedEvents(stamps + [Stamp(p, cap)], r) && KnownEvents(stamps + [Stamp(p, cap)], r)
  {
  }

  /** A new stamp joins a frame and a capture that had none. */
  lemma AttachKeepsStamps(s: State, p: nat, cap: Capture)
    requires StampsOk(s.stamps, s.frames, s.events)
    requires p < |s.frames| && !s.frames[p].fate.Stamped? && s.frames[p].key == Some(cap.key)
    requires cap.id < |s.events| && !s.events[cap.id].fate.Stamped? && s.events[cap.id].cap == cap
    ensures var r := Attach(s, p, cap); StampsOk(r.stamps, r.frames, r.events)
  {
    AttachKeepsFrameSide(s.stamps, s.frames, p, cap);
    AttachKeepsEventSide(s.stamps, s.events, p, cap);
  }

  lemma AttachKeepsFrames(s: State, p: nat, cap: Capture)
    requires FramesOk(s.frames, s.pending, p)
    ensures FramesOk(Attach(s, p, cap).frames, s.pending, -1)
  {
  }

  lemma PopKeepsEvents(s: State, f: Fate)
    requires EventsOk(s.events, s.unclaimed, s.queue) && s.queue != [] && (f.Stamped? || f.Lost?)
    ensures EventsOk(EventFate(s.events, s.queue[0].id, f), s.unclaimed, s.queue[1..])
    ensures s.queue[0].id < |s.events| && s.events[s.queue[0].id] == Event(s.queue[0], Open)
  {
    assert s.queue[0] == s.events[|s.events| - |s.queue|].cap;
  }

  lemma FreeKeepsEvents(s: State, i: nat, f: Fate)
    requires EventsOk(s.events, s.unclaimed, s.queue) && i < |s.unclaimed| && s.unclaimed[i].Held?
    requires f.Stamped? || f.Lost?
    ensures EventsOk(EventFate(s.events, s.unclaimed[i].item.id, f), s.unclaimed[i := Free], s.queue)
  {
  }

  lemma ClaimKeeps(s: State, i: nat, p: nat)
    requires Inv(s, p) && i < SLOTS && s.unclaimed[i].Held? && s.frames[p].key == Some(s.unclaimed[i].key)
    ensures Inv(Claim(s, i, p), -1)
  {
    var s1, cap := s.(unclaimed := s.unclaimed[i := Free]), s.unclaimed[i].item;
    AttachKeepsStamps(s1, p, cap);
    AttachKeepsFrames(s1, p, cap);
    FreeKeepsEvents(s, i, Stamped(|s.stamps|));
  }

  lemma StampHeadKeeps(s: State, p: nat)
    requires Inv(s, p) && s.queue != [] && s.frames[p].key == Some(s.queue[0].key)
    ensures Inv(StampHead(s, p), -1)
  {
    var s1, cap := s.(queue := s.queue[1..]), s.queue[0];
    PopKeepsEvents(s, Stamped(|s.stamps|));
    AttachKeepsStamps(s1, p, cap);
    AttachKeepsFrames(s1, p, cap);
  }

  lemma MatchKeeps(s: State, i: nat, hand: int)
    requires Inv(s, hand) && s.queue != [] && i < SLOTS && HasKey(s.pending[i], s.queue[0].key)
    ensures Inv(Match(s, i), hand)
  {
    var p, cap := s.pending[i].item, s.queue[0];
    PopKeepsEvents(s, Stamped(|s.stamps|));
    AttachKeepsStamps(s, p, cap);
    MatchKeepsFrames(s, i, hand);
  }

  lemma MatchKeepsFrames(s: State, i: nat, hand: int)
    requires Inv(s, hand) && s.queue != [] && i < SLOTS && s.pending[i].Held?
    ensures var r := Match(s, i); FramesOk(r.frames, r.pending, hand) && RefsOk(r.refs, r.others, r.frames)
  {
  }

  lemma StashKeepsEvents(s: State, i: nat, now: int)
    requires EventsOk(s.events, s.unclaimed, s.queue) && s.queue != [] && i < |s.unclaimed| && s.unclaimed[i].Free?
    ensures var r := Stash(s, i, now); EventsOk(r.events, r.unclaimed, r.queue)
    ensures s.queue[0].id < |s.events| && s.events[s.queue[0].id] == Event(s.queue[0], Open)
  {
    assert s.queue[0] == s.events[|s.events| - |s.queue|].cap;
  }

  lemma StashKeeps(s: State, i: nat, now: int, hand: int)
    requires Inv(s, hand) && s.queue != [] && i < SLOTS && s.unclaimed[i].Free?
    requires Absent(s.pending, s.queue[0].key)
    ensures Inv(Stash(s, i, now), hand)
  {
    StashKeepsEvents(s, i, now);
  }

  lemma HoldKeeps(s: State, i: nat, p: nat, k: Key, now: int)
    requires Inv(s, p) && i < SLOTS && s.pending[i].Free? && s.frames[p].key == Some(k) && Timestamped(k)
    requires Absent(s.unclaimed, k)
    ensures Inv(Hold(s, i, p, k, now), -1)
  {
  }

  lemma {:induction false} ExpirePendingKeeps(s: State, now: int, i: nat, hand: int)
    requires Inv(s, hand) && i <= SLOTS
    ensures Inv(ExpirePending(s, now, i), hand)
    decreases SLOTS - i
  {
    if i < SLOTS {
      if Due(s.pending[i], now) {
        DropKeeps(s, i, hand);
        ExpirePendingKeeps(Drop(s, i), now, i + 1, hand);
      } else {
        ExpirePendingKeeps(s, now, i + 1, hand);
      }
    }
  }

  lemma {:induction false} ExpirePendingEffect(s: State, now: int, i: nat)
    requires Sized(s) && i <= SLOTS
    ensures var r := ExpirePending(s, now, i);
            && r == s.(pending := r.pending, refs := r.refs, frames := r.frames)
            && SameKeys(s.frames, r.frames) && Expired(s.pending, r.pending, now, i)
    decreases SLOTS - i
  {
    if i < SLOTS {
      ExpirePendingEffect(if Due(s.pending[i], now) then Drop(s, i) else s, now, i + 1);
    }
  }

  predicate SameKeys(frames: seq<Frame>, frames': seq<Frame>) {
    |frames| == |frames'| && forall q :: 0 <= q < |frames| ==> frames[q].key == frames'[q].key
  }

  lemma {:induction false} ExpireUnclaimedKeeps(s: State, now: int, i: nat, hand: int)
    requires Inv(s, hand) && i <= SLOTS
    ensures Inv(ExpireUnclaimed(s, now, i), hand)
    decreases SLOTS - i
  {
    if i < SLOTS {
      if Due(s.unclaimed[i], now) {
        ForgetKeeps(s, i, hand);
        ExpireUnclaimedKeeps(Forget(s, i), now, i + 1, hand);
      } else {
        ExpireUnclaimedKeeps(s, now, i + 1, hand);
      }
    }
  }

  lemma {:induction false} ExpireUnclaimedEffect(s: State, now: int, i: nat)
    requires Sized(s) && i <= SLOTS
    ensures var r := ExpireUnclaimed(s, now, i);
            r == s.(unclaimed := r.unclaimed, events := r.events) && Expired(s.unclaimed, r.unclaimed, now, i)
    decreases SLOTS - i
  {
    if i < SLOTS {
      ExpireUnclaimedEffect(if Due(s.unclaimed[i], now) then Forget(s, i) else s, now, i + 1);
    }
  }

  lemma ExpireKeeps(s: State, now: int, hand: int)
    requires Inv(s, hand)
    ensures Inv(Expire(s, now), hand)
  {
    ExpirePendingKeeps(s.(clock := now), now, 0, hand);
    ExpireUnclaimedKeeps(ExpirePending(s.(clock := now), now, 0), now, 0, hand);
  }

  /** Expiry frees exactly the slots whose deadline has passed. */
  lemma ExpireEffect(s: State, now: int)
    requires Sized(s)
    ensures var r := Expire(s, now);
            && r == s.(pending := r.pending, refs := r.refs, frames := r.frames,
                       unclaimed := r.unclaimed, events := r.events, clock := now)
            && SameKeys(s.frames, r.frames)
            && Expired(s.pending, r.pending, now, 0) && Expired(s.unclaimed, r.unclaimed, now, 0)
  {
    ExpirePendingEffect(s.(clock := now), now, 0);
    ExpireUnclaimedEffect(ExpirePending(s.(clock := now), now, 0), now, 0);
  }

  // ---------- Order of deadlines ----------

  /** No live deadline lies more than the timeout after `t`. */
  predicate Bounded<T>(table: seq<Slot<T>>, t: int) {
    forall i :: 0 <= i < |table| && table[i].Held? ==> table[i].deadline <= t + TIMEOUT_MS
  }

  /** Deadlines follow the order of arrival. */
  predicate PendingOrdered(pending: seq<Slot<nat>>) {
    forall i, j :: 0 <= i < |pending| && 0 <= j < |pending| && pending[i].Held? && pending[j].Held? ==>
                     (pending[i].item < pending[j].item ==> pending[i].deadline <= pending[j].deadline)
  }

  predicate UnclaimedOrdered(unclaimed: seq<Slot<Capture>>) {
    forall i, j :: 0 <= i < |unclaimed| && 0 <= j < |unclaimed| && unclaimed[i].Held? && unclaimed[j].Held? ==>
                     (unclaimed[i].item.id < unclaimed[j].item.id ==> unclaimed[i].deadline <= unclaimed[j].deadline)
  }

  predicate Timed(s: State) {
    && s.heldAt <= s.clock
    && Bounded(s.pending, s.heldAt) && PendingOrdered(s.pending)
    && Bounded(s.unclaimed, s.clock) && UnclaimedOrdered(s.unclaimed)
  }

  /** Slot `j` holds the oldest packet, up to packets filed in the same millisecond. */
  predicate OldestFirst(pending: seq<Slot<nat>>, j: nat)
    requires Full(pending) && j < |pending|
  {
    forall i :: 0 <= i < |pending| && i != j ==>
                  pending[j].item < pending[i].item || pending[j].deadline == pending[i].deadline
  }

  predicate OldestCaptureFirst(unclaimed: seq<Slot<Capture>>, j: nat)
    requires Full(unclaimed) && j < |unclaimed|
  {
    forall i :: 0 <= i < |unclaimed| && i != j ==>
                  unclaimed[j].item.id < unclaimed[i].item.id || unclaimed[j].deadline == unclaimed[i].deadline
  }

  /** Evicting the soonest deadline evicts the oldest packet. */
  lemma EvictionIsOldest(s: State, hand: int)
    requires Inv(s, hand) && Timed(s) && Full(s.pending)
    ensures OldestFirst(s.pending, Soonest(s.pending, 0, 1))
  {
    forall i, j | 0 <= i < j < SLOTS
      ensures s.pending[i].item != s.pending[j].item
    {
      assert s.frames[s.pending[i].item].fate == Filed(i);
      assert s.frames[s.pending[j].item].fate == Filed(j);
    }
  }

  lemma UnclaimedEvictionIsOldest(s: State, hand: int)
    requires Inv(s, hand) && Timed(s) && Full(s.unclaimed)
    ensures OldestCaptureFirst(s.unclaimed, Soonest(s.unclaimed, 0, 1))
  {
    forall i, j | 0 <= i < j < SLOTS
      ensures s.unclaimed[i].item.id != s.unclaimed[j].item.id
    {
      assert s.events[s.unclaimed[i].item.id].fate == Filed(i);
      assert s.events[s.unclaimed[j].item.id].fate == Filed(j);
    }
  }

  // ---------- Every action keeps the invariant ----------

  /** Inv and Timed together; `hand`, when there is one, is the packet received last. */
  predicate Valid(s: State, hand: int) {
    Inv(s, hand) && Timed(s) && (hand >= 0 ==> hand == |s.frames| - 1)
  }

  lemma ExpiredKeepsTimed(s: State, r: State)
    requires Timed(s) && r.heldAt == s.heldAt && s.clock <= r.clock
    requires Expired(s.pending, r.pending, r.clock, 0) && Expired(s.unclaimed, r.unclaimed, r.clock, 0)
    ensures Timed(r)
  {
  }

  lemma ExpireValid(s: State, now: int, hand: int)
    requires Valid(s, hand) && s.clock <= now
    ensures Valid(Expire(s, now), hand)
  {
    ExpireKeeps(s, now, hand);
    ExpireEffect(s, now);
    ExpiredKeepsTimed(s, Expire(s, now));
  }

  lemma StashValid(s: State, i: nat, now: int, hand: int)
    requires Valid(s, hand) && s.queue != [] && i < SLOTS && s.unclaimed[i].Free? && s.clock <= now
    requires Absent(s.pending, s.queue[0].key)
    ensures Valid(Stash(s, i, now), hand)
  {
    StashKeeps(s, i, now, hand);
    forall j | 0 <= j < SLOTS && s.unclaimed[j].Held?
      ensures s.unclaimed[j].item.id < s.queue[0].id
    {
      assert s.events[s.unclaimed[j].item.id].fate == Filed(j);
    }
  }

  lemma ForgetValid(s: State, j: nat, hand: int)
    requires Valid(s, hand) && j < SLOTS && s.unclaimed[j].Held?
    ensures Valid(Forget(s, j), hand)
  {
    ForgetKeeps(s, j, hand);
  }

  lemma StashAbsent(s: State, i: nat, now: int, k: Key)
    requires s.queue != [] && i < |s.unclaimed| && k != s.queue[0].key && Absent(s.unclaimed, k)
    ensures Absent(Stash(s, i, now).unclaimed, k)
  {
  }

  lemma EvictAndStashValid(s: State, j: nat, now: int, hand: int, k: Key)
    requires Valid(s, hand) && s.queue != [] && s.clock <= now && j < SLOTS && s.unclaimed[j].Held?
    requires Absent(s.pending, s.queue[0].key)
    requires k != s.queue[0].key && Absent(s.unclaimed, k)
    ensures var r := Stash(Forget(s, j), j, now);
            Valid(r, hand) && r.frames == s.frames && r.clock == now && Absent(r.unclaimed, k)
  {
    ForgetValid(s, j, hand);
    StashValid(Forget(s, j), j, now, hand);
    StashAbsent(Forget(s, j), j, now, k);
  }

  lemma StashSomewhereValid(s: State, now: int, hand: int, k: Key)
    requires Valid(s, hand) && s.queue != [] && s.clock <= now
    requires Absent(s.pending, s.queue[0].key)
    requires k != s.queue[0].key && Absent(s.unclaimed, k)
    ensures var r := StashSomewhere(s, now);
            Valid(r, hand) && r.frames == s.frames && r.clock == now && Absent(r.unclaimed, k)
  {
    var i := FindFree(s.unclaimed, 0);
    if i < SLOTS {
      StashValid(s, i, now, hand);
      StashAbsent(s, i, now, k);
    } else {
      EvictAndStashValid(s, Soonest(s.unclaimed, 0, 1), now, hand, k);
    }
  }

  lemma HoldValid(s: State, i: nat, p: nat, k: Key, now: int)
    requires Valid(s, p) && i < SLOTS && s.pending[i].Free? && s.frames[p].key == Some(k) && Timestamped(k)
    requires Absent(s.unclaimed, k)
    requires s.clock <= now
    ensures Valid(Hold(s, i, p, k, now), -1)
  {
    HoldKeeps(s, i, p, k, now);
    forall j | 0 <= j < SLOTS && s.pending[j].Held?
      ensures s.pending[j].item < p
    {
      assert s.frames[s.pending[j].item].fate == Filed(j);
    }
  }

  lemma EvictAndHoldValid(s: State, j: nat, p: nat, k: Key, now: int)
    requires Valid(s, p) && j < SLOTS && s.pending[j].Held? && s.frames[p].key == Some(k) && Timestamped(k)
    requires Absent(s.unclaimed, k) && s.clock <= now
    ensures Valid(Hold(Drop(s, j), j, p, k, now), -1)
  {
    DropKeeps(s, j, p);
    assert s.frames[s.pending[j].item].fate == Filed(j);
    assert Drop(s, j).frames[p] == s.frames[p];
    HoldValid(Drop(s, j), j, p, k, now);
  }

  lemma EnqueueValid(s: State, p: nat, k: Key, now: int)
    requires Valid(s, p) && s.frames[p].key == Some(k) && s.clock <= now
    requires Absent(s.unclaimed, k)
    ensures Valid(Enqueue(s, p, k, now), -1)
  {
    if Timestamped(k) {
      var i := FindFree(s.pending, 0);
      if i < SLOTS {
        HoldValid(s, i, p, k, now);
      } else {
        EvictAndHoldValid(s, Soonest(s.pending, 0, 1), p, k, now);
      }
    } else {
      PassValid(s, p, k);
    }
  }

  lemma PassValid(s: State, p: nat, k: Key)
    requires Valid(s, p) && s.frames[p].key == Some(k) && !Timestamped(k)
    ensures Valid(s.(frames := FrameFate(s.frames, p, Passed)), -1)
  {
  }

  /** The rest of a check once expiry has run and `unclaimed` has nothing for the frame. */
  lemma JoinValid(s: State, p: nat, k: Key, t: Turn)
    requires Valid(s, p) && s.frames[p].key == Some(k) && s.queue != [] && s.queue[0].key != k
    requires Absent(s.unclaimed, k) && s.clock <= t.stash <= t.hold
    ensures var j := FindKey(s.pending, s.queue[0].key, 0);
            Valid(Enqueue(if j < SLOTS then Match(s, j) else StashSomewhere(s, t.stash), p, k, t.hold), -1)
  {
    var j := FindKey(s.pending, s.queue[0].key, 0);
    if j < SLOTS {
      MatchKeeps(s, j, p);
      assert s.frames[s.pending[j].item].fate == Filed(j);
      assert Match(s, j).frames[p] == s.frames[p];
      EnqueueValid(Match(s, j), p, k, t.hold);
    } else {
      StashSomewhereValid(s, t.stash, p, k);
      EnqueueValid(StashSomewhere(s, t.stash), p, k, t.hold);
    }
  }

  lemma ClaimValid(s: State, i: nat, p: nat)
    requires Valid(s, p) && i < SLOTS && s.unclaimed[i].Held? && s.frames[p].key == Some(s.unclaimed[i].key)
    ensures Valid(Claim(s, i, p), -1)
  {
    ClaimKeeps(s, i, p);
  }

  lemma RestValid(s: State, p: nat, k: Key, t: Turn)
    requires Valid(s, p) && s.frames[p].key == Some(k) && s.clock <= t.stash <= t.hold
    ensures Valid(CheckRest(s, p, k, t), -1)
  {
    var u := FindKey(s.unclaimed, k, 0);
    if u < SLOTS {
      ClaimValid(s, u, p);
    } else if s.queue == [] || !t.readable {
      EnqueueValid(s, p, k, t.hold);
    } else if s.queue[0].key == k {
      StampHeadKeeps(s, p);
    } else {
      JoinValid(s, p, k, t);
    }
  }

  lemma CheckValid(s: State, p: nat, k: Key, t: Turn)
    requires Valid(s, p) && s.frames[p].key == Some(k)
    requires s.clock <= t.expire <= t.stash <= t.hold
    ensures Valid(Check(s, p, k, t), -1)
  {
    ExpireValid(s, t.expire, p);
    ExpireEffect(s, t.expire);
    RestValid(Expire(s, t.expire), p, k, t);
  }

  lemma ArrivedValid(s: State, key: Option<Key>)
    requires Valid(s, -1)
    ensures Valid(Arrived(s, key), if key.Some? then |s.frames| else -1)
  {
  }

  lemma CapturingValid(s: State, key: Key, time: Time)
    requires Valid(s, -1)
    ensures Valid(Next(s, Capturing(key, time)), -1)
  {
  }

  lemma NextValid(s: State, a: Action)
    requires Valid(s, -1) && Allowed(s, a)
    ensures Valid(Next(s, a), -1)
  {
    match a
    case Receive(frame, t) =>
      var key := Parse(Truncated(frame));
      ArrivedValid(s, key);
      if key.Some? {
        CheckValid(Arrived(s, key), |s.frames|, key.value, t);
      }
    case NoBuffer(now) => ExpireValid(s, now, -1);
    case Capturing(key, time) => CapturingValid(s, key, time);
    case Retain(p) =>
    case Release(p) =>
  }
}
