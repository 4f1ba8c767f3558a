/** What a check does to a frame or a capture that was there before it: fates are final, a filed one is given up
    only when its deadline has passed or as the oldest of a full table, and each release is of one reference. */
module MatcherFates {
  import opened PtpHeader
  import opened SlotTable
  import opened Matcher

  /** Packet `q`, whose deadline was `d`, is older than those still held, or was filed in the same millisecond. */
  predicate OlderThanAll(pending: seq<Slot<nat>>, q: nat, d: int) {
    forall j :: 0 <= j < |pending| && pending[j].Held? ==> q < pending[j].item || pending[j].deadline == d
  }

  predicate CaptureOlderThanAll(unclaimed: seq<Slot<Capture>>, e: nat, d: int) {
    forall j :: 0 <= j < |unclaimed| && unclaimed[j].Held? ==> e < unclaimed[j].item.id || unclaimed[j].deadline == d
  }

  /** A frame keeps its fate, or it was filed and is now stamped, or it was filed and is given up: because its
      deadline had passed at `now`, or because it was older than all that are held now, in a full table. */
  predicate FrameMove(s: State, r: State, q: nat, now: int) {
    && q < |s.frames| && q < |r.frames|
    && var f, g := s.frames[q].fate, r.frames[q].fate;
       || (g == f && (f.Filed? && f.slot < |s.pending| ==>
                        f.slot < |r.pending| && r.pending[f.slot] == s.pending[f.slot]))
       || (&& f.Filed? && f.slot < |s.pending| && s.pending[f.slot].Held?
           && (|| g.Stamped?
               || (g == Lost && (|| Due(s.pending[f.slot], now)
                                 || (Full(r.pending) && OlderThanAll(r.pending, q, s.pending[f.slot].deadline))))))
  }

  /** The same for captures; one in the hardware queue can also be filed or stamped. */
  predicate EventMove(s: State, r: State, e: nat, now: int) {
    && e < |s.events| && e < |r.events|
    && var f, g := s.events[e].fate, r.events[e].fate;
       || (g == f && (f.Filed? && f.slot < |s.unclaimed| ==>
                        f.slot < |r.unclaimed| && r.unclaimed[f.slot] == s.unclaimed[f.slot]))
       || (f == Open && (g.Filed? || g.Stamped?))
       || (&& f.Filed? && f.slot < |s.unclaimed| && s.unclaimed[f.slot].Held?
           && (|| g.Stamped?
               || (g == Lost && (|| Due(s.unclaimed[f.slot], now)
                                 || (&& Full(r.unclaimed)
                                     && CaptureOlderThanAll(r.unclaimed, e, s.unclaimed[f.slot].deadline))))))
  }

  // ---------- Expiry ----------

  lemma {:induction false} ExpirePendingFate(s: State, now: int, i: nat, hand: int, q: nat)
    requires Inv(s, hand) && i <= SLOTS && q < |s.frames|
    ensures var r := ExpirePending(s, now, i); var f := s.frames[q].fate;
            && q < |r.frames| && r.events == s.events && r.unclaimed == s.unclaimed
            && (r.frames[q].fate == f
                || (r.frames[q].fate == Lost && f.Filed? && f.slot < SLOTS && Due(s.pending[f.slot], now)))
    decreases SLOTS - i
  {
    if i < SLOTS {
      if Due(s.pending[i], now) {
        DropKeeps(s, i, hand);
        ExpirePendingFate(Drop(s, i), now, i + 1, hand, q);
      } else {
        ExpirePendingFate(s, now, i + 1, hand, q);
      }
    }
  }

  lemma {:induction false} ExpireUnclaimedFate(s: State, now: int, i: nat, hand: int, e: nat)
    requires Inv(s, hand) && i <= SLOTS && e < |s.events|
    ensures var r := ExpireUnclaimed(s, now, i); var f := s.events[e].fate;
            && e < |r.events| && r.frames == s.frames && r.pending == s.pending
            && (r.events[e].fate == f
                || (r.events[e].fate == Lost && f.Filed? && f.slot < SLOTS && Due(s.unclaimed[f.slot], now)))
    decreases SLOTS - i
  {
    if i < SLOTS {
      if Due(s.unclaimed[i], now) {
        ForgetKeeps(s, i, hand);
        ExpireUnclaimedFate(Forget(s, i), now, i + 1, hand, e);
      } else {
        ExpireUnclaimedFate(s, now, i + 1, hand, e);
      }
    }
  }

  lemma ExpireFrameFate(s: State, now: int, hand: int, q: nat)
    requires Inv(s, hand) && q < |s.frames|
    ensures var r := Expire(s, now);
            q < |r.frames|
            && var f, g := s.frames[q].fate, r.frames[q].fate;
               g == f || (g == Lost && f.Filed? && f.slot < SLOTS && Due(s.pending[f.slot], now))
  {
    var s0 := s.(clock := now);
    ExpirePendingFate(s0, now, 0, hand, q);
    ExpirePendingKeeps(s0, now, 0, hand);
    ExpireUnclaimedEffect(ExpirePending(s0, now, 0), now, 0);
  }

  lemma ExpireEventFate(s: State, now: int, hand: int, e: nat)
    requires Inv(s, hand) && e < |s.events|
    ensures var r := Expire(s, now);
            e < |r.events|
            && var f, g := s.events[e].fate, r.events[e].fate;
               g == f || (g == Lost && f.Filed? && f.slot < SLOTS && Due(s.unclaimed[f.slot], now))
  {
    var s0 := s.(clock := now);
    ExpirePendingEffect(s0, now, 0);
    ExpirePendingKeeps(s0, now, 0, hand);
    ExpireUnclaimedFate(ExpirePending(s0, now, 0), now, 0, hand, e);
  }

  lemma PendingStays(s: State, r: State, now: int, hand: int, q: nat)
    requires FramesOk(s.frames, s.pending, hand) && FramesOk(r.frames, r.pending, hand)
    requires q < |s.frames| && q < |r.frames|
    requires Expired(s.pending, r.pending, now, 0) && s.frames[q].fate.Filed? && r.frames[q].fate == s.frames[q].fate
    ensures var i := s.frames[q].fate.slot; i < |s.pending| && s.pending[i].Held? && r.pending[i] == s.pending[i]
  {
  }

  lemma UnclaimedStays(s: State, r: State, now: int, e: nat)
    requires EventsOk(s.events, s.unclaimed, s.queue) && EventsOk(r.events, r.unclaimed, r.queue)
    requires e < |s.events| && e < |r.events|
    requires Expired(s.unclaimed, r.unclaimed, now, 0)
    requires s.events[e].fate.Filed? && r.events[e].fate == s.events[e].fate
    ensures var i := s.events[e].fate.slot;
            i < |s.unclaimed| && s.unclaimed[i].Held? && r.unclaimed[i] == s.unclaimed[i]
  {
  }

  lemma ExpireFrame(s: State, now: int, hand: int, q: nat)
    requires Inv(s, hand) && q < |s.frames|
    ensures FrameMove(s, Expire(s, now), q, now)
    ensures var f, g := s.frames[q].fate, Expire(s, now).frames[q].fate; g == f || g == Lost
  {
    ExpireFrameFate(s, now, hand, q);
    ExpireKeeps(s, now, hand);
    ExpireEffect(s, now);
    var r := Expire(s, now);
    if s.frames[q].fate.Filed? && r.frames[q].fate == s.frames[q].fate {
      PendingStays(s, r, now, hand, q);
    }
  }

  lemma ExpireEvent(s: State, now: int, hand: int, e: nat)
    requires Inv(s, hand) && e < |s.events|
    ensures EventMove(s, Expire(s, now), e, now)
    ensures var f, g := s.events[e].fate, Expire(s, now).events[e].fate; g == f || g == Lost
  {
    ExpireEventFate(s, now, hand, e);
    ExpireKeeps(s, now, hand);
    ExpireEffect(s, now);
    var r := Expire(s, now);
    if s.events[e].fate.Filed? && r.events[e].fate == s.events[e].fate {
      UnclaimedStays(s, r, now, e);
    }
  }

  // ---------- Holding and filing ----------

  lemma EnqueueSpares(s: State, p: nat, k: Key, now: int)
    requires Sized(s)
    ensures var r := Enqueue(s, p, k, now);
            && |r.frames| == |s.frames| && r.events == s.events && r.unclaimed == s.unclaimed
            && (!Full(s.pending) ==> forall q :: 0 <= q < |s.frames| && q != p ==> r.frames[q] == s.frames[q])
  {
  }

  /** Holding packet `p` gives up no earlier one but the oldest of a full table. */
  lemma EnqueueFrame(s: State, p: nat, k: Key, now: int, q: nat, due: int)
    requires Valid(s, p) && q < p
    ensures FrameMove(s, Enqueue(s, p, k, now), q, due)
  {
    EnqueueSpares(s, p, k, now);
    if Timestamped(k) && FindFree(s.pending, 0) == SLOTS {
      var j := Soonest(s.pending, 0, 1);
      EvictionIsOldest(s, p);
      assert s.frames[s.pending[j].item].fate == Filed(j);
      EvictAndHoldFrame(s, j, p, k, now, q, due);
    }
  }

  lemma EvictAndHoldFrame(s: State, j: nat, p: nat, k: Key, now: int, q: nat, due: int)
    requires Valid(s, p) && q < p && Full(s.pending) && j < SLOTS && OldestFirst(s.pending, j)
    ensures FrameMove(s, Hold(Drop(s, j), j, p, k, now), q, due)
  {
    assert s.frames[s.pending[j].item].fate == Filed(j);
  }

  /** Filing the queue's head gives up no capture but the oldest of a full table. */
  lemma StashEvent(s: State, now: int, hand: int, e: nat, due: int)
    requires Valid(s, hand) && s.queue != [] && e < |s.events|
    ensures var r := StashSomewhere(s, now);
            EventMove(s, r, e, due) && r.frames == s.frames && r.pending == s.pending
  {
    assert s.queue[0] == s.events[|s.events| - |s.queue|].cap;
    if FindFree(s.unclaimed, 0) == SLOTS {
      var j := Soonest(s.unclaimed, 0, 1);
      UnclaimedEvictionIsOldest(s, hand);
      EvictAndStashEvent(s, j, now, hand, e, due);
    }
  }

  lemma EvictAndStashEvent(s: State, j: nat, now: int, hand: int, e: nat, due: int)
    requires Valid(s, hand) && s.queue != [] && e < |s.events|
    requires Full(s.unclaimed) && j < SLOTS && OldestCaptureFirst(s.unclaimed, j)
    ensures EventMove(s, Stash(Forget(s, j), j, now), e, due)
  {
    assert s.queue[0] == s.events[|s.events| - |s.queue|].cap;
    assert s.events[s.unclaimed[j].item.id].fate == Filed(j);
  }

  lemma MatchFrame(s: State, j: nat, hand: int, q: nat)
    requires Inv(s, hand) && s.queue != [] && j < SLOTS && s.pending[j].Held? && q < |s.frames|
    ensures var r := Match(s, j);
            && |r.frames| == |s.frames| && r.pending[j].Free?
            && (r.frames[q] == s.frames[q] || (s.frames[q].fate == Filed(j) && r.frames[q].fate.Stamped?))
  {
    assert s.frames[s.pending[j].item].fate == Filed(j);
  }

  lemma StampEvent(s: State, p: nat, e: nat, due: int)
    requires EventsOk(s.events, s.unclaimed, s.queue) && s.queue != [] && e < |s.events|
    ensures EventMove(s, StampHead(s, p), e, due)
  {
    assert s.queue[0] == s.events[|s.events| - |s.queue|].cap;
  }

  // ---------- A whole check ----------

  /** The rest of a check once expiry has run and `unclaimed` has nothing for the frame. */
  lemma JoinFrame(s: State, p: nat, k: Key, t: Turn, q: nat, due: int)
    requires Valid(s, p) && s.queue != [] && s.queue[0].key != k
    requires Absent(s.unclaimed, k) && s.clock <= t.stash <= t.hold && q < p
    ensures var j := FindKey(s.pending, s.queue[0].key, 0);
            FrameMove(s, Enqueue(if j < SLOTS then Match(s, j) else StashSomewhere(s, t.stash), p, k, t.hold), q, due)
  {
    var j := FindKey(s.pending, s.queue[0].key, 0);
    if j < SLOTS {
      MatchFrame(s, j, p, q);
      EnqueueSpares(Match(s, j), p, k, t.hold);
    } else {
      var s' := StashSomewhere(s, t.stash);
      StashSomewhereValid(s, t.stash, p, k);
      assert s'.pending == s.pending;
      EnqueueFrame(s', p, k, t.hold, q, due);
    }
  }

  lemma JoinEvent(s: State, p: nat, k: Key, t: Turn, e: nat, due: int)
    requires Valid(s, p) && s.queue != [] && e < |s.events|
    ensures var j := FindKey(s.pending, s.queue[0].key, 0);
            EventMove(s, Enqueue(if j < SLOTS then Match(s, j) else StashSomewhere(s, t.stash), p, k, t.hold), e, due)
  {
    var j := FindKey(s.pending, s.queue[0].key, 0);
    if j < SLOTS {
      var x := s.pending[j].item;
      StampEvent(s.(pending := s.pending[j := Free], refs := Add(s.refs, x, -1)), x, e, due);
      EnqueueSpares(Match(s, j), p, k, t.hold);
    } else {
      StashEvent(s, t.stash, p, e, due);
      EnqueueSpares(StashSomewhere(s, t.stash), p, k, t.hold);
    }
  }

  lemma RestFrame(s: State, p: nat, k: Key, t: Turn, q: nat, due: int)
    requires Valid(s, p) && s.clock <= t.stash <= t.hold && q < p
    ensures FrameMove(s, CheckRest(s, p, k, t), q, due)
  {
    var u := FindKey(s.unclaimed, k, 0);
    if u == SLOTS && (s.queue == [] || !t.readable) {
      EnqueueFrame(s, p, k, t.hold, q, due);
    } else if u == SLOTS && s.queue[0].key != k {
      JoinFrame(s, p, k, t, q, due);
    }
  }

  lemma RestEvent(s: State, p: nat, k: Key, t: Turn, e: nat, due: int)
    requires Valid(s, p) && e < |s.events|
    ensures EventMove(s, CheckRest(s, p, k, t), e, due)
  {
    var u := FindKey(s.unclaimed, k, 0);
    if u < SLOTS {
      assert s.events[s.unclaimed[u].item.id].fate == Filed(u);
    } else if s.queue == [] || !t.readable {
      EnqueueSpares(s, p, k, t.hold);
    } else if s.queue[0].key == k {
      StampEvent(s, p, e, due);
    } else {
      JoinEvent(s, p, k, t, e, due);
    }
  }

  /** Expiry first, then the rest of the check. */
  lemma CheckFrame(s: State, p: nat, k: Key, t: Turn, q: nat)
    requires Valid(s, p) && s.clock <= t.expire <= t.stash <= t.hold && q < p
    ensures FrameMove(s, Check(s, p, k, t), q, t.expire)
  {
    ExpireValid(s, t.expire, p);
    ExpireEffect(s, t.expire);
    ExpireFrame(s, t.expire, p, q);
    RestFrame(Expire(s, t.expire), p, k, t, q, t.expire);
  }

  lemma CheckEvent(s: State, p: nat, k: Key, t: Turn, e: nat)
    requires Valid(s, p) && s.clock <= t.expire <= t.stash <= t.hold && e < |s.events|
    ensures EventMove(s, Check(s, p, k, t), e, t.expire)
  {
    ExpireValid(s, t.expire, p);
    ExpireEffect(s, t.expire);
    ExpireEvent(s, t.expire, p, e);
    RestEvent(Expire(s, t.expire), p, k, t, e, t.expire);
  }

  /** The time expiry goes by in a step. */
  function ExpiryTime(s: State, a: Action): int {
    match a
    case Receive(_, t) => t.expire
    case NoBuffer(now) => now
    case _ => s.clock
  }

  /** In every step a filed frame stays filed, is stamped, or is given up because its deadline has passed or because
      it is the oldest of a full table; any other fate of an earlier frame is final. */
  lemma FrameFates(s: State, a: Action, q: nat)
    requires Valid(s, -1) && Allowed(s, a) && q < |s.frames|
    ensures FrameMove(s, Next(s, a), q, ExpiryTime(s, a))
  {
    if a.Receive? {
      var key := Parse(Truncated(a.frame));
      ArrivedValid(s, key);
      if key.Some? {
        CheckFrame(Arrived(s, key), |s.frames|, key.value, a.t, q);
      }
    } else if a.NoBuffer? {
      ExpireFrame(s, a.now, -1, q);
    }
  }

  /** The same for captures, which leave the hardware queue only by being filed or stamped. */
  lemma CaptureFates(s: State, a: Action, e: nat)
    requires Valid(s, -1) && Allowed(s, a) && e < |s.events|
    ensures EventMove(s, Next(s, a), e, ExpiryTime(s, a))
  {
    if a.Receive? {
      var key := Parse(Truncated(a.frame));
      ArrivedValid(s, key);
      if key.Some? {
        CheckEvent(Arrived(s, key), |s.frames|, key.value, a.t, e);
      }
    } else if a.NoBuffer? {
      ExpireEvent(s, a.now, -1, e);
    }
  }
}
