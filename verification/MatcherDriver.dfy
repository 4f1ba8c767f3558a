/** The timestamp matcher as the driver runs it: two arrays of slots updated in place. */
module MatcherDriver {
  import opened PtpHeader
  import opened SlotTable
  import opened Matcher

  class RxTimestamps {
    const pending: array<Slot<nat>>
    const unclaimed: array<Slot<Capture>>
    var queue: seq<Capture>  // captures the hardware holds, oldest first
    var refs: seq<int>       // reference counts of the packets
    var clock: int           // the uptime last read
    var stamps: seq<Stamp>   // timestamps set on packets
    ghost var others: seq<nat>
    ghost var frames: seq<Frame>
    ghost var events: seq<Event>
    ghost var heldAt: int

    constructor (now: int)
      ensures Ready() && fresh(pending) && fresh(unclaimed)
      ensures St() == Init(now)
    {
      pending := new Slot<nat>[SLOTS](_ => Free);
      unclaimed := new Slot<Capture>[SLOTS](_ => Free);
      queue, refs, clock, stamps := [], [], now, [];
      others, frames, events, heldAt := [], [], [], now;
      new;
      assert pending[..] == Init(now).pending;
      assert unclaimed[..] == Init(now).unclaimed;
    }

    ghost predicate Ready()
      reads this
    {
      pending.Length == SLOTS && unclaimed.Length == SLOTS && (pending as object) != unclaimed
    }

    ghost function St(): State
      reads this, pending, unclaimed
    {
      State(pending[..], unclaimed[..], queue, refs, clock, stamps, others, frames, events, heldAt)
    }

    /** Gives up the packet in slot `i`. */
    method DropSlot(i: nat)
      requires Ready() && i < SLOTS && pending[i].Held?
      modifies pending, `refs, `frames
      ensures St() == Drop(old(St()), i)
    {
      var p := pending[i].item;
      refs := Add(refs, p, -1);
      pending[i] := Free;
      frames := FrameFate(frames, p, Lost);
    }

    method SetTimestamp(p: nat, cap: Capture)
      modifies `stamps, `frames, `events
      ensures St() == Attach(old(St()), p, cap)
    {
      frames := FrameFate(frames, p, Stamped(|stamps|));
      events := EventFate(events, cap.id, Stamped(|stamps|));
      stamps := stamps + [Stamp(p, cap)];
    }

    /** Gives up the capture in slot `i`. */
    method ForgetSlot(i: nat)
      requires Ready() && i < SLOTS && unclaimed[i].Held?
      modifies unclaimed, `events
      ensures St() == Forget(old(St()), i)
    {
      events := EventFate(events, unclaimed[i].item.id, Lost);
      unclaimed[i] := Free;
    }

    method ExpireHeldPackets(now: int)
      requires Ready()
      modifies pending, `refs, `frames
      ensures St() == ExpirePending(old(St()), now, 0)
    {
      var i := 0;
      while i < SLOTS
        invariant i <= SLOTS && Sized(St())
        invariant ExpirePending(St(), now, i) == ExpirePending(old(St()), now, 0)
      {
        if Due(pending[i], now) {
          DropSlot(i);
        }
        i := i + 1;
      }
    }

    method ExpireCaptures(now: int)
      requires Ready()
      modifies unclaimed, `events
      ensures St() == ExpireUnclaimed(old(St()), now, 0)
    {
      var i := 0;
      while i < SLOTS
        invariant i <= SLOTS && Sized(St())
        invariant ExpireUnclaimed(St(), now, i) == ExpireUnclaimed(old(St()), now, 0)
      {
        if Due(unclaimed[i], now) {
          ForgetSlot(i);
        }
        i := i + 1;
      }
    }

    /** `lan9250_1588_rx_pending_expire`. */
    method ExpireTables(now: int)
      requires Ready()
      modifies pending, unclaimed, `refs, `frames, `events, `clock
      ensures St() == Expire(old(St()), now)
    {
      clock := now;
      ExpireHeldPackets(now);
      ExpireCaptures(now);
    }

    /** Files the capture just read, evicting the oldest when the table is full. */
    method StashHead(now: int)
      requires Ready() && queue != []
      modifies this, unclaimed
      ensures St() == StashSomewhere(old(St()), now)
    {
      var cap := queue[0];
      var i := LookFree(unclaimed);
      if i == SLOTS {
        i := LookSoonest(unclaimed);
        events := EventFate(events, unclaimed[i].item.id, Lost);
      }
      unclaimed[i] := Held(cap, cap.key, now + TIMEOUT_MS);
      queue, clock := queue[1..], now;
      events := EventFate(events, cap.id, Filed(i));
      assert old(unclaimed[..])[i := Free][i := unclaimed[i]] == unclaimed[..];
    }

    /** The `queue:` part of a check. */
    method EnqueuePacket(p: nat, k: Key, now: int)
      requires Ready()
      modifies this, pending
      ensures St() == Enqueue(old(St()), p, k, now)
    {
      if !Timestamped(k) {
        frames := FrameFate(frames, p, Passed);
        return;
      }
      var i := LookFree(pending);
      if i == SLOTS {
        i := LookSoonest(pending);
        DropSlot(i);
      }
      refs := Add(refs, p, 1);
      pending[i] := Held(p, k, now + TIMEOUT_MS);
      clock, heldAt := now, now;
      frames := FrameFate(frames, p, Filed(i));
      assert old(pending[..])[i := Free][i := pending[i]] == pending[..];
    }

    /** The frame's capture was drained earlier: hand it over. */
    method ClaimSlot(i: nat, p: nat)
      requires Ready() && i < SLOTS && unclaimed[i].Held?
      modifies unclaimed, `stamps, `frames, `events
      ensures St() == Claim(old(St()), i, p)
    {
      SetTimestamp(p, unclaimed[i].item);
      unclaimed[i] := Free;
    }

    /** The capture just read is the frame's own. */
    method StampFromQueue(p: nat)
      requires Ready() && queue != []
      modifies `queue, `stamps, `frames, `events
      ensures St() == StampHead(old(St()), p)
    {
      SetTimestamp(p, queue[0]);
      queue := queue[1..];
    }

    /** The capture just read belongs to the packet in slot `i`. */
    method MatchSlot(i: nat)
      requires Ready() && queue != [] && i < SLOTS && pending[i].Held?
      modifies pending, `queue, `refs, `stamps, `frames, `events
      ensures St() == Match(old(St()), i)
    {
      var p := pending[i].item;
      StampFromQueue(p);
      refs := Add(refs, p, -1);
      pending[i] := Free;
    }

    /** `lan9250_1588_rx_timestamp_check` for a packet with these frame bytes. */
    method RxTimestampCheck(p: nat, frame: seq<Byte>, t: Turn)
      requires Ready()
      modifies this, pending, unclaimed
      ensures St() == var k := Parse(frame); if k.None? then old(St()) else Check(old(St()), p, k.value, t)
    {
      ParseTruncated(frame);
      var key := Parse(Truncated(frame));
      if key.Some? {
        Correlate(p, key.value, t);
      }
    }

    method Correlate(p: nat, k: Key, t: Turn)
      requires Ready()
      modifies this, pending, unclaimed
      ensures St() == Check(old(St()), p, k, t)
    {
      ExpireTables(t.expire);
      var u := LookUp(unclaimed, k);
      if u < SLOTS {
        ClaimSlot(u, p);
      } else if queue == [] || !t.readable {
        EnqueuePacket(p, k, t.hold);
      } else if queue[0].key == k {
        StampFromQueue(p);
      } else {
        var j := LookUp(pending, queue[0].key);
        if j < SLOTS {
          MatchSlot(j);
        } else {
          StashHead(t.stash);
        }
        EnqueuePacket(p, k, t.hold);
      }
    }
  }
}
