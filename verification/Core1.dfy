/** core1's program as it runs: the motion record `M` updated in place, the TX FIFO fed by the main loop. */
module Core1 {
  import opened Planner
  import opened Pio
  import opened StepTiming
  import opened MailboxProto
  import Pipeline

  /** The inner loop: feed until the FIFO is full or `feed_step` reports 0. */
  function Pumped(m: Motion, fifo: seq<Word>): (Motion, seq<Word>)
    requires m.settings.decel > 0.0
    decreases Pipeline.FIFO_DEPTH - |fifo|
  {
    if |fifo| >= Pipeline.FIFO_DEPTH then (m, fifo) else
      var (m', p) := FeedStep(m);
      if p.None? then (m', fifo) else Pumped(m', fifo + [StepWord(p.value)])
  }

  /** The inner loop ends with the FIFO full or the motion idle, and only appends words. */
  lemma {:induction false} PumpFillsOrIdles(m: Motion, fifo: seq<Word>)
    requires m.settings.decel > 0.0
    ensures var (m', fifo') := Pumped(m, fifo);
            && fifo <= fifo'
            && (|fifo'| >= 4 || !m'.moving)
            && m'.settings == m.settings
            && m'.remaining + |fifo'| == m.remaining + |fifo|
    decreases Pipeline.FIFO_DEPTH - |fifo|
  {
    if |fifo| < Pipeline.FIFO_DEPTH {
      var (m', p) := FeedStep(m);
      if p.Some? {
        PumpFillsOrIdles(m', fifo + [StepWord(p.value)]);
      }
    }
  }

  /** How many `feed_step` events the inner loop makes. */
  function Feeds(m: Motion, fifo: seq<Word>): nat
    requires m.settings.decel > 0.0
    decreases Pipeline.FIFO_DEPTH - |fifo|
  {
    if |fifo| >= Pipeline.FIFO_DEPTH then 0 else
      var (m', p) := FeedStep(m);
      1 + if p.None? then 0 else Feeds(m', fifo + [StepWord(p.value)])
  }

  function FeedEvents(n: nat): (es: seq<Pipeline.Event>)
    ensures |es| == n && forall e :: e in es ==> e == Pipeline.Feed
  {
    if n == 0 then [] else [Pipeline.Feed] + FeedEvents(n - 1)
  }

  /** The inner loop is a run of feed events of the pipeline. */
  lemma {:induction false} PumpIsRunOfFeeds(s: Pipeline.State)
    requires Pipeline.Valid(s)
    ensures var r := Pipeline.Run(s, FeedEvents(Feeds(s.motion, s.fifo)));
            (r.motion, r.fifo) == Pumped(s.motion, s.fifo)
    decreases Pipeline.FIFO_DEPTH - |s.fifo|
  {
    if |s.fifo| < Pipeline.FIFO_DEPTH {
      Pipeline.NextKeepsValid(s, Pipeline.Feed);
      var s' := Pipeline.FeedEvent(s);
      var es := FeedEvents(Feeds(s.motion, s.fifo));
      assert es[0] == Pipeline.Feed && es[1..] == FeedEvents(|es| - 1);
      if FeedStep(s.motion).1.Some? {
        PumpIsRunOfFeeds(s');
      } else {
        assert Pipeline.Run(s', []) == s';
      }
    }
  }

  class Machine {
    var moving: bool
    var maxSpeed: real
    var accel: real
    var decel: real
    var speed2: real
    var remaining: int
    var stopReq: bool
    var forward: bool        // the DIR output
    var txFifo: seq<Word>    // PIO TX FIFO
    var inbox: seq<Word>     // SIO FIFO from core0
    var outbox: seq<Word>    // SIO FIFO to core0

    constructor ()
      ensures M() == PowerOn && forward && txFifo == inbox == outbox == []
    {
      moving, maxSpeed, accel, decel, speed2, remaining, stopReq :=
        false, DEF_MAX_SPEED, DEF_ACCEL, DEF_DECEL, 0.0, 0, false;
      forward, txFifo, inbox, outbox := true, [], [], [];
    }

    function M(): Motion
      reads this
    {
      Motion(moving, Settings(maxSpeed, accel, decel), speed2, remaining, stopReq)
    }

    method FeedOne() returns (fed: bool)
      requires decel > 0.0
      modifies `moving, `speed2, `stopReq, `remaining, `txFifo
      ensures var (m, p) := FeedStep(old(M()));
              M() == m && fed == p.Some? && txFifo == old(txFifo) + if fed then [StepWord(p.value)] else []
    {
      if !moving {
        return false;
      }
      if stopReq || remaining <= 0 {
        moving, speed2, stopReq := false, 0.0, false;
        return false;
      }
      speed2 := NextSpeed2(Settings(maxSpeed, accel, decel), speed2, remaining);
      txFifo := txFifo + [StepWord(speed2)];
      remaining := remaining - 1;
      return true;
    }

    method Start(steps: int)
      modifies `forward, `remaining, `speed2, `stopReq, `moving
      ensures M() == MotionStart(old(M()), steps)
      ensures forward == if steps == 0 then old(forward) else steps > 0
    {
      if steps == 0 {
        return;
      }
      forward := steps > 0;
      remaining := if forward then steps else Negate32(steps);
      speed2 := VMIN2;
      stopReq := false;
      moving := true;
    }

    /** The feeding part of one iteration of the main loop. */
    method Pump()
      requires decel > 0.0 && |txFifo| <= Pipeline.FIFO_DEPTH
      modifies `moving, `speed2, `stopReq, `remaining, `txFifo
      ensures (M(), txFifo) == if old(moving) then Pumped(old(M()), old(txFifo)) else old((M(), txFifo))
    {
      if moving {
        while |txFifo| < Pipeline.FIFO_DEPTH
          invariant decel > 0.0 && |txFifo| <= Pipeline.FIFO_DEPTH
          invariant Pumped(M(), txFifo) == Pumped(old(M()), old(txFifo))
          decreases Pipeline.FIFO_DEPTH - |txFifo|
        {
          ghost var m, q := M(), txFifo;
          var fed := FeedOne();
          if !fed {
            assert txFifo == q;
            return;
          }
        }
      }
    }

    /** `fifo_read_blocking`: `late` are the words that arrive before the read returns. */
    method ReadBlocking(late: seq<Word>) returns (word: Word)
      requires inbox + late != []
      modifies `inbox
      ensures [word] + inbox == old(inbox) + late
    {
      inbox := inbox + late;
      word := inbox[0];
      inbox := inbox[1..];
    }

    /** `handle_command`: reads a command, waiting for its payload, executes it and writes one reply. `late` are the
        words that arrive between the opcode's being read and the payload's. */
    method HandleCommand(f: Floats, late: seq<Word>)
      requires inbox != [] && HasPayload(inbox[0]) ==> |inbox + late| >= 2
      modifies `moving, `maxSpeed, `accel, `decel, `speed2, `remaining, `stopReq, `forward, `inbox, `outbox
      ensures old(inbox) == [] ==> M() == old(M()) && inbox == [] && outbox == old(outbox)
      ensures old(inbox) != [] && !Known(old(inbox[0])) ==>
                M() == old(M()) && inbox == old(inbox[1..]) && outbox == old(outbox)
      ensures old(inbox) != [] && Known(old(inbox[0])) ==>
                var op := old(inbox[0]);
                var payload := if HasPayload(op) then (old(inbox) + late)[1] else 0;
                && M() == Apply(old(M()), Decode(f, op, payload))
                && outbox == old(outbox) + [Reply(f, old(M()), op, payload)]
                && inbox == (if HasPayload(op) then (old(inbox) + late)[2..] else old(inbox[1..]))
      ensures forward ==
                if old(inbox) != [] && old(inbox[0]) == CMD_MOVE && !old(moving) && ToInt32((old(inbox) + late)[1]) != 0
                then ToInt32((old(inbox) + late)[1]) > 0 else old(forward)
    {
      if inbox == [] {
        return;
      }
      var op := inbox[0];
      inbox := inbox[1..];
      if op == CMD_STOP {
        if moving {
          stopReq := true;
        }
        outbox := outbox + [ACK_OK];
      } else if Known(op) {
        var payload := ReadBlocking(late);
        assert payload == (old(inbox) + late)[1] && inbox == (old(inbox) + late)[2..] by {
          assert old(inbox) + late == [op] + (old(inbox)[1..] + late);
        }
        Obey(f, op, payload);
      }
    }

    /** The commands that carry a payload. */
    method Obey(f: Floats, op: Word, payload: Word)
      requires HasPayload(op)
      modifies `moving, `maxSpeed, `accel, `decel, `speed2, `remaining, `stopReq, `forward, `outbox
      ensures M() == Apply(old(M()), Decode(f, op, payload))
      ensures outbox == old(outbox) + [Reply(f, old(M()), op, payload)]
      ensures forward == if op == CMD_MOVE && !old(moving) && ToInt32(payload) != 0 then ToInt32(payload) > 0
                         else old(forward)
    {
      if op == CMD_SPEED {
        var v := f.unpack(payload);
        if v < MIN_SPEED_HZ {
          v := MIN_SPEED_HZ;
        } else if v > ABS_MAX_SPEED {
          v := ABS_MAX_SPEED;
        }
        maxSpeed := v;
        outbox := outbox + [f.pack(maxSpeed)];
      } else if op == CMD_ACCEL {
        var v := f.unpack(payload);
        if v <= 0.0 || v > ABS_MAX_ACCEL {
          v := DEF_ACCEL;
        }
        accel := v;
        outbox := outbox + [f.pack(accel)];
      } else if op == CMD_DECEL {
        var v := f.unpack(payload);
        if v <= 0.0 || v > ABS_MAX_ACCEL {
          v := DEF_DECEL;
        }
        decel := v;
        outbox := outbox + [f.pack(decel)];
      } else if op == CMD_MOVE {
        var ack := ACK_OK;
        if moving {
          ack := ACK_BUSY;
        } else {
          Start(ToInt32(payload));
        }
        outbox := outbox + [ack];
      } else {
        outbox := outbox + [Status(f, M(), payload)];
      }
    }
  }
}
