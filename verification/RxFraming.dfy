/** Reading frames out of the receive FIFOs: the reader and the byte stream stay in step. */
module RxFraming {
  import opened Wrappers
  import opened PtpHeader

  const OFFSET := 4 // bytes the driver reads before each frame

  /** One frame as the chip queues it: an offset of four bytes, the frame, and padding up to a multiple of four. */
  datatype Entry = Entry(offset: seq<Byte>, frame: seq<Byte>, pad: seq<Byte>) {
    predicate WellFormed() {
      && |offset| == 4 && 1 <= |frame| <= 0x3FFF
      && |pad| < 4 && (|offset| + |frame| + |pad|) % 4 == 0
    }

    function Wire(): seq<Byte> {
      offset + frame + pad
    }
  }

  /** The padding the driver reads after a frame of `n` bytes. */
  function EndPad(n: nat): nat {
    (4 - n % 4) % 4
  }

  /** It is what the chip has put there. */
  lemma EndPadIsPadding(e: Entry)
    requires e.WellFormed()
    ensures OFFSET == |e.offset| && EndPad(|e.frame|) == |e.pad|
  {
  }

  function Wire(es: seq<Entry>): seq<Byte> {
    if es == [] then [] else es[0].Wire() + Wire(es[1..])
  }

  function Lengths(es: seq<Entry>): seq<nat> {
    if es == [] then [] else [|es[0].frame|] + Lengths(es[1..])
  }

  predicate AllWellFormed(es: seq<Entry>) {
    forall i :: 0 <= i < |es| ==> es[i].WellFormed()
  }

  /** The two receive FIFOs. */
  datatype Fifos = Fifos(data: seq<Byte>, status: seq<nat>)

  predicate InStep(f: Fifos, es: seq<Entry>) {
    AllWellFormed(es) && f.data == Wire(es) && f.status == Lengths(es)
  }

  function Arrive(f: Fifos, es: seq<Entry>): Fifos {
    Fifos(f.data + Wire(es), f.status + Lengths(es))
  }

  /** What clocking `n` bytes out of the data FIFO returns; an empty FIFO returns zeros. */
  function Taken(data: seq<Byte>, n: nat): (r: seq<Byte>)
    ensures |r| == n
  {
    if n <= |data| then data[..n] else data + seq(n - |data|, _ => 0)
  }

  function Left(data: seq<Byte>, n: nat): seq<Byte> {
    if n <= |data| then data[n..] else []
  }

  lemma TakenSplit(data: seq<Byte>, n: nat, a: nat, m: nat)
    requires a + m <= n
    ensures Taken(Left(data, a), m) == Taken(data, n)[a..a + m]
    ensures Left(Left(data, a), m) == Left(data, a + m)
  {
  }

  /** A frame split over buffers of `buf` bytes. */
  function Chunks(bytes: seq<Byte>, buf: nat): seq<seq<Byte>>
    requires buf > 0
  {
    if |bytes| <= buf then [bytes] else [bytes[..buf]] + Chunks(bytes[buf..], buf)
  }

  function Flatten(chunks: seq<seq<Byte>>): seq<Byte> {
    if chunks == [] then [] else chunks[0] + Flatten(chunks[1..])
  }

  lemma ClockedOn(data: seq<Byte>, a: nat, k: nat)
    ensures Left(Left(data, a), k) == Left(data, a + k)
  {
  }

  /** What the read loop fills its buffers with, `left` bytes still to come. */
  function ReadRest(data: seq<Byte>, left: nat, buf: nat): seq<seq<Byte>>
    requires buf > 0
    decreases left
  {
    if left == 0 then [] else
      var m := if left > buf then buf else left;
      [Taken(data, m)] + ReadRest(Left(data, m), left - m, buf)
  }

  lemma ReadTurn(frags: seq<seq<Byte>>, data: seq<Byte>, left: nat, buf: nat, m: nat)
    requires buf > 0 && left > 0 && m == if left > buf then buf else left
    ensures frags + ReadRest(data, left, buf) == frags + [Taken(data, m)] + ReadRest(Left(data, m), left - m, buf)
  {
  }

  lemma TakenFirst(data: seq<Byte>, n: nat, m: nat)
    requires m <= n
    ensures Taken(data, n)[..m] == Taken(data, m) && Taken(data, n)[m..] == Taken(Left(data, m), n - m)
  {
  }

  /** The buffers are the frame, split at their size. */
  lemma {:induction false} ReadRestIsChunks(data: seq<Byte>, n: nat, buf: nat)
    requires buf > 0 && n > 0
    ensures ReadRest(data, n, buf) == Chunks(Taken(data, n), buf)
    decreases n
  {
    if n > buf {
      TakenFirst(data, n, buf);
      ReadRestIsChunks(Left(data, buf), n - buf, buf);
    } else {
      assert ReadRest(Left(data, n), 0, buf) == [];
    }
  }

  /** One `lan9250_rx` call: the FIFOs afterwards, and the buffers of the packet delivered, if any. `late` are
      frames that arrive between its reading the status count and its reading the status word. */
  function Rx(f: Fifos, late: seq<Entry>, gotBuffer: bool, buf: nat): (Fifos, Option<seq<seq<Byte>>>)
    requires buf > 0
  {
    var count := |f.status|;
    var g := Arrive(f, late);
    var n := if g.status == [] then 0 else g.status[0];
    var h := g.(status := if g.status == [] then [] else g.status[1..]);
    if count == 0 || n == 0 then (h, None) else
      var body := Left(g.data, OFFSET);
      (h.(data := Left(body, n + EndPad(n))), if gotBuffer then Some(Chunks(Taken(body, n), buf)) else None)
  }

  // ---------- The driver's loops ----------

  /** For each transfer of a call, whether it fails, and how many bytes it has clocked out by then; of the read of the
      status word, whether it has taken it. */
  type Faults = nat -> Option<nat>

  ghost predicate NoFaults(faults: Faults) {
    forall i: nat :: faults(i).None?
  }

  /** The FIFOs after a call that clocked out so many bytes. */
  function CutShort(f: Fifos, popped: bool, clocked: nat): Fifos {
    Fifos(Left(f.data, clocked), if popped && f.status != [] then f.status[1..] else f.status)
  }

  function EntrySize(f: Fifos): nat {
    if f.status == [] then 0 else OFFSET + f.status[0] + EndPad(f.status[0])
  }

  class Receiver {
    var data: seq<Byte>
    var status: seq<nat>
    const buf: nat

    constructor (buf: nat)
      requires buf > 0
      ensures this.buf == buf && Snapshot() == Fifos([], [])
    {
      this.buf, data, status := buf, [], [];
    }

    function Snapshot(): Fifos
      reads this
    {
      Fifos(data, status)
    }

    /** `lan9250_read_buf`, or a register read of `n` bytes: `fault` is how many bytes a failing transfer has clocked
        out of the data FIFO when it gives up. */
    method ReadBuf(n: nat, fault: Option<nat>) returns (ok: bool, bytes: seq<Byte>, clocked: nat)
      modifies `data
      ensures ok == fault.None? && clocked <= n && (ok ==> clocked == n && bytes == Taken(old(data), n))
      ensures data == Left(old(data), clocked)
    {
      ok, clocked := fault.None?, if fault.Some? && fault.value < n then fault.value else n;
      bytes, data := Taken(data, clocked), Left(data, clocked);
    }

    /** The drop path: the frame is clocked out and thrown away, a buffer's worth at a time; a failure ends it. */
    method Discard(n: nat, faults: Faults, first: nat) returns (clocked: nat)
      requires buf > 0
      modifies `data
      ensures data == Left(old(data), clocked) && clocked <= n && (NoFaults(faults) ==> clocked == n)
    {
      var left, i := n, first;
      clocked := 0;
      while left > 0
        invariant 0 <= left <= n && clocked == n - left
        invariant data == Left(old(data), clocked)
      {
        var chunk := if left > buf then buf else left;
        var ok, _, k := ReadBuf(chunk, faults(i));
        ClockedOn(old(data), clocked, k);
        clocked := clocked + k;
        if !ok {
          return;
        }
        left, i := left - chunk, i + 1;
      }
    }

    /** One turn of the read loop. */
    method ReadChunk(left: nat, frags: seq<seq<Byte>>, fault: Option<nat>)
      returns (ok: bool, left': nat, frags': seq<seq<Byte>>)
      requires buf > 0 && left > 0
      modifies `data
      ensures ok == fault.None? && left' <= left && data == Left(old(data), left - left')
      ensures ok ==> left' < left && frags' + ReadRest(data, left', buf) == frags + ReadRest(old(data), left, buf)
    {
      var m := if left > buf then buf else left;
      ReadTurn(frags, data, left, buf, m);
      var bytes, k;
      ok, bytes, k := ReadBuf(m, fault);
      left', frags' := left - k, frags + [bytes];
    }

    /** The success path: the frame is read into the packet's buffers one after the other; a failure ends it. */
    method ReadFrame(n: nat, faults: Faults, first: nat) returns (ok: bool, frags: seq<seq<Byte>>, clocked: nat)
      requires buf > 0 && n > 0
      modifies `data
      ensures data == Left(old(data), clocked) && clocked <= n && (NoFaults(faults) ==> ok)
      ensures ok ==> frags == Chunks(Taken(old(data), n), buf) && clocked == n
    {
      frags, clocked, ok := [], 0, true;
      var left, i := n, first;
      while left > 0
        invariant 0 <= left <= n && clocked == n - left && ok
        invariant data == Left(old(data), clocked)
        invariant frags + ReadRest(data, left, buf) == ReadRest(old(data), n, buf)
        decreases left
      {
        ghost var before := left;
        ok, left, frags := ReadChunk(left, frags, faults(i));
        ClockedOn(old(data), clocked, before - left);
        clocked, i := n - left, i + 1;
        if !ok {
          return;
        }
      }
      ReadRestIsChunks(old(data), n, buf);
    }

    /** `lan9250_rx` once it has a frame's status word. */
    method TakeFrame(len: nat, gotBuffer: bool, faults: Faults)
      returns (ok: bool, packet: Option<seq<seq<Byte>>>, clocked: nat)
      requires buf > 0 && len > 0
      modifies `data
      ensures data == Left(old(data), clocked) && clocked <= OFFSET + len + EndPad(len)
      ensures NoFaults(faults) || packet.Some? ==>
                && ok && clocked == OFFSET + len + EndPad(len)
                && packet == if gotBuffer then Some(Chunks(Taken(Left(old(data), OFFSET), len), buf)) else None
    {
      packet := None;
      var dummy, frags, k;
      ok, dummy, clocked := ReadBuf(OFFSET, faults(2));
      if !ok {
        return;
      }
      var pad := EndPad(len);
      if gotBuffer {
        ok, frags, k := ReadFrame(len, faults, 4);
      } else {
        k := Discard(len, faults, 4);
      }
      ClockedOn(old(data), clocked, k);
      clocked := clocked + k;
      if !ok {
        return;
      }
      if pad > 0 {
        ok, dummy, k := ReadBuf(pad, faults(3));
        ClockedOn(old(data), clocked, k);
        clocked := clocked + k;
      }
      if !gotBuffer {
        ok := true;
      } else if ok {
        packet := Some(frags);
      }
    }

    /** `lan9250_rx`; `ok` is its returning 0. Whatever fails, `clocked` bytes are gone from the data FIFO, and the
        first status word if it was `popped`; a packet is delivered only as it would be without a failure. */
    method Receive(late: seq<Entry>, gotBuffer: bool, faults: Faults)
      returns (ok: bool, packet: Option<seq<seq<Byte>>>, popped: bool, clocked: nat)
      requires buf > 0
      modifies this
      ensures NoFaults(faults) || packet.Some? ==>
                ok && (Snapshot(), packet) == Rx(old(Snapshot()), late, gotBuffer, buf)
      ensures Snapshot() == CutShort(Arrive(old(Snapshot()), late), popped, clocked)
      ensures clocked <= if popped then EntrySize(Arrive(old(Snapshot()), late)) else 0
    {
      var count := |status|;
      data, status := data + Wire(late), status + Lengths(late);
      ghost var g := Snapshot();
      ok, packet, popped, clocked := false, None, false, 0;
      if faults(0).Some? || (faults(1).Some? && faults(1).value == 0) {
        return;
      }
      popped := status != [];
      var len := 0;
      if popped {
        len, status := status[0], status[1..];
      }
      if faults(1).Some? {
        return;
      }
      if count == 0 || len == 0 {
        ok := true;
        return;
      }
      ok, packet, clocked := TakeFrame(len, gotBuffer, faults);
      ClockedOn(g.data, OFFSET, len + EndPad(len));
    }
  }

  // ---------- Synchronisation ----------

  lemma PrependAppends<T>(h: seq<T>, a: seq<T>, b: seq<T>)
    ensures h + (a + b) == h + a + b
  {
  }

  lemma {:induction false} ArriveAppends(es: seq<Entry>, late: seq<Entry>)
    ensures Wire(es + late) == Wire(es) + Wire(late)
    ensures Lengths(es + late) == Lengths(es) + Lengths(late)
    decreases |es|
  {
    if es == [] {
      assert es + late == late;
    } else {
      ArriveAppends(es[1..], late);
      assert (es + late)[0] == es[0] && (es + late)[1..] == es[1..] + late;
      PrependAppends(es[0].Wire(), Wire(es[1..]), Wire(late));
      PrependAppends([|es[0].frame|], Lengths(es[1..]), Lengths(late));
    }
  }

  lemma {:induction false} ChunksFlatten(bytes: seq<Byte>, buf: nat)
    requires buf > 0
    ensures Flatten(Chunks(bytes, buf)) == bytes
    ensures forall i :: 0 <= i < |Chunks(bytes, buf)| ==> |Chunks(bytes, buf)[i]| <= buf
    ensures (|Chunks(bytes, buf)| - 1) * buf < |bytes| || |Chunks(bytes, buf)| == 1
    ensures |bytes| <= |Chunks(bytes, buf)| * buf
    decreases |bytes|
  {
    if |bytes| > buf {
      ChunksFlatten(bytes[buf..], buf);
      var rest := Chunks(bytes[buf..], buf);
      assert Chunks(bytes, buf)[1..] == rest;
      assert |rest| * buf == (|rest| - 1) * buf + buf;
      assert (|rest| + 1) * buf == |rest| * buf + buf;
    } else {
      assert Flatten([bytes]) == bytes + Flatten([]);
    }
  }

  lemma HeadOfWire(e: Entry, rest: seq<Byte>)
    requires e.WellFormed()
    ensures var n := |e.frame|; var body := Left(e.Wire() + rest, OFFSET);
            Taken(body, n) == e.frame && Left(body, n + EndPad(n)) == rest
  {
    EndPadIsPadding(e);
    assert e.Wire() + rest == e.offset + (e.frame + (e.pad + rest));
    var body := Left(e.Wire() + rest, OFFSET);
    assert body == e.frame + (e.pad + rest);
    assert body == (e.frame + e.pad) + rest;
  }

  lemma RxTakesHead(e: Entry, rest: Fifos, f: Fifos, late: seq<Entry>, gotBuffer: bool, buf: nat)
    requires e.WellFormed() && buf > 0 && f.status != []
    requires Arrive(f, late) == Fifos(e.Wire() + rest.data, [|e.frame|] + rest.status)
    ensures Rx(f, late, gotBuffer, buf) == (rest, if gotBuffer then Some(Chunks(e.frame, buf)) else None)
  {
    HeadOfWire(e, rest.data);
    assert ([|e.frame|] + rest.status)[1..] == rest.status;
  }

  /** A call that saw a frame consumes exactly that frame; what it delivers is the frame's bytes. */
  lemma CallConsumesOne(es: seq<Entry>, late: seq<Entry>, gotBuffer: bool, buf: nat)
    requires AllWellFormed(es + late) && es != [] && buf > 0
    ensures var (f, packet) := Rx(Fifos(Wire(es), Lengths(es)), late, gotBuffer, buf);
            && InStep(f, (es + late)[1..])
            && packet.Some? == gotBuffer
            && (gotBuffer ==> Flatten(packet.value) == es[0].frame)
  {
    ArriveAppends(es, late);
    var all := es + late;
    assert all[0].WellFormed();
    RxTakesHead(all[0], Fifos(Wire(all[1..]), Lengths(all[1..])), Fifos(Wire(es), Lengths(es)), late, gotBuffer, buf);
    ChunksFlatten(all[0].frame, buf);
  }

  ghost predicate Synchronised(f: Fifos) {
    exists es :: InStep(f, es)
  }

  function WireSize(lengths: seq<nat>): nat {
    if lengths == [] then 0 else OFFSET + lengths[0] + EndPad(lengths[0]) + WireSize(lengths[1..])
  }

  lemma {:induction false} WireSizeIsLength(es: seq<Entry>)
    requires AllWellFormed(es)
    ensures |Wire(es)| == WireSize(Lengths(es))
    decreases |es|
  {
    if es != [] {
      EndPadIsPadding(es[0]);
      WireSizeIsLength(es[1..]);
      assert Lengths(es)[1..] == Lengths(es[1..]);
    }
  }

  /** How many bytes the data FIFO holds beyond what the status words account for. */
  function Surplus(f: Fifos): int {
    |f.data| - WireSize(f.status)
  }

  lemma SurplusIsLost(f: Fifos)
    requires Surplus(f) != 0
    ensures !Synchronised(f)
  {
    forall es | InStep(f, es)
      ensures false
    {
      WireSizeIsLength(es);
    }
  }

  /** Data with its first status word gone. */
  lemma RaceLeavesSurplus(late: seq<Entry>)
    requires AllWellFormed(late) && late != []
    ensures Surplus(Fifos(Wire(late), Lengths(late)[1..])) > 0
  {
    WireSizeIsLength(late);
  }

  /** The reader stays in step through a call if and only if no frame arrives between its finding the status count
      zero and its reading the status word: that read would take the frame's status and leave its data behind. */
  lemma InStepIff(es: seq<Entry>, late: seq<Entry>, gotBuffer: bool, buf: nat)
    requires AllWellFormed(es + late) && buf > 0
    ensures Synchronised(Rx(Fifos(Wire(es), Lengths(es)), late, gotBuffer, buf).0) <==> !(es == [] && late != [])
  {
    var (f, _) := Rx(Fifos(Wire(es), Lengths(es)), late, gotBuffer, buf);
    if es != [] {
      CallConsumesOne(es, late, gotBuffer, buf);
    } else if late == [] {
      assert InStep(f, []);
    } else {
      assert es + late == late;
      RaceEffect(late, gotBuffer, buf);
      SurplusIsLost(f);
    }
  }

  lemma RaceEffect(late: seq<Entry>, gotBuffer: bool, buf: nat)
    requires AllWellFormed(late) && late != [] && buf > 0
    ensures Surplus(Rx(Fifos([], []), late, gotBuffer, buf).0) > 0
  {
    var f, r := Fifos([], []), Rx(Fifos([], []), late, gotBuffer, buf).0;
    assert [] + Wire(late) == Wire(late) && [] + Lengths(late) == Lengths(late);
    assert Arrive(f, late) == Fifos(Wire(late), Lengths(late));
    assert r == Fifos(Wire(late), Lengths(late)[1..]);
    RaceLeavesSurplus(late);
  }

  // ---------- Runs ----------

  /** One call's circumstances: the frames that arrive `early`, before it and after the status word of the last call
      was read, and those that arrive `late`, between its two reads of the status. */
  datatype Call = Call(early: seq<Entry>, late: seq<Entry>, gotBuffer: bool)

  predicate ArrivalsOk(calls: seq<Call>) {
    forall i :: 0 <= i < |calls| ==> AllWellFormed(calls[i].early) && AllWellFormed(calls[i].late)
  }

  /** The FIFOs after a run of calls, and the frames delivered, as bytes, in order. */
  function Deliver(f: Fifos, calls: seq<Call>, buf: nat): (Fifos, seq<seq<Byte>>)
    requires buf > 0
    decreases |calls|
  {
    if calls == [] then (f, []) else
      var (g, packet) := Rx(Arrive(f, calls[0].early), calls[0].late, calls[0].gotBuffer, buf);
      var (h, rest) := Deliver(g, calls[1..], buf);
      (h, if packet.Some? then [Flatten(packet.value)] + rest else rest)
  }

  /** The frames queued after a call without a race: the oldest one is gone. */
  function Remaining(es: seq<Entry>, c: Call): seq<Entry> {
    var all := es + c.early + c.late;
    if all == [] then [] else all[1..]
  }

  /** What the run should deliver: at each call the oldest frame queued is taken, and kept if a buffer could be
      allocated. */
  function Expected(es: seq<Entry>, calls: seq<Call>): (seq<Entry>, seq<seq<Byte>>)
    decreases |calls|
  {
    if calls == [] then (es, []) else
      var all := es + calls[0].early + calls[0].late;
      var (left, rest) := Expected(Remaining(es, calls[0]), calls[1..]);
      (left, if all != [] && calls[0].gotBuffer then [all[0].frame] + rest else rest)
  }

  /** A frame arrives just after the call found none. */
  predicate Races(es: seq<Entry>, c: Call) {
    es + c.early == [] && c.late != []
  }

  predicate NoRace(es: seq<Entry>, calls: seq<Call>)
    decreases |calls|
  {
    calls == [] || (!Races(es, calls[0]) && NoRace(Remaining(es, calls[0]), calls[1..]))
  }

  function Queue(es: seq<Entry>): Fifos {
    Fifos(Wire(es), Lengths(es))
  }

  lemma QueueGrows(es: seq<Entry>, more: seq<Entry>)
    ensures Arrive(Queue(es), more) == Queue(es + more)
  {
    ArriveAppends(es, more);
  }

  /** A call without a race, the frames that arrived before it included. */
  lemma CallStaysInStep(es: seq<Entry>, c: Call, buf: nat)
    requires AllWellFormed(es) && AllWellFormed(c.early) && AllWellFormed(c.late) && !Races(es, c) && buf > 0
    ensures AllWellFormed(Remaining(es, c))
    ensures var (f, packet) := Rx(Arrive(Queue(es), c.early), c.late, c.gotBuffer, buf);
            var all := es + c.early + c.late;
            && f == Queue(Remaining(es, c))
            && packet.Some? == (all != [] && c.gotBuffer)
            && (packet.Some? ==> Flatten(packet.value) == all[0].frame)
  {
    var queued := es + c.early;
    QueueGrows(es, c.early);
    if queued != [] {
      assert (queued + c.late)[0] == queued[0];
      CallConsumesOne(queued, c.late, c.gotBuffer, buf);
    } else {
      assert queued + c.late == [];
    }
  }

  /** Over any run without a race, with frames arriving at any time and any mix of allocation successes and failures,
      every frame is consumed whole and every delivered packet is the frame that was next, byte for byte. */
  lemma {:induction false} StreamStaysInStep(es: seq<Entry>, calls: seq<Call>, buf: nat)
    requires AllWellFormed(es) && ArrivalsOk(calls) && NoRace(es, calls) && buf > 0
    ensures var (f, out) := Deliver(Queue(es), calls, buf);
            InStep(f, Expected(es, calls).0) && out == Expected(es, calls).1
    decreases |calls|
  {
    if calls != [] {
      CallStaysInStep(es, calls[0], buf);
      StreamStaysInStep(Remaining(es, calls[0]), calls[1..], buf);
    }
  }

  // ---------- Out of step for good ----------

  lemma {:induction false} WireSizeAppends(a: seq<nat>, b: seq<nat>)
    ensures WireSize(a + b) == WireSize(a) + WireSize(b)
    decreases |a|
  {
    if a == [] {
      assert a + b == b;
    } else {
      WireSizeAppends(a[1..], b);
      assert (a + b)[1..] == a[1..] + b;
    }
  }

  lemma ArriveKeepsSurplus(f: Fifos, es: seq<Entry>)
    requires AllWellFormed(es)
    ensures Surplus(Arrive(f, es)) == Surplus(f)
  {
    WireSizeIsLength(es);
    WireSizeAppends(f.status, Lengths(es));
  }

  lemma RxKeepsSurplus(f: Fifos, late: seq<Entry>, gotBuffer: bool, buf: nat)
    requires Surplus(f) >= 0 && AllWellFormed(late) && buf > 0
    ensures Surplus(Rx(f, late, gotBuffer, buf).0) >= Surplus(f)
  {
    ArriveKeepsSurplus(f, late);
    var g := Arrive(f, late);
    if g.status != [] {
      assert WireSize(g.status) == OFFSET + g.status[0] + EndPad(g.status[0]) + WireSize(g.status[1..]);
    }
  }

  /** No run of calls brings a reader with data left over back into step. */
  lemma {:induction false} OutOfStepForGood(f: Fifos, calls: seq<Call>, buf: nat)
    requires Surplus(f) > 0 && ArrivalsOk(calls) && buf > 0
    ensures !Synchronised(Deliver(f, calls, buf).0)
    decreases |calls|
  {
    if calls == [] {
      SurplusIsLost(f);
    } else {
      var c := calls[0];
      ArriveKeepsSurplus(f, c.early);
      RxKeepsSurplus(Arrive(f, c.early), c.late, c.gotBuffer, buf);
      OutOfStepForGood(Rx(Arrive(f, c.early), c.late, c.gotBuffer, buf).0, calls[1..], buf);
    }
  }

  /** A call that ends at any point leaves the reader in step if and only if it has taken a status word with all of its
      frame's bytes, or nothing. Otherwise data is left over, and no later call repairs that. */
  lemma CutShortInStepIff(all: seq<Entry>, popped: bool, clocked: nat)
    requires AllWellFormed(all) && clocked <= if popped then EntrySize(Queue(all)) else 0
    ensures var f := CutShort(Queue(all), popped, clocked);
            && (Synchronised(f) <==> (popped && all != [] ==> clocked == |all[0].Wire()|))
            && (!Synchronised(f) ==> Surplus(f) > 0)
  {
    var f := CutShort(Queue(all), popped, clocked);
    WireSizeIsLength(all);
    if !popped || all == [] {
      assert InStep(f, all);
    } else {
      EndPadIsPadding(all[0]);
      if clocked == |all[0].Wire()| {
        assert InStep(f, all[1..]);
      } else {
        SurplusIsLost(f);
      }
    }
  }

  /** A run leaves the reader in step if and only if none of its calls met a race. */
  lemma {:induction false} RunInStepIff(es: seq<Entry>, calls: seq<Call>, buf: nat)
    requires AllWellFormed(es) && ArrivalsOk(calls) && buf > 0
    ensures Synchronised(Deliver(Queue(es), calls, buf).0) <==> NoRace(es, calls)
    decreases |calls|
  {
    if calls == [] {
      assert InStep(Queue(es), es);
    } else if Races(es, calls[0]) {
      var c := calls[0];
      QueueGrows(es, c.early);
      assert Arrive(Queue(es), c.early) == Fifos([], []);
      RaceEffect(c.late, c.gotBuffer, buf);
      OutOfStepForGood(Rx(Fifos([], []), c.late, c.gotBuffer, buf).0, calls[1..], buf);
    } else {
      CallStaysInStep(es, calls[0], buf);
      RunInStepIff(Remaining(es, calls[0]), calls[1..], buf);
    }
  }

  /** After a race the next frame of the same length is delivered as the bytes of the one before it. */
  lemma StaleFrame(e: Entry, e': Entry, buf: nat)
    requires e.WellFormed() && e'.WellFormed() && |e'.frame| == |e.frame| && buf > 0
    ensures Deliver(Queue([]), [Call([], [e], true), Call([e'], [], true)], buf).1 == [e.frame]
  {
    var c, c' := Call([], [e], true), Call([e'], [], true);
    var f := Fifos(e.Wire(), []);
    assert [c, c'][1..] == [c'] && [c'][1..] == [];
    WireOfOne(e);
    WireOfOne(e');
    assert Arrive(Arrive(Queue([]), []), [e]) == Fifos(e.Wire(), [|e.frame|]);
    assert Rx(Arrive(Queue([]), []), [e], true, buf) == (f, None);
    assert Arrive(Arrive(f, [e']), []) == Fifos(e.Wire() + e'.Wire(), [|e.frame|]);
    HeadOfWire(e, e'.Wire());
    ChunksFlatten(e.frame, buf);
    assert Rx(Arrive(f, [e']), [], true, buf).1 == Some(Chunks(e.frame, buf));
    assert Deliver(f, [c'], buf).1 == [e.frame] + [];
  }

  lemma WireOfOne(e: Entry)
    ensures Wire([e]) == e.Wire() && Lengths([e]) == [|e.frame|]
  {
    assert [e][1..] == [];
  }

  /** One shortest Ethernet frame that arrives in the middle of a call is enough. */
  lemma RaceHappens(e: Entry, buf: nat)
    requires e == Entry([0, 0, 0, 0], seq(60, _ => 0), []) && buf > 0
    ensures e.WellFormed() && !Synchronised(Deliver(Queue([]), [Call([], [e], true)], buf).0)
  {
    RunInStepIff([], [Call([], [e], true)], buf);
  }
}
