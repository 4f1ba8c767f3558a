/** The bank lock: receive and transmit threads interleaved over the shared bank-select register.

    Banked registers share one address window; what a read returns depends on the bank selected last.
    A thread selects a bank and reads in separate steps, may sleep in between, and any of its bus
    transfers may fail. */
module BankLock {
  import opened Wrappers

  type Tid = nat

  const GENERAL := 0
  const PORT_RX := 1
  const PORT_TX := 2
  const CAPTURE_DEPTH := 4
  const TX_POLLS := 5

  datatype Kind = Rx | Tx {
    function Port(): nat { if Rx? then PORT_RX else PORT_TX }
    function Polls(): nat { if Rx? then 1 else TX_POLLS }
  }

  datatype Capture = Capture(header: nat, sec: nat, ns: nat)

  /** `Choose` is the look at the tables that may make the registers unnecessary; `Cap(n)` the n-th look at
      CAP_INFO and `Sleep(n)` the pause after it found nothing. */
  datatype Pc = Lock | Choose | SelGeneral | Cap(n: nat) | Sleep(n: nat) | SelPort | Header | Sec | Ns | Ack
              | Unlock | Done

  /** `key` is the message header of the thread's own packet. */
  datatype Thread = Thread(kind: Kind, key: nat, pc: Pc, latch: Capture)

  /** An acknowledgement: what the thread had read, and what the hardware dropped. */
  datatype Drop = Drop(kind: Kind, read: Capture, dropped: Capture)

  /** History: `looks` records for every banked read the bank it needed and the bank selected, `taken` for every
      capture of which a thread has read all three words the thread and the capture, `acks` the acknowledgements,
      `received` and `sent` every event captured, and `stamps` the transmit timestamps set, by thread. */
  datatype State = State(owner: Option<Tid>, bank: nat, rx: seq<Capture>, tx: seq<Capture>, threads: seq<Thread>,
                         looks: seq<(nat, nat)>, taken: seq<(Tid, Capture)>, acks: seq<Drop>,
                         received: seq<Capture>, sent: seq<Capture>, stamps: seq<(Tid, Capture)>)

  datatype Action =
    | Spawn(kind: Kind, key: nat)                     // a frame was received or sent
    | Captured(kind: Kind, c: Capture)                // the hardware captured an event
    | Run(t: Tid, fails: bool, attached: bool)        // thread `t` makes its next step

  function Queue(s: State, k: Kind): seq<Capture> {
    if k.Rx? then s.rx else s.tx
  }

  function Captures(s: State, k: Kind): seq<Capture> {
    if k.Rx? then s.received else s.sent
  }

  /** What a read in the window returns with `bank` selected: the head of that bank's queue, or nothing of use. */
  function Window(s: State, junk: Capture): Capture {
    if s.bank == PORT_RX && s.rx != [] then s.rx[0]
    else if s.bank == PORT_TX && s.tx != [] then s.tx[0]
    else junk
  }

  function Look(s: State, needed: nat): State {
    s.(looks := s.looks + [(needed, s.bank)])
  }

  /** The next step of thread `t`, which is `th`: the shared state and the thread afterwards. */
  function Move(s: State, t: Tid, th: Thread, fails: bool, attached: bool): (State, Thread) {
    var quit := (s, th.(pc := Unlock));
    match th.pc
    case Lock =>
      if s.owner.Some? then (s, th)
      else (s.(owner := Some(t)), th.(pc := if th.kind.Rx? then Choose else SelGeneral))
    case Choose => (s, th.(pc := if attached then Unlock else SelGeneral))
    case SelGeneral => if fails then quit else (s.(bank := GENERAL), th.(pc := Cap(1)))
    case Cap(n) =>
      if fails then quit
      else (Look(s, GENERAL),
            th.(pc := if Queue(s, th.kind) != [] then SelPort else if th.kind.Rx? then Unlock else Sleep(n)))
    case Sleep(n) => (s, th.(pc := if n < th.kind.Polls() then Cap(n + 1) else Unlock))
    case SelPort => if fails then quit else (s.(bank := th.kind.Port()), th.(pc := Header))
    case Header =>
      if fails then quit
      else (Look(s, th.kind.Port()), th.(latch := th.latch.(header := Window(s, th.latch).header), pc := Sec))
    case Sec =>
      if fails then quit
      else (Look(s, th.kind.Port()), th.(latch := th.latch.(sec := Window(s, th.latch).sec), pc := Ns))
    case Ns =>
      if fails then quit
      else
        var c := th.latch.(ns := Window(s, th.latch).ns);
        (Look(s, th.kind.Port()).(taken := s.taken + [(t, c)]), th.(latch := c, pc := Ack))
    case Ack => (if fails then Stamped(s, t, th) else Acked(Stamped(s, t, th), th), th.(pc := Unlock))
    case Unlock => (s.(owner := None), th.(pc := Done))
    case Done => (s, th)
  }

  /** A transmit thread stamps its packet if the capture it read has the packet's header. */
  function Stamped(s: State, t: Tid, th: Thread): State {
    if th.kind.Tx? && th.latch.header == th.key then s.(stamps := s.stamps + [(t, th.latch)]) else s
  }

  /** The acknowledgement makes the hardware drop the head of the thread's queue. */
  function Acked(s: State, th: Thread): State {
    var q := Queue(s, th.kind);
    if q == [] then s
    else if th.kind.Rx? then s.(acks := s.acks + [Drop(Rx, th.latch, q[0])], rx := q[1..])
    else s.(acks := s.acks + [Drop(Tx, th.latch, q[0])], tx := q[1..])
  }

  function Advance(s: State, t: Tid, fails: bool, attached: bool): State
    requires t < |s.threads|
  {
    var (s', th) := Move(s, t, s.threads[t], fails, attached);
    s'.(threads := s.threads[t := th])
  }

  function Next(s: State, a: Action): State {
    match a
    case Spawn(kind, key) => s.(threads := s.threads + [Thread(kind, key, Lock, Capture(0, 0, 0))])
    case Captured(k, c) =>
      if |Queue(s, k)| >= CAPTURE_DEPTH then s
      else if k.Rx? then s.(rx := s.rx + [c], received := s.received + [c])
      else s.(tx := s.tx + [c], sent := s.sent + [c])
    case Run(t, fails, attached) => if t < |s.threads| then Advance(s, t, fails, attached) else s
  }

  const Init := State(None, GENERAL, [], [], [], [], [], [], [], [], [])

  // ---------- Invariant ----------

  predicate Outside(pc: Pc) {
    pc == Lock || pc == Done
  }

  /** What the thread holding the lock may rely on at each point. */
  predicate HolderOk(s: State, th: Thread) {
    var q := Queue(s, th.kind);
    match th.pc
    case Cap(n) => s.bank == GENERAL && 1 <= n <= th.kind.Polls()
    case Sleep(n) => s.bank == GENERAL && 1 <= n <= th.kind.Polls()
    case SelPort => q != []
    case Header => s.bank == th.kind.Port() && q != []
    case Sec => s.bank == th.kind.Port() && q != [] && th.latch.header == q[0].header
    case Ns => s.bank == th.kind.Port() && q != [] && th.latch.header == q[0].header && th.latch.sec == q[0].sec
    case Ack => q != [] && th.latch == q[0]
    case _ => true
  }

  predicate LogsOk(s: State) {
    && (forall i :: 0 <= i < |s.looks| ==> s.looks[i].0 == s.looks[i].1)
    && (forall i :: 0 <= i < |s.acks| ==> s.acks[i].read == s.acks[i].dropped)
    && Conserved(s.received, s.acks, Rx, s.rx)
    && Conserved(s.sent, s.acks, Tx, s.tx)
  }

  /** What was captured has been dropped, in order, or is still queued. */
  predicate Conserved(captured: seq<Capture>, acks: seq<Drop>, k: Kind, queue: seq<Capture>) {
    captured == Dropped(acks, k) + queue
  }

  /** The captures of one kind that were dropped, in order. */
  function Dropped(acks: seq<Drop>, k: Kind): seq<Capture> {
    if acks == [] then [] else
      var last := acks[|acks| - 1];
      Dropped(acks[..|acks| - 1], k) + if last.kind == k then [last.dropped] else []
  }

  predicate Past(pc: Pc) {
    pc == Ack || pc == Unlock || pc == Done
  }

  /** A thread that has read a capture is past its reading, has read one, and still holds it. */
  predicate ReadOk(s: State, r: (Tid, Capture)) {
    && r.0 < |s.threads| && Past(s.threads[r.0].pc) && r.1 == s.threads[r.0].latch
    && r.1 in Captures(s, s.threads[r.0].kind)
  }

  predicate ReadsOk(s: State) {
    && (forall i :: 0 <= i < |s.taken| ==> ReadOk(s, s.taken[i]))
    && (forall i, j :: 0 <= i < j < |s.taken| ==> s.taken[i].0 != s.taken[j].0)
    && (forall t :: 0 <= t < |s.threads| && s.threads[t].pc == Ack ==> (t, s.threads[t].latch) in s.taken)
  }

  /** The capture read is the one of the thread's own packet, and the thread is past its matching. */
  predicate Matches(s: State, r: (Tid, Capture)) {
    && r.0 < |s.threads| && s.threads[r.0].kind.Tx? && r.1.header == s.threads[r.0].key && s.threads[r.0].pc != Ack
  }

  /** The stamps are the captures read that match, each once. */
  ghost predicate StampsOk(s: State) {
    && (forall r :: r in s.stamps <==> r in s.taken && Matches(s, r))
    && (forall i, j :: 0 <= i < j < |s.stamps| ==> s.stamps[i].0 != s.stamps[j].0)
  }

  ghost predicate Valid(s: State) {
    && (s.owner.Some? ==> s.owner.value < |s.threads| && HolderOk(s, s.threads[s.owner.value]))
    && (forall t :: 0 <= t < |s.threads| ==> (s.owner == Some(t) <==> !Outside(s.threads[t].pc)))
    && LogsOk(s) && ReadsOk(s) && StampsOk(s)
  }

  lemma HolderMoves(s: State, s': State, t: Tid)
    requires Valid(s) && s.owner == Some(t) && s'.owner == s.owner
    requires |s'.threads| == |s.threads| && s'.threads == s.threads[t := s'.threads[t]]
    requires !Outside(s'.threads[t].pc) && HolderOk(s', s'.threads[t]) && LogsOk(s') && ReadsOk(s') && StampsOk(s')
    ensures Valid(s')
  {
  }

  lemma AdvanceTouchesOne(s: State, t: Tid, fails: bool, attached: bool)
    requires t < |s.threads|
    ensures var s' := Advance(s, t, fails, attached);
            && |s'.threads| == |s.threads| && s'.threads == s.threads[t := s'.threads[t]]
            && s'.sent == s.sent && s'.received == s.received
  {
  }

  lemma AdvanceMoves(s: State, t: Tid, fails: bool, attached: bool)
    requires t < |s.threads|
    ensures var s', th := Advance(s, t, fails, attached), s.threads[t];
            && t < |s'.threads| && s'.threads[t].key == th.key && s'.threads[t].kind == th.kind
            && (Past(th.pc) ==> Past(s'.threads[t].pc) && s'.threads[t].pc != Ack && s'.threads[t].latch == th.latch)
  {
  }

  lemma AdvanceReads(s: State, t: Tid, fails: bool, attached: bool)
    requires t < |s.threads|
    ensures var s', th := Advance(s, t, fails, attached), s.threads[t];
            && t < |s'.threads|
            && (if th.pc == Ns && !fails
                then s'.threads[t].pc == Ack && s'.taken == s.taken + [(t, s'.threads[t].latch)]
                else s'.threads[t].pc != Ack && s'.taken == s.taken)
  {
  }

  /** The stamps set by the next step of thread `t`, which is `th`. */
  function NewStamps(t: Tid, th: Thread): seq<(Tid, Capture)> {
    if th.pc == Ack && th.kind.Tx? && th.latch.header == th.key then [(t, th.latch)] else []
  }

  lemma AdvanceStamps(s: State, t: Tid, fails: bool, attached: bool)
    requires t < |s.threads|
    ensures var s', th := Advance(s, t, fails, attached), s.threads[t];
            s'.stamps == s.stamps + NewStamps(t, th)
  {
  }

  /** What a thread has read at last is the capture at the head of its queue. */
  lemma ReadIsHead(s: State, t: Tid, attached: bool)
    requires Valid(s) && t < |s.threads| && s.threads[t].pc == Ns
    ensures var q := Queue(s, s.threads[t].kind);
            && q != [] && q[0] in Captures(s, s.threads[t].kind)
            && Advance(s, t, false, attached).threads[t].latch == q[0]
  {
    assert HolderOk(s, s.threads[t]);
  }

  lemma AdvanceKeepsReads(s: State, t: Tid, fails: bool, attached: bool)
    requires Valid(s) && t < |s.threads|
    ensures ReadsOk(Advance(s, t, fails, attached))
  {
    var s', th := Advance(s, t, fails, attached), s.threads[t];
    AdvanceTouchesOne(s, t, fails, attached);
    AdvanceMoves(s, t, fails, attached);
    AdvanceReads(s, t, fails, attached);
    forall i | 0 <= i < |s.taken|
      ensures ReadOk(s', s.taken[i])
    {
      assert ReadOk(s, s.taken[i]);
    }
    if th.pc == Ns && !fails {
      ReadIsHead(s, t, attached);
      forall i | 0 <= i < |s.taken|
        ensures s.taken[i].0 != t
      {
        assert ReadOk(s, s.taken[i]);
      }
    }
  }

  lemma AdvanceKeepsStamps(s: State, t: Tid, fails: bool, attached: bool)
    requires Valid(s) && t < |s.threads|
    ensures StampsOk(Advance(s, t, fails, attached))
  {
    var s', th := Advance(s, t, fails, attached), s.threads[t];
    AdvanceTouchesOne(s, t, fails, attached);
    AdvanceMoves(s, t, fails, attached);
    AdvanceReads(s, t, fails, attached);
    AdvanceStamps(s, t, fails, attached);
    forall r | r in s.taken
      ensures ReadOk(s, r)
    {
    }
    forall r
      ensures r in s'.stamps <==> r in s'.taken && Matches(s', r)
    {
      StampIff(s, s', t, r);
    }
    forall i | 0 <= i < |s.stamps|
      ensures s.stamps[i].0 == t ==> th.pc != Ack
    {
      assert s.stamps[i] in s.taken && Matches(s, s.stamps[i]);
    }
  }

  lemma StampIff(s: State, s': State, t: Tid, r: (Tid, Capture))
    requires ReadsOk(s) && StampsOk(s) && t < |s.threads| == |s'.threads| && s'.threads == s.threads[t := s'.threads[t]]
    requires var th, th' := s.threads[t], s'.threads[t];
             && th'.key == th.key && th'.kind == th.kind
             && (Past(th.pc) ==> Past(th'.pc) && th'.pc != Ack)
             && (s'.taken == s.taken || (th.pc == Ns && th'.pc == Ack && s'.taken == s.taken + [(t, th'.latch)]))
             && s'.stamps == s.stamps + NewStamps(t, th)
    ensures r in s'.stamps <==> r in s'.taken && Matches(s', r)
  {
    assert r in s.taken ==> ReadOk(s, r);
    assert r in s.stamps <==> r in s.taken && Matches(s, r);
  }

  lemma DroppedSnoc(acks: seq<Drop>, d: Drop, k: Kind)
    ensures Dropped(acks + [d], k) == Dropped(acks, k) + if d.kind == k then [d.dropped] else []
  {
    assert (acks + [d])[..|acks|] == acks;
  }

  lemma DropHead(captured: seq<Capture>, acks: seq<Drop>, d: Drop, k: Kind, queue: seq<Capture>)
    requires Conserved(captured, acks, k, queue) && queue != [] && d.dropped == queue[0]
    ensures d.kind == k ==> Conserved(captured, acks + [d], k, queue[1..])
  {
    DroppedSnoc(acks, d, k);
    assert queue == [queue[0]] + queue[1..];
  }

  lemma DropOther(captured: seq<Capture>, acks: seq<Drop>, d: Drop, k: Kind, queue: seq<Capture>)
    requires Conserved(captured, acks, k, queue) && d.kind != k
    ensures Conserved(captured, acks + [d], k, queue)
  {
    DroppedSnoc(acks, d, k);
  }

  lemma AckedKeepsLogs(s: State, th: Thread)
    requires LogsOk(s) && Queue(s, th.kind) != [] && th.latch == Queue(s, th.kind)[0]
    ensures LogsOk(Acked(s, th))
  {
    var d := Drop(th.kind, th.latch, th.latch);
    if th.kind.Rx? {
      DropHead(s.received, s.acks, d, Rx, s.rx);
      DropOther(s.sent, s.acks, d, Tx, s.tx);
    } else {
      DropHead(s.sent, s.acks, d, Tx, s.tx);
      DropOther(s.received, s.acks, d, Rx, s.rx);
    }
  }

  lemma AdvanceKeepsLogs(s: State, t: Tid, fails: bool, attached: bool)
    requires Valid(s) && t < |s.threads|
    ensures LogsOk(Advance(s, t, fails, attached))
  {
    var th := s.threads[t];
    assert !Outside(th.pc) ==> HolderOk(s, th);
    if th.pc == Ack && !fails {
      AckedKeepsLogs(Stamped(s, t, th), th);
    }
  }

  lemma AdvanceHolderOk(s: State, t: Tid, fails: bool, attached: bool)
    requires Valid(s) && t < |s.threads| && !Outside(s.threads[t].pc) && s.threads[t].pc != Unlock
    ensures var s' := Advance(s, t, fails, attached);
            s'.owner == s.owner && t < |s'.threads| && !Outside(s'.threads[t].pc) && HolderOk(s', s'.threads[t])
  {
    assert HolderOk(s, s.threads[t]);
  }

  lemma AdvanceKeepsValid(s: State, t: Tid, fails: bool, attached: bool)
    requires Valid(s) && t < |s.threads|
    ensures Valid(Advance(s, t, fails, attached))
  {
    var pc := s.threads[t].pc;
    AdvanceKeepsLogs(s, t, fails, attached);
    AdvanceKeepsReads(s, t, fails, attached);
    AdvanceKeepsStamps(s, t, fails, attached);
    AdvanceTouchesOne(s, t, fails, attached);
    if !Outside(pc) && pc != Unlock {
      AdvanceHolderOk(s, t, fails, attached);
      HolderMoves(s, Advance(s, t, fails, attached), t);
    } else {
      EntryAndExit(s, t, fails, attached);
    }
  }

  lemma EntryAndExit(s: State, t: Tid, fails: bool, attached: bool)
    requires Valid(s) && t < |s.threads| && (Outside(s.threads[t].pc) || s.threads[t].pc == Unlock)
    ensures var s' := Advance(s, t, fails, attached);
            && (s'.owner.Some? ==> s'.owner.value < |s'.threads| && HolderOk(s', s'.threads[s'.owner.value]))
            && (forall u :: 0 <= u < |s'.threads| ==> (s'.owner == Some(u) <==> !Outside(s'.threads[u].pc)))
  {
  }

  lemma SpawnKeepsValid(s: State, kind: Kind, key: nat)
    requires Valid(s)
    ensures Valid(Next(s, Spawn(kind, key)))
  {
    var s' := Next(s, Spawn(kind, key));
    forall r | r in s.taken
      ensures ReadOk(s, r) && ReadOk(s', r) && (Matches(s', r) <==> Matches(s, r))
    {
    }
  }

  lemma CapturedKeepsValid(s: State, k: Kind, c: Capture)
    requires Valid(s)
    ensures Valid(Next(s, Captured(k, c)))
  {
    var s' := Next(s, Captured(k, c));
    forall r | r in s.taken
      ensures ReadOk(s, r) && ReadOk(s', r) && (Matches(s', r) <==> Matches(s, r))
    {
    }
  }

  lemma NextKeepsValid(s: State, a: Action)
    requires Valid(s)
    ensures Valid(Next(s, a))
  {
    match a
    case Spawn(kind, key) => SpawnKeepsValid(s, kind, key);
    case Captured(k, c) => CapturedKeepsValid(s, k, c);
    case Run(t, fails, attached) =>
      if t < |s.threads| {
        AdvanceKeepsValid(s, t, fails, attached);
      }
  }

  function RunAll(s: State, actions: seq<Action>): State
    decreases |actions|
  {
    if actions == [] then s else RunAll(Next(s, actions[0]), actions[1..])
  }

  lemma {:induction false} RunKeepsValid(s: State, actions: seq<Action>)
    requires Valid(s)
    ensures Valid(RunAll(s, actions))
    decreases |actions|
  {
    if actions != [] {
      NextKeepsValid(s, actions[0]);
      RunKeepsValid(Next(s, actions[0]), actions[1..]);
    }
  }

  /** In every interleaving each banked read is made with its own bank selected, header, seconds and nanoseconds
      come from the one capture that is then acknowledged, and at most one thread is inside. */
  lemma BankExclusion(actions: seq<Action>)
    ensures var s := RunAll(Init, actions);
            && (forall i :: 0 <= i < |s.looks| ==> s.looks[i].0 == s.looks[i].1)
            && (forall i :: 0 <= i < |s.acks| ==> s.acks[i].read == s.acks[i].dropped)
            && (forall t, u :: 0 <= t < u < |s.threads| ==> Outside(s.threads[t].pc) || Outside(s.threads[u].pc))
            && (forall t :: 0 <= t < |s.threads| && s.threads[t].pc == Done ==> s.owner != Some(t))
  {
    RunKeepsValid(Init, actions);
  }

  /** In every interleaving a transmit thread that is past its matching has stamped its packet if and only if it has
      read a whole capture with its own packet's header: once, with that capture, which the hardware took for a
      transmitted frame. */
  lemma TransmitStamps(actions: seq<Action>)
    ensures var s := RunAll(Init, actions);
            && (forall r :: r in s.stamps <==> r in s.taken && Matches(s, r))
            && (forall i, j :: 0 <= i < j < |s.stamps| ==> s.stamps[i].0 != s.stamps[j].0)
            && (forall i, j :: 0 <= i < j < |s.taken| ==> s.taken[i].0 != s.taken[j].0)
            && (forall r :: r in s.taken ==> r.0 < |s.threads| && r.1 in Captures(s, s.threads[r.0].kind))
  {
    RunKeepsValid(Init, actions);
    var s := RunAll(Init, actions);
    forall r | r in s.taken
      ensures ReadOk(s, r)
    {
    }
  }

  /** No capture is lost or read twice: those acknowledged are, in order, the first of those captured, and the rest is
      still queued. */
  lemma CapturesConserved(actions: seq<Action>)
    ensures var s := RunAll(Init, actions);
            s.received == Dropped(s.acks, Rx) + s.rx && s.sent == Dropped(s.acks, Tx) + s.tx
  {
    RunKeepsValid(Init, actions);
  }

  // ---------- The lock is always released ----------

  /** Own steps a thread inside still makes before it has released the lock. */
  function StepsLeft(th: Thread): nat {
    match th.pc
    case Choose => 20
    case SelGeneral => 19
    case Cap(n) => if n <= TX_POLLS then 2 * (TX_POLLS - n) + 8 else 8
    case Sleep(n) => if n <= TX_POLLS then 2 * (TX_POLLS - n) + 7 else 7
    case SelPort => 6
    case Header => 5
    case Sec => 4
    case Ns => 3
    case Ack => 2
    case Unlock => 1
    case _ => 0
  }

  function OwnSteps(actions: seq<Action>, t: Tid): nat {
    if actions == [] then 0 else (if actions[0].Run? && actions[0].t == t then 1 else 0) + OwnSteps(actions[1..], t)
  }

  lemma MoveCounts(s: State, t: Tid, th: Thread, fails: bool, attached: bool)
    requires th.pc != Lock && th.pc != Done && HolderOk(s, th)
    ensures var th' := Move(s, t, th, fails, attached).1; th'.pc != Lock && StepsLeft(th') < StepsLeft(th)
  {
  }

  lemma OwnStepCounts(s: State, t: Tid, a: Action)
    requires Valid(s) && t < |s.threads| && s.threads[t].pc != Lock && a.Run? && a.t == t
    ensures var s' := Next(s, a);
            t < |s'.threads| && s'.threads[t].pc != Lock
            && (StepsLeft(s'.threads[t]) < StepsLeft(s.threads[t]) || (s.threads[t].pc == Done && s' == s))
  {
    var th := s.threads[t];
    if th.pc == Done {
      assert s.threads[t := th] == s.threads;
    } else {
      assert HolderOk(s, th);
      MoveCounts(s, t, th, a.fails, a.attached);
    }
  }

  lemma OtherStepsPass(s: State, t: Tid, a: Action)
    requires t < |s.threads| && !(a.Run? && a.t == t)
    ensures var s' := Next(s, a); t < |s'.threads| && s'.threads[t] == s.threads[t]
  {
    if a.Run? && a.t < |s.threads| {
      AdvanceTouchesOne(s, a.t, a.fails, a.attached);
      assert Advance(s, a.t, a.fails, a.attached).threads[t] == s.threads[t];
    }
  }

  /** Whatever fails on the way, a thread that entered leaves, with the lock released, after at most 20 of its own
      steps, however the others are interleaved. */
  lemma {:induction false} LockIsReleased(s: State, t: Tid, actions: seq<Action>)
    requires Valid(s) && t < |s.threads| && s.threads[t].pc != Lock
    requires OwnSteps(actions, t) >= StepsLeft(s.threads[t])
    ensures var r := RunAll(s, actions); t < |r.threads| && r.threads[t].pc == Done && r.owner != Some(t)
    decreases |actions|
  {
    if actions != [] {
      NextKeepsValid(s, actions[0]);
      if actions[0].Run? && actions[0].t == t {
        OwnStepCounts(s, t, actions[0]);
      } else {
        OtherStepsPass(s, t, actions[0]);
      }
      LockIsReleased(Next(s, actions[0]), t, actions[1..]);
    }
  }

  // ---------- A capture that is found is read and acknowledged ----------

  predicate AtHead(s: State, k: Kind, c: Capture) {
    Queue(s, k) != [] && Queue(s, k)[0] == c
  }

  /** Thread `t` is inside with capture `c` at the head of its queue, before its last look or on its way through the
      registers, or has read and acknowledged it; `acks` is how many acknowledgements there were before. */
  predicate OnItsWay(s: State, t: Tid, c: Capture, acks: nat) {
    && t < |s.threads| && acks <= |s.acks|
    && var th := s.threads[t];
       match th.pc
       case Choose => AtHead(s, th.kind, c) && acks == |s.acks|
       case SelGeneral => AtHead(s, th.kind, c) && acks == |s.acks|
       case Cap(n) => AtHead(s, th.kind, c) && acks == |s.acks|
       case Sleep(n) => AtHead(s, th.kind, c) && acks == |s.acks| && n < th.kind.Polls()
       case SelPort => AtHead(s, th.kind, c) && acks == |s.acks|
       case Header => AtHead(s, th.kind, c) && acks == |s.acks|
       case Sec => AtHead(s, th.kind, c) && acks == |s.acks|
       case Ns => AtHead(s, th.kind, c) && acks == |s.acks|
       case Ack => AtHead(s, th.kind, c) && acks == |s.acks| && (t, c) in s.taken
       case Unlock => Acknowledged(s, t, c, acks)
       case Done => Acknowledged(s, t, c, acks)
       case _ => false
  }

  predicate Acknowledged(s: State, t: Tid, c: Capture, acks: nat)
    requires t < |s.threads|
  {
    (t, c) in s.taken && acks < |s.acks| && s.acks[acks] == Drop(s.threads[t].kind, c, c)
  }

  predicate SamePacket(th: Thread, th': Thread) {
    th'.kind == th.kind && th'.key == th.key
  }

  /** None of the thread's own transfers fails, and the tables have nothing for its packet. */
  predicate Untroubled(actions: seq<Action>, t: Tid) {
    forall a :: a in actions && a.Run? && a.t == t ==> !a.fails && !a.attached
  }

  lemma OwnStepOnItsWay(s: State, t: Tid, c: Capture, acks: nat)
    requires Valid(s) && OnItsWay(s, t, c, acks)
    ensures OnItsWay(Advance(s, t, false, false), t, c, acks)
    ensures SamePacket(s.threads[t], Advance(s, t, false, false).threads[t])
  {
    assert !Outside(s.threads[t].pc) ==> HolderOk(s, s.threads[t]);
  }

  lemma AckedGrows(s: State, th: Thread)
    ensures s.acks <= Acked(s, th).acks
  {
  }

  /** History only grows. */
  lemma AcksGrow(s: State, t: Tid, fails: bool, attached: bool)
    requires t < |s.threads|
    ensures s.acks <= Advance(s, t, fails, attached).acks
  {
    if s.threads[t].pc == Ack {
      AckedGrows(Stamped(s, t, s.threads[t]), s.threads[t]);
    } else {
      assert Advance(s, t, fails, attached).acks == s.acks;
    }
  }

  /** A thread outside changes nothing while another is inside. */
  lemma OutsideWaits(s: State, t: Tid, fails: bool, attached: bool)
    requires t < |s.threads| && s.owner.Some? && Outside(s.threads[t].pc)
    ensures var s' := Advance(s, t, fails, attached); s'.rx == s.rx && s'.tx == s.tx && s'.acks == s.acks
  {
  }

  lemma OtherStepOnItsWay(s: State, t: Tid, c: Capture, acks: nat, a: Action)
    requires Valid(s) && OnItsWay(s, t, c, acks) && !(a.Run? && a.t == t)
    ensures OnItsWay(Next(s, a), t, c, acks) && SamePacket(s.threads[t], Next(s, a).threads[t])
  {
    OtherStepsPass(s, t, a);
    if a.Run? && a.t < |s.threads| {
      AdvanceReads(s, a.t, a.fails, a.attached);
      AcksGrow(s, a.t, a.fails, a.attached);
      if s.owner.Some? && Outside(s.threads[a.t].pc) {
        OutsideWaits(s, a.t, a.fails, a.attached);
      }
    }
  }

  lemma {:induction false} StaysOnItsWay(s: State, t: Tid, c: Capture, acks: nat, actions: seq<Action>)
    requires Valid(s) && OnItsWay(s, t, c, acks) && Untroubled(actions, t)
    ensures Valid(RunAll(s, actions)) && OnItsWay(RunAll(s, actions), t, c, acks)
    ensures SamePacket(s.threads[t], RunAll(s, actions).threads[t])
    decreases |actions|
  {
    if actions != [] {
      NextKeepsValid(s, actions[0]);
      if actions[0].Run? && actions[0].t == t {
        OwnStepOnItsWay(s, t, c, acks);
      } else {
        OtherStepOnItsWay(s, t, c, acks, actions[0]);
      }
      StaysOnItsWay(Next(s, actions[0]), t, c, acks, actions[1..]);
    }
  }

  /** A thread inside that still looks, or has looked, when a capture is queued, and whose transfers succeed, leaves,
      however the others are interleaved, having read that capture and had the hardware drop it; a transmit thread has
      stamped its packet with it if and only if the capture is of that packet. */
  lemma FoundIsTaken(s: State, t: Tid, c: Capture, actions: seq<Action>)
    requires Valid(s) && t < |s.threads| && AtHead(s, s.threads[t].kind, c)
    requires var pc := s.threads[t].pc;
             || pc in {Choose, SelGeneral, SelPort, Header, Sec, Ns} || pc.Cap?
             || (pc.Sleep? && pc.n < s.threads[t].kind.Polls())
    requires Untroubled(actions, t) && OwnSteps(actions, t) >= 20
    ensures var r := RunAll(s, actions);
            && t < |r.threads| && r.threads[t].pc == Done && (t, c) in r.taken
            && |s.acks| < |r.acks| && r.acks[|s.acks|] == Drop(s.threads[t].kind, c, c)
            && ((t, c) in r.stamps <==> s.threads[t].kind.Tx? && c.header == s.threads[t].key)
  {
    assert HolderOk(s, s.threads[t]);
    LockIsReleased(s, t, actions);
    StaysOnItsWay(s, t, c, |s.acks|, actions);
  }

  // ---------- A transmit thread looks five times ----------

  function OwnRun(t: Tid, n: nat): seq<Action> {
    if n == 0 then [] else [Run(t, false, false)] + OwnRun(t, n - 1)
  }

  lemma OwnRunFirst(s: State, t: Tid, n: nat)
    requires n > 0 && t < |s.threads|
    ensures RunAll(s, OwnRun(t, n)) == RunAll(Advance(s, t, false, false), OwnRun(t, n - 1))
  {
    assert OwnRun(t, n)[1..] == OwnRun(t, n - 1);
  }

  lemma {:induction false} LooksUntilFive(s: State, t: Tid, n: nat)
    requires t < |s.threads| && s.threads[t].kind.Tx? && s.threads[t].pc == Cap(n) && 1 <= n <= 5 && s.tx == []
    ensures var r := RunAll(s, OwnRun(t, 2 * (6 - n)));
            && |r.looks| == |s.looks| + 6 - n && t < |r.threads| && r.threads[t].pc == Unlock
    decreases 6 - n
  {
    var s1 := Advance(s, t, false, false);
    var s2 := Advance(s1, t, false, false);
    OwnRunFirst(s, t, 2 * (6 - n));
    OwnRunFirst(s1, t, 2 * (6 - n) - 1);
    if n < 5 {
      LooksUntilFive(s2, t, n + 1);
    }
  }

  /** A transmit thread that finds nothing looks five times before it gives up. */
  lemma LooksFiveTimes(s: State, t: Tid)
    requires t < |s.threads| && s.threads[t].kind.Tx? && s.threads[t].pc == SelGeneral && s.tx == []
    ensures var r := RunAll(s, OwnRun(t, 11));
            |r.looks| == |s.looks| + 5 && t < |r.threads| && r.threads[t].pc == Unlock
  {
    OwnRunFirst(s, t, 11);
    LooksUntilFive(Advance(s, t, false, false), t, 1);
  }
}
