/** What the timestamp matcher guarantees on every run. */
module MatcherTheorems {
  import opened Wrappers
  import opened PtpHeader
  import opened SlotTable
  import opened Matcher
  import opened MatcherFates

  predicate RunOk(s: State, actions: seq<Action>)
    requires Sized(s)
    decreases |actions|
  {
    actions == [] || (Allowed(s, actions[0]) && RunOk(Next(s, actions[0]), actions[1..]))
  }

  function Run(s: State, actions: seq<Action>): (r: State)
    requires Sized(s) && RunOk(s, actions)
    ensures Sized(r)
    decreases |actions|
  {
    if actions == [] then s else Run(Next(s, actions[0]), actions[1..])
  }

  lemma InitValid(now: int)
    ensures Valid(Init(now), -1)
  {
  }

  lemma {:induction false} RunValid(s: State, actions: seq<Action>)
    requires Valid(s, -1) && RunOk(s, actions)
    ensures Valid(Run(s, actions), -1)
    decreases |actions|
  {
    if actions != [] {
      NextValid(s, actions[0]);
      RunValid(Next(s, actions[0]), actions[1..]);
    }
  }

  // ---------- Safety, duplicate keys included ----------

  /** Whatever the run: no key is live in both tables, a capture is stamped on at most one packet, a packet is
      stamped at most once, and both carry the same key. */
  lemma StampSafety(now: int, actions: seq<Action>)
    requires RunOk(Init(now), actions)
    ensures var s := Run(Init(now), actions);
            && (forall i, j :: 0 <= i < SLOTS && 0 <= j < SLOTS && s.pending[i].Held? && s.unclaimed[j].Held? ==>
                                 s.pending[i].key != s.unclaimed[j].key)
            && (forall m, n :: 0 <= m < n < |s.stamps| ==>
                                 s.stamps[m].pkt != s.stamps[n].pkt && s.stamps[m].cap.id != s.stamps[n].cap.id)
            && (forall n :: 0 <= n < |s.stamps| ==>
                              && s.stamps[n].pkt < |s.frames|
                              && s.frames[s.stamps[n].pkt].key == Some(s.stamps[n].cap.key))
            && (forall n :: 0 <= n < |s.stamps| ==>
                              s.stamps[n].cap.id < |s.events| && s.events[s.stamps[n].cap.id].cap == s.stamps[n].cap)
  {
    InitValid(now);
    RunValid(Init(now), actions);
    var s := Run(Init(now), actions);
    forall m, n | 0 <= m < n < |s.stamps|
      ensures s.stamps[m].pkt != s.stamps[n].pkt && s.stamps[m].cap.id != s.stamps[n].cap.id
    {
      assert s.frames[s.stamps[m].pkt].fate == Stamped(m) && s.frames[s.stamps[n].pkt].fate == Stamped(n);
      assert s.events[s.stamps[m].cap.id].fate == Stamped(m) && s.events[s.stamps[n].cap.id].fate == Stamped(n);
    }
  }

  // ---------- The join ----------

  /** Frames the hardware is to timestamp. */
  predicate Seen(s: State, q: nat) {
    q < |s.frames| && s.frames[q].key.Some? && Timestamped(s.frames[q].key.value)
  }

  /** Captures read from the hardware queue. */
  predicate Drained(s: State, e: nat) {
    e < |s.events| && s.events[e].fate != Open
  }

  /** Keys are unique among frames and among captures, and only enabled types are captured. */
  predicate UniqueKeys(s: State) {
    && (forall p, q :: 0 <= p < q < |s.frames| && s.frames[p].key.Some? ==> s.frames[p].key != s.frames[q].key)
    && (forall d, e :: 0 <= d < e < |s.events| ==> s.events[d].cap.key != s.events[e].cap.key)
    && (forall e :: 0 <= e < |s.events| ==> Timestamped(s.events[e].cap.key))
  }

  predicate Joined(s: State, q: nat, e: nat)
    requires q < |s.frames| && e < |s.events|
  {
    s.frames[q].fate.Stamped? && s.events[e].fate == s.frames[q].fate
    && s.frames[q].fate.n < |s.stamps| && s.stamps[s.frames[q].fate.n] == Stamp(q, s.events[e].cap)
  }

  /** A filed frame and a filed capture never have the same key. */
  lemma FiledApart(s: State, q: nat, e: nat)
    requires Valid(s, -1) && q < |s.frames| && e < |s.events|
    ensures s.frames[q].fate.Filed? && s.events[e].fate.Filed? ==> s.frames[q].key != Some(s.events[e].cap.key)
  {
    if s.frames[q].fate.Filed? && s.events[e].fate.Filed? {
      assert s.pending[s.frames[q].fate.slot].key != s.unclaimed[s.events[e].fate.slot].key;
    }
  }

  /** With unique keys, one of a stamped pair determines the other. */
  lemma StampPartner(s: State, q: nat, e: nat)
    requires Valid(s, -1) && UniqueKeys(s) && q < |s.frames| && e < |s.events|
    requires s.frames[q].key == Some(s.events[e].cap.key)
    ensures s.frames[q].fate.Stamped? || s.events[e].fate.Stamped? ==> Joined(s, q, e)
  {
    if s.frames[q].fate.Stamped? {
      var d := s.stamps[s.frames[q].fate.n].cap.id;
      assert s.events[d].cap.key == s.events[e].cap.key;
      assert d == e;
    }
    if s.events[e].fate.Stamped? {
      var p := s.stamps[s.events[e].fate.n].pkt;
      assert s.frames[p].key == s.frames[q].key;
      assert p == q;
    }
  }

  /** In every state a seen frame and the drained capture with its key have been joined,
      unless one of them was given up by expiry or eviction. */
  lemma JoinOrLoss(s: State, q: nat, e: nat)
    requires Valid(s, -1) && UniqueKeys(s)
    requires Seen(s, q) && Drained(s, e) && s.frames[q].key == Some(s.events[e].cap.key)
    ensures Joined(s, q, e) || s.frames[q].fate == Lost || s.events[e].fate == Lost
  {
    FiledApart(s, q, e);
    StampPartner(s, q, e);
  }

  predicate NothingLost(s: State) {
    && (forall q :: 0 <= q < |s.frames| ==> s.frames[q].fate != Lost)
    && (forall e :: 0 <= e < |s.events| ==> s.events[e].fate != Lost)
  }

  ghost predicate HasCapture(s: State, q: nat)
    requires q < |s.frames|
  {
    exists e: nat :: Drained(s, e) && s.frames[q].key == Some(s.events[e].cap.key)
  }

  ghost predicate HasFrame(s: State, e: nat)
    requires e < |s.events|
  {
    exists q: nat :: Seen(s, q) && s.frames[q].key == Some(s.events[e].cap.key)
  }

  ghost predicate IsUnclaimed(s: State, cap: Capture) {
    exists i :: 0 <= i < |s.unclaimed| && s.unclaimed[i].Held? && s.unclaimed[i].item == cap
  }

  /** The stamped frames are those seen whose capture was drained, each with its own capture's time; the pending
      ones are those seen whose capture was not; the unclaimed captures are those drained whose frame was not seen. */
  ghost predicate IsJoin(s: State) {
    && (forall q: nat, e: nat ::
          Seen(s, q) && Drained(s, e) && s.frames[q].key == Some(s.events[e].cap.key) ==> Joined(s, q, e))
    && (forall n :: 0 <= n < |s.stamps| ==> Seen(s, s.stamps[n].pkt) && Drained(s, s.stamps[n].cap.id))
    && (forall q: nat :: Seen(s, q) ==>
          (HasCapture(s, q) <==> s.frames[q].fate.Stamped?) && (!HasCapture(s, q) <==> Naming(s.pending, q) == 1))
    && (forall e: nat :: Drained(s, e) ==>
          (HasFrame(s, e) <==> s.events[e].fate.Stamped?) && (!HasFrame(s, e) <==> IsUnclaimed(s, s.events[e].cap)))
  }

  /** The matcher is a key join: without expiry and eviction, whatever the interleaving. */
  lemma MatcherIsJoin(now: int, actions: seq<Action>)
    requires RunOk(Init(now), actions)
    requires UniqueKeys(Run(Init(now), actions)) && NothingLost(Run(Init(now), actions))
    ensures IsJoin(Run(Init(now), actions))
  {
    InitValid(now);
    RunValid(Init(now), actions);
    ValidIsJoin(Run(Init(now), actions));
  }

  lemma ValidIsJoin(s: State)
    requires Valid(s, -1) && UniqueKeys(s) && NothingLost(s)
    ensures IsJoin(s)
  {
    forall q: nat, e: nat | Seen(s, q) && Drained(s, e) && s.frames[q].key == Some(s.events[e].cap.key)
      ensures Joined(s, q, e)
    {
      JoinOrLoss(s, q, e);
    }
    forall q: nat | Seen(s, q)
      ensures (HasCapture(s, q) <==> s.frames[q].fate.Stamped?) && (!HasCapture(s, q) <==> Naming(s.pending, q) == 1)
    {
      SeenFrame(s, q);
    }
    forall e: nat | Drained(s, e)
      ensures (HasFrame(s, e) <==> s.events[e].fate.Stamped?) && (!HasFrame(s, e) <==> IsUnclaimed(s, s.events[e].cap))
    {
      DrainedCapture(s, e);
    }
  }

  lemma SeenFrame(s: State, q: nat)
    requires Valid(s, -1) && UniqueKeys(s) && NothingLost(s) && Seen(s, q)
    ensures HasCapture(s, q) <==> s.frames[q].fate.Stamped?
    ensures !HasCapture(s, q) <==> Naming(s.pending, q) == 1
  {
    NamingIsFiled(s, q);
    if HasCapture(s, q) {
      var e: nat :| Drained(s, e) && s.frames[q].key == Some(s.events[e].cap.key);
      JoinOrLoss(s, q, e);
    } else if s.frames[q].fate.Stamped? {
      assert Drained(s, s.stamps[s.frames[q].fate.n].cap.id);
    }
  }

  lemma DrainedCapture(s: State, e: nat)
    requires Valid(s, -1) && UniqueKeys(s) && NothingLost(s) && Drained(s, e)
    ensures HasFrame(s, e) <==> s.events[e].fate.Stamped?
    ensures !HasFrame(s, e) <==> IsUnclaimed(s, s.events[e].cap)
  {
    if HasFrame(s, e) {
      var q: nat :| Seen(s, q) && s.frames[q].key == Some(s.events[e].cap.key);
      JoinOrLoss(s, q, e);
    } else {
      if s.events[e].fate.Stamped? {
        assert Seen(s, s.stamps[s.events[e].fate.n].pkt);
      }
      assert s.unclaimed[s.events[e].fate.slot].item == s.events[e].cap;
    }
  }

  // ---------- Nothing is given up without cause ----------

  predicate NoneDue(s: State, now: int) {
    && (forall i :: 0 <= i < |s.pending| ==> !Due(s.pending[i], now))
    && (forall i :: 0 <= i < |s.unclaimed| ==> !Due(s.unclaimed[i], now))
  }

  lemma {:induction false} NoneDuePending(s: State, now: int, i: nat)
    requires Sized(s) && i <= SLOTS && NoneDue(s, now)
    ensures ExpirePending(s, now, i) == s
    decreases SLOTS - i
  {
    if i < SLOTS { NoneDuePending(s, now, i + 1); }
  }

  lemma {:induction false} NoneDueUnclaimed(s: State, now: int, i: nat)
    requires Sized(s) && i <= SLOTS && NoneDue(s, now)
    ensures ExpireUnclaimed(s, now, i) == s
    decreases SLOTS - i
  {
    if i < SLOTS { NoneDueUnclaimed(s, now, i + 1); }
  }

  predicate Kept(f: Fate, f': Fate) {
    f' == Lost ==> f == Lost
  }

  predicate NoneGivenUp(s: State, r: State) {
    && |s.frames| <= |r.frames| && |s.events| <= |r.events|
    && (forall q :: 0 <= q < |r.frames| ==> Kept(if q < |s.frames| then s.frames[q].fate else Open, r.frames[q].fate))
    && (forall e :: 0 <= e < |r.events| ==> Kept(if e < |s.events| then s.events[e].fate else Open, r.events[e].fate))
  }

  lemma EnqueueGivesUpNone(s: State, p: nat, k: Key, now: int)
    requires Sized(s) && !Full(s.pending)
    ensures NoneGivenUp(s, Enqueue(s, p, k, now))
  {
  }

  lemma StashGivesUpNone(s: State, now: int)
    requires Sized(s) && s.queue != [] && !Full(s.unclaimed)
    ensures NoneGivenUp(s, StashSomewhere(s, now)) && StashSomewhere(s, now).pending == s.pending
  {
  }

  lemma MatchGivesUpNone(s: State, j: nat)
    requires Sized(s) && s.queue != [] && j < SLOTS && s.pending[j].Held?
    ensures NoneGivenUp(s, Match(s, j)) && Match(s, j).pending[j].Free?
  {
  }

  lemma ExpireGivesUpNone(s: State, now: int)
    requires Sized(s) && NoneDue(s, now)
    ensures Expire(s, now) == s.(clock := now)
  {
    NoneDuePending(s.(clock := now), now, 0);
    NoneDueUnclaimed(s.(clock := now), now, 0);
  }

  lemma GiveUpTransitive(s: State, r: State, q: State)
    requires NoneGivenUp(s, r) && NoneGivenUp(r, q)
    ensures NoneGivenUp(s, q)
  {
    forall i | 0 <= i < |q.frames|
      ensures Kept(if i < |s.frames| then s.frames[i].fate else Open, q.frames[i].fate)
    {
      assert Kept(if i < |r.frames| then r.frames[i].fate else Open, q.frames[i].fate);
    }
    forall i | 0 <= i < |q.events|
      ensures Kept(if i < |s.events| then s.events[i].fate else Open, q.events[i].fate)
    {
      assert Kept(if i < |r.events| then r.events[i].fate else Open, q.events[i].fate);
    }
  }

  lemma AttachGivesUpNone(s: State, p: nat, cap: Capture)
    ensures NoneGivenUp(s, Attach(s, p, cap))
  {
  }

  lemma JoinGivesUpNone(s: State, p: nat, k: Key, t: Turn)
    requires Sized(s) && s.queue != [] && !Full(s.pending) && !Full(s.unclaimed)
    ensures var j := FindKey(s.pending, s.queue[0].key, 0);
            NoneGivenUp(s, Enqueue(if j < SLOTS then Match(s, j) else StashSomewhere(s, t.stash), p, k, t.hold))
  {
    var j := FindKey(s.pending, s.queue[0].key, 0);
    var s' := if j < SLOTS then Match(s, j) else StashSomewhere(s, t.stash);
    if j < SLOTS {
      MatchGivesUpNone(s, j);
      assert !Full(s'.pending);
    } else {
      StashGivesUpNone(s, t.stash);
    }
    EnqueueGivesUpNone(s', p, k, t.hold);
    GiveUpTransitive(s, s', Enqueue(s', p, k, t.hold));
  }

  lemma RestGivesUpNone(s: State, p: nat, k: Key, t: Turn)
    requires Sized(s) && !Full(s.pending) && !Full(s.unclaimed)
    ensures NoneGivenUp(s, CheckRest(s, p, k, t))
  {
    var u := FindKey(s.unclaimed, k, 0);
    if u < SLOTS {
      AttachGivesUpNone(s.(unclaimed := s.unclaimed[u := Free]), p, s.unclaimed[u].item);
    } else if s.queue == [] || !t.readable {
      EnqueueGivesUpNone(s, p, k, t.hold);
    } else if s.queue[0].key == k {
      AttachGivesUpNone(s.(queue := s.queue[1..]), p, s.queue[0]);
    } else {
      JoinGivesUpNone(s, p, k, t);
    }
  }

  lemma CheckGivesUpNone(s: State, p: nat, k: Key, t: Turn)
    requires Sized(s) && NoneDue(s, t.expire) && !Full(s.pending) && !Full(s.unclaimed)
    ensures NoneGivenUp(s, Check(s, p, k, t))
  {
    ExpireGivesUpNone(s, t.expire);
    RestGivesUpNone(s.(clock := t.expire), p, k, t);
  }

  lemma ArrivalGivesUpNone(s: State, frame: seq<Byte>, t: Turn)
    requires Sized(s) && Allowed(s, Receive(frame, t))
    requires NoneDue(s, t.expire) && !Full(s.pending) && !Full(s.unclaimed)
    ensures NoneGivenUp(s, Next(s, Receive(frame, t)))
  {
    var key := Parse(Truncated(frame));
    var s0 := Arrived(s, key);
    assert NoneGivenUp(s, s0);
    if key.Some? {
      CheckGivesUpNone(s0, |s.frames|, key.value, t);
      GiveUpTransitive(s, s0, Check(s0, |s.frames|, key.value, t));
    }
  }

  /** No deadline has passed when a step expires the tables, and no table is full when it may have to file. */
  predicate Unpressed(s: State, a: Action) {
    && (a.Receive? ==> NoneDue(s, a.t.expire) && !Full(s.pending) && !Full(s.unclaimed))
    && (a.NoBuffer? ==> NoneDue(s, a.now))
  }

  /** A step gives up a frame or a capture only when a deadline has passed or a table is full. */
  lemma LossHasCause(s: State, a: Action)
    requires Sized(s) && Allowed(s, a) && Unpressed(s, a)
    ensures NoneGivenUp(s, Next(s, a))
  {
    if a.Receive? {
      ArrivalGivesUpNone(s, a.frame, a.t);
    } else if a.NoBuffer? {
      ExpireGivesUpNone(s, a.now);
    }
  }

  predicate UnpressedRun(s: State, actions: seq<Action>)
    requires Sized(s) && RunOk(s, actions)
    decreases |actions|
  {
    actions == [] || (Unpressed(s, actions[0]) && UnpressedRun(Next(s, actions[0]), actions[1..]))
  }

  lemma {:induction false} RunGivesUpNone(s: State, actions: seq<Action>)
    requires Sized(s) && RunOk(s, actions) && UnpressedRun(s, actions)
    ensures NoneGivenUp(s, Run(s, actions))
    decreases |actions|
  {
    if actions != [] {
      LossHasCause(s, actions[0]);
      RunGivesUpNone(Next(s, actions[0]), actions[1..]);
      GiveUpTransitive(s, Next(s, actions[0]), Run(s, actions));
    }
  }

  /** A run whose tables are never full and never hold anything past its deadline, when it matters, is a key join. */
  lemma UnpressedRunIsJoin(now: int, actions: seq<Action>)
    requires RunOk(Init(now), actions) && UnpressedRun(Init(now), actions)
    requires UniqueKeys(Run(Init(now), actions))
    ensures NothingLost(Run(Init(now), actions)) && IsJoin(Run(Init(now), actions))
  {
    RunGivesUpNone(Init(now), actions);
    MatcherIsJoin(now, actions);
  }

  // ---------- References ----------

  /** The matcher's claim on a packet is the number of slots naming it, which is one exactly while it is filed. */
  lemma NamingIsFiled(s: State, q: nat)
    requires Inv(s, -1) && q < |s.frames|
    ensures Naming(s.pending, q) == if s.frames[q].fate.Filed? then 1 else 0
  {
    var fate := s.frames[q].fate;
    if fate.Filed? {
      var t := s.pending[fate.slot := Free];
      NamingUpdate(s.pending, fate.slot, Free, q);
      forall i | 0 <= i < |t|
        ensures Holds(t[i], q) == 0
      {
        assert t[i].Held? ==> s.frames[t[i].item].fate == Filed(i);
      }
      NamingZero(t, q);
    } else {
      NamingZero(s.pending, q);
    }
  }

  /** All references of packets from `n` down that are not those of others. */
  function Excess(refs: seq<int>, others: seq<nat>, n: nat): int
    requires n <= |refs| && n <= |others|
  {
    if n == 0 then 0 else Excess(refs, others, n - 1) + refs[n - 1] - others[n - 1]
  }

  function NamingSum(t: seq<Slot<nat>>, n: nat): nat {
    if n == 0 then 0 else NamingSum(t, n - 1) + Naming(t, n - 1)
  }

  lemma {:induction false} NamingSumSplit(t: seq<Slot<nat>>, n: nat)
    requires t != []
    ensures var last := t[|t| - 1];
            NamingSum(t, n) == NamingSum(t[..|t| - 1], n) + if last.Held? && last.item < n then 1 else 0
  {
    if n > 0 {
      NamingSumSplit(t, n - 1);
    }
  }

  lemma {:induction false} NamingSumEmpty(n: nat)
    ensures NamingSum([], n) == 0
  {
    if n > 0 {
      NamingSumEmpty(n - 1);
    }
  }

  lemma {:induction false} NamingSumIsHeld(t: seq<Slot<nat>>, n: nat)
    requires forall i :: 0 <= i < |t| && t[i].Held? ==> t[i].item < n
    ensures NamingSum(t, n) == HeldCount(t)
    decreases |t|
  {
    if t == [] {
      NamingSumEmpty(n);
    } else {
      NamingSumSplit(t, n);
      NamingSumIsHeld(t[..|t| - 1], n);
    }
  }

  predicate Conserved(s: State) {
    && |s.refs| == |s.others| == |s.frames|
    && forall q :: 0 <= q < |s.refs| ==> s.refs[q] == s.others[q] + Naming(s.pending, q)
  }

  lemma {:induction false} ExcessIsNaming(s: State, n: nat)
    requires Conserved(s) && n <= |s.refs|
    ensures Excess(s.refs, s.others, n) == NamingSum(s.pending, n)
  {
    if n > 0 {
      ExcessIsNaming(s, n - 1);
    }
  }

  lemma ValidIsConserved(s: State)
    requires Valid(s, -1)
    ensures Conserved(s)
  {
    forall q: nat | q < |s.refs|
      ensures s.refs[q] == s.others[q] + Naming(s.pending, q)
    {
      NamingIsFiled(s, q);
      assert s.refs[q] == s.others[q] + (if s.frames[q].fate.Filed? then 1 else 0);
    }
  }

  /** On every run, with the stack taking and releasing references at any time: the references to a packet are
      those of others and one for each slot naming it, and the matcher never holds more than 16 in all. */
  lemma ReferencesConserved(now: int, actions: seq<Action>)
    requires RunOk(Init(now), actions)
    ensures var s := Run(Init(now), actions);
            && Conserved(s)
            && Excess(s.refs, s.others, |s.refs|) == HeldCount(s.pending)
            && |s.pending| == |s.unclaimed| == 16
  {
    InitValid(now);
    RunValid(Init(now), actions);
    var s := Run(Init(now), actions);
    ValidIsConserved(s);
    ExcessIsNaming(s, |s.refs|);
    NamingSumIsHeld(s.pending, |s.refs|);
  }

  lemma EnqueueShape(s: State, p: nat, k: Key, now: int)
    requires Sized(s)
    ensures var r := Enqueue(s, p, k, now);
            r.stamps == s.stamps && r.queue == s.queue && r.others == s.others && r.events == s.events
  {
  }

  lemma StashShape(s: State, now: int)
    requires Sized(s) && s.queue != []
    ensures var r := StashSomewhere(s, now);
            r.stamps == s.stamps && r.queue == s.queue[1..] && r.others == s.others
  {
  }

  ghost predicate IsPending(s: State, p: nat) {
    exists j :: 0 <= j < |s.pending| && s.pending[j].Held? && s.pending[j].item == p
  }

  /** A check drains at most one capture and stamps at most one packet: its own or one pending since before. */
  lemma CheckShape(s: State, p: nat, k: Key, t: Turn)
    requires Sized(s)
    ensures var r := Check(s, p, k, t);
            && r.others == s.others
            && (r.queue == s.queue || (s.queue != [] && r.queue == s.queue[1..]))
            && (r.stamps == s.stamps
                || exists x :: r.stamps == s.stamps + [x]
                               && (x.pkt == p || IsPending(s, x.pkt)))
  {
    ExpireEffect(s, t.expire);
    var s1 := Expire(s, t.expire);
    var u := FindKey(s1.unclaimed, k, 0);
    if u == SLOTS && (s1.queue == [] || !t.readable) {
      EnqueueShape(s1, p, k, t.hold);
    } else if u == SLOTS && s1.queue[0].key != k {
      var j := FindKey(s1.pending, s1.queue[0].key, 0);
      if j < SLOTS {
        EnqueueShape(Match(s1, j), p, k, t.hold);
        assert s.pending[j] == s1.pending[j];
        assert Match(s1, j).stamps == s.stamps + [Stamp(s.pending[j].item, s1.queue[0])];
      } else {
        StashShape(s1, t.stash);
        EnqueueShape(StashSomewhere(s1, t.stash), p, k, t.hold);
      }
    } else {
      var cap := if u < SLOTS then s1.unclaimed[u].item else s1.queue[0];
      assert Check(s, p, k, t).stamps == s.stamps + [Stamp(p, cap)];
    }
  }

  /** A pending packet is still referenced, by the matcher and whoever else. */
  lemma PendingIsReferenced(s: State, j: nat)
    requires Valid(s, -1) && j < SLOTS && s.pending[j].Held?
    ensures var q := s.pending[j].item; q < |s.refs| && q < |s.others| && s.refs[q] == s.others[q] + 1
  {
    assert s.frames[s.pending[j].item].fate == Filed(j);
  }

  /** A packet the check stamps is still referenced: it is the one just received, or one that was pending. */
  lemma StampedIsReferenced(s: State, frame: seq<Byte>, t: Turn)
    requires Valid(s, -1) && Allowed(s, Receive(frame, t))
    ensures var r := Next(s, Receive(frame, t));
            r.stamps == s.stamps
            || exists x :: r.stamps == s.stamps + [x]
                           && (x.pkt == |s.frames| || (x.pkt < |s.refs| && s.refs[x.pkt] > 0))
  {
    var key := Parse(Truncated(frame));
    if key.Some? {
      var s0 := Arrived(s, key);
      CheckShape(s0, |s.frames|, key.value, t);
      forall j | 0 <= j < SLOTS && s.pending[j].Held?
        ensures s.pending[j].item < |s.refs| && s.refs[s.pending[j].item] > 0
      {
        PendingIsReferenced(s, j);
      }
    }
  }

  /** A step of the driver takes a reference from an earlier packet only when it was filed and is now stamped or
      given up, and then exactly one: matching, expiry and eviction each release one reference. */
  lemma ReleasesExactlyOne(s: State, a: Action, q: nat)
    requires Valid(s, -1) && Allowed(s, a) && !a.Retain? && !a.Release? && q < |s.frames|
    ensures var r := Next(s, a);
            && q < |s.refs| && q < |r.refs| && q < |r.frames|
            && var f, g := s.frames[q].fate, r.frames[q].fate;
               || (f == g && r.refs[q] == s.refs[q])
               || (f.Filed? && (g.Stamped? || g == Lost) && r.refs[q] == s.refs[q] - 1)
  {
    NextValid(s, a);
    NextKeepsOthers(s, a);
    FrameFates(s, a, q);
    assert Next(s, a).others[q] == s.others[q];
  }

  lemma NextKeepsOthers(s: State, a: Action)
    requires Valid(s, -1) && Allowed(s, a) && !a.Retain? && !a.Release?
    ensures s.others <= Next(s, a).others
  {
    if a.Receive? {
      var key := Parse(Truncated(a.frame));
      if key.Some? {
        CheckShape(Arrived(s, key), |s.frames|, key.value, a.t);
      }
    } else if a.NoBuffer? {
      ExpireEffect(s, a.now);
    }
  }

  // ---------- Held packets cannot block reception for good ----------

  /** A receive that finds no buffer two seconds after the last packet was held lets go of every packet. */
  lemma NoBufferReleasesAll(s: State, now: int)
    requires Valid(s, -1) && now >= s.clock && now >= s.heldAt + TIMEOUT_MS
    ensures var r := Next(s, NoBuffer(now));
            && HeldCount(r.pending) == 0
            && |r.refs| == |s.others| && forall q :: 0 <= q < |r.refs| ==> r.refs[q] == s.others[q]
  {
    NextValid(s, NoBuffer(now));
    ExpireEffect(s, now);
    var r := Next(s, NoBuffer(now));
    assert forall i :: 0 <= i < SLOTS ==> r.pending[i].Free?;
    forall q | 0 <= q < |r.refs|
      ensures r.refs[q] == s.others[q]
    {
      assert !r.frames[q].fate.Filed?;
    }
  }

  /** No live deadline lies more than the timeout ahead of the clock. */
  lemma DeadlinesBounded(now: int, actions: seq<Action>)
    requires RunOk(Init(now), actions)
    ensures var s := Run(Init(now), actions);
            && Bounded(s.pending, s.clock) && Bounded(s.unclaimed, s.clock)
            && (Full(s.pending) ==> OldestFirst(s.pending, Soonest(s.pending, 0, 1)))
            && (Full(s.unclaimed) ==> OldestCaptureFirst(s.unclaimed, Soonest(s.unclaimed, 0, 1)))
  {
    InitValid(now);
    RunValid(Init(now), actions);
    EvictionOrder(Run(Init(now), actions));
  }

  lemma EvictionOrder(s: State)
    requires Valid(s, -1)
    ensures Bounded(s.pending, s.clock) && Bounded(s.unclaimed, s.clock)
    ensures Full(s.pending) ==> OldestFirst(s.pending, Soonest(s.pending, 0, 1))
    ensures Full(s.unclaimed) ==> OldestCaptureFirst(s.unclaimed, Soonest(s.unclaimed, 0, 1))
  {
    if Full(s.pending) { EvictionIsOldest(s, -1); }
    if Full(s.unclaimed) { UnclaimedEvictionIsOldest(s, -1); }
  }
}
