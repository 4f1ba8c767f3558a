/** The six-instruction PIO program that turns one FIFO word into one STEP pulse,
    as a machine that executes one instruction per clock cycle. */
module Pio {
  import opened Wrappers

  const WORD := 0x1_0000_0000

  type Word = n: int | 0 <= n < WORD

  /** `pc` 0 pull, 1 mov y, 2 mov x (STEP high), 3 high loop, 4 mov x (STEP low), 5 low loop. */
  datatype Sm = Sm(pc: nat, x: Word, y: Word, osr: Word, level: bool)

  const PowerUp := Sm(0, 0, 0, 0, false)

  /** `jmp x--` tests x before decrementing it; the decrement of 0 wraps. */
  function Decrement(x: Word): Word {
    if x == 0 then WORD - 1 else x - 1
  }

  /** One cycle. `head` is the word at the head of the TX FIFO; only `pull` looks at it. */
  function Tick(s: Sm, head: Option<Word>): Sm {
    if s.pc == 0 then (if head.None? then s.(level := false) else s.(pc := 1, osr := head.value, level := false))
    else if s.pc == 1 then s.(pc := 2, y := s.osr, level := false)
    else if s.pc == 2 then s.(pc := 3, x := s.y, level := true)
    else if s.pc == 3 then s.(pc := if s.x != 0 then 3 else 4, x := Decrement(s.x), level := true)
    else if s.pc == 4 then s.(pc := 5, x := s.y, level := false)
    else s.(pc := if s.x != 0 then 5 else 0, x := Decrement(s.x), level := false)
  }

  predicate Pulls(s: Sm, head: Option<Word>) {
    s.pc == 0 && head.Some?
  }

  predicate Rises(s: Sm, head: Option<Word>) {
    !s.level && Tick(s, head).level
  }

  /** STEP is high exactly from the first `mov x` to the end of the high loop. */
  predicate Valid(s: Sm) {
    s.pc < 6 && (s.level <==> s.pc == 3 || s.pc == 4)
  }

  lemma TickKeepsValid(s: Sm, head: Option<Word>)
    requires Valid(s)
    ensures Valid(Tick(s, head))
    ensures Rises(s, head) <==> s.pc == 2
  {
  }

  // ---------- Timing of runs ----------

  /** The machine after the cycles whose FIFO heads were `heads`. */
  function Run(s: Sm, heads: seq<Option<Word>>): Sm
    decreases |heads|
  {
    if heads == [] then s else Run(Tick(s, heads[0]), heads[1..])
  }

  lemma {:induction false} RunSplit(s: Sm, heads: seq<Option<Word>>, n: nat)
    requires n <= |heads|
    ensures Run(s, heads) == Run(Run(s, heads[..n]), heads[n..])
    decreases n
  {
    if n == 0 {
      assert heads[..0] == [] && heads[0..] == heads;
    } else {
      RunSplit(Tick(s, heads[0]), heads[1..], n - 1);
      assert heads[1..][..n - 1] == heads[..n][1..];
      assert heads[1..][n - 1..] == heads[n..];
    }
  }

  lemma RunSnoc(s: Sm, heads: seq<Option<Word>>, n: nat)
    requires n < |heads|
    ensures Run(s, heads[..n + 1]) == Tick(Run(s, heads[..n]), heads[n])
  {
    RunSplit(s, heads[..n + 1], n);
    assert heads[..n + 1][..n] == heads[..n];
    assert heads[..n + 1][n..] == [heads[n]];
  }

  /** A run extended by one cycle. */
  function Recorded(heads: seq<Option<Word>>, head: Option<Word>): (r: seq<Option<Word>>)
    ensures |r| == |heads| + 1
    ensures forall s: Sm :: Run(s, r) == Tick(Run(s, heads), head)
  {
    var r := heads + [head];
    assert forall s: Sm :: Run(s, r) == Tick(Run(s, heads), head) by {
      forall s: Sm
        ensures Run(s, r) == Tick(Run(s, heads), head)
      {
        RunSnoc(s, r, |heads|);
        assert r[..|heads|] == heads && r[..|heads| + 1] == r;
      }
    }
    r
  }

  /** The state machine as the hardware's registers. */
  class StateMachine {
    var pc: nat
    var x: Word
    var y: Word
    var osr: Word
    var level: bool

    constructor ()
      ensures Snapshot() == PowerUp
    {
      pc, x, y, osr, level := 0, 0, 0, 0, false;
    }

    function Snapshot(): Sm
      reads this
    {
      Sm(pc, x, y, osr, level)
    }

    /** Executes the instruction at `pc`; `head` is the word at the head of the TX FIFO. */
    method Execute(head: Option<Word>)
      requires Valid(Snapshot())
      modifies this
      ensures Snapshot() == Tick(old(Snapshot()), head) && Valid(Snapshot())
    {
      if pc == 0 {
        level := false;
        if head.Some? {
          pc, osr := 1, head.value;
        }
      } else if pc == 1 {
        pc, y, level := 2, osr, false;
      } else if pc == 2 {
        pc, x, level := 3, y, true;
      } else if pc == 3 {
        if x == 0 {
          pc := 4;
        }
        x, level := Decrement(x), true;
      } else if pc == 4 {
        pc, x, level := 5, y, false;
      } else {
        if x == 0 {
          pc := 0;
        }
        x, level := Decrement(x), false;
      }
    }

    /** One pulse, from the pull of its word to the next pull: the FIFO heads met on the way, and for how many of
        those cycles STEP is high. The machine has made exactly the run of `Tick` over these heads. */
    method Pulse(word: Word) returns (heads: seq<Option<Word>>, high: nat)
      requires Valid(Snapshot()) && pc == 0
      modifies this
      ensures Valid(Snapshot()) && pc == 0 && y == osr == word
      ensures heads != [] && heads[0] == Some(word) && Snapshot() == Run(old(Snapshot()), heads)
      ensures |heads| == 2 * word + 6
      ensures high == word + 2
    {
      heads, high := [], 0;
      Execute(Some(word));
      heads := Recorded(heads, Some(word));
      Execute(None);
      heads := Recorded(heads, None);
      Execute(None);
      heads, high := Recorded(heads, None), high + 1;
      while pc == 3
        invariant pc == 3 || pc == 4
        invariant Valid(Snapshot()) && y == osr == word && |heads| > 0 && heads[0] == Some(word)
        invariant Snapshot() == Run(old(Snapshot()), heads)
        invariant pc == 3 ==> x <= word && |heads| == 3 + word - x && high == 1 + word - x
        invariant pc == 4 ==> |heads| == 4 + word && high == 2 + word
        decreases pc == 3, x
      {
        Execute(None);
        heads, high := Recorded(heads, None), high + 1;
      }
      Execute(None);
      heads := Recorded(heads, None);
      while pc == 5
        invariant pc == 5 || pc == 0
        invariant Valid(Snapshot()) && y == osr == word && high == 2 + word && |heads| > 0 && heads[0] == Some(word)
        invariant Snapshot() == Run(old(Snapshot()), heads)
        invariant pc == 5 ==> x <= word && |heads| == 5 + word + word - x
        invariant pc == 0 ==> |heads| == 6 + word + word
        decreases pc == 5, x
      {
        Execute(None);
        heads := Recorded(heads, None);
      }
    }
  }

  /** Where the machine is `t` cycles after a rising edge for word `y`, while no pull has succeeded. */
  function AfterRise(y: Word, osr: Word, t: nat): Sm
    requires t > 0
  {
    if t <= y + 1 then Sm(3, y + 1 - t, y, osr, true)
    else if t == y + 2 then Sm(4, WORD - 1, y, osr, true)
    else if t <= 2 * y + 3 then Sm(5, 2 * y + 3 - t, y, osr, false)
    else Sm(0, WORD - 1, y, osr, false)
  }

  /** Cycle by cycle from the rising edge on: STEP is high for `y+2` cycles, then low until the next word. */
  lemma {:induction false} PulseTrace(s: Sm, heads: seq<Option<Word>>, t: nat)
    requires Valid(s) && s.pc == 2 && 0 < t <= |heads|
    requires forall i :: 2 * s.y + 4 <= i < t ==> heads[i] == None
    ensures Run(s, heads[..t]) == AfterRise(s.y, s.osr, t)
    decreases t
  {
    if t == 1 {
      assert heads[..1] == [heads[0]];
      assert Run(s, [heads[0]]) == Run(Tick(s, heads[0]), []);
    } else {
      PulseTrace(s, heads, t - 1);
      RunSnoc(s, heads, t - 1);
    }
  }

  /** Two rising edges are exactly `2h+6` cycles apart, plus the cycles `stall` the pull waited for its word:
      no edge in between, and the next one is that of the word pulled. */
  lemma EdgeSpacing(s: Sm, heads: seq<Option<Word>>, stall: nat)
    requires Valid(s) && s.pc == 2
    requires |heads| == 2 * s.y + 6 + stall
    requires forall i :: 2 * s.y + 4 <= i < 2 * s.y + 4 + stall ==> heads[i] == None
    requires heads[2 * s.y + 4 + stall].Some?
    ensures var s' := Run(s, heads);
            Valid(s') && s'.pc == 2 && s'.y == heads[2 * s.y + 4 + stall].value
    ensures forall i :: 0 < i < |heads| ==> !Rises(Run(s, heads[..i]), heads[i])
    ensures forall i :: 0 < i <= |heads| ==> Run(s, heads[..i]).level == (i <= s.y + 2)
  {
    var n := 2 * s.y + 4 + stall;
    forall i | 0 < i <= n
      ensures Run(s, heads[..i]) == AfterRise(s.y, s.osr, i)
    {
      PulseTrace(s, heads, i);
    }
    NextPulse(s, heads, n);
    forall i | 0 < i <= |heads|
      ensures Run(s, heads[..i]).level == (i <= s.y + 2)
    {
      if i == n + 2 { assert heads[..i] == heads; }
    }
  }

  /** The pull of the next word and the cycle after it. */
  lemma NextPulse(s: Sm, heads: seq<Option<Word>>, n: nat)
    requires |heads| == n + 2 && heads[n].Some?
    requires Run(s, heads[..n]).pc == 0
    ensures var w := heads[n].value; var before := Run(s, heads[..n]);
            && Run(s, heads[..n + 1]) == before.(pc := 1, osr := w, level := false)
            && Run(s, heads) == before.(pc := 2, osr := w, y := w, level := false)
  {
    RunSnoc(s, heads, n);
    RunSnoc(s, heads, n + 1);
    assert heads[..n + 2] == heads;
  }
}
