/** The bounded tables of the timestamp matcher, and the searches the driver makes in them. */
module SlotTable {
  import opened PtpHeader

  /** One table slot: free, or an item filed under a key until a deadline. */
  datatype Slot<T> = Free | Held(item: T, key: Key, deadline: int)

  predicate HasKey<T>(s: Slot<T>, k: Key) {
    s.Held? && s.key == k
  }

  predicate Due<T>(s: Slot<T>, now: int) {
    s.Held? && now >= s.deadline
  }

  predicate Absent<T>(t: seq<Slot<T>>, k: Key) {
    forall i :: 0 <= i < |t| ==> !HasKey(t[i], k)
  }

  /** `r` is `t` with the slots due at `now` freed, from index `from` on. */
  predicate Expired<T(==)>(t: seq<Slot<T>>, r: seq<Slot<T>>, now: int, from: nat) {
    && |r| == |t|
    && forall i :: 0 <= i < |t| ==> r[i] == if from <= i && Due(t[i], now) then Free else t[i]
  }

  /** The first slot from `from` on filed under `k`, or the table's length. */
  function FindKey<T>(t: seq<Slot<T>>, k: Key, from: nat): (i: nat)
    requires from <= |t|
    ensures from <= i <= |t| && (i < |t| ==> HasKey(t[i], k))
    ensures forall j :: from <= j < i ==> !HasKey(t[j], k)
    decreases |t| - from
  {
    if from == |t| || HasKey(t[from], k) then from else FindKey(t, k, from + 1)
  }

  function FindFree<T>(t: seq<Slot<T>>, from: nat): (i: nat)
    requires from <= |t|
    ensures from <= i <= |t| && (i < |t| ==> t[i].Free?)
    ensures forall j :: from <= j < i ==> t[j].Held?
    decreases |t| - from
  {
    if from == |t| || t[from].Free? then from else FindFree(t, from + 1)
  }

  predicate Full<T>(t: seq<Slot<T>>) {
    forall i :: 0 <= i < |t| ==> t[i].Held?
  }

  /** The first slot with the soonest deadline, given the best one before `from`. */
  function Soonest<T>(t: seq<Slot<T>>, best: nat, from: nat): (i: nat)
    requires Full(t) && best < from <= |t|
    requires forall j :: 0 <= j < from ==> t[best].deadline <= t[j].deadline
    ensures i < |t| && forall j :: 0 <= j < |t| ==> t[i].deadline <= t[j].deadline
    decreases |t| - from
  {
    if from == |t| then best
    else if t[from].deadline < t[best].deadline then Soonest(t, from, from + 1)
    else Soonest(t, best, from + 1)
  }

  /** How many slots hold `x`. */
  function Naming<T(==)>(t: seq<Slot<T>>, x: T): nat {
    if t == [] then 0 else Naming(t[..|t| - 1], x) + Holds(t[|t| - 1], x)
  }

  function Holds<T(==)>(s: Slot<T>, x: T): nat {
    if s.Held? && s.item == x then 1 else 0
  }

  lemma {:induction false} NamingUpdate<T>(t: seq<Slot<T>>, i: nat, s: Slot<T>, x: T)
    requires i < |t|
    ensures Naming(t[i := s], x) == Naming(t, x) - Holds(t[i], x) + Holds(s, x)
    decreases |t|
  {
    var n := |t| - 1;
    assert t[i := s][..n] == if i < n then t[..n][i := s] else t[..n];
    if i < n {
      NamingUpdate(t[..n], i, s, x);
    }
  }

  lemma {:induction false} NamingZero<T>(t: seq<Slot<T>>, x: T)
    requires forall i :: 0 <= i < |t| ==> Holds(t[i], x) == 0
    ensures Naming(t, x) == 0
    decreases |t|
  {
    if t != [] {
      NamingZero(t[..|t| - 1], x);
    }
  }

  function HeldCount<T>(t: seq<Slot<T>>): (n: nat)
    ensures n <= |t|
    ensures n == 0 <==> forall i :: 0 <= i < |t| ==> t[i].Free?
  {
    if t == [] then 0 else HeldCount(t[..|t| - 1]) + if t[|t| - 1].Held? then 1 else 0
  }

  // ---------- The same searches on the driver's arrays ----------

  method LookUp<T>(a: array<Slot<T>>, k: Key) returns (i: nat)
    ensures i == FindKey(a[..], k, 0)
  {
    i := 0;
    while i < a.Length && !HasKey(a[i], k)
      invariant i <= a.Length
      invariant FindKey(a[..], k, 0) == FindKey(a[..], k, i)
    {
      i := i + 1;
    }
  }

  method LookFree<T>(a: array<Slot<T>>) returns (i: nat)
    ensures i == FindFree(a[..], 0)
  {
    i := 0;
    while i < a.Length && a[i].Held?
      invariant i <= a.Length
      invariant FindFree(a[..], 0) == FindFree(a[..], i)
    {
      i := i + 1;
    }
  }

  method LookSoonest<T>(a: array<Slot<T>>) returns (best: nat)
    requires a.Length > 0 && Full(a[..])
    ensures best == Soonest(a[..], 0, 1)
  {
    best := 0;
    var i := 1;
    while i < a.Length
      invariant best < i <= a.Length
      invariant forall j :: 0 <= j < i ==> a[..][best].deadline <= a[..][j].deadline
      invariant Soonest(a[..], 0, 1) == Soonest(a[..], best, i)
    {
      assert a[..][i].Held? && a[..][best].Held?;
      if a[i].deadline < a[best].deadline {
        best := i;
      }
      i := i + 1;
    }
  }
}
