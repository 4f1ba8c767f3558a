/** The 64-bit multicast hash filter and the reference counts it is written from. */
module HashFilter {
  import opened Crc
  import opened CrcWords

  const BINS := 64

  datatype Config = Filter(isDestination: bool, addr: Address, join: bool)

  /** Multicast destination addresses are the only ones filtered. */
  predicate Supported(c: Config) {
    c.isDestination && c.addr[0] % 2 == 1
  }

  /** They are those sent with the group bit set, the first one on the wire. */
  lemma SupportedIff(c: Config)
    ensures Supported(c) <==> c.isDestination && Transmitted(c.addr)[0]
  {
    assert Transmitted(c.addr) == Word(c.addr[0], 8) + Transmitted(c.addr[1..]);
  }

  predicate IsCounts(counts: seq<nat>) {
    |counts| == BINS && forall b :: 0 <= b < BINS ==> counts[b] < 256
  }

  /** The reference counts after a join or leave in bin `b`; a count is eight bits wide. */
  function Tallied(counts: seq<nat>, b: nat, join: bool): (r: seq<nat>)
    requires IsCounts(counts) && b < BINS
    ensures IsCounts(r)
  {
    if join then counts[b := (counts[b] + 1) % 256]
    else if counts[b] > 0 then counts[b := counts[b] - 1]
    else counts
  }

  function Counted(counts: seq<nat>, addr: Address, join: bool): (r: seq<nat>)
    requires IsCounts(counts)
    ensures IsCounts(r)
  {
    Tallied(counts, HashBit(addr), join)
  }

  /** HASHH:HASHL show exactly the bins with a reference. */
  predicate IsImage(counts: seq<nat>, hashl: Bits, hashh: Bits) {
    && |counts| == BINS && |hashl| == |hashh| == 32
    && forall b :: 0 <= b < BINS ==> (counts[b] != 0 <==> if b < 32 then hashl[b] else hashh[b - 32])
  }

  class MulticastFilter {
    const refcount: array<nat>
    var hashl: Bits
    var hashh: Bits

    constructor ()
      ensures Valid() && fresh(refcount)
      ensures forall b :: 0 <= b < BINS ==> refcount[b] == 0
    {
      refcount := new nat[BINS](_ => 0);
      hashl, hashh := Zeros(32), Zeros(32);
    }

    ghost predicate Valid()
      reads this, refcount
    {
      IsCounts(refcount[..]) && IsImage(refcount[..], hashl, hashh)
    }

    /** `lan9250_mcast_hash_write`. */
    method HashWrite()
      requires refcount.Length == BINS
      modifies `hashl, `hashh
      ensures IsImage(refcount[..], hashl, hashh)
    {
      var low, high := Zeros(32), Zeros(32);
      for bit := 0 to BINS
        invariant |low| == |high| == 32
        invariant forall b :: 0 <= b < BINS ==>
                    ((if b < 32 then low[b] else high[b - 32]) <==> b < bit && refcount[b] != 0)
      {
        if refcount[bit] == 0 {
          continue;
        }
        if bit < 32 {
          low := low[bit := true];
        } else {
          high := high[bit - 32 := true];
        }
      }
      hashl := low;
      hashh := high;
    }

    /** The filter case of `lan9250_set_config`; false is -ENOTSUP. */
    method SetFilter(c: Config) returns (ok: bool)
      requires Valid()
      modifies this, refcount
      ensures Valid()
      ensures ok == Supported(c)
      ensures refcount[..] == if ok then Counted(old(refcount[..]), c.addr, c.join) else old(refcount[..])
    {
      if !c.isDestination {
        return false;
      }
      if c.addr[0] % 2 == 0 {
        return false;
      }
      var crc := EtherCrc(c.addr);
      ValueBound(crc[26..]);
      var bit := Value(crc[26..]);
      assert bit == HashBit(c.addr);
      ghost var before := refcount[..];
      if c.join {
        refcount[bit] := (refcount[bit] + 1) % 256;
      } else if refcount[bit] > 0 {
        refcount[bit] := refcount[bit] - 1;
      }
      assert refcount[..] == Counted(before, c.addr, c.join);
      HashWrite();
      return true;
    }
  }

  // ---------- The groups the filter stands for ----------

  /** How many of the joined groups hash to bin `b`. */
  function Count(groups: seq<Address>, b: nat): nat {
    if groups == [] then 0 else (if HashBit(groups[0]) == b then 1 else 0) + Count(groups[1..], b)
  }

  function Remove(groups: seq<Address>, a: Address): (r: seq<Address>)
    requires a in groups
    ensures multiset(r) == multiset(groups) - multiset{a}
  {
    if groups[0] == a then
      assert groups == [a] + groups[1..];
      groups[1..]
    else
      assert groups == [groups[0]] + groups[1..];
      [groups[0]] + Remove(groups[1..], a)
  }

  lemma {:induction false} CountRemove(groups: seq<Address>, a: Address, b: nat)
    requires a in groups
    ensures Count(groups, b) == Count(Remove(groups, a), b) + if HashBit(a) == b then 1 else 0
    decreases |groups|
  {
    if groups[0] != a {
      CountRemove(groups[1..], a, b);
      var r := Remove(groups, a);
      assert r[1..] == Remove(groups[1..], a);
    }
  }

  lemma {:induction false} CountPositive(groups: seq<Address>, b: nat)
    ensures Count(groups, b) > 0 <==> exists a :: a in groups && HashBit(a) == b
    decreases |groups|
  {
    if groups != [] {
      CountPositive(groups[1..], b);
      if Count(groups[1..], b) > 0 {
        var a :| a in groups[1..] && HashBit(a) == b;
        assert a in groups;
      } else if HashBit(groups[0]) == b {
        assert groups[0] in groups;
      } else {
        forall a | a in groups
          ensures HashBit(a) != b
        {
          assert a == groups[0] || a in groups[1..];
        }
      }
    }
  }

  /** The reference counts are the numbers of joined groups. */
  predicate Exact(counts: seq<nat>, groups: seq<Address>) {
    IsCounts(counts) && forall b :: 0 <= b < BINS ==> counts[b] == Count(groups, b)
  }

  /** A join keeps the counts exact if and only if its bin has fewer than 255 groups. */
  lemma JoinExactIff(counts: seq<nat>, groups: seq<Address>, a: Address)
    requires Exact(counts, groups)
    ensures Exact(Counted(counts, a, true), [a] + groups) <==> Count(groups, HashBit(a)) < 255
  {
    var h := HashBit(a);
    forall b | 0 <= b < BINS
      ensures Count([a] + groups, b) == counts[b] + if b == h then 1 else 0
    {
      CountCons(groups, a, b);
    }
    Bump(counts, seq(BINS, b requires 0 <= b < BINS => Count([a] + groups, b)), h);
  }

  lemma CountCons(groups: seq<Address>, a: Address, b: nat)
    ensures Count([a] + groups, b) == (if HashBit(a) == b then 1 else 0) + Count(groups, b)
  {
    assert ([a] + groups)[1..] == groups;
  }

  lemma Bump(counts: seq<nat>, expected: seq<nat>, h: nat)
    requires IsCounts(counts) && |expected| == BINS && h < BINS
    requires forall b :: 0 <= b < BINS ==> expected[b] == counts[b] + if b == h then 1 else 0
    ensures (forall b :: 0 <= b < BINS ==> counts[h := (counts[h] + 1) % 256][b] == expected[b]) <==> counts[h] < 255
  {
    assert counts[h := (counts[h] + 1) % 256][h] == (counts[h] + 1) % 256;
  }

  /** Leaving a joined group keeps them exact. */
  lemma LeaveIsExact(counts: seq<nat>, groups: seq<Address>, a: Address)
    requires Exact(counts, groups) && a in groups
    ensures Exact(Counted(counts, a, false), Remove(groups, a))
  {
    forall b | 0 <= b < BINS
      ensures Counted(counts, a, false)[b] == Count(Remove(groups, a), b)
    {
      CountRemove(groups, a, b);
    }
  }

  /** Leaving a group that was never joined does no harm if and only if no joined group shares its bin. */
  lemma StrayLeaveIff(counts: seq<nat>, groups: seq<Address>, a: Address)
    requires Exact(counts, groups) && a !in groups
    ensures Exact(Counted(counts, a, false), groups) <==> !exists g :: g in groups && HashBit(g) == HashBit(a)
  {
    CountPositive(groups, HashBit(a));
    assert Counted(counts, a, false)[HashBit(a)] == if counts[HashBit(a)] > 0 then counts[HashBit(a)] - 1 else 0;
  }

  // ---------- Runs ----------

  datatype Op = Op(addr: Address, join: bool)

  function NoCounts(): (r: seq<nat>)
    ensures IsCounts(r) && forall b :: 0 <= b < BINS ==> r[b] == 0
  {
    seq(BINS, _ => 0)
  }

  /** The reference counts after a run of joins and leaves. */
  function CountsAfter(counts: seq<nat>, ops: seq<Op>): (r: seq<nat>)
    requires IsCounts(counts)
    ensures IsCounts(r)
    decreases |ops|
  {
    if ops == [] then counts else CountsAfter(Counted(counts, ops[0].addr, ops[0].join), ops[1..])
  }

  /** Every leave has its join, and no bin holds more than 255 groups. */
  predicate Matched(groups: seq<Address>, ops: seq<Op>)
    decreases |ops|
  {
    ops == [] || (
      if ops[0].join then Count(groups, HashBit(ops[0].addr)) < 255 && Matched([ops[0].addr] + groups, ops[1..])
      else ops[0].addr in groups && Matched(Remove(groups, ops[0].addr), ops[1..]))
  }

  /** The groups joined after a run. */
  function GroupsAfter(groups: seq<Address>, ops: seq<Op>): seq<Address>
    requires Matched(groups, ops)
    decreases |ops|
  {
    if ops == [] then groups
    else if ops[0].join then GroupsAfter([ops[0].addr] + groups, ops[1..])
    else GroupsAfter(Remove(groups, ops[0].addr), ops[1..])
  }

  lemma {:induction false} CountsStayExact(counts: seq<nat>, groups: seq<Address>, ops: seq<Op>)
    requires Exact(counts, groups) && Matched(groups, ops)
    ensures Exact(CountsAfter(counts, ops), GroupsAfter(groups, ops))
    decreases |ops|
  {
    if ops != [] {
      var a := ops[0].addr;
      if ops[0].join {
        JoinExactIff(counts, groups, a);
        CountsStayExact(Counted(counts, a, true), [a] + groups, ops[1..]);
      } else {
        LeaveIsExact(counts, groups, a);
        CountsStayExact(Counted(counts, a, false), Remove(groups, a), ops[1..]);
      }
    }
  }

  /** What the hardware does with a multicast frame to `addr`: the most significant bit of the CRC register says
      which of the two registers is used, the other five of the upper six bits which bit of it. */
  predicate Accepts(hashl: Bits, hashh: Bits, addr: Address)
    requires |hashl| == |hashh| == 32
  {
    var crc := EtherCrcOf(addr);
    if crc[31] then hashh[IndexBits(crc)] else hashl[IndexBits(crc)]
  }

  lemma AcceptsIsBin(hashl: Bits, hashh: Bits, addr: Address)
    requires |hashl| == |hashh| == 32
    ensures var b := HashBit(addr); Accepts(hashl, hashh, addr) <==> if b < 32 then hashl[b] else hashh[b - 32]
  {
    HashBitParts(addr);
  }

  /** After any run of joins and matched leaves the filter accepts an address if and only if some joined group
      has its hash: every joined group is let through, whichever others sharing its bin have been left. */
  lemma FilterIsImageOfGroups(ops: seq<Op>, hashl: Bits, hashh: Bits, addr: Address)
    requires Matched([], ops)
    requires var counts := CountsAfter(NoCounts(), ops); IsImage(counts, hashl, hashh)
    ensures var groups := GroupsAfter([], ops);
            && (Accepts(hashl, hashh, addr) <==> exists g :: g in groups && HashBit(g) == HashBit(addr))
            && (addr in groups ==> Accepts(hashl, hashh, addr))
  {
    AcceptsIsBin(hashl, hashh, addr);
    CountsStayExact(NoCounts(), [], ops);
    CountPositive(GroupsAfter([], ops), HashBit(addr));
  }

  // ---------- Both failures happen ----------

  /** A join or leave, by its bin. */
  datatype Hit = Hit(b: nat, join: bool)

  predicate AreHits(hits: seq<Hit>) {
    forall i :: 0 <= i < |hits| ==> hits[i].b < BINS
  }

  function TallyAfter(counts: seq<nat>, hits: seq<Hit>): (r: seq<nat>)
    requires IsCounts(counts) && AreHits(hits)
    ensures IsCounts(r)
    decreases |hits|
  {
    if hits == [] then counts else TallyAfter(Tallied(counts, hits[0].b, hits[0].join), hits[1..])
  }

  function Hits(ops: seq<Op>): (r: seq<Hit>)
    ensures AreHits(r)
  {
    if ops == [] then [] else [Hit(HashBit(ops[0].addr), ops[0].join)] + Hits(ops[1..])
  }

  /** Only the bins matter. */
  lemma {:induction false} CountsAreTallies(counts: seq<nat>, ops: seq<Op>)
    requires IsCounts(counts)
    ensures CountsAfter(counts, ops) == TallyAfter(counts, Hits(ops))
    decreases |ops|
  {
    if ops != [] {
      assert Hits(ops)[1..] == Hits(ops[1..]);
      CountsAreTallies(Counted(counts, ops[0].addr, ops[0].join), ops[1..]);
    }
  }

  function Joins(a: Address, n: nat): seq<Op> {
    if n == 0 then [] else [Op(a, true)] + Joins(a, n - 1)
  }

  function Repeat(a: Address, n: nat): seq<Address> {
    if n == 0 then [] else [a] + Repeat(a, n - 1)
  }

  function JoinHits(b: nat, n: nat): (r: seq<Hit>)
    requires b < BINS
    ensures AreHits(r)
  {
    if n == 0 then [] else [Hit(b, true)] + JoinHits(b, n - 1)
  }

  lemma FirstHit(op: Op, rest: seq<Op>)
    ensures Hits([op] + rest) == [Hit(HashBit(op.addr), op.join)] + Hits(rest)
  {
    assert ([op] + rest)[1..] == rest;
  }

  lemma {:induction false} HitsOfJoins(a: Address, n: nat)
    ensures Hits(Joins(a, n)) == JoinHits(HashBit(a), n)
    decreases n
  {
    if n > 0 {
      HitsOfJoins(a, n - 1);
      FirstHit(Op(a, true), Joins(a, n - 1));
    }
  }

  lemma TallyFirst(counts: seq<nat>, h: Hit, rest: seq<Hit>)
    requires IsCounts(counts) && h.b < BINS && AreHits(rest)
    ensures AreHits([h] + rest)
    ensures TallyAfter(counts, [h] + rest) == TallyAfter(Tallied(counts, h.b, h.join), rest)
  {
    assert ([h] + rest)[1..] == rest;
  }

  lemma WrapTwice(c: nat, n: nat)
    requires n > 0
    ensures ((c + 1) % 256 + (n - 1)) % 256 == (c + n) % 256
  {
  }

  lemma WrapStep(counts: seq<nat>, b: nat, n: nat)
    requires IsCounts(counts) && b < BINS && n > 0
    ensures var c := Tallied(counts, b, true); c[b := (c[b] + (n - 1)) % 256] == counts[b := (counts[b] + n) % 256]
  {
    WrapTwice(counts[b], n);
  }

  lemma {:induction false} JoinHitsWrap(counts: seq<nat>, b: nat, n: nat)
    requires IsCounts(counts) && b < BINS
    ensures TallyAfter(counts, JoinHits(b, n)) == counts[b := (counts[b] + n) % 256]
    decreases n
  {
    if n > 0 {
      TallyFirst(counts, Hit(b, true), JoinHits(b, n - 1));
      JoinHitsWrap(Tallied(counts, b, true), b, n - 1);
      WrapStep(counts, b, n);
    } else {
      assert TallyAfter(counts, []) == counts;
    }
  }

  lemma {:induction false} CountRepeat(a: Address, n: nat, b: nat)
    ensures Count(Repeat(a, n), b) == if HashBit(a) == b then n else 0
    decreases n
  {
    if n > 0 {
      CountCons(Repeat(a, n - 1), a, b);
      CountRepeat(a, n - 1, b);
    }
  }

  lemma WrapIff(counts: seq<nat>, expected: seq<nat>, h: nat, n: nat)
    requires h < BINS && counts == NoCounts()[h := n % 256] && |expected| == BINS
    requires forall b :: 0 <= b < BINS ==> expected[b] == if h == b then n else 0
    ensures (forall b :: 0 <= b < BINS ==> counts[b] == expected[b]) <==> n < 256
  {
    assert counts[h] == n % 256 && expected[h] == n;
  }

  lemma JoinsExactIff(a: Address, n: nat, counts: seq<nat>)
    requires IsCounts(counts) && counts == NoCounts()[HashBit(a) := n % 256]
    ensures Exact(counts, Repeat(a, n)) <==> n < 256
  {
    forall b | 0 <= b < BINS
      ensures Count(Repeat(a, n), b) == if HashBit(a) == b then n else 0
    {
      CountRepeat(a, n, b);
    }
    WrapIff(counts, seq(BINS, b requires 0 <= b < BINS => Count(Repeat(a, n), b)), HashBit(a), n);
  }

  lemma ImageAccepts(counts: seq<nat>, hashl: Bits, hashh: Bits, a: Address)
    requires IsImage(counts, hashl, hashh)
    ensures Accepts(hashl, hashh, a) <==> counts[HashBit(a)] != 0
  {
    AcceptsIsBin(hashl, hashh, a);
  }

  /** When one address has been joined `n` times, and nothing else, its count is exact if and only if `n` is below
      256, and it is let through if and only if `n` is no multiple of 256: the 256th join cuts it off. */
  lemma JoinsWrap(a: Address, n: nat, hashl: Bits, hashh: Bits)
    requires IsImage(CountsAfter(NoCounts(), Joins(a, n)), hashl, hashh)
    ensures Exact(CountsAfter(NoCounts(), Joins(a, n)), Repeat(a, n)) <==> n < 256
    ensures Accepts(hashl, hashh, a) <==> n % 256 != 0
  {
    var counts := CountsAfter(NoCounts(), Joins(a, n));
    JoinsCount(a, n);
    JoinsExactIff(a, n, counts);
    ImageAccepts(counts, hashl, hashh, a);
  }

  lemma JoinHitsFromNone(h: nat, n: nat)
    requires h < BINS
    ensures TallyAfter(NoCounts(), JoinHits(h, n)) == NoCounts()[h := n % 256]
  {
    JoinHitsWrap(NoCounts(), h, n);
  }

  lemma JoinsCount(a: Address, n: nat)
    ensures CountsAfter(NoCounts(), Joins(a, n)) == NoCounts()[HashBit(a) := n % 256]
  {
    CountsAreTallies(NoCounts(), Joins(a, n));
    HitsOfJoins(a, n);
    JoinHitsFromNone(HashBit(a), n);
  }

  lemma JoinThenLeave(b: nat, c: nat)
    requires b < BINS && c < BINS
    ensures TallyAfter(NoCounts(), [Hit(b, true), Hit(c, false)])[b] == if b == c then 0 else 1
  {
    var x, y := Hit(b, true), Hit(c, false);
    assert [x, y] == [x] + [y] && [y] == [y] + [];
    TallyFirst(NoCounts(), x, [y]);
    TallyFirst(Tallied(NoCounts(), b, true), y, []);
  }

  lemma HitsOfTwo(o: Op, p: Op)
    ensures Hits([o, p]) == [Hit(HashBit(o.addr), o.join), Hit(HashBit(p.addr), p.join)]
  {
    assert [o, p][1..] == [p] && [p][1..] == [];
    assert Hits([p]) == [Hit(HashBit(p.addr), p.join)] + Hits([]);
  }

  /** Once one group is joined, leaving another cuts it off if and only if the two share a bin. */
  lemma StrayLeaveCutsOffIff(joined: Address, left: Address, hashl: Bits, hashh: Bits)
    requires IsImage(CountsAfter(NoCounts(), [Op(joined, true), Op(left, false)]), hashl, hashh)
    ensures Accepts(hashl, hashh, joined) <==> HashBit(joined) != HashBit(left)
  {
    var ops := [Op(joined, true), Op(left, false)];
    CountsAreTallies(NoCounts(), ops);
    HitsOfTwo(ops[0], ops[1]);
    JoinThenLeave(HashBit(joined), HashBit(left));
    ImageAccepts(CountsAfter(NoCounts(), ops), hashl, hashh, joined);
  }

  /** Groups that differ by 0x41 in the last byte share a bin: leaving one that was never joined cuts off the other. */
  lemma StrayLeaveDoesHarm(joined: Address, left: Address, hashl: Bits, hashh: Bits)
    requires joined[..5] == left[..5] && Xor(Word(joined[5], 8), Word(left[5], 8)) == Word(0x41, 8)
    requires IsImage(CountsAfter(NoCounts(), [Op(joined, true), Op(left, false)]), hashl, hashh)
    ensures joined != left && !Accepts(hashl, hashh, joined)
  {
    WordBit(0x41, 8, 0);
    BitsOf0x41(0);
    LastByteCollision(joined, left);
    StrayLeaveCutsOffIff(joined, left, hashl, hashh);
  }

  lemma BitsOf0x01And0x40(i: nat)
    requires i < 8
    ensures (BitOf(0x01, i) <==> i == 0) && (BitOf(0x40, i) <==> i == 6)
  {
    if i > 0 {
      BitsOfZero(i - 1);
    }
    assert i == 7 ==> BitOf(0x40, i) == BitOf(0, 0);
  }

  lemma {:induction false} BitsOfZero(i: nat)
    ensures !BitOf(0, i)
  {
    if i > 0 {
      BitsOfZero(i - 1);
    }
  }

  lemma NeighbourDifference()
    ensures Xor(Word(0x01, 8), Word(0x40, 8)) == Word(0x41, 8)
  {
    var x := Xor(Word(0x01, 8), Word(0x40, 8));
    forall i | 0 <= i < 8
      ensures x[i] == Word(0x41, 8)[i]
    {
      WordBit(0x01, 8, i);
      WordBit(0x40, 8, i);
      WordBit(0x41, 8, i);
      BitsOf0x41(i);
      BitsOf0x01And0x40(i);
    }
  }

  /** Two such groups: 01:00:5e:00:00:01, all hosts, and 01:00:5e:00:00:40. */
  lemma NeighboursShareABin(a: Address, b: Address)
    requires a[0] == b[0] == 0x01 && a[1] == b[1] == 0x00 && a[2] == b[2] == 0x5E
    requires a[3] == b[3] == 0x00 && a[4] == b[4] == 0x00 && a[5] == 0x01 && b[5] == 0x40
    ensures a != b && Supported(Filter(true, a, true)) && Supported(Filter(true, b, false))
    ensures a[..5] == b[..5] && Xor(Word(a[5], 8), Word(b[5], 8)) == Word(0x41, 8)
    ensures HashBit(a) == HashBit(b)
  {
    NeighbourDifference();
    LastByteCollision(a, b);
  }
}
