/** The multicast hash as the program computes it, on 32-bit words held as numbers. */
module CrcWords {
  import opened Crc

  /** Exclusive or of the `n` low bits of two numbers. */
  function XorOf(a: nat, b: nat, n: nat): (r: nat)
    ensures r < Pow2(n)
  {
    if n == 0 then 0 else (if a % 2 != b % 2 then 1 else 0) + 2 * XorOf(a / 2, b / 2, n - 1)
  }

  /** `(crc >> 1) ^ (((crc ^ data) & 1) ? 0xEDB88320 : 0)`. */
  function StepOf(crc: nat, data: nat): (r: nat)
    ensures r < Pow2(32)
  {
    XorOf(crc / 2, if crc % 2 != data % 2 then 0xEDB88320 else 0, 32)
  }

  /** The inner loop: `n` bits of `data`. */
  function ByteOf(crc: nat, data: nat, n: nat): (r: nat)
    requires crc < Pow2(32)
    ensures r < Pow2(32)
    decreases n
  {
    if n == 0 then crc else ByteOf(StepOf(crc, data), data / 2, n - 1)
  }

  /** The outer loop. */
  function BytesOf(crc: nat, bytes: seq<nat>): (r: nat)
    requires crc < Pow2(32)
    ensures r < Pow2(32)
    decreases |bytes|
  {
    if bytes == [] then crc else BytesOf(ByteOf(crc, bytes[0], 8), bytes[1..])
  }

  lemma {:induction false} ValueOfWord(v: nat, n: nat)
    ensures Value(Word(v, n)) == v % Pow2(n)
    decreases n
  {
    if n > 0 {
      ValueOfWord(v / 2, n - 1);
      assert Word(v, n)[1..] == Word(v / 2, n - 1);
      HalvedMod(v, Pow2(n - 1));
    }
  }

  lemma HalvedMod(v: nat, p: nat)
    requires p > 0
    ensures v % (2 * p) == v % 2 + 2 * (v / 2 % p)
  {
    var q := v / 2 / p;
    assert v == 2 * p * q + (v % 2 + 2 * (v / 2 % p));
    ModUnique(v, 2 * p, q, v % 2 + 2 * (v / 2 % p));
  }

  lemma ModUnique(v: nat, d: nat, q: nat, r: nat)
    requires d > 0 && v == d * q + r && r < d
    ensures v % d == r && v / d == q
  {
    var x := v / d - q;
    assert d * x == r - v % d;
    assert x >= 1 ==> d * x >= d;
    assert x <= -1 ==> d * x + d <= 0;
  }

  lemma {:induction false} WordOfXor(a: nat, b: nat, n: nat)
    ensures Word(XorOf(a, b, n), n) == Xor(Word(a, n), Word(b, n))
    decreases n
  {
    if n > 0 {
      WordOfXor(a / 2, b / 2, n - 1);
      assert XorOf(a, b, n) / 2 == XorOf(a / 2, b / 2, n - 1);
      XorCons(a % 2 == 1, b % 2 == 1, Word(a / 2, n - 1), Word(b / 2, n - 1));
    }
  }

  lemma XorCons(a: bool, b: bool, v: Bits, w: Bits)
    requires |v| == |w|
    ensures Xor([a] + v, [b] + w) == [a != b] + Xor(v, w)
  {
  }

  lemma {:induction false} WordPadded(v: nat, n: nat)
    requires v < Pow2(n)
    ensures Word(v, n + 1) == Word(v, n) + [false]
    decreases n
  {
    if n > 0 {
      WordPadded(v / 2, n - 1);
      assert [v % 2 == 1] + (Word(v / 2, n - 1) + [false]) == [v % 2 == 1] + Word(v / 2, n - 1) + [false];
    } else {
      assert Word(0, 1) == [false] + Word(0, 0);
    }
  }

  lemma WordOfHalf(v: nat, n: nat)
    requires 0 < n && v < Pow2(n)
    ensures Word(v / 2, n) == Halved(Word(v, n))
  {
    WordPadded(v / 2, n - 1);
    assert Word(v, n)[1..] == Word(v / 2, n - 1);
  }

  lemma {:induction false} WordOfZero(n: nat)
    ensures Word(0, n) == Zeros(n)
    decreases n
  {
    if n > 0 {
      WordOfZero(n - 1);
      assert [false] + Zeros(n - 1) == Zeros(n);
    }
  }

  lemma {:induction false} WordOfOnes(n: nat)
    ensures Word(Pow2(n) - 1, n) == Ones(n)
    decreases n
  {
    if n > 0 {
      WordOfOnes(n - 1);
      assert (Pow2(n) - 1) / 2 == Pow2(n - 1) - 1 && (Pow2(n) - 1) % 2 == 1;
      assert [true] + Ones(n - 1) == Ones(n);
    }
  }

  lemma LowBits(v: nat, n: nat)
    requires n >= 2
    ensures Word(v, n)[0] == (v % 2 == 1) && Word(v, n)[1] == (v / 2 % 2 == 1)
    ensures forall i :: 2 <= i < n ==> Word(v, n)[i] == Word(v / 4, n - 2)[i - 2]
  {
    assert v / 2 / 2 == v / 4;
    assert Word(v / 2, n - 1) == [v / 2 % 2 == 1] + Word(v / 4, n - 2);
  }

  lemma LowDigit(v: nat, n: nat)
    requires n >= 4
    ensures Digit(Word(v, n), 0) == v % 16
    ensures forall i :: 4 <= i < n ==> Word(v, n)[i] == Word(v / 16, n - 4)[i - 4]
  {
    LowBits(v, n);
    LowBits(v / 4, n - 2);
    assert v / 4 / 4 == v / 16 && v / 4 / 2 == v / 8;
    DigitSum(v);
    forall i | 4 <= i < n
      ensures Word(v, n)[i] == Word(v / 16, n - 4)[i - 4]
    {
      assert Word(v, n)[i] == Word(v / 4, n - 2)[i - 2];
    }
  }

  lemma DigitSum(v: nat)
    ensures v % 16 == v % 2 + 2 * (v / 2 % 2) + 4 * (v / 4 % 2) + 8 * (v / 8 % 2)
  {
    HalvedMod(v, 8);
    HalvedMod(v / 2, 4);
    HalvedMod(v / 4, 2);
    assert v / 2 / 2 == v / 4 && v / 4 / 2 == v / 8;
  }

  lemma NextDigit(v: nat, n: nat, k: nat)
    requires n >= k + 8
    ensures Digit(Word(v, n), k + 4) == Digit(Word(v / 16, n - 4), k)
  {
    LowDigit(v, n);
  }

  lemma SameDigit(v: Bits, w: Bits, k: nat)
    requires k + 4 <= |v| == |w| && Digit(v, k) == Digit(w, k)
    ensures v[k] == w[k] && v[k + 1] == w[k + 1] && v[k + 2] == w[k + 2] && v[k + 3] == w[k + 3]
  {
  }

  /** The bits of a word from its hexadecimal digits. */
  lemma {:induction false} WordOfDigits(v: nat, w: Bits)
    requires |w| % 4 == 0
    requires forall k :: 0 <= k < |w| / 4 ==> Digit(w, 4 * k) == DigitOf(v, k)
    ensures Word(v, |w|) == w
    decreases |w|
  {
    var n := |w|;
    if n > 0 {
      LowDigit(v, n);
      assert Digit(w, 4 * 0) == DigitOf(v, 0);
      SameDigit(Word(v, n), w, 0);
      forall k | 0 <= k < |w[4..]| / 4
        ensures Digit(w[4..], 4 * k) == DigitOf(v / 16, k)
      {
        assert Digit(w, 4 * (k + 1)) == DigitOf(v, k + 1);
      }
      WordOfDigits(v / 16, w[4..]);
    }
  }

  function DigitOf(v: nat, k: nat): nat {
    if k == 0 then v % 16 else DigitOf(v / 16, k - 1)
  }

  /** The constant of the program. */
  lemma PolynomialWord(g: Bits)
    requires g == POLYNOMIAL
    ensures Word(0xEDB88320, 32) == g
  {
    PolynomialDigits(g);
    forall k | 0 <= k < |g| / 4
      ensures Digit(g, 4 * k) == DigitOf(0xEDB88320, k)
    {
    }
    WordOfDigits(0xEDB88320, g);
  }

  lemma Powers()
    ensures Pow2(5) == 32 && Pow2(26) == 0x400_0000 && Pow2(32) == 0x1_0000_0000
  {
    assert Pow2(8) == 0x100;
    assert Pow2(16) == 0x1_0000;
    assert Pow2(24) == 0x100_0000;
  }

  // ---------- The program on numbers is the program on bits ----------

  lemma WordOfStep(crc: nat, data: nat, n: nat)
    requires crc < Pow2(32) && n > 0
    ensures Word(StepOf(crc, data), 32) == Step(POLYNOMIAL, Word(crc, 32), Word(data, n)[0])
  {
    var c, t := Word(crc, 32), crc % 2 != data % 2;
    WordOfXor(crc / 2, if t then 0xEDB88320 else 0, 32);
    WordOfHalf(crc, 32);
    WordOfZero(32);
    PolynomialWord(POLYNOMIAL);
    assert c[0] == (crc % 2 == 1) && Word(data, n)[0] == (data % 2 == 1);
  }

  lemma {:induction false} WordOfByte(crc: nat, data: nat, n: nat)
    requires crc < Pow2(32)
    ensures Word(ByteOf(crc, data, n), 32) == CrcBits(POLYNOMIAL, Word(crc, 32), Word(data, n))
    decreases n
  {
    if n > 0 {
      WordOfStep(crc, data, n);
      WordOfByte(StepOf(crc, data), data / 2, n - 1);
      assert Word(data, n)[1..] == Word(data / 2, n - 1);
    }
  }

  lemma {:induction false} WordOfBytes(crc: nat, bytes: seq<nat>)
    requires crc < Pow2(32)
    ensures Word(BytesOf(crc, bytes), 32) == CrcBits(POLYNOMIAL, Word(crc, 32), Transmitted(bytes))
    decreases |bytes|
  {
    if bytes != [] {
      var c := ByteOf(crc, bytes[0], 8);
      WordOfByte(crc, bytes[0], 8);
      WordOfBytes(c, bytes[1..]);
      CrcAppends(POLYNOMIAL, Word(crc, 32), Word(bytes[0], 8), Transmitted(bytes[1..]));
    }
  }

  /** `lan9250_ether_crc` on 32-bit numbers. */
  function EtherCrcNumber(addr: Address): (r: nat)
    ensures r < Pow2(32)
  {
    Powers();
    BytesOf(0xFFFFFFFF, addr)
  }

  lemma OnesWord(c: nat, n: nat)
    requires c + 1 == Pow2(n)
    ensures Word(c, n) == Ones(n)
  {
    WordOfOnes(n);
  }

  lemma ValueOfSmall(v: nat, n: nat)
    requires v < Pow2(n)
    ensures Value(Word(v, n)) == v
  {
    ValueOfWord(v, n);
    ModUnique(v, Pow2(n), 0, v);
  }

  lemma FromOnes(c: nat, bytes: seq<nat>)
    requires c + 1 == Pow2(32)
    ensures CrcBits(POLYNOMIAL, Ones(32), Transmitted(bytes)) == Word(BytesOf(c, bytes), 32)
  {
    OnesWord(c, 32);
    WordOfBytes(c, bytes);
  }

  /** The register is the number's binary form. */
  lemma EtherCrcIsNumber(addr: Address)
    ensures EtherCrcOf(addr) == Word(EtherCrcNumber(addr), 32)
  {
    Powers();
    FromOnes(0xFFFFFFFF, addr);
  }

  /** The number is the register's value. */
  lemma NumberIsValue(addr: Address)
    ensures Value(EtherCrcOf(addr)) == EtherCrcNumber(addr)
  {
    EtherCrcIsNumber(addr);
    ValueOfSmall(EtherCrcNumber(addr), 32);
  }

  lemma HalvedTwice(x: nat, p: nat)
    requires p > 0
    ensures x / (2 * p) == x / 2 / p
  {
    var q, r := x / 2 / p, x % 2 + 2 * (x / 2 % p);
    assert x == 2 * p * q + r;
    ModUnique(x, 2 * p, q, r);
  }

  lemma {:induction false} ValueDropped(w: Bits, k: nat)
    requires k <= |w|
    ensures Value(w[k..]) == Value(w) / Pow2(k)
    decreases k
  {
    if k == 0 {
      assert w[0..] == w;
    } else {
      ValueDropped(w[1..], k - 1);
      assert w[1..][k - 1..] == w[k..];
      HalvedTwice(Value(w), Pow2(k - 1));
    }
  }

  /** The bin is the number shifted right by 26. */
  lemma HashBitIsShift(addr: Address)
    ensures HashBit(addr) == EtherCrcNumber(addr) / 0x400_0000
  {
    NumberIsValue(addr);
    ValueDropped(EtherCrcOf(addr), 26);
    Powers();
  }

  // ---------- The parts of the bin ----------

  lemma {:induction false} ValueSnoc(w: Bits, b: bool)
    ensures Value(w + [b]) == Value(w) + if b then Pow2(|w|) else 0
    decreases |w|
  {
    if w == [] {
      assert w + [b] == [b] && [b][1..] == [];
    } else {
      ValueSnoc(w[1..], b);
      assert (w + [b])[1..] == w[1..] + [b];
    }
  }

  /** Bits 30:26 of the register as a number. */
  function IndexBits(w: Bits): (i: nat)
    requires |w| == 32
    ensures i < 32
  {
    ValueBound(w[26..31]);
    Powers();
    Value(w[26..31])
  }

  lemma TopBits(w: Bits)
    requires |w| == 32
    ensures Value(w[26..]) == IndexBits(w) + if w[31] then 32 else 0
  {
    Powers();
    assert w[26..] == w[26..31] + [w[31]];
    ValueSnoc(w[26..31], w[31]);
  }

  /** The bin's number: bit 31 of the register, then bits 30:26. */
  lemma HashBitParts(addr: Address)
    ensures var w := EtherCrcOf(addr); HashBit(addr) == IndexBits(w) + if w[31] then 32 else 0
  {
    TopBits(EtherCrcOf(addr));
  }
}
