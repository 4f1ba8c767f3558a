/** The multicast-hash CRC, and the polynomial division it carries out.

    A machine word is the list of its bits, least significant first; a polynomial over GF(2) is the list of its
    coefficients, highest degree first. */
module Crc {
  type Bits = seq<bool>

  // ---------- Words ----------

  function Zeros(n: nat): (r: Bits)
    ensures |r| == n && forall i :: 0 <= i < n ==> !r[i]
  {
    seq(n, _ => false)
  }

  /** Exclusive or of two words; the sum of two polynomials. */
  function Xor(p: Bits, q: Bits): (r: Bits)
    requires |p| == |q|
    ensures |r| == |p| && forall i :: 0 <= i < |r| ==> r[i] == (p[i] != q[i])
  {
    seq(|p|, i requires 0 <= i < |p| => p[i] != q[i])
  }

  function Halved(w: Bits): (r: Bits)
    requires w != []
    ensures |r| == |w|
  {
    w[1..] + [false]
  }

  /** The `n`-bit word with this value. */
  function Word(value: nat, n: nat): (r: Bits)
    ensures |r| == n
  {
    if n == 0 then [] else [value % 2 == 1] + Word(value / 2, n - 1)
  }

  function Value(w: Bits): nat {
    if w == [] then 0 else (if w[0] then 1 else 0) + 2 * Value(w[1..])
  }

  /** The constant 0xEDB88320 of the program. */
  const POLYNOMIAL: Bits := [
    false, false, false, false, false, true, false, false,
    true, true, false, false, false, false, false, true,
    false, false, false, true, true, true, false, true,
    true, false, true, true, false, true, true, true] // least significant bit first

  // ---------- The program ----------

  type Address = a: seq<nat> | |a| == 6 && forall i :: 0 <= i < 6 ==> a[i] < 256
    witness [0, 0, 0, 0, 0, 0]

  /** One turn of the inner loop, with `g` for the constant. */
  function Step(g: Bits, crc: Bits, bit: bool): (r: Bits)
    requires |g| == |crc| == 32
    ensures |r| == 32
  {
    Xor(Halved(crc), if crc[0] != bit then g else Zeros(32))
  }

  /** The register after `bits`, from `crc`. */
  function CrcBits(g: Bits, crc: Bits, bits: Bits): (r: Bits)
    requires |g| == |crc| == 32
    ensures |r| == 32
    decreases |bits|
  {
    if bits == [] then crc else CrcBits(g, Step(g, crc, bits[0]), bits[1..])
  }

  /** The start value: all ones. */
  function Ones(n: nat): (r: Bits)
    ensures |r| == n && forall i :: 0 <= i < n ==> r[i]
  {
    seq(n, _ => true)
  }

  /** The bits of the bytes in the order of transmission. */
  function Transmitted(bytes: seq<nat>): (r: Bits)
    ensures |r| == 8 * |bytes|
  {
    if bytes == [] then [] else Word(bytes[0], 8) + Transmitted(bytes[1..])
  }

  function EtherCrcOf(addr: Address): (r: Bits)
    ensures |r| == 32
  {
    CrcBits(POLYNOMIAL, Ones(32), Transmitted(addr))
  }

  /** The inner loop, over the bits of one byte; `rest` stands for the bits still to come. */
  method CrcByte(g: Bits, before: Bits, byte: Bits, ghost rest: Bits) returns (crc: Bits)
    requires |g| == |before| == 32 && |byte| == 8
    ensures |crc| == 32 && CrcBits(g, crc, rest) == CrcBits(g, before, byte + rest)
  {
    crc := before;
    var data := byte;
    assert data[..8] + rest == byte + rest;
    for bit := 0 to 8
      invariant |crc| == 32 && |data| == 8
      invariant CrcBits(g, crc, data[..8 - bit] + rest) == CrcBits(g, before, byte + rest)
    {
      assert (data[..8 - bit] + rest)[1..] == Halved(data)[..7 - bit] + rest;
      crc := Xor(Halved(crc), if crc[0] != data[0] then g else Zeros(32));
      data := Halved(data);
    }
    assert data[..0] + rest == rest;
  }

  /** `lan9250_ether_crc`. */
  method EtherCrc(addr: Address) returns (crc: Bits)
    ensures crc == EtherCrcOf(addr)
  {
    crc := Ones(32);
    for i := 0 to 6
      invariant |crc| == 32
      invariant CrcBits(POLYNOMIAL, crc, Transmitted(addr[i..])) == EtherCrcOf(addr)
    {
      assert addr[i..][1..] == addr[i + 1..];
      crc := CrcByte(POLYNOMIAL, crc, Word(addr[i], 8), Transmitted(addr[i + 1..]));
    }
  }

  /** `lan9250_mcast_hash_bit`: the upper six bits of the CRC register. */
  function HashBit(addr: Address): (b: nat)
    ensures b < 64
  {
    var top := EtherCrcOf(addr)[26..];
    ValueBound(top);
    Value(top)
  }

  function Pow2(n: nat): (p: nat)
    ensures p > 0
  {
    if n == 0 then 1 else 2 * Pow2(n - 1)
  }

  lemma {:induction false} ValueBound(w: Bits)
    ensures Value(w) < Pow2(|w|)
    ensures Pow2(6) == 64
    decreases |w|
  {
    assert Pow2(3) == 8;
    if w != [] {
      ValueBound(w[1..]);
    }
  }

  // ---------- Polynomials ----------

  function Scale(t: bool, p: Bits): (r: Bits)
    ensures |r| == |p| && forall i :: 0 <= i < |p| ==> r[i] == (t && p[i])
  {
    if t then p else Zeros(|p|)
  }

  /** The product of `q` and the polynomial x^32 + `g`, by Horner's rule on the coefficients of `q`. */
  function Product(g: Bits, q: Bits): (r: Bits)
    requires |g| == 32
    ensures |r| == |q| + 32
  {
    if q == [] then Zeros(32) else
      var n := |q| - 1;
      Xor(Product(g, q[..n]) + [false], Zeros(n) + Scale(q[n], [true] + g))
  }

  /** The hexadecimal digit at bit `k`. */
  function Digit(w: Bits, k: nat): nat
    requires k + 4 <= |w|
  {
    (if w[k] then 1 else 0) + (if w[k + 1] then 2 else 0) + (if w[k + 2] then 4 else 0) + (if w[k + 3] then 8 else 0)
  }

  /** The constant has the hexadecimal digits EDB88320. */
  lemma PolynomialDigits(w: Bits)
    requires w == POLYNOMIAL
    ensures Digit(w, 0) == 0x0 && Digit(w, 4) == 0x2 && Digit(w, 8) == 0x3 && Digit(w, 12) == 0x8
    ensures Digit(w, 16) == 0x8 && Digit(w, 20) == 0xB && Digit(w, 24) == 0xD && Digit(w, 28) == 0xE
  {
  }

  /** Degrees 26, 23, 22, 16, 12, 11, 10, 8, 7, 5, 4, 2, 1, 0: with x^32 the generator of section 3.2.9 of
      IEEE 802.3. */
  lemma PolynomialIsGenerator(degree: nat)
    requires degree < 32
    ensures POLYNOMIAL[31 - degree] <==> degree in {26, 23, 22, 16, 12, 11, 10, 8, 7, 5, 4, 2, 1, 0}
  {
  }

  /** A register is the polynomial whose power 31-i has bit i as its coefficient. One step multiplies it by x, lets
      the message bit in at x^32, and subtracts the divisor if that leaves a term of degree 32. */
  lemma StepDivides(g: Bits, c: Bits, b: bool)
    requires |g| == |c| == 32
    ensures Xor(c + [false], [b] + Zeros(32)) == Xor(Scale(c[0] != b, [true] + g), [false] + Step(g, c, b))
  {
    var t := c[0] != b;
    var x, y := Xor(c + [false], [b] + Zeros(32)), Xor(Scale(t, [true] + g), [false] + Step(g, c, b));
    forall i | 0 <= i < 33
      ensures x[i] == y[i]
    {
      assert i > 0 ==> ([true] + g)[i] == g[i - 1];
    }
  }

  /** The quotient the program computes without keeping it: one coefficient a step. */
  function Quotient(g: Bits, c: Bits, bits: Bits): (q: Bits)
    requires |g| == |c| == 32
    ensures |q| == |bits|
  {
    if bits == [] then [] else
      var n := |bits| - 1;
      Quotient(g, c, bits[..n]) + [CrcBits(g, c, bits[..n])[0] != bits[n]]
  }

  lemma {:induction false} CrcSnoc(g: Bits, c: Bits, bits: Bits, b: bool)
    requires |g| == |c| == 32
    ensures CrcBits(g, c, bits + [b]) == Step(g, CrcBits(g, c, bits), b)
    decreases |bits|
  {
    if bits == [] {
      assert [] + [b] == [b] && [b][1..] == [];
      assert CrcBits(g, c, [b]) == CrcBits(g, Step(g, c, b), []);
    } else {
      CrcSnoc(g, Step(g, c, bits[0]), bits[1..], b);
      assert (bits + [b])[1..] == bits[1..] + [b];
    }
  }

  lemma ShiftIn(n: nat, prod: Bits, c: Bits, b: bool)
    requires |prod| == n + 32 && |c| == 32
    ensures Xor(Xor(prod, Zeros(n) + c) + [false], Zeros(n) + [b] + Zeros(32))
         == Xor(prod + [false], Zeros(n) + Xor(c + [false], [b] + Zeros(32)))
  {
  }

  lemma SplitOff(n: nat, p: Bits, s: Bits, c: Bits)
    requires |p| == n + 33 && |s| == 33 && |c| == 32
    ensures Xor(p, Zeros(n) + Xor(s, [false] + c)) == Xor(Xor(p, Zeros(n) + s), Zeros(n + 1) + c)
  {
  }

  /** `lhs = prod + c` extended by one message bit. */
  lemma DivisionStep(g: Bits, n: nat, lhs: Bits, prod: Bits, c: Bits, b: bool, lhs': Bits)
    requires |g| == |c| == 32 && |lhs| == |prod| == n + 32 && |lhs'| == n + 33
    requires lhs == Xor(prod, Zeros(n) + c)
    requires lhs' == Xor(lhs + [false], Zeros(n) + [b] + Zeros(32))
    ensures lhs' == Xor(Xor(prod + [false], Zeros(n) + Scale(c[0] != b, [true] + g)), Zeros(n + 1) + Step(g, c, b))
  {
    ShiftIn(n, prod, c, b);
    StepDivides(g, c, b);
    SplitOff(n, prod + [false], Scale(c[0] != b, [true] + g), Step(g, c, b));
  }

  lemma ExtendDividend(bits: Bits, c: Bits, b: bool)
    requires |c| == 32
    ensures var n := |bits|;
            Xor(bits + [b] + Zeros(32), c + Zeros(n + 1))
            == Xor(Xor(bits + Zeros(32), c + Zeros(n)) + [false], Zeros(n) + [b] + Zeros(32))
  {
  }

  /** Message and start register over the divisor: what the register ends with is the remainder. */
  lemma {:induction false} CrcDivides(g: Bits, c: Bits, bits: Bits)
    requires |g| == |c| == 32
    ensures var n := |bits|;
            Xor(bits + Zeros(32), c + Zeros(n)) == Xor(Product(g, Quotient(g, c, bits)), Zeros(n) + CrcBits(g, c, bits))
    decreases |bits|
  {
    if bits == [] {
      assert Xor(Zeros(32), c) == c;
      assert [] + Zeros(32) == Zeros(32) && c + Zeros(0) == c && Zeros(0) + c == c;
    } else {
      var n := |bits| - 1;
      var p, b := bits[..n], bits[n];
      assert bits == p + [b];
      CrcDivides(g, c, p);
      CrcSnoc(g, c, p, b);
      ExtendDividend(p, c, b);
      var q := Quotient(g, c, p);
      assert Quotient(g, c, bits) == q + [CrcBits(g, c, p)[0] != b];
      assert (q + [CrcBits(g, c, p)[0] != b])[..n] == q;
      DivisionStep(g, n, Xor(p + Zeros(32), c + Zeros(n)), Product(g, q), CrcBits(g, c, p), b,
                   Xor(bits + Zeros(32), c + Zeros(n + 1)));
    }
  }

  /** Where two quotients of equal length first differ, so do the products. */
  lemma {:induction false} FirstDifference(g: Bits, q: Bits, q': Bits, i: nat)
    requires |g| == 32 && |q| == |q'| && i < |q| && q[..i] == q'[..i] && q[i] != q'[i]
    ensures Product(g, q)[i] != Product(g, q')[i]
    decreases |q|
  {
    var n := |q| - 1;
    if i < n {
      assert q[..n][..i] == q[..i] && q'[..n][..i] == q'[..i];
      FirstDifference(g, q[..n], q'[..n], i);
    } else {
      assert q[..n] == q'[..n];
    }
  }

  lemma {:induction false} QuotientsAgree(g: Bits, q: Bits, r: Bits, q': Bits, r': Bits, i: nat)
    requires |g| == |r| == |r'| == 32 && |q| == |q'| && i <= |q|
    requires Xor(Product(g, q), Zeros(|q|) + r) == Xor(Product(g, q'), Zeros(|q|) + r')
    ensures q[..i] == q'[..i]
  {
    if i > 0 {
      QuotientsAgree(g, q, r, q', r', i - 1);
      var x, y := Xor(Product(g, q), Zeros(|q|) + r), Xor(Product(g, q'), Zeros(|q|) + r');
      assert x[i - 1] == y[i - 1];
      assert Product(g, q)[i - 1] == Product(g, q')[i - 1];
      if q[i - 1] != q'[i - 1] {
        FirstDifference(g, q, q', i - 1);
      }
      assert q[..i] == q[..i - 1] + [q[i - 1]] && q'[..i] == q'[..i - 1] + [q'[i - 1]];
    }
  }

  lemma SumCancels(p: Bits, n: nat, r: Bits, r': Bits)
    requires |p| == n + |r| && |r| == |r'|
    requires Xor(p, Zeros(n) + r) == Xor(p, Zeros(n) + r')
    ensures r == r'
  {
    forall j | 0 <= j < |r|
      ensures r[j] == r'[j]
    {
      assert Xor(p, Zeros(n) + r)[n + j] == Xor(p, Zeros(n) + r')[n + j];
    }
  }

  lemma SameQuotient(g: Bits, q: Bits, r: Bits, r': Bits)
    requires |g| == |r| == |r'| == 32
    requires Xor(Product(g, q), Zeros(|q|) + r) == Xor(Product(g, q), Zeros(|q|) + r')
    ensures r == r'
  {
    SumCancels(Product(g, q), |q|, r, r');
  }

  lemma QuotientIsUnique(g: Bits, q: Bits, r: Bits, q': Bits, r': Bits)
    requires |g| == |r| == |r'| == 32 && |q| == |q'|
    requires Xor(Product(g, q), Zeros(|q|) + r) == Xor(Product(g, q'), Zeros(|q|) + r')
    ensures q == q'
  {
    QuotientsAgree(g, q, r, q', r', |q|);
    assert q[..|q|] == q && q'[..|q|] == q';
  }

  /** Division has one quotient and one remainder of degree below 32. */
  lemma RemainderIsUnique(g: Bits, q: Bits, r: Bits, q': Bits, r': Bits)
    requires |g| == |r| == |r'| == 32 && |q| == |q'|
    requires Xor(Product(g, q), Zeros(|q|) + r) == Xor(Product(g, q'), Zeros(|q|) + r')
    ensures q == q' && r == r'
  {
    QuotientIsUnique(g, q, r, q', r');
    SameQuotient(g, q, r, r');
  }

  /** The message times x^32, its first 32 bits complemented. */
  function Dividend(bits: Bits): (r: Bits)
    requires |bits| >= 32
    ensures |r| == |bits| + 32
  {
    Xor(bits[..32], Ones(32)) + bits[32..] + Zeros(32)
  }

  ghost predicate IsRemainder(g: Bits, dividend: Bits, r: Bits)
    requires |g| == 32 && |dividend| >= 32
  {
    |r| == 32 && exists q: Bits :: |q| == |dividend| - 32 && dividend == Xor(Product(g, q), Zeros(|q|) + r)
  }

  lemma DividendIsStart(bits: Bits)
    requires |bits| >= 32
    ensures Dividend(bits) == Xor(bits + Zeros(32), Ones(32) + Zeros(|bits|))
  {
  }

  lemma CrcIsRemainder(g: Bits, bits: Bits, r: Bits)
    requires |g| == 32 && |bits| >= 32
    ensures IsRemainder(g, Dividend(bits), r) <==> r == CrcBits(g, Ones(32), bits)
  {
    CrcDivides(g, Ones(32), bits);
    DividendIsStart(bits);
    var q := Quotient(g, Ones(32), bits);
    if IsRemainder(g, Dividend(bits), r) {
      var q' :| |q'| == |bits| && Dividend(bits) == Xor(Product(g, q'), Zeros(|q'|) + r);
      RemainderIsUnique(g, q, CrcBits(g, Ones(32), bits), q', r);
    }
  }

  /** For every address the CRC register holds exactly the remainder, modulo the generator, of the address with
      its first 32 bits complemented, times x^32. */
  lemma EtherCrcIsRemainder(addr: Address, r: Bits)
    ensures IsRemainder(POLYNOMIAL, Dividend(Transmitted(addr)), r) <==> r == EtherCrcOf(addr)
  {
    CrcIsRemainder(POLYNOMIAL, Transmitted(addr), r);
  }

  // ---------- Affinity ----------

  function Xor3(a: Bits, b: Bits, c: Bits): (r: Bits)
    requires |a| == |b| == |c|
    ensures |r| == |a|
  {
    Xor(Xor(a, b), c)
  }

  lemma StepAffine(g: Bits, a: Bits, b: Bits, c: Bits, x: bool, y: bool, z: bool)
    requires |g| == |a| == |b| == |c| == 32
    ensures Step(g, Xor3(a, b, c), (x != y) != z) == Xor3(Step(g, a, x), Step(g, b, y), Step(g, c, z))
  {
  }

  lemma Xor3Tail(x: Bits, y: Bits, z: Bits)
    requires |x| == |y| == |z| > 0
    ensures Xor3(x, y, z)[0] == ((x[0] != y[0]) != z[0]) && Xor3(x, y, z)[1..] == Xor3(x[1..], y[1..], z[1..])
  {
  }

  /** The CRC map is affine: the register for the sum of three messages is the sum of their registers. */
  lemma {:induction false} CrcAffine(g: Bits, a: Bits, b: Bits, c: Bits, x: Bits, y: Bits, z: Bits)
    requires |g| == |a| == |b| == |c| == 32 && |x| == |y| == |z|
    ensures CrcBits(g, Xor3(a, b, c), Xor3(x, y, z)) == Xor3(CrcBits(g, a, x), CrcBits(g, b, y), CrcBits(g, c, z))
    decreases |x|
  {
    if x != [] {
      StepAffine(g, a, b, c, x[0], y[0], z[0]);
      CrcAffine(g, Step(g, a, x[0]), Step(g, b, y[0]), Step(g, c, z[0]), x[1..], y[1..], z[1..]);
      Xor3Tail(x, y, z);
    }
  }

  /** So is the register of an address whose bits are the sum of those of three others. */
  lemma EtherCrcAffine(x: Address, y: Address, z: Address, sum: Address)
    requires Transmitted(sum) == Xor3(Transmitted(x), Transmitted(y), Transmitted(z))
    ensures EtherCrcOf(sum) == Xor3(EtherCrcOf(x), EtherCrcOf(y), EtherCrcOf(z))
  {
    assert Xor3(Ones(32), Ones(32), Ones(32)) == Ones(32);
    CrcAffine(POLYNOMIAL, Ones(32), Ones(32), Ones(32), Transmitted(x), Transmitted(y), Transmitted(z));
  }

  // ---------- Addresses that share a bin ----------

  lemma Recons(a: Bits, b: Bits)
    requires a != []
    ensures (a + b)[0] == a[0] && (a + b)[1..] == a[1..] + b
  {
  }

  lemma {:induction false} CrcAppends(g: Bits, c: Bits, a: Bits, b: Bits)
    requires |g| == |c| == 32
    ensures CrcBits(g, c, a + b) == CrcBits(g, CrcBits(g, c, a), b)
    decreases |a|
  {
    if a == [] {
      assert a + b == b;
    } else {
      Recons(a, b);
      CrcAppends(g, Step(g, c, a[0]), a[1..], b);
    }
  }

  lemma {:induction false} CrcOfZeros(g: Bits, n: nat)
    requires |g| == 32
    ensures CrcBits(g, Zeros(32), Zeros(n)) == Zeros(32)
    decreases n
  {
    if n > 0 {
      assert Step(g, Zeros(32), false) == Zeros(32);
      assert Zeros(n)[1..] == Zeros(n - 1);
      CrcOfZeros(g, n - 1);
    }
  }

  lemma {:induction false} ValueInjective(v: Bits, w: Bits)
    requires |v| == |w|
    ensures Value(v) == Value(w) <==> v == w
    decreases |v|
  {
    if v != [] {
      ValueInjective(v[1..], w[1..]);
      assert v == [v[0]] + v[1..] && w == [w[0]] + w[1..];
    }
  }

  /** The registers of two messages differ by that of their difference, started from zero. */
  lemma CrcDifference(g: Bits, c: Bits, x: Bits, y: Bits)
    requires |g| == |c| == 32 && |x| == |y|
    ensures CrcBits(g, c, y) == Xor(CrcBits(g, c, x), CrcBits(g, Zeros(32), Xor(x, y)))
  {
    var n := |x|;
    assert Xor3(c, Zeros(32), Zeros(32)) == c && Xor3(x, Xor(x, y), Zeros(n)) == y;
    CrcAffine(g, c, Zeros(32), Zeros(32), x, Xor(x, y), Zeros(n));
    CrcOfZeros(g, n);
    var r, d := CrcBits(g, c, x), CrcBits(g, Zeros(32), Xor(x, y));
    assert Xor3(r, d, Zeros(32)) == Xor(r, d);
  }

  lemma SameTop(r: Bits, d: Bits)
    requires |r| == |d| == 32
    ensures Xor(r, d)[26..] == r[26..] <==> d[26..] == Zeros(6)
  {
    var x := Xor(r, d);
    assert forall i :: 0 <= i < 6 ==> x[26..][i] == (r[26..][i] != d[26..][i]);
  }

  /** Whether two addresses share a bin depends on their difference alone. */
  lemma SameBinIff(x: Address, y: Address)
    ensures HashBit(x) == HashBit(y)
       <==> CrcBits(POLYNOMIAL, Zeros(32), Xor(Transmitted(x), Transmitted(y)))[26..] == Zeros(6)
  {
    CrcDifference(POLYNOMIAL, Ones(32), Transmitted(x), Transmitted(y));
    SameTop(EtherCrcOf(x), CrcBits(POLYNOMIAL, Zeros(32), Xor(Transmitted(x), Transmitted(y))));
    ValueInjective(EtherCrcOf(x)[26..], EtherCrcOf(y)[26..]);
  }

  /** The word moved down by `k` bits. */
  function Shifted(g: Bits, k: nat): (r: Bits)
    requires k <= |g|
    ensures |r| == |g| && forall i :: 0 <= i < |g| ==> r[i] == (i + k < |g| && g[i + k])
  {
    g[k..] + Zeros(k)
  }

  lemma ShiftStep(g: Bits, k: nat, bit: bool)
    requires |g| == 32 && k < 32 && bit == g[k]
    ensures Step(g, Shifted(g, k), bit) == Shifted(g, k + 1)
  {
    assert Xor(Halved(Shifted(g, k)), Zeros(32)) == Shifted(g, k + 1);
  }

  lemma FirstStep(g: Bits)
    requires |g| == 32
    ensures Step(g, Zeros(32), true) == Shifted(g, 0)
  {
  }

  lemma SnocPrefix(g: Bits, n: nat)
    requires n < |g|
    ensures [true] + g[..n + 1] == [true] + g[..n] + [g[n]]
  {
  }

  /** The divisor's leading coefficients, as a message, only move the divisor down the register. */
  lemma {:induction false} CrcOfDivisor(g: Bits, n: nat)
    requires |g| == 32 && n <= 32
    ensures CrcBits(g, Zeros(32), [true] + g[..n]) == Shifted(g, n)
    decreases n
  {
    if n == 0 {
      assert [true] + g[..0] == [] + [true];
      CrcSnoc(g, Zeros(32), [], true);
      FirstStep(g);
    } else {
      CrcOfDivisor(g, n - 1);
      SnocPrefix(g, n - 1);
      CrcSnoc(g, Zeros(32), [true] + g[..n - 1], g[n - 1]);
      ShiftStep(g, n - 1, g[n - 1]);
    }
  }

  lemma {:induction false} TransmittedSnoc(bytes: seq<nat>)
    requires bytes != []
    ensures var n := |bytes| - 1; Transmitted(bytes) == Transmitted(bytes[..n]) + Word(bytes[n], 8)
    decreases |bytes|
  {
    var n := |bytes| - 1;
    if n > 0 {
      TransmittedSnoc(bytes[1..]);
      assert bytes[..n][1..] == bytes[1..][..n - 1];
    } else {
      assert Transmitted(bytes[1..]) == [];
    }
  }

  lemma LastDifference(p: Bits, v: Bits, w: Bits)
    requires |v| == |w|
    ensures Xor(p + v, p + w) == Zeros(|p|) + Xor(v, w)
  {
  }

  function BitOf(value: nat, i: nat): bool {
    if i == 0 then value % 2 == 1 else BitOf(value / 2, i - 1)
  }

  lemma {:induction false} WordBit(value: nat, n: nat, i: nat)
    requires i < n
    ensures Word(value, n)[i] == BitOf(value, i)
  {
    if i > 0 {
      WordBit(value / 2, n - 1, i - 1);
    }
  }

  lemma BitsOf0x41(i: nat)
    requires i < 8
    ensures BitOf(0x41, i) <==> i == 0 || i == 6
  {
    assert BitOf(1, 0) && !BitOf(2, 0) && !BitOf(4, 0) && !BitOf(8, 0) && !BitOf(16, 0) && !BitOf(32, 0);
  }

  /** The byte 0x41 is the divisor's x^32 and its next seven coefficients. */
  lemma WordOf0x41()
    ensures Word(0x41, 8) == [true] + POLYNOMIAL[..7]
  {
    var w := Word(0x41, 8);
    forall i | 0 <= i < 8
      ensures w[i] == if i == 0 then true else POLYNOMIAL[i - 1]
    {
      WordBit(0x41, 8, i);
      BitsOf0x41(i);
      if i > 0 {
        PolynomialIsGenerator(32 - i);
      }
    }
  }

  /** A difference in the last byte alone: the bytes before it do not matter. */
  lemma LastByteDifference(g: Bits, x: Address, y: Address)
    requires |g| == 32 && x[..5] == y[..5]
    ensures CrcBits(g, Zeros(32), Xor(Transmitted(x), Transmitted(y)))
         == CrcBits(g, Zeros(32), Xor(Word(x[5], 8), Word(y[5], 8)))
  {
    TransmittedSnoc(x);
    TransmittedSnoc(y);
    var d := Xor(Word(x[5], 8), Word(y[5], 8));
    LastDifference(Transmitted(x[..5]), Word(x[5], 8), Word(y[5], 8));
    CrcAppends(g, Zeros(32), Zeros(40), d);
    CrcOfZeros(g, 40);
  }

  /** Addresses that differ by 0x41 in the last byte, and nowhere else, share a bin. */
  lemma LastByteCollision(x: Address, y: Address)
    requires x[..5] == y[..5] && Xor(Word(x[5], 8), Word(y[5], 8)) == Word(0x41, 8)
    ensures HashBit(x) == HashBit(y)
  {
    WordOf0x41();
    LastByteDifference(POLYNOMIAL, x, y);
    CrcOfDivisor(POLYNOMIAL, 7);
    assert Shifted(POLYNOMIAL, 7)[26..] == Zeros(6);
    SameBinIff(x, y);
  }
}
