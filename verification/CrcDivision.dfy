/** CRC-32 as polynomial division over the field of two elements, which is how
    section 8 of RFC 1952 and the standards it cites define it. Nothing here but
    the two theorems at the end mentions the shift register. */
module CrcDivision {
  import opened Wire
  import opened Crc32
  import Numerals
  import Modular

  // --- polynomials ---

  /** The exponents of the terms of the generator. */
  predicate Term(e: int) {
    || e == 32 || e == 26 || e == 23 || e == 22 || e == 16 || e == 12 || e == 11 || e == 10
    || e == 8 || e == 7 || e == 5 || e == 4 || e == 2 || e == 1 || e == 0
  }

  /** The generator: the coefficients of x^32 down to x^0. */
  function Generator(): (g: bits)
    ensures |g| == 33
  {
    seq(33, i requires 0 <= i < 33 => Term(32 - i))
  }

  /** The top 33 coefficients, less the generator if the first one is set. The
      first one is then gone. */
  function Cancel(p: bits): (r: bits)
    requires |p| >= 33
    ensures |r| == |p| - 1
  {
    seq(|p| - 1, i requires 0 <= i < |p| - 1 => p[i + 1] != (p[0] && i < 32 && Term(31 - i)))
  }

  /** The remainder of long division by the generator. A polynomial is the list of
      its coefficients, highest first. */
  function Remainder(p: bits): (r: bits)
    requires |p| >= 32
    ensures |r| == 32
    decreases |p|
  {
    if |p| == 32 then p else Remainder(Cancel(p))
  }

  function Quotient(p: bits): (q: bits)
    requires |p| >= 32
    ensures |q| == |p| - 32
    decreases |p|
  {
    if |p| == 32 then [] else [p[0]] + Quotient(Cancel(p))
  }

  /** q times the generator. */
  function Product(q: bits): (r: bits)
    ensures |r| == |q| + 32
  {
    if q == [] then Zeros(32)
    else Xor(if q[0] then Generator() + Zeros(|q| - 1) else Zeros(|q| + 32), [false] + Product(q[1..]))
  }

  /** q * generator + r. */
  function Combined(q: bits, r: bits): (p: bits)
    requires |r| == 32
    ensures |p| == |q| + 32
  {
    Xor(Product(q), Zeros(|q|) + r)
  }

  /** p = q * generator + r, with r of degree below 32. */
  predicate Divides(p: bits, q: bits, r: bits) {
    |r| == 32 && |p| == |q| + 32 && p == Combined(q, r)
  }

  /** Taking the first coefficient off the quotient. */
  lemma {:induction false} CombinedStep(q: bits, r: bits, i: nat)
    requires q != [] && |r| == 32 && i < |q| + 31
    ensures Combined(q, r)[0] == q[0]
    ensures Combined(q, r)[i + 1] == (Combined(q[1..], r)[i] != (q[0] && i < 32 && Term(31 - i)))
  {
    ProductStep(q, i);
    XorAt(Product(q), Zeros(|q|) + r, 0);
    XorAt(Product(q), Zeros(|q|) + r, i + 1);
    XorAt(Product(q[1..]), Zeros(|q| - 1) + r, i);
  }

  lemma {:induction false} XorAt(a: bits, b: bits, i: nat)
    requires i < |a| == |b|
    ensures Xor(a, b)[i] == (a[i] != b[i])
  {
  }

  lemma {:induction false} ProductStep(q: bits, i: nat)
    requires q != [] && i < |q| + 31
    ensures Product(q)[0] == q[0]
    ensures Product(q)[i + 1] == (Product(q[1..])[i] != (q[0] && i < 32 && Term(31 - i)))
  {
    var g, p := if q[0] then Generator() + Zeros(|q| - 1) else Zeros(|q| + 32), Product(q[1..]);
    XorAt(g, [false] + p, 0);
    XorAt(g, [false] + p, i + 1);
  }

  lemma {:induction false} CancelAt(p: bits, q: bits, r: bits, i: nat)
    requires q != [] && |r| == 32 && |p| == |q| + 32 && p[0] == q[0] && i < |q| + 31
    ensures p[i + 1] == Combined(q, r)[i + 1] <==> Cancel(p)[i] == Combined(q[1..], r)[i]
  {
    CombinedStep(q, r, i);
  }

  lemma {:induction false} CancelCombined(p: bits, q: bits, r: bits)
    requires q != [] && |r| == 32 && |p| == |q| + 32
    ensures p == Combined(q, r) <==> p[0] == q[0] && Cancel(p) == Combined(q[1..], r)
  {
    var x, y, c := Combined(q, r), Combined(q[1..], r), Cancel(p);
    CombinedStep(q, r, 0);
    if p[0] == q[0] {
      forall i: nat | i < |q| + 31
        ensures p[i + 1] == x[i + 1] <==> c[i] == y[i]
      {
        CancelAt(p, q, r, i);
      }
      SameTails(p, x, c, y);
    }
  }

  lemma {:induction false} SameTails(p: bits, x: bits, c: bits, y: bits)
    requires |p| == |x| > 0 && |c| == |y| == |p| - 1 && p[0] == x[0]
    requires forall i: nat :: i < |c| ==> (p[i + 1] == x[i + 1] <==> c[i] == y[i])
    ensures p == x <==> c == y
  {
    if c == y {
      forall i | 0 <= i < |p|
        ensures p[i] == x[i]
      {
        if i > 0 { assert c[i - 1] == y[i - 1]; }
      }
    }
  }

  /** Long division divides. */
  lemma {:induction false} DivisionDivides(p: bits)
    requires |p| >= 32
    ensures Divides(p, Quotient(p), Remainder(p))
    decreases |p|
  {
    if |p| == 32 {
      assert Zeros(0) + p == p;
      assert p == Combined([], p);
    } else {
      DivisionDivides(Cancel(p));
      var q := Quotient(p);
      assert q[1..] == Quotient(Cancel(p));
      CancelCombined(p, q, Remainder(p));
    }
  }

  /** The first coefficient of a product is that of its first factor, so there is
      one quotient and one remainder. */
  lemma {:induction false} DivisionUnique(p: bits, q: bits, r: bits)
    requires Divides(p, q, r)
    ensures q == Quotient(p) && r == Remainder(p)
    decreases |q|
  {
    if q == [] {
      assert Zeros(0) + r == r;
      assert p == r;
    } else {
      CancelCombined(p, q, r);
      DivisionUnique(Cancel(p), q[1..], r);
      assert q == [q[0]] + q[1..];
    }
  }

  // --- adding polynomials ---

  lemma {:induction false} RemainderLinear(p: bits, q: bits)
    requires |p| == |q| >= 32
    ensures Remainder(Xor(p, q)) == Xor(Remainder(p), Remainder(q))
    decreases |p|
  {
    if |p| > 32 {
      assert Cancel(Xor(p, q)) == Xor(Cancel(p), Cancel(q));
      RemainderLinear(Cancel(p), Cancel(q));
    }
  }

  /** Leading zeros do not count. */
  lemma {:induction false} LeadingZeros(n: nat, p: bits)
    requires |p| >= 32
    ensures Remainder(Zeros(n) + p) == Remainder(p)
    decreases n
  {
    if n == 0 {
      assert Zeros(0) + p == p;
    } else {
      assert Cancel(Zeros(n) + p) == Zeros(n - 1) + p;
      LeadingZeros(n - 1, p);
    }
  }

  /** One turn of the division on a register followed by zeros is one shift. */
  lemma {:induction false} ShiftDivides(s: register, n: nat)
    requires n > 0
    ensures Remainder(s + Zeros(n)) == Remainder(Shift(s) + Zeros(n - 1))
  {
    PolyIsGenerator();
    var p := s + Zeros(n);
    assert Cancel(p) == Shift(s) + Zeros(n - 1);
  }

  lemma {:induction false} PolyIsGenerator()
    ensures forall i :: 0 <= i < 32 ==> POLY[i] == Term(31 - i)
  {
    forall i | 0 <= i < 32
      ensures POLY[i] == Term(31 - i)
    {
    }
  }

  lemma {:induction false} ShiftsDivide(k: nat, s: register, n: nat)
    requires k <= n
    ensures Remainder(s + Zeros(n)) == Remainder(Shifts(k, s) + Zeros(n - k))
    decreases k
  {
    if k > 0 {
      ShiftDivides(s, n);
      ShiftsDivide(k - 1, Shift(s), n - 1);
    }
  }

  // --- messages ---

  /** Bit i of v: the coefficient of 2^i. */
  predicate Bit(v: nat, i: nat) { v / Pow2(i) % 2 == 1 }

  /** The message as coefficients: byte by byte, the least significant bit of a
      byte first. */
  function Message(data: bytes): (m: bits)
    ensures |m| == 8 * |data|
  {
    seq(8 * |data|, i requires 0 <= i < 8 * |data| => Bit(data[i / 8], i % 8))
  }

  /** The message times x^32, with s added to the first 32 coefficients. */
  function Preset(s: bits, data: bytes): (p: bits)
    requires |s| == 32
    ensures |p| == 8 * |data| + 32
  {
    Xor(Message(data) + Zeros(32), s + Zeros(8 * |data|))
  }

  lemma {:induction false} HalfDivides(v: nat, d: nat)
    requires d > 0
    ensures v / (2 * d) == (v / 2) / d
  {
    var q, r := (v / 2) / d, (v / 2) % d;
    assert v / 2 == q * d + r;
    assert v == 2 * (q * d + r) + v % 2;
    assert 2 * (q * d) == q * (2 * d);
    assert v == q * (2 * d) + (2 * r + v % 2) && 0 <= 2 * r + v % 2 < 2 * d;
    QuotientIs(v, 2 * d, q, 2 * r + v % 2);
  }

  lemma {:induction false} QuotientIs(v: nat, d: nat, q: nat, r: nat)
    requires d > 0 && v == q * d + r && r < d
    ensures v / d == q
  {
    var a, b := v / d, v % d;
    assert v == a * d + b && 0 <= b < d;
    if a > q { Modular.Gap(a, q, d); } else if a < q { Modular.Gap(q, a, d); }
  }

  lemma {:induction false} BitOf(n: nat, v: nat, i: nat)
    requires i < n
    ensures ToBits(n, v)[i] == Bit(v, i)
    decreases n
  {
    if i > 0 {
      HalfDivides(v, Pow2(i - 1));
      BitOf(n - 1, v / 2, i - 1);
    }
  }

  lemma {:induction false} MessageHead(data: bytes)
    requires data != []
    ensures Message(data) == ToBits(8, data[0]) + Message(data[1..])
  {
    var m := ToBits(8, data[0]) + Message(data[1..]);
    forall i | 0 <= i < |m|
      ensures Message(data)[i] == m[i]
    {
      if i < 8 {
        BitOf(8, data[0], i);
      } else {
        assert (i - 8) / 8 == i / 8 - 1 && (i - 8) % 8 == i % 8;
      }
    }
  }

  /** The first byte taken off a message: it goes into the register, and the rest
      of the message follows. */
  lemma {:induction false} PresetHead(s: register, data: bytes)
    requires data != []
    ensures Preset(s, data)
         == Xor(Xor(s, Word(data[0])) + Zeros(8 * |data|), Zeros(8) + (Message(data[1..]) + Zeros(32)))
  {
    MessageHead(data);
  }

  lemma {:induction false} XorCommutes(a: bits, b: bits)
    requires |a| == |b|
    ensures Xor(a, b) == Xor(b, a)
  {
  }

  /** The register after a run is the remainder of the message. */
  lemma {:induction false} RunDivides(s: register, data: bytes)
    ensures Run(s, data) == Remainder(Preset(s, data))
    decreases |data|
  {
    if data == [] {
      assert Preset(s, data) == s;
    } else {
      ByteDivides(s, data);
      RunDivides(Step(s, data[0]), data[1..]);
    }
  }

  lemma {:induction false} ByteDivides(s: register, data: bytes)
    requires data != []
    ensures Remainder(Preset(s, data)) == Remainder(Preset(Step(s, data[0]), data[1..]))
  {
    var n, x := 8 * |data|, Xor(s, Word(data[0]));
    var m, t := Message(data[1..]) + Zeros(32), Shifts(8, x) + Zeros(n - 8);
    FirstDivides(s, data, x, m);
    RemainderLinear(m, t);
    XorCommutes(Remainder(m), Remainder(t));
  }

  lemma {:induction false} FirstDivides(s: register, data: bytes, x: register, m: bits)
    requires data != [] && x == Xor(s, Word(data[0])) && m == Message(data[1..]) + Zeros(32)
    ensures Remainder(Preset(s, data)) == Xor(Remainder(Shifts(8, x) + Zeros(8 * |data| - 8)), Remainder(m))
  {
    var n := 8 * |data|;
    PresetHead(s, data);
    RemainderLinear(x + Zeros(n), Zeros(8) + m);
    LeadingZeros(8, m);
    ShiftsDivide(8, x, n);
  }

  // --- the number on the wire ---

  lemma {:induction false} FromBitsAppend(a: bits, b: bits)
    ensures FromBits(a + b) == FromBits(a) + Pow2(|a|) * FromBits(b)
  {
    if a == [] {
      assert a + b == b;
    } else {
      assert (a + b)[1..] == a[1..] + b;
      FromBitsAppend(a[1..], b);
      Doubles(Pow2(|a| - 1), FromBits(b));
    }
  }

  lemma {:induction false} Doubles(x: nat, y: nat)
    ensures 2 * x * y == 2 * (x * y)
  {
  }

  lemma {:induction false} RegisterNumber(s: register)
    ensures FromBE(RegisterBE(s)) == FromBits(s)
  {
    var a, b, c, d := s[0..8], s[8..16], s[16..24], s[24..32];
    Pow2Eight();
    FromBitsAppend(c, d);
    FromBitsAppend(b, c + d);
    FromBitsAppend(a, b + (c + d));
    assert s == a + (b + (c + d));
    var r := RegisterBE(s);
    Numerals.FourDigits(r[0], r[1], r[2], r[3]);
    assert r == [r[0], r[1], r[2], r[3]];
  }

  /** CRC-32 is the remainder: take the message times x^32, add the all-ones preset
      to its first 32 coefficients, and divide by the generator. Bit i of the
      number on the wire is the complement of the coefficient of x^(31 - i). */
  lemma {:induction false} CrcIsRemainder(data: bytes)
    ensures var r := Remainder(Preset(Ones(32), data));
      forall i :: 0 <= i < 32 ==> (Bit(FromBE(Crc(data)), i) <==> !r[i])
  {
    var s := Xor(Run(INIT, data), INIT);
    RunDivides(INIT, data);
    RegisterNumber(s);
    ToFromBits(s);
    forall i | 0 <= i < 32
      ensures Bit(FromBits(s), i) <==> !Run(INIT, data)[i]
    {
      BitOf(32, FromBits(s), i);
    }
  }

  /** The same, by what a remainder is: there is one way to write the preset
      message as a multiple of the generator and a polynomial of degree below 32,
      and that polynomial is the complement of the number on the wire. */
  lemma {:induction false} CrcExactly(data: bytes, q: bits, r: bits)
    requires Divides(Preset(Ones(32), data), q, r)
    ensures forall i :: 0 <= i < 32 ==> (Bit(FromBE(Crc(data)), i) <==> !r[i])
  {
    DivisionUnique(Preset(Ones(32), data), q, r);
    CrcIsRemainder(data);
  }
}
