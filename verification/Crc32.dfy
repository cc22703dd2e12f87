/** CRC-32 as section 8 of RFC 1952 defines it, bit by bit over a 32-bit
    register, and the reason it catches every error burst of up to 32 bits. */
module Crc32 {
  import opened Wire

  /** n bits, least significant first. */
  type bits = seq<bool>

  function ToBits(n: nat, v: nat): (s: bits)
    ensures |s| == n
  {
    if n == 0 then [] else [v % 2 == 1] + ToBits(n - 1, v / 2)
  }

  function FromBits(s: bits): nat {
    if s == [] then 0 else (if s[0] then 1 else 0) + 2 * FromBits(s[1..])
  }

  function Pow2(n: nat): (p: nat)
    ensures p > 0
  {
    if n == 0 then 1 else 2 * Pow2(n - 1)
  }

  lemma {:induction false} FromToBits(n: nat, v: nat)
    requires v < Pow2(n)
    ensures FromBits(ToBits(n, v)) == v
  {
    if n > 0 {
      FromToBits(n - 1, v / 2);
      assert ToBits(n, v)[1..] == ToBits(n - 1, v / 2);
    }
  }

  lemma {:induction false} ToFromBits(s: bits)
    ensures ToBits(|s|, FromBits(s)) == s
    ensures FromBits(s) < Pow2(|s|)
  {
    if s != [] {
      ToFromBits(s[1..]);
      assert FromBits(s) / 2 == FromBits(s[1..]);
      assert s == [s[0]] + s[1..];
    }
  }

  lemma {:induction false} Pow2Eight()
    ensures Pow2(8) == 256
  {
  }

  function Zeros(n: nat): bits { seq(n, _ => false) }

  function Ones(n: nat): bits { seq(n, _ => true) }

  function Xor(a: bits, b: bits): (c: bits)
    requires |a| == |b|
    ensures |c| == |a|
  {
    seq(|a|, i requires 0 <= i < |a| => a[i] != b[i])
  }

  // --- the register ---

  type register = s: bits | |s| == 32 witness Zeros(32)

  /** 0xEDB88320, least significant bit first. */
  const POLY: register :=
    [false, false, false, false, false, true, false, false, true, true, false, false, false, false, false, true,
     false, false, false, true, true, true, false, true, true, false, true, true, false, true, true, true]

  const INIT: register := Ones(32)

  /** One shift of the register: out goes bit 0, and the polynomial comes in
      if that bit was set. */
  function Shift(s: register): (t: register)
  {
    seq(32, i requires 0 <= i < 32 => (i < 31 && s[i + 1]) != (s[0] && POLY[i]))
  }

  function Shifts(n: nat, s: register): register
    decreases n, |s|
  {
    if n == 0 then s else Shifts(n - 1, Shift(s))
  }

  /** A byte in the low octet of a register. */
  function Word(b: byte): (s: register) { ToBits(8, b) + Zeros(24) }

  function Step(s: register, b: byte): register { Shifts(8, Xor(s, Word(b))) }

  function Run(s: register, data: bytes): register
    decreases |data|
  {
    if data == [] then s else Run(Step(s, data[0]), data[1..])
  }

  function Octet(s: bits): (b: byte)
    requires |s| == 8
  {
    ToFromBits(s);
    Pow2Eight();
    FromBits(s)
  }

  /** The register as the four big-endian bytes that go on the wire. */
  function RegisterBE(s: register): (r: bytes)
    ensures |r| == 4
  {
    [Octet(s[24..32]), Octet(s[16..24]), Octet(s[8..16]), Octet(s[0..8])]
  }

  /** `zlib.crc32(data)` packed as a big-endian 32-bit integer. */
  function Crc(data: bytes): (r: bytes)
    ensures |r| == 4
  {
    RegisterBE(Xor(Run(INIT, data), INIT))
  }

  // --- linearity ---

  predicate IsZero(s: bits) { forall i :: 0 <= i < |s| ==> !s[i] }

  lemma {:induction false} XorZero(a: bits, b: bits)
    requires |a| == |b|
    ensures IsZero(Xor(a, b)) <==> a == b
  {
    if IsZero(Xor(a, b)) {
      forall i | 0 <= i < |a|
        ensures a[i] == b[i]
      {
        assert !Xor(a, b)[i];
      }
    }
  }

  lemma {:induction false} XorLaws(a: bits, b: bits, c: bits, d: bits)
    requires |a| == |b| == |c| == |d|
    ensures Xor(Xor(a, b), Xor(c, d)) == Xor(Xor(a, c), Xor(b, d))
    ensures Xor(Xor(a, b), c) == Xor(a, Xor(b, c))
  {
  }

  lemma {:induction false} ShiftLinear(x: register, y: register)
    ensures Shift(Xor(x, y)) == Xor(Shift(x), Shift(y))
  {
  }

  lemma {:induction false} ShiftsLinear(n: nat, x: register, y: register)
    ensures Shifts(n, Xor(x, y)) == Xor(Shifts(n, x), Shifts(n, y))
  {
    if n > 0 {
      ShiftLinear(x, y);
      ShiftsLinear(n - 1, Shift(x), Shift(y));
    }
  }

  /** The top bit of the polynomial is set, so no shift loses information. */
  lemma {:induction false} ShiftKeepsNonZero(s: register)
    requires !IsZero(s)
    ensures !IsZero(Shift(s))
  {
    var i :| 0 <= i < 32 && s[i];
    if s[0] {
      assert POLY[31];
      assert Shift(s)[31];
    } else {
      assert Shift(s)[i - 1];
    }
  }

  lemma {:induction false} ShiftsKeepNonZero(n: nat, s: register)
    requires !IsZero(s)
    ensures !IsZero(Shifts(n, s))
    decreases n
  {
    if n > 0 {
      ShiftKeepsNonZero(s);
      ShiftsKeepNonZero(n - 1, Shift(s));
    }
  }

  lemma {:induction false} ShiftsOfZero(n: nat, s: register)
    requires IsZero(s)
    ensures IsZero(Shifts(n, s))
    decreases n
  {
    if n > 0 {
      ShiftsOfZero(n - 1, Shift(s));
    }
  }

  /** Shifting out zero bits is a plain shift. */
  lemma {:induction false} ShiftsDropZeros(n: nat, s: register)
    requires n <= 32 && IsZero(s[..n])
    ensures Shifts(n, s) == s[n..] + Zeros(n)
    decreases n
  {
    if n > 0 {
      assert !s[..n][0];
      var t := Shift(s);
      assert t == s[1..] + [false];
      forall i | 0 <= i < n - 1
        ensures !t[i]
      {
        assert t[i] == s[..n][i + 1];
      }
      ShiftsDropZeros(n - 1, t);
    }
  }

  lemma {:induction false} ShiftsAdd(m: nat, n: nat, s: register)
    ensures Shifts(m + n, s) == Shifts(n, Shifts(m, s))
    decreases m
  {
    if m > 0 {
      ShiftsAdd(m - 1, n, Shift(s));
    }
  }

  // --- how a difference between two messages travels through the register ---

  /** The register difference that byte differences leave behind. */
  function Drift(d: register, a: bytes, b: bytes): register
    requires |a| == |b|
    decreases |a|
  {
    if a == [] then d else Drift(Shifts(8, Xor(d, Xor(Word(a[0]), Word(b[0])))), a[1..], b[1..])
  }

  lemma {:induction false} RunDrift(s: register, t: register, a: bytes, b: bytes)
    requires |a| == |b|
    ensures Xor(Run(s, a), Run(t, b)) == Drift(Xor(s, t), a, b)
    decreases |a|
  {
    if a != [] {
      XorLaws(s, Word(a[0]), t, Word(b[0]));
      ShiftsLinear(8, Xor(s, Word(a[0])), Xor(t, Word(b[0])));
      RunDrift(Step(s, a[0]), Step(t, b[0]), a[1..], b[1..]);
    }
  }

  lemma {:induction false} XorIdentity(d: register, z: register)
    requires IsZero(z)
    ensures Xor(d, z) == d && Xor(z, d) == d
  {
  }

  /** Equal bytes never erase a difference, and never make one. */
  lemma {:induction false} DriftOfEqualBytes(d: register, a: bytes)
    ensures IsZero(Drift(d, a, a)) <==> IsZero(d)
    decreases |a|
  {
    if a != [] {
      var z := Xor(Word(a[0]), Word(a[0]));
      XorZero(Word(a[0]), Word(a[0]));
      XorIdentity(d, z);
      if IsZero(d) { ShiftsOfZero(8, d); } else { ShiftsKeepNonZero(8, d); }
      DriftOfEqualBytes(Shifts(8, d), a[1..]);
    }
  }

  lemma {:induction false} DriftSplit(d: register, a: bytes, a': bytes, b: bytes, b': bytes)
    requires |a| == |a'| && |b| == |b'|
    ensures Drift(d, a + b, a' + b') == Drift(Drift(d, a, a'), b, b')
    decreases |a|
  {
    if a == [] {
      assert a + b == b && a' + b' == b';
    } else {
      assert (a + b)[1..] == a[1..] + b && (a' + b')[1..] == a'[1..] + b';
      DriftSplit(Shifts(8, Xor(d, Xor(Word(a[0]), Word(a'[0])))), a[1..], a'[1..], b, b');
    }
  }

  /** Up to four bytes laid side by side in one register, first byte lowest. */
  function Line(a: bytes): (s: register)
    requires |a| <= 4
    ensures forall i :: 8 * |a| <= i < 32 ==> !s[i]
    decreases |a|
  {
    if a == [] then Zeros(32)
    else ToBits(8, a[0]) + Line(a[1..])[..24]
  }

  lemma {:induction false} LineInjective(a: bytes, b: bytes)
    requires |a| == |b| <= 4 && Line(a) == Line(b)
    ensures a == b
  {
    if a != [] {
      var s, t := Line(a[1..]), Line(b[1..]);
      assert Line(a)[..8] == ToBits(8, a[0]) && Line(b)[..8] == ToBits(8, b[0]);
      Pow2Eight();
      FromToBits(8, a[0]);
      FromToBits(8, b[0]);
      assert s[..24] == Line(a)[8..] && t[..24] == Line(b)[8..];
      LineTop(a[1..]);
      LineTop(b[1..]);
      assert s == s[..24] + s[24..] && t == t[..24] + t[24..];
      LineInjective(a[1..], b[1..]);
      assert a == [a[0]] + a[1..] && b == [b[0]] + b[1..];
    }
  }

  lemma {:induction false} LineTop(a: bytes)
    requires |a| <= 3
    ensures Line(a)[24..] == Zeros(8)
  {
  }

  /** The rest of a line, moved up past its first octet. */
  function Raised(a: bytes): (s: register)
    requires |a| <= 3
  {
    Zeros(8) + Line(a)[..24]
  }

  lemma {:induction false} RaisedShifts(a: bytes)
    requires |a| <= 3
    ensures Shifts(8, Raised(a)) == Line(a)
  {
    assert Raised(a)[..8] == Zeros(8);
    ShiftsDropZeros(8, Raised(a));
    LineTop(a);
    assert Raised(a)[8..] == Line(a)[..24];
  }

  lemma {:induction false} LineSplits(a: bytes)
    requires 0 < |a| <= 4
    ensures Line(a) == Xor(Word(a[0]), Raised(a[1..]))
  {
  }

  /** One octet-shift splits the first byte of a line off from the rest. */
  lemma {:induction false} LineStep(d: register, a: bytes, b: bytes)
    requires 0 < |a| == |b| <= 4
    ensures Shifts(8, Xor(d, Xor(Line(a), Line(b))))
         == Xor(Shifts(8, Xor(d, Xor(Word(a[0]), Word(b[0])))), Xor(Line(a[1..]), Line(b[1..])))
  {
    var p, q := Raised(a[1..]), Raised(b[1..]);
    var x := Xor(Word(a[0]), Word(b[0]));
    LineSplits(a);
    LineSplits(b);
    XorLaws(Word(a[0]), p, Word(b[0]), q);
    XorLaws(d, x, Xor(p, q), p);
    assert Xor(d, Xor(Line(a), Line(b))) == Xor(Xor(d, x), Xor(p, q));
    ShiftsLinear(8, Xor(d, x), Xor(p, q));
    ShiftsLinear(8, p, q);
    RaisedShifts(a[1..]);
    RaisedShifts(b[1..]);
  }

  lemma {:induction false} ShiftsRegroup(n: nat, w: register, v: register)
    requires Shifts(8, w) == v
    ensures Shifts(8 + n, w) == Shifts(n, v)
  {
    ShiftsAdd(8, n, w);
  }

  /** Four bytes enter the register as if they were XORed in at once. */
  lemma {:induction false} DriftIsLine(d: register, a: bytes, b: bytes)
    requires |a| == |b| <= 4
    ensures Drift(d, a, b) == Shifts(8 * |a|, Xor(d, Xor(Line(a), Line(b))))
    decreases |a|
  {
    if a == [] {
      XorIdentity(d, Xor(Line(a), Line(b)));
    } else {
      var d' := Shifts(8, Xor(d, Xor(Word(a[0]), Word(b[0]))));
      DriftIsLine(d', a[1..], b[1..]);
      ShiftsRegroup(8 * |a| - 8, Xor(d, Xor(Line(a), Line(b))), Xor(d', Xor(Line(a[1..]), Line(b[1..])))) by {
        LineStep(d, a, b);
      }
    }
  }

  lemma {:induction false} OctetInjective(s: bits, t: bits)
    requires |s| == |t| == 8 && Octet(s) == Octet(t)
    ensures s == t
  {
    ToFromBits(s);
    ToFromBits(t);
  }

  lemma {:induction false} RegisterBEInjective(s: register, t: register)
    requires RegisterBE(s) == RegisterBE(t)
    ensures s == t
  {
    var r, q := RegisterBE(s), RegisterBE(t);
    assert r[0] == q[0] && r[1] == q[1] && r[2] == q[2] && r[3] == q[3];
    OctetInjective(s[24..32], t[24..32]);
    OctetInjective(s[16..24], t[16..24]);
    OctetInjective(s[8..16], t[8..16]);
    OctetInjective(s[0..8], t[0..8]);
    assert s == s[0..8] + s[8..16] + s[16..24] + s[24..32];
    assert t == t[0..8] + t[8..16] + t[16..24] + t[24..32];
  }

  lemma {:induction false} CrcInjectiveInRegister(s: register, t: register)
    requires RegisterBE(Xor(s, INIT)) == RegisterBE(Xor(t, INIT))
    ensures s == t
  {
    RegisterBEInjective(Xor(s, INIT), Xor(t, INIT));
    forall i | 0 <= i < 32
      ensures s[i] == t[i]
    {
      assert Xor(s, INIT)[i] == Xor(t, INIT)[i];
    }
  }

  /** Two strings that differ, and only inside a window of four bytes. */
  predicate DifferInWindow(a: bytes, b: bytes, at: nat) {
    && |a| == |b|
    && a != b
    && at <= |a|
    && forall i :: 0 <= i < |a| && a[i] != b[i] ==> at <= i < at + 4
  }

  lemma {:induction false} WindowDrifts(pre: bytes, mid: bytes, mid': bytes, post: bytes)
    requires |mid| == |mid'| <= 4 && mid != mid'
    ensures Run(INIT, pre + (mid + post)) != Run(INIT, pre + (mid' + post))
  {
    var a, b := pre + (mid + post), pre + (mid' + post);
    var z := Xor(INIT, INIT);
    XorZero(INIT, INIT);
    RunDrift(INIT, INIT, a, b);
    DriftSplit(z, pre, pre, mid + post, mid' + post);
    var z' := Drift(z, pre, pre);
    DriftOfEqualBytes(z, pre);
    DriftSplit(z', mid, mid', post, post);
    var w := Xor(Line(mid), Line(mid'));
    assert !IsZero(w) by {
      XorZero(Line(mid), Line(mid'));
      if IsZero(w) { LineInjective(mid, mid'); }
    }
    DriftIsLine(z', mid, mid');
    XorIdentity(w, z');
    ShiftsKeepNonZero(8 * |mid|, w);
    DriftOfEqualBytes(Drift(z', mid, mid'), post);
    XorZero(Run(INIT, a), Run(INIT, b));
  }

  /** CRC-32 separates any two equally long messages that differ only within a
      window of four consecutive bytes. */
  lemma {:induction false} BurstDetected(a: bytes, b: bytes, at: nat)
    requires DifferInWindow(a, b, at)
    ensures Crc(a) != Crc(b)
  {
    var end := if at + 4 <= |a| then at + 4 else |a|;
    var pre, mid, post := a[..at], a[at..end], a[end..];
    var mid' := b[at..end];
    assert b[..at] == pre && b[end..] == post;
    assert a == pre + (mid + post) && b == pre + (mid' + post);
    WindowDrifts(pre, mid, mid', post);
    if Crc(a) == Crc(b) {
      CrcInjectiveInRegister(Run(INIT, a), Run(INIT, b));
    }
  }
}
