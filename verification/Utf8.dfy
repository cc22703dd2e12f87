/** UTF-8 as section 3 of RFC 3629 defines it: the bytes of a sequence of code
    points. The decoders' test accepts exactly those. */
module Utf8 {
  import opened Wire

  /** A code point that is not a surrogate. */
  predicate Scalar(c: int) { 0 <= c < 0xD800 || 0xE000 <= c < 0x11_0000 }

  /** The bytes of a code point: six bits in each byte after the first. */
  function Spell(c: int): (s: bytes)
    requires Scalar(c)
    ensures |s| >= 1
  {
    if c < 0x80 then [c]
    else if c < 0x800 then [0xC0 + c / 0x40, 0x80 + c % 0x40]
    else if c < 0x1_0000 then [0xE0 + c / 0x1000, 0x80 + c / 0x40 % 0x40, 0x80 + c % 0x40]
    else [0xF0 + c / 0x4_0000, 0x80 + c / 0x1000 % 0x40, 0x80 + c / 0x40 % 0x40, 0x80 + c % 0x40]
  }

  predicate Scalars(cs: seq<int>) { forall i :: 0 <= i < |cs| ==> Scalar(cs[i]) }

  function SpellAll(cs: seq<int>): bytes
    requires Scalars(cs)
  {
    if cs == [] then [] else Spell(cs[0]) + SpellAll(cs[1..])
  }

  lemma {:induction false} ShortWidth(c: int, rest: bytes)
    requires Scalar(c) && c < 0x800
    ensures Utf8Width(Spell(c) + rest) == |Spell(c)|
  {
  }

  lemma {:induction false} ThreeWidth(c: int, rest: bytes)
    requires Scalar(c) && 0x800 <= c < 0x1_0000
    ensures Utf8Width(Spell(c) + rest) == 3
  {
    var s := Spell(c) + rest;
    assert s[0] == 0xE0 + c / 0x1000 && s[1] == 0x80 + c / 0x40 % 0x40 && s[2] == 0x80 + c % 0x40;
  }

  lemma {:induction false} FourWidth(c: int, rest: bytes)
    requires Scalar(c) && 0x1_0000 <= c
    ensures Utf8Width(Spell(c) + rest) == 4
  {
    var s := Spell(c) + rest;
    assert s[0] == 0xF0 + c / 0x4_0000 && s[1] == 0x80 + c / 0x1000 % 0x40;
    assert s[2] == 0x80 + c / 0x40 % 0x40 && s[3] == 0x80 + c % 0x40;
  }

  lemma {:induction false} SpellWidth(c: int, rest: bytes)
    requires Scalar(c)
    ensures Utf8Width(Spell(c) + rest) == |Spell(c)|
  {
    if c < 0x800 {
      ShortWidth(c, rest);
    } else if c < 0x1_0000 {
      ThreeWidth(c, rest);
    } else {
      FourWidth(c, rest);
    }
  }

  /** Every character that the test accepts is that of a code point. */
  lemma {:induction false} WidthSpells(s: bytes) returns (c: int)
    requires s != [] && Utf8Width(s) > 0
    ensures Scalar(c) && Spell(c) == s[..Utf8Width(s)]
  {
    var w, a: int := Utf8Width(s), s[0];
    if w == 1 {
      c := a;
    } else if w == 2 {
      var b: int := s[1];
      c := 0x40 * (a - 0xC0) + (b - 0x80);
    } else if w == 3 {
      c := ThreeSpells(a, s[1], s[2]);
      assert s[..3] == [s[0], s[1], s[2]];
    } else {
      c := FourSpells(a, s[1], s[2], s[3]);
      assert s[..4] == [s[0], s[1], s[2], s[3]];
    }
  }

  lemma {:induction false} ThreeSpells(a: int, b: int, d: int) returns (c: int)
    requires 0xE0 <= a < 0xF0 && 0x80 <= b < 0xC0 && 0x80 <= d < 0xC0
    requires (a == 0xE0 ==> b >= 0xA0) && (a == 0xED ==> b < 0xA0)
    ensures Scalar(c) && Spell(c) == [a, b, d]
  {
    c := 0x1000 * (a - 0xE0) + 0x40 * (b - 0x80) + (d - 0x80);
    assert c / 0x40 == 0x40 * (a - 0xE0) + (b - 0x80);
  }

  lemma {:induction false} FourSpells(a: int, b: int, d: int, e: int) returns (c: int)
    requires 0xF0 <= a < 0xF5 && 0x80 <= b < 0xC0 && 0x80 <= d < 0xC0 && 0x80 <= e < 0xC0
    requires (a == 0xF0 ==> b >= 0x90) && (a == 0xF4 ==> b < 0x90)
    ensures Scalar(c) && Spell(c) == [a, b, d, e]
  {
    c := 0x4_0000 * (a - 0xF0) + 0x1000 * (b - 0x80) + 0x40 * (d - 0x80) + (e - 0x80);
    assert c / 0x40 == 0x1000 * (a - 0xF0) + 0x40 * (b - 0x80) + (d - 0x80);
    assert c / 0x1000 == 0x40 * (a - 0xF0) + (b - 0x80);
  }

  lemma {:induction false} SpelledIsValid(cs: seq<int>)
    requires Scalars(cs)
    ensures ValidUtf8(SpellAll(cs))
  {
    if cs != [] {
      var h, t := Spell(cs[0]), SpellAll(cs[1..]);
      SpellWidth(cs[0], t);
      assert (h + t)[|h|..] == t;
      SpelledIsValid(cs[1..]);
    }
  }

  lemma {:induction false} ValidIsSpelled(s: bytes) returns (cs: seq<int>)
    requires ValidUtf8(s)
    ensures Scalars(cs) && SpellAll(cs) == s
    decreases |s|
  {
    if s == [] {
      cs := [];
    } else {
      var w := Utf8Width(s);
      var c := WidthSpells(s);
      var rest := ValidIsSpelled(s[w..]);
      cs := [c] + rest;
      assert cs[1..] == rest && s == s[..w] + s[w..];
    }
  }

  /** A byte string passes for UTF-8 if and only if it spells code points. */
  lemma {:induction false} ValidExactly(s: bytes)
    ensures ValidUtf8(s) <==> exists cs :: Scalars(cs) && SpellAll(cs) == s
  {
    if ValidUtf8(s) {
      var cs := ValidIsSpelled(s);
    }
    if cs :| Scalars(cs) && SpellAll(cs) == s {
      SpelledIsValid(cs);
    }
  }
}
