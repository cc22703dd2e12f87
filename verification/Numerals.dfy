/** What the numbers on the wire mean, digit by digit: big-endian integers, and
    unsigned LEB128. */
module Numerals {
  import opened Wire
  import Varint

  // --- big-endian ---

  /** The digits of a are worth 256^|b| times more in front of b. */
  lemma {:induction false} BigEndianAppend(a: bytes, b: bytes)
    ensures FromBE(a + b) == FromBE(a) * Pow256(|b|) + FromBE(b)
    decreases |b|
  {
    if b == [] {
      assert a + b == a;
    } else {
      var n := |b| - 1;
      assert (a + b)[..|a + b| - 1] == a + b[..n];
      BigEndianAppend(a, b[..n]);
      Regroup(FromBE(a), Pow256(n), FromBE(b[..n]));
    }
  }

  lemma {:induction false} Regroup(x: nat, p: nat, y: nat)
    ensures (x * p + y) * 256 == x * (256 * p) + y * 256
  {
  }

  lemma {:induction false} OneDigit(b: byte)
    ensures FromBE([b]) == b
  {
    assert [b][..0] == [];
  }

  lemma {:induction false} TwoDigits(a: int, b: int)
    requires 0 <= a < 256 && 0 <= b < 256
    ensures FromBE([a, b]) == 0x100 * a + b
  {
    assert [a, b][..1] == [a];
    OneDigit(a);
  }

  lemma {:induction false} FourDigits(a: int, b: int, c: int, d: int)
    requires 0 <= a < 256 && 0 <= b < 256 && 0 <= c < 256 && 0 <= d < 256
    ensures FromBE([a, b, c, d]) == 0x100_0000 * a + 0x1_0000 * b + 0x100 * c + d
  {
    assert [a, b, c, d][..3] == [a, b, c] && [a, b, c][..2] == [a, b];
    TwoDigits(a, b);
  }

  lemma {:induction false} EightDigits(s: bytes)
    requires |s| == 8
    ensures FromBE(s) == 0x1_0000_0000 * FromBE(s[..4]) + FromBE(s[4..])
  {
    assert s == s[..4] + s[4..];
    BigEndianAppend(s[..4], s[4..]);
    Pow256Values();
  }

  // --- varints ---

  /** A varint is a run of bytes of which only the last is below 0x80. */
  predicate Ends(s: bytes) {
    s != [] && s[|s| - 1] < 0x80 && forall i :: 0 <= i < |s| - 1 ==> s[i] >= 0x80
  }

  /** The low seven bits of every byte, the first byte worth least. */
  function Sevens(s: bytes): nat { if s == [] then 0 else s[0] % 0x80 + 0x80 * Sevens(s[1..]) }

  lemma {:induction false} EndsTail(s: bytes)
    requires s != []
    ensures Ends(s) <==> if s[0] < 0x80 then |s| == 1 else Ends(s[1..])
  {
    if s[0] >= 0x80 && Ends(s[1..]) {
      assert s[|s| - 1] == s[1..][|s| - 2];
      forall i | 0 <= i < |s| - 1
        ensures s[i] >= 0x80
      {
        if i > 0 { assert s[i] == s[1..][i - 1]; }
      }
    }
  }

  lemma {:induction false} GroupsSpelled(k: nat, v: nat)
    requires k > 0 && v < Varint.GroupBound(k)
    ensures var s := Varint.Groups(k, v);
      Ends(s) && Sevens(s) == v && (|s| > 1 ==> s[|s| - 1] != 0)
    decreases k
  {
    assert Varint.GroupBound(k) == 0x80 * Varint.GroupBound(k - 1);
    var s := Varint.Groups(k, v);
    EndsTail(s);
    if v > 0x7F {
      assert s[1..] == Varint.Groups(k - 1, v / 0x80);
      GroupsSpelled(k - 1, v / 0x80);
      assert s[|s| - 1] == s[1..][|s| - 2];
      assert s[0] % 0x80 == v % 0x80;
    } else {
      assert s[1..] == [];
    }
  }

  /** What an encoder writes for a count or a length below 2^28: one to four bytes,
      of which only the last is below 0x80, seven bits of the number in each, the
      lowest first, and no idle zero at the end. */
  lemma {:induction false} VarintSpelled(v: nat)
    requires v < 0x1000_0000
    ensures var s := Varint.Encode(v);
      1 <= |s| <= 4 && Ends(s) && Sevens(s) == v && (|s| > 1 ==> s[|s| - 1] != 0)
  {
    Varint.GroupBoundFour();
    GroupsSpelled(4, v);
  }

  /** The number of bytes at the start of s that have their top bit set. */
  function Continued(s: bytes): (n: nat)
    ensures n <= |s| && (n < |s| ==> s[n] < 0x80)
    ensures forall i :: 0 <= i < n ==> s[i] >= 0x80
  {
    if s == [] || s[0] < 0x80 then 0 else 1 + Continued(s[1..])
  }

  lemma {:induction false} SevensHead(data: bytes, n: nat)
    requires 0 < n < |data| && data[0] >= 0x80
    ensures Sevens(data[..n + 1]) == data[0] - 0x80 + 0x80 * Sevens(data[1..][..n])
  {
    assert data[..n + 1][1..] == data[1..][..n];
  }

  lemma {:induction false} ReadFromSpelled(lang: Lang, i: nat, data: bytes)
    requires i <= 4
    ensures var n, r := Continued(data), Varint.DecodeFrom(lang, i, data);
      if n < |data| && n + i < 4 then r == Got(Sevens(data[..n + 1]), i + n + 1)
      else if n + i < 4 || (lang.Rust? && |data| + i == 4 == n + i) then r == Bad(Truncated)
      else r == Bad(Overflow)
    decreases 4 - i
  {
    if i < 4 && data != [] {
      var n := Continued(data);
      if data[0] < 0x80 {
        assert data[..1][1..] == [];
      } else {
        ReadFromSpelled(lang, i + 1, data[1..]);
        if n < |data| { SevensHead(data, n); }
      }
    }
  }

  /** What the decoders read: the first byte below 0x80 ends the number, if it is
      among the first four. Otherwise the number is cut short or too long; on four
      bytes that all go on, Rust says the one and Python the other. */
  lemma {:induction false} VarintRead(lang: Lang, data: bytes)
    ensures var n, r := Continued(data), Varint.Decode(lang, data);
      if n < |data| && n < 4 then r == Got(Sevens(data[..n + 1]), n + 1)
      else if n < 4 || (lang.Rust? && |data| == 4) then r == Bad(Truncated)
      else r == Bad(Overflow)
  {
    ReadFromSpelled(lang, 0, data);
  }
}
