/** Unsigned LEB128 (section 7.6 of DWARF 5) cut to four bytes, as both codecs
    write it for counts and lengths. */
module Varint {
  import opened Wire

  const MAX_BYTES: nat := 4

  /** At most k groups of v, low group first; the top bit says more follow. */
  function Groups(k: nat, v: nat): (s: bytes)
    ensures |s| <= k
    ensures k > 0 ==> |s| > 0
    decreases k, v
  {
    if k == 0 then [] else if v > 0x7F then [v % 128 + 128] + Groups(k - 1, v / 128) else [v]
  }

  function Encode(v: nat): (s: bytes)
    ensures 1 <= |s| <= 4
  {
    Groups(MAX_BYTES, v)
  }

  /** Decoding after i bytes have been read already. The Rust loop looks for a
      further byte before it gives up on a fifth one. */
  function DecodeFrom(lang: Lang, i: nat, data: bytes): (r: Parsed<nat>)
    requires i <= 4
    ensures r.Got? ==> i < r.n <= i + |data| && r.n <= 4
    decreases 4 - i, |data|
  {
    if i == 4 then Bad(if lang.Rust? && data == [] then Truncated else Overflow)
    else if data == [] then Bad(Truncated)
    else if data[0] < 128 then Got(data[0], i + 1)
    else
      var r :- DecodeFrom(lang, i + 1, data[1..]);
      Got(data[0] - 128 + 128 * r.v, r.n)
  }

  /** The value and the number of bytes it took. */
  function Decode(lang: Lang, data: bytes): (r: Parsed<nat>)
    ensures r.Got? ==> 1 <= r.n <= |data| && r.n <= 4
  {
    DecodeFrom(lang, 0, data)
  }

  function GroupBound(k: nat): (b: nat)
    ensures b > 0
  {
    if k == 0 then 1 else 128 * GroupBound(k - 1)
  }

  lemma {:induction false} GroupBoundFour()
    ensures GroupBound(4) == LIMIT
  {
  }

  lemma {:induction false} DecodeGroups(lang: Lang, i: nat, v: nat, rest: bytes)
    requires i < 4 && v < GroupBound(4 - i)
    ensures DecodeFrom(lang, i, Groups(4 - i, v) + rest) == Got(v, i + |Groups(4 - i, v)|)
    decreases 4 - i
  {
    var s := Groups(4 - i, v) + rest;
    if v > 0x7F {
      assert GroupBound(4 - i) == 128 * GroupBound(4 - i - 1);
      DecodeGroups(lang, i + 1, v / 128, rest);
      assert s[1..] == Groups(4 - (i + 1), v / 128) + rest;
    }
  }

  /** Every value below 2^28 survives, whatever bytes follow it. */
  lemma {:induction false} RoundTrip(lang: Lang, v: nat, rest: bytes)
    requires v < LIMIT
    ensures Decode(lang, Encode(v) + rest) == Got(v, |Encode(v)|)
  {
    GroupBoundFour();
    DecodeGroups(lang, 0, v, rest);
  }

  lemma {:induction false} DecodeFromBounds(lang: Lang, i: nat, data: bytes)
    requires i <= 4 && DecodeFrom(lang, i, data).Got?
    ensures DecodeFrom(lang, i, data).v < GroupBound(4 - i)
    ensures |Groups(4 - i, DecodeFrom(lang, i, data).v)| <= DecodeFrom(lang, i, data).n - i
    decreases 4 - i
  {
    if i < 4 && data[0] >= 128 {
      DecodeFromBounds(lang, i + 1, data[1..]);
    }
    if i < 4 {
      assert GroupBound(4 - i) == 128 * GroupBound(4 - i - 1);
    }
  }

  /** A decoded value is below 2^28, and its own encoding is the shortest. */
  lemma {:induction false} DecodedIsMinimal(lang: Lang, data: bytes)
    requires Decode(lang, data).Got?
    ensures Decode(lang, data).v < LIMIT
    ensures |Encode(Decode(lang, data).v)| <= Decode(lang, data).n
  {
    GroupBoundFour();
    DecodeFromBounds(lang, 0, data);
  }

  lemma {:induction false} GroupsSettle(k: nat, v: nat)
    requires v < GroupBound(k)
    ensures k > 0 ==> Groups(k + 1, v) == Groups(k, v)
    decreases k
  {
    if k > 1 && v > 0x7F {
      assert GroupBound(k) == 128 * GroupBound(k - 1);
      GroupsSettle(k - 1, v / 128);
    } else if k == 1 {
      assert GroupBound(1) == 128 * GroupBound(0);
    }
  }

  /** Too many groups for the bytes that are left. */
  lemma {:induction false} GroupsOverflow(lang: Lang, k: nat, v: nat, rest: bytes)
    requires k <= 4 && v >= GroupBound(k)
    ensures DecodeFrom(lang, 4 - k, Groups(k + 1, v) + rest).Bad?
    decreases k
  {
    if k > 0 {
      assert GroupBound(k) == 128 * GroupBound(k - 1);
      AtLeastOne(k - 1);
      assert v / 128 >= GroupBound(k - 1);
      GroupsOverflow(lang, k - 1, v / 128, rest);
      assert (Groups(k + 1, v) + rest)[1..] == Groups(k, v / 128) + rest;
    }
  }

  lemma {:induction false} AtLeastOne(k: nat)
    ensures GroupBound(k) >= 1
  {
  }

  /** A stray byte with its top bit set, in front of a varint, becomes its low
      group. */
  lemma {:induction false} StrayGroup(lang: Lang, t: byte, v: nat, rest: bytes)
    requires t >= 128
    ensures var r := Decode(lang, [t] + (Encode(v) + rest));
      r.Got? ==> r.v == t - 128 + 128 * v && r.n == 1 + |Encode(v)|
  {
    assert ([t] + (Encode(v) + rest))[1..] == Encode(v) + rest;
    if v < GroupBound(3) {
      GroupsSettle(3, v);
      DecodeGroups(lang, 1, v, rest);
    } else {
      GroupsOverflow(lang, 3, v, rest);
    }
  }

  lemma {:induction false} GroupsMonotone(k: nat, v: nat, w: nat)
    requires v <= w
    ensures |Groups(k, v)| <= |Groups(k, w)|
  {
    if k > 0 && w > 0x7F {
      GroupsMonotone(k - 1, v / 128, w / 128);
    }
  }

  /** The two readers agree on every byte string, up to which error they give. */
  lemma {:induction false} LangsAgreeFrom(i: nat, data: bytes)
    requires i <= 4
    ensures DecodeFrom(Python, i, data).Got? || DecodeFrom(Rust, i, data).Got?
        ==> DecodeFrom(Python, i, data) == DecodeFrom(Rust, i, data)
    decreases 4 - i
  {
    if i < 4 && data != [] && data[0] >= 128 {
      LangsAgreeFrom(i + 1, data[1..]);
    }
  }

  lemma {:induction false} LangsAgree(data: bytes)
    ensures Decode(Python, data).Got? || Decode(Rust, data).Got?
        ==> Decode(Python, data) == Decode(Rust, data)
  {
    LangsAgreeFrom(0, data);
  }

  // --- the loops of the two implementations ---

  lemma {:induction false} GroupsSplit(out: bytes, k: nat, v: nat)
    requires k > 0
    ensures v > 0x7F ==> out + Groups(k, v) == out + [v % 128 + 128] + Groups(k - 1, v / 128)
    ensures v <= 0x7F ==> out + Groups(k, v) == out + [v]
  {
    if v > 0x7F { Assoc(out, [v % 128 + 128], Groups(k - 1, v / 128)); }
  }

  /** `encode_varint` in Python. */
  method PyEncode(value: int) returns (r: Result<bytes, Fault>)
    ensures value < 0 ==> r == Err(OutOfRange)
    ensures value >= 0 ==> r == Ok(Encode(value))
  {
    if value < 0 {
      return Err(OutOfRange);
    }
    var out: bytes := [];
    var v: nat := value;
    for i := 0 to 4
      invariant out + Groups(4 - i, v) == Encode(value)
    {
      var more := v > 0x7F;
      var group: byte := v % 128 + if more then 128 else 0;
      GroupsSplit(out, 4 - i, v);
      out := out + [group];
      if !more {
        return Ok(out);
      }
      v := v / 128;
    }
    assert out + [] == out;
    return Ok(out);
  }

  /** `encode_varint` in Rust: the groups are gathered in a 4-byte buffer. */
  method RustEncode(value: nat, out: bytes) returns (out': bytes)
    requires value < U32
    ensures out' == out + Encode(value)
  {
    var buf := new byte[4](_ => 0);
    var len := 0;
    var v := value;
    ghost var done: bytes, k: nat := [], 4;
    assert [] + Groups(4, value) == Encode(value);
    while true
      invariant 0 <= len < 4 && k == 4 - len && buf[..len] == done && done + Groups(k, v) == Encode(value)
      decreases k
    {
      var more := v > 0x7F;
      var group: byte := v % 128 + if more then 128 else 0;
      GroupsSplit(done, k, v);
      buf[len] := group;
      len := len + 1;
      assert buf[..len] == done + [group];
      done, k := done + [group], k - 1;
      if !more {
        assert group == v && done == Encode(value);
        break;
      }
      v := v / 128;
      if len == 4 {
        assert done + Groups(k, v) == done;
        break;
      }
    }
    assert done == Encode(value);
    out' := out + buf[..len];
  }

  /** w shifted left by i groups of seven bits. */
  function Shl7(i: nat, w: nat): nat { if i == 0 then w else 128 * Shl7(i - 1, w) }

  lemma {:induction false} Shl7Splits(i: nat, a: nat, w: nat)
    ensures Shl7(i, a + 128 * w) == Shl7(i, a) + Shl7(i + 1, w)
  {
    if i > 0 { Shl7Splits(i - 1, a, w); }
  }

  /** The value of the first i groups, put in front of what the rest gives. */
  function Prefixed(v: nat, i: nat, r: Parsed<nat>): Parsed<nat> {
    if r.Got? then Got(v + Shl7(i, r.v), r.n) else r
  }

  lemma {:induction false} PrefixStep(lang: Lang, i: nat, data: bytes, v: nat)
    requires i < 4 && data != [] && data[0] >= 128
    ensures Prefixed(v, i, DecodeFrom(lang, i, data))
         == Prefixed(v + Shl7(i, data[0] - 128), i + 1, DecodeFrom(lang, i + 1, data[1..]))
  {
    var r := DecodeFrom(lang, i + 1, data[1..]);
    if r.Got? {
      Shl7Splits(i, data[0] - 128, r.v);
    }
  }

  /** `decode_varint` in Python, reading at an absolute position. */
  method PyDecode(data: bytes, pos: nat) returns (r: Parsed<nat>)
    ensures pos > |data| ==> r == Bad(Truncated)
    ensures pos <= |data| ==> r == At(pos, Decode(Python, data[pos..]))
  {
    var value: nat := 0;
    for i := 0 to 4
      invariant pos + i <= |data| || (pos > |data| && i == 0)
      invariant pos <= |data| ==>
        Decode(Python, data[pos..]) == Prefixed(value, i, DecodeFrom(Python, i, data[pos + i..]))
    {
      if pos + i >= |data| {
        return Bad(Truncated);
      }
      var b := data[pos + i];
      assert data[pos + i..][0] == b && data[pos + i..][1..] == data[pos + i + 1..];
      if b < 128 {
        return Got(value + Shl7(i, b), pos + i + 1);
      }
      PrefixStep(Python, i, data[pos + i..], value);
      value := value + Shl7(i, b - 128);
    }
    return Bad(Overflow);
  }

  /** `decode_varint` in Rust: one pass over the slice it is given. */
  method RustDecode(data: bytes) returns (r: Parsed<nat>)
    ensures r == Decode(Rust, data)
  {
    var value: nat := 0;
    assert data[0..] == data;
    for i := 0 to |data|
      invariant i <= 4
      invariant Decode(Rust, data) == Prefixed(value, i, DecodeFrom(Rust, i, data[i..]))
    {
      if i >= 4 {
        return Bad(Overflow);
      }
      var b := data[i];
      assert data[i..][0] == b && data[i..][1..] == data[i + 1..];
      if b < 128 {
        return Got(value + Shl7(i, b), i + 1);
      }
      PrefixStep(Rust, i, data[i..], value);
      value := value + Shl7(i, b - 128);
    }
    return Bad(Truncated);
  }
}
