/** Bytes, big-endian integers, UTF-8 validity and the result types shared by
    every part of the model. */
module Wire {

  type byte = x: int | 0 <= x < 256
  type bytes = seq<byte>

  datatype Option<+T> = None | Some(value: T)

  datatype Result<+T, +E> = Ok(value: T) | Err(error: E) {
    predicate IsFailure() { Err? }

    function PropagateFailure<U>(): Result<U, E>
      requires Err?
    {
      Err(error)
    }

    function Extract(): T
      requires Ok?
    {
      value
    }
  }

  const U16: int := 0x1_0000
  const U32: int := 0x1_0000_0000
  const U64: int := 0x1_0000_0000_0000_0000

  /** Which of the two implementations is reading or writing. */
  datatype Lang = Python | Rust

  /** Why a varint or an operand cannot be read or written. */
  datatype Fault = Truncated | Overflow | BadBool | BadUtf8 | UnknownTag | OutOfRange

  /** What a reader found at the start of a slice, and how many bytes it took. */
  datatype Parsed<+T> = Got(v: T, n: nat) | Bad(fault: Fault) {
    predicate IsFailure() { Bad? }

    function PropagateFailure<U>(): Parsed<U>
      requires Bad?
    {
      Bad(fault)
    }

    function Extract(): (r: Parsed<T>)
      requires Got?
    {
      this
    }
  }

  /** The same, as an absolute position. */
  function At<T>(pos: nat, r: Parsed<T>): Parsed<T> {
    if r.Got? then Got(r.v, pos + r.n) else r
  }

  /** Four groups of seven bits hold every value below this one. */
  const LIMIT: nat := 0x1000_0000

  /** 256^n: the number of values that n bytes can hold. */
  function Pow256(n: nat): (p: nat)
    ensures p > 0
  {
    if n == 0 then 1 else 256 * Pow256(n - 1)
  }

  lemma {:induction false} Pow256Values()
    ensures Pow256(1) == 0x100 && Pow256(2) == U16 && Pow256(4) == U32 && Pow256(8) == U64
  {
    assert Pow256(2) == 256 * Pow256(1);
    assert Pow256(3) == 256 * Pow256(2);
    assert Pow256(4) == 256 * Pow256(3);
    assert Pow256(5) == 256 * Pow256(4);
    assert Pow256(6) == 256 * Pow256(5);
    assert Pow256(7) == 256 * Pow256(6);
    assert Pow256(8) == 256 * Pow256(7);
  }

  /** The w-byte big-endian form of v. */
  function ToBE(w: nat, v: nat): (s: bytes)
    requires v < Pow256(w)
    ensures |s| == w
  {
    if w == 0 then [] else ToBE(w - 1, v / 256) + [v % 256]
  }

  function FromBE(s: bytes): (v: nat)
    ensures v < Pow256(|s|)
  {
    if s == [] then 0 else FromBE(s[..|s| - 1]) * 256 + s[|s| - 1]
  }

  lemma {:induction false} FromToBE(w: nat, v: nat)
    requires v < Pow256(w)
    ensures FromBE(ToBE(w, v)) == v
  {
    if w > 0 {
      var s := ToBE(w, v);
      assert s[..w - 1] == ToBE(w - 1, v / 256);
      FromToBE(w - 1, v / 256);
    }
  }

  lemma {:induction false} ToFromBE(s: bytes)
    ensures ToBE(|s|, FromBE(s)) == s
  {
    if s != [] {
      var t := s[..|s| - 1];
      assert FromBE(s) / 256 == FromBE(t) && FromBE(s) % 256 == s[|s| - 1];
      ToFromBE(t);
      assert s == t + [s[|s| - 1]];
    }
  }

  predicate InRange(w: nat, n: int) { 0 <= n < Pow256(w) }

  /** An unsigned number on w bytes, or nothing if it does not fit. */
  function Pack(w: nat, n: int): (s: bytes)
    ensures InRange(w, n) ==> |s| == w && FromBE(s) == n
  {
    if !InRange(w, n) then [] else FromToBE(w, n); ToBE(w, n)
  }

  /** Big-endian two's complement on w bytes. */
  predicate FitsSigned(w: nat, n: int) { 0 <= 2 * n + Pow256(w) < 2 * Pow256(w) }

  function ToTwos(w: nat, n: int): (v: nat)
    requires FitsSigned(w, n)
    ensures v < Pow256(w)
  {
    if n < 0 then n + Pow256(w) else n
  }

  function FromTwos(w: nat, v: nat): (n: int)
    requires v < Pow256(w)
    ensures FitsSigned(w, n)
    ensures ToTwos(w, n) == v
  {
    if 2 * v >= Pow256(w) then v - Pow256(w) else v
  }

  predicate Continuation(b: byte) { 0x80 <= b < 0xC0 }

  /** The number of bytes of the UTF-8 character that starts s, or 0 if none
      does (sections 3 and 4 of RFC 3629). */
  function Utf8Width(s: bytes): (w: nat)
    requires s != []
    ensures w <= |s|
  {
    var b := s[0];
    if b < 0x80 then 1
    else if 0xC2 <= b < 0xE0 && |s| >= 2 && Continuation(s[1]) then 2
    else if 0xE0 <= b < 0xF0 && |s| >= 3 && Continuation(s[1]) && Continuation(s[2])
            && (b == 0xE0 ==> s[1] >= 0xA0) && (b == 0xED ==> s[1] < 0xA0) then 3
    else if 0xF0 <= b < 0xF5 && |s| >= 4 && Continuation(s[1]) && Continuation(s[2]) && Continuation(s[3])
            && (b == 0xF0 ==> s[1] >= 0x90) && (b == 0xF4 ==> s[1] < 0x90) then 4
    else 0
  }

  /** What both `bytes.decode("utf-8")` and `core::str::from_utf8` accept. */
  predicate ValidUtf8(s: bytes) {
    s == [] || (Utf8Width(s) > 0 && ValidUtf8(s[Utf8Width(s)..]))
  }

  lemma {:induction false} FirstAndRest<T>(s: seq<T>)
    requires s != []
    ensures s == [s[0]] + s[1..]
  {
  }

  lemma {:induction false} FrontAndLast<T>(s: seq<T>)
    requires s != []
    ensures s == s[..|s| - 1] + [s[|s| - 1]]
  {
  }

  lemma {:induction false} OneMore<T>(s: seq<T>, i: nat)
    requires i < |s|
    ensures s[..i + 1] == s[..i] + [s[i]]
  {
  }

  lemma {:induction false} Assoc(a: bytes, b: bytes, c: bytes)
    ensures a + b + c == a + (b + c)
  {
  }
}
