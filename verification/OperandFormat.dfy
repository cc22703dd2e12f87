/** The operand format in plain numbers: the tag bytes, the ranges and the widths
    of every kind of operand, for the writers and for the readers. */
module OperandFormat {
  import opened Wire
  import Varint
  import opened Operands
  import opened OperandLaws

  // --- numbers ---

  /** The tag takes the numbers from lo up to, not including, hi, on w bytes, and
      a negative number goes on the wire as what it is short of hi - lo. */
  predicate Written(lang: Lang, tag: byte, w: nat, lo: int, hi: int, n: int) {
    && (All(Encodable, Fixed(tag, n)) <==> lo <= n < hi)
    && (lo <= n < hi ==>
          var s := Encode(lang, Fixed(tag, n));
          |s| == 1 + w && s[0] == tag && FromBE(s[1..]) == if n < 0 then n + (hi - lo) else n)
  }

  /** The same from the side of the reader, for the bytes after the tag. */
  predicate Read(lang: Lang, tag: byte, w: nat, lo: int, hi: int, data: bytes) {
    var r := Parse(lang, [tag] + data);
    if |data| < w then r == Bad(Truncated)
    else
      && r.Got? && r.v.Fixed? && r.v.tag == tag && r.n == 1 + w && lo <= r.v.n < hi
      && FromBE(data[..w]) == if r.v.n < 0 then r.v.n + (hi - lo) else r.v.n
  }

  lemma {:induction false} NumberWritten(lang: Lang, tag: byte, l: Layout, n: int)
    requires FixedLayout(tag) == Some(l)
    ensures var p := Pow256(l.width);
      Written(lang, tag, l.width, if l.signed then -(p / 2) else 0, if l.signed then p - p / 2 else p, n)
  {
    var p := Pow256(l.width);
    assert l.width > 0 && p == 256 * Pow256(l.width - 1);
    if Fits(l, n) {
      var v := if l.signed then ToTwos(l.width, n) else n;
      FromToBE(l.width, v);
      assert Encode(lang, Fixed(tag, n)) == [tag] + ToBE(l.width, v);
    }
  }

  lemma {:induction false} NumberRead(lang: Lang, tag: byte, l: Layout, data: bytes)
    requires FixedLayout(tag) == Some(l)
    ensures var p := Pow256(l.width);
      Read(lang, tag, l.width, if l.signed then -(p / 2) else 0, if l.signed then p - p / 2 else p, data)
  {
    assert l.width > 0 && Pow256(l.width) == 256 * Pow256(l.width - 1);
    ParseFromBody(lang, tag, data);
    assert ParseBody(lang, tag, data) == ParseFixed(l, tag, data);
  }

  /** The signed numbers on the wire: I8, I16, I32, I64 and the timestamp. */
  lemma {:induction false} SignedWritten(lang: Lang, n: int)
    ensures Written(lang, 0x01, 1, -0x80, 0x80, n)
    ensures Written(lang, 0x02, 2, -0x8000, 0x8000, n)
    ensures Written(lang, 0x03, 4, -0x8000_0000, 0x8000_0000, n)
    ensures Written(lang, 0x04, 8, -0x8000_0000_0000_0000, 0x8000_0000_0000_0000, n)
    ensures Written(lang, 0x1A, 8, -0x8000_0000_0000_0000, 0x8000_0000_0000_0000, n)
  {
    Pow256Values();
    NumberWritten(lang, 0x01, Layout(1, true), n);
    NumberWritten(lang, 0x02, Layout(2, true), n);
    NumberWritten(lang, 0x03, Layout(4, true), n);
    NumberWritten(lang, 0x04, Layout(8, true), n);
    NumberWritten(lang, 0x1A, Layout(8, true), n);
  }

  /** The unsigned numbers and bit patterns on the wire: U8, U16, U32, U64, the two
      floats, the handle, the reference and the duration. */
  lemma {:induction false} UnsignedWritten(lang: Lang, n: int)
    ensures Written(lang, 0x05, 1, 0, 0x100, n)
    ensures Written(lang, 0x06, 2, 0, 0x1_0000, n)
    ensures Written(lang, 0x07, 4, 0, 0x1_0000_0000, n)
    ensures Written(lang, 0x08, 8, 0, 0x1_0000_0000_0000_0000, n)
    ensures Written(lang, 0x09, 4, 0, 0x1_0000_0000, n)
    ensures Written(lang, 0x0A, 8, 0, 0x1_0000_0000_0000_0000, n)
    ensures Written(lang, 0x14, 8, 0, 0x1_0000_0000_0000_0000, n)
    ensures Written(lang, 0x15, 2, 0, 0x1_0000, n)
    ensures Written(lang, 0x1B, 4, 0, 0x1_0000_0000, n)
  {
    Pow256Values();
    NumberWritten(lang, 0x05, Layout(1, false), n);
    NumberWritten(lang, 0x06, Layout(2, false), n);
    NumberWritten(lang, 0x07, Layout(4, false), n);
    NumberWritten(lang, 0x08, Layout(8, false), n);
    NumberWritten(lang, 0x09, Layout(4, false), n);
    NumberWritten(lang, 0x0A, Layout(8, false), n);
    NumberWritten(lang, 0x14, Layout(8, false), n);
    NumberWritten(lang, 0x15, Layout(2, false), n);
    NumberWritten(lang, 0x1B, Layout(4, false), n);
  }

  /** No other tag carries a number. */
  lemma {:induction false} OnlyNumbersWritten(tag: byte, n: int)
    requires All(Encodable, Fixed(tag, n))
    ensures 1 <= tag <= 0x0A || tag == 0x14 || tag == 0x15 || tag == 0x1A || tag == 0x1B
  {
  }

  /** The signed numbers as they are read, from any bytes. */
  lemma {:induction false} SignedRead(lang: Lang, data: bytes)
    ensures Read(lang, 0x01, 1, -0x80, 0x80, data)
    ensures Read(lang, 0x02, 2, -0x8000, 0x8000, data)
    ensures Read(lang, 0x03, 4, -0x8000_0000, 0x8000_0000, data)
    ensures Read(lang, 0x04, 8, -0x8000_0000_0000_0000, 0x8000_0000_0000_0000, data)
    ensures Read(lang, 0x1A, 8, -0x8000_0000_0000_0000, 0x8000_0000_0000_0000, data)
  {
    Pow256Values();
    NumberRead(lang, 0x01, Layout(1, true), data);
    NumberRead(lang, 0x02, Layout(2, true), data);
    NumberRead(lang, 0x03, Layout(4, true), data);
    NumberRead(lang, 0x04, Layout(8, true), data);
    NumberRead(lang, 0x1A, Layout(8, true), data);
  }

  /** The unsigned numbers and bit patterns as they are read, from any bytes. */
  lemma {:induction false} UnsignedRead(lang: Lang, data: bytes)
    ensures Read(lang, 0x05, 1, 0, 0x100, data)
    ensures Read(lang, 0x06, 2, 0, 0x1_0000, data)
    ensures Read(lang, 0x07, 4, 0, 0x1_0000_0000, data)
    ensures Read(lang, 0x08, 8, 0, 0x1_0000_0000_0000_0000, data)
    ensures Read(lang, 0x09, 4, 0, 0x1_0000_0000, data)
    ensures Read(lang, 0x0A, 8, 0, 0x1_0000_0000_0000_0000, data)
    ensures Read(lang, 0x14, 8, 0, 0x1_0000_0000_0000_0000, data)
    ensures Read(lang, 0x15, 2, 0, 0x1_0000, data)
    ensures Read(lang, 0x1B, 4, 0, 0x1_0000_0000, data)
  {
    Pow256Values();
    NumberRead(lang, 0x05, Layout(1, false), data);
    NumberRead(lang, 0x06, Layout(2, false), data);
    NumberRead(lang, 0x07, Layout(4, false), data);
    NumberRead(lang, 0x08, Layout(8, false), data);
    NumberRead(lang, 0x09, Layout(4, false), data);
    NumberRead(lang, 0x0A, Layout(8, false), data);
    NumberRead(lang, 0x14, Layout(8, false), data);
    NumberRead(lang, 0x15, Layout(2, false), data);
    NumberRead(lang, 0x1B, Layout(4, false), data);
  }

  // --- everything else ---

  function Concat(parts: seq<bytes>): bytes {
    if parts == [] then [] else parts[0] + Concat(parts[1..])
  }

  /** The encodings of some operands, one by one. */
  function Pieces(lang: Lang, ops: seq<Operand>): (r: seq<bytes>)
    ensures |r| == |ops|
  {
    seq(|ops|, i requires 0 <= i < |ops| => Encode(lang, ops[i]))
  }

  /** Those of map entries: the length of the key, the key, the value. */
  function EntryPieces(lang: Lang, entries: seq<Entry>): (r: seq<bytes>)
    ensures |r| == |entries|
  {
    seq(|entries|, i requires 0 <= i < |entries| =>
      Varint.Encode(|entries[i].key|) + entries[i].key + Encode(lang, entries[i].value))
  }

  lemma {:induction false} PiecesWritten(lang: Lang, ops: seq<Operand>)
    ensures EncodeAll(lang, ops) == Concat(Pieces(lang, ops))
  {
    if ops != [] {
      assert Pieces(lang, ops)[1..] == Pieces(lang, ops[1..]);
      PiecesWritten(lang, ops[1..]);
    }
  }

  lemma {:induction false} EntryPiecesWritten(lang: Lang, entries: seq<Entry>)
    requires forall i :: 0 <= i < |entries| ==> |entries[i].key| < U32
    ensures EncodeEntries(lang, entries) == Concat(EntryPieces(lang, entries))
  {
    if entries != [] {
      var e := entries[0];
      assert EntryPieces(lang, entries)[1..] == EntryPieces(lang, entries[1..]);
      EntryPiecesWritten(lang, entries[1..]);
      EntryWritten(lang, e);
    }
  }

  lemma {:induction false} EntryWritten(lang: Lang, e: Entry)
    requires |e.key| < U32
    ensures EncodeEntry(lang, e) == Varint.Encode(|e.key|) + e.key + Encode(lang, e.value)
  {
  }

  /** Operands of a fixed form on the wire. */
  lemma {:induction false} PlainWritten(lang: Lang, b: bool, id: bytes)
    ensures All(Encodable, Bool(b)) && Encode(lang, Bool(b)) == [0x10, if b then 1 else 0]
    ensures All(Encodable, Uuid(id)) <==> |id| == 16
    ensures Encode(lang, Uuid(id)) == [0x13] + id
    ensures All(Encodable, Null) && Encode(lang, Null) == [0x19]
  {
  }

  /** Strings on the wire: their length, a varint, and their bytes. The Rust encoder
      repeats the tag of a vendor operand after the length. */
  lemma {:induction false} StringsWritten(lang: Lang, raw: bytes, tag: byte)
    requires |raw| < U32
    ensures All(Encodable, Str(raw)) <==> ValidUtf8(raw)
    ensures Encode(lang, Str(raw)) == [0x11] + (Varint.Encode(|raw|) + raw)
    ensures All(Encodable, Bytes(raw)) && Encode(lang, Bytes(raw)) == [0x12] + (Varint.Encode(|raw|) + raw)
    ensures All(Encodable, Vendor(tag, raw)) <==> tag >= 0x80
    ensures Encode(lang, Vendor(tag, raw))
         == [tag] + (Varint.Encode(|raw|) + (if lang.Rust? then [tag] else []) + raw)
  {
    var p := Varint.Encode(|raw|);
    assert Prefix(lang, |raw|) == p && p + [] + raw == p + raw;
  }

  lemma {:induction false} ListEncodable(items: seq<Operand>)
    ensures All(Encodable, List(items)) <==> forall i :: 0 <= i < |items| ==> All(Encodable, items[i])
  {
  }

  lemma {:induction false} ListBytes(lang: Lang, items: seq<Operand>)
    requires |items| < U32
    ensures Encode(lang, List(items)) == [0x17] + (Varint.Encode(|items|) + EncodeAll(lang, items))
  {
  }

  /** A list on the wire: the count, and the items one after the other. */
  lemma {:induction false} ListWritten(lang: Lang, items: seq<Operand>)
    requires |items| < U32
    ensures All(Encodable, List(items)) <==> forall i :: 0 <= i < |items| ==> All(Encodable, items[i])
    ensures Encode(lang, List(items)) == [0x17] + (Varint.Encode(|items|) + Concat(Pieces(lang, items)))
  {
    ListEncodable(items);
    ListBytes(lang, items);
    PiecesWritten(lang, items);
  }

  lemma {:induction false} MapEncodable(entries: seq<Entry>)
    ensures All(Encodable, Map(entries)) <==>
            forall i :: 0 <= i < |entries| ==> ValidUtf8(entries[i].key) && All(Encodable, entries[i].value)
  {
  }

  lemma {:induction false} MapBytes(lang: Lang, entries: seq<Entry>)
    requires |entries| < U32
    ensures Encode(lang, Map(entries)) == [0x18] + (Varint.Encode(|entries|) + EncodeEntries(lang, entries))
  {
  }

  /** A map on the wire: the count, and the entries one after the other. */
  lemma {:induction false} MapWritten(lang: Lang, entries: seq<Entry>)
    requires |entries| < U32 && forall i :: 0 <= i < |entries| ==> |entries[i].key| < U32
    ensures All(Encodable, Map(entries)) <==>
            forall i :: 0 <= i < |entries| ==> ValidUtf8(entries[i].key) && All(Encodable, entries[i].value)
    ensures Encode(lang, Map(entries)) == [0x18] + (Varint.Encode(|entries|) + Concat(EntryPieces(lang, entries)))
  {
    MapEncodable(entries);
    MapBytes(lang, entries);
    EntryPiecesWritten(lang, entries);
  }

  /** A buffer reference on the wire: id, offset and length on 8, 4 and 4 bytes. */
  lemma {:induction false} BufRefWritten(lang: Lang, buf: nat, offset: nat, length: nat)
    ensures var op := BufRef(buf, offset, length); var s, ok := Encode(lang, op), All(Encodable, op);
      && (ok <==> buf < 0x1_0000_0000_0000_0000 && offset < 0x1_0000_0000 && length < 0x1_0000_0000)
      && (ok ==> |s| == 17 && s[0] == 0x16
                 && FromBE(s[1..9]) == buf && FromBE(s[9..13]) == offset && FromBE(s[13..17]) == length)
  {
    Pow256Values();
    var op := BufRef(buf, offset, length);
    if All(Encodable, op) {
      BufRefRoundTrip(buf, offset, length, []);
      var b, s := Body(lang, op), Encode(lang, op);
      assert b + [] == b == Body(Python, op);
      assert s[1..9] == b[..8] && s[9..13] == b[8..12] && s[13..17] == b[12..16];
    }
  }

  lemma {:induction false} ScalarBody(lang: Lang, tag: byte, data: bytes)
    requires tag == 0x10 || tag == 0x11 || tag == 0x12 || tag == 0x13 || tag == 0x16 || tag == 0x19
    ensures ParseBody(lang, tag, data) == ParseScalar(lang, tag, data)
  {
  }

  /** Operands of a fixed form as they are read, from any bytes after the tag. */
  lemma {:induction false} PlainRead(lang: Lang, tag: byte, data: bytes)
    requires tag == 0x10 || tag == 0x13 || tag == 0x16 || tag == 0x19
    ensures var r := Parse(lang, [tag] + data);
      if tag == 0x10 then
        r == if data == [] then Bad(Truncated) else if data[0] > 1 then Bad(BadBool) else Got(Bool(data[0] == 1), 2)
      else if tag == 0x13 then
        r == if |data| < 16 then Bad(Truncated) else Got(Uuid(data[..16]), 17)
      else if tag == 0x16 then
        r == if |data| < 16 then Bad(Truncated)
             else Got(BufRef(FromBE(data[..8]), FromBE(data[8..12]), FromBE(data[12..16])), 17)
      else
        r == Got(Null, 1)
  {
    ScalarBody(lang, tag, data);
    ParseFromBody(lang, tag, data);
  }

  lemma {:induction false} BlobBody(lang: Lang, data: bytes)
    ensures var r, p := ParseBlob(lang, data), Varint.Decode(lang, data);
      r == if p.Bad? then Bad(p.fault)
           else if |data| < p.n + p.v then Bad(Truncated)
           else Got(data[p.n..p.n + p.v], p.n + p.v)
  {
  }

  lemma {:induction false} StringFrom(lang: Lang, tag: byte, data: bytes)
    requires tag == 0x11 || tag == 0x12 || tag >= 0x80
    ensures var r, b := Parse(lang, [tag] + data), ParseBlob(lang, data);
      r == if b.Bad? then Bad(b.fault)
           else if tag == 0x12 then Got(Bytes(b.v), 1 + b.n)
           else if tag >= 0x80 then Got(Vendor(tag, b.v), 1 + b.n)
           else if ValidUtf8(b.v) then Got(Str(b.v), 1 + b.n)
           else Bad(BadUtf8)
  {
    ParseFromBody(lang, tag, data);
    if tag >= 0x80 { BodyOfVendor(lang, tag, data); } else { ScalarBody(lang, tag, data); }
  }

  /** Strings as they are read: the length in front says where they end. */
  lemma {:induction false} StringsRead(lang: Lang, tag: byte, data: bytes)
    requires tag == 0x11 || tag == 0x12 || tag >= 0x80
    ensures var r, p := Parse(lang, [tag] + data), Varint.Decode(lang, data);
      if p.Bad? then r == Bad(p.fault)
      else if |data| < p.n + p.v then r == Bad(Truncated)
      else
        var raw, n := data[p.n..p.n + p.v], 1 + p.n + p.v;
        if tag == 0x12 then r == Got(Bytes(raw), n)
        else if tag >= 0x80 then r == Got(Vendor(tag, raw), n)
        else r == if ValidUtf8(raw) then Got(Str(raw), n) else Bad(BadUtf8)
  {
    BlobBody(lang, data);
    StringFrom(lang, tag, data);
  }

  /** The tags that nothing is assigned to: an error for Python, Null for Rust. */
  lemma {:induction false} UnassignedRead(lang: Lang, tag: byte, data: bytes)
    requires tag == 0 || 0x0B <= tag <= 0x0F || 0x1C <= tag <= 0x7F
    ensures Parse(lang, [tag] + data) == if lang.Rust? then Got(Null, 1) else Bad(UnknownTag)
  {
    ParseFromBody(lang, tag, data);
  }
}
