/** Reading looks at no byte beyond those it takes, so that a list is read exactly
    when its bytes can be cut into pieces that each read as one item. */
module OperandPieces {
  import opened Wire
  import Varint
  import Numerals
  import opened Operands
  import opened OperandLaws
  import opened ReadingLoops
  import opened OperandFormat

  // --- reading is local ---

  /** The bytes taken, with anything after them. */
  function Recut(data: bytes, n: nat, rest: bytes): bytes
    requires n <= |data|
  {
    data[..n] + rest
  }

  lemma {:induction false} ContinuedLocal(data: bytes, rest: bytes)
    requires Numerals.Continued(data) < |data|
    ensures Numerals.Continued(Recut(data, Numerals.Continued(data) + 1, rest)) == Numerals.Continued(data)
    decreases |data|
  {
    var n := Numerals.Continued(data);
    var s := Recut(data, n + 1, rest);
    if n > 0 {
      ContinuedLocal(data[1..], rest);
      assert s[1..] == Recut(data[1..], n, rest);
    }
  }

  lemma {:induction false} VarintLocal(lang: Lang, data: bytes, m: nat, rest: bytes)
    requires Varint.Decode(lang, data).Got? && Varint.Decode(lang, data).n <= m <= |data|
    ensures Varint.Decode(lang, Recut(data, m, rest)) == Varint.Decode(lang, data)
  {
    var n := Numerals.Continued(data);
    Numerals.VarintRead(lang, data);
    var tail := data[n + 1..m] + rest;
    var s := Recut(data, m, rest);
    assert s == Recut(data, n + 1, tail);
    ContinuedLocal(data, tail);
    Numerals.VarintRead(lang, s);
    assert s[..n + 1] == data[..n + 1];
  }

  lemma {:induction false} BlobLocal(lang: Lang, data: bytes, m: nat, rest: bytes)
    requires ParseBlob(lang, data).Got? && ParseBlob(lang, data).n <= m <= |data|
    ensures ParseBlob(lang, Recut(data, m, rest)) == ParseBlob(lang, data)
  {
    var p := Varint.Decode(lang, data);
    VarintLocal(lang, data, m, rest);
    RecutSlice(data, m, rest, p.n, p.n + p.v);
  }

  lemma {:induction false} RecutSlice(data: bytes, m: nat, rest: bytes, i: nat, j: nat)
    requires i <= j <= m <= |data|
    ensures Recut(data, m, rest)[i..j] == data[i..j]
  {
  }

  lemma {:induction false} RecutTail(data: bytes, k: nat, m: nat, rest: bytes)
    requires k <= m <= |data|
    ensures Recut(data, m, rest)[k..] == Recut(data[k..], m - k, rest)
  {
  }

  lemma {:induction false} FixedLocal(l: Layout, tag: byte, data: bytes, m: nat, rest: bytes)
    requires ParseFixed(l, tag, data).Got? && l.width <= m <= |data|
    ensures ParseFixed(l, tag, Recut(data, m, rest)) == ParseFixed(l, tag, data)
  {
    assert Recut(data, m, rest)[..l.width] == data[..l.width];
  }

  lemma {:induction false} ScalarLocal(lang: Lang, tag: byte, data: bytes, m: nat, rest: bytes)
    requires ParseScalar(lang, tag, data).Got? && ParseScalar(lang, tag, data).n <= m <= |data|
    ensures ParseScalar(lang, tag, Recut(data, m, rest)) == ParseScalar(lang, tag, data)
  {
    if tag == STR || tag == BYTES {
      BlobLocal(lang, data, m, rest);
    } else if tag == UUID || tag == BUF_REF {
      var s := Recut(data, m, rest);
      assert s[..16] == data[..16] && s[..8] == data[..8] && s[8..12] == data[8..12] && s[12..16] == data[12..16];
    }
  }

  lemma {:induction false} BodyLocal(lang: Lang, tag: byte, data: bytes, m: nat, rest: bytes)
    requires ParseBody(lang, tag, data).Got? && ParseBody(lang, tag, data).n <= m <= |data|
    ensures ParseBody(lang, tag, Recut(data, m, rest)) == ParseBody(lang, tag, data)
    decreases |data|, 2
  {
    match KindOf(tag)
    case Number(l) => FixedLocal(l, tag, data, m, rest);
    case Scalar => ScalarLocal(lang, tag, data, m, rest);
    case Items => ListLocal(lang, data, m, rest);
    case Entries => MapLocal(lang, data, m, rest);
    case Opaque => BlobLocal(lang, data, m, rest);
    case Unassigned =>
  }

  lemma {:induction false} ListLocal(lang: Lang, data: bytes, m: nat, rest: bytes)
    requires ParseList(lang, data).Got? && ParseList(lang, data).n <= m <= |data|
    ensures ParseList(lang, Recut(data, m, rest)) == ParseList(lang, data)
    decreases |data|, 1
  {
    var p := Varint.Decode(lang, data);
    VarintLocal(lang, data, m, rest);
    var q := ItemsTail(lang, p.v, data, p.n, m, rest);
    ListIs(lang, data, p, q);
    ListIs(lang, Recut(data, m, rest), p, q);
  }

  lemma {:induction false} ListIs(lang: Lang, data: bytes, p: Parsed<nat>, q: Parsed<seq<Operand>>)
    requires p == Varint.Decode(lang, data) && p.Got? && q == ParseItems(lang, p.v, data[p.n..]) && q.Got?
    ensures ParseList(lang, data) == Got(List(q.v), p.n + q.n)
  {
  }

  lemma {:induction false} MapLocal(lang: Lang, data: bytes, m: nat, rest: bytes)
    requires ParseMap(lang, data).Got? && ParseMap(lang, data).n <= m <= |data|
    ensures ParseMap(lang, Recut(data, m, rest)) == ParseMap(lang, data)
    decreases |data|, 1
  {
    var p := Varint.Decode(lang, data);
    VarintLocal(lang, data, m, rest);
    var q := EntriesTail(lang, p.v, data, p.n, m, rest);
    MapIs(lang, data, p, q);
    MapIs(lang, Recut(data, m, rest), p, q);
  }

  lemma {:induction false} MapIs(lang: Lang, data: bytes, p: Parsed<nat>, q: Parsed<seq<Entry>>)
    requires p == Varint.Decode(lang, data) && p.Got? && q == ParseEntries(lang, p.v, data[p.n..]) && q.Got?
    ensures ParseMap(lang, data) == Got(Map(Collect(lang, q.v)), p.n + q.n)
  {
  }

  /** What is read stays the same if the bytes that follow it change. */
  lemma {:induction false} ParseLocal(lang: Lang, data: bytes, m: nat, rest: bytes)
    requires Parse(lang, data).Got? && Parse(lang, data).n <= m <= |data|
    ensures Parse(lang, Recut(data, m, rest)) == Parse(lang, data)
    decreases |data|, 3
  {
    var s := Recut(data, m, rest);
    assert s[0] == data[0] && s != [];
    RecutTail(data, 1, m, rest);
    BodyLocal(lang, data[0], data[1..], m - 1, rest);
  }

  lemma {:induction false} ItemsLocal(lang: Lang, count: nat, data: bytes, m: nat, rest: bytes)
    requires ParseItems(lang, count, data).Got? && ParseItems(lang, count, data).n <= m <= |data|
    ensures ParseItems(lang, count, Recut(data, m, rest)) == ParseItems(lang, count, data)
    decreases |data|, 4, count
  {
    if count > 0 {
      var p, s := Parse(lang, data), Recut(data, m, rest);
      var j: nat := count - 1;
      ItemsFirst(lang, count, j, data);
      assert Parse(lang, s) == p by { ParseLocal(lang, data, m, rest); }
      var q := ItemsTail(lang, j, data, p.n, m, rest);
      ItemsAre(lang, count, j, data, p, q);
      ItemsAre(lang, count, j, s, p, q);
    }
  }

  lemma {:induction false} ItemsTail(lang: Lang, j: nat, data: bytes, k: nat, m: nat, rest: bytes) returns (q: Parsed<seq<Operand>>)
    requires 0 < k <= m <= |data| && ParseItems(lang, j, data[k..]).Got? && k + ParseItems(lang, j, data[k..]).n <= m
    ensures q == ParseItems(lang, j, data[k..]) == ParseItems(lang, j, Recut(data, m, rest)[k..])
    decreases |data|, 0, j
  {
    RecutTail(data, k, m, rest);
    ItemsLocal(lang, j, data[k..], m - k, rest);
    q := ParseItems(lang, j, data[k..]);
  }

  lemma {:induction false} ItemsFirst(lang: Lang, count: nat, j: nat, data: bytes)
    requires count == j + 1 && ParseItems(lang, count, data).Got?
    ensures var p := Parse(lang, data);
      && p.Got? && ParseItems(lang, j, data[p.n..]).Got?
      && ParseItems(lang, count, data).n == p.n + ParseItems(lang, j, data[p.n..]).n
  {
    ItemsUnfold(lang, count, data);
  }

  lemma {:induction false} ItemsAre(lang: Lang, count: nat, j: nat, data: bytes, p: Parsed<Operand>, q: Parsed<seq<Operand>>)
    requires count == j + 1 && p.Got? && p == Parse(lang, data) && q == ParseItems(lang, j, data[p.n..])
    ensures ParseItems(lang, count, data) == Front([p.v], p.n, q)
  {
    ItemsUnfold(lang, count, data);
  }

  lemma {:induction false} EntryLocal(lang: Lang, data: bytes, m: nat, rest: bytes)
    requires ParseEntry(lang, data).Got? && ParseEntry(lang, data).n <= m <= |data|
    ensures ParseEntry(lang, Recut(data, m, rest)) == ParseEntry(lang, data)
    decreases |data|, 4
  {
    var k := ParseText(lang, data);
    BlobLocal(lang, data, m, rest);
    RecutTail(data, k.n, m, rest);
    ParseLocal(lang, data[k.n..], m - k.n, rest);
  }

  lemma {:induction false} EntriesLocal(lang: Lang, count: nat, data: bytes, m: nat, rest: bytes)
    requires ParseEntries(lang, count, data).Got? && ParseEntries(lang, count, data).n <= m <= |data|
    ensures ParseEntries(lang, count, Recut(data, m, rest)) == ParseEntries(lang, count, data)
    decreases |data|, 5, count
  {
    if count > 0 {
      var p, s := ParseEntry(lang, data), Recut(data, m, rest);
      var j: nat := count - 1;
      EntriesFirst(lang, count, j, data);
      assert ParseEntry(lang, s) == p by { EntryLocal(lang, data, m, rest); }
      var q := EntriesTail(lang, j, data, p.n, m, rest);
      EntriesAre(lang, count, j, data, p, q);
      EntriesAre(lang, count, j, s, p, q);
    }
  }

  lemma {:induction false} EntriesTail(lang: Lang, j: nat, data: bytes, k: nat, m: nat, rest: bytes) returns (q: Parsed<seq<Entry>>)
    requires 0 < k <= m <= |data| && ParseEntries(lang, j, data[k..]).Got? && k + ParseEntries(lang, j, data[k..]).n <= m
    ensures q == ParseEntries(lang, j, data[k..]) == ParseEntries(lang, j, Recut(data, m, rest)[k..])
    decreases |data|, 0, j
  {
    RecutTail(data, k, m, rest);
    EntriesLocal(lang, j, data[k..], m - k, rest);
    q := ParseEntries(lang, j, data[k..]);
  }

  lemma {:induction false} EntriesFirst(lang: Lang, count: nat, j: nat, data: bytes)
    requires count == j + 1 && ParseEntries(lang, count, data).Got?
    ensures var p := ParseEntry(lang, data);
      && p.Got? && ParseEntries(lang, j, data[p.n..]).Got?
      && ParseEntries(lang, count, data).n == p.n + ParseEntries(lang, j, data[p.n..]).n
  {
    EntriesUnfold(lang, count, data);
  }

  lemma {:induction false} EntriesAre(lang: Lang, count: nat, j: nat, data: bytes, p: Parsed<Entry>, q: Parsed<seq<Entry>>)
    requires count == j + 1 && p.Got? && p == ParseEntry(lang, data) && q == ParseEntries(lang, j, data[p.n..])
    ensures ParseEntries(lang, count, data) == Front([p.v], p.n, q)
  {
    EntriesUnfold(lang, count, data);
  }

  // --- runs of operands ---

  /** Each piece, by itself, reads as one operand and is used up. */
  predicate ItemPieces(lang: Lang, parts: seq<bytes>, ops: seq<Operand>) {
    |parts| == |ops| && forall i :: 0 <= i < |parts| ==> Parse(lang, parts[i]) == Got(ops[i], |parts[i]|)
  }

  lemma {:induction false} TakenAlone(lang: Lang, data: bytes)
    requires Parse(lang, data).Got?
    ensures var r := Parse(lang, data); Parse(lang, data[..r.n]) == r
  {
    var r := Parse(lang, data);
    ParseLocal(lang, data, r.n, []);
    assert Recut(data, r.n, []) == data[..r.n];
  }

  lemma {:induction false} ConcatCut(data: bytes, k: nat, n: nat, parts: seq<bytes>)
    requires k + n <= |data| && Concat(parts) == data[k..][..n]
    ensures Concat([data[..k]] + parts) == data[..k + n]
  {
    assert ([data[..k]] + parts)[1..] == parts;
    assert data[..k + n] == data[..k] + data[k..][..n];
  }

  lemma {:induction false} ItemsCut(lang: Lang, count: nat, data: bytes) returns (parts: seq<bytes>)
    requires ParseItems(lang, count, data).Got?
    ensures var r := ParseItems(lang, count, data);
      |parts| == count && Concat(parts) == data[..r.n] && ItemPieces(lang, parts, r.v)
    decreases count
  {
    if count == 0 {
      parts := [];
      assert data[..0] == [];
    } else {
      var p, j: nat := Parse(lang, data), count - 1;
      ItemsFirst(lang, count, j, data);
      var q := ParseItems(lang, j, data[p.n..]);
      var tail := ItemsCut(lang, j, data[p.n..]);
      ItemsAre(lang, count, j, data, p, q);
      TakenAlone(lang, data);
      ConcatCut(data, p.n, q.n, tail);
      parts := [data[..p.n]] + tail;
    }
  }

  lemma {:induction false} ItemsJoin(lang: Lang, parts: seq<bytes>, ops: seq<Operand>, rest: bytes)
    requires ItemPieces(lang, parts, ops)
    ensures ParseItems(lang, |parts|, Concat(parts) + rest) == Got(ops, |Concat(parts)|)
    decreases |parts|
  {
    if parts != [] {
      ItemsJoin(lang, parts[1..], ops[1..], rest);
      JoinItem(lang, |parts|, parts[0], Concat(parts[1..]), rest, ops[0], ops[1..]);
      assert ops == [ops[0]] + ops[1..];
    }
  }

  lemma {:induction false} ItemAppend(lang: Lang, h: bytes, t: bytes, x: Operand)
    requires Parse(lang, h) == Got(x, |h|)
    ensures h != [] && Parse(lang, h + t) == Got(x, |h|)
  {
    ParseLocal(lang, h, |h|, t);
    assert Recut(h, |h|, t) == h + t;
  }

  lemma {:induction false} JoinItem(lang: Lang, k: nat, h: bytes, u: bytes, rest: bytes, x: Operand, xs: seq<Operand>)
    requires k > 0 && Parse(lang, h) == Got(x, |h|) && ReadsItems(lang, k - 1, u + rest, xs, |u|)
    ensures ReadsItems(lang, k, h + u + rest, [x] + xs, |h| + |u|)
  {
    var t := u + rest;
    ItemAppend(lang, h, t, x);
    assert ReadsItems(lang, k, h + t, [x] + xs, |h| + |u|) by { ParseItemsStep(lang, k, h, t, x, xs, |u|); }
    assert h + u + rest == h + t by { Assoc(h, u, rest); }
  }

  /** A counted run of operands is read if and only if the bytes it takes can be cut
      into as many pieces that each read as one of them. */
  lemma {:induction false} ItemsExactly(lang: Lang, count: nat, data: bytes, ops: seq<Operand>, n: nat)
    ensures ParseItems(lang, count, data) == Got(ops, n) <==>
              n <= |data| && exists parts :: |parts| == count && Concat(parts) == data[..n] && ItemPieces(lang, parts, ops)
  {
    if ParseItems(lang, count, data) == Got(ops, n) {
      var parts := ItemsCut(lang, count, data);
    }
    if n <= |data| {
      if parts :| |parts| == count && Concat(parts) == data[..n] && ItemPieces(lang, parts, ops) {
        ItemsJoin(lang, parts, ops, data[n..]);
        assert data[..n] + data[n..] == data;
      }
    }
  }

  lemma {:induction false} AllAreItems(lang: Lang, data: bytes)
    ensures var r := ParseAll(lang, data); r.Got? ==> ParseItems(lang, |r.v|, data) == Got(r.v, |data|)
    decreases |data|
  {
    if data != [] {
      var p := Parse(lang, data);
      if p.Got? {
        AllAreItems(lang, data[p.n..]);
        var q := ParseAll(lang, data[p.n..]);
        if q.Got? { ItemsAre(lang, |q.v| + 1, |q.v|, data, p, Got(q.v, |data| - p.n)); }
      }
    }
  }

  lemma {:induction false} ItemsAreAll(lang: Lang, count: nat, data: bytes)
    requires ParseItems(lang, count, data).Got? && ParseItems(lang, count, data).n == |data|
    ensures ParseAll(lang, data) == ParseItems(lang, count, data)
    decreases count
  {
    if count > 0 {
      var p, j: nat := Parse(lang, data), count - 1;
      ItemsFirst(lang, count, j, data);
      ItemsAreAll(lang, j, data[p.n..]);
      ItemsAre(lang, count, j, data, p, ParseItems(lang, j, data[p.n..]));
    }
  }

  /** Operands without a count are read if and only if all the bytes can be cut into
      pieces that each read as one of them. */
  lemma {:induction false} AllExactly(lang: Lang, data: bytes, ops: seq<Operand>)
    ensures ParseAll(lang, data) == Got(ops, |data|) <==>
              exists parts :: |parts| == |ops| && Concat(parts) == data && ItemPieces(lang, parts, ops)
  {
    if ParseAll(lang, data) == Got(ops, |data|) {
      AllAreItems(lang, data);
      var parts := ItemsCut(lang, |ops|, data);
      assert data[..|data|] == data;
    }
    if parts :| |parts| == |ops| && Concat(parts) == data && ItemPieces(lang, parts, ops) {
      ItemsJoin(lang, parts, ops, []);
      assert Concat(parts) + [] == data;
      ItemsAreAll(lang, |ops|, data);
    }
  }

  /** A list as it is read: a count, then that many operands. */
  lemma {:induction false} ListRead(lang: Lang, data: bytes)
    ensures var r, c := Parse(lang, [0x17] + data), Varint.Decode(lang, data);
      if c.Bad? then r == Bad(c.fault)
      else
        var q := ParseItems(lang, c.v, data[c.n..]);
        r == if q.Bad? then Bad(q.fault) else Got(List(q.v), 1 + c.n + q.n)
  {
    ParseFromBody(lang, 0x17, data);
    BodyOfList(lang, data);
  }

  /** A map as it is read: a count, then that many keys and values, collected. */
  lemma {:induction false} MapRead(lang: Lang, data: bytes)
    ensures var r, c := Parse(lang, [0x18] + data), Varint.Decode(lang, data);
      if c.Bad? then r == Bad(c.fault)
      else
        var q := ParseEntries(lang, c.v, data[c.n..]);
        r == if q.Bad? then Bad(q.fault) else Got(Map(Collect(lang, q.v)), 1 + c.n + q.n)
  {
    ParseFromBody(lang, 0x18, data);
    BodyOfMap(lang, data);
  }

  // --- map entries ---

  /** Each piece, by itself, is the length of a key, the key, which is UTF-8, and one
      operand, and is used up. */
  predicate EntryPieces(lang: Lang, parts: seq<bytes>, entries: seq<Entry>) {
    |parts| == |entries| && forall i :: 0 <= i < |parts| ==> EntryPiece(lang, parts[i], entries[i])
  }

  predicate EntryPiece(lang: Lang, part: bytes, e: Entry) {
    var c := Varint.Decode(lang, part);
    && c.Got? && c.v == |e.key| && c.n + c.v <= |part| && part[c.n..c.n + c.v] == e.key && ValidUtf8(e.key)
    && Parse(lang, part[c.n + c.v..]) == Got(e.value, |part| - (c.n + c.v))
  }

  lemma {:induction false} PieceIsEntry(lang: Lang, part: bytes, e: Entry)
    ensures EntryPiece(lang, part, e) <==> ParseEntry(lang, part) == Got(e, |part|)
  {
  }

  lemma {:induction false} EntryAlone(lang: Lang, data: bytes)
    requires ParseEntry(lang, data).Got?
    ensures var r := ParseEntry(lang, data); EntryPiece(lang, data[..r.n], r.v)
  {
    var r := ParseEntry(lang, data);
    EntryLocal(lang, data, r.n, []);
    assert Recut(data, r.n, []) == data[..r.n];
    PieceIsEntry(lang, data[..r.n], r.v);
  }

  lemma {:induction false} EntryPiecesCons(lang: Lang, part: bytes, parts: seq<bytes>, e: Entry, es: seq<Entry>)
    requires EntryPiece(lang, part, e) && EntryPieces(lang, parts, es)
    ensures EntryPieces(lang, [part] + parts, [e] + es)
  {
  }

  lemma {:induction false} EntriesCut(lang: Lang, count: nat, data: bytes) returns (parts: seq<bytes>)
    requires ParseEntries(lang, count, data).Got?
    ensures var r := ParseEntries(lang, count, data);
      |parts| == count && Concat(parts) == data[..r.n] && EntryPieces(lang, parts, r.v)
    decreases count
  {
    if count == 0 {
      parts := [];
      assert data[..0] == [];
    } else {
      var p, j: nat := ParseEntry(lang, data), count - 1;
      EntriesFirst(lang, count, j, data);
      var q := ParseEntries(lang, j, data[p.n..]);
      var tail := EntriesCut(lang, j, data[p.n..]);
      assert ParseEntries(lang, count, data) == Front([p.v], p.n, q) by { EntriesAre(lang, count, j, data, p, q); }
      EntryAlone(lang, data);
      EntryPiecesCons(lang, data[..p.n], tail, p.v, q.v);
      ConcatCut(data, p.n, q.n, tail);
      parts := [data[..p.n]] + tail;
    }
  }

  lemma {:induction false} EntriesJoin(lang: Lang, parts: seq<bytes>, entries: seq<Entry>, rest: bytes)
    requires EntryPieces(lang, parts, entries)
    ensures ParseEntries(lang, |parts|, Concat(parts) + rest) == Got(entries, |Concat(parts)|)
    decreases |parts|
  {
    if parts != [] {
      EntriesJoin(lang, parts[1..], entries[1..], rest);
      PieceIsEntry(lang, parts[0], entries[0]);
      JoinEntry(lang, |parts|, parts[0], Concat(parts[1..]), rest, entries[0], entries[1..]);
      assert entries == [entries[0]] + entries[1..];
    }
  }

  lemma {:induction false} EntryAppend(lang: Lang, h: bytes, t: bytes, x: Entry)
    requires ParseEntry(lang, h) == Got(x, |h|)
    ensures h != [] && ParseEntry(lang, h + t) == Got(x, |h|)
  {
    EntryLocal(lang, h, |h|, t);
    assert Recut(h, |h|, t) == h + t;
  }

  lemma {:induction false} JoinEntry(lang: Lang, k: nat, h: bytes, u: bytes, rest: bytes, x: Entry, xs: seq<Entry>)
    requires k > 0 && ParseEntry(lang, h) == Got(x, |h|) && ReadsEntries(lang, k - 1, u + rest, xs, |u|)
    ensures ReadsEntries(lang, k, h + u + rest, [x] + xs, |h| + |u|)
  {
    var t := u + rest;
    EntryAppend(lang, h, t, x);
    assert ReadsEntries(lang, k, h + t, [x] + xs, |h| + |u|) by { ParseEntriesStep(lang, k, h, t, x, xs, |u|); }
    assert h + u + rest == h + t by { Assoc(h, u, rest); }
  }

  /** The same for the entries of a map, before they are collected. */
  lemma {:induction false} EntriesExactly(lang: Lang, count: nat, data: bytes, entries: seq<Entry>, n: nat)
    ensures ParseEntries(lang, count, data) == Got(entries, n) <==>
              n <= |data| && exists parts :: |parts| == count && Concat(parts) == data[..n] && EntryPieces(lang, parts, entries)
  {
    if ParseEntries(lang, count, data) == Got(entries, n) {
      var parts := EntriesCut(lang, count, data);
    }
    if n <= |data| {
      if parts :| |parts| == count && Concat(parts) == data[..n] && EntryPieces(lang, parts, entries) {
        EntriesJoin(lang, parts, entries, data[n..]);
        assert data[..n] + data[n..] == data;
      }
    }
  }
}
