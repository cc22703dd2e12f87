/** What a reader can return, for all byte strings: readable values only, never
    more nodes than bytes, and never a longer encoding than what was read. */
module OperandReading {
  import opened Wire
  import Varint
  import opened Operands
  import opened OperandLaws

  // --- combining node rules ---

  /** A rule that implies another at every node implies it for every tree. */
  lemma {:induction false} AllWeaken(strong: Rule, weak: Rule, op: Operand)
    requires forall x :: Node(strong, x) ==> Node(weak, x)
    requires All(strong, op)
    ensures All(weak, op)
    decreases op
  {
    match op {
      case List(items) =>
        forall i | 0 <= i < |items|
          ensures All(weak, items[i])
        {
          AllWeaken(strong, weak, items[i]);
        }
      case Map(entries) =>
        forall i | 0 <= i < |entries|
          ensures All(weak, entries[i].value)
        {
          AllWeaken(strong, weak, entries[i].value);
        }
      case _ =>
    }
  }

  lemma {:induction false} ReadableFromParts(lang: Lang, op: Operand)
    requires All(Encodable, op) && All(Small, op) && All(Maps(lang), op)
    ensures All(Readable(lang), op)
    decreases op
  {
    match op {
      case List(items) =>
        forall i | 0 <= i < |items|
          ensures All(Readable(lang), items[i])
        {
          ReadableFromParts(lang, items[i]);
        }
      case Map(entries) =>
        forall i | 0 <= i < |entries|
          ensures All(Readable(lang), entries[i].value)
        {
          ReadableFromParts(lang, entries[i].value);
        }
      case _ =>
    }
  }

  lemma {:induction false} PortableFromParts(lang: Lang, op: Operand)
    requires All(Readable(lang), op) && (lang.Rust? ==> All(VendorFree, op))
    ensures All(Portable(lang), op)
    decreases op
  {
    match op {
      case List(items) =>
        forall i | 0 <= i < |items|
          ensures All(Portable(lang), items[i])
        {
          PortableFromParts(lang, items[i]);
        }
      case Map(entries) =>
        forall i | 0 <= i < |entries|
          ensures All(Portable(lang), entries[i].value)
        {
          PortableFromParts(lang, entries[i].value);
        }
      case _ =>
    }
  }

  // --- sizes ---

  lemma {:induction false} ItemFitsInAll(lang: Lang, ops: seq<Operand>, i: nat)
    requires i < |ops|
    ensures |Encode(lang, ops[i])| <= |EncodeAll(lang, ops)|
  {
    EncodeAllSplits(lang, ops, []);
    if i > 0 { ItemFitsInAll(lang, ops[1..], i - 1); }
  }

  lemma {:induction false} EntryFitsInAll(lang: Lang, entries: seq<Entry>, i: nat)
    requires i < |entries|
    ensures |entries[i].key| + |Encode(lang, entries[i].value)| <= |EncodeEntries(lang, entries)|
  {
    EncodeEntriesSplits(lang, entries, []);
    if i > 0 { EntryFitsInAll(lang, entries[1..], i - 1); }
  }

  /** An encoding of fewer than 2^28 bytes cannot hold a count or a length that
      overflows its varint, at any depth. */
  lemma {:induction false} SizeForcesSmall(lang: Lang, op: Operand)
    requires |Encode(lang, op)| < LIMIT
    ensures All(Small, op)
    decreases op
  {
    match op {
      case List(items) =>
        forall i | 0 <= i < |items|
          ensures All(Small, items[i])
        {
          ItemFitsInAll(lang, items, i);
          SizeForcesSmall(lang, items[i]);
        }
      case Map(entries) =>
        forall i | 0 <= i < |entries|
          ensures All(Small, entries[i].value) && |entries[i].key| < LIMIT
        {
          EntryFitsInAll(lang, entries, i);
          SizeForcesSmall(lang, entries[i].value);
        }
      case _ =>
    }
  }

  lemma {:induction false} SizeForcesSmallAll(lang: Lang, ops: seq<Operand>)
    requires |EncodeAll(lang, ops)| < LIMIT
    ensures AllOf(Small, ops)
  {
    forall i | 0 <= i < |ops|
      ensures All(Small, ops[i])
    {
      ItemFitsInAll(lang, ops, i);
      SizeForcesSmall(lang, ops[i]);
    }
  }

  // --- readers return readable values ---

  lemma {:induction false} BlobIsSmall(lang: Lang, data: bytes)
    requires ParseBlob(lang, data).Got?
    ensures |ParseBlob(lang, data).v| < LIMIT
  {
    Varint.DecodedIsMinimal(lang, data);
  }

  lemma {:induction false} ScalarIsSmall(lang: Lang, tag: byte, data: bytes)
    requires tag != LIST && tag != MAP && ParseBody(lang, tag, data).Got?
    ensures SmallNode(ParseBody(lang, tag, data).v)
  {
    if tag == STR || tag == BYTES || KindOf(tag).Opaque? {
      BlobIsSmall(lang, data);
    }
  }

  lemma {:induction false} ScalarIsEncodable(lang: Lang, tag: byte, data: bytes)
    requires tag != LIST && tag != MAP && ParseBody(lang, tag, data).Got?
    ensures var op := ParseBody(lang, tag, data).v; EncodableNode(op) && !op.List? && !op.Map?
  {
  }

  lemma {:induction false} ScalarIsReadable(lang: Lang, tag: byte, data: bytes)
    requires tag != LIST && tag != MAP && ParseBody(lang, tag, data).Got?
    ensures All(Readable(lang), ParseBody(lang, tag, data).v)
  {
    ScalarIsSmall(lang, tag, data);
    ScalarIsEncodable(lang, tag, data);
    LeafReadable(lang, ParseBody(lang, tag, data).v);
  }

  lemma {:induction false} LeafReadable(lang: Lang, op: Operand)
    requires EncodableNode(op) && SmallNode(op) && !op.List? && !op.Map?
    ensures All(Readable(lang), op)
  {
  }

  lemma {:induction false} ParseReadable(lang: Lang, data: bytes)
    requires Parse(lang, data).Got?
    ensures All(Readable(lang), Parse(lang, data).v)
    decreases |data|, 0
  {
    var tag, body := data[0], data[1..];
    ParseFromBody(lang, tag, body);
    assert data == [tag] + body;
    if tag == LIST {
      BodyOfList(lang, body);
      ListReadable(lang, body);
    } else if tag == MAP {
      BodyOfMap(lang, body);
      MapReadable(lang, body);
    } else {
      ScalarIsReadable(lang, tag, body);
    }
  }

  lemma {:induction false} ListReadable(lang: Lang, data: bytes)
    requires ParseList(lang, data).Got?
    ensures All(Readable(lang), ParseList(lang, data).v)
    decreases |data|, 2
  {
    var p := Varint.Decode(lang, data);
    Varint.DecodedIsMinimal(lang, data);
    ItemsReadable(lang, p.v, data[p.n..]);
  }

  lemma {:induction false} MapReadable(lang: Lang, data: bytes)
    requires ParseMap(lang, data).Got?
    ensures All(Readable(lang), ParseMap(lang, data).v)
    decreases |data|, 2
  {
    var p := Varint.Decode(lang, data);
    Varint.DecodedIsMinimal(lang, data);
    EntriesReadable(lang, p.v, data[p.n..]);
    CollectGood(lang, ParseEntries(lang, p.v, data[p.n..]).v);
  }

  lemma {:induction false} ItemsReadable(lang: Lang, count: nat, data: bytes)
    requires ParseItems(lang, count, data).Got?
    ensures AllOf(Readable(lang), ParseItems(lang, count, data).v)
    decreases |data|, 1, count
  {
    if count > 0 {
      var p := Parse(lang, data);
      ParseReadable(lang, data);
      ItemsReadable(lang, count - 1, data[p.n..]);
    }
  }

  predicate GoodEntries(lang: Lang, entries: seq<Entry>) {
    AllIn(Readable(lang), entries) && KeysReadable(entries)
  }

  lemma {:induction false} InsertGood(lang: Lang, acc: seq<Entry>, k: bytes, v: Operand)
    requires GoodEntries(lang, acc) && ValidUtf8(k) && |k| < LIMIT && All(Readable(lang), v)
    ensures GoodEntries(lang, Insert(lang, acc, k, v))
  {
    if lang.Python? { DictInsertKeys(acc, k, v); } else { TreeInsertKeys(acc, k, v); }
  }

  lemma {:induction false} CollectGood(lang: Lang, entries: seq<Entry>)
    requires GoodEntries(lang, entries)
    ensures GoodEntries(lang, Collect(lang, entries)) && KeysOk(lang, Collect(lang, entries))
  {
    if entries != [] {
      var n := |entries| - 1;
      var e := entries[n];
      CollectGood(lang, entries[..n]);
      InsertGood(lang, Collect(lang, entries[..n]), e.key, e.value);
      InsertKeysOk(lang, Collect(lang, entries[..n]), e.key, e.value);
    }
  }

  lemma {:induction false} EntryReadable(lang: Lang, data: bytes)
    requires ParseEntry(lang, data).Got?
    ensures var e := ParseEntry(lang, data).v;
      All(Readable(lang), e.value) && ValidUtf8(e.key) && |e.key| < LIMIT
    decreases |data|, 1
  {
    var k := ParseText(lang, data);
    BlobIsSmall(lang, data);
    ParseReadable(lang, data[k.n..]);
  }

  lemma {:induction false} EntriesReadable(lang: Lang, count: nat, data: bytes)
    requires ParseEntries(lang, count, data).Got?
    ensures GoodEntries(lang, ParseEntries(lang, count, data).v)
    decreases |data|, 2, count
  {
    if count > 0 {
      var p := ParseEntry(lang, data);
      EntryReadable(lang, data);
      EntriesReadable(lang, count - 1, data[p.n..]);
      GoodCons(lang, p.v, ParseEntries(lang, count - 1, data[p.n..]).v);
    }
  }

  lemma {:induction false} GoodCons(lang: Lang, e: Entry, es: seq<Entry>)
    requires All(Readable(lang), e.value) && ValidUtf8(e.key) && |e.key| < LIMIT && GoodEntries(lang, es)
    ensures GoodEntries(lang, [e] + es)
  {
  }

  // --- the exact condition of the Python round trip ---

  lemma {:induction false} PythonPortable(op: Operand)
    requires All(Encodable, op) && All(Small, op) && All(Maps(Python), op)
    ensures All(Portable(Python), op)
  {
    ReadableFromParts(Python, op);
    PortableFromParts(Python, op);
  }

  /** `decode_symbol(encode_symbol(s) + rest)` gives back s and the right
      position exactly when no count or length in s reaches 2^28. */
  lemma {:induction false} PythonRoundTripExact(op: Operand, rest: bytes)
    requires All(Encodable, op) && All(Maps(Python), op)
    ensures Parse(Python, Encode(Python, op) + rest) == Got(op, |Encode(Python, op)|) <==> All(Small, op)
  {
    if All(Small, op) {
      PythonPortable(op);
      RoundTrip(Python, op, rest);
    } else if Parse(Python, Encode(Python, op) + rest) == Got(op, |Encode(Python, op)|) {
      ParseReadable(Python, Encode(Python, op) + rest);
      AllWeaken(Readable(Python), Small, op);
    }
  }

  /** No encoding is a proper prefix of another one. */
  lemma {:induction false} PrefixFree(lang: Lang, a: Operand, b: Operand)
    requires All(Portable(lang), a) && All(Portable(lang), b)
    requires Encode(lang, a) <= Encode(lang, b)
    ensures a == b
  {
    var s := Encode(lang, b);
    var rest := s[|Encode(lang, a)|..];
    assert s == Encode(lang, a) + rest && s == s + [];
    RoundTrip(lang, a, rest);
    RoundTrip(lang, b, []);
  }

  /** `decode_symbols` inverts `encode_symbols`, so no two operand lists share
      their bytes. */
  lemma {:induction false} SequenceRoundTrip(lang: Lang, ops: seq<Operand>)
    requires AllOf(Portable(lang), ops)
    ensures ParseAll(lang, EncodeAll(lang, ops)) == Got(ops, |EncodeAll(lang, ops)|)
    decreases ops
  {
    if ops != [] {
      SequenceRoundTrip(lang, ops[1..]);
      FirstOfSequence(lang, ops[0], EncodeAll(lang, ops[1..]), ops[1..]);
      assert ops == [ops[0]] + ops[1..];
    }
  }

  lemma {:induction false} FirstOfSequence(lang: Lang, op: Operand, rest: bytes, ops: seq<Operand>)
    requires All(Portable(lang), op) && ParseAll(lang, rest) == Got(ops, |rest|)
    ensures ParseAll(lang, Encode(lang, op) + rest) == Got([op] + ops, |Encode(lang, op) + rest|)
  {
    RoundTrip(lang, op, rest);
    ParseAllStep(lang, Encode(lang, op), rest, op);
  }

  lemma {:induction false} ParseAllStep(lang: Lang, h: bytes, t: bytes, op: Operand)
    requires h != [] && Parse(lang, h + t) == Got(op, |h|)
    ensures ParseAll(lang, h + t)
         == var q := ParseAll(lang, t); if q.Got? then Got([op] + q.v, |h| + q.n) else q
  {
    assert (h + t)[|h|..] == t;
  }

  lemma {:induction false} SequencesDiffer(lang: Lang, xs: seq<Operand>, ys: seq<Operand>)
    requires AllOf(Portable(lang), xs) && AllOf(Portable(lang), ys)
    requires EncodeAll(lang, xs) == EncodeAll(lang, ys)
    ensures xs == ys
  {
    SequenceRoundTrip(lang, xs);
    SequenceRoundTrip(lang, ys);
  }
}
