/** Laws of the operand format: round trips with any bytes after them, what a
    reader can return, and how far re-encoding normalises. */
module OperandLaws {
  import opened Wire
  import Varint
  import opened Operands

  // --- order of keys ---

  lemma {:induction false} BelowIrreflexive(a: bytes)
    ensures !Below(a, a)
  {
    if a != [] { BelowIrreflexive(a[1..]); }
  }

  lemma {:induction false} BelowTransitive(a: bytes, b: bytes, c: bytes)
    requires Below(a, b) && Below(b, c)
    ensures Below(a, c)
  {
    if a != [] && a[0] == b[0] == c[0] { BelowTransitive(a[1..], b[1..], c[1..]); }
  }

  lemma {:induction false} BelowTotal(a: bytes, b: bytes)
    ensures a == b || Below(a, b) || Below(b, a)
  {
    if a != [] && b != [] && a[0] == b[0] {
      BelowTotal(a[1..], b[1..]);
      if a[1..] == b[1..] { assert a == [a[0]] + a[1..] && b == [b[0]] + b[1..]; }
    }
  }

  lemma {:induction false} BelowAsymmetric(a: bytes, b: bytes)
    requires Below(a, b)
    ensures !Below(b, a) && a != b
  {
    if Below(b, a) { BelowTransitive(a, b, a); }
    BelowIrreflexive(a);
  }

  lemma {:induction false} SortedIsDistinct(entries: seq<Entry>)
    requires SortedKeys(entries)
    ensures DistinctKeys(entries)
  {
    forall i, j | 0 <= i < j < |entries|
      ensures entries[i].key != entries[j].key
    {
      BelowAsymmetric(entries[i].key, entries[j].key);
    }
  }

  // --- inserting ---

  /** A key that belongs last is appended. */
  lemma {:induction false} InsertAppends(lang: Lang, acc: seq<Entry>, e: Entry)
    requires KeysOk(lang, acc + [e])
    ensures Insert(lang, acc, e.key, e.value) == acc + [e]
  {
    if acc != [] {
      var all := acc + [e];
      assert all[0].key != e.key && (lang.Rust? ==> !Below(e.key, all[0].key)) by {
        if lang.Python? {
          assert all[0].key != all[|acc|].key;
        } else {
          assert Below(all[0].key, all[|acc|].key);
          BelowAsymmetric(all[0].key, all[|acc|].key);
        }
      }
      assert acc[1..] + [e] == all[1..];
      InsertAppends(lang, acc[1..], e);
      assert acc + [e] == [acc[0]] + (acc[1..] + [e]);
    }
  }

  /** Entries that already form a map are that map. */
  lemma {:induction false} CollectIsIdentity(lang: Lang, entries: seq<Entry>)
    requires KeysOk(lang, entries)
    ensures Collect(lang, entries) == entries
  {
    if entries != [] {
      var n := |entries| - 1;
      CollectIsIdentity(lang, entries[..n]);
      assert entries == entries[..n] + [entries[n]];
      InsertAppends(lang, entries[..n], entries[n]);
    }
  }

  predicate HasKey(entries: seq<Entry>, k: bytes) {
    exists i :: 0 <= i < |entries| && entries[i].key == k
  }

  lemma {:induction false} DictInsertNew(entries: seq<Entry>, k: bytes, v: Operand)
    requires !HasKey(entries, k)
    ensures DictInsert(entries, k, v) == entries + [Entry(k, v)]
  {
    if entries != [] {
      assert entries[0].key != k;
      assert forall i :: 0 <= i < |entries[1..]| ==> entries[1..][i] == entries[i + 1];
      DictInsertNew(entries[1..], k, v);
    }
  }

  lemma {:induction false} DictInsertOld(entries: seq<Entry>, i: nat, v: Operand)
    requires DistinctKeys(entries) && i < |entries|
    ensures DictInsert(entries, entries[i].key, v) == entries[i := Entry(entries[i].key, v)]
  {
    var k := entries[i].key;
    if i > 0 {
      assert entries[0].key != k;
      var t := entries[1..];
      assert t[i - 1].key == k;
      DictInsertOld(t, i - 1, v);
      assert [entries[0]] + t[i - 1 := Entry(k, v)] == entries[i := Entry(k, v)];
    }
  }

  lemma {:induction false} DictInsertDistinct(entries: seq<Entry>, k: bytes, v: Operand)
    requires DistinctKeys(entries)
    ensures DistinctKeys(DictInsert(entries, k, v))
  {
    if HasKey(entries, k) {
      var i :| 0 <= i < |entries| && entries[i].key == k;
      DictInsertOld(entries, i, v);
    } else {
      DictInsertNew(entries, k, v);
      assert forall i :: 0 <= i < |entries| ==> entries[i].key != k;
    }
  }

  /** Keys that come out of an insertion went in. */
  lemma {:induction false} TreeInsertKeys(entries: seq<Entry>, k: bytes, v: Operand)
    ensures forall i :: 0 <= i < |TreeInsert(entries, k, v)| ==>
              TreeInsert(entries, k, v)[i] == Entry(k, v) || TreeInsert(entries, k, v)[i] in entries
  {
    if entries != [] && entries[0].key != k && !Below(k, entries[0].key) {
      TreeInsertKeys(entries[1..], k, v);
    }
  }

  lemma {:induction false} DictInsertKeys(entries: seq<Entry>, k: bytes, v: Operand)
    ensures forall i :: 0 <= i < |DictInsert(entries, k, v)| ==>
              DictInsert(entries, k, v)[i] == Entry(k, v) || DictInsert(entries, k, v)[i] in entries
  {
    if entries != [] && entries[0].key != k {
      DictInsertKeys(entries[1..], k, v);
    }
  }

  lemma {:induction false} SortedCons(e: Entry, entries: seq<Entry>)
    requires SortedKeys(entries)
    requires forall i :: 0 <= i < |entries| ==> Below(e.key, entries[i].key)
    ensures SortedKeys([e] + entries)
  {
  }

  lemma {:induction false} TreeInsertSorted(entries: seq<Entry>, k: bytes, v: Operand)
    requires SortedKeys(entries)
    ensures SortedKeys(TreeInsert(entries, k, v))
  {
    if entries != [] {
      var h, t := entries[0], entries[1..];
      assert forall i :: 0 <= i < |t| ==> t[i] == entries[i + 1] && Below(h.key, t[i].key);
      if h.key == k {
        SortedCons(Entry(k, v), t);
      } else if Below(k, h.key) {
        forall i | 0 <= i < |entries|
          ensures Below(k, entries[i].key)
        {
          if i > 0 { BelowTransitive(k, h.key, entries[i].key); }
        }
        SortedCons(Entry(k, v), entries);
      } else {
        TreeInsertSorted(t, k, v);
        TreeInsertKeys(t, k, v);
        BelowTotal(h.key, k);
        SortedCons(h, TreeInsert(t, k, v));
      }
    }
  }

  lemma {:induction false} InsertKeysOk(lang: Lang, acc: seq<Entry>, k: bytes, v: Operand)
    requires KeysOk(lang, acc)
    ensures KeysOk(lang, Insert(lang, acc, k, v))
  {
    if lang.Python? { DictInsertDistinct(acc, k, v); } else { TreeInsertSorted(acc, k, v); }
  }

  // --- round trips ---

  lemma {:induction false} PrefixRoundTrip(lang: Lang, n: nat, rest: bytes)
    requires n < LIMIT
    ensures Varint.Decode(lang, Prefix(lang, n) + rest) == Got(n, |Prefix(lang, n)|)
  {
    Varint.RoundTrip(lang, n, rest);
  }

  lemma {:induction false} BlobRoundTrip(lang: Lang, raw: bytes, rest: bytes)
    requires |raw| < LIMIT
    ensures ParseBlob(lang, Blob(lang, raw) + rest) == Got(raw, |Blob(lang, raw)|)
  {
    var p := Prefix(lang, |raw|);
    assert Blob(lang, raw) + rest == p + (raw + rest);
    PrefixRoundTrip(lang, |raw|, raw + rest);
    assert (p + (raw + rest))[|p|..|p| + |raw|] == raw;
  }

  lemma {:induction false} FixedRoundTrip(l: Layout, n: int)
    requires Fits(l, n)
    ensures UnpackFixed(l, PackFixed(l, n)) == n
  {
    FromToBE(l.width, if l.signed then ToTwos(l.width, n) else n);
  }

  lemma {:induction false} BufRefRoundTrip(buf: nat, offset: nat, length: nat, rest: bytes)
    requires buf < Pow256(8) && offset < Pow256(4) && length < Pow256(4)
    ensures var s := Body(Python, BufRef(buf, offset, length)) + rest;
      |Body(Python, BufRef(buf, offset, length))| == 16 &&
      FromBE(s[..8]) == buf && FromBE(s[8..12]) == offset && FromBE(s[12..16]) == length
  {
    var s := ToBE(8, buf) + ToBE(4, offset) + ToBE(4, length) + rest;
    assert s[..8] == ToBE(8, buf) && s[8..12] == ToBE(4, offset) && s[12..16] == ToBE(4, length);
    FromToBE(8, buf);
    FromToBE(4, offset);
    FromToBE(4, length);
  }

  predicate KeysReadable(entries: seq<Entry>) {
    forall i :: 0 <= i < |entries| ==> ValidUtf8(entries[i].key) && |entries[i].key| < LIMIT
  }

  lemma {:induction false} ParseFromBody(lang: Lang, tag: byte, body: bytes)
    ensures Parse(lang, [tag] + body) == At(1, ParseBody(lang, tag, body))
  {
  }

  /** Reading an encoded operand gives it back and stops where it ends,
      whatever follows. */
  lemma {:induction false} RoundTrip(lang: Lang, op: Operand, rest: bytes)
    requires All(Portable(lang), op)
    ensures Parse(lang, Encode(lang, op) + rest) == Got(op, |Encode(lang, op)|)
    decreases op, 1
  {
    assert Encode(lang, op) + rest == [Tag(op)] + (Body(lang, op) + rest);
    BodyRoundTrip(lang, op, rest);
    ParseFromBody(lang, Tag(op), Body(lang, op) + rest);
  }

  lemma {:induction false} BodyOfList(lang: Lang, data: bytes)
    ensures ParseBody(lang, LIST, data) == ParseList(lang, data)
  {
  }

  lemma {:induction false} BodyOfMap(lang: Lang, data: bytes)
    ensures ParseBody(lang, MAP, data) == ParseMap(lang, data)
  {
  }

  lemma {:induction false} BodyOfVendor(lang: Lang, tag: byte, data: bytes)
    requires tag >= VENDOR_BASE
    ensures ParseBody(lang, tag, data) == ParseVendor(lang, tag, data)
  {
  }

  lemma {:induction false} BodySplits(lang: Lang, op: Operand, rest: bytes)
    ensures op.List? ==>
      Body(lang, op) + rest == Prefix(lang, |op.items|) + (EncodeAll(lang, op.items) + rest) &&
      |Body(lang, op)| == |Prefix(lang, |op.items|)| + |EncodeAll(lang, op.items)|
    ensures op.Map? ==>
      Body(lang, op) + rest == Prefix(lang, |op.entries|) + (EncodeEntries(lang, op.entries) + rest) &&
      |Body(lang, op)| == |Prefix(lang, |op.entries|)| + |EncodeEntries(lang, op.entries)|
  {
  }

  lemma {:induction false} PortableChildren(lang: Lang, op: Operand)
    requires All(Portable(lang), op)
    ensures op.List? ==> AllOf(Portable(lang), op.items) && |op.items| < LIMIT
    ensures op.Map? ==>
      AllIn(Portable(lang), op.entries) && KeysReadable(op.entries) && KeysOk(lang, op.entries) && |op.entries| < LIMIT
  {
  }

  lemma {:induction false} BodyRoundTrip(lang: Lang, op: Operand, rest: bytes)
    requires All(Portable(lang), op)
    ensures ParseBody(lang, Tag(op), Body(lang, op) + rest) == Got(op, |Body(lang, op)|)
    decreases op, 0
  {
    if op.List? {
      PortableChildren(lang, op);
      ListRoundTrip(lang, op.items, rest);
      BodySplits(lang, op, rest);
      BodyOfList(lang, Body(lang, op) + rest);
    } else if op.Map? {
      PortableChildren(lang, op);
      MapRoundTrip(lang, op.entries, rest);
      BodySplits(lang, op, rest);
      BodyOfMap(lang, Body(lang, op) + rest);
    } else {
      ScalarRoundTrip(lang, op, rest);
    }
  }

  lemma {:induction false} VendorRoundTrip(lang: Lang, tag: byte, data: bytes, rest: bytes)
    requires tag >= VENDOR_BASE && |data| < LIMIT
    ensures ParseBody(lang, tag, Blob(lang, data) + rest) == Got(Vendor(tag, data), |Blob(lang, data)|)
  {
    BlobRoundTrip(lang, data, rest);
    BodyOfVendor(lang, tag, Blob(lang, data) + rest);
  }

  lemma {:induction false} FixedBodyRoundTrip(lang: Lang, tag: byte, n: int, rest: bytes)
    requires EncodableNode(Fixed(tag, n))
    ensures ParseBody(lang, tag, Body(lang, Fixed(tag, n)) + rest) == Got(Fixed(tag, n), |Body(lang, Fixed(tag, n))|)
  {
    var l := FixedLayout(tag).value;
    assert (PackFixed(l, n) + rest)[..l.width] == PackFixed(l, n);
    FixedRoundTrip(l, n);
  }

  lemma {:induction false} StringRoundTrip(lang: Lang, raw: bytes, rest: bytes)
    requires |raw| < LIMIT
    ensures ParseBody(lang, BYTES, Blob(lang, raw) + rest) == Got(Bytes(raw), |Blob(lang, raw)|)
    ensures ValidUtf8(raw) ==> ParseBody(lang, STR, Blob(lang, raw) + rest) == Got(Str(raw), |Blob(lang, raw)|)
  {
    BlobRoundTrip(lang, raw, rest);
  }

  lemma {:induction false} PlainRoundTrip(lang: Lang, op: Operand, rest: bytes)
    requires EncodableNode(op) && (op.Bool? || op.Uuid? || op.BufRef? || op.Null?)
    ensures ParseBody(lang, Tag(op), Body(lang, op) + rest) == Got(op, |Body(lang, op)|)
  {
    if op.Uuid? {
      assert (op.id + rest)[..16] == op.id;
    } else if op.BufRef? {
      BufRefRoundTrip(op.buf, op.offset, op.length, rest);
    }
  }

  lemma {:induction false} ScalarRoundTrip(lang: Lang, op: Operand, rest: bytes)
    requires EncodableNode(op) && SmallNode(op) && !op.List? && !op.Map? && (lang.Rust? ==> !op.Vendor?)
    ensures ParseBody(lang, Tag(op), Body(lang, op) + rest) == Got(op, |Body(lang, op)|)
  {
    match op {
      case Fixed(tag, n) => FixedBodyRoundTrip(lang, tag, n, rest);
      case Str(text) => StringRoundTrip(lang, text, rest);
      case Bytes(raw) => StringRoundTrip(lang, raw, rest);
      case Vendor(tag, data) => VendorRoundTrip(lang, tag, data, rest);
      case _ => PlainRoundTrip(lang, op, rest);
    }
  }

  lemma {:induction false} ParseListStep(lang: Lang, n: nat, p: bytes, t: bytes, items: seq<Operand>, m: nat)
    requires Varint.Decode(lang, p + t) == Got(n, |p|) && ReadsItems(lang, n, t, items, m)
    ensures ParseList(lang, p + t) == Got(List(items), |p| + m)
  {
  }

  lemma {:induction false} ParseMapStep(lang: Lang, n: nat, p: bytes, t: bytes, entries: seq<Entry>, m: nat)
    requires Varint.Decode(lang, p + t) == Got(n, |p|) && ReadsEntries(lang, n, t, entries, m)
    ensures ParseMap(lang, p + t) == Got(Map(Collect(lang, entries)), |p| + m)
  {
  }

  lemma {:induction false} ListRoundTrip(lang: Lang, items: seq<Operand>, rest: bytes)
    requires AllOf(Portable(lang), items) && |items| < LIMIT
    ensures ParseList(lang, Prefix(lang, |items|) + (EncodeAll(lang, items) + rest))
         == Got(List(items), |Prefix(lang, |items|)| + |EncodeAll(lang, items)|)
    decreases items, 1
  {
    var p, t := Prefix(lang, |items|), EncodeAll(lang, items) + rest;
    PrefixRoundTrip(lang, |items|, t);
    ItemsRoundTrip(lang, items, rest);
    ParseListStep(lang, |items|, p, t, items, |EncodeAll(lang, items)|);
  }

  lemma {:induction false} MapRoundTrip(lang: Lang, entries: seq<Entry>, rest: bytes)
    requires AllIn(Portable(lang), entries) && KeysReadable(entries) && KeysOk(lang, entries) && |entries| < LIMIT
    ensures ParseMap(lang, Prefix(lang, |entries|) + (EncodeEntries(lang, entries) + rest))
         == Got(Map(entries), |Prefix(lang, |entries|)| + |EncodeEntries(lang, entries)|)
    decreases entries, 1
  {
    var p, t := Prefix(lang, |entries|), EncodeEntries(lang, entries) + rest;
    PrefixRoundTrip(lang, |entries|, t);
    EntriesRoundTrip(lang, entries, rest);
    ParseMapStep(lang, |entries|, p, t, entries, |EncodeEntries(lang, entries)|);
    CollectIsIdentity(lang, entries);
  }

  lemma {:induction false} ParseItemsStep(lang: Lang, k: nat, h: bytes, t: bytes, op: Operand, ops: seq<Operand>, m: nat)
    requires k > 0 && h != [] && Parse(lang, h + t) == Got(op, |h|)
    requires ReadsItems(lang, k - 1, t, ops, m)
    ensures ReadsItems(lang, k, h + t, [op] + ops, |h| + m)
  {
  }

  lemma {:induction false} EncodeAllAppend(lang: Lang, ops: seq<Operand>, op: Operand)
    ensures EncodeAll(lang, ops + [op]) == EncodeAll(lang, ops) + Encode(lang, op)
    decreases ops
  {
    if ops == [] {
      assert ops + [op] == [op];
      assert EncodeAll(lang, [op]) == Encode(lang, op) + EncodeAll(lang, []);
    } else {
      assert (ops + [op])[1..] == ops[1..] + [op];
      EncodeAllAppend(lang, ops[1..], op);
      Assoc(Encode(lang, ops[0]), EncodeAll(lang, ops[1..]), Encode(lang, op));
    }
  }

  lemma {:induction false} EncodeEntriesAppend(lang: Lang, entries: seq<Entry>, e: Entry)
    ensures EncodeEntries(lang, entries + [e]) == EncodeEntries(lang, entries) + EncodeEntry(lang, e)
    decreases entries
  {
    if entries == [] {
      assert entries + [e] == [e];
      assert EncodeEntries(lang, [e]) == EncodeEntry(lang, e) + EncodeEntries(lang, []);
    } else {
      assert (entries + [e])[1..] == entries[1..] + [e];
      EncodeEntriesAppend(lang, entries[1..], e);
      Assoc(EncodeEntry(lang, entries[0]), EncodeEntries(lang, entries[1..]), EncodeEntry(lang, e));
    }
  }

  lemma {:induction false} EncodeAllSplits(lang: Lang, ops: seq<Operand>, rest: bytes)
    requires ops != []
    ensures EncodeAll(lang, ops) + rest == Encode(lang, ops[0]) + (EncodeAll(lang, ops[1..]) + rest)
    ensures |EncodeAll(lang, ops)| == |Encode(lang, ops[0])| + |EncodeAll(lang, ops[1..])|
  {
    var h, t := Encode(lang, ops[0]), EncodeAll(lang, ops[1..]);
    assert EncodeAll(lang, ops) == h + t;
    Assoc(h, t, rest);
  }

  /** Operands written back to back are read back one by one. */
  lemma {:induction false} ItemsRoundTrip(lang: Lang, items: seq<Operand>, rest: bytes)
    requires AllOf(Portable(lang), items)
    ensures ReadsItems(lang, |items|, EncodeAll(lang, items) + rest, items, |EncodeAll(lang, items)|)
    decreases items, 0
  {
    if items != [] {
      var op, ops := items[0], items[1..];
      var h, t := Encode(lang, op), EncodeAll(lang, ops) + rest;
      assert Parse(lang, h + t) == Got(op, |h|) by { RoundTrip(lang, op, t); }
      var m := |EncodeAll(lang, ops)|;
      assert |ops| == |items| - 1;
      ItemsRoundTrip(lang, ops, rest);
      ParseItemsStep(lang, |items|, h, t, op, ops, m);
      EncodeAllSplits(lang, items, rest);
      FirstAndRest(items);
    }
  }

  lemma {:induction false} ParseEntryStep(lang: Lang, key: bytes, k: bytes, t: bytes)
    requires ParseText(lang, k + t) == Got(key, |k|)
    ensures ParseEntry(lang, k + t)
         == var v := Parse(lang, t); if v.Got? then Got(Entry(key, v.v), |k| + v.n) else Bad(v.fault)
  {
  }

  lemma {:induction false} EntryRoundTrip(lang: Lang, e: Entry, rest: bytes)
    requires All(Portable(lang), e.value) && ValidUtf8(e.key) && |e.key| < LIMIT
    ensures ParseEntry(lang, EncodeEntry(lang, e) + rest) == Got(e, |EncodeEntry(lang, e)|)
    decreases e, 0
  {
    var k, t := Blob(lang, e.key), Encode(lang, e.value) + rest;
    assert ParseText(lang, k + t) == Got(e.key, |k|) by { BlobRoundTrip(lang, e.key, t); }
    ParseEntryStep(lang, e.key, k, t);
    RoundTrip(lang, e.value, rest);
    Assoc(k, Encode(lang, e.value), rest);
  }

  /** Reading data gives exactly these entries from its first m bytes. */
  predicate ReadsEntries(lang: Lang, k: nat, data: bytes, es: seq<Entry>, m: nat) {
    ParseEntries(lang, k, data) == Got(es, m)
  }

  predicate ReadsItems(lang: Lang, k: nat, data: bytes, ops: seq<Operand>, m: nat) {
    ParseItems(lang, k, data) == Got(ops, m)
  }

  lemma {:induction false} ParseEntriesStep(lang: Lang, k: nat, h: bytes, t: bytes, e: Entry, es: seq<Entry>, m: nat)
    requires k > 0 && h != [] && ParseEntry(lang, h + t) == Got(e, |h|)
    requires ReadsEntries(lang, k - 1, t, es, m)
    ensures ReadsEntries(lang, k, h + t, [e] + es, |h| + m)
  {
  }

  lemma {:induction false} EncodeEntriesSplits(lang: Lang, entries: seq<Entry>, rest: bytes)
    requires entries != []
    ensures EncodeEntries(lang, entries) + rest
         == EncodeEntry(lang, entries[0]) + (EncodeEntries(lang, entries[1..]) + rest)
    ensures |EncodeEntries(lang, entries)| == |EncodeEntry(lang, entries[0])| + |EncodeEntries(lang, entries[1..])|
  {
    var h, t := EncodeEntry(lang, entries[0]), EncodeEntries(lang, entries[1..]);
    assert EncodeEntries(lang, entries) == h + t;
    Assoc(h, t, rest);
  }

  lemma {:induction false} EntriesRoundTrip(lang: Lang, entries: seq<Entry>, rest: bytes)
    requires AllIn(Portable(lang), entries) && KeysReadable(entries)
    ensures ReadsEntries(lang, |entries|, EncodeEntries(lang, entries) + rest, entries, |EncodeEntries(lang, entries)|)
    decreases entries, 0
  {
    if entries != [] {
      var e, es := entries[0], entries[1..];
      var h, t := EncodeEntry(lang, e), EncodeEntries(lang, es) + rest;
      assert ParseEntry(lang, h + t) == Got(e, |h|) by { EntryRoundTrip(lang, e, t); }
      var m := |EncodeEntries(lang, es)|;
      assert |es| == |entries| - 1;
      EntriesRoundTrip(lang, es, rest);
      ParseEntriesStep(lang, |entries|, h, t, e, es, m);
      EncodeEntriesSplits(lang, entries, rest);
      assert entries == [e] + es;
    }
  }
}
