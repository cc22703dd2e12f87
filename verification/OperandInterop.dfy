/** Re-encoding what Python read, and reading the same bytes with both
    implementations. */
module OperandInterop {
  import opened Wire
  import Varint
  import opened Operands
  import opened OperandLaws
  import opened OperandReading

  // --- re-encoding never grows ---

  function Nodes(op: Operand): nat
    decreases op, 0
  {
    match op
    case List(items) => 1 + NodesOf(items)
    case Map(entries) => 1 + NodesIn(entries)
    case _ => 1
  }

  function NodesOf(ops: seq<Operand>): nat
    decreases ops
  {
    if ops == [] then 0 else Nodes(ops[0]) + NodesOf(ops[1..])
  }

  function NodesIn(entries: seq<Entry>): nat
    decreases entries
  {
    if entries == [] then 0 else Nodes(entries[0].value) + NodesIn(entries[1..])
  }

  /** Every node of a tree has its own tag byte on the wire. */
  lemma {:induction false} NodesFit(op: Operand)
    ensures Nodes(op) <= |Encode(Python, op)|
    decreases op, 0
  {
    BodySplits(Python, op, []);
    if op.List? { NodesOfFit(op.items); } else if op.Map? { NodesInFit(op.entries); }
  }

  lemma {:induction false} NodesOfFit(ops: seq<Operand>)
    ensures NodesOf(ops) <= |EncodeAll(Python, ops)|
    decreases ops
  {
    if ops != [] {
      NodesFit(ops[0]);
      NodesOfFit(ops[1..]);
      EncodeAllSplits(Python, ops, []);
    }
  }

  lemma {:induction false} NodesInFit(entries: seq<Entry>)
    ensures NodesIn(entries) <= |EncodeEntries(Python, entries)|
    decreases entries
  {
    if entries != [] {
      NodesFit(entries[0].value);
      NodesInFit(entries[1..]);
      EncodeEntriesSplits(Python, entries, []);
    }
  }

  lemma {:induction false} BlobShrinks(data: bytes)
    requires ParseBlob(Python, data).Got?
    ensures |Blob(Python, ParseBlob(Python, data).v)| <= ParseBlob(Python, data).n
  {
    Varint.DecodedIsMinimal(Python, data);
  }

  lemma {:induction false} ScalarShrinks(tag: byte, data: bytes)
    requires tag != LIST && tag != MAP && ParseBody(Python, tag, data).Got?
    ensures |Body(Python, ParseBody(Python, tag, data).v)| <= ParseBody(Python, tag, data).n
  {
    if tag == STR || tag == BYTES || KindOf(tag).Opaque? {
      BlobShrinks(data);
    }
  }

  lemma {:induction false} DictInsertShrinks(acc: seq<Entry>, k: bytes, v: Operand)
    ensures |EncodeEntries(Python, DictInsert(acc, k, v))|
         <= |EncodeEntries(Python, acc)| + |EncodeEntry(Python, Entry(k, v))|
  {
    var r := DictInsert(acc, k, v);
    EncodeEntriesSplits(Python, r, []);
    if acc != [] {
      EncodeEntriesSplits(Python, acc, []);
      if acc[0].key == k {
        assert r[1..] == acc[1..];
      } else {
        assert r[1..] == DictInsert(acc[1..], k, v);
        DictInsertShrinks(acc[1..], k, v);
      }
    }
  }

  lemma {:induction false} CollectShrinks(entries: seq<Entry>)
    ensures |EncodeEntries(Python, Collect(Python, entries))| <= |EncodeEntries(Python, entries)|
  {
    if entries != [] {
      var n := |entries| - 1;
      var e := entries[n];
      CollectShrinks(entries[..n]);
      DictInsertShrinks(Collect(Python, entries[..n]), e.key, e.value);
      assert entries == entries[..n] + [e];
      EncodeEntriesAppend(Python, entries[..n], e);
    }
  }

  /** What was read takes no more bytes to write than it took to read. */
  lemma {:induction false} ParseShrinks(data: bytes)
    requires Parse(Python, data).Got?
    ensures |Encode(Python, Parse(Python, data).v)| <= Parse(Python, data).n
    decreases |data|, 0
  {
    var tag, body := data[0], data[1..];
    ParseFromBody(Python, tag, body);
    assert data == [tag] + body;
    if tag == LIST {
      BodyOfList(Python, body);
      ListShrinks(body);
    } else if tag == MAP {
      BodyOfMap(Python, body);
      MapShrinks(body);
    } else {
      ScalarShrinks(tag, body);
    }
  }

  lemma {:induction false} ListShrinks(data: bytes)
    requires ParseList(Python, data).Got?
    ensures |Body(Python, ParseList(Python, data).v)| <= ParseList(Python, data).n
    decreases |data|, 3
  {
    var p := Varint.Decode(Python, data);
    Varint.DecodedIsMinimal(Python, data);
    ItemsShrink(p.v, data[p.n..]);
    BodySplits(Python, ParseList(Python, data).v, []);
  }

  lemma {:induction false} MapShrinks(data: bytes)
    requires ParseMap(Python, data).Got?
    ensures |Body(Python, ParseMap(Python, data).v)| <= ParseMap(Python, data).n
    decreases |data|, 3
  {
    var p := Varint.Decode(Python, data);
    Varint.DecodedIsMinimal(Python, data);
    EntriesShrink(p.v, data[p.n..]);
    var q := ParseEntries(Python, p.v, data[p.n..]);
    var r := Collect(Python, q.v);
    CollectShrinks(q.v);
    Varint.GroupsMonotone(4, |r|, p.v);
    BodySplits(Python, Map(r), []);
  }

  lemma {:induction false} ItemsShrink(count: nat, data: bytes)
    requires ParseItems(Python, count, data).Got?
    ensures |EncodeAll(Python, ParseItems(Python, count, data).v)| <= ParseItems(Python, count, data).n
    decreases |data|, 1, count
  {
    if count > 0 {
      var p := Parse(Python, data);
      ParseShrinks(data);
      ItemsShrink(count - 1, data[p.n..]);
      var q := ParseItems(Python, count - 1, data[p.n..]);
      var r := ParseItems(Python, count, data).v;
      assert r[0] == p.v && r[1..] == q.v;
      EncodeAllSplits(Python, r, []);
    }
  }

  lemma {:induction false} EntryShrinks(data: bytes)
    requires ParseEntry(Python, data).Got?
    ensures |EncodeEntry(Python, ParseEntry(Python, data).v)| <= ParseEntry(Python, data).n
    decreases |data|, 1
  {
    var k := ParseText(Python, data);
    BlobShrinks(data);
    ParseShrinks(data[k.n..]);
  }

  lemma {:induction false} EntriesShrink(count: nat, data: bytes)
    requires ParseEntries(Python, count, data).Got?
    ensures |EncodeEntries(Python, ParseEntries(Python, count, data).v)| <= ParseEntries(Python, count, data).n
    decreases |data|, 2, count
  {
    if count > 0 {
      var p := ParseEntry(Python, data);
      EntryShrinks(data);
      EntriesShrink(count - 1, data[p.n..]);
      var q := ParseEntries(Python, count - 1, data[p.n..]);
      var r := ParseEntries(Python, count, data).v;
      assert r[0] == p.v && r[1..] == q.v;
      EncodeEntriesSplits(Python, r, []);
    }
  }

  /** Every accepted byte string, over-long varints and repeated map keys
      included, re-encodes to a normal form: no longer than what was read, with
      no more nodes than bytes, and read back as the same value. */
  lemma {:induction false} Normalises(data: bytes, rest: bytes)
    requires Parse(Python, data).Got?
    ensures var r := Parse(Python, data); var s := Encode(Python, r.v);
      1 <= Nodes(r.v) <= |s| <= r.n <= |data| && Parse(Python, s + rest) == Got(r.v, |s|)
  {
    var op := Parse(Python, data).v;
    NodesFit(op);
    ParseShrinks(data);
    ParseReadable(Python, data);
    PortableFromParts(Python, op);
    RoundTrip(Python, op, rest);
  }

  // --- both readers on the same bytes ---

  /** A Python value as Rust holds it: the same, with maps in key order. */
  function Ordered(op: Operand): Operand
    decreases op
  {
    match op
    case List(items) => List(OrderedAll(items))
    case Map(entries) => Map(OrderedEntries(entries))
    case _ => op
  }

  function OrderedAll(ops: seq<Operand>): (r: seq<Operand>)
    ensures |r| == |ops|
    decreases ops
  {
    if ops == [] then [] else [Ordered(ops[0])] + OrderedAll(ops[1..])
  }

  function OrderedEntries(entries: seq<Entry>): seq<Entry>
    decreases entries
  {
    if entries == [] then []
    else
      var e := entries[|entries| - 1];
      TreeInsert(OrderedEntries(entries[..|entries| - 1]), e.key, Ordered(e.value))
  }

  function OrderedValues(entries: seq<Entry>): (r: seq<Entry>)
    ensures |r| == |entries|
    ensures forall i :: 0 <= i < |r| ==> r[i] == Entry(entries[i].key, Ordered(entries[i].value))
  {
    seq(|entries|, i requires 0 <= i < |entries| => Entry(entries[i].key, Ordered(entries[i].value)))
  }

  lemma {:induction false} InsertTwice(s: seq<Entry>, k: bytes, a: Operand, b: Operand)
    ensures TreeInsert(TreeInsert(s, k, a), k, b) == TreeInsert(s, k, b)
  {
    if s != [] && s[0].key != k && !Below(k, s[0].key) {
      var t := TreeInsert(s, k, a);
      assert t[0] == s[0] && t[1..] == TreeInsert(s[1..], k, a);
      InsertTwice(s[1..], k, a, b);
    }
  }

  lemma {:induction false} TreeInsertHead(s: seq<Entry>, k: bytes, v: Operand)
    requires s != [] && s[0].key != k && !Below(k, s[0].key)
    ensures TreeInsert(s, k, v)[0] == s[0] && TreeInsert(s, k, v)[1..] == TreeInsert(s[1..], k, v)
  {
  }

  /** Insertions under different keys commute. */
  lemma {:induction false} InsertsCommute(s: seq<Entry>, k: bytes, a: Operand, l: bytes, b: Operand)
    requires Below(k, l)
    ensures TreeInsert(TreeInsert(s, k, a), l, b) == TreeInsert(TreeInsert(s, l, b), k, a)
  {
    if s == [] || s[0].key == k || Below(k, s[0].key) {
      InsertsCommuteAtFront(s, k, a, l, b);
    } else {
      var h := s[0].key;
      BelowTotal(h, k);
      BelowTransitive(h, k, l);
      BelowAsymmetric(h, k);
      BelowAsymmetric(h, l);
      TreeInsertHead(s, k, a);
      TreeInsertHead(s, l, b);
      var x, y := TreeInsert(s, k, a), TreeInsert(s, l, b);
      InsertsCommute(s[1..], k, a, l, b);
      assert TreeInsert(x, l, b) == [s[0]] + TreeInsert(x[1..], l, b);
      assert TreeInsert(y, k, a) == [s[0]] + TreeInsert(y[1..], k, a);
    }
  }

  lemma {:induction false} InsertsCommuteAtFront(s: seq<Entry>, k: bytes, a: Operand, l: bytes, b: Operand)
    requires Below(k, l) && (s == [] || s[0].key == k || Below(k, s[0].key))
    ensures TreeInsert(TreeInsert(s, k, a), l, b) == TreeInsert(TreeInsert(s, l, b), k, a)
  {
    BelowAsymmetric(k, l);
    var x, y := TreeInsert(s, k, a), TreeInsert(s, l, b);
    if s == [] {
      assert x == [Entry(k, a)] && y == [Entry(l, b)];
    } else if s[0].key == k {
      assert x == [Entry(k, a)] + s[1..];
      TreeInsertHead(x, l, b);
      TreeInsertHead(s, l, b);
      assert TreeInsert(x, l, b) == [Entry(k, a)] + TreeInsert(s[1..], l, b);
    } else {
      assert x == [Entry(k, a)] + s;
      TreeInsertHead(x, l, b);
      assert x[1..] == s;
      assert TreeInsert(x, l, b) == [Entry(k, a)] + y;
      TreeInsertFirstKey(s, l, b);
      BelowAsymmetric(k, y[0].key);
    }
  }

  lemma {:induction false} TreeInsertFirstKey(s: seq<Entry>, k: bytes, v: Operand)
    requires s != []
    ensures TreeInsert(s, k, v) != [] && TreeInsert(s, k, v)[0].key in {k, s[0].key}
  {
  }

  lemma {:induction false} InsertsCommuteAny(s: seq<Entry>, k: bytes, a: Operand, l: bytes, b: Operand)
    requires k != l
    ensures TreeInsert(TreeInsert(s, k, a), l, b) == TreeInsert(TreeInsert(s, l, b), k, a)
  {
    BelowTotal(k, l);
    if Below(k, l) { InsertsCommute(s, k, a, l, b); } else { InsertsCommute(s, l, b, k, a); }
  }

  lemma {:induction false} ReplaceIsInsert(acc: seq<Entry>, i: nat, v: Operand)
    requires DistinctKeys(acc) && i < |acc|
    ensures OrderedEntries(acc[i := Entry(acc[i].key, v)]) == TreeInsert(OrderedEntries(acc), acc[i].key, Ordered(v))
  {
    var n := |acc| - 1;
    var k, pre, e := acc[i].key, acc[..n], acc[n];
    var s := OrderedEntries(pre);
    var acc' := acc[i := Entry(k, v)];
    if i == n {
      assert acc'[..n] == pre;
      InsertTwice(s, k, Ordered(e.value), Ordered(v));
    } else {
      assert acc'[..n] == pre[i := Entry(k, v)];
      ReplaceIsInsert(pre, i, v);
      assert e.key != k;
      InsertsCommuteAny(s, k, Ordered(v), e.key, Ordered(e.value));
    }
  }

  /** Putting a key into a dict and then ordering it is inserting it in order. */
  lemma {:induction false} DictThenOrder(acc: seq<Entry>, k: bytes, v: Operand)
    requires DistinctKeys(acc)
    ensures OrderedEntries(DictInsert(acc, k, v)) == TreeInsert(OrderedEntries(acc), k, Ordered(v))
  {
    if HasKey(acc, k) {
      var i :| 0 <= i < |acc| && acc[i].key == k;
      DictInsertOld(acc, i, v);
      ReplaceIsInsert(acc, i, v);
    } else {
      DictInsertNew(acc, k, v);
      assert (acc + [Entry(k, v)])[..|acc|] == acc;
    }
  }

  lemma {:induction false} CollectThenOrder(entries: seq<Entry>)
    ensures Collect(Rust, OrderedValues(entries)) == OrderedEntries(Collect(Python, entries))
  {
    if entries != [] {
      var n := |entries| - 1;
      var e, acc := entries[n], Collect(Python, entries[..n]);
      CollectThenOrder(entries[..n]);
      assert OrderedValues(entries)[..n] == OrderedValues(entries[..n]);
      CollectDistinct(entries[..n]);
      DictThenOrder(acc, e.key, e.value);
    }
  }

  lemma {:induction false} CollectDistinct(entries: seq<Entry>)
    ensures DistinctKeys(Collect(Python, entries))
  {
    if entries != [] {
      var n := |entries| - 1;
      CollectDistinct(entries[..n]);
      DictInsertDistinct(Collect(Python, entries[..n]), entries[n].key, entries[n].value);
    }
  }

  function OrderedResult(r: Parsed<Operand>): Parsed<Operand> {
    if r.Got? then Got(Ordered(r.v), r.n) else r
  }

  lemma {:induction false} ScalarAgrees(tag: byte, data: bytes)
    requires tag != LIST && tag != MAP && ParseBody(Python, tag, data).Got?
    ensures ParseBody(Rust, tag, data) == OrderedResult(ParseBody(Python, tag, data))
  {
    Varint.LangsAgree(data);
  }

  /** Whatever Python accepts, Rust accepts: the same value with its maps in
      key order, from the same number of bytes. */
  lemma {:induction false} RustReadsWhatPythonReads(data: bytes)
    requires Parse(Python, data).Got?
    ensures Parse(Rust, data) == OrderedResult(Parse(Python, data))
    decreases |data|, 0
  {
    var tag, body := data[0], data[1..];
    ParseFromBody(Python, tag, body);
    ParseFromBody(Rust, tag, body);
    assert data == [tag] + body;
    if tag == LIST {
      BodyOfList(Python, body);
      BodyOfList(Rust, body);
      ListAgrees(body);
    } else if tag == MAP {
      BodyOfMap(Python, body);
      BodyOfMap(Rust, body);
      MapAgrees(body);
    } else {
      ScalarAgrees(tag, body);
    }
  }

  lemma {:induction false} ListAgrees(data: bytes)
    requires ParseList(Python, data).Got?
    ensures ParseList(Rust, data) == OrderedResult(ParseList(Python, data))
    decreases |data|, 3
  {
    var p := Varint.Decode(Python, data);
    Varint.LangsAgree(data);
    ItemsAgree(p.v, data[p.n..]);
  }

  lemma {:induction false} MapAgrees(data: bytes)
    requires ParseMap(Python, data).Got?
    ensures ParseMap(Rust, data) == OrderedResult(ParseMap(Python, data))
    decreases |data|, 3
  {
    var p := Varint.Decode(Python, data);
    Varint.LangsAgree(data);
    EntriesAgree(p.v, data[p.n..]);
    CollectThenOrder(ParseEntries(Python, p.v, data[p.n..]).v);
  }

  lemma {:induction false} ItemsAgree(count: nat, data: bytes)
    requires ParseItems(Python, count, data).Got?
    ensures ParseItems(Rust, count, data)
         == Got(OrderedAll(ParseItems(Python, count, data).v), ParseItems(Python, count, data).n)
    decreases |data|, 1, count
  {
    if count > 0 {
      var p := Parse(Python, data);
      RustReadsWhatPythonReads(data);
      ItemsAgree(count - 1, data[p.n..]);
      var q := ParseItems(Python, count - 1, data[p.n..]);
      var r := ParseItems(Python, count, data).v;
      assert r[0] == p.v && r[1..] == q.v;
    }
  }

  lemma {:induction false} EntryAgrees(data: bytes)
    requires ParseEntry(Python, data).Got?
    ensures var e := ParseEntry(Python, data);
      ParseEntry(Rust, data) == Got(Entry(e.v.key, Ordered(e.v.value)), e.n)
    decreases |data|, 1
  {
    var k := ParseText(Python, data);
    Varint.LangsAgree(data);
    RustReadsWhatPythonReads(data[k.n..]);
  }

  lemma {:induction false} EntriesAgree(count: nat, data: bytes)
    requires ParseEntries(Python, count, data).Got?
    ensures ParseEntries(Rust, count, data)
         == Got(OrderedValues(ParseEntries(Python, count, data).v), ParseEntries(Python, count, data).n)
    decreases |data|, 2, count
  {
    if count > 0 {
      var p := ParseEntry(Python, data);
      assert ParseEntry(Rust, data) == Got(Entry(p.v.key, Ordered(p.v.value)), p.n) by { EntryAgrees(data); }
      var q := ParseEntries(Python, count - 1, data[p.n..]);
      assert ParseEntries(Rust, count - 1, data[p.n..]) == Got(OrderedValues(q.v), q.n) by {
        EntriesAgree(count - 1, data[p.n..]);
      }
      OrderedValuesCons(p.v, q.v);
    }
  }

  lemma {:induction false} OrderedValuesCons(e: Entry, entries: seq<Entry>)
    ensures OrderedValues([e] + entries) == [Entry(e.key, Ordered(e.value))] + OrderedValues(entries)
  {
  }

  /** Rust reads an unassigned tag as Null, which Python rejects. */
  lemma {:induction false} RustReadsUnassignedTags(tag: byte, rest: bytes)
    requires KindOf(tag).Unassigned?
    ensures Parse(Rust, [tag] + rest) == Got(Null, 1)
    ensures Parse(Python, [tag] + rest) == Bad(UnknownTag)
  {
  }

  // --- what the two encoders share ---

  /** On trees free of vendor operands, with counts and lengths below
      2^32, the two encoders write the same bytes. */
  lemma {:induction false} EncodersAgree(op: Operand)
    requires All(VendorFree, op) && All(Narrow, op)
    ensures Encode(Rust, op) == Encode(Python, op)
    decreases op, 0
  {
    match op {
      case List(items) =>
        EncodersAgreeAll(items);
        ContainerBodiesAgree(op);
      case Map(entries) =>
        EncodersAgreeEntries(entries);
        ContainerBodiesAgree(op);
      case _ => ScalarBodiesAgree(op);
    }
  }

  lemma {:induction false} ContainerBodiesAgree(op: Operand)
    requires NarrowNode(op)
    requires op.List? ==> EncodeAll(Rust, op.items) == EncodeAll(Python, op.items)
    requires op.Map? ==> EncodeEntries(Rust, op.entries) == EncodeEntries(Python, op.entries)
    ensures op.List? || op.Map? ==> Body(Rust, op) == Body(Python, op)
  {
    if op.List? { PrefixesAgree(|op.items|); } else if op.Map? { PrefixesAgree(|op.entries|); }
  }

  lemma {:induction false} PrefixesAgree(n: nat)
    requires n < U32
    ensures Prefix(Rust, n) == Prefix(Python, n)
  {
  }

  lemma {:induction false} ScalarBodiesAgree(op: Operand)
    requires !op.Vendor? && NarrowNode(op) && !op.List? && !op.Map?
    ensures Body(Rust, op) == Body(Python, op)
  {
  }

  lemma {:induction false} EncodersAgreeAll(ops: seq<Operand>)
    requires AllOf(VendorFree, ops) && AllOf(Narrow, ops)
    ensures EncodeAll(Rust, ops) == EncodeAll(Python, ops)
    decreases ops
  {
    if ops != [] {
      EncodersAgree(ops[0]);
      EncodersAgreeAll(ops[1..]);
    }
  }

  lemma {:induction false} EncodersAgreeEntries(entries: seq<Entry>)
    requires AllIn(VendorFree, entries) && AllIn(Narrow, entries)
    requires forall i :: 0 <= i < |entries| ==> |entries[i].key| < U32
    ensures EncodeEntries(Rust, entries) == EncodeEntries(Python, entries)
    decreases entries
  {
    if entries != [] {
      EncodersAgree(entries[0].value);
      EncodersAgreeEntries(entries[1..]);
    }
  }
}
