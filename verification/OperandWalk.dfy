/** What the Rust decoder meets on its way through the bytes: at every operand
    that it begins to read, the tag and the index it has computed for messages. */
module OperandWalk {
  import opened Wire
  import Varint
  import opened Operands
  import opened OperandLaws
  import opened OperandInterop

  /** TagsAssigned: no tag that is met is unassigned. IndexFits: every index that
      is computed fits 32 bits. */
  datatype Rule = TagsAssigned | IndexFits

  predicate VisitOk(rule: Rule, data: bytes, idx: nat) {
    match rule
    case TagsAssigned => data == [] || !KindOf(data[0]).Unassigned?
    case IndexFits => idx < U32
  }

  /** The index of child i of the operand with index idx. */
  function Child(idx: nat, i: nat): nat { idx * 1000 + i }

  /** The rule holds at every operand that is met, up to the first error. */
  predicate Walk(rule: Rule, data: bytes, idx: nat)
    decreases |data|, 1
  {
    VisitOk(rule, data, idx) && (data != [] ==> WalkBody(rule, KindOf(data[0]), data[1..], idx))
  }

  predicate WalkBody(rule: Rule, kind: Kind, data: bytes, idx: nat)
    decreases |data|, 4
  {
    match kind
    case Items =>
      var c := Varint.Decode(Rust, data);
      c.Got? ==> WalkItems(rule, c.v, data[c.n..], idx, 0)
    case Entries =>
      var c := Varint.Decode(Rust, data);
      c.Got? ==> WalkEntries(rule, c.v, data[c.n..], idx, 0)
    case _ => true
  }

  predicate WalkItems(rule: Rule, count: nat, data: bytes, idx: nat, i: nat)
    decreases |data|, 2, count
  {
    count == 0 ||
    (Walk(rule, data, Child(idx, i)) &&
     var p := Parse(Rust, data);
     p.Got? ==> WalkItems(rule, count - 1, data[p.n..], idx, i + 1))
  }

  predicate WalkEntry(rule: Rule, data: bytes, idx: nat)
    decreases |data|, 2
  {
    var k := ParseText(Rust, data);
    k.Got? ==> Walk(rule, data[k.n..], idx)
  }

  predicate WalkEntries(rule: Rule, count: nat, data: bytes, idx: nat, i: nat)
    decreases |data|, 3, count
  {
    count == 0 ||
    (WalkEntry(rule, data, Child(idx, i)) &&
     var p := ParseEntry(Rust, data);
     p.Got? ==> WalkEntries(rule, count - 1, data[p.n..], idx, i + 1))
  }

  // --- when the two readers agree ---

  lemma {:induction false} ScalarAgreesBack(tag: byte, data: bytes)
    requires tag != LIST && tag != MAP && !KindOf(tag).Unassigned? && ParseBody(Rust, tag, data).Got?
    ensures ParseBody(Python, tag, data).Got?
  {
    Varint.LangsAgree(data);
  }

  /** Python accepts what Rust accepts if no unassigned tag is met. */
  lemma {:induction false} AssignedIsRead(data: bytes, idx: nat)
    requires Parse(Rust, data).Got? && Walk(TagsAssigned, data, idx)
    ensures Parse(Python, data).Got?
    decreases |data|, 0
  {
    var tag, body := data[0], data[1..];
    assert data == [tag] + body;
    ParseFromBody(Python, tag, body);
    ParseFromBody(Rust, tag, body);
    if tag == LIST {
      BodyOfList(Python, body);
      BodyOfList(Rust, body);
      AssignedList(body, idx);
    } else if tag == MAP {
      BodyOfMap(Python, body);
      BodyOfMap(Rust, body);
      AssignedMap(body, idx);
    } else {
      ScalarAgreesBack(tag, body);
    }
  }

  lemma {:induction false} AssignedList(data: bytes, idx: nat)
    requires ParseList(Rust, data).Got? && WalkBody(TagsAssigned, Items, data, idx)
    ensures ParseList(Python, data).Got?
    decreases |data|, 3
  {
    var c := Varint.Decode(Rust, data);
    Varint.LangsAgree(data);
    AssignedItems(c.v, data[c.n..], idx, 0);
  }

  lemma {:induction false} AssignedMap(data: bytes, idx: nat)
    requires ParseMap(Rust, data).Got? && WalkBody(TagsAssigned, Entries, data, idx)
    ensures ParseMap(Python, data).Got?
    decreases |data|, 3
  {
    var c := Varint.Decode(Rust, data);
    Varint.LangsAgree(data);
    AssignedEntries(c.v, data[c.n..], idx, 0);
  }

  lemma {:induction false} AssignedItems(count: nat, data: bytes, idx: nat, i: nat)
    requires ParseItems(Rust, count, data).Got? && WalkItems(TagsAssigned, count, data, idx, i)
    ensures ParseItems(Python, count, data).Got?
    decreases |data|, 1, count
  {
    if count > 0 {
      var p := Parse(Rust, data);
      AssignedIsRead(data, Child(idx, i));
      RustReadsWhatPythonReads(data);
      AssignedItems(count - 1, data[p.n..], idx, i + 1);
    }
  }

  lemma {:induction false} AssignedEntry(data: bytes, idx: nat)
    requires ParseEntry(Rust, data).Got? && WalkEntry(TagsAssigned, data, idx)
    ensures ParseEntry(Python, data).Got?
    decreases |data|, 1
  {
    var k := ParseText(Rust, data);
    Varint.LangsAgree(data);
    AssignedIsRead(data[k.n..], idx);
  }

  lemma {:induction false} AssignedEntries(count: nat, data: bytes, idx: nat, i: nat)
    requires ParseEntries(Rust, count, data).Got? && WalkEntries(TagsAssigned, count, data, idx, i)
    ensures ParseEntries(Python, count, data).Got?
    decreases |data|, 2, count
  {
    if count > 0 {
      var p := ParseEntry(Rust, data);
      AssignedEntry(data, Child(idx, i));
      EntryAgrees(data);
      AssignedEntries(count - 1, data[p.n..], idx, i + 1);
    }
  }

  /** What Python accepts meets no unassigned tag. */
  lemma {:induction false} ReadIsAssigned(data: bytes, idx: nat)
    requires Parse(Python, data).Got?
    ensures Walk(TagsAssigned, data, idx)
    decreases |data|, 0
  {
    var tag, body := data[0], data[1..];
    assert data == [tag] + body;
    ParseFromBody(Python, tag, body);
    if tag == LIST {
      BodyOfList(Python, body);
      var c := Varint.Decode(Python, body);
      Varint.LangsAgree(body);
      ItemsAssigned(c.v, body[c.n..], idx, 0);
    } else if tag == MAP {
      BodyOfMap(Python, body);
      var c := Varint.Decode(Python, body);
      Varint.LangsAgree(body);
      EntriesAssigned(c.v, body[c.n..], idx, 0);
    }
  }

  lemma {:induction false} ItemsAssigned(count: nat, data: bytes, idx: nat, i: nat)
    requires ParseItems(Python, count, data).Got?
    ensures WalkItems(TagsAssigned, count, data, idx, i)
    decreases |data|, 1, count
  {
    if count > 0 {
      var p := Parse(Python, data);
      ReadIsAssigned(data, Child(idx, i));
      RustReadsWhatPythonReads(data);
      ItemsAssigned(count - 1, data[p.n..], idx, i + 1);
    }
  }

  lemma {:induction false} EntriesAssigned(count: nat, data: bytes, idx: nat, i: nat)
    requires ParseEntries(Python, count, data).Got?
    ensures WalkEntries(TagsAssigned, count, data, idx, i)
    decreases |data|, 2, count
  {
    if count > 0 {
      var p := ParseEntry(Python, data);
      EntryAssigned(data, Child(idx, i));
      EntryAgrees(data);
      EntriesAssigned(count - 1, data[p.n..], idx, i + 1);
    }
  }

  lemma {:induction false} EntryAssigned(data: bytes, idx: nat)
    requires ParseEntry(Python, data).Got?
    ensures WalkEntry(TagsAssigned, data, idx)
    decreases |data|, 1
  {
    var k := ParseText(Python, data);
    Varint.LangsAgree(data);
    ReadIsAssigned(data[k.n..], idx);
  }

  /** On all bytes, Python accepts exactly what Rust accepts without meeting an
      unassigned tag; Rust then takes as many bytes and gives the same value with
      its maps in key order. */
  lemma {:induction false} ReadersAgreeExactly(data: bytes)
    ensures Parse(Python, data).Got? <==> Parse(Rust, data).Got? && Walk(TagsAssigned, data, 0)
    ensures Parse(Python, data).Got? ==> Parse(Rust, data) == OrderedResult(Parse(Python, data))
  {
    if Parse(Python, data).Got? {
      RustReadsWhatPythonReads(data);
      ReadIsAssigned(data, 0);
    } else if Parse(Rust, data).Got? && Walk(TagsAssigned, data, 0) {
      AssignedIsRead(data, 0);
    }
  }

  /** The same for the operands of a payload. */
  lemma {:induction false} ItemsAgreeExactly(count: nat, data: bytes)
    ensures ParseItems(Python, count, data).Got?
       <==> ParseItems(Rust, count, data).Got? && WalkItems(TagsAssigned, count, data, 0, 0)
    ensures ParseItems(Python, count, data).Got? ==>
              ParseItems(Rust, count, data)
              == Got(OrderedAll(ParseItems(Python, count, data).v), ParseItems(Python, count, data).n)
  {
    if ParseItems(Python, count, data).Got? {
      ItemsAgree(count, data);
      ItemsAssigned(count, data, 0, 0);
    } else if ParseItems(Rust, count, data).Got? && WalkItems(TagsAssigned, count, data, 0, 0) {
      AssignedItems(count, data, 0, 0);
    }
  }

  // --- the indices of an encoded tree ---

  /** Every node of a tree has an index that fits. */
  predicate TreeFits(op: Operand, idx: nat)
    decreases op, 0
  {
    idx < U32 &&
    match op
    case List(items) => TreesFit(items, idx, 0)
    case Map(entries) => ValuesFit(entries, idx, 0)
    case _ => true
  }

  /** The same for a run of operands, the first of them child i. */
  predicate TreesFit(ops: seq<Operand>, idx: nat, i: nat)
    decreases ops
  {
    ops == [] || (TreeFits(ops[0], Child(idx, i)) && TreesFit(ops[1..], idx, i + 1))
  }

  predicate ValuesFit(entries: seq<Entry>, idx: nat, i: nat)
    decreases entries
  {
    entries == [] || (TreeFits(entries[0].value, Child(idx, i)) && ValuesFit(entries[1..], idx, i + 1))
  }

  lemma {:induction false} WalkFromBody(rule: Rule, tag: byte, body: bytes, idx: nat)
    ensures Walk(rule, [tag] + body, idx) <==> VisitOk(rule, [tag] + body, idx) && WalkBody(rule, KindOf(tag), body, idx)
  {
    assert ([tag] + body)[1..] == body;
  }

  lemma {:induction false} WalkCounted(rule: Rule, n: nat, p: bytes, t: bytes, idx: nat)
    requires Varint.Decode(Rust, p + t) == Got(n, |p|)
    ensures WalkBody(rule, Items, p + t, idx) <==> WalkItems(rule, n, t, idx, 0)
    ensures WalkBody(rule, Entries, p + t, idx) <==> WalkEntries(rule, n, t, idx, 0)
  {
    assert (p + t)[|p|..] == t;
  }

  /** The prefix of either language, read by Rust. */
  lemma {:induction false} PrefixRead(lang: Lang, n: nat, t: bytes)
    requires n < LIMIT
    ensures Varint.Decode(Rust, Prefix(lang, n) + t) == Got(n, |Prefix(lang, n)|)
  {
    PrefixRoundTrip(lang, n, t);
    Varint.LangsAgree(Prefix(lang, n) + t);
  }

  predicate Reads<T>(r: Parsed<T>, n: nat) { r.Got? && r.n == n }

  /** What either language writes, Rust reads to its end. */
  lemma {:induction false} OperandRead(lang: Lang, op: Operand, t: bytes)
    requires All(Portable(lang), op)
    ensures Reads(Parse(Rust, Encode(lang, op) + t), |Encode(lang, op)|)
  {
    RoundTrip(lang, op, t);
    if lang.Python? { RustReadsWhatPythonReads(Encode(lang, op) + t); }
  }

  lemma {:induction false} EntryRead(lang: Lang, e: Entry, t: bytes)
    requires All(Portable(lang), e.value) && ValidUtf8(e.key) && |e.key| < LIMIT
    ensures Reads(ParseEntry(Rust, EncodeEntry(lang, e) + t), |EncodeEntry(lang, e)|)
  {
    EntryRoundTrip(lang, e, t);
    if lang.Python? { EntryAgrees(EncodeEntry(lang, e) + t); }
  }

  lemma {:induction false} KeyRead(lang: Lang, key: bytes, t: bytes)
    requires ValidUtf8(key) && |key| < LIMIT
    ensures Reads(ParseText(Rust, Blob(lang, key) + t), |Blob(lang, key)|)
  {
    BlobRoundTrip(lang, key, t);
    Varint.LangsAgree(Blob(lang, key) + t);
  }

  /** Reading an encoded tree, an index overflows exactly when one does in the
      tree. */
  lemma {:induction false} EncodedWalk(lang: Lang, op: Operand, rest: bytes, idx: nat)
    requires All(Portable(lang), op)
    ensures Walk(IndexFits, Encode(lang, op) + rest, idx) <==> TreeFits(op, idx)
    decreases op, 1
  {
    var body := Body(lang, op) + rest;
    assert Encode(lang, op) + rest == [Tag(op)] + body;
    WalkFromBody(IndexFits, Tag(op), body, idx);
    if op.List? {
      PortableChildren(lang, op);
      BodySplits(lang, op, rest);
      ListWalk(lang, op.items, rest, idx);
    } else if op.Map? {
      PortableChildren(lang, op);
      BodySplits(lang, op, rest);
      MapWalk(lang, op.entries, rest, idx);
    } else {
      ScalarKind(op);
    }
  }

  lemma {:induction false} ListWalk(lang: Lang, items: seq<Operand>, rest: bytes, idx: nat)
    requires AllOf(Portable(lang), items) && |items| < LIMIT
    ensures WalkBody(IndexFits, Items, Prefix(lang, |items|) + (EncodeAll(lang, items) + rest), idx) <==> TreesFit(items, idx, 0)
    decreases items, 3
  {
    var t := EncodeAll(lang, items) + rest;
    PrefixRead(lang, |items|, t);
    WalkCounted(IndexFits, |items|, Prefix(lang, |items|), t, idx);
    ItemsWalk(lang, items, rest, idx, 0);
  }

  lemma {:induction false} MapWalk(lang: Lang, entries: seq<Entry>, rest: bytes, idx: nat)
    requires AllIn(Portable(lang), entries) && KeysReadable(entries) && |entries| < LIMIT
    ensures WalkBody(IndexFits, Entries, Prefix(lang, |entries|) + (EncodeEntries(lang, entries) + rest), idx)
       <==> ValuesFit(entries, idx, 0)
    decreases entries, 3
  {
    var t := EncodeEntries(lang, entries) + rest;
    PrefixRead(lang, |entries|, t);
    WalkCounted(IndexFits, |entries|, Prefix(lang, |entries|), t, idx);
    EntriesWalk(lang, entries, rest, idx, 0);
  }

  lemma {:induction false} ScalarKind(op: Operand)
    requires EncodableNode(op) && !op.List? && !op.Map?
    ensures !KindOf(Tag(op)).Items? && !KindOf(Tag(op)).Entries?
  {
  }

  lemma {:induction false} WalkItemsStep(rule: Rule, k: nat, h: bytes, t: bytes, idx: nat, i: nat)
    requires k > 0 && h != [] && Reads(Parse(Rust, h + t), |h|)
    ensures WalkItems(rule, k, h + t, idx, i)
       <==> Walk(rule, h + t, Child(idx, i)) && WalkItems(rule, k - 1, t, idx, i + 1)
  {
    assert (h + t)[|h|..] == t;
  }

  lemma {:induction false} ItemsWalk(lang: Lang, ops: seq<Operand>, rest: bytes, idx: nat, i: nat)
    requires AllOf(Portable(lang), ops)
    ensures WalkItems(IndexFits, |ops|, EncodeAll(lang, ops) + rest, idx, i) <==> TreesFit(ops, idx, i)
    decreases ops, 0
  {
    if ops != [] {
      var h, t := Encode(lang, ops[0]), EncodeAll(lang, ops[1..]) + rest;
      EncodeAllSplits(lang, ops, rest);
      OperandRead(lang, ops[0], t);
      EncodedWalk(lang, ops[0], t, Child(idx, i));
      WalkItemsStep(IndexFits, |ops|, h, t, idx, i);
      ItemsWalk(lang, ops[1..], rest, idx, i + 1);
    }
  }

  lemma {:induction false} WalkEntriesStep(rule: Rule, n: nat, h: bytes, t: bytes, idx: nat, i: nat)
    requires n > 0 && h != [] && Reads(ParseEntry(Rust, h + t), |h|)
    ensures WalkEntries(rule, n, h + t, idx, i)
       <==> WalkEntry(rule, h + t, Child(idx, i)) && WalkEntries(rule, n - 1, t, idx, i + 1)
  {
    assert (h + t)[|h|..] == t;
  }

  lemma {:induction false} WalkEntryStep(rule: Rule, k: bytes, t: bytes, idx: nat)
    requires Reads(ParseText(Rust, k + t), |k|)
    ensures WalkEntry(rule, k + t, idx) <==> Walk(rule, t, idx)
  {
    assert (k + t)[|k|..] == t;
  }

  lemma {:induction false} EntryWalk(lang: Lang, e: Entry, rest: bytes, idx: nat)
    requires All(Portable(lang), e.value) && ValidUtf8(e.key) && |e.key| < LIMIT
    ensures WalkEntry(IndexFits, EncodeEntry(lang, e) + rest, idx) <==> TreeFits(e.value, idx)
    decreases e, 2
  {
    var k, t := Blob(lang, e.key), Encode(lang, e.value) + rest;
    Assoc(k, Encode(lang, e.value), rest);
    assert WalkEntry(IndexFits, k + t, idx) <==> Walk(IndexFits, t, idx) by {
      KeyRead(lang, e.key, t);
      WalkEntryStep(IndexFits, k, t, idx);
    }
    EncodedWalk(lang, e.value, rest, idx);
  }

  lemma {:induction false} EntriesWalk(lang: Lang, entries: seq<Entry>, rest: bytes, idx: nat, i: nat)
    requires AllIn(Portable(lang), entries) && KeysReadable(entries)
    ensures WalkEntries(IndexFits, |entries|, EncodeEntries(lang, entries) + rest, idx, i) <==> ValuesFit(entries, idx, i)
    decreases entries, 0
  {
    if entries != [] {
      var e, t := entries[0], EncodeEntries(lang, entries[1..]) + rest;
      EncodeEntriesSplits(lang, entries, rest);
      EntryRead(lang, e, t);
      EntryWalk(lang, e, t, Child(idx, i));
      WalkEntriesStep(IndexFits, |entries|, EncodeEntry(lang, e), t, idx, i);
      EntriesWalk(lang, entries[1..], rest, idx, i + 1);
    }
  }

  // --- unfolding, for loops ---

  lemma {:induction false} WalkItemsUnfold(rule: Rule, k: nat, data: bytes, idx: nat, i: nat)
    requires k > 0
    ensures var p := Parse(Rust, data);
      WalkItems(rule, k, data, idx, i)
      <==> Walk(rule, data, Child(idx, i)) && (p.Got? ==> WalkItems(rule, k - 1, data[p.n..], idx, i + 1))
  {
  }

  lemma {:induction false} WalkEntriesUnfold(rule: Rule, k: nat, data: bytes, idx: nat, i: nat)
    requires k > 0
    ensures var p := ParseEntry(Rust, data);
      WalkEntries(rule, k, data, idx, i)
      <==> WalkEntry(rule, data, Child(idx, i)) && (p.Got? ==> WalkEntries(rule, k - 1, data[p.n..], idx, i + 1))
  {
  }

  /** The first j of more operands. */
  lemma {:induction false} WalkFewer(rule: Rule, k: nat, data: bytes, idx: nat, i: nat, j: nat)
    requires WalkItems(rule, k, data, idx, i) && j <= k
    ensures WalkItems(rule, j, data, idx, i)
    decreases k
  {
    if j > 0 {
      var p := Parse(Rust, data);
      assert Walk(rule, data, Child(idx, i)) && (p.Got? ==> WalkItems(rule, k - 1, data[p.n..], idx, i + 1)) by {
        WalkItemsUnfold(rule, k, data, idx, i);
      }
      if p.Got? { WalkFewer(rule, k - 1, data[p.n..], idx, i + 1, j - 1); }
      assert WalkItems(rule, j, data, idx, i) by { WalkItemsUnfold(rule, j, data, idx, i); }
    }
  }
}
