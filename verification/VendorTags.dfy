/** A Rust packet that holds a vendor operand with a tag above 0x80 does not come
    back. The proof counts three kinds of bytes: what a reader takes in against
    the shortest encoding of what it returns, and what the Rust encoder writes
    against the same. */
module VendorTags {
  import opened Wire
  import Varint
  import opened Operands
  import opened OperandLaws
  import opened OperandReading
  import opened OperandInterop
  import opened ReadingLoops

  // --- counting bytes ---

  /** Bytes below 0x80, zero bytes, and bytes above 0x80. */
  datatype Tally = Tally(low: nat, zero: nat, high: nat)

  function Plus(a: Tally, b: Tally): Tally { Tally(a.low + b.low, a.zero + b.zero, a.high + b.high) }

  function One(b: byte): Tally {
    Tally(if b < 0x80 then 1 else 0, if b == 0 then 1 else 0, if b > 0x80 then 1 else 0)
  }

  /** Of the first n bytes of s. */
  function TallyTo(s: bytes, n: nat): Tally
    requires n <= |s|
    decreases n
  {
    if n == 0 then Tally(0, 0, 0) else Plus(TallyTo(s, n - 1), One(s[n - 1]))
  }

  function TallyOf(s: bytes): Tally { TallyTo(s, |s|) }

  lemma {:induction false} TallyPrefix(a: bytes, b: bytes, n: nat)
    requires n <= |a|
    ensures TallyTo(a + b, n) == TallyTo(a, n)
    decreases n
  {
    if n > 0 { TallyPrefix(a, b, n - 1); }
  }

  lemma {:induction false} TallySuffix(a: bytes, b: bytes, n: nat)
    requires n <= |b|
    ensures TallyTo(a + b, |a| + n) == Plus(TallyOf(a), TallyTo(b, n))
    decreases n
  {
    if n == 0 { TallyPrefix(a, b, |a|); } else { TallySuffix(a, b, n - 1); }
  }

  lemma {:induction false} TallyAdds(a: bytes, b: bytes)
    ensures TallyOf(a + b) == Plus(TallyOf(a), TallyOf(b))
  {
    TallySuffix(a, b, |b|);
  }

  lemma {:induction false} TallySingle(b: byte)
    ensures TallyOf([b]) == One(b)
  {
    assert TallyTo([b], 0) == Tally(0, 0, 0);
  }

  predicate Parts(a: bytes, b: bytes) { true }

  /** What the proofs use of a tally. They are stated for every function of this
      kind, so that they do not depend on how the bytes are counted. */
  ghost predicate Tallies(f: bytes -> Tally) {
    && (forall a, b {:trigger Parts(a, b)} :: Parts(a, b) ==> f(a + b) == Plus(f(a), f(b)))
    && (forall b :: f([b]) == One(b))
    && f([]) == Tally(0, 0, 0)
  }

  lemma {:induction false} TallyAppend(f: bytes -> Tally, a: bytes, b: bytes)
    requires Tallies(f)
    ensures f(a + b) == Plus(f(a), f(b))
  {
    assert Parts(a, b);
  }

  lemma {:induction false} TallyOne(f: bytes -> Tally, b: byte)
    requires Tallies(f)
    ensures f([b]) == One(b)
  {
  }

  /** More low bytes; or as many, and more zeros; or as many of both, and as many
      bytes above 0x80. */
  predicate Covers(read: Tally, shortest: Tally) {
    || read.low > shortest.low
    || (read.low == shortest.low && read.zero > shortest.zero)
    || read == shortest
  }

  // --- what a reader takes in covers the shortest encoding ---

  /** A varint has one byte below 0x80. One that is longer than it need be ends
      in a zero, which its shortest form does not have unless the value is 0, and
      then only bytes 0x80 were added. */
  lemma {:induction false} GroupsCovered(f: bytes -> Tally, i: nat, data: bytes)
    requires Tallies(f)
    requires i <= 4 && Varint.DecodeFrom(Rust, i, data).Got?
    ensures var r := Varint.DecodeFrom(Rust, i, data); var read := f(data[..r.n - i]);
      read.low == 1 && Covers(read, f(Varint.Groups(4 - i, r.v)))
    decreases 4 - i
  {
    var r, b := Varint.DecodeFrom(Rust, i, data), data[0];
    if b < 128 {
      assert data[..1] == [b];
      TallyOne(f, b);
    } else {
      var q := Varint.DecodeFrom(Rust, i + 1, data[1..]);
      var rest := data[1..][..q.n - (i + 1)];
      assert data[..r.n - i] == [b] + rest;
      GroupsCovered(f, i + 1, data[1..]);
      GroupCovered(f, b, rest, 4 - (i + 1), q.v);
    }
  }

  lemma {:induction false} GroupsFrom(k: nat, b: byte, v: nat)
    requires b >= 128 && k > 0
    ensures Varint.Groups(k + 1, b - 128 + 128 * v) == if v > 0 then [b] + Varint.Groups(k, v) else [b - 128]
    ensures Varint.Groups(k, 0) == [0]
  {
    var w := b - 128 + 128 * v;
    assert w % 128 == b - 128 && w / 128 == v;
  }

  lemma {:induction false} GroupCovered(f: bytes -> Tally, b: byte, rest: bytes, k: nat, v: nat)
    requires Tallies(f) && b >= 128 && k > 0 && f(rest).low == 1 && Covers(f(rest), f(Varint.Groups(k, v)))
    ensures f([b] + rest).low == 1 && Covers(f([b] + rest), f(Varint.Groups(k + 1, b - 128 + 128 * v)))
  {
    GroupsFrom(k, b, v);
    LongerCovered(f, b, rest, Varint.Groups(k, v));
  }

  lemma {:induction false} LongerCovered(f: bytes -> Tally, b: byte, rest: bytes, s: bytes)
    requires Tallies(f) && b >= 128 && f(rest).low == 1 && Covers(f(rest), f(s))
    ensures f([b] + rest).low == 1 && Covers(f([b] + rest), f([b] + s))
    ensures s == [0] ==> Covers(f([b] + rest), f([b - 128]))
  {
    TallyOne(f, b);
    TallyAppend(f, [b], rest);
    TallyAppend(f, [b], s);
    TallyOne(f, b - 128);
    TallyOne(f, 0);
  }

  lemma {:induction false} LowGroups(f: bytes -> Tally, k: nat, v: nat)
    requires Tallies(f)
    requires k > 0 && v < Varint.GroupBound(k)
    ensures f(Varint.Groups(k, v)).low == 1
    decreases k
  {
    assert Varint.GroupBound(k) == 128 * Varint.GroupBound(k - 1);
    if v > 0x7F {
      LowGroups(f, k - 1, v / 128);
      TallyOne(f, v % 128 + 128);
      TallyAppend(f, [v % 128 + 128], Varint.Groups(k - 1, v / 128));
    } else {
      TallyOne(f, v);
    }
  }

  lemma {:induction false} LowPrefix(f: bytes -> Tally, n: nat)
    requires Tallies(f)
    requires n < LIMIT
    ensures f(Prefix(Python, n)).low == 1
  {
    Varint.GroupBoundFour();
    LowGroups(f, 4, n);
  }

  lemma {:induction false} VarintCovered(f: bytes -> Tally, data: bytes)
    requires Tallies(f)
    requires Varint.Decode(Rust, data).Got?
    ensures var r := Varint.Decode(Rust, data); var read := f(data[..r.n]);
      read.low == 1 && Covers(read, f(Prefix(Python, r.v)))
  {
    GroupsCovered(f, 0, data);
  }

  /** Two pieces, one after the other. */
  lemma {:induction false} BothCovered(f: bytes -> Tally, data: bytes, m: nat, n: nat, a: bytes, b: bytes)
    requires Tallies(f)
    requires m + n <= |data| && Covers(f(data[..m]), f(a)) && Covers(f(data[m..][..n]), f(b))
    ensures Covers(f(data[..m + n]), f(a + b))
  {
    assert data[..m + n] == data[..m] + data[m..][..n];
    TallyAppend(f, data[..m], data[m..][..n]);
    TallyAppend(f, a, b);
  }

  lemma {:induction false} BlobCovered(f: bytes -> Tally, data: bytes)
    requires Tallies(f)
    requires ParseBlob(Rust, data).Got?
    ensures var r := ParseBlob(Rust, data); Covers(f(data[..r.n]), f(Blob(Python, r.v)))
  {
    var p := Varint.Decode(Rust, data);
    VarintCovered(f, data);
    assert data[p.n..][..p.v] == data[p.n..p.n + p.v];
    BothCovered(f, data, p.n, p.v, Prefix(Python, p.v), data[p.n..p.n + p.v]);
  }

  lemma {:induction false} FixedExact(l: Layout, s: bytes)
    requires |s| == l.width
    ensures PackFixed(l, UnpackFixed(l, s)) == s
  {
    ToFromBE(s);
  }

  lemma {:induction false} BufRefExact(s: bytes)
    requires |s| == 16
    ensures Body(Python, BufRef(FromBE(s[..8]), FromBE(s[8..12]), FromBE(s[12..16]))) == s
  {
    FixedExact(Layout(8, false), s[..8]);
    FixedExact(Layout(4, false), s[8..12]);
    FixedExact(Layout(4, false), s[12..16]);
    assert s[..8] + s[8..12] + s[12..16] == s;
  }

  lemma {:induction false} ScalarCovered(f: bytes -> Tally, tag: byte, data: bytes)
    requires Tallies(f)
    requires tag != LIST && tag != MAP && ParseBody(Rust, tag, data).Got?
    ensures var r := ParseBody(Rust, tag, data);
      Covers(f(data[..r.n]), f(Body(Python, r.v)))
    ensures var r := ParseBody(Rust, tag, data); Tag(r.v) == tag || (r.v == Null && tag < 0x80)
  {
    var r := ParseBody(Rust, tag, data);
    match KindOf(tag)
    case Number(l) => FixedExact(l, data[..l.width]);
    case Opaque => BlobCovered(f, data);
    case Unassigned => assert data[..0] == [];
    case Scalar =>
      if tag == STR || tag == BYTES {
        BlobCovered(f, data);
      } else if tag == BUF_REF {
        assert data[..16][..8] == data[..8] && data[..16][8..12] == data[8..12] && data[..16][12..16] == data[12..16];
        BufRefExact(data[..16]);
      } else {
        assert data[..r.n] == Body(Python, r.v);
      }
  }

  lemma {:induction false} EntryHasLow(f: bytes -> Tally, e: Entry)
    requires Tallies(f)
    requires |e.key| < LIMIT
    ensures f(EncodeEntry(Python, e)).low > 0
  {
    LowPrefix(f, |e.key|);
    TallyAppend(f, Prefix(Python, |e.key|), e.key);
    TallyAppend(f, Blob(Python, e.key), Encode(Python, e.value));
  }

  /** The tally of what is left of some entries, against that of all of them. */
  predicate Kept(left: Tally, all: Tally, none: bool) {
    if none then left == all else left.low < all.low
  }

  /** An entry that replaces another one leaves fewer low bytes. */
  lemma {:induction false} TreeInsertTally(f: bytes -> Tally, acc: seq<Entry>, k: bytes, v: Operand)
    requires Tallies(f)
    requires KeysReadable(acc)
    ensures var r := TreeInsert(acc, k, v);
      var all := Plus(f(EncodeEntries(Python, acc)), f(EncodeEntry(Python, Entry(k, v))));
      Kept(f(EncodeEntries(Python, r)), all, |r| == |acc| + 1)
  {
    var r, e := TreeInsert(acc, k, v), Entry(k, v);
    EntriesTally(f, r);
    if acc == [] {
      assert r[1..] == acc;
    } else {
      EntriesTally(f, acc);
      if acc[0].key == k {
        assert r[1..] == acc[1..];
        EntryHasLow(f, acc[0]);
      } else if Below(k, acc[0].key) {
        assert r[1..] == acc;
      } else {
        assert r[1..] == TreeInsert(acc[1..], k, v);
        TreeInsertTally(f, acc[1..], k, v);
      }
    }
  }

  lemma {:induction false} EntriesTally(f: bytes -> Tally, es: seq<Entry>)
    requires Tallies(f)
    ensures f(EncodeEntries(Python, es)) ==
            if es == [] then Tally(0, 0, 0)
            else Plus(f(EncodeEntry(Python, es[0])), f(EncodeEntries(Python, es[1..])))
  {
    if es != [] { TallyAppend(f, EncodeEntry(Python, es[0]), EncodeEntries(Python, es[1..])); }
  }

  lemma {:induction false} CollectTally(f: bytes -> Tally, raw: seq<Entry>)
    requires Tallies(f) && GoodEntries(Rust, raw)
    ensures var r := Collect(Rust, raw);
      Kept(f(EncodeEntries(Python, r)), f(EncodeEntries(Python, raw)), |r| == |raw|)
  {
    if raw != [] {
      var n := |raw| - 1;
      var acc, e := Collect(Rust, raw[..n]), raw[n];
      CollectTally(f, raw[..n]);
      CollectGood(Rust, raw[..n]);
      TreeInsertTally(f, acc, e.key, e.value);
      AppendTally(f, raw, n);
    }
  }

  lemma {:induction false} AppendTally(f: bytes -> Tally, raw: seq<Entry>, n: nat)
    requires Tallies(f) && |raw| == n + 1
    ensures f(EncodeEntries(Python, raw))
         == Plus(f(EncodeEntries(Python, raw[..n])), f(EncodeEntry(Python, Entry(raw[n].key, raw[n].value))))
  {
    assert raw == raw[..n] + [raw[n]];
    EncodeEntriesAppend(Python, raw[..n], raw[n]);
    TallyAppend(f, EncodeEntries(Python, raw[..n]), EncodeEntry(Python, raw[n]));
  }

  /** What the Rust reader takes in covers the shortest encoding of what it
      returns. */
  lemma {:induction false} ParseCovered(f: bytes -> Tally, data: bytes)
    requires Tallies(f)
    requires Parse(Rust, data).Got?
    ensures var r := Parse(Rust, data); Covers(f(data[..r.n]), f(Encode(Python, r.v)))
    decreases |data|, 0
  {
    var tag, body := data[0], data[1..];
    ParseFromBody(Rust, tag, body);
    assert data == [tag] + body;
    if tag == LIST {
      BodyOfList(Rust, body);
      ListCovered(f, body);
    } else if tag == MAP {
      BodyOfMap(Rust, body);
      MapCovered(f, body);
    } else {
      ScalarCovered(f, tag, body);
    }
    TagCovered(f, tag, body);
  }

  predicate BodyRead(f: bytes -> Tally, data: bytes, r: Parsed<Operand>) {
    r.Got? && r.n <= |data| ==> Covers(f(data[..r.n]), f(Body(Python, r.v)))
  }

  lemma {:induction false} TagCovered(f: bytes -> Tally, tag: byte, body: bytes)
    requires Tallies(f)
    requires var r := ParseBody(Rust, tag, body);
      && r.Got? && Covers(f(body[..r.n]), f(Body(Python, r.v)))
      && (Tag(r.v) == tag || (r.v == Null && tag < 0x80))
    ensures var r := ParseBody(Rust, tag, body);
      Covers(f(([tag] + body)[..1 + r.n]), f(Encode(Python, r.v)))
  {
    var r := ParseBody(Rust, tag, body);
    var data := [tag] + body;
    assert data[..1] == [tag] && data[1..] == body;
    TallyOne(f, tag);
    TallyOne(f, Tag(r.v));
    BothCovered(f, data, 1, r.n, [Tag(r.v)], Body(Python, r.v));
  }

  lemma {:induction false} ListCovered(f: bytes -> Tally, data: bytes)
    requires Tallies(f)
    requires ParseList(Rust, data).Got?
    ensures BodyRead(f, data, ParseList(Rust, data)) && ParseList(Rust, data).v.List?
    decreases |data|, 3
  {
    var p := Varint.Decode(Rust, data);
    VarintCovered(f, data);
    ItemsCovered(f, p.v, data[p.n..]);
    var q := ParseItems(Rust, p.v, data[p.n..]);
    BothCovered(f, data, p.n, q.n, Prefix(Python, p.v), EncodeAll(Python, q.v));
  }

  lemma {:induction false} MapParts(data: bytes) returns (p: Parsed<nat>, q: Parsed<seq<Entry>>)
    requires ParseMap(Rust, data).Got?
    ensures p == Varint.Decode(Rust, data) && p.Got? && p.v < LIMIT
    ensures q == ParseEntries(Rust, p.v, data[p.n..]) && q.Got? && GoodEntries(Rust, q.v)
    ensures ParseMap(Rust, data) == Got(Map(Collect(Rust, q.v)), p.n + q.n)
  {
    p := Varint.Decode(Rust, data);
    Varint.DecodedIsMinimal(Rust, data);
    EntriesReadable(Rust, p.v, data[p.n..]);
    q := ParseEntries(Rust, p.v, data[p.n..]);
  }

  lemma {:induction false} MapCovered(f: bytes -> Tally, data: bytes)
    requires Tallies(f)
    requires ParseMap(Rust, data).Got?
    ensures BodyRead(f, data, ParseMap(Rust, data)) && ParseMap(Rust, data).v.Map?
    decreases |data|, 3
  {
    var p, q := MapParts(data);
    EntriesCovered(f, p.v, data[p.n..]);
    CollectTally(f, q.v);
    CollectedCovered(f, data, p, q, Collect(Rust, q.v));
  }

  lemma {:induction false} CollectedCovered(
      f: bytes -> Tally, data: bytes, p: Parsed<nat>, q: Parsed<seq<Entry>>, r: seq<Entry>)
    requires Tallies(f) && p == Varint.Decode(Rust, data) && p.Got? && p.v < LIMIT
    requires q.Got? && p.n + q.n <= |data| && |r| <= |q.v| == p.v && EntriesRead(f, data[p.n..], q)
    requires Kept(f(EncodeEntries(Python, r)), f(EncodeEntries(Python, q.v)), |r| == |q.v|)
    ensures BodyRead(f, data, Got(Map(r), p.n + q.n))
  {
    VarintCovered(f, data);
    KeptCovered(f, data, p.n, q.n, p.v, |r|, EncodeEntries(Python, q.v), EncodeEntries(Python, r));
    MapBody(r);
  }

  lemma {:induction false} MapBody(r: seq<Entry>)
    ensures Body(Python, Map(r)) == Prefix(Python, |r|) + EncodeEntries(Python, r)
  {
  }

  lemma {:induction false} KeptCovered(
      f: bytes -> Tally, data: bytes, m: nat, n: nat, count: nat, left: nat, all: bytes, kept: bytes)
    requires Tallies(f) && m + n <= |data| && left <= count < LIMIT && Kept(f(kept), f(all), left == count)
    requires f(data[..m]).low == 1 && Covers(f(data[..m]), f(Prefix(Python, count)))
    requires Covers(f(data[m..][..n]), f(all))
    ensures Covers(f(data[..m + n]), f(Prefix(Python, left) + kept))
  {
    LowPrefix(f, left);
    assert data[..m + n] == data[..m] + data[m..][..n];
    TallyAppend(f, data[..m], data[m..][..n]);
    TallyAppend(f, Prefix(Python, left), kept);
  }

  predicate ItemsRead(f: bytes -> Tally, data: bytes, r: Parsed<seq<Operand>>) {
    r.Got? && r.n <= |data| ==> Covers(f(data[..r.n]), f(EncodeAll(Python, r.v)))
  }

  predicate EntriesRead(f: bytes -> Tally, data: bytes, r: Parsed<seq<Entry>>) {
    r.Got? && r.n <= |data| ==> Covers(f(data[..r.n]), f(EncodeEntries(Python, r.v)))
  }

  lemma {:induction false} ItemsCovered(f: bytes -> Tally, count: nat, data: bytes)
    requires Tallies(f)
    requires ParseItems(Rust, count, data).Got?
    ensures ItemsRead(f, data, ParseItems(Rust, count, data))
    decreases |data|, 1, count
  {
    if count > 0 {
      ItemsUnfold(Rust, count, data);
      var p := Parse(Rust, data);
      ParseCovered(f, data);
      ItemsCovered(f, count - 1, data[p.n..]);
      var q := ParseItems(Rust, count - 1, data[p.n..]);
      NextItemCovered(f, data, p.v, p.n, q.v, q.n);
    } else {
      assert data[..0] == [];
    }
  }

  lemma {:induction false} NextItemCovered(f: bytes -> Tally, data: bytes, op: Operand, m: nat, ops: seq<Operand>, n: nat)
    requires Tallies(f)
    requires m + n <= |data| && Covers(f(data[..m]), f(Encode(Python, op)))
    requires Covers(f(data[m..][..n]), f(EncodeAll(Python, ops)))
    ensures ItemsRead(f, data, Front([op], m, Got(ops, n)))
  {
    assert ([op] + ops)[1..] == ops;
    BothCovered(f, data, m, n, Encode(Python, op), EncodeAll(Python, ops));
  }

  lemma {:induction false} EntryParts(data: bytes) returns (k: Parsed<bytes>, v: Parsed<Operand>)
    requires ParseEntry(Rust, data).Got?
    ensures k == ParseBlob(Rust, data) && k.Got? && v == Parse(Rust, data[k.n..]) && v.Got?
    ensures ParseEntry(Rust, data) == Got(Entry(k.v, v.v), k.n + v.n)
  {
    k := ParseBlob(Rust, data);
    v := Parse(Rust, data[k.n..]);
  }

  lemma {:induction false} EntryCovered(f: bytes -> Tally, data: bytes)
    requires Tallies(f)
    requires ParseEntry(Rust, data).Got?
    ensures var r := ParseEntry(Rust, data); Covers(f(data[..r.n]), f(EncodeEntry(Python, r.v)))
    decreases |data|, 1
  {
    var k, v := EntryParts(data);
    BlobCovered(f, data);
    ParseCovered(f, data[k.n..]);
    BothCovered(f, data, k.n, v.n, Blob(Python, k.v), Encode(Python, v.v));
  }

  lemma {:induction false} NextEntryCovered(f: bytes -> Tally, data: bytes, e: Entry, m: nat, es: seq<Entry>, n: nat)
    requires Tallies(f)
    requires m + n <= |data| && Covers(f(data[..m]), f(EncodeEntry(Python, e)))
    requires Covers(f(data[m..][..n]), f(EncodeEntries(Python, es)))
    ensures EntriesRead(f, data, Front([e], m, Got(es, n)))
  {
    assert ([e] + es)[1..] == es;
    BothCovered(f, data, m, n, EncodeEntry(Python, e), EncodeEntries(Python, es));
  }

  lemma {:induction false} EntriesCovered(f: bytes -> Tally, count: nat, data: bytes)
    requires Tallies(f)
    requires ParseEntries(Rust, count, data).Got?
    ensures EntriesRead(f, data, ParseEntries(Rust, count, data))
    decreases |data|, 2, count
  {
    if count > 0 {
      EntriesUnfold(Rust, count, data);
      var p := ParseEntry(Rust, data);
      EntryCovered(f, data);
      EntriesCovered(f, count - 1, data[p.n..]);
      var q := ParseEntries(Rust, count - 1, data[p.n..]);
      NextEntryCovered(f, data, p.v, p.n, q.v, q.n);
    } else {
      assert data[..0] == [];
    }
  }

  // --- what the Rust encoder writes ---

  /** The Rust encoder adds only bytes 0x80 and above, and one above 0x80 for every
      vendor operand with such a tag. */
  predicate Adds(written: Tally, shortest: Tally, base: bool) {
    && written.low == shortest.low && written.zero == shortest.zero && written.high >= shortest.high
    && (!base ==> written.high > shortest.high)
  }

  lemma {:induction false} EncodeAdds(f: bytes -> Tally, op: Operand)
    requires Tallies(f)
    requires All(Small, op) && All(Encodable, op)
    ensures Adds(f(Encode(Rust, op)), f(Encode(Python, op)), All(BaseVendors, op))
    decreases op, 0
  {
    match op {
      case List(items) =>
        ItemsAdd(f, items);
        ListSplit(items);
        PrefixAdds(f, op, Prefix(Python, |items|), EncodeAll(Rust, items), EncodeAll(Python, items));
      case Map(entries) =>
        EntriesAdd(f, entries);
        MapSplit(entries);
        PrefixAdds(f, op, Prefix(Python, |entries|), EncodeEntries(Rust, entries), EncodeEntries(Python, entries));
      case Vendor(tag, data) => VendorAdds(f, tag, data);
      case _ => ScalarBodiesAgree(op);
    }
  }

  lemma {:induction false} ListSplit(items: seq<Operand>)
    requires |items| < LIMIT
    ensures var op, p := List(items), Prefix(Python, |items|);
      && Encode(Rust, op) == [LIST] + (p + EncodeAll(Rust, items))
      && Encode(Python, op) == [LIST] + (p + EncodeAll(Python, items))
  {
  }

  lemma {:induction false} MapSplit(entries: seq<Entry>)
    requires |entries| < LIMIT
    ensures var op, p := Map(entries), Prefix(Python, |entries|);
      && Encode(Rust, op) == [MAP] + (p + EncodeEntries(Rust, entries))
      && Encode(Python, op) == [MAP] + (p + EncodeEntries(Python, entries))
  {
  }

  lemma {:induction false} PrefixAdds(f: bytes -> Tally, op: Operand, p: bytes, written: bytes, shortest: bytes)
    requires Tallies(f)
    requires Encode(Rust, op) == [Tag(op)] + (p + written) && Encode(Python, op) == [Tag(op)] + (p + shortest)
    requires Adds(f(written), f(shortest), All(BaseVendors, op))
    ensures Adds(f(Encode(Rust, op)), f(Encode(Python, op)), All(BaseVendors, op))
  {
    TallyAppend(f, [Tag(op)], p + written);
    TallyAppend(f, [Tag(op)], p + shortest);
    TallyAppend(f, p, written);
    TallyAppend(f, p, shortest);
  }

  lemma {:induction false} VendorAdds(f: bytes -> Tally, tag: byte, data: bytes)
    requires Tallies(f)
    requires tag >= VENDOR_BASE && |data| < LIMIT
    ensures var op := Vendor(tag, data);
      Adds(f(Encode(Rust, op)), f(Encode(Python, op)), tag == VENDOR_BASE)
  {
    var p := Prefix(Python, |data|);
    VendorTally(f, p, tag, data);
    VendorSplit(p, tag, data);
  }

  lemma {:induction false} VendorSplit(p: bytes, tag: byte, data: bytes)
    requires |data| < LIMIT && p == Prefix(Python, |data|)
    ensures Encode(Rust, Vendor(tag, data)) == [tag] + (p + [tag] + data)
    ensures Encode(Python, Vendor(tag, data)) == [tag] + (p + data)
  {
  }

  lemma {:induction false} VendorTally(f: bytes -> Tally, p: bytes, tag: byte, data: bytes)
    requires Tallies(f)
    ensures f([tag] + (p + [tag] + data)) == Plus(f([tag] + (p + data)), One(tag))
  {
    TallyOne(f, tag);
    TallyAppend(f, [tag], p + [tag] + data);
    TallyAppend(f, [tag], p + data);
    TallyAppend(f, p + [tag], data);
    TallyAppend(f, p, [tag]);
    TallyAppend(f, p, data);
  }

  lemma {:induction false} BothAdd(f: bytes -> Tally, v: bytes, w: bytes, s: bytes, t: bytes, one: bool, two: bool)
    requires Tallies(f) && Adds(f(v), f(s), one) && Adds(f(w), f(t), two)
    ensures Adds(f(v + w), f(s + t), one && two)
  {
    TallyAppend(f, v, w);
    TallyAppend(f, s, t);
  }

  lemma {:induction false} ItemsAdd(f: bytes -> Tally, ops: seq<Operand>)
    requires Tallies(f)
    requires AllOf(Small, ops) && AllOf(Encodable, ops)
    ensures Adds(f(EncodeAll(Rust, ops)), f(EncodeAll(Python, ops)), AllOf(BaseVendors, ops))
    decreases ops
  {
    if ops != [] {
      var op, rest := ops[0], ops[1..];
      EncodeAdds(f, op);
      ItemsAdd(f, rest);
      BothAdd(f, Encode(Rust, op), EncodeAll(Rust, rest), Encode(Python, op), EncodeAll(Python, rest),
              All(BaseVendors, op), AllOf(BaseVendors, rest));
    }
  }

  lemma {:induction false} EntryAdds(f: bytes -> Tally, e: Entry, base: bool)
    requires Tallies(f) && |e.key| < LIMIT && Adds(f(Encode(Rust, e.value)), f(Encode(Python, e.value)), base)
    ensures Adds(f(EncodeEntry(Rust, e)), f(EncodeEntry(Python, e)), base)
  {
    var k := Blob(Python, e.key);
    assert Blob(Rust, e.key) == k;
    BothAdd(f, k, Encode(Rust, e.value), k, Encode(Python, e.value), true, base);
  }

  lemma {:induction false} EntriesAdd(f: bytes -> Tally, es: seq<Entry>)
    requires Tallies(f)
    requires AllIn(Small, es) && AllIn(Encodable, es) && forall i :: 0 <= i < |es| ==> |es[i].key| < LIMIT
    ensures Adds(f(EncodeEntries(Rust, es)), f(EncodeEntries(Python, es)), AllIn(BaseVendors, es))
    decreases es
  {
    if es != [] {
      var e, rest := es[0], es[1..];
      EncodeAdds(f, e.value);
      EntryAdds(f, e, All(BaseVendors, e.value));
      EntriesAdd(f, rest);
      BothAdd(f, EncodeEntry(Rust, e), EncodeEntries(Rust, rest), EncodeEntry(Python, e), EncodeEntries(Python, rest),
              All(BaseVendors, e.value), AllIn(BaseVendors, rest));
    }
  }

  lemma {:induction false} TallyTallies()
    ensures Tallies(TallyOf)
  {
    forall a, b: bytes | Parts(a, b)
      ensures TallyOf(a + b) == Plus(TallyOf(a), TallyOf(b))
    {
      TallyAdds(a, b);
    }
    forall b: byte
      ensures TallyOf([b]) == One(b)
    {
      TallySingle(b);
    }
  }

  /** A run of operands that is read back in full has no vendor tag above 0x80. */
  lemma {:induction false} ReadBackIsBase(ops: seq<Operand>)
    requires AllOf(Small, ops) && AllOf(Encodable, ops)
    requires ReadsItems(Rust, |ops|, EncodeAll(Rust, ops), ops, |EncodeAll(Rust, ops)|)
    ensures AllOf(BaseVendors, ops)
  {
    TallyTallies();
    var s := EncodeAll(Rust, ops);
    ItemsCovered(TallyOf, |ops|, s);
    assert s[..|s|] == s;
    ItemsAdd(TallyOf, ops);
  }
}
