/** The tagged operand format: one value type for both implementations, what
    each of them writes, and what each of them reads. */
module Operands {
  import opened Wire
  import Varint

  /** An operand tree. Strings and map keys are the UTF-8 bytes that carry
      them, and floats are their bit patterns. A map is the sequence of its
      entries in iteration order: insertion order for a Python dict, key order
      for a Rust BTreeMap. */
  datatype Operand =
    | Fixed(tag: byte, n: int)
    | Bool(b: bool)
    | Str(text: bytes)
    | Bytes(raw: bytes)
    | Uuid(id: bytes)
    | BufRef(buf: nat, offset: nat, length: nat)
    | List(items: seq<Operand>)
    | Map(entries: seq<Entry>)
    | Null
    | Vendor(vtag: byte, data: bytes)

  datatype Entry = Entry(key: bytes, value: Operand)

  const BOOL: byte := 0x10
  const STR: byte := 0x11
  const BYTES: byte := 0x12
  const UUID: byte := 0x13
  const HANDLE: byte := 0x14
  const REF: byte := 0x15
  const BUF_REF: byte := 0x16
  const LIST: byte := 0x17
  const MAP: byte := 0x18
  const NULL: byte := 0x19
  const TS_MS: byte := 0x1A
  const DURATION_MS: byte := 0x1B
  const VENDOR_BASE: byte := 0x80

  datatype Layout = Layout(width: nat, signed: bool)

  /** Width and signedness of the tags whose value is one big-endian number. */
  function FixedLayout(tag: byte): Option<Layout> {
    match tag
    case 0x01 => Some(Layout(1, true))
    case 0x02 => Some(Layout(2, true))
    case 0x03 => Some(Layout(4, true))
    case 0x04 => Some(Layout(8, true))
    case 0x05 => Some(Layout(1, false))
    case 0x06 => Some(Layout(2, false))
    case 0x07 => Some(Layout(4, false))
    case 0x08 => Some(Layout(8, false))
    case 0x09 => Some(Layout(4, false))
    case 0x0A => Some(Layout(8, false))
    case 0x14 => Some(Layout(8, false))
    case 0x15 => Some(Layout(2, false))
    case 0x1A => Some(Layout(8, true))
    case 0x1B => Some(Layout(4, false))
    case _ => None
  }

  /** How the bytes after a tag are read. */
  datatype Kind = Number(layout: Layout) | Scalar | Items | Entries | Opaque | Unassigned

  function KindOf(tag: byte): Kind {
    if FixedLayout(tag).Some? then Number(FixedLayout(tag).value)
    else if tag == LIST then Items
    else if tag == MAP then Entries
    else if tag >= VENDOR_BASE then Opaque
    else if tag in {BOOL, STR, BYTES, UUID, BUF_REF, NULL} then Scalar
    else Unassigned
  }

  predicate Fits(l: Layout, n: int) {
    if l.signed then FitsSigned(l.width, n) else 0 <= n < Pow256(l.width)
  }

  /** The packed number, or nothing if it does not fit. */
  function PackFixed(l: Layout, n: int): (s: bytes)
    ensures Fits(l, n) ==> |s| == l.width
  {
    if !Fits(l, n) then [] else ToBE(l.width, if l.signed then ToTwos(l.width, n) else n)
  }

  function UnpackFixed(l: Layout, s: bytes): (n: int)
    requires |s| == l.width
    ensures Fits(l, n)
  {
    if l.signed then FromTwos(l.width, FromBE(s)) else FromBE(s)
  }

  // --- maps ---

  /** Lexicographic order on bytes, which is the order of UTF-8 strings. */
  predicate Below(a: bytes, b: bytes) {
    b != [] && (a == [] || a[0] < b[0] || (a[0] == b[0] && Below(a[1..], b[1..])))
  }

  /** `result[key] = item` on a dict: a new key goes last, an old one keeps its
      place. */
  function DictInsert(entries: seq<Entry>, k: bytes, v: Operand): (r: seq<Entry>)
    ensures |r| <= |entries| + 1
  {
    if entries == [] then [Entry(k, v)]
    else if entries[0].key == k then [Entry(k, v)] + entries[1..]
    else [entries[0]] + DictInsert(entries[1..], k, v)
  }

  /** `BTreeMap::insert`. */
  function TreeInsert(entries: seq<Entry>, k: bytes, v: Operand): (r: seq<Entry>)
    ensures |r| <= |entries| + 1
  {
    if entries == [] then [Entry(k, v)]
    else if entries[0].key == k then [Entry(k, v)] + entries[1..]
    else if Below(k, entries[0].key) then [Entry(k, v)] + entries
    else [entries[0]] + TreeInsert(entries[1..], k, v)
  }

  function Insert(lang: Lang, entries: seq<Entry>, k: bytes, v: Operand): (r: seq<Entry>)
    ensures |r| <= |entries| + 1
  {
    if lang.Python? then DictInsert(entries, k, v) else TreeInsert(entries, k, v)
  }

  /** The map that results from inserting the entries one after the other. */
  function Collect(lang: Lang, entries: seq<Entry>): (r: seq<Entry>)
    ensures |r| <= |entries|
  {
    if entries == [] then []
    else
      var e := entries[|entries| - 1];
      Insert(lang, Collect(lang, entries[..|entries| - 1]), e.key, e.value)
  }

  predicate DistinctKeys(entries: seq<Entry>) {
    forall i, j :: 0 <= i < j < |entries| ==> entries[i].key != entries[j].key
  }

  predicate SortedKeys(entries: seq<Entry>) {
    forall i, j :: 0 <= i < j < |entries| ==> Below(entries[i].key, entries[j].key)
  }

  predicate KeysOk(lang: Lang, entries: seq<Entry>) {
    if lang.Python? then DistinctKeys(entries) else SortedKeys(entries)
  }

  // --- properties that hold at every node of a tree ---

  /** Values that the encoders can write: numbers in range, strings that have a
      UTF-8 form, 16-byte UUIDs, vendor tags of 0x80 and above. */
  predicate EncodableNode(op: Operand) {
    match op
    case Fixed(tag, n) => FixedLayout(tag).Some? && Fits(FixedLayout(tag).value, n)
    case Str(text) => ValidUtf8(text)
    case Uuid(id) => |id| == 16
    case BufRef(buf, offset, length) => buf < Pow256(8) && offset < Pow256(4) && length < Pow256(4)
    case Map(entries) => forall i :: 0 <= i < |entries| ==> ValidUtf8(entries[i].key)
    case Vendor(tag, _) => tag >= VENDOR_BASE
    case _ => true
  }

  /** Counts and lengths that a 4-byte varint can carry. */
  predicate SmallNode(op: Operand) {
    match op
    case Str(text) => |text| < LIMIT
    case Bytes(raw) => |raw| < LIMIT
    case List(items) => |items| < LIMIT
    case Map(entries) => |entries| < LIMIT && forall i :: 0 <= i < |entries| ==> |entries[i].key| < LIMIT
    case Vendor(_, data) => |data| < LIMIT
    case _ => true
  }

  /** Counts and lengths that 32 bits can carry. */
  predicate NarrowNode(op: Operand) {
    match op
    case Str(text) => |text| < U32
    case Bytes(raw) => |raw| < U32
    case List(items) => |items| < U32
    case Map(entries) => |entries| < U32 && forall i :: 0 <= i < |entries| ==> |entries[i].key| < U32
    case _ => true
  }

  /** Key b starts with key a and is at least 128 times as long. */
  predicate Stretches(a: bytes, b: bytes) { a != [] && 128 * |a| <= |b| && a <= b }

  predicate NoStretch(entries: seq<Entry>) {
    forall i, j :: 0 <= i < j < |entries| ==> !Stretches(entries[i].key, entries[j].key)
  }

  /** Encodable: the encoder accepts the value. Small: every count and length
      fits a varint. Narrow: it fits 32 bits. Maps: the maps are maps of that
      implementation. BaseVendors: every vendor operand has the tag 0x80.
      Stretchless: no map key stretches an earlier one. Readable:
      encodable, small and proper maps, which is what a reader can return.
      Portable: readable, and free of the vendor operands that Rust writes
      wrongly. */
  datatype Rule =
    | Encodable | Small | Narrow | Maps(lang: Lang) | VendorFree | BaseVendors | Stretchless | Readable(lang: Lang) | Portable(lang: Lang)

  predicate ReadableNode(lang: Lang, op: Operand) {
    EncodableNode(op) && SmallNode(op) && (op.Map? ==> KeysOk(lang, op.entries))
  }

  predicate Node(rule: Rule, op: Operand) {
    match rule
    case Encodable => EncodableNode(op)
    case Small => SmallNode(op)
    case Maps(lang) => op.Map? ==> KeysOk(lang, op.entries)
    case VendorFree => !op.Vendor?
    case Narrow => NarrowNode(op)
    case BaseVendors => op.Vendor? ==> op.vtag == VENDOR_BASE
    case Stretchless => op.Map? ==> NoStretch(op.entries)
    case Readable(lang) => ReadableNode(lang, op)
    case Portable(lang) => ReadableNode(lang, op) && (lang.Rust? ==> !op.Vendor?)
  }

  predicate All(rule: Rule, op: Operand)
    decreases op
  {
    Node(rule, op) &&
    match op
    case List(items) => forall i :: 0 <= i < |items| ==> All(rule, items[i])
    case Map(entries) => forall i :: 0 <= i < |entries| ==> All(rule, entries[i].value)
    case _ => true
  }

  predicate AllOf(rule: Rule, ops: seq<Operand>) {
    forall i :: 0 <= i < |ops| ==> All(rule, ops[i])
  }

  predicate AllIn(rule: Rule, entries: seq<Entry>) {
    forall i :: 0 <= i < |entries| ==> All(rule, entries[i].value)
  }

  // --- writing ---

  function Tag(op: Operand): byte {
    match op
    case Fixed(tag, _) => tag
    case Bool(_) => BOOL
    case Str(_) => STR
    case Bytes(_) => BYTES
    case Uuid(_) => UUID
    case BufRef(_, _, _) => BUF_REF
    case List(_) => LIST
    case Map(_) => MAP
    case Null => NULL
    case Vendor(tag, _) => tag
  }

  /** A length prefix. Rust narrows the length to 32 bits first. */
  function Prefix(lang: Lang, n: nat): (s: bytes)
    ensures 1 <= |s| <= 4
  {
    Varint.Encode(if lang.Rust? then n % U32 else n)
  }

  function Blob(lang: Lang, raw: bytes): bytes { Prefix(lang, |raw|) + raw }

  /** The value bytes after the tag, for a value that can be encoded. The Rust
      encoder repeats the tag of a vendor operand after its length. */
  function Body(lang: Lang, op: Operand): bytes
    decreases op, 0
  {
    match op
    case Fixed(tag, n) => if FixedLayout(tag).Some? then PackFixed(FixedLayout(tag).value, n) else []
    case Bool(b) => [if b then 1 else 0]
    case Str(text) => Blob(lang, text)
    case Bytes(raw) => Blob(lang, raw)
    case Uuid(id) => id
    case BufRef(buf, offset, length) =>
      PackFixed(Layout(8, false), buf) + PackFixed(Layout(4, false), offset) + PackFixed(Layout(4, false), length)
    case List(items) => Prefix(lang, |items|) + EncodeAll(lang, items)
    case Map(entries) => Prefix(lang, |entries|) + EncodeEntries(lang, entries)
    case Null => []
    case Vendor(tag, data) =>
      if lang.Rust? then Prefix(lang, |data|) + [tag] + data else Blob(lang, data)
  }

  function Encode(lang: Lang, op: Operand): (s: bytes)
    ensures |s| >= 1
    decreases op, 1
  {
    [Tag(op)] + Body(lang, op)
  }

  function EncodeAll(lang: Lang, ops: seq<Operand>): (s: bytes)
    ensures |s| >= |ops|
    decreases ops
  {
    if ops == [] then [] else Encode(lang, ops[0]) + EncodeAll(lang, ops[1..])
  }

  function EncodeEntry(lang: Lang, e: Entry): (s: bytes)
    ensures |s| >= 1
    decreases e, 2
  {
    Blob(lang, e.key) + Encode(lang, e.value)
  }

  function EncodeEntries(lang: Lang, entries: seq<Entry>): (s: bytes)
    ensures |s| >= |entries|
    decreases entries
  {
    if entries == [] then [] else EncodeEntry(lang, entries[0]) + EncodeEntries(lang, entries[1..])
  }

  // --- reading ---

  function ParseFixed(l: Layout, tag: byte, data: bytes): (r: Parsed<Operand>)
    ensures r.Got? ==> r.n <= |data|
  {
    if |data| < l.width then Bad(Truncated)
    else Got(Fixed(tag, UnpackFixed(l, data[..l.width])), l.width)
  }

  /** A length-prefixed byte string. */
  function ParseBlob(lang: Lang, data: bytes): (r: Parsed<bytes>)
    ensures r.Got? ==> r.n <= |data|
  {
    var p :- Varint.Decode(lang, data);
    if |data| < p.n + p.v then Bad(Truncated)
    else Got(data[p.n..p.n + p.v], p.n + p.v)
  }

  function ParseText(lang: Lang, data: bytes): (r: Parsed<bytes>)
    ensures r.Got? ==> r.n <= |data|
  {
    var p :- ParseBlob(lang, data);
    if ValidUtf8(p.v) then p else Bad(BadUtf8)
  }

  function ParseVendor(lang: Lang, tag: byte, data: bytes): (r: Parsed<Operand>)
    ensures r.Got? ==> r.n <= |data|
  {
    var p :- ParseBlob(lang, data);
    Got(Vendor(tag, p.v), p.n)
  }

  function ParseScalar(lang: Lang, tag: byte, data: bytes): (r: Parsed<Operand>)
    ensures r.Got? ==> r.n <= |data|
  {
    if tag == BOOL then
      if data == [] then Bad(Truncated) else if data[0] > 1 then Bad(BadBool) else Got(Bool(data[0] == 1), 1)
    else if tag == STR then var p :- ParseText(lang, data); Got(Str(p.v), p.n)
    else if tag == BYTES then var p :- ParseBlob(lang, data); Got(Bytes(p.v), p.n)
    else if tag == UUID then if |data| < 16 then Bad(Truncated) else Got(Uuid(data[..16]), 16)
    else if tag == BUF_REF then
      if |data| < 16 then Bad(Truncated)
      else Got(BufRef(FromBE(data[..8]), FromBE(data[8..12]), FromBE(data[12..16])), 16)
    else Got(Null, 0)
  }

  function ParseList(lang: Lang, data: bytes): (r: Parsed<Operand>)
    ensures r.Got? ==> r.n <= |data|
    decreases |data|, 0
  {
    var p :- Varint.Decode(lang, data);
    var q :- ParseItems(lang, p.v, data[p.n..]);
    Got(List(q.v), p.n + q.n)
  }

  function ParseMap(lang: Lang, data: bytes): (r: Parsed<Operand>)
    ensures r.Got? ==> r.n <= |data|
    decreases |data|, 0
  {
    var p :- Varint.Decode(lang, data);
    var q :- ParseEntries(lang, p.v, data[p.n..]);
    Got(Map(Collect(lang, q.v)), p.n + q.n)
  }

  /** The value after a tag. Rust reads an unassigned tag as Null. */
  function ParseBody(lang: Lang, tag: byte, data: bytes): (r: Parsed<Operand>)
    ensures r.Got? ==> r.n <= |data|
    decreases |data|, 1
  {
    match KindOf(tag)
    case Number(l) => ParseFixed(l, tag, data)
    case Scalar => ParseScalar(lang, tag, data)
    case Items => ParseList(lang, data)
    case Entries => ParseMap(lang, data)
    case Opaque => ParseVendor(lang, tag, data)
    case Unassigned => if lang.Rust? then Got(Null, 0) else Bad(UnknownTag)
  }

  /** One operand at the start of data, and how many bytes it took. */
  function Parse(lang: Lang, data: bytes): (r: Parsed<Operand>)
    ensures r.Got? ==> 1 <= r.n <= |data|
    decreases |data|, 2
  {
    if data == [] then Bad(Truncated)
    else
      var p :- ParseBody(lang, data[0], data[1..]);
      Got(p.v, 1 + p.n)
  }

  function ParseItems(lang: Lang, count: nat, data: bytes): (r: Parsed<seq<Operand>>)
    ensures r.Got? ==> r.n <= |data| && |r.v| == count <= r.n
    decreases |data|, 3, count
  {
    if count == 0 then Got([], 0)
    else
      var p :- Parse(lang, data);
      var q :- ParseItems(lang, count - 1, data[p.n..]);
      Got([p.v] + q.v, p.n + q.n)
  }

  function ParseEntry(lang: Lang, data: bytes): (r: Parsed<Entry>)
    ensures r.Got? ==> 1 <= r.n <= |data|
    decreases |data|, 3
  {
    var k :- ParseText(lang, data);
    var v :- Parse(lang, data[k.n..]);
    Got(Entry(k.v, v.v), k.n + v.n)
  }

  /** Map entries as they stand on the wire, repeated keys included. */
  function ParseEntries(lang: Lang, count: nat, data: bytes): (r: Parsed<seq<Entry>>)
    ensures r.Got? ==> r.n <= |data| && |r.v| == count
    decreases |data|, 4, count
  {
    if count == 0 then Got([], 0)
    else
      var p :- ParseEntry(lang, data);
      var q :- ParseEntries(lang, count - 1, data[p.n..]);
      Got([p.v] + q.v, p.n + q.n)
  }

  /** `decode_symbols`: operands until the data is used up. */
  function ParseAll(lang: Lang, data: bytes): (r: Parsed<seq<Operand>>)
    ensures r.Got? ==> r.n == |data|
    decreases |data|
  {
    if data == [] then Got([], 0)
    else
      var p :- Parse(lang, data);
      var q :- ParseAll(lang, data[p.n..]);
      Got([p.v] + q.v, p.n + q.n)
  }
}
