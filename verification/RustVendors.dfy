/** A Rust packet that holds a vendor operand anywhere does not come back: the
    repeated tag leaves one byte over, and nothing takes it in. */
module RustVendors {
  import opened Wire
  import Varint
  import opened Operands
  import opened OperandLaws
  import opened OperandReading
  import opened ReadingLoops

  /** The last byte has its top bit set, as a vendor tag does. */
  predicate HighEnd(s: bytes) { s != [] && s[|s| - 1] >= 0x80 }

  /** What the Rust encoder can be given and a reader can return. */
  predicate Sound(op: Operand) { All(Readable(Rust), op) && All(Stretchless, op) }

  predicate AllSound(ops: seq<Operand>) { AllOf(Readable(Rust), ops) && AllOf(Stretchless, ops) }

  lemma {:induction false} FreeIsPortable(op: Operand)
    requires All(Readable(Rust), op) && All(VendorFree, op)
    ensures All(Portable(Rust), op)
  {
    PortableFromParts(Rust, op);
  }

  // --- one vendor operand ---

  lemma {:induction false} EndAfter(a: bytes, b: bytes)
    requires HighEnd(b)
    ensures HighEnd(a + b)
  {
  }

  lemma {:induction false} LastOver(h: bytes, t: bytes)
    requires h != []
    ensures (h + t)[|h| - 1..] == [h[|h| - 1]] + t
    ensures h + t == h[..|h| - 1] + ([h[|h| - 1]] + t)
  {
  }

  lemma {:induction false} ShiftedAllTag(tag: byte, data: bytes, i: nat)
    requires i < |data| && data == ([tag] + data)[..|data|]
    ensures data[i] == tag
  {
    assert data[i] == ([tag] + data)[..|data|][i] == ([tag] + data)[i];
    if i > 0 { ShiftedAllTag(tag, data, i - 1); }
  }

  lemma {:induction false} ShiftedEnd(tag: byte, data: bytes)
    requires tag >= 0x80 && data == ([tag] + data)[..|data|]
    ensures HighEnd([tag] + data)
  {
    if data != [] { ShiftedAllTag(tag, data, |data| - 1); }
  }

  /** If a vendor operand reads as itself, one byte is left over, and it is a tag. */
  lemma {:induction false} VendorLeftover(tag: byte, data: bytes, rest: bytes, n: nat)
    requires tag >= VENDOR_BASE && |data| < LIMIT
    requires Parse(Rust, Encode(Rust, Vendor(tag, data)) + rest) == Got(Vendor(tag, data), n)
    ensures n == |Encode(Rust, Vendor(tag, data))| - 1 && HighEnd(Encode(Rust, Vendor(tag, data)))
  {
    var p := Prefix(Rust, |data|);
    var seen, lost := ([tag] + data)[..|data|], ([tag] + data)[|data|..];
    assert seen + lost == [tag] + data;
    VendorBytes(tag, data, p, seen, lost, rest);
    VendorRoundTrip(Rust, tag, seen, lost + rest);
    ParseFromBody(Rust, tag, Blob(Rust, seen) + (lost + rest));
    ShiftedEnd(tag, data);
    EndAfter([tag] + p, [tag] + data);
  }

  lemma {:induction false} VendorBytes(tag: byte, data: bytes, p: bytes, seen: bytes, lost: bytes, rest: bytes)
    requires tag >= VENDOR_BASE && p == Prefix(Rust, |data|) && |seen| == |data| && seen + lost == [tag] + data
    ensures var s := Encode(Rust, Vendor(tag, data));
      && s == [tag] + p + ([tag] + data) && |s| == 2 + |p| + |data|
      && s + rest == [tag] + (Blob(Rust, seen) + (lost + rest))
  {
  }

  // --- after a left-over byte ---

  /** The next operand reads as itself only if it is an empty vendor operand with
      tag 0x80, and then its own repeated tag is left over. */
  lemma {:induction false} OperandAfterStray(t: byte, op: Operand, rest: bytes, n: nat)
    requires t >= 0x80 && Parse(Rust, [t] + (Encode(Rust, op) + rest)) == Got(op, n)
    ensures op == Vendor(0x80, []) && t == 0x80 && n == 3 && Encode(Rust, op) == [0x80, 0, 0x80]
  {
    var s := Encode(Rust, op) + rest;
    ParseReadable(Rust, [t] + s);
    ParseFromBody(Rust, t, s);
    BodyOfVendor(Rust, t, s);
    var d := op.data;
    var p, tail := Prefix(Rust, |d|), [t] + d + rest;
    NotNarrowed(|d|);
    Assoc([t], p + [t] + d, rest);
    Assoc(p, [t], d);
    Assoc(p, [t] + d, rest);
    assert p == Varint.Encode(|d|);
    Varint.StrayGroup(Rust, t, |d|, tail);
    assert |d| == t - 128 + 128 * |d|;
    assert d == [] && t == 0x80;
    assert p == [0];
  }

  lemma {:induction false} NotNarrowed(n: nat)
    requires n < LIMIT
    ensures n % U32 == n
  {
  }

  // --- maps ---

  lemma {:induction false} PrefixNotBelow(a: bytes, b: bytes)
    requires a <= b
    ensures !Below(b, a)
  {
    if a != [] { PrefixNotBelow(a[1..], b[1..]); }
  }

  lemma {:induction false} TreeInsertGrows(acc: seq<Entry>, k: bytes, v: Operand)
    ensures Entry(k, v) in TreeInsert(acc, k, v)
    ensures |TreeInsert(acc, k, v)| == |acc| + 1 ==> forall e :: e in acc ==> e in TreeInsert(acc, k, v)
  {
    if acc != [] && acc[0].key != k && !Below(k, acc[0].key) {
      TreeInsertGrows(acc[1..], k, v);
      assert forall e :: e in acc ==> e == acc[0] || e in acc[1..];
    }
  }

  /** A map with as many entries as were read holds every entry that was read. */
  lemma {:induction false} CollectKeeps(raw: seq<Entry>)
    requires |Collect(Rust, raw)| == |raw|
    ensures forall e :: e in raw ==> e in Collect(Rust, raw)
  {
    if raw != [] {
      var n := |raw| - 1;
      var e := raw[n];
      CollectKeeps(raw[..n]);
      TreeInsertGrows(Collect(Rust, raw[..n]), e.key, e.value);
      assert forall x :: x in raw ==> x == e || x in raw[..n];
    }
  }

  /** A stray byte in front of an entry makes its key 128 times as long, so that
      the key that is read stretches the one that was written. */
  lemma {:induction false} EntryAfterStray(t: byte, e: Entry, rest: bytes)
    requires t >= 0x80 && e.key != [] && |e.key| < LIMIT
    requires ParseEntry(Rust, [t] + (EncodeEntry(Rust, e) + rest)).Got?
    ensures Stretches(e.key, ParseEntry(Rust, [t] + (EncodeEntry(Rust, e) + rest)).v.key)
  {
    var k, p := e.key, Prefix(Rust, |e.key|);
    var tail := k + (Encode(Rust, e.value) + rest);
    NotNarrowed(|k|);
    Assoc(p, k, Encode(Rust, e.value));
    Assoc(p, k + Encode(Rust, e.value), rest);
    Assoc(k, Encode(Rust, e.value), rest);
    Varint.StrayGroup(Rust, t, |k|, tail);
    assert p == Varint.Encode(|k|) && k <= tail;
    var data := [t] + (p + tail);
    assert Varint.Decode(Rust, data) == Got(t - 128 + 128 * |k|, 1 + |p|);
    TextAfterStray(t, p, k, tail);
  }

  lemma {:induction false} TextAfterStray(t: byte, p: bytes, k: bytes, tail: bytes)
    requires t >= 0x80 && k != [] && k <= tail && ParseText(Rust, [t] + (p + tail)).Got?
    requires Varint.Decode(Rust, [t] + (p + tail)) == Got(t - 128 + 128 * |k|, 1 + |p|)
    ensures Stretches(k, ParseText(Rust, [t] + (p + tail)).v)
  {
    var key := ParseText(Rust, [t] + (p + tail)).v;
    assert ([t] + (p + tail))[1 + |p|..] == tail;
    assert key == tail[..|key|];
  }

  predicate SoundMap(all: seq<Entry>) {
    AllIn(Readable(Rust), all) && AllIn(Stretchless, all) && KeysReadable(all) && SortedKeys(all) && NoStretch(all)
  }

  lemma {:induction false} NoEntryAfterStray(all: seq<Entry>, j: nat, t: byte, tail: bytes)
    requires SoundMap(all) && 0 < j < |all| && t >= 0x80
    ensures var r := ParseEntry(Rust, [t] + (EncodeEntry(Rust, all[j]) + tail));
      r.Got? ==> r.v !in all
  {
    var key := all[j].key;
    var r := ParseEntry(Rust, [t] + (EncodeEntry(Rust, all[j]) + tail));
    assert Below(all[j - 1].key, key);
    if r.Got? && r.v in all {
      EntryAfterStray(t, all[j], tail);
      var q :| 0 <= q < |all| && all[q] == r.v;
      if q < j {
        PrefixNotBelow(key, all[q].key);
        assert false;
      }
    }
  }

  lemma {:induction false} SameKeySameEntry(all: seq<Entry>, j: nat, x: Entry)
    requires SortedKeys(all) && j < |all| && x in all && x.key == all[j].key
    ensures x == all[j]
  {
    SortedIsDistinct(all);
    var q :| 0 <= q < |all| && all[q] == x;
    if q != j { assert false; }
  }

  lemma {:induction false} EntryLeftover(all: seq<Entry>, j: nat, tail: bytes, p: Parsed<Entry>)
    requires SoundMap(all) && j < |all| && !All(VendorFree, all[j].value)
    requires p == ParseEntry(Rust, EncodeEntry(Rust, all[j]) + tail) && p.Got? && p.v in all
    ensures p.n == |EncodeEntry(Rust, all[j])| - 1 && HighEnd(EncodeEntry(Rust, all[j]))
    decreases all, 0
  {
    var e := all[j];
    var k, v := Blob(Rust, e.key), Encode(Rust, e.value);
    assert EncodeEntry(Rust, e) + tail == k + (v + tail);
    BlobRoundTrip(Rust, e.key, v + tail);
    ParseEntryStep(Rust, e.key, k, v + tail);
    SameKeySameEntry(all, j, p.v);
    OperandLeftover(e.value, tail, p.n - |k|);
    assert EncodeEntry(Rust, e)[|k| + |v| - 1] == v[|v| - 1];
  }

  /** The first of the entries that are still to be read, and the others. */
  lemma {:induction false} SplitRead(all: seq<Entry>, j: nat, rest: bytes, q: Parsed<seq<Entry>>)
    returns (p: Parsed<Entry>, q': Parsed<seq<Entry>>)
    requires j < |all| && q == ParseEntries(Rust, |all| - j, EncodeEntries(Rust, all[j..]) + rest) && q.Got?
    ensures var h, es := EncodeEntry(Rust, all[j]), EncodeEntries(Rust, all[j + 1..]);
      && EncodeEntries(Rust, all[j..]) == h + es
      && p == ParseEntry(Rust, h + (es + rest)) && p.Got? && p.v in q.v
      && q' == ParseEntries(Rust, |all| - (j + 1), (h + (es + rest))[p.n..]) && q'.Got?
      && q.n == p.n + q'.n && forall x :: x in q'.v ==> x in q.v
  {
    var h, es := EncodeEntry(Rust, all[j]), EncodeEntries(Rust, all[j + 1..]);
    assert all[j..][0] == all[j] && all[j..][1..] == all[j + 1..];
    EncodeEntriesSplits(Rust, all[j..], rest);
    EntriesUnfold(Rust, |all| - j, h + (es + rest));
    p := ParseEntry(Rust, h + (es + rest));
    q' := ParseEntries(Rust, |all| - (j + 1), (h + (es + rest))[p.n..]);
  }

  /** The entries from j on, read in step with what was written: if all that is
      read belongs to the map, and a value holds a vendor operand, one byte is
      left over. */
  lemma {:induction false} EntriesLeftover(all: seq<Entry>, j: nat, rest: bytes, q: Parsed<seq<Entry>>)
    requires SoundMap(all) && j <= |all| && !AllIn(VendorFree, all[j..])
    requires q == ParseEntries(Rust, |all| - j, EncodeEntries(Rust, all[j..]) + rest)
    requires q.Got? && forall x :: x in q.v ==> x in all
    ensures q.n == |EncodeEntries(Rust, all[j..])| - 1 && HighEnd(EncodeEntries(Rust, all[j..]))
    decreases all, 1, |all| - j, 1
  {
    var p, q' := SplitRead(all, j, rest, q);
    if All(VendorFree, all[j].value) {
      FreeThenLeftover(all, j, rest, p, q');
    } else {
      LeftoverIsLast(all, j, rest, p, q');
    }
  }

  /** What was written for the entry j, what for the later ones, and what was read of
      them. */
  predicate ReadFrom(all: seq<Entry>, j: nat, rest: bytes, p: Parsed<Entry>, q: Parsed<seq<Entry>>)
    requires j < |all|
  {
    var data := EncodeEntry(Rust, all[j]) + (EncodeEntries(Rust, all[j + 1..]) + rest);
    && p == ParseEntry(Rust, data) && p.Got? && p.v in all
    && q == ParseEntries(Rust, |all| - (j + 1), data[p.n..]) && q.Got? && forall x :: x in q.v ==> x in all
  }

  lemma {:induction false} FreeThenLeftover(all: seq<Entry>, j: nat, rest: bytes, p: Parsed<Entry>, q: Parsed<seq<Entry>>)
    requires SoundMap(all) && j < |all| && !AllIn(VendorFree, all[j..]) && All(VendorFree, all[j].value)
    requires ReadFrom(all, j, rest, p, q)
    ensures var h, es := EncodeEntry(Rust, all[j]), EncodeEntries(Rust, all[j + 1..]);
      p.n + q.n == |h + es| - 1 && HighEnd(h + es)
    decreases all, 1, |all| - j, 0
  {
    var h, es := EncodeEntry(Rust, all[j]), EncodeEntries(Rust, all[j + 1..]);
    InStep(all[j], es + rest);
    FreeFirst(all, j);
    EntriesLeftover(all, j + 1, rest, q);
    EndAfter(h, es);
  }

  lemma {:induction false} LeftoverIsLast(all: seq<Entry>, j: nat, rest: bytes, p: Parsed<Entry>, q: Parsed<seq<Entry>>)
    requires SoundMap(all) && j < |all| && !All(VendorFree, all[j].value) && ReadFrom(all, j, rest, p, q)
    ensures var h, es := EncodeEntry(Rust, all[j]), EncodeEntries(Rust, all[j + 1..]);
      p.n + q.n == |h + es| - 1 && HighEnd(h + es)
    decreases all, 1, |all| - j, 0
  {
    var h, es := EncodeEntry(Rust, all[j]), EncodeEntries(Rust, all[j + 1..]);
    EntryLeftover(all, j, es + rest, p);
    LastIsLast(all, j, rest, p, q);
    assert all[j + 1..] == [] && h + es == h;
  }

  lemma {:induction false} FreeFirst(all: seq<Entry>, j: nat)
    requires j < |all| && !AllIn(VendorFree, all[j..]) && All(VendorFree, all[j].value)
    ensures !AllIn(VendorFree, all[j + 1..])
  {
    var i :| 0 <= i < |all[j..]| && !All(VendorFree, all[j..][i].value);
    assert all[j..][i] == all[j + 1..][i - 1];
  }

  /** A value with a vendor operand can only be the last of its map. */
  lemma {:induction false} LastIsLast(all: seq<Entry>, j: nat, rest: bytes, p: Parsed<Entry>, q: Parsed<seq<Entry>>)
    requires SoundMap(all) && j < |all| && p.Got? && q.Got? && forall x :: x in q.v ==> x in all
    requires var h := EncodeEntry(Rust, all[j]); p.n == |h| - 1 && HighEnd(h)
    requires var tail := EncodeEntries(Rust, all[j + 1..]) + rest;
      q == ParseEntries(Rust, |all| - (j + 1), (EncodeEntry(Rust, all[j]) + tail)[p.n..])
    ensures j + 1 == |all| && q.n == 0
  {
    var h, tail := EncodeEntry(Rust, all[j]), EncodeEntries(Rust, all[j + 1..]) + rest;
    LastOver(h, tail);
    if j + 1 < |all| { NothingAfterStray(all, j + 1, h[|h| - 1], rest, q); }
  }

  lemma {:induction false} InStep(e: Entry, tail: bytes)
    requires All(Readable(Rust), e.value) && All(VendorFree, e.value) && ValidUtf8(e.key) && |e.key| < LIMIT
    ensures var data := EncodeEntry(Rust, e) + tail; var p := ParseEntry(Rust, data);
      p == Got(e, |EncodeEntry(Rust, e)|) && data[p.n..] == tail
  {
    FreeIsPortable(e.value);
    EntryRoundTrip(Rust, e, tail);
  }

  lemma {:induction false} NothingAfterStray(all: seq<Entry>, j: nat, t: byte, rest: bytes, q: Parsed<seq<Entry>>)
    requires SoundMap(all) && 0 < j < |all| && t >= 0x80
    requires q == ParseEntries(Rust, |all| - j, [t] + (EncodeEntries(Rust, all[j..]) + rest))
    requires forall x :: q.Got? && x in q.v ==> x in all
    ensures q.Bad?
  {
    var tail := EncodeEntries(Rust, all[j..][1..]) + rest;
    EncodeEntriesSplits(Rust, all[j..], rest);
    NoEntryAfterStray(all, j, t, tail);
    EntriesUnfold(Rust, |all| - j, [t] + (EncodeEntry(Rust, all[j]) + tail));
    var p := ParseEntry(Rust, [t] + (EncodeEntry(Rust, all[j]) + tail));
    if q.Got? { assert false; }
  }

  // --- trees and runs ---

  /** If a tree with a vendor operand in it reads as itself, one byte is left
      over, and it is a tag. */
  lemma {:induction false} OperandLeftover(op: Operand, rest: bytes, n: nat)
    requires Sound(op) && !All(VendorFree, op)
    requires Parse(Rust, Encode(Rust, op) + rest) == Got(op, n)
    ensures n == |Encode(Rust, op)| - 1 && HighEnd(Encode(Rust, op))
    decreases op
  {
    match op {
      case Vendor(tag, data) => VendorLeftover(tag, data, rest, n);
      case List(items) => ListLeftover(items, rest, n);
      case Map(entries) => MapLeftover(entries, rest, n);
      case _ =>
    }
  }

  /** An encoded list or map: tag, count, and what it holds. */
  lemma {:induction false} Counted(op: Operand, p: bytes, e: bytes, rest: bytes)
    requires op.List? ==> p == Prefix(Rust, |op.items|) && e == EncodeAll(Rust, op.items)
    requires op.Map? ==> p == Prefix(Rust, |op.entries|) && e == EncodeEntries(Rust, op.entries)
    requires op.List? || op.Map?
    ensures Encode(Rust, op) == [Tag(op)] + p + e
    ensures Encode(Rust, op) + rest == [Tag(op)] + (p + (e + rest))
  {
  }

  lemma {:induction false} ListLeftover(items: seq<Operand>, rest: bytes, n: nat)
    requires AllSound(items) && |items| < LIMIT && !AllOf(VendorFree, items)
    requires Parse(Rust, Encode(Rust, List(items)) + rest) == Got(List(items), n)
    ensures n == |Encode(Rust, List(items))| - 1 && HighEnd(Encode(Rust, List(items)))
    decreases items, 3
  {
    var p, e := Prefix(Rust, |items|), EncodeAll(Rust, items);
    Counted(List(items), p, e, rest);
    var m := ListHolds(items, p, e + rest, n);
    ItemsLeftover(items, rest, m);
    EndAfter([LIST] + p, e);
  }

  lemma {:induction false} ListHolds(items: seq<Operand>, p: bytes, t: bytes, n: nat) returns (m: nat)
    requires |items| < LIMIT && p == Prefix(Rust, |items|)
    requires Parse(Rust, [LIST] + (p + t)) == Got(List(items), n)
    ensures n == 1 + |p| + m && ReadsItems(Rust, |items|, t, items, m)
  {
    ParseFromBody(Rust, LIST, p + t);
    BodyOfList(Rust, p + t);
    PrefixRoundTrip(Rust, |items|, t);
    assert (p + t)[|p|..] == t;
    m := ParseItems(Rust, |items|, t).n;
  }

  lemma {:induction false} MapLeftover(entries: seq<Entry>, rest: bytes, n: nat)
    requires SoundMap(entries) && |entries| < LIMIT && !AllIn(VendorFree, entries)
    requires Parse(Rust, Encode(Rust, Map(entries)) + rest) == Got(Map(entries), n)
    ensures n == |Encode(Rust, Map(entries))| - 1 && HighEnd(Encode(Rust, Map(entries)))
    decreases entries, 3
  {
    var p, e := Prefix(Rust, |entries|), EncodeEntries(Rust, entries);
    Counted(Map(entries), p, e, rest);
    var q := MapHolds(entries, p, e + rest, n);
    AllEntriesLeftover(entries, rest, q);
    EndAfter([MAP] + p, e);
  }

  lemma {:induction false} AllEntriesLeftover(entries: seq<Entry>, rest: bytes, q: Parsed<seq<Entry>>)
    requires SoundMap(entries) && !AllIn(VendorFree, entries)
    requires q == ParseEntries(Rust, |entries|, EncodeEntries(Rust, entries) + rest)
    requires q.Got? && forall x :: x in q.v ==> x in entries
    ensures q.n == |EncodeEntries(Rust, entries)| - 1 && HighEnd(EncodeEntries(Rust, entries))
    decreases entries, 2
  {
    assert entries[0..] == entries;
    EntriesLeftover(entries, 0, rest, q);
  }

  lemma {:induction false} MapHolds(entries: seq<Entry>, p: bytes, t: bytes, n: nat) returns (q: Parsed<seq<Entry>>)
    requires |entries| < LIMIT && p == Prefix(Rust, |entries|)
    requires Parse(Rust, [MAP] + (p + t)) == Got(Map(entries), n)
    ensures q == ParseEntries(Rust, |entries|, t) && q.Got? && n == 1 + |p| + q.n && forall x :: x in q.v ==> x in entries
  {
    ParseFromBody(Rust, MAP, p + t);
    BodyOfMap(Rust, p + t);
    PrefixRoundTrip(Rust, |entries|, t);
    assert (p + t)[|p|..] == t;
    q := ParseEntries(Rust, |entries|, t);
    CollectKeeps(q.v);
  }

  /** A run of operands read in step with what was written. */
  lemma {:induction false} ItemsLeftover(ops: seq<Operand>, rest: bytes, n: nat)
    requires AllSound(ops) && !AllOf(VendorFree, ops)
    requires ReadsItems(Rust, |ops|, EncodeAll(Rust, ops) + rest, ops, n)
    ensures n == |EncodeAll(Rust, ops)| - 1 && HighEnd(EncodeAll(Rust, ops))
    decreases ops, 1
  {
    var h, e := Encode(Rust, ops[0]), EncodeAll(Rust, ops[1..]);
    EncodeAllSplits(Rust, ops, rest);
    var m := FirstRead(ops, h + (e + rest), n);
    if All(VendorFree, ops[0]) {
      FreeIsPortable(ops[0]);
      RoundTrip(Rust, ops[0], e + rest);
      assert (h + (e + rest))[|h|..] == e + rest;
      ItemsLeftover(ops[1..], rest, n - m);
      EndAfter(h, e);
    } else {
      OperandLeftover(ops[0], e + rest, m);
      LastOver(h, e + rest);
      LastOver(h, e);
      ItemsAfterStray(h[|h| - 1], ops[1..], rest, n - m);
      EndAfter(h[..|h| - 1], [h[|h| - 1]] + e);
    }
  }

  lemma {:induction false} FirstRead(ops: seq<Operand>, data: bytes, n: nat) returns (m: nat)
    requires ops != [] && ReadsItems(Rust, |ops|, data, ops, n)
    ensures Parse(Rust, data) == Got(ops[0], m) && m <= |data| && m <= n
    ensures ReadsItems(Rust, |ops[1..]|, data[m..], ops[1..], n - m)
  {
    ItemsUnfold(Rust, |ops|, data);
    m := Parse(Rust, data).n;
  }

  /** The same after a stray byte: it, or another one, stays over to the end. */
  lemma {:induction false} ItemsAfterStray(t: byte, ops: seq<Operand>, rest: bytes, n: nat)
    requires t >= 0x80 && ReadsItems(Rust, |ops|, [t] + (EncodeAll(Rust, ops) + rest), ops, n)
    ensures n == |EncodeAll(Rust, ops)| && HighEnd([t] + EncodeAll(Rust, ops))
    decreases ops, 0
  {
    if ops != [] {
      var op, e := ops[0], EncodeAll(Rust, ops[1..]);
      EncodeAllSplits(Rust, ops, rest);
      var data := [t] + (Encode(Rust, op) + (e + rest));
      var m := FirstRead(ops, data, n);
      assert m == 3 && op == Vendor(0x80, []) && t == 0x80 && Encode(Rust, op) == [0x80, 0, 0x80] by {
        OperandAfterStray(t, op, e + rest, m);
      }
      assert data[3..] == [0x80] + (e + rest);
      ItemsAfterStray(0x80, ops[1..], rest, n - 3);
      EndAfter([t, 0x80, 0], [0x80] + e);
      assert [t] + EncodeAll(Rust, ops) == [t, 0x80, 0] + ([0x80] + e);
    }
  }
}
