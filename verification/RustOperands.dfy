/** The Rust operand codec as it is written: encoders that extend a buffer, and
    decoders that are given the rest of the input as a slice. */
module RustOperands {
  import opened Wire
  import Varint
  import opened Operands
  import opened OperandLaws
  import opened ReadingLoops
  import opened OperandWalk

  /** Whether arithmetic overflow panics, as in development builds, or wraps. */
  datatype Build = Release | Checked

  /** What a decoder call does. */
  datatype Attempt<+T> = Panicked | Done(result: Parsed<T>)

  /** The result, unless an index overflows in a build that checks. */
  function Tried<T>(build: Build, fits: bool, r: Parsed<T>): Attempt<T> {
    if build.Checked? && !fits then Panicked else Done(r)
  }

  method PutBlob(raw: bytes, out: bytes) returns (out': bytes)
    ensures out' == out + Blob(Rust, raw)
  {
    out' := Varint.RustEncode(|raw| % U32, out);
    out' := out' + raw;
  }

  /** `encode_operand`. */
  method EncodeOperand(op: Operand, out: bytes) returns (out': bytes)
    ensures out' == out + Encode(Rust, op)
    decreases op
  {
    out' := out + [Tag(op)];
    Assoc(out, [Tag(op)], Body(Rust, op));
    match op {
      case List(items) =>
        out' := EncodeItems(items, out');
      case Map(entries) =>
        out' := EncodeMap(entries, out');
      case Str(text) =>
        out' := PutBlob(text, out');
      case Bytes(raw) =>
        out' := PutBlob(raw, out');
      case Vendor(tag, data) =>
        out' := Varint.RustEncode(|data| % U32, out');
        out' := out' + [tag] + data;
      case _ =>
        out' := out' + Body(Rust, op);
    }
  }

  method EncodeItems(items: seq<Operand>, out: bytes) returns (out': bytes)
    ensures out' == out + (Prefix(Rust, |items|) + EncodeAll(Rust, items))
    decreases items
  {
    out' := Varint.RustEncode(|items| % U32, out);
    ghost var base := out';
    for i := 0 to |items|
      invariant out' == base + EncodeAll(Rust, items[..i])
    {
      out' := EncodeOperand(items[i], out');
      assert items[..i + 1] == items[..i] + [items[i]];
      EncodeAllAppend(Rust, items[..i], items[i]);
    }
    assert items[..|items|] == items;
  }

  method EncodeMap(entries: seq<Entry>, out: bytes) returns (out': bytes)
    ensures out' == out + (Prefix(Rust, |entries|) + EncodeEntries(Rust, entries))
    decreases entries
  {
    out' := Varint.RustEncode(|entries| % U32, out);
    ghost var base := out';
    for i := 0 to |entries|
      invariant out' == base + EncodeEntries(Rust, entries[..i])
    {
      ghost var done := EncodeEntries(Rust, entries[..i]);
      out' := PutBlob(entries[i].key, out');
      out' := EncodeOperand(entries[i].value, out');
      Assoc(base + done, Blob(Rust, entries[i].key), Encode(Rust, entries[i].value));
      Assoc(base, done, EncodeEntry(Rust, entries[i]));
      EntriesGrow(entries, i);
    }
    assert entries[..|entries|] == entries;
  }

  lemma {:induction false} EntriesGrow(entries: seq<Entry>, i: nat)
    requires i < |entries|
    ensures EncodeEntries(Rust, entries[..i + 1]) == EncodeEntries(Rust, entries[..i]) + EncodeEntry(Rust, entries[i])
  {
    assert entries[..i + 1] == entries[..i] + [entries[i]];
    EncodeEntriesAppend(Rust, entries[..i], entries[i]);
  }

  method DecodeBlob(data: bytes) returns (r: Parsed<bytes>)
    ensures r == ParseBlob(Rust, data)
  {
    var len := Varint.RustDecode(data);
    if len.Bad? {
      return Bad(len.fault);
    }
    var end := len.n + len.v;
    if |data| < end {
      return Bad(Truncated);
    }
    return Got(data[len.n..end], end);
  }

  /** `idx * 1000 + i`. */
  method ChildIndex(build: Build, idx: nat, i: nat) returns (child: nat, panicked: bool)
    ensures panicked <==> build.Checked? && Child(idx, i) >= U32
    ensures child < U32 && (build.Checked? && !panicked ==> child == Child(idx, i))
  {
    var n := idx * 1000 + i;
    panicked := build.Checked? && n >= U32;
    child := n % U32;
    if n < U32 { SmallModulo(n); }
  }

  lemma {:induction false} SmallModulo(n: nat)
    requires n < U32
    ensures n % U32 == n
  {
  }

  /** `decode_operand`. The index serves only the messages of errors. */
  method DecodeOperand(build: Build, data: bytes, idx: nat) returns (a: Attempt<Operand>)
    requires idx < U32
    ensures a == Tried(build, Walk(IndexFits, data, idx), Parse(Rust, data))
    decreases |data|, 0, 0
  {
    if data == [] {
      return Done(Bad(Truncated));
    }
    var tag, body := data[0], data[1..];
    assert data == [tag] + body;
    ParseFromBody(Rust, tag, body);
    a := DecodeBody(build, tag, body, idx);
    if a.Done? {
      a := Done(At(1, a.result));
    }
  }

  /** `decode_operand(data, idx * 1000 + i)`. */
  method DecodeChild(build: Build, data: bytes, idx: nat, i: nat) returns (a: Attempt<Operand>)
    ensures a == Tried(build, Walk(IndexFits, data, Child(idx, i)), Parse(Rust, data))
    decreases |data|, 0, 1
  {
    var child, over := ChildIndex(build, idx, i);
    if over {
      return Panicked;
    }
    a := DecodeOperand(build, data, child);
  }

  /** The arms of the match on the tag. */
  method DecodeBody(build: Build, tag: byte, data: bytes, idx: nat) returns (a: Attempt<Operand>)
    requires idx < U32
    ensures a == Tried(build, WalkBody(IndexFits, KindOf(tag), data, idx), ParseBody(Rust, tag, data))
    decreases |data|, 4
  {
    match KindOf(tag) {
      case Items =>
        BodyOfList(Rust, data);
        a := DecodeList(build, data, idx);
      case Entries =>
        BodyOfMap(Rust, data);
        a := DecodeMap(build, data, idx);
      case Opaque =>
        var raw := DecodeBlob(data);
        return Done(if raw.Got? then Got(Vendor(tag, raw.v), raw.n) else Bad(raw.fault));
      case Number(l) =>
        if |data| < l.width {
          return Done(Bad(Truncated));
        }
        return Done(Got(Fixed(tag, UnpackFixed(l, data[..l.width])), l.width));
      case Scalar =>
        var r := DecodeScalar(tag, data);
        return Done(r);
      case Unassigned =>
        return Done(Got(Null, 0));
    }
  }

  method DecodeScalar(tag: byte, data: bytes) returns (r: Parsed<Operand>)
    ensures r == ParseScalar(Rust, tag, data)
  {
    if tag == BOOL {
      if data == [] {
        return Bad(Truncated);
      }
      if data[0] > 1 {
        return Bad(BadBool);
      }
      return Got(Bool(data[0] != 0), 1);
    } else if tag == STR || tag == BYTES {
      var raw := DecodeBlob(data);
      if raw.Bad? {
        return Bad(raw.fault);
      }
      if tag == STR && !ValidUtf8(raw.v) {
        return Bad(BadUtf8);
      }
      return Got(if tag == STR then Str(raw.v) else Bytes(raw.v), raw.n);
    } else if tag == UUID || tag == BUF_REF {
      if |data| < 16 {
        return Bad(Truncated);
      }
      if tag == UUID {
        return Got(Uuid(data[..16]), 16);
      }
      return Got(BufRef(FromBE(data[..8]), FromBE(data[8..12]), FromBE(data[12..16])), 16);
    }
    return Got(Null, 0);
  }

  method DecodeList(build: Build, data: bytes, idx: nat) returns (a: Attempt<Operand>)
    requires idx < U32
    ensures a == Tried(build, WalkBody(IndexFits, Items, data, idx), ParseList(Rust, data))
    decreases |data|, 3
  {
    var count := Varint.RustDecode(data);
    if count.Bad? {
      return Done(Bad(count.fault));
    }
    var items := DecodeItems(build, data[count.n..], count.v, idx);
    if items.Panicked? {
      return Panicked;
    }
    var r := items.result;
    a := Done(if r.Got? then Got(List(r.v), count.n + r.n) else Bad(r.fault));
  }

  /** What an item loop has left to do at position `at`, with these items read. */
  function ItemsToDo(build: Build, k: nat, data: bytes, at: nat, idx: nat, i: nat, items: seq<Operand>): Attempt<seq<Operand>> {
    Tried(build, at <= |data| && WalkItems(IndexFits, k, data[at..], idx, i), Front(items, at, ItemsLeft(Rust, k, data, at)))
  }

  lemma {:induction false} ItemTurn(
    build: Build, k: nat, data: bytes, at: nat, idx: nat, i: nat, items: seq<Operand>, a: Attempt<Operand>)
    requires k > 0 && at <= |data|
    requires a == Tried(build, Walk(IndexFits, data[at..], Child(idx, i)), Parse(Rust, data[at..]))
    ensures var todo := ItemsToDo(build, k, data, at, idx, i, items);
      && (a.Panicked? ==> todo == Panicked)
      && (a.Done? && a.result.Bad? ==> todo == Done(Bad(a.result.fault)))
      && (a.Done? && a.result.Got? ==>
            && at < at + a.result.n <= |data|
            && todo == ItemsToDo(build, k - 1, data, at + a.result.n, idx, i + 1, items + [a.result.v]))
  {
    WalkItemsUnfold(IndexFits, k, data[at..], idx, i);
    if a.Done? {
      assert a.result == Parse(Rust, data[at..]);
      ItemStep(Rust, data, at, k, At(at, a.result));
      if a.result.Got? { ItemTaken(k, data, at, items, a.result.v, a.result.n); }
    }
  }

  lemma {:induction false} ItemTaken(k: nat, data: bytes, at: nat, items: seq<Operand>, op: Operand, n: nat)
    requires k > 0 && at + n <= |data|
    requires ItemsLeft(Rust, k, data, at) == Front([op], n, ItemsLeft(Rust, k - 1, data, at + n))
    ensures data[at..][n..] == data[at + n..]
    ensures Front(items, at, ItemsLeft(Rust, k, data, at)) == Front(items + [op], at + n, ItemsLeft(Rust, k - 1, data, at + n))
  {
    FrontAppend(items, at, op, n, at + n, ItemsLeft(Rust, k - 1, data, at + n));
  }

  lemma {:induction false} ItemsAtStart(build: Build, k: nat, data: bytes, idx: nat)
    ensures ItemsToDo(build, k, data, 0, idx, 0, []) == Tried(build, WalkItems(IndexFits, k, data, idx, 0), ParseItems(Rust, k, data))
  {
    assert data[0..] == data;
    FrontNothing(ParseItems(Rust, k, data));
  }

  lemma {:induction false} ItemsAtEnd(build: Build, data: bytes, at: nat, idx: nat, i: nat, items: seq<Operand>)
    requires at <= |data|
    ensures ItemsToDo(build, 0, data, at, idx, i, items) == Done(Got(items, at))
  {
    FrontEnds(items, at);
  }

  /** The goal is what the loop has left to do. The trigger keeps it folded. */
  ghost predicate ItemsUnderway(build: Build, goal: Attempt<seq<Operand>>, k: nat, data: bytes, at: nat, idx: nat, i: nat, read: seq<Operand>) {
    && at <= |data|
    && forall j: nat {:trigger ItemsToDo(build, j, data, at, idx, i, read)} :: Is(j, k) ==> goal == ItemsToDo(build, j, data, at, idx, i, read)
  }

  lemma {:induction false} StartItems(build: Build, k: nat, data: bytes, idx: nat) returns (goal: Attempt<seq<Operand>>)
    ensures goal == Tried(build, WalkItems(IndexFits, k, data, idx, 0), ParseItems(Rust, k, data))
    ensures ItemsUnderway(build, goal, k, data, 0, idx, 0, [])
  {
    ItemsAtStart(build, k, data, idx);
    goal := ItemsToDo(build, k, data, 0, idx, 0, []);
  }

  lemma {:induction false} TurnItems(
    build: Build, goal: Attempt<seq<Operand>>, k: nat, data: bytes, at: nat, idx: nat, i: nat, read: seq<Operand>, a: Attempt<Operand>)
    requires k > 0 && ItemsUnderway(build, goal, k, data, at, idx, i, read)
    requires a == Tried(build, Walk(IndexFits, data[at..], Child(idx, i)), Parse(Rust, data[at..]))
    ensures a.Panicked? ==> goal == Panicked
    ensures a.Done? && a.result.Bad? ==> goal == Done(Bad(a.result.fault))
    ensures a.Done? && a.result.Got? ==>
      ItemsUnderway(build, goal, k - 1, data, at + a.result.n, idx, i + 1, read + [a.result.v])
  {
    assert Is(k, k) && goal == ItemsToDo(build, k, data, at, idx, i, read);
    ItemTurn(build, k, data, at, idx, i, read, a);
  }

  lemma {:induction false} EndItems(
    build: Build, goal: Attempt<seq<Operand>>, k: nat, data: bytes, at: nat, idx: nat, i: nat, read: seq<Operand>)
    requires k == 0 && ItemsUnderway(build, goal, k, data, at, idx, i, read)
    ensures goal == Done(Got(read, at))
  {
    assert Is(k, k) && goal == ItemsToDo(build, k, data, at, idx, i, read);
    ItemsAtEnd(build, data, at, idx, i, read);
  }

  /** The item loop. With index 0 it is also the loop over the operands of a
      payload, whose indices are their positions. */
  method DecodeItems(build: Build, data: bytes, count: nat, idx: nat) returns (a: Attempt<seq<Operand>>)
    requires idx < U32
    ensures a == Tried(build, WalkItems(IndexFits, count, data, idx, 0), ParseItems(Rust, count, data))
    decreases |data|, 1
  {
    var items: seq<Operand> := [];
    var pos: nat := 0;
    ghost var k := count;
    ghost var goal := StartItems(build, count, data, idx);
    for i := 0 to count
      invariant k == count - i && ItemsUnderway(build, goal, k, data, pos, idx, i, items)
    {
      var item := DecodeChild(build, data[pos..], idx, i);
      TurnItems(build, goal, k, data, pos, idx, i, items, item);
      if item.Panicked? {
        return Panicked;
      }
      if item.result.Bad? {
        return Done(Bad(item.result.fault));
      }
      items := items + [item.result.v];
      pos, k := pos + item.result.n, k - 1;
    }
    EndItems(build, goal, k, data, pos, idx, count, items);
    return Done(Got(items, pos));
  }

  method DecodeMap(build: Build, data: bytes, idx: nat) returns (a: Attempt<Operand>)
    requires idx < U32
    ensures a == Tried(build, WalkBody(IndexFits, Entries, data, idx), ParseMap(Rust, data))
    decreases |data|, 3
  {
    var count := Varint.RustDecode(data);
    if count.Bad? {
      return Done(Bad(count.fault));
    }
    var tree := DecodeEntries(build, data[count.n..], count.v, idx);
    MapParts(build, data, idx, count.v, count.n);
    if tree.Panicked? {
      return Panicked;
    }
    var r := tree.result;
    a := Done(if r.Got? then Got(Map(r.v), count.n + r.n) else Bad(r.fault));
  }

  /** A map from its count and its entries. */
  function MapOf(a: Attempt<seq<Entry>>, n: nat): Attempt<Operand> {
    if a.Panicked? then Panicked
    else Done(if a.result.Got? then Got(Map(a.result.v), n + a.result.n) else Bad(a.result.fault))
  }

  lemma {:induction false} MapParts(build: Build, data: bytes, idx: nat, k: nat, n: nat)
    requires Varint.Decode(Rust, data) == Got(k, n)
    ensures Tried(build, WalkBody(IndexFits, Entries, data, idx), ParseMap(Rust, data))
         == MapOf(Tried(build, WalkEntries(IndexFits, k, data[n..], idx, 0), Gathered(ParseEntries(Rust, k, data[n..]))), n)
  {
  }

  method DecodeEntry(build: Build, data: bytes, idx: nat, i: nat) returns (a: Attempt<Entry>)
    ensures a == Tried(build, WalkEntry(IndexFits, data, Child(idx, i)), ParseEntry(Rust, data))
    decreases |data|, 1
  {
    var key := DecodeBlob(data);
    if key.Bad? {
      return Done(Bad(key.fault));
    }
    if !ValidUtf8(key.v) {
      return Done(Bad(BadUtf8));
    }
    var item := DecodeChild(build, data[key.n..], idx, i);
    if item.Panicked? {
      return Panicked;
    }
    var r := item.result;
    a := Done(if r.Got? then Got(Entry(key.v, r.v), key.n + r.n) else Bad(r.fault));
  }

  /** The entries of a map as a tree. */
  function Gathered(q: Parsed<seq<Entry>>): Parsed<seq<Entry>> {
    if q.Got? then Got(Collect(Rust, q.v), q.n) else q
  }

  /** What an entry loop has left to do, with these entries read. */
  function EntriesToDo(build: Build, k: nat, data: bytes, at: nat, idx: nat, i: nat, raw: seq<Entry>): Attempt<seq<Entry>> {
    Tried(build, at <= |data| && WalkEntries(IndexFits, k, data[at..], idx, i),
          Gathered(Front(raw, at, EntriesLeft(Rust, k, data, at))))
  }

  lemma {:induction false} EntryTurnIn(
    build: Build, k: nat, data: bytes, at: nat, idx: nat, i: nat, raw: seq<Entry>, a: Attempt<Entry>)
    requires k > 0 && at <= |data|
    requires a == Tried(build, WalkEntry(IndexFits, data[at..], Child(idx, i)), ParseEntry(Rust, data[at..]))
    ensures var todo := EntriesToDo(build, k, data, at, idx, i, raw);
      && (a.Panicked? ==> todo == Panicked)
      && (a.Done? && a.result.Bad? ==> todo == Done(Bad(a.result.fault)))
      && (a.Done? && a.result.Got? ==>
            && at < at + a.result.n <= |data|
            && todo == EntriesToDo(build, k - 1, data, at + a.result.n, idx, i + 1, raw + [a.result.v]))
  {
    WalkEntriesUnfold(IndexFits, k, data[at..], idx, i);
    if a.Done? {
      assert a.result == ParseEntry(Rust, data[at..]);
      EntryStep(Rust, data, at, k, At(at, a.result));
      if a.result.Got? { EntryTaken(k, data, at, raw, a.result.v, a.result.n); }
    }
  }

  lemma {:induction false} EntryTaken(k: nat, data: bytes, at: nat, raw: seq<Entry>, e: Entry, n: nat)
    requires k > 0 && at + n <= |data|
    requires EntriesLeft(Rust, k, data, at) == Front([e], n, EntriesLeft(Rust, k - 1, data, at + n))
    ensures data[at..][n..] == data[at + n..]
    ensures Front(raw, at, EntriesLeft(Rust, k, data, at)) == Front(raw + [e], at + n, EntriesLeft(Rust, k - 1, data, at + n))
  {
    FrontAppend(raw, at, e, n, at + n, EntriesLeft(Rust, k - 1, data, at + n));
  }

  lemma {:induction false} EntriesAtStart(build: Build, k: nat, data: bytes, idx: nat)
    ensures EntriesToDo(build, k, data, 0, idx, 0, [])
         == Tried(build, WalkEntries(IndexFits, k, data, idx, 0), Gathered(ParseEntries(Rust, k, data)))
  {
    assert data[0..] == data;
    FrontNothing(ParseEntries(Rust, k, data));
  }

  lemma {:induction false} EntriesAtEnd(build: Build, data: bytes, at: nat, idx: nat, i: nat, raw: seq<Entry>)
    requires at <= |data|
    ensures EntriesToDo(build, 0, data, at, idx, i, raw) == Done(Got(Collect(Rust, raw), at))
  {
    FrontEnds(raw, at);
  }

  /** The goal is what the loop has left to do. The trigger keeps it folded. */
  ghost predicate EntriesUnderway(build: Build, goal: Attempt<seq<Entry>>, k: nat, data: bytes, at: nat, idx: nat, i: nat, read: seq<Entry>) {
    && at <= |data|
    && forall j: nat {:trigger EntriesToDo(build, j, data, at, idx, i, read)} :: Is(j, k) ==> goal == EntriesToDo(build, j, data, at, idx, i, read)
  }

  lemma {:induction false} StartEntries(build: Build, k: nat, data: bytes, idx: nat) returns (goal: Attempt<seq<Entry>>)
    ensures goal == Tried(build, WalkEntries(IndexFits, k, data, idx, 0), Gathered(ParseEntries(Rust, k, data)))
    ensures EntriesUnderway(build, goal, k, data, 0, idx, 0, [])
  {
    EntriesAtStart(build, k, data, idx);
    goal := EntriesToDo(build, k, data, 0, idx, 0, []);
  }

  lemma {:induction false} TurnEntries(
    build: Build, goal: Attempt<seq<Entry>>, k: nat, data: bytes, at: nat, idx: nat, i: nat, read: seq<Entry>, a: Attempt<Entry>)
    requires k > 0 && EntriesUnderway(build, goal, k, data, at, idx, i, read)
    requires a == Tried(build, WalkEntry(IndexFits, data[at..], Child(idx, i)), ParseEntry(Rust, data[at..]))
    ensures a.Panicked? ==> goal == Panicked
    ensures a.Done? && a.result.Bad? ==> goal == Done(Bad(a.result.fault))
    ensures a.Done? && a.result.Got? ==>
      EntriesUnderway(build, goal, k - 1, data, at + a.result.n, idx, i + 1, read + [a.result.v])
  {
    assert Is(k, k) && goal == EntriesToDo(build, k, data, at, idx, i, read);
    EntryTurnIn(build, k, data, at, idx, i, read, a);
  }

  lemma {:induction false} EndEntries(
    build: Build, goal: Attempt<seq<Entry>>, k: nat, data: bytes, at: nat, idx: nat, i: nat, read: seq<Entry>)
    requires k == 0 && EntriesUnderway(build, goal, k, data, at, idx, i, read)
    ensures goal == Done(Got(Collect(Rust, read), at))
  {
    assert Is(k, k) && goal == EntriesToDo(build, k, data, at, idx, i, read);
    EntriesAtEnd(build, data, at, idx, i, read);
  }

  method DecodeEntries(build: Build, data: bytes, count: nat, idx: nat) returns (a: Attempt<seq<Entry>>)
    requires idx < U32
    ensures a == Tried(build, WalkEntries(IndexFits, count, data, idx, 0), Gathered(ParseEntries(Rust, count, data)))
    decreases |data|, 2
  {
    var tree: seq<Entry> := [];
    var pos: nat := 0;
    ghost var k: nat, raw: seq<Entry> := count, [];
    ghost var goal := StartEntries(build, count, data, idx);
    for i := 0 to count
      invariant k == count - i && EntriesUnderway(build, goal, k, data, pos, idx, i, raw)
      invariant tree == Collect(Rust, raw)
    {
      var e := DecodeEntry(build, data[pos..], idx, i);
      TurnEntries(build, goal, k, data, pos, idx, i, raw, e);
      if e.Panicked? {
        return Panicked;
      }
      if e.result.Bad? {
        return Done(Bad(e.result.fault));
      }
      var entry := e.result.v;
      CollectAppend(Rust, raw, entry);
      tree := Insert(Rust, tree, entry.key, entry.value);
      pos, k, raw := pos + e.result.n, k - 1, raw + [entry];
    }
    EndEntries(build, goal, k, data, pos, idx, count, raw);
    return Done(Got(tree, pos));
  }
}
