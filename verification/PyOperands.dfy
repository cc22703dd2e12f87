/** The Python operand codec as it is written: buffers grown in loops, and a
    cursor that moves through the whole input. */
module PyOperands {
  import opened Wire
  import Varint
  import opened Operands
  import opened OperandLaws
  import opened ReadingLoops

  /** `encode_symbol`. */
  method EncodeSymbol(op: Operand) returns (r: Result<bytes, Fault>)
    ensures r.Ok? <==> All(Encodable, op)
    ensures r.Ok? ==> r.value == Encode(Python, op)
    decreases op
  {
    if !EncodableNode(op) {
      return Err(OutOfRange);
    }
    var out: bytes := [Tag(op)];
    match op {
      case List(items) =>
        r := EncodeItems(items);
      case Map(entries) =>
        r := EncodeMap(entries);
      case Str(text) =>
        r := EncodeBlob(text);
      case Bytes(raw) =>
        r := EncodeBlob(raw);
      case Vendor(_, data) =>
        r := EncodeBlob(data);
      case _ =>
        r := Ok(Body(Python, op));
    }
    if r.Ok? {
      r := Ok(out + r.value);
    }
  }

  method EncodeBlob(raw: bytes) returns (r: Result<bytes, Fault>)
    ensures r == Ok(Blob(Python, raw))
  {
    var length := Varint.PyEncode(|raw|);
    r := Ok(length.value + raw);
  }

  method EncodeItems(items: seq<Operand>) returns (r: Result<bytes, Fault>)
    ensures r.Ok? <==> AllOf(Encodable, items)
    ensures r.Ok? ==> r.value == Prefix(Python, |items|) + EncodeAll(Python, items)
    decreases items
  {
    var count := Varint.PyEncode(|items|);
    var out: bytes := [];
    for i := 0 to |items|
      invariant AllOf(Encodable, items[..i])
      invariant out == EncodeAll(Python, items[..i])
    {
      var item := EncodeSymbol(items[i]);
      if item.Err? {
        return item;
      }
      assert items[..i + 1] == items[..i] + [items[i]];
      EncodeAllAppend(Python, items[..i], items[i]);
      out := out + item.value;
    }
    assert items[..|items|] == items;
    return Ok(count.value + out);
  }

  method EncodeMap(entries: seq<Entry>) returns (r: Result<bytes, Fault>)
    ensures r.Ok? <==> AllIn(Encodable, entries)
    ensures r.Ok? ==> r.value == Prefix(Python, |entries|) + EncodeEntries(Python, entries)
    decreases entries
  {
    var count := Varint.PyEncode(|entries|);
    var out: bytes := [];
    for i := 0 to |entries|
      invariant AllIn(Encodable, entries[..i])
      invariant out == EncodeEntries(Python, entries[..i])
    {
      var key := EncodeBlob(entries[i].key);
      var item := EncodeSymbol(entries[i].value);
      if item.Err? {
        return item;
      }
      assert entries[..i + 1] == entries[..i] + [entries[i]];
      EncodeEntriesAppend(Python, entries[..i], entries[i]);
      out := out + (key.value + item.value);
    }
    assert entries[..|entries|] == entries;
    return Ok(count.value + out);
  }

  /** A length-prefixed byte string at an absolute position. */
  method DecodeBlob(data: bytes, pos: nat) returns (r: Parsed<bytes>)
    requires pos <= |data|
    ensures r == At(pos, ParseBlob(Python, data[pos..]))
  {
    var length := Varint.PyDecode(data, pos);
    if length.Bad? {
      return Bad(length.fault);
    }
    var end := length.n + length.v;
    if end > |data| {
      return Bad(Truncated);
    }
    assert data[pos..][length.n - pos..end - pos] == data[length.n..end];
    return Got(data[length.n..end], end);
  }

  /** `decode_symbol`. */
  method DecodeSymbol(data: bytes, pos: nat) returns (r: Parsed<Operand>)
    ensures pos > |data| ==> r == Bad(Truncated)
    ensures pos <= |data| ==> r == At(pos, Parse(Python, data[pos..]))
    decreases |data| - pos, 0
  {
    if pos >= |data| {
      return Bad(Truncated);
    }
    var tag, at := data[pos], pos + 1;
    ghost var body := data[at..];
    assert data[pos..] == [tag] + body;
    ParseFromBody(Python, tag, body);
    match KindOf(tag) {
      case Items =>
        BodyOfList(Python, body);
        r := DecodeList(data, at);
      case Entries =>
        BodyOfMap(Python, body);
        r := DecodeMap(data, at);
      case Opaque =>
        var raw := DecodeBlob(data, at);
        r := if raw.Got? then Got(Vendor(tag, raw.v), raw.n) else Bad(raw.fault);
      case Number(l) =>
        if at + l.width > |data| {
          return Bad(Truncated);
        }
        assert body[..l.width] == data[at..at + l.width];
        r := Got(Fixed(tag, UnpackFixed(l, data[at..at + l.width])), at + l.width);
      case Scalar =>
        r := DecodeScalar(tag, data, at);
      case Unassigned =>
        r := Bad(UnknownTag);
    }
  }

  method DecodeScalar(tag: byte, data: bytes, pos: nat) returns (r: Parsed<Operand>)
    requires pos <= |data|
    ensures r == At(pos, ParseScalar(Python, tag, data[pos..]))
  {
    if tag == BOOL {
      if pos >= |data| {
        return Bad(Truncated);
      }
      var raw := data[pos];
      if raw > 1 {
        return Bad(BadBool);
      }
      return Got(Bool(raw == 1), pos + 1);
    } else if tag == STR || tag == BYTES {
      var raw := DecodeBlob(data, pos);
      if raw.Bad? {
        return Bad(raw.fault);
      }
      if tag == STR && !ValidUtf8(raw.v) {
        return Bad(BadUtf8);
      }
      return Got(if tag == STR then Str(raw.v) else Bytes(raw.v), raw.n);
    } else if tag == UUID || tag == BUF_REF {
      if pos + 16 > |data| {
        return Bad(Truncated);
      }
      ghost var body := data[pos..];
      assert body[..16] == data[pos..pos + 16] && body[..8] == data[pos..pos + 8];
      assert body[8..12] == data[pos + 8..pos + 12] && body[12..16] == data[pos + 12..pos + 16];
      if tag == UUID {
        return Got(Uuid(data[pos..pos + 16]), pos + 16);
      }
      var buf, offset, length := FromBE(data[pos..pos + 8]), FromBE(data[pos + 8..pos + 12]), FromBE(data[pos + 12..pos + 16]);
      return Got(BufRef(buf, offset, length), pos + 16);
    }
    return Got(Null, pos);
  }

  method DecodeList(data: bytes, pos: nat) returns (r: Parsed<Operand>)
    requires pos <= |data|
    ensures r == At(pos, ParseList(Python, data[pos..]))
    decreases |data| - pos, 2
  {
    var count := Varint.PyDecode(data, pos);
    if count.Bad? {
      return Bad(count.fault);
    }
    var items := DecodeItems(data, count.n, count.v);
    assert data[pos..][count.n - pos..] == data[count.n..];
    r := if items.Got? then Got(List(items.v), items.n) else Bad(items.fault);
  }

  method DecodeItems(data: bytes, pos: nat, count: nat) returns (r: Parsed<seq<Operand>>)
    requires pos <= |data|
    ensures r == At(pos, ParseItems(Python, count, data[pos..]))
    decreases |data| - pos, 1
  {
    var items: seq<Operand> := [];
    var at := pos;
    ghost var k := count;
    ghost var goal := ItemsBegin(Python, count, data, pos);
    for i := 0 to count
      invariant k == count - i && ItemsOn(Python, goal, k, data, pos, at, items)
    {
      var item := DecodeSymbol(data, at);
      ItemsTurn(Python, goal, k, data, pos, at, items, item);
      if item.Bad? {
        return Bad(item.fault);
      }
      items := items + [item.v];
      at, k := item.n, k - 1;
    }
    ItemsEnd(Python, goal, data, pos, at, items);
    return Got(items, at);
  }

  method DecodeMap(data: bytes, pos: nat) returns (r: Parsed<Operand>)
    requires pos <= |data|
    ensures r == At(pos, ParseMap(Python, data[pos..]))
    decreases |data| - pos, 3
  {
    var count := Varint.PyDecode(data, pos);
    if count.Bad? {
      return Bad(count.fault);
    }
    var result := DecodeEntries(data, count.n, count.v);
    assert data[pos..][count.n - pos..] == data[count.n..];
    r := if result.Got? then Got(Map(result.v), result.n) else Bad(result.fault);
  }

  method DecodeEntry(data: bytes, pos: nat) returns (r: Parsed<Entry>)
    requires pos <= |data|
    ensures r == At(pos, ParseEntry(Python, data[pos..]))
    decreases |data| - pos, 1
  {
    var key := DecodeBlob(data, pos);
    if key.Bad? {
      return Bad(key.fault);
    }
    if !ValidUtf8(key.v) {
      return Bad(BadUtf8);
    }
    assert data[pos..][key.n - pos..] == data[key.n..];
    var item := DecodeSymbol(data, key.n);
    r := if item.Got? then Got(Entry(key.v, item.v), item.n) else Bad(item.fault);
  }

  /** The map is built while its entries are read. */
  method DecodeEntries(data: bytes, pos: nat, count: nat) returns (r: Parsed<seq<Entry>>)
    requires pos <= |data|
    ensures var q := ParseEntries(Python, count, data[pos..]);
      r == if q.Got? then Got(Collect(Python, q.v), pos + q.n) else q
    decreases |data| - pos, 2
  {
    var result: seq<Entry> := [];
    var at := pos;
    ghost var k: nat, raw: seq<Entry> := count, [];
    ghost var goal := EntriesBegin(Python, count, data, pos);
    for i := 0 to count
      invariant k == count - i && EntriesOn(Python, goal, k, data, pos, at, raw)
      invariant result == Collect(Python, raw)
    {
      var e := DecodeEntry(data, at);
      EntriesTurn(Python, goal, k, data, pos, at, raw, e);
      if e.Bad? {
        return Bad(e.fault);
      }
      CollectAppend(Python, raw, e.v);
      result := Insert(Python, result, e.v.key, e.v.value);
      at, k, raw := e.n, k - 1, raw + [e.v];
    }
    EntriesEnd(Python, goal, data, pos, at, raw);
    return Got(result, at);
  }

  /** `decode_symbols`: operands until the data is used up. */
  method DecodeSymbols(data: bytes) returns (r: Parsed<seq<Operand>>)
    ensures r == ParseAll(Python, data)
  {
    var items: seq<Operand> := [];
    var at := 0;
    ghost var goal := AllLeft(data, 0);
    assert data[0..] == data;
    FrontNothing(goal);
    while at < |data|
      invariant 0 <= at <= |data|
      invariant goal == Front(items, at, AllLeft(data, at))
      decreases |data| - at
    {
      var item := DecodeSymbol(data, at);
      AllStep(data, at, item);
      if item.Bad? {
        return Bad(item.fault);
      }
      FrontAppend(items, at, item.v, item.n - at, item.n, AllLeft(data, item.n));
      items := items + [item.v];
      at := item.n;
    }
    FrontEnds(items, at);
    return Got(items, at);
  }
}
