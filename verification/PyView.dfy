/** `decode` and the packet view it returns. */
module PyView {
  import opened Wire
  import Varint
  import opened Operands
  import opened OperandLaws
  import opened ReadingLoops
  import opened Frame
  import opened PyFields
  import Crc32
  import PyOperands

  /** The largest payload a header may declare. */
  const MAX_PAYLOAD: int := 0xFF_FFFF

  datatype View = View(header: Header, operation: byte, symbols: seq<Operand>, extensions: map<byte, seq<bytes>>)

  // --- sorting the operands of a payload ---

  /** The operands that are not vendor operands, in order. */
  function CoreOf(ops: seq<Operand>): seq<Operand> {
    if ops == [] then []
    else
      var op, pre := ops[|ops| - 1], CoreOf(ops[..|ops| - 1]);
      if op.Vendor? then pre else pre + [op]
  }

  /** The values under one vendor tag, in order. */
  function ExtAll(ops: seq<Operand>, tag: byte): seq<bytes> {
    if ops == [] then []
    else
      var op, pre := ops[|ops| - 1], ExtAll(ops[..|ops| - 1], tag);
      if op.Vendor? && op.vtag == tag then pre + [op.data] else pre
  }

  function Lookup(m: map<byte, seq<bytes>>, tag: byte): seq<bytes> { if tag in m then m[tag] else [] }

  /** `setdefault(tag, []).append(value)`. */
  function AddExt(m: map<byte, seq<bytes>>, op: Operand): map<byte, seq<bytes>> {
    if op.Vendor? then m[op.vtag := Lookup(m, op.vtag) + [op.data]] else m
  }

  function ExtMap(ops: seq<Operand>): map<byte, seq<bytes>> {
    if ops == [] then map[] else AddExt(ExtMap(ops[..|ops| - 1]), ops[|ops| - 1])
  }

  lemma {:induction false} LookupExt(ops: seq<Operand>, tag: byte)
    ensures Lookup(ExtMap(ops), tag) == ExtAll(ops, tag)
  {
    if ops != [] { LookupExt(ops[..|ops| - 1], tag); }
  }

  lemma {:induction false} SortAppend(ops: seq<Operand>, op: Operand)
    ensures CoreOf(ops + [op]) == if op.Vendor? then CoreOf(ops) else CoreOf(ops) + [op]
    ensures ExtMap(ops + [op]) == AddExt(ExtMap(ops), op)
    ensures forall tag: byte :: ExtAll(ops + [op], tag)
              == if op.Vendor? && op.vtag == tag then ExtAll(ops, tag) + [op.data] else ExtAll(ops, tag)
  {
  }

  // --- the view of a payload ---

  function Lift<T>(r: Parsed<T>): Py<T> { if r.Got? then Ok(r.v) else Err(SymbolError(r.fault)) }

  /** The operands of a payload: as many as the count says, from whatever bytes
      follow it. */
  function OperandsOf(payload: bytes): Py<seq<Operand>> {
    if |payload| <= 1 then Ok([])
    else
      var c := Varint.Decode(Python, payload[1..]);
      if c.Bad? then Err(SymbolError(c.fault)) else Lift(ParseItems(Python, c.v, payload[1 + c.n..]))
  }

  function ViewOf(header: Header, payload: bytes): Py<View> {
    var ops :- OperandsOf(payload);
    Ok(View(header, if payload == [] then 0 else payload[0], CoreOf(ops), ExtMap(ops)))
  }

  /** `PacketView.__init__`. */
  method InitView(header: Header, payload: bytes) returns (r: Py<View>)
    ensures r == ViewOf(header, payload)
  {
    var operation: byte := if payload == [] then 0 else payload[0];
    if |payload| <= 1 {
      return Ok(View(header, operation, [], map[]));
    }
    var count := Varint.PyDecode(payload, 1);
    if count.Bad? {
      return Err(SymbolError(count.fault));
    }
    var symbols: seq<Operand>, extensions: map<byte, seq<bytes>> := [], map[];
    var pos := count.n;
    ghost var k: nat, raw: seq<Operand> := count.v, [];
    ghost var goal := ItemsBegin(Python, count.v, payload, pos);
    for i := 0 to count.v
      invariant k == count.v - i && ItemsOn(Python, goal, k, payload, count.n, pos, raw)
      invariant symbols == CoreOf(raw) && extensions == ExtMap(raw)
    {
      var item := PyOperands.DecodeSymbol(payload, pos);
      ItemsTurn(Python, goal, k, payload, count.n, pos, raw, item);
      if item.Bad? {
        return Err(SymbolError(item.fault));
      }
      SortAppend(raw, item.v);
      if item.v.Vendor? {
        extensions := AddExt(extensions, item.v);
      } else {
        symbols := symbols + [item.v];
      }
      pos, k, raw := item.n, k - 1, raw + [item.v];
    }
    ItemsEnd(Python, goal, payload, count.n, pos, raw);
    return Ok(View(header, operation, symbols, extensions));
  }

  // --- frames ---

  /** `validate_header`. */
  function ValidateHeader(s: bytes): Py<()> {
    if |s| < HEADER_SIZE then Err(HeaderError)
    else if !MagicOk(s) then Err(HeaderError)
    else if ReadHeader(s).version != VERSION then Err(VersionError)
    else if !HeaderCrcOk(s) then Err(HeaderError)
    else if ReadHeader(s).payloadLength > MAX_PAYLOAD then Err(HeaderError)
    else Ok(())
  }

  /** `decode`. Bytes after the payload are a trailer, whatever the flags say,
      and the view is then given the trailer as part of its payload. */
  function Decode(raw: bytes): Py<View> {
    if |raw| < HEADER_SIZE then Err(TruncatedError)
    else
      var _ :- ValidateHeader(raw[..HEADER_SIZE]);
      var end := HEADER_SIZE + ReadHeader(raw).payloadLength;
      if |raw| < end then Err(TruncatedError)
      else if |raw| == end then ViewOf(ReadHeader(raw), raw[HEADER_SIZE..])
      else if |raw| < end + CHECKSUM_SIZE then Err(StructError)
      else if raw[end..end + CHECKSUM_SIZE] != Crc32.Crc(raw[..end]) then Err(ChecksumError)
      else ViewOf(ReadHeader(raw), raw[HEADER_SIZE..end + CHECKSUM_SIZE])
  }

  // --- the properties of a view ---

  function ExtOne(v: View, tag: byte): Option<bytes> {
    var vals := Lookup(v.extensions, tag);
    if vals == [] then None else Some(vals[0])
  }

  /** The first value under a tag, where an empty one counts as missing. */
  function Field(v: View, tag: byte): Option<bytes> { Truthy(ExtOne(v, tag)) }

  function TextField(v: View, tag: byte): Py<bytes> {
    if Field(v, tag).None? then Ok([]) else Text(Field(v, tag).value)
  }

  function NamesField(v: View, tag: byte): Py<seq<bytes>> {
    if Field(v, tag).None? then Ok([]) else NamesOf(Field(v, tag).value)
  }

  function SessionId(v: View): Option<bytes> { ExtOne(v, 0x80) }

  function Origin(v: View): Py<Option<Identity>> {
    if Field(v, 0x81).None? then Ok(None)
    else
      var x :- UnpackIdentity(Field(v, 0x81).value);
      Ok(Some(x))
  }

  function Targets(v: View): Py<seq<bytes>> { NamesField(v, 0x82) }

  function Intent(v: View): Py<bytes> { TextField(v, 0x83) }

  function ResponseSymbols(v: View): Py<seq<Operand>> {
    if Field(v, 0x84).None? then Ok([]) else Lift(ParseAll(Python, Field(v, 0x84).value))
  }

  function Confidence(v: View): Py<int> {
    if Field(v, 0x85).None? then Ok(0x3FF0_0000_0000_0000) else UIntAt(Field(v, 0x85).value, 0, 8)
  }

  function Priority(v: View): int {
    if Field(v, 0x86).None? || Field(v, 0x86).value == [] then 128 else Field(v, 0x86).value[0]
  }

  function Capabilities(v: View): Py<seq<bytes>> { NamesField(v, 0x87) }

  function QualityOfService(v: View): Py<Option<QoS>> {
    if Field(v, 0x88).None? then Ok(None) else UnpackQoS(Field(v, 0x88).value)
  }

  function Security(v: View): Option<bytes> { ExtOne(v, 0x89) }

  function Traces(ds: seq<bytes>): Py<seq<TraceEntry>> {
    if ds == [] then Ok([])
    else
      var x :- UnpackTrace(ds[0]);
      var xs :- Traces(ds[1..]);
      Ok([x] + xs)
  }

  function Trace(v: View): Py<seq<TraceEntry>> { Traces(Lookup(v.extensions, 0x8A)) }

  function Chunk(v: View): Py<Option<ChunkInfo>> {
    if Field(v, 0x8B).None? then Ok(None) else UnpackChunk(Field(v, 0x8B).value)
  }

  function Pressure(v: View): Py<Option<Backpressure>> {
    if Field(v, 0x8D).None? then Ok(None) else UnpackBackpressure(Field(v, 0x8D).value)
  }

  function ErrorOf(v: View): Py<Option<ErrorInfo>> {
    if Field(v, 0x8E).None? then Ok(None) else UnpackError(Field(v, 0x8E).value)
  }

  function TargetCaps(v: View): Py<seq<bytes>> { NamesField(v, 0x90) }

  function SchemaId(v: View): Py<bytes> { TextField(v, 0x91) }

  function StreamId(v: View): Option<bytes> { ExtOne(v, 0x92) }

  function PartialResult(v: View): Option<bytes> { ExtOne(v, 0x93) }

  function Model(v: View): Py<Option<ModelInvocation>> {
    if Field(v, 0x94).None? then Ok(None) else UnpackModel(Field(v, 0x94).value)
  }

  function Tool(v: View): Py<Option<ToolInvocation>> {
    if Field(v, 0x95).None? then Ok(None) else UnpackTool(Field(v, 0x95).value)
  }

  function Metadata(v: View): Py<seq<Meta>> {
    if Field(v, 0x96).None? then Ok([]) else UnpackMetadata(Field(v, 0x96).value, [])
  }
}
