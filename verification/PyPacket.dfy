/** The Python packet, and what `encode` writes for it. */
module PyPacket {
  import opened Wire
  import opened Operands
  import opened OperandLaws
  import opened Frame
  import opened PyFields
  import Crc32

  /** A packet after `__post_init__` has supplied its ids. Strings are their
      UTF-8 bytes, and `confidence` is the bit pattern of a double. */
  datatype Packet = Packet(
    version: int, flags: int, sessionId: bytes, messageId: bytes, correlationId: bytes,
    origin: Option<Identity>, targets: seq<bytes>, operation: int, intent: bytes,
    symbols: seq<Operand>, responseSymbols: seq<Operand>, confidence: int, priority: int, deadlineMs: int,
    capabilities: seq<bytes>, qos: Option<QoS>, security: Option<bytes>, trace: seq<TraceEntry>,
    chunkInfo: Option<ChunkInfo>, blobRefs: seq<BlobRef>, backpressure: Option<Backpressure>,
    errorInfo: Option<ErrorInfo>, ackInfo: Option<AckInfo>, targetCaps: seq<bytes>, schemaId: bytes,
    streamId: Option<bytes>, partialResult: Option<bytes>, modelInvocation: Option<ModelInvocation>,
    toolInvocation: Option<ToolInvocation>, metadata: seq<Meta>)

  /** The bit pattern of 1.0. */
  const ONE: int := 0x3FF0_0000_0000_0000
  const EXT_BASE: byte := 0x80
  const EXT_COUNT: nat := 23

  // --- which packets can be written ---

  predicate Texts(names: seq<bytes>) { forall i :: 0 <= i < |names| ==> ValidUtf8(names[i]) }

  predicate PartsFit(p: Packet) {
    && (p.origin.Some? ==> IdentityFits(p.origin.value))
    && (p.qos.Some? ==> QoSFits(p.qos.value))
    && (forall i :: 0 <= i < |p.trace| ==> TraceFits(p.trace[i]))
    && (p.chunkInfo.Some? ==> ChunkFits(p.chunkInfo.value))
    && (forall i :: 0 <= i < |p.blobRefs| ==> BlobRefFits(p.blobRefs[i]))
    && (p.backpressure.Some? ==> BackpressureFits(p.backpressure.value))
    && (p.errorInfo.Some? ==> ErrorFits(p.errorInfo.value))
    && (p.ackInfo.Some? ==> ValidUtf8(p.ackInfo.value.message))
    && (p.modelInvocation.Some? ==> ModelFits(p.modelInvocation.value))
    && (p.toolInvocation.Some? ==> ToolFits(p.toolInvocation.value))
    && (forall i :: 0 <= i < |p.metadata| ==> MetaFits(p.metadata[i]))
  }

  /** No encoding step raises: numbers are in the range of their `struct` code,
      and lengths in the range of their prefix. */
  predicate Packable(p: Packet) {
    && AllOf(Encodable, p.symbols) && AllOf(Encodable, p.responseSymbols)
    && Texts(p.targets) && Texts(p.capabilities) && Texts(p.targetCaps)
    && ValidUtf8(p.intent) && ValidUtf8(p.schemaId)
    && InRange(8, p.confidence) && InRange(1, p.priority)
    && PartsFit(p)
  }

  // --- extension fields ---

  function When(present: bool, v: bytes): seq<bytes> { if present then [v] else [] }

  function PackTraces(es: seq<TraceEntry>): seq<bytes> {
    if es == [] then [] else [PackTrace(es[0])] + PackTraces(es[1..])
  }

  function PackBlobRefs(bs: seq<BlobRef>): seq<bytes> {
    if bs == [] then [] else [PackBlobRef(bs[0])] + PackBlobRefs(bs[1..])
  }

  function Present<T>(x: Option<T>, pack: T -> bytes): seq<bytes> { if x.Some? then [pack(x.value)] else [] }

  /** The values of the i-th extension field, which travels under tag 0x80 + i.
      An absent field has none. */
  function ExtValue(p: Packet, i: nat): seq<bytes> {
    match i
    case 0 => When(p.sessionId != [], p.sessionId)
    case 1 => Present(p.origin, PackIdentity)
    case 2 => When(p.targets != [], Join(p.targets))
    case 3 => When(p.intent != [], p.intent)
    case 4 => When(p.responseSymbols != [], EncodeAll(Python, p.responseSymbols))
    case 5 => When(p.confidence != ONE, Pack(8, p.confidence))
    case 6 => When(p.priority != 128, Pack(1, p.priority))
    case 7 => When(p.capabilities != [], Join(p.capabilities))
    case 8 => Present(p.qos, PackQoS)
    case 9 => When(OrEmpty(p.security) != [], OrEmpty(p.security))
    case 10 => PackTraces(p.trace)
    case 11 => Present(p.chunkInfo, PackChunk)
    case 12 => PackBlobRefs(p.blobRefs)
    case 13 => Present(p.backpressure, PackBackpressure)
    case 14 => Present(p.errorInfo, PackError)
    case 15 => Present(p.ackInfo, PackAck)
    case 16 => When(p.targetCaps != [], Join(p.targetCaps))
    case 17 => When(p.schemaId != [], p.schemaId)
    case 18 => When(OrEmpty(p.streamId) != [], OrEmpty(p.streamId))
    case 19 => When(OrEmpty(p.partialResult) != [], OrEmpty(p.partialResult))
    case 20 => Present(p.modelInvocation, PackModel)
    case 21 => Present(p.toolInvocation, PackTool)
    case 22 => When(p.metadata != [], PackMetadata(p.metadata))
    case _ => []
  }

  function ExtValues(p: Packet): (r: seq<seq<bytes>>)
    ensures |r| == EXT_COUNT && forall i :: 0 <= i < EXT_COUNT ==> r[i] == ExtValue(p, i)
  {
    seq(EXT_COUNT, i requires 0 <= i < EXT_COUNT => ExtValue(p, i))
  }

  function Vendors(tag: byte, vals: seq<bytes>): (r: seq<Operand>)
    ensures |r| == |vals| && forall i :: 0 <= i < |r| ==> r[i] == Vendor(tag, vals[i])
  {
    if vals == [] then [] else [Vendor(tag, vals[0])] + Vendors(tag, vals[1..])
  }

  /** Vendor operands for lists of values under consecutive tags. */
  function Tagged(tag: nat, vals: seq<seq<bytes>>): seq<Operand>
    requires tag + |vals| <= 256
    decreases |vals|, tag
  {
    if vals == [] then [] else Vendors(tag, vals[0]) + Tagged(tag + 1, vals[1..])
  }

  /** What `_append_extensions` appends. */
  function Extensions(p: Packet): seq<Operand> { Tagged(EXT_BASE, ExtValues(p)) }

  function Wired(p: Packet): seq<Operand> { p.symbols + Extensions(p) }

  predicate IsExtension(op: Operand) { op.Vendor? && op.vtag >= EXT_BASE }

  predicate AllExtensions(ops: seq<Operand>) { forall i :: 0 <= i < |ops| ==> IsExtension(ops[i]) }

  lemma {:induction false} TaggedAreExtensions(tag: nat, vals: seq<seq<bytes>>)
    requires EXT_BASE <= tag && tag + |vals| <= 256
    ensures AllExtensions(Tagged(tag, vals))
    decreases |vals|
  {
    if vals != [] {
      TaggedAreExtensions(tag + 1, vals[1..]);
      var a, b := Vendors(tag, vals[0]), Tagged(tag + 1, vals[1..]);
      assert AllExtensions(a) && AllExtensions(b);
      assert Tagged(tag, vals) == a + b;
    }
  }

  lemma {:induction false} ExtensionsAreReadable(ops: seq<Operand>)
    requires AllExtensions(ops)
    ensures AllOf(Encodable, ops) && AllOf(Maps(Python), ops)
  {
  }

  lemma {:induction false} WiredEncodable(p: Packet)
    requires AllOf(Encodable, p.symbols)
    ensures AllExtensions(Extensions(p)) && AllOf(Encodable, Wired(p))
  {
    TaggedAreExtensions(EXT_BASE, ExtValues(p));
    ExtensionsAreReadable(Extensions(p));
  }

  // --- payload and frame ---

  /** Opcode, operand count, operands. */
  function PayloadOf(operation: int, ops: seq<Operand>): (s: bytes)
    ensures |s| >= 2
  {
    [operation % 256] + (Prefix(Python, |ops|) + EncodeAll(Python, ops))
  }

  function Payload(p: Packet): bytes { PayloadOf(p.operation, Wired(p)) }

  function HeaderOf(p: Packet, checksum: bool): Header {
    Header(p.version, if checksum then WithTrailer(p.flags) else p.flags,
           p.messageId, p.correlationId, p.deadlineMs, |Payload(p)|)
  }

  /** `pack_header`. */
  function PackHeader(h: Header): Py<bytes> {
    if h.version != VERSION || |h.messageId| != 16 || |h.correlationId| != 16 then Err(HeaderError)
    else if h.payloadLength >= U32 || h.deadlineMs >= U32 then Err(HeaderError)
    else if !HeaderFits(h) then Err(StructError)
    else Ok(HeaderBytes(h))
  }

  /** A trailer over everything before it. */
  function Seal(s: bytes): bytes { s + Crc32.Crc(s) }

  /** `encode`. Whatever a packing step raises is one error here. */
  function Encode(p: Packet, checksum: bool): Py<bytes> {
    if !Packable(p) then Err(EncodeError)
    else
      var header :- PackHeader(HeaderOf(p, checksum));
      Ok(if checksum then Seal(header + Payload(p)) else header + Payload(p))
  }
}
