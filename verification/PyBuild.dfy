/** `build_payload` step by step: every packing step can raise, and the rich
    fields are appended one after the other. */
module PyBuild {
  import opened Wire
  import Varint
  import opened Operands
  import opened OperandLaws
  import opened PyFields
  import opened PyPacket
  import PyOperands

  // --- packing steps ---

  /** `struct.pack` of one unsigned number. */
  function TryPack(w: nat, n: int): Py<bytes> { if InRange(w, n) then Ok(Pack(w, n)) else Err(StructError) }

  function TrySigned(w: nat, n: int): Py<bytes> { if FitsSigned(w, n) then Ok(PackSigned(w, n)) else Err(StructError) }

  /** `.encode()`. */
  function TryText(s: bytes): Py<bytes> { if ValidUtf8(s) then Ok(s) else Err(UnicodeError) }

  function TryIdentity(x: Identity): (r: Py<bytes>)
    ensures r.Ok? <==> IdentityFits(x)
    ensures r.Ok? ==> r.value == PackIdentity(x)
  {
    var name :- TryText(x.name);
    var nl :- if |name| > 255 then Err(ValueError) else TryPack(1, |name|);
    var idType :- TryPack(1, x.idType);
    var instance :- TryPack(4, x.instanceId);
    Ok(idType + nl + name + instance)
  }

  function TryQoS(x: QoS): (r: Py<bytes>)
    ensures r.Ok? <==> QoSFits(x)
    ensures r.Ok? ==> r.value == PackQoS(x)
  {
    var a :- TryPack(1, x.priorityClass);
    var b :- TryPack(1, x.reliability);
    var c :- TryPack(1, x.ordering);
    var d :- TryPack(1, x.deliveryMode);
    var e :- TryPack(4, x.maxRetries);
    var f :- TryPack(4, x.retryDelayMs);
    Ok(a + b + c + d + e + f)
  }

  function TryTrace(x: TraceEntry): (r: Py<bytes>)
    ensures r.Ok? <==> TraceFits(x)
    ensures r.Ok? ==> r.value == PackTrace(x)
  {
    var name :- TryText(x.actorName);
    var action :- TryText(x.action);
    var a :- TryPack(1, x.actorType);
    var b :- TryPack(1, |name|);
    var c :- TryPack(1, |action|);
    var ts :- TrySigned(8, x.timestampMs);
    var dur :- TrySigned(4, x.durationUs);
    Ok(a + b + c + name + action + ts + dur)
  }

  function TryChunk(x: ChunkInfo): (r: Py<bytes>)
    ensures r.Ok? <==> ChunkFits(x)
    ensures r.Ok? ==> r.value == PackChunk(x)
  {
    var a :- TryPack(1, x.totalChunks);
    var b :- TryPack(1, x.chunkIndex);
    var c :- TryPack(4, x.originalSize);
    var d :- TryPack(4, x.chunkOffset);
    var e :- TryPack(4, x.chunkSize);
    Ok(a + b + c + d + e)
  }

  /** The native code "BBI": padding, and the number little-endian. */
  function TryBlobRef(x: BlobRef): (r: Py<bytes>)
    ensures r.Ok? <==> BlobRefFits(x)
    ensures r.Ok? ==> r.value == PackBlobRef(x)
  {
    var id :- TryText(x.identifier);
    var a :- TryPack(1, x.refType);
    var b :- TryPack(1, |id|);
    var s :- TryPack(4, x.size);
    var o :- TryPack(4, x.offset);
    Ok(a + b + [0, 0] + [s[3], s[2], s[1], s[0]] + o + id)
  }

  function TryBackpressure(x: Backpressure): (r: Py<bytes>)
    ensures r.Ok? <==> BackpressureFits(x)
    ensures r.Ok? ==> r.value == PackBackpressure(x)
  {
    var a :- TryPack(4, x.queueDepth);
    var b :- TryPack(4, x.maxQueue);
    var c :- TryPack(2, x.dropReason);
    var d :- TryPack(2, x.retryAfterMs);
    Ok(a + b + c + d)
  }

  function TryError(x: ErrorInfo): (r: Py<bytes>)
    ensures r.Ok? <==> ErrorFits(x)
    ensures r.Ok? ==> r.value == PackError(x)
  {
    var message :- TryText(x.message);
    var details :- TryText(OrEmpty(x.details));
    var a :- TryPack(2, x.errorCode);
    var b :- TryPack(2, x.severity);
    var c :- TryPack(1, |message|);
    var d :- TryPack(2, |details|);
    Ok(a + b + c + message + d + details)
  }

  function TryAck(x: AckInfo): (r: Py<bytes>)
    ensures r.Ok? <==> ValidUtf8(x.message)
    ensures r.Ok? ==> r.value == PackAck(x)
  {
    var message :- TryText(x.message);
    Ok([0] + message)
  }

  function TryModel(x: ModelInvocation): (r: Py<bytes>)
    ensures r.Ok? <==> ModelFits(x)
    ensures r.Ok? ==> r.value == PackModel(x)
  {
    var name :- TryText(x.modelName);
    var task :- TryText(x.task);
    var json :- TryText(x.parametersJson);
    var a :- TryPack(1, |name|);
    var b :- TryPack(1, |task|);
    var c :- TryPack(1, |json|);
    var d :- TryPack(4, x.timeoutMs);
    Ok(a + b + c + name + task + json + d)
  }

  function TryTool(x: ToolInvocation): (r: Py<bytes>)
    ensures r.Ok? <==> ToolFits(x)
    ensures r.Ok? ==> r.value == PackTool(x)
  {
    var name :- TryText(x.toolName);
    var json :- TryText(x.parametersJson);
    var a :- TryPack(1, |name|);
    var b :- TryPack(1, |json|);
    var c :- TryPack(4, x.timeoutMs);
    Ok(a + b + name + json + c)
  }

  function TryMeta(m: Meta): (r: Py<bytes>)
    ensures r.Ok? <==> MetaFits(m)
    ensures r.Ok? ==> r.value == PackMeta(m)
  {
    var key :- TryText(m.key);
    var value :- TryText(m.value);
    var a :- TryPack(1, |key|);
    var b :- TryPack(2, |value|);
    Ok(a + key + b + value)
  }

  // --- fields of several parts ---

  predicate AllTraces(es: seq<TraceEntry>) { forall i :: 0 <= i < |es| ==> TraceFits(es[i]) }

  predicate AllBlobRefs(bs: seq<BlobRef>) { forall i :: 0 <= i < |bs| ==> BlobRefFits(bs[i]) }

  predicate AllMeta(ms: seq<Meta>) { forall i :: 0 <= i < |ms| ==> MetaFits(ms[i]) }

  lemma {:induction false} AssocVals(a: seq<bytes>, b: seq<bytes>, c: seq<bytes>)
    ensures a + b + c == a + (b + c)
  {
  }

  lemma {:induction false} TracesSnoc(es: seq<TraceEntry>, x: TraceEntry)
    ensures PackTraces(es + [x]) == PackTraces(es) + [PackTrace(x)]
    decreases |es|
  {
    if es == [] {
      assert es + [x] == [x] && [x][1..] == [];
    } else {
      assert (es + [x])[0] == es[0] && (es + [x])[1..] == es[1..] + [x];
      TracesSnoc(es[1..], x);
      AssocVals([PackTrace(es[0])], PackTraces(es[1..]), [PackTrace(x)]);
    }
  }

  lemma {:induction false} TracesGrow(es: seq<TraceEntry>, i: nat)
    requires i < |es|
    ensures PackTraces(es[..i + 1]) == PackTraces(es[..i]) + [PackTrace(es[i])]
  {
    OneMore(es, i);
    TracesSnoc(es[..i], es[i]);
  }

  /** The loop over the trace: one value per entry. */
  method BuildTraces(es: seq<TraceEntry>) returns (r: Py<seq<bytes>>)
    ensures r.Ok? <==> AllTraces(es)
    ensures r.Ok? ==> r.value == PackTraces(es)
  {
    var out: seq<bytes> := [];
    for i := 0 to |es|
      invariant AllTraces(es[..i]) && out == PackTraces(es[..i])
    {
      var x :- TryTrace(es[i]);
      TracesGrow(es, i);
      OneMore(es, i);
      out := out + [x];
    }
    assert es[..|es|] == es;
    return Ok(out);
  }

  lemma {:induction false} BlobRefsSnoc(bs: seq<BlobRef>, x: BlobRef)
    ensures PackBlobRefs(bs + [x]) == PackBlobRefs(bs) + [PackBlobRef(x)]
    decreases |bs|
  {
    if bs == [] {
      assert bs + [x] == [x] && [x][1..] == [];
    } else {
      assert (bs + [x])[0] == bs[0] && (bs + [x])[1..] == bs[1..] + [x];
      BlobRefsSnoc(bs[1..], x);
      AssocVals([PackBlobRef(bs[0])], PackBlobRefs(bs[1..]), [PackBlobRef(x)]);
    }
  }

  lemma {:induction false} BlobRefsGrow(bs: seq<BlobRef>, i: nat)
    requires i < |bs|
    ensures PackBlobRefs(bs[..i + 1]) == PackBlobRefs(bs[..i]) + [PackBlobRef(bs[i])]
  {
    OneMore(bs, i);
    BlobRefsSnoc(bs[..i], bs[i]);
  }

  method BuildBlobRefs(bs: seq<BlobRef>) returns (r: Py<seq<bytes>>)
    ensures r.Ok? <==> AllBlobRefs(bs)
    ensures r.Ok? ==> r.value == PackBlobRefs(bs)
  {
    var out: seq<bytes> := [];
    for i := 0 to |bs|
      invariant AllBlobRefs(bs[..i]) && out == PackBlobRefs(bs[..i])
    {
      var x :- TryBlobRef(bs[i]);
      BlobRefsGrow(bs, i);
      OneMore(bs, i);
      out := out + [x];
    }
    assert bs[..|bs|] == bs;
    return Ok(out);
  }

  lemma {:induction false} MetadataSnoc(ms: seq<Meta>, x: Meta)
    ensures PackMetadata(ms + [x]) == PackMetadata(ms) + PackMeta(x)
    decreases |ms|
  {
    if ms == [] {
      assert ms + [x] == [x] && [x][1..] == [];
    } else {
      assert (ms + [x])[0] == ms[0] && (ms + [x])[1..] == ms[1..] + [x];
      MetadataSnoc(ms[1..], x);
      Assoc(PackMeta(ms[0]), PackMetadata(ms[1..]), PackMeta(x));
    }
  }

  lemma {:induction false} MetadataGrows(ms: seq<Meta>, i: nat)
    requires i < |ms|
    ensures PackMetadata(ms[..i + 1]) == PackMetadata(ms[..i]) + PackMeta(ms[i])
  {
    OneMore(ms, i);
    MetadataSnoc(ms[..i], ms[i]);
  }

  method BuildMetadata(ms: seq<Meta>) returns (r: Py<bytes>)
    ensures r.Ok? <==> AllMeta(ms)
    ensures r.Ok? ==> r.value == PackMetadata(ms)
  {
    var out: bytes := [];
    for i := 0 to |ms|
      invariant AllMeta(ms[..i]) && out == PackMetadata(ms[..i])
    {
      var x :- TryMeta(ms[i]);
      MetadataGrows(ms, i);
      OneMore(ms, i);
      out := out + x;
    }
    assert ms[..|ms|] == ms;
    return Ok(out);
  }

  /** `b"".join(encode_symbol(s) for s in symbols)`. */
  method EncodeSymbols(ops: seq<Operand>) returns (r: Py<bytes>)
    ensures r.Ok? <==> AllOf(Encodable, ops)
    ensures r.Ok? ==> r.value == EncodeAll(Python, ops)
  {
    var out: bytes := [];
    for i := 0 to |ops|
      invariant AllOf(Encodable, ops[..i]) && out == EncodeAll(Python, ops[..i])
    {
      var item := PyOperands.EncodeSymbol(ops[i]);
      if item.Err? {
        return Err(SymbolError(item.error));
      }
      assert ops[..i + 1] == ops[..i] + [ops[i]];
      EncodeAllAppend(Python, ops[..i], ops[i]);
      out := out + item.value;
    }
    assert ops[..|ops|] == ops;
    return Ok(out);
  }

  function TryNames(names: seq<bytes>): Py<bytes> { if Texts(names) then Ok(Join(names)) else Err(UnicodeError) }

  // --- `_append_extensions` ---

  /** The vendor operands of the first n fields. */
  function Upto(p: Packet, n: nat): seq<Operand>
    requires n <= EXT_COUNT
  {
    Tagged(EXT_BASE, ExtValues(p)[..n])
  }

  lemma {:induction false} TaggedAppend(tag: nat, vals: seq<seq<bytes>>, v: seq<bytes>)
    requires tag + |vals| + 1 <= 256
    ensures Tagged(tag, vals + [v]) == Tagged(tag, vals) + Vendors(tag + |vals|, v)
    decreases |vals|
  {
    var all := vals + [v];
    if vals == [] {
      assert all == [v] && all[1..] == [];
      assert Vendors(tag, v) + [] == Vendors(tag, v) == [] + Vendors(tag, v);
    } else {
      assert all[1..] == vals[1..] + [v];
      TaggedAppend(tag + 1, vals[1..], v);
      assert tag + 1 + |vals[1..]| == tag + |vals|;
      AssocOps(Vendors(tag, vals[0]), Tagged(tag + 1, vals[1..]), Vendors(tag + |vals|, v));
    }
  }

  lemma {:induction false} AssocOps(a: seq<Operand>, b: seq<Operand>, c: seq<Operand>)
    ensures a + b + c == a + (b + c)
  {
  }

  lemma {:induction false} UptoNext(p: Packet, i: nat, vals: seq<bytes>)
    requires i < EXT_COUNT && vals == ExtValue(p, i)
    ensures Upto(p, i + 1) == Upto(p, i) + Vendors(EXT_BASE + i, vals)
  {
    assert ExtValues(p)[..i + 1] == ExtValues(p)[..i] + [vals];
    TaggedAppend(EXT_BASE, ExtValues(p)[..i], vals);
  }

  lemma {:induction false} UptoEnds(p: Packet)
    ensures Upto(p, 0) == [] && Upto(p, EXT_COUNT) == Extensions(p)
  {
    assert ExtValues(p)[..EXT_COUNT] == ExtValues(p);
  }

  /** No step of the i-th field raises. */
  predicate FieldOk(p: Packet, i: nat) {
    match i
    case 1 => p.origin.Some? ==> IdentityFits(p.origin.value)
    case 2 => Texts(p.targets)
    case 3 => ValidUtf8(p.intent)
    case 4 => AllOf(Encodable, p.responseSymbols)
    case 5 => InRange(8, p.confidence)
    case 6 => InRange(1, p.priority)
    case 7 => Texts(p.capabilities)
    case 8 => p.qos.Some? ==> QoSFits(p.qos.value)
    case 10 => AllTraces(p.trace)
    case 11 => p.chunkInfo.Some? ==> ChunkFits(p.chunkInfo.value)
    case 12 => AllBlobRefs(p.blobRefs)
    case 13 => p.backpressure.Some? ==> BackpressureFits(p.backpressure.value)
    case 14 => p.errorInfo.Some? ==> ErrorFits(p.errorInfo.value)
    case 15 => p.ackInfo.Some? ==> ValidUtf8(p.ackInfo.value.message)
    case 16 => Texts(p.targetCaps)
    case 17 => ValidUtf8(p.schemaId)
    case 20 => p.modelInvocation.Some? ==> ModelFits(p.modelInvocation.value)
    case 21 => p.toolInvocation.Some? ==> ToolFits(p.toolInvocation.value)
    case 22 => AllMeta(p.metadata)
    case _ => true
  }

  /** The value of a field under its condition. */
  function Under(present: bool, raw: Py<bytes>): Py<seq<bytes>> {
    if !present then Ok([])
    else
      var x :- raw;
      Ok([x])
  }

  function OfRecord<T>(x: Option<T>, pack: T -> Py<bytes>): Py<seq<bytes>> {
    if x.None? then Ok([]) else Under(true, pack(x.value))
  }

  /** The fields that take one step or a few. */
  function FieldTry(p: Packet, i: nat): Py<seq<bytes>> {
    match i
    case 0 => Ok(When(p.sessionId != [], p.sessionId))
    case 1 => OfRecord(p.origin, TryIdentity)
    case 2 => Under(p.targets != [], TryNames(p.targets))
    case 3 => Under(p.intent != [], TryText(p.intent))
    case 5 => Under(p.confidence != ONE, TryPack(8, p.confidence))
    case 6 => Under(p.priority != 128, TryPack(1, p.priority))
    case 7 => Under(p.capabilities != [], TryNames(p.capabilities))
    case 8 => OfRecord(p.qos, TryQoS)
    case 9 => Ok(When(OrEmpty(p.security) != [], OrEmpty(p.security)))
    case 11 => OfRecord(p.chunkInfo, TryChunk)
    case 13 => OfRecord(p.backpressure, TryBackpressure)
    case 14 => OfRecord(p.errorInfo, TryError)
    case 15 => OfRecord(p.ackInfo, TryAck)
    case 16 => Under(p.targetCaps != [], TryNames(p.targetCaps))
    case 17 => Under(p.schemaId != [], TryText(p.schemaId))
    case 18 => Ok(When(OrEmpty(p.streamId) != [], OrEmpty(p.streamId)))
    case 19 => Ok(When(OrEmpty(p.partialResult) != [], OrEmpty(p.partialResult)))
    case 20 => OfRecord(p.modelInvocation, TryModel)
    case 21 => OfRecord(p.toolInvocation, TryTool)
    case _ => Ok([])
  }

  lemma {:induction false} FieldTried(p: Packet, i: nat)
    requires i < EXT_COUNT && i !in {4, 10, 12, 22}
    ensures FieldTry(p, i).Ok? <==> FieldOk(p, i)
    ensures FieldTry(p, i).Ok? ==> FieldTry(p, i).value == ExtValue(p, i)
  {
    if i < 7 {
      LowFieldTried(p, i);
    } else if i < 11 {
      NextFieldTried(p, i);
    } else if i < 15 {
      MiddleFieldTried(p, i);
    } else if i < 19 {
      HighFieldTried(p, i);
    } else {
      LastFieldTried(p, i);
    }
  }

  lemma {:induction false} LowFieldTried(p: Packet, i: nat)
    requires i < 7 && i != 4
    ensures FieldTry(p, i).Ok? <==> FieldOk(p, i)
    ensures FieldTry(p, i).Ok? ==> FieldTry(p, i).value == ExtValue(p, i)
  {
    OneIsPattern();
  }

  lemma {:induction false} NextFieldTried(p: Packet, i: nat)
    requires 7 <= i < 11 && i != 10
    ensures FieldTry(p, i).Ok? <==> FieldOk(p, i)
    ensures FieldTry(p, i).Ok? ==> FieldTry(p, i).value == ExtValue(p, i)
  {
  }

  lemma {:induction false} LastFieldTried(p: Packet, i: nat)
    requires 19 <= i < 22
    ensures FieldTry(p, i).Ok? <==> FieldOk(p, i)
    ensures FieldTry(p, i).Ok? ==> FieldTry(p, i).value == ExtValue(p, i)
  {
  }

  lemma {:induction false} MiddleFieldTried(p: Packet, i: nat)
    requires 11 <= i < 15 && i != 12
    ensures FieldTry(p, i).Ok? <==> FieldOk(p, i)
    ensures FieldTry(p, i).Ok? ==> FieldTry(p, i).value == ExtValue(p, i)
  {
  }

  lemma {:induction false} HighFieldTried(p: Packet, i: nat)
    requires 15 <= i < 19
    ensures FieldTry(p, i).Ok? <==> FieldOk(p, i)
    ensures FieldTry(p, i).Ok? ==> FieldTry(p, i).value == ExtValue(p, i)
  {
  }

  lemma {:induction false} OneIsPattern()
    ensures InRange(8, ONE) && InRange(1, 128)
  {
    Pow256Values();
  }

  /** The values of one field, the loops over traces, blob references, symbols and
      metadata included. */
  method BuildField(p: Packet, i: nat) returns (r: Py<seq<bytes>>)
    requires i < EXT_COUNT
    ensures r.Ok? <==> FieldOk(p, i)
    ensures r.Ok? ==> r.value == ExtValue(p, i)
  {
    if i in {4, 10, 12, 22} {
      r := BuildLongField(p, i);
    } else {
      FieldTried(p, i);
      r := FieldTry(p, i);
    }
  }

  /** The four fields that take a loop. */
  method BuildLongField(p: Packet, i: nat) returns (r: Py<seq<bytes>>)
    requires i in {4, 10, 12, 22}
    ensures r.Ok? <==> FieldOk(p, i)
    ensures r.Ok? ==> r.value == ExtValue(p, i)
  {
    if i == 4 {
      var raw :- EncodeSymbols(p.responseSymbols);
      return Ok(When(p.responseSymbols != [], raw));
    } else if i == 10 {
      r := BuildTraces(p.trace);
    } else if i == 12 {
      r := BuildBlobRefs(p.blobRefs);
    } else {
      var raw :- BuildMetadata(p.metadata);
      return Ok(When(p.metadata != [], raw));
    }
  }

  /** One condition of `_append_extensions`: the values of the field, appended under
      its tag. */
  method AppendField(p: Packet, i: nat, out: seq<Operand>) returns (r: Py<seq<Operand>>)
    requires i < EXT_COUNT && out == Upto(p, i)
    ensures r.Ok? <==> FieldOk(p, i)
    ensures r.Ok? ==> r.value == Upto(p, i + 1)
  {
    var vals :- BuildField(p, i);
    UptoNext(p, i, vals);
    return Ok(out + Vendors(EXT_BASE + i, vals));
  }

  predicate FieldsOk(p: Packet, n: nat) { forall i: nat :: i < n ==> FieldOk(p, i) }

  /** `_append_extensions`: its conditions one after the other, each a turn here, up
      to the first that raises. */
  method AppendExtensions(p: Packet) returns (r: Py<seq<Operand>>)
    ensures r.Ok? <==> FieldsOk(p, EXT_COUNT)
    ensures r.Ok? ==> r.value == Extensions(p)
  {
    var out: seq<Operand> := [];
    UptoEnds(p);
    for i := 0 to EXT_COUNT
      invariant out == Upto(p, i) && FieldsOk(p, i)
    {
      out :- AppendField(p, i, out);
    }
    return Ok(out);
  }

  /** The pieces together are what a packet needs in order to be written. */
  lemma {:induction false} PackableSplits(p: Packet)
    ensures Packable(p) <==> AllOf(Encodable, p.symbols) && FieldsOk(p, EXT_COUNT)
  {
    if FieldsOk(p, EXT_COUNT) {
      assert FieldOk(p, 1) && FieldOk(p, 2) && FieldOk(p, 3) && FieldOk(p, 4) && FieldOk(p, 5) && FieldOk(p, 6);
      assert FieldOk(p, 7) && FieldOk(p, 8) && FieldOk(p, 10) && FieldOk(p, 11) && FieldOk(p, 12) && FieldOk(p, 13);
      assert FieldOk(p, 14) && FieldOk(p, 15) && FieldOk(p, 16) && FieldOk(p, 17) && FieldOk(p, 20);
      assert FieldOk(p, 21) && FieldOk(p, 22);
    }
  }

  // --- the payload ---

  /** Opcode, count and operands. */
  method WritePayload(operation: int, operands: seq<Operand>) returns (r: Py<bytes>)
    ensures r.Ok? <==> AllOf(Encodable, operands)
    ensures r.Ok? ==> r.value == PayloadOf(operation, operands)
  {
    var count := Varint.PyEncode(|operands|);
    var body :- EncodeSymbols(operands);
    return Ok([operation % 256] + (count.value + body));
  }

  /** `build_payload`: the payload, or the error of the first step that raises. */
  method BuildPayload(p: Packet) returns (r: Py<bytes>)
    ensures r.Ok? <==> Packable(p)
    ensures r.Ok? ==> r.value == Payload(p)
  {
    PackableSplits(p);
    var extensions :- AppendExtensions(p);
    WiredSplits(p);
    r := WritePayload(p.operation, p.symbols + extensions);
  }

  lemma {:induction false} WiredSplits(p: Packet)
    ensures AllOf(Encodable, Wired(p)) <==> AllOf(Encodable, p.symbols)
  {
    TaggedAreExtensions(EXT_BASE, ExtValues(p));
    ExtensionsAreReadable(Extensions(p));
    forall i | 0 <= i < |p.symbols|
      ensures Wired(p)[i] == p.symbols[i]
    {
    }
  }
}
