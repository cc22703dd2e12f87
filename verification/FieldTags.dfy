/** Which rich field travels under which vendor tag, in plain numbers. */
module FieldTags {
  import opened Wire
  import Varint
  import opened Operands
  import opened PyFields
  import opened PyPacket
  import opened PyView
  import opened PyRoundTrip

  /** The tags 0x80 to 0x96 carry the fields 0 to 22: under each of them stand the
      values of its field, in order, and nothing else does. */
  lemma {:induction false} FieldUnderTag(p: Packet, tag: byte)
    ensures ExtAll(Extensions(p), tag) == if 0x80 <= tag <= 0x96 then ExtValue(p, tag - 0x80) else []
  {
    var vals := ExtValues(p);
    assert 0x80 <= tag <= 0x96 ==> vals[tag - 0x80] == ExtValue(p, tag - 0x80);
    ValuesUnderTag(vals, tag);
  }

  lemma {:induction false} ValuesUnderTag(vals: seq<seq<bytes>>, tag: byte)
    requires |vals| == 23
    ensures ExtAll(Tagged(0x80, vals), tag) == if 0x80 <= tag <= 0x96 then vals[tag - 0x80] else []
  {
    ExtAllTagged(0x80, vals, tag);
  }

  function Optional(x: bytes): seq<bytes> { if x == [] then [] else [x] }

  /** Lists of names and texts, absent if they are empty. */
  lemma {:induction false} TextFields(p: Packet)
    ensures ExtValue(p, 0x80 - 0x80) == Optional(p.sessionId)
    ensures ExtValue(p, 0x82 - 0x80) == if p.targets == [] then [] else [Join(p.targets)]
    ensures ExtValue(p, 0x83 - 0x80) == Optional(p.intent)
    ensures ExtValue(p, 0x87 - 0x80) == if p.capabilities == [] then [] else [Join(p.capabilities)]
    ensures ExtValue(p, 0x89 - 0x80) == if p.security.None? then [] else Optional(p.security.value)
    ensures ExtValue(p, 0x90 - 0x80) == if p.targetCaps == [] then [] else [Join(p.targetCaps)]
    ensures ExtValue(p, 0x91 - 0x80) == Optional(p.schemaId)
    ensures ExtValue(p, 0x92 - 0x80) == if p.streamId.None? then [] else Optional(p.streamId.value)
    ensures ExtValue(p, 0x93 - 0x80) == if p.partialResult.None? then [] else Optional(p.partialResult.value)
  {
  }

  /** The symbols of the response, absent if there are none, and the two numbers,
      absent if they are 1.0 and 128. */
  lemma {:induction false} NumberFields(p: Packet)
    ensures ExtValue(p, 0x84 - 0x80) == if p.responseSymbols == [] then [] else [EncodeAll(Python, p.responseSymbols)]
    ensures ExtValue(p, 0x85 - 0x80) == if p.confidence == 0x3FF0_0000_0000_0000 then [] else [Pack(8, p.confidence)]
    ensures ExtValue(p, 0x86 - 0x80) == if p.priority == 128 then [] else [Pack(1, p.priority)]
  {
  }

  /** Records, absent if they are missing, and metadata, absent if it is empty. */
  lemma {:induction false} RecordFields(p: Packet)
    ensures ExtValue(p, 0x81 - 0x80) == if p.origin.None? then [] else [PackIdentity(p.origin.value)]
    ensures ExtValue(p, 0x88 - 0x80) == if p.qos.None? then [] else [PackQoS(p.qos.value)]
    ensures ExtValue(p, 0x8B - 0x80) == if p.chunkInfo.None? then [] else [PackChunk(p.chunkInfo.value)]
    ensures ExtValue(p, 0x8D - 0x80) == if p.backpressure.None? then [] else [PackBackpressure(p.backpressure.value)]
  {
  }

  lemma {:induction false} ReportFields(p: Packet)
    ensures ExtValue(p, 0x8E - 0x80) == if p.errorInfo.None? then [] else [PackError(p.errorInfo.value)]
    ensures ExtValue(p, 0x8F - 0x80) == if p.ackInfo.None? then [] else [PackAck(p.ackInfo.value)]
    ensures ExtValue(p, 0x94 - 0x80) == if p.modelInvocation.None? then [] else [PackModel(p.modelInvocation.value)]
    ensures ExtValue(p, 0x95 - 0x80) == if p.toolInvocation.None? then [] else [PackTool(p.toolInvocation.value)]
    ensures ExtValue(p, 0x96 - 0x80) == if p.metadata == [] then [] else [PackMetadata(p.metadata)]
  {
  }

  /** One value per trace entry, and one per blob reference. */
  lemma {:induction false} TracesPacked(es: seq<TraceEntry>)
    ensures |PackTraces(es)| == |es| && forall i :: 0 <= i < |es| ==> PackTraces(es)[i] == PackTrace(es[i])
  {
    if es != [] { TracesPacked(es[1..]); }
  }

  lemma {:induction false} BlobRefsPacked(bs: seq<BlobRef>)
    ensures |PackBlobRefs(bs)| == |bs| && forall i :: 0 <= i < |bs| ==> PackBlobRefs(bs)[i] == PackBlobRef(bs[i])
  {
    if bs != [] { BlobRefsPacked(bs[1..]); }
  }

  lemma {:induction false} ListFields(p: Packet)
    ensures ExtValue(p, 0x8A - 0x80) == PackTraces(p.trace)
    ensures ExtValue(p, 0x8C - 0x80) == PackBlobRefs(p.blobRefs)
  {
  }

  /** Vendor operands with tags in lo..hi, in the order of their tags. */
  predicate InTagOrder(ops: seq<Operand>, lo: int, hi: int) {
    && (forall i :: 0 <= i < |ops| ==> ops[i].Vendor? && lo <= ops[i].vtag <= hi)
    && (forall i, j :: 0 <= i < j < |ops| ==> ops[i].vtag <= ops[j].vtag)
  }

  lemma {:induction false} TaggedInOrder(tag: nat, vals: seq<seq<bytes>>)
    requires tag + |vals| <= 256
    ensures InTagOrder(Tagged(tag, vals), tag, tag + |vals| - 1)
    decreases |vals|
  {
    if vals != [] {
      TaggedInOrder(tag + 1, vals[1..]);
      JoinInOrder(Vendors(tag, vals[0]), Tagged(tag + 1, vals[1..]), tag, tag + |vals| - 1);
    }
  }

  lemma {:induction false} JoinInOrder(a: seq<Operand>, b: seq<Operand>, tag: nat, hi: int)
    requires InTagOrder(a, tag, tag) && InTagOrder(b, tag + 1, hi) && tag <= hi
    ensures InTagOrder(a + b, tag, hi)
  {
  }

  /** The operands of a packet: its symbols, then vendor operands with the tags 0x80
      to 0x96 in order. The payload is the operation, their count, and they. */
  lemma {:induction false} PayloadWritten(p: Packet)
    ensures var ext := Extensions(p); var ops := p.symbols + ext;
      && InTagOrder(ext, 0x80, 0x96)
      && Payload(p)[0] == p.operation % 0x100
      && Payload(p)[1..] == Varint.Encode(|ops|) + EncodeAll(Python, ops)
  {
    TaggedInOrder(0x80, ExtValues(p));
  }

  // --- what a view makes of any values ---

  /** The first value under a tag, if it is not empty. */
  predicate Has(v: View, tag: byte, x: bytes) { Lookup(v.extensions, tag) != [] && Lookup(v.extensions, tag)[0] == x && x != [] }

  /** There is none, or an empty one. */
  predicate Lacks(v: View, tag: byte) { Lookup(v.extensions, tag) == [] || Lookup(v.extensions, tag)[0] == [] }

  /** Texts that are there are shown, unless they are not UTF-8. */
  lemma {:induction false} TextsShown(v: View, x: bytes)
    ensures Has(v, 0x83, x) ==> Intent(v) == if ValidUtf8(x) then Ok(x) else Err(UnicodeError)
    ensures Lacks(v, 0x83) ==> Intent(v) == Ok([])
    ensures Has(v, 0x91, x) ==> SchemaId(v) == if ValidUtf8(x) then Ok(x) else Err(UnicodeError)
    ensures Lacks(v, 0x91) ==> SchemaId(v) == Ok([])
  {
  }

  /** Numbers that are there are shown, unless they are too short; otherwise 1.0 and
      128. */
  lemma {:induction false} NumbersShown(v: View, x: bytes)
    ensures Has(v, 0x85, x) ==> Confidence(v) == if |x| < 8 then Err(StructError) else Ok(FromBE(x[0..8]))
    ensures Lacks(v, 0x85) ==> Confidence(v) == Ok(0x3FF0_0000_0000_0000)
    ensures Has(v, 0x86, x) ==> Priority(v) == x[0]
    ensures Lacks(v, 0x86) ==> Priority(v) == 128
  {
  }
}
