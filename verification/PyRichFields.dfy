/** End to end in Python, the rich fields: every property of the decoded view
    gives back the field that the packet was built with. */
module PyRichFields {
  import opened Wire
  import opened Operands
  import opened OperandReading
  import opened Frame
  import opened PyFields
  import opened PyPacket
  import opened PyView
  import opened PyRoundTrip

  predicate NamesOk(names: seq<bytes>) { forall i :: 0 <= i < |names| ==> Joinable(names[i]) }

  lemma {:induction false} HeldAt(v: View, p: Packet, i: nat, vals: seq<bytes>)
    requires Carries(v, p) && i < EXT_COUNT && ExtValue(p, i) == vals
    ensures Held(v, i, vals)
  {
  }

  lemma {:induction false} JoinNonEmpty(names: seq<bytes>)
    requires names != [] && NamesOk(names)
    ensures Join(names) != []
  {
  }

  lemma {:induction false} NamesBack(names: seq<bytes>)
    requires NamesOk(names) && Texts(names)
    ensures NamesOf(Join(names)) == Ok(names)
  {
    SplitUtf8(names);
    SplitJoin(names);
  }

  lemma {:induction false} NamesFieldBack(v: View, i: nat, names: seq<bytes>)
    requires i < EXT_COUNT && Held(v, i, When(names != [], Join(names))) && Texts(names) && NamesOk(names)
    ensures NamesField(v, EXT_BASE + i) == Ok(names)
  {
    if names != [] {
      JoinNonEmpty(names);
      NamesBack(names);
    }
  }

  lemma {:induction false} TextFieldBack(v: View, i: nat, text: bytes)
    requires i < EXT_COUNT && Held(v, i, When(text != [], text)) && ValidUtf8(text)
    ensures TextField(v, EXT_BASE + i) == Ok(text)
  {
  }

  lemma {:induction false} BytesFieldBack(v: View, i: nat, x: Option<bytes>)
    requires i < EXT_COUNT && Held(v, i, When(OrEmpty(x) != [], OrEmpty(x)))
    ensures ExtOne(v, EXT_BASE + i) == Truthy(x)
  {
  }

  lemma {:induction false} ConfidenceField(v: View, confidence: int)
    requires Held(v, 5, When(confidence != ONE, Pack(8, confidence))) && InRange(8, confidence)
    ensures Confidence(v) == Ok(confidence)
  {
    var c := Pack(8, confidence);
    assert c[0..0 + 8] == c;
  }

  lemma {:induction false} PriorityField(v: View, priority: int)
    requires Held(v, 6, When(priority != 128, Pack(1, priority))) && InRange(1, priority)
    ensures Priority(v) == priority
  {
    OneByte(priority);
  }

  lemma {:induction false} ResponseField(v: View, ops: seq<Operand>)
    requires Held(v, 4, When(ops != [], EncodeAll(Python, ops))) && AllOf(Portable(Python), ops)
    ensures ResponseSymbols(v) == Ok(ops)
  {
    SequenceRoundTrip(Python, ops);
  }

  lemma {:induction false} TracesBack(es: seq<TraceEntry>)
    requires forall i :: 0 <= i < |es| ==> TraceFits(es[i])
    ensures Traces(PackTraces(es)) == Ok(es)
  {
    if es != [] {
      TraceBack(es[0]);
      TracesBack(es[1..]);
      TracesCons(PackTrace(es[0]), PackTraces(es[1..]), es[0], es[1..]);
      FirstAndRest(es);
    }
  }

  lemma {:induction false} TracesCons(d: bytes, ds: seq<bytes>, x: TraceEntry, xs: seq<TraceEntry>)
    requires UnpackTrace(d) == Ok(x) && Traces(ds) == Ok(xs)
    ensures Traces([d] + ds) == Ok([x] + xs)
  {
    assert ([d] + ds)[1..] == ds;
  }

  lemma {:induction false} OriginField(v: View, x: Option<Identity>)
    requires Held(v, 1, Present(x, PackIdentity)) && (x.Some? ==> IdentityFits(x.value))
    ensures Origin(v) == Ok(x)
  {
    if x.Some? {
      IdentityBack(x.value);
      NonEmpty(PackIdentity(x.value), Pack(4, x.value.instanceId));
    }
  }

  lemma {:induction false} NonEmpty(whole: bytes, part: bytes)
    requires |part| > 0 && |whole| >= |part|
    ensures whole != []
  {
  }

  lemma {:induction false} QoSField(v: View, x: Option<QoS>)
    requires Held(v, 8, Present(x, PackQoS)) && (x.Some? ==> QoSFits(x.value))
    ensures QualityOfService(v) == Ok(x)
  {
    if x.Some? { QoSBack(x.value); }
  }

  lemma {:induction false} ChunkField(v: View, x: Option<ChunkInfo>)
    requires Held(v, 11, Present(x, PackChunk)) && (x.Some? ==> ChunkFits(x.value))
    ensures Chunk(v) == Ok(x)
  {
    if x.Some? { ChunkBack(x.value); }
  }

  lemma {:induction false} PressureField(v: View, x: Option<Backpressure>)
    requires Held(v, 13, Present(x, PackBackpressure)) && (x.Some? ==> BackpressureFits(x.value))
    ensures Pressure(v) == Ok(x)
  {
    if x.Some? { BackpressureBack(x.value); }
  }

  /** An error whose details are the empty string comes back with no details. */
  function ErrorShown(e: Option<ErrorInfo>): Option<ErrorInfo> {
    if e.Some? then Some(e.value.(details := Truthy(e.value.details))) else None
  }

  lemma {:induction false} ErrorField(v: View, x: Option<ErrorInfo>)
    requires Held(v, 14, Present(x, PackError)) && (x.Some? ==> ErrorFits(x.value))
    ensures ErrorOf(v) == Ok(ErrorShown(x))
  {
    if x.Some? { ErrorBack(x.value); }
  }

  lemma {:induction false} ModelField(v: View, x: Option<ModelInvocation>)
    requires Held(v, 20, Present(x, PackModel)) && (x.Some? ==> ModelFits(x.value))
    ensures Model(v) == Ok(x)
  {
    if x.Some? { ModelBack(x.value); }
  }

  lemma {:induction false} ToolField(v: View, x: Option<ToolInvocation>)
    requires Held(v, 21, Present(x, PackTool)) && (x.Some? ==> ToolFits(x.value))
    ensures Tool(v) == Ok(x)
  {
    if x.Some? { ToolBack(x.value); }
  }

  lemma {:induction false} MetadataField(v: View, ms: seq<Meta>)
    requires Held(v, 22, When(ms != [], PackMetadata(ms))) && DistinctMeta(ms)
    requires forall i :: 0 <= i < |ms| ==> MetaFits(ms[i])
    ensures Metadata(v) == Ok(ms)
  {
    if ms != [] {
      MetadataOnWire(ms);
      MetadataRead(v, PackMetadata(ms), ms);
    }
  }

  lemma {:induction false} MetadataOnWire(ms: seq<Meta>)
    requires ms != [] && DistinctMeta(ms) && forall i :: 0 <= i < |ms| ==> MetaFits(ms[i])
    ensures PackMetadata(ms) != [] && UnpackMetadata(PackMetadata(ms), []) == Ok(ms)
  {
    assert [] + ms == ms;
    OneByte(|ms[0].key|);
    assert |PackMetadata(ms)| >= |PackMeta(ms[0])| >= 1;
    MetadataBack(ms, []);
  }

  lemma {:induction false} MetadataRead(v: View, blob: bytes, ms: seq<Meta>)
    requires blob != [] && Held(v, 22, [blob]) && UnpackMetadata(blob, []) == Ok(ms)
    ensures Metadata(v) == Ok(ms)
  {
  }

  /** The response symbols sit inside the payload, so its size bounds theirs. */
  lemma {:induction false} ResponsePortable(p: Packet)
    requires Packable(p) && AllOf(Maps(Python), p.responseSymbols) && |Payload(p)| <= MAX_PAYLOAD
    ensures AllOf(Portable(Python), p.responseSymbols)
  {
    if p.responseSymbols != [] {
      var e := EncodeAll(Python, p.responseSymbols);
      WiredHolds(p, e);
      SizeOfPayload(p.operation, Wired(p));
      PortableFromSize(p.responseSymbols);
    }
  }

  lemma {:induction false} WiredHolds(p: Packet, e: bytes)
    requires p.responseSymbols != [] && e == EncodeAll(Python, p.responseSymbols)
    ensures |e| <= |EncodeAll(Python, Wired(p))|
  {
    assert ExtValue(p, 4) == [e] && ExtValues(p)[4] == [e];
    TaggedHolds(EXT_BASE, ExtValues(p), 4, 0);
    MemberFits(p.symbols, Extensions(p), Vendor(0x84, e));
  }

  lemma {:induction false} MemberFits(a: seq<Operand>, b: seq<Operand>, op: Operand)
    requires op in b && op.Vendor?
    ensures |op.data| <= |EncodeAll(Python, a + b)|
  {
    var i :| 0 <= i < |b| && b[i] == op;
    assert (a + b)[|a| + i] == op;
    ItemFitsInAll(Python, a + b, |a| + i);
  }

  lemma {:induction false} TaggedHolds(tag: nat, vals: seq<seq<bytes>>, i: nat, j: nat)
    requires tag + |vals| <= 256 && i < |vals| && j < |vals[i]|
    ensures Vendor(tag + i, vals[i][j]) in Tagged(tag, vals)
    decreases |vals|
  {
    if i == 0 {
      assert Vendors(tag, vals[0])[j] == Vendor(tag, vals[0][j]);
    } else {
      TaggedHolds(tag + 1, vals[1..], i - 1, j);
    }
  }

  /** Packets as Python can build them, in the range where nothing is lost. */
  predicate Faithful(p: Packet) {
    && NoVendors(p.symbols) && AllOf(Maps(Python), p.symbols) && AllOf(Maps(Python), p.responseSymbols)
    && p.sessionId != [] && DistinctMeta(p.metadata)
    && NamesOk(p.targets) && NamesOk(p.capabilities) && NamesOk(p.targetCaps)
  }

  /** All of a packet but its blob references and its acknowledgement. */
  predicate SameFields(v: View, p: Packet) {
    && v.symbols == p.symbols && v.operation == p.operation % 256
    && SessionId(v) == Some(p.sessionId) && Origin(v) == Ok(p.origin) && Targets(v) == Ok(p.targets)
    && Intent(v) == Ok(p.intent) && ResponseSymbols(v) == Ok(p.responseSymbols)
    && Confidence(v) == Ok(p.confidence) && Priority(v) == p.priority
    && Capabilities(v) == Ok(p.capabilities) && QualityOfService(v) == Ok(p.qos)
    && Security(v) == Truthy(p.security) && Trace(v) == Ok(p.trace) && Chunk(v) == Ok(p.chunkInfo)
    && Pressure(v) == Ok(p.backpressure) && ErrorOf(v) == Ok(ErrorShown(p.errorInfo))
    && TargetCaps(v) == Ok(p.targetCaps) && SchemaId(v) == Ok(p.schemaId)
    && StreamId(v) == Truthy(p.streamId) && PartialResult(v) == Truthy(p.partialResult)
    && Model(v) == Ok(p.modelInvocation) && Tool(v) == Ok(p.toolInvocation)
    && Metadata(v) == Ok(p.metadata)
  }

  lemma {:induction false} RecordsShown(p: Packet, v: View)
    requires PartsFit(p) && Carries(v, p)
    ensures Origin(v) == Ok(p.origin) && QualityOfService(v) == Ok(p.qos) && Chunk(v) == Ok(p.chunkInfo)
  {
    assert Origin(v) == Ok(p.origin) by {
      HeldAt(v, p, 1, Present(p.origin, PackIdentity));
      OriginField(v, p.origin);
    }
    assert QualityOfService(v) == Ok(p.qos) by {
      HeldAt(v, p, 8, Present(p.qos, PackQoS));
      QoSField(v, p.qos);
    }
    assert Chunk(v) == Ok(p.chunkInfo) by {
      HeldAt(v, p, 11, Present(p.chunkInfo, PackChunk));
      ChunkField(v, p.chunkInfo);
    }
  }

  lemma {:induction false} ReportsShown(p: Packet, v: View)
    requires PartsFit(p) && Carries(v, p)
    ensures Pressure(v) == Ok(p.backpressure) && ErrorOf(v) == Ok(ErrorShown(p.errorInfo))
  {
    assert Pressure(v) == Ok(p.backpressure) by {
      HeldAt(v, p, 13, Present(p.backpressure, PackBackpressure));
      PressureField(v, p.backpressure);
    }
    assert ErrorOf(v) == Ok(ErrorShown(p.errorInfo)) by {
      HeldAt(v, p, 14, Present(p.errorInfo, PackError));
      ErrorField(v, p.errorInfo);
    }
  }

  lemma {:induction false} OthersShown(p: Packet, v: View)
    requires Packable(p) && Carries(v, p)
    ensures Model(v) == Ok(p.modelInvocation) && Tool(v) == Ok(p.toolInvocation)
    ensures Confidence(v) == Ok(p.confidence) && Priority(v) == p.priority
  {
    assert Model(v) == Ok(p.modelInvocation) by {
      HeldAt(v, p, 20, Present(p.modelInvocation, PackModel));
      ModelField(v, p.modelInvocation);
    }
    assert Tool(v) == Ok(p.toolInvocation) by {
      HeldAt(v, p, 21, Present(p.toolInvocation, PackTool));
      ToolField(v, p.toolInvocation);
    }
    assert Confidence(v) == Ok(p.confidence) && Priority(v) == p.priority by {
      HeldAt(v, p, 5, When(p.confidence != ONE, Pack(8, p.confidence)));
      HeldAt(v, p, 6, When(p.priority != 128, Pack(1, p.priority)));
      ConfidenceField(v, p.confidence);
      PriorityField(v, p.priority);
    }
  }

  lemma {:induction false} TraceShown(p: Packet, v: View)
    requires PartsFit(p) && Carries(v, p)
    ensures Trace(v) == Ok(p.trace)
  {
    HeldAt(v, p, 10, PackTraces(p.trace));
    TracesBack(p.trace);
  }

  lemma {:induction false} ListsShown(p: Packet, v: View)
    requires Packable(p) && Carries(v, p) && AllOf(Portable(Python), p.responseSymbols) && DistinctMeta(p.metadata)
    ensures ResponseSymbols(v) == Ok(p.responseSymbols) && Metadata(v) == Ok(p.metadata)
  {
    assert ResponseSymbols(v) == Ok(p.responseSymbols) by {
      HeldAt(v, p, 4, When(p.responseSymbols != [], EncodeAll(Python, p.responseSymbols)));
      ResponseField(v, p.responseSymbols);
    }
    assert Metadata(v) == Ok(p.metadata) by {
      HeldAt(v, p, 22, When(p.metadata != [], PackMetadata(p.metadata)));
      MetadataField(v, p.metadata);
    }
  }

  lemma {:induction false} StringsShown(p: Packet, v: View)
    requires Packable(p) && Faithful(p) && Carries(v, p)
    ensures Intent(v) == Ok(p.intent) && SchemaId(v) == Ok(p.schemaId)
    ensures Targets(v) == Ok(p.targets) && Capabilities(v) == Ok(p.capabilities) && TargetCaps(v) == Ok(p.targetCaps)
  {
    assert Intent(v) == Ok(p.intent) by {
      HeldAt(v, p, 3, When(p.intent != [], p.intent));
      TextFieldBack(v, 3, p.intent);
    }
    assert SchemaId(v) == Ok(p.schemaId) by {
      HeldAt(v, p, 17, When(p.schemaId != [], p.schemaId));
      TextFieldBack(v, 17, p.schemaId);
    }
    assert Targets(v) == Ok(p.targets) by {
      HeldAt(v, p, 2, When(p.targets != [], Join(p.targets)));
      NamesFieldBack(v, 2, p.targets);
    }
    assert Capabilities(v) == Ok(p.capabilities) by {
      HeldAt(v, p, 7, When(p.capabilities != [], Join(p.capabilities)));
      NamesFieldBack(v, 7, p.capabilities);
    }
    assert TargetCaps(v) == Ok(p.targetCaps) by {
      HeldAt(v, p, 16, When(p.targetCaps != [], Join(p.targetCaps)));
      NamesFieldBack(v, 16, p.targetCaps);
    }
  }

  lemma {:induction false} BytesShown(p: Packet, v: View)
    requires Carries(v, p)
    ensures Security(v) == Truthy(p.security) && StreamId(v) == Truthy(p.streamId)
    ensures PartialResult(v) == Truthy(p.partialResult)
    ensures p.sessionId != [] ==> SessionId(v) == Some(p.sessionId)
  {
    HeldAt(v, p, 9, When(OrEmpty(p.security) != [], OrEmpty(p.security)));
    BytesFieldBack(v, 9, p.security);
    HeldAt(v, p, 18, When(OrEmpty(p.streamId) != [], OrEmpty(p.streamId)));
    BytesFieldBack(v, 18, p.streamId);
    HeldAt(v, p, 19, When(OrEmpty(p.partialResult) != [], OrEmpty(p.partialResult)));
    BytesFieldBack(v, 19, p.partialResult);
    HeldAt(v, p, 0, When(p.sessionId != [], p.sessionId));
    BytesFieldBack(v, 0, Some(p.sessionId));
  }

  /** The whole round trip: if `encode` succeeds on a faithful packet whose
      payload is within the limit, `decode` succeeds, and the view has the
      header, the operands and the rich fields of the packet. */
  lemma {:induction false} EndToEnd(p: Packet, checksum: bool)
    requires Faithful(p) && PyPacket.Encode(p, checksum).Ok? && |Payload(p)| <= MAX_PAYLOAD
    ensures Decode(PyPacket.Encode(p, checksum).value) == Ok(Shown(p, checksum))
    ensures Shown(p, checksum).header
         == Header(p.version, if checksum then WithTrailer(p.flags) else p.flags,
                   p.messageId, p.correlationId, p.deadlineMs, |Payload(p)|)
    ensures SameFields(Shown(p, checksum), p)
  {
    assert Packable(p) by { EncodeShape(p, checksum); }
    assert Decode(PyPacket.Encode(p, checksum).value) == Ok(Shown(p, checksum)) by { DecodeEncode(p, checksum); }
    ShownParts(p, checksum);
    FieldsShown(p, Shown(p, checksum));
  }

  lemma {:induction false} ShownParts(p: Packet, checksum: bool)
    requires Faithful(p) && Packable(p)
    ensures var v := Shown(p, checksum);
      && v.symbols == p.symbols && v.operation == p.operation % 256 && v.extensions == ExtMap(Wired(p))
      && v.header == Header(p.version, if checksum then WithTrailer(p.flags) else p.flags,
                            p.messageId, p.correlationId, p.deadlineMs, |Payload(p)|)
  {
    CoreExactly(p.symbols);
  }

  /** A view that carries the extensions of a packet has its fields. */
  lemma {:induction false} FieldsShown(p: Packet, v: View)
    requires Packable(p) && Faithful(p) && |Payload(p)| <= MAX_PAYLOAD
    requires v.symbols == p.symbols && v.operation == p.operation % 256 && v.extensions == ExtMap(Wired(p))
    ensures SameFields(v, p)
  {
    ExtMapCarries(p, v);
    ResponsePortable(p);
    StringsShown(p, v);
    BytesShown(p, v);
    RecordsShown(p, v);
    ReportsShown(p, v);
    OthersShown(p, v);
    ListsShown(p, v);
    TraceShown(p, v);
  }

  /** A packet with all optional fields left at their defaults. */
  function Plain(flags: int, session: bytes, message: bytes, correlation: bytes, operation: int, deadline: int, symbols: seq<Operand>): Packet {
    Packet(VERSION, flags, session, message, correlation, None, [], operation, [], symbols, [], ONE, 128, deadline,
           [], None, None, [], None, [], None, None, None, [], [], None, None, None, None, [])
  }

  /** Every packet of core operands qualifies for the round trip: `encode` accepts
      it, with or without a trailer, exactly when its payload length fits the
      header. */
  lemma {:induction false} PlainPacketsQualify(flags: int, session: bytes, message: bytes, correlation: bytes, operation: int, deadline: int, symbols: seq<Operand>, checksum: bool)
    requires InRange(2, flags) && |session| == 16 && |message| == 16 && |correlation| == 16 && InRange(4, deadline)
    requires AllOf(Encodable, symbols) && AllOf(Maps(Python), symbols) && NoVendors(symbols)
    ensures var p := Plain(flags, session, message, correlation, operation, deadline, symbols);
      && Faithful(p) && Packable(p)
      && (PyPacket.Encode(p, checksum).Ok? <==> |Payload(p)| < U32)
  {
    Pow256Values();
    TrailerFlagFits(flags);
  }

  lemma {:induction false} TrailerFlagFits(flags: int)
    requires InRange(2, flags)
    ensures InRange(2, WithTrailer(flags))
  {
    Pow256Values();
  }
}
