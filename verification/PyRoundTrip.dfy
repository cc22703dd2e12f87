/** End to end in Python: what `decode` gives back of a packet that `encode`
    wrote. */
module PyRoundTrip {
  import opened Wire
  import opened Operands
  import opened OperandLaws
  import opened OperandReading
  import opened Frame
  import opened PyFields
  import opened PyPacket
  import opened PyView
  import Crc32

  // --- frames ---

  lemma {:induction false} FrameHeader(h: Header, rest: bytes)
    requires HeaderFits(h) && h.version == VERSION
    ensures var s := HeaderBytes(h) + rest;
      && |s| >= HEADER_SIZE && ReadHeader(s) == h
      && ValidateHeader(s[..HEADER_SIZE]) == if h.payloadLength > MAX_PAYLOAD then Err(HeaderError) else Ok(())
  {
    HeaderReadBack(h, rest);
    HeaderReadBack(h, []);
    assert (HeaderBytes(h) + rest)[..HEADER_SIZE] == HeaderBytes(h) == HeaderBytes(h) + [];
  }

  /** A frame without a trailer is viewed through its payload alone. */
  lemma {:induction false} PlainFrame(h: Header, payload: bytes)
    requires HeaderFits(h) && h.version == VERSION && h.payloadLength == |payload| <= MAX_PAYLOAD
    ensures Decode(HeaderBytes(h) + payload) == ViewOf(h, payload)
  {
    FrameHeader(h, payload);
    HeaderReadBack(h, payload);
    assert (HeaderBytes(h) + payload)[HEADER_SIZE..] == payload;
  }

  /** A sealed frame is viewed through its payload with the trailer still on. */
  lemma {:induction false} SealedFrame(h: Header, payload: bytes)
    requires HeaderFits(h) && h.version == VERSION && h.payloadLength == |payload| <= MAX_PAYLOAD
    ensures var s := HeaderBytes(h) + payload;
      Decode(Seal(s)) == ViewOf(h, payload + Crc32.Crc(s))
  {
    var s := HeaderBytes(h) + payload;
    var crc := Crc32.Crc(s);
    var raw := Seal(s);
    assert |HeaderBytes(h)| == HEADER_SIZE by { HeaderReadBack(h, payload); }
    Assoc(HeaderBytes(h), payload, crc);
    FrameHeader(h, payload + crc);
    SealedSlices(HeaderBytes(h), payload, crc);
    DecodeSealed(raw, h);
  }

  lemma {:induction false} DecodeSealed(raw: bytes, h: Header)
    requires |raw| >= HEADER_SIZE && ReadHeader(raw) == h && h.payloadLength >= 0 && ValidateHeader(raw[..HEADER_SIZE]).Ok?
    requires |raw| == HEADER_SIZE + h.payloadLength + CHECKSUM_SIZE
    requires var end := HEADER_SIZE + h.payloadLength; raw[end..end + CHECKSUM_SIZE] == Crc32.Crc(raw[..end])
    ensures Decode(raw) == ViewOf(h, raw[HEADER_SIZE..HEADER_SIZE + h.payloadLength + CHECKSUM_SIZE])
  {
  }

  lemma {:induction false} SealedSlices(hb: bytes, payload: bytes, crc: bytes)
    requires |hb| == HEADER_SIZE && |crc| == CHECKSUM_SIZE
    ensures var raw, end := hb + payload + crc, HEADER_SIZE + |payload|;
      raw[..end] == hb + payload && raw[end..end + CHECKSUM_SIZE] == crc && raw[HEADER_SIZE..end + CHECKSUM_SIZE] == payload + crc
  {
  }

  /** A payload above the limit is written, and then always rejected. */
  lemma {:induction false} OversizedFrame(h: Header, rest: bytes)
    requires HeaderFits(h) && h.version == VERSION && h.payloadLength > MAX_PAYLOAD
    ensures Decode(HeaderBytes(h) + rest) == Err(HeaderError)
  {
    FrameHeader(h, rest);
  }

  // --- payloads ---

  lemma {:induction false} PayloadSplits(operation: int, ops: seq<Operand>, rest: bytes)
    ensures var s := PayloadOf(operation, ops) + rest;
      && |s| >= 2 && s[0] == operation % 256
      && s[1..] == Prefix(Python, |ops|) + (EncodeAll(Python, ops) + rest)
      && s[1 + |Prefix(Python, |ops|)|..] == EncodeAll(Python, ops) + rest
  {
  }

  /** Any bytes may follow the operands, in particular a trailer. */
  lemma {:induction false} PayloadOperands(operation: int, ops: seq<Operand>, rest: bytes)
    requires AllOf(Portable(Python), ops) && |ops| < LIMIT
    ensures OperandsOf(PayloadOf(operation, ops) + rest) == Ok(ops)
  {
    var p, t := Prefix(Python, |ops|), EncodeAll(Python, ops) + rest;
    PayloadSplits(operation, ops, rest);
    PrefixRoundTrip(Python, |ops|, t);
    ItemsRoundTrip(Python, ops, rest);
  }

  lemma {:induction false} PortableFromSize(ops: seq<Operand>)
    requires AllOf(Encodable, ops) && AllOf(Maps(Python), ops) && |EncodeAll(Python, ops)| < LIMIT
    ensures AllOf(Portable(Python), ops)
  {
    SizeForcesSmallAll(Python, ops);
    forall i | 0 <= i < |ops|
      ensures All(Portable(Python), ops[i])
    {
      PythonPortable(ops[i]);
    }
  }

  // --- sorting core operands from extensions ---

  predicate NoVendors(ops: seq<Operand>) { forall i :: 0 <= i < |ops| ==> !ops[i].Vendor? }

  lemma {:induction false} CoreOfConcat(a: seq<Operand>, b: seq<Operand>)
    ensures CoreOf(a + b) == CoreOf(a) + CoreOf(b)
  {
    if b == [] {
      assert a + b == a;
    } else {
      var n := |b| - 1;
      CoreOfConcat(a, b[..n]);
      assert a + b == a + b[..n] + [b[n]] && b == b[..n] + [b[n]];
      SortAppend(a + b[..n], b[n]);
      SortAppend(b[..n], b[n]);
    }
  }

  lemma {:induction false} ExtAllConcat(a: seq<Operand>, b: seq<Operand>, tag: byte)
    ensures ExtAll(a + b, tag) == ExtAll(a, tag) + ExtAll(b, tag)
  {
    if b == [] {
      assert a + b == a;
    } else {
      var n := |b| - 1;
      ExtAllConcat(a, b[..n], tag);
      FrontAndLast(b);
      assert a + b == a + b[..n] + [b[n]];
      SortAppend(a + b[..n], b[n]);
      SortAppend(b[..n], b[n]);
    }
  }

  /** The symbols of a view are the packet's symbols exactly when none of them is
      a vendor operand. */
  lemma {:induction false} CoreExactly(ops: seq<Operand>)
    ensures |CoreOf(ops)| <= |ops|
    ensures CoreOf(ops) == ops <==> NoVendors(ops)
  {
    if ops != [] {
      var n := |ops| - 1;
      CoreExactly(ops[..n]);
      assert ops == ops[..n] + [ops[n]];
    }
  }

  lemma {:induction false} CoreOfExtensions(ops: seq<Operand>)
    requires AllExtensions(ops)
    ensures CoreOf(ops) == []
  {
    if ops != [] {
      assert IsExtension(ops[|ops| - 1]);
      CoreOfExtensions(ops[..|ops| - 1]);
    }
  }

  lemma {:induction false} NoVendorsNoExt(ops: seq<Operand>, tag: byte)
    requires NoVendors(ops)
    ensures ExtAll(ops, tag) == []
  {
    if ops != [] { NoVendorsNoExt(ops[..|ops| - 1], tag); }
  }

  lemma {:induction false} ExtAllVendors(t: byte, vals: seq<bytes>, tag: byte)
    ensures ExtAll(Vendors(t, vals), tag) == if t == tag then vals else []
  {
    if vals != [] {
      var n := |vals| - 1;
      ExtAllVendors(t, vals[..n], tag);
      assert Vendors(t, vals)[..n] == Vendors(t, vals[..n]);
      FrontAndLast(Vendors(t, vals));
      FrontAndLast(vals);
      SortAppend(Vendors(t, vals[..n]), Vendor(t, vals[n]));
    }
  }

  lemma {:induction false} ExtAllTagged(t: nat, vals: seq<seq<bytes>>, tag: byte)
    requires t + |vals| <= 256
    ensures ExtAll(Tagged(t, vals), tag) == if t <= tag < t + |vals| then vals[tag - t] else []
    decreases |vals|
  {
    if vals != [] {
      var a, b := Vendors(t, vals[0]), Tagged(t + 1, vals[1..]);
      assert ExtAll(Tagged(t, vals), tag) == ExtAll(a, tag) + ExtAll(b, tag) by { ExtAllConcat(a, b, tag); }
      ExtAllVendors(t, vals[0], tag);
      ExtAllTagged(t + 1, vals[1..], tag);
      JoinEmpty(ExtAll(a, tag), ExtAll(b, tag));
    }
  }

  lemma {:induction false} JoinEmpty(a: seq<bytes>, b: seq<bytes>)
    ensures a == [] ==> a + b == b
    ensures b == [] ==> a + b == a
  {
  }

  /** The view holds, under every extension tag, the values of the packet. */
  predicate Carries(v: View, p: Packet) {
    forall i: nat :: i < EXT_COUNT ==> Held(v, i, ExtValue(p, i))
  }

  /** The values of the i-th extension field of a view. */
  predicate Held(v: View, i: nat, vals: seq<bytes>)
    requires i < EXT_COUNT
  {
    Lookup(v.extensions, EXT_BASE + i) == vals
  }

  lemma {:induction false} ExtMapCarries(p: Packet, v: View)
    requires NoVendors(p.symbols) && v.extensions == ExtMap(Wired(p))
    ensures Carries(v, p)
  {
    var vals := ExtValues(p);
    forall i: nat | i < EXT_COUNT
      ensures Held(v, i, ExtValue(p, i))
    {
      ExtMapHolds(p.symbols, vals, i);
      assert vals[i] == ExtValue(p, i);
    }
  }

  lemma {:induction false} ExtMapHolds(symbols: seq<Operand>, vals: seq<seq<bytes>>, i: nat)
    requires NoVendors(symbols) && i < |vals| == EXT_COUNT
    ensures Lookup(ExtMap(symbols + Tagged(EXT_BASE, vals)), EXT_BASE + i) == vals[i]
  {
    var tag: byte := EXT_BASE + i;
    var ext := Tagged(EXT_BASE, vals);
    LookupExt(symbols + ext, tag);
    assert ExtAll(symbols + ext, tag) == ExtAll(symbols, tag) + ExtAll(ext, tag) by { ExtAllConcat(symbols, ext, tag); }
    assert ExtAll(symbols, tag) == [] by { NoVendorsNoExt(symbols, tag); }
    assert ExtAll(ext, tag) == vals[i] by { ExtAllTagged(EXT_BASE, vals, tag); }
  }

  // --- the frame and operand part of the round trip ---

  lemma {:induction false} EncodeShape(p: Packet, checksum: bool)
    requires PyPacket.Encode(p, checksum).Ok?
    ensures var h, s := HeaderOf(p, checksum), PyPacket.Encode(p, checksum).value;
      && Packable(p) && HeaderFits(h) && h.version == VERSION && h.payloadLength == |Payload(p)|
      && s == if checksum then Seal(HeaderBytes(h) + Payload(p)) else HeaderBytes(h) + Payload(p)
  {
  }

  /** The view that decoding gives, for every packet whose payload fits. */
  function Shown(p: Packet, checksum: bool): View {
    View(HeaderOf(p, checksum), p.operation % 256, CoreOf(p.symbols), ExtMap(Wired(p)))
  }

  lemma {:induction false} SizeOfPayload(operation: int, ops: seq<Operand>)
    ensures |EncodeAll(Python, ops)| < |PayloadOf(operation, ops)|
  {
  }

  lemma {:induction false} WiredPortable(p: Packet)
    requires AllOf(Encodable, p.symbols) && AllOf(Maps(Python), p.symbols) && |Payload(p)| <= MAX_PAYLOAD
    ensures AllOf(Portable(Python), Wired(p)) && |Wired(p)| < LIMIT
  {
    WiredEncodable(p);
    ExtensionsAreReadable(Extensions(p));
    SizeOfPayload(p.operation, Wired(p));
    PortableFromSize(Wired(p));
  }

  lemma {:induction false} CoreOfWired(p: Packet)
    ensures CoreOf(Wired(p)) == CoreOf(p.symbols)
  {
    TaggedAreExtensions(EXT_BASE, ExtValues(p));
    CoreOfConcat(p.symbols, Extensions(p));
    CoreOfExtensions(Extensions(p));
  }

  lemma {:induction false} PayloadShown(p: Packet, checksum: bool, rest: bytes)
    requires AllOf(Encodable, p.symbols) && AllOf(Maps(Python), p.symbols) && |Payload(p)| <= MAX_PAYLOAD
    ensures ViewOf(HeaderOf(p, checksum), Payload(p) + rest) == Ok(Shown(p, checksum))
  {
    WiredPortable(p);
    CoreOfWired(p);
    ViewOfOperands(HeaderOf(p, checksum), p.operation, Wired(p), rest);
  }

  lemma {:induction false} ViewOfOperands(h: Header, operation: int, ops: seq<Operand>, rest: bytes)
    requires AllOf(Portable(Python), ops) && |ops| < LIMIT
    ensures ViewOf(h, PayloadOf(operation, ops) + rest) == Ok(View(h, operation % 256, CoreOf(ops), ExtMap(ops)))
  {
    PayloadOperands(operation, ops, rest);
    PayloadSplits(operation, ops, rest);
  }

  /** `decode(encode(p))` succeeds exactly when the payload is within the limit,
      with or without a trailer, and then shows the header fields, the operation
      and the core operands of p. */
  lemma {:induction false} DecodeEncode(p: Packet, checksum: bool)
    requires AllOf(Maps(Python), p.symbols)
    requires PyPacket.Encode(p, checksum).Ok?
    ensures Decode(PyPacket.Encode(p, checksum).value)
         == if |Payload(p)| <= MAX_PAYLOAD then Ok(Shown(p, checksum)) else Err(HeaderError)
  {
    EncodeShape(p, checksum);
    var h, payload := HeaderOf(p, checksum), Payload(p);
    var s := HeaderBytes(h) + payload;
    var crc := Crc32.Crc(s);
    if |payload| > MAX_PAYLOAD {
      OversizedFrame(h, payload);
      OversizedFrame(h, payload + crc);
      Assoc(HeaderBytes(h), payload, crc);
    } else if checksum {
      SealedFrame(h, payload);
      PayloadShown(p, checksum, crc);
    } else {
      PlainFrame(h, payload);
      PayloadShown(p, checksum, []);
      assert payload + [] == payload;
    }
  }
}
