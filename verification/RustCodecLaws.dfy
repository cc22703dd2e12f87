/** The Rust codec reads what it writes, its read paths agree, and the two
    implementations read each other. */
module RustCodecLaws {
  import opened Wire
  import Varint
  import opened Operands
  import opened OperandLaws
  import opened OperandReading
  import opened OperandInterop
  import opened OperandWalk
  import opened ReadingLoops
  import opened Frame
  import opened RustOperands
  import opened RustCodec
  import RustVendors
  import VendorTags
  import Crc32
  import PyFields
  import PyPacket
  import PyView
  import PyRoundTrip

  // --- opcodes ---

  /** An opcode survives its byte exactly when it is a named one or a vendor
      opcode from the vendor range. */
  lemma {:induction false} OpcodeSurvivesExactly(op: Opcode)
    requires op.Named? ==> Assigned(op.code)
    ensures FromU8(ToU8(op)) == Some(op) <==> op.Named? || op.v >= 0xF0
  {
  }

  // --- frames by their parts ---

  /** What validation makes of a payload. */
  function PayloadOutcome(build: Build, payload: bytes): Rusty<()>
    requires payload != []
  {
    if FromU8(payload[0]).None? then Err(UnknownOpcode)
    else
      var r :- RustCodec.Returned(TryOperands(build, payload));
      if r.n != |payload| then Err(TrailingBytes) else Ok(())
  }

  function PacketOutcome(h: Header, build: Build, payload: bytes): Rusty<RustPacket>
    requires payload != []
  {
    if FromU8(payload[0]).None? then Err(UnknownOpcode)
    else
      var r :- RustCodec.Returned(TryOperands(build, payload));
      Ok(Assemble(h, FromU8(payload[0]).value, r.v))
  }

  lemma {:induction false} AfterHeader(hb: bytes, payload: bytes, rest: bytes)
    requires |hb| == HEADER_SIZE && payload != []
    ensures var s := hb + payload + rest; var total := HEADER_SIZE + |payload|;
      s[HEADER_SIZE] == payload[0] && s[HEADER_SIZE..total] == payload && s[..total] == hb + payload && s[total..] == rest
  {
  }

  /** A frame with a valid header: what decides is whether a flagged trailer is
      there, and then the payload. */
  lemma {:induction false} FrameOutcome(h: Header, payload: bytes, rest: bytes, c: Codec)
    requires HeaderFits(h) && h.version == VERSION && h.payloadLength == |payload| <= c.maxPayload && payload != []
    ensures var s := HeaderBytes(h) + payload + rest;
      && Framed(s) && PayloadSlice(s) == payload && ReadHeader(s) == h && s[HEADER_SIZE] == payload[0]
      && ToPacket(c.build, s) == PacketOutcome(h, c.build, payload)
      && ValidateFrame(c, s)
         == (if !HasTrailer(h.flags) then Ok(())
             else if |rest| < CHECKSUM_SIZE then Err(RustError.Truncated)
             else if c.checkCrc && rest[..CHECKSUM_SIZE] != Crc32.Crc(HeaderBytes(h) + payload) then Err(Checksum)
             else Ok(()))
      && Validate(c, s)
         == if ValidateFrame(c, s).Err? then ValidateFrame(c, s) else PayloadOutcome(c.build, payload)
  {
    var hb := HeaderBytes(h);
    HeaderReadBack(h, payload + rest);
    Assoc(hb, payload, rest);
    AfterHeader(hb, payload, rest);
    FramePasses(h, hb + payload + rest, payload, rest, c);
  }

  lemma {:induction false} FramePasses(h: Header, s: bytes, payload: bytes, rest: bytes, c: Codec)
    requires |s| == HEADER_SIZE + |payload| + |rest| && MagicOk(s) && HeaderCrcOk(s) && ReadHeader(s) == h
    requires h.version == VERSION && h.payloadLength == |payload| <= c.maxPayload && payload != []
    requires s[HEADER_SIZE] == payload[0] && s[HEADER_SIZE..HEADER_SIZE + |payload|] == payload
    requires s[HEADER_SIZE + |payload|..] == rest
    ensures Framed(s) && PayloadSlice(s) == payload
    ensures ToPacket(c.build, s) == PacketOutcome(h, c.build, payload)
    ensures ValidateFrame(c, s)
         == (if !HasTrailer(h.flags) then Ok(())
             else if |rest| < CHECKSUM_SIZE then Err(RustError.Truncated)
             else if c.checkCrc && rest[..CHECKSUM_SIZE] != Crc32.Crc(s[..HEADER_SIZE + |payload|]) then Err(Checksum)
             else Ok(()))
    ensures Validate(c, s)
         == if ValidateFrame(c, s).Err? then ValidateFrame(c, s) else PayloadOutcome(c.build, payload)
  {
    var total := HEADER_SIZE + |payload|;
    if |rest| >= CHECKSUM_SIZE { assert s[total..total + CHECKSUM_SIZE] == s[total..][..CHECKSUM_SIZE]; }
  }

  /** The same for a payload that reads in full, with the right trailer or none. */
  lemma {:induction false} GoodPayload(h: Header, payload: bytes, rest: bytes, c: Codec, ops: seq<Operand>, fits: bool)
    requires HeaderFits(h) && h.version == VERSION && h.payloadLength == |payload| <= c.maxPayload && payload != []
    requires rest == [] || (|rest| >= CHECKSUM_SIZE && rest[..CHECKSUM_SIZE] == Crc32.Crc(HeaderBytes(h) + payload))
    requires ReadOperands(payload) == Got(ops, |payload|) && IndicesFit(payload) == fits
    ensures var s, op := HeaderBytes(h) + payload + rest, FromU8(payload[0]);
      if HasTrailer(h.flags) && rest == [] then Validate(c, s) == Err(RustError.Truncated)
      else if op.None? then Validate(c, s) == Err(UnknownOpcode)
      else if c.build.Checked? && !fits then Validate(c, s) == Err(Panic)
      else Validate(c, s) == Ok(()) && Framed(s) && ToPacket(c.build, s) == Ok(Assemble(h, op.value, ops))
  {
    FrameOutcome(h, payload, rest, c);
  }

  // --- payloads ---

  lemma {:induction false} PayloadParts(opcode: byte, ops: seq<Operand>)
    ensures var s, p := RustPayload(opcode, ops), Prefix(Rust, |ops|);
      s[0] == opcode && s[1..] == p + EncodeAll(Rust, ops) && s[1 + |p|..] == EncodeAll(Rust, ops)
      && |s| == 1 + |p| + |EncodeAll(Rust, ops)|
  {
  }

  /** What a payload reads as, once its operands are known to. */
  lemma {:induction false} ReadsAs(opcode: byte, ops: seq<Operand>, got: seq<Operand>, m: nat)
    requires |ops| < LIMIT && ReadsItems(Rust, |ops|, EncodeAll(Rust, ops), got, m)
    ensures ReadOperands(RustPayload(opcode, ops)) == Got(got, 1 + |Prefix(Rust, |ops|)| + m)
  {
    PayloadParts(opcode, ops);
    PrefixRoundTrip(Rust, |ops|, EncodeAll(Rust, ops));
  }

  lemma {:induction false} IndicesAs(opcode: byte, ops: seq<Operand>)
    requires |ops| < LIMIT
    ensures IndicesFit(RustPayload(opcode, ops)) <==> WalkItems(IndexFits, |ops|, EncodeAll(Rust, ops), 0, 0)
  {
    PayloadParts(opcode, ops);
    PrefixRoundTrip(Rust, |ops|, EncodeAll(Rust, ops));
  }

  lemma {:induction false} RustPortable(ops: seq<Operand>)
    requires AllOf(Encodable, ops) && AllOf(Maps(Rust), ops) && AllOf(VendorFree, ops) && AllOf(Small, ops)
    ensures AllOf(Portable(Rust), ops)
  {
    forall i | 0 <= i < |ops|
      ensures All(Portable(Rust), ops[i])
    {
      ReadableFromParts(Rust, ops[i]);
      PortableFromParts(Rust, ops[i]);
    }
  }

  /** Every count and length of the packet fits a varint. */
  predicate SmallIn(ops: seq<Operand>) { AllOf(Small, ops) && |ops| < LIMIT }

  /** Every vendor-free payload is read back in full, and the indices that reading
      it computes are those of its trees. */
  lemma {:induction false} PayloadReads(opcode: byte, ops: seq<Operand>)
    requires AllOf(Encodable, ops) && AllOf(Maps(Rust), ops) && AllOf(VendorFree, ops) && SmallIn(ops)
    ensures ReadOperands(RustPayload(opcode, ops)) == Got(ops, |RustPayload(opcode, ops)|)
    ensures IndicesFit(RustPayload(opcode, ops)) <==> TreesFit(ops, 0, 0)
  {
    var e := EncodeAll(Rust, ops);
    RustPortable(ops);
    PayloadParts(opcode, ops);
    assert e + [] == e;
    ReadsAs(opcode, ops, ops, |e|) by { ItemsRoundTrip(Rust, ops, []); }
    ItemsWalk(Rust, ops, [], 0, 0);
    IndicesAs(opcode, ops);
  }

  /** Only small operand lists are ever read. */
  lemma {:induction false} ReadIsSmall(payload: bytes)
    requires payload != [] && ReadOperands(payload).Got?
    ensures SmallIn(ReadOperands(payload).v) && AllOf(Readable(Rust), ReadOperands(payload).v)
  {
    var c := Varint.Decode(Rust, payload[1..]);
    Varint.DecodedIsMinimal(Rust, payload[1..]);
    ItemsReadable(Rust, c.v, payload[1 + c.n..]);
    var ops := ReadOperands(payload).v;
    forall i | 0 <= i < |ops|
      ensures All(Small, ops[i])
    {
      AllWeaken(Readable(Rust), Small, ops[i]);
    }
  }

  lemma {:induction false} ReadWhole(opcode: byte, ops: seq<Operand>)
    requires |ops| < LIMIT && ReadOperands(RustPayload(opcode, ops)) == Got(ops, |RustPayload(opcode, ops)|)
    ensures ReadsItems(Rust, |ops|, EncodeAll(Rust, ops) + [], ops, |EncodeAll(Rust, ops)|)
  {
    var e := EncodeAll(Rust, ops);
    PayloadParts(opcode, ops);
    PrefixRoundTrip(Rust, |ops|, e);
    assert e + [] == e;
  }

  /** Operand lists for which the fate of vendor operands is known: all but those
      whose vendor operands all have the tag 0x80 and that also hold a map with a
      key that stretches another. */
  predicate Settled(ops: seq<Operand>) {
    AllOf(VendorFree, ops) || AllOf(Stretchless, ops) || !AllOf(BaseVendors, ops)
  }

  /** A payload with a vendor operand anywhere is never read back in full. */
  lemma {:induction false} VendorPayload(opcode: byte, ops: seq<Operand>)
    requires AllOf(Readable(Rust), ops) && |ops| < LIMIT && !AllOf(VendorFree, ops) && Settled(ops)
    ensures ReadOperands(RustPayload(opcode, ops)) != Got(ops, |RustPayload(opcode, ops)|)
  {
    if ReadOperands(RustPayload(opcode, ops)) == Got(ops, |RustPayload(opcode, ops)|) {
      ReadWhole(opcode, ops);
      if AllOf(Stretchless, ops) {
        RustVendors.ItemsLeftover(ops, [], |EncodeAll(Rust, ops)|);
      } else {
        BaseOnly(ops);
      }
    }
  }

  lemma {:induction false} BaseOnly(ops: seq<Operand>)
    requires AllOf(Readable(Rust), ops)
    requires ReadsItems(Rust, |ops|, EncodeAll(Rust, ops) + [], ops, |EncodeAll(Rust, ops)|)
    ensures AllOf(BaseVendors, ops)
  {
    assert EncodeAll(Rust, ops) + [] == EncodeAll(Rust, ops);
    forall i | 0 <= i < |ops|
      ensures All(Small, ops[i]) && All(Encodable, ops[i])
    {
      AllWeaken(Readable(Rust), Small, ops[i]);
      AllWeaken(Readable(Rust), Encodable, ops[i]);
    }
    VendorTags.ReadBackIsBase(ops);
  }

  // --- the Rust round trip ---

  lemma {:induction false} Narrowed(n: nat)
    requires n < U32
    ensures n % U32 == n
  {
  }

  lemma {:induction false} RustFrame(p: RustPacket, id: bytes)
    requires Typed(p, id) && |PayloadIn(p)| < U32
    ensures var h := HeaderFor(p, id);
      && HeaderFits(h) && h.version == VERSION && h.payloadLength == |PayloadIn(p)|
      && PayloadIn(p)[0] == ToU8(p.opcode) && FrameOf(p, id) == HeaderBytes(h) + PayloadIn(p) + []
  {
    HeaderForFits(p, id);
    Narrowed(|PayloadIn(p)|);
    PayloadParts(ToU8(p.opcode), p.operands);
  }

  /** The packet as it comes back: its id filled in, its opcode as its byte
      reads. */
  function Returned(p: RustPacket, id: bytes, opcode: Opcode): RustPacket {
    p.(messageId := Some(IdOf(p, id)), opcode := opcode)
  }

  /** `decode` and `to_packet` on what `encode_into` wrote, for every vendor-free
      operand list within the limits: the packet comes back, unless it carries
      the trailer flag, has a vendor opcode outside its range, or has a node whose
      index overflows in a build that checks. */
  lemma {:induction false} RustRoundTrip(p: RustPacket, id: bytes, c: Codec)
    requires Typed(p, id) && AllOf(VendorFree, p.operands) && SmallIn(p.operands)
    requires |PayloadIn(p)| <= c.maxPayload && |PayloadIn(p)| < U32
    ensures var s, op := FrameOf(p, id), FromU8(ToU8(p.opcode));
      if HasTrailer(p.flags) then Validate(c, s) == Err(RustError.Truncated)
      else if op.None? then Validate(c, s) == Err(UnknownOpcode)
      else if c.build.Checked? && !TreesFit(p.operands, 0, 0) then Validate(c, s) == Err(Panic)
      else Validate(c, s) == Ok(()) && Framed(s) && ToPacket(c.build, s) == Ok(Returned(p, id, op.value))
  {
    RustFrame(p, id);
    PayloadReads(ToU8(p.opcode), p.operands);
    GoodPayload(HeaderFor(p, id), PayloadIn(p), [], c, p.operands, TreesFit(p.operands, 0, 0));
  }

  /** The packet that was encoded is accepted and read back. */
  predicate ComesBack(p: RustPacket, id: bytes, c: Codec) {
    var s := FrameOf(p, id);
    Validate(c, s) == Ok(()) && Framed(s) && ToPacket(c.build, s) == Ok(p.(messageId := Some(IdOf(p, id))))
  }

  /** A packet comes back exactly when its trailer flag is clear, its opcode
      survives, no operand at any depth is a vendor operand, every count and length
      fits a varint, and no index overflows in a build that checks. Not covered are
      packets whose vendor operands all have the tag 0x80 and that hold a key which
      stretches another of its map: the decoder does not look at the order of keys,
      and such a key could take in the byte that a vendor operand leaves over. */
  lemma {:induction false} ComesBackExactly(p: RustPacket, id: bytes, c: Codec)
    requires Typed(p, id) && Settled(p.operands)
    requires |PayloadIn(p)| <= c.maxPayload && |PayloadIn(p)| < U32
    ensures ComesBack(p, id, c) <==>
              && !HasTrailer(p.flags) && FromU8(ToU8(p.opcode)) == Some(p.opcode)
              && AllOf(VendorFree, p.operands) && SmallIn(p.operands)
              && (c.build.Checked? ==> TreesFit(p.operands, 0, 0))
  {
    if AllOf(VendorFree, p.operands) && SmallIn(p.operands) {
      RustRoundTrip(p, id, c);
    } else {
      DoesNotComeBack(p, id, c);
    }
  }

  lemma {:induction false} DoesNotComeBack(p: RustPacket, id: bytes, c: Codec)
    requires Typed(p, id) && Settled(p.operands)
    requires !AllOf(VendorFree, p.operands) || !SmallIn(p.operands)
    requires |PayloadIn(p)| <= c.maxPayload && |PayloadIn(p)| < U32
    ensures !ComesBack(p, id, c)
  {
    RustFrame(p, id);
    FrameOutcome(HeaderFor(p, id), PayloadIn(p), [], c);
    NotReadBack(ToU8(p.opcode), p.operands);
  }

  lemma {:induction false} NotReadBack(opcode: byte, ops: seq<Operand>)
    requires Settled(ops)
    requires !AllOf(VendorFree, ops) || !SmallIn(ops)
    ensures ReadOperands(RustPayload(opcode, ops)) != Got(ops, |RustPayload(opcode, ops)|)
  {
    var r := ReadOperands(RustPayload(opcode, ops));
    if r == Got(ops, |RustPayload(opcode, ops)|) {
      ReadIsSmall(RustPayload(opcode, ops));
      if !AllOf(VendorFree, ops) { VendorPayload(opcode, ops); }
    }
  }

  // --- one vendor operand, last ---

  /** The repeated tag shifts the data of a vendor operand by one byte. */
  lemma {:induction false} VendorShifted(tag: byte, data: bytes)
    requires tag >= VENDOR_BASE && |data| < LIMIT
    ensures var s := Encode(Rust, Vendor(tag, data));
      Parse(Rust, s) == Got(Vendor(tag, ([tag] + data)[..|data|]), |s| - 1)
  {
    var seen, lost := ([tag] + data)[..|data|], ([tag] + data)[|data|..];
    assert seen + lost == [tag] + data;
    RustVendors.VendorBytes(tag, data, Prefix(Rust, |data|), seen, lost, []);
    assert Encode(Rust, Vendor(tag, data)) + [] == Encode(Rust, Vendor(tag, data)) && lost + [] == lost;
    VendorRoundTrip(Rust, tag, seen, lost);
    ParseFromBody(Rust, tag, Blob(Rust, seen) + lost);
  }

  lemma {:induction false} ItemsThenOne(ops: seq<Operand>, s: bytes, op: Operand, m: nat)
    requires AllOf(Portable(Rust), ops) && s != [] && Parse(Rust, s) == Got(op, m)
    ensures ReadsItems(Rust, |ops| + 1, EncodeAll(Rust, ops) + s, ops + [op], |EncodeAll(Rust, ops)| + m)
    decreases ops
  {
    if ops == [] {
      assert EncodeAll(Rust, ops) + s == s && ops + [op] == [op];
      OneItem(s, op, m);
    } else {
      var h, t, k, n := Encode(Rust, ops[0]), EncodeAll(Rust, ops[1..]) + s, |ops|, |EncodeAll(Rust, ops[1..])| + m;
      assert ReadsItems(Rust, k, t, ops[1..] + [op], n) by { ItemsThenOne(ops[1..], s, op, m); }
      assert Parse(Rust, h + t) == Got(ops[0], |h|) by { RoundTrip(Rust, ops[0], t); }
      assert ReadsItems(Rust, k + 1, h + t, [ops[0]] + (ops[1..] + [op]), |h| + n) by {
        ParseItemsStep(Rust, k + 1, h, t, ops[0], ops[1..] + [op], n);
      }
      EncodeAllSplits(Rust, ops, s);
      assert [ops[0]] + (ops[1..] + [op]) == ops + [op];
    }
  }

  lemma {:induction false} OneItem(s: bytes, op: Operand, m: nat)
    requires s != [] && Parse(Rust, s) == Got(op, m)
    ensures ReadsItems(Rust, 1, s, [op], m)
  {
    ItemsUnfold(Rust, 1, s);
    FrontEnds([op], m);
  }

  /** The indices met in the same run. */
  lemma {:induction false} WalkThenOne(ops: seq<Operand>, s: bytes, i: nat)
    requires AllOf(Portable(Rust), ops) && s != [] && KindOf(s[0]).Opaque? && i + |ops| < U32
    ensures WalkItems(IndexFits, |ops| + 1, EncodeAll(Rust, ops) + s, 0, i) <==> TreesFit(ops, 0, i)
    decreases ops
  {
    if ops == [] {
      assert EncodeAll(Rust, ops) + s == s;
      WalkOne(s, i);
    } else {
      var h, t := Encode(Rust, ops[0]), EncodeAll(Rust, ops[1..]) + s;
      assert WalkItems(IndexFits, |ops| + 1, h + t, 0, i)
        <==> Walk(IndexFits, h + t, Child(0, i)) && WalkItems(IndexFits, |ops|, t, 0, i + 1) by {
        OperandRead(Rust, ops[0], t);
        WalkItemsStep(IndexFits, |ops| + 1, h, t, 0, i);
      }
      assert Walk(IndexFits, h + t, Child(0, i)) <==> TreeFits(ops[0], Child(0, i)) by {
        EncodedWalk(Rust, ops[0], t, Child(0, i));
      }
      EncodeAllSplits(Rust, ops, s);
      WalkThenOne(ops[1..], s, i + 1);
    }
  }

  lemma {:induction false} WalkOne(s: bytes, i: nat)
    requires s != [] && KindOf(s[0]).Opaque? && i < U32
    ensures WalkItems(IndexFits, 1, s, 0, i)
  {
    var p := Parse(Rust, s);
    assert Child(0, i) == i && s == [s[0]] + s[1..];
    WalkFromBody(IndexFits, s[0], s[1..], i);
    WalkItemsUnfold(IndexFits, 1, s, 0, i);
    assert p.Got? ==> WalkItems(IndexFits, 0, s[p.n..], 0, i + 1);
  }

  lemma {:induction false} VendorLastPortable(ops: seq<Operand>, v: Operand)
    requires AllOf(Encodable, ops) && AllOf(Maps(Rust), ops) && AllOf(VendorFree, ops) && SmallIn(ops + [v])
    ensures AllOf(Portable(Rust), ops) && All(Small, v)
  {
    var all := ops + [v];
    assert v == all[|ops|];
    assert forall i :: 0 <= i < |ops| ==> ops[i] == all[i];
    RustPortable(ops);
  }

  lemma {:induction false} VendorLast(opcode: byte, ops: seq<Operand>, tag: byte, data: bytes)
    requires AllOf(Portable(Rust), ops) && tag >= VENDOR_BASE && |data| < LIMIT && |ops| + 1 < LIMIT
    ensures var s := RustPayload(opcode, ops + [Vendor(tag, data)]);
      ReadOperands(s).Got? && ReadOperands(s).n == |s| - 1
  {
    var v := Vendor(tag, data);
    VendorShifted(tag, data);
    var r := Parse(Rust, Encode(Rust, v));
    ItemsThenOne(ops, Encode(Rust, v), r.v, r.n);
    EncodeAllAppend(Rust, ops, v);
    ReadsAs(opcode, ops + [v], ops + [r.v], |EncodeAll(Rust, ops)| + r.n);
    PayloadParts(opcode, ops + [v]);
  }

  lemma {:induction false} VendorLastIndices(opcode: byte, ops: seq<Operand>, tag: byte, data: bytes)
    requires AllOf(Portable(Rust), ops) && tag >= VENDOR_BASE && |ops| + 1 < LIMIT
    ensures IndicesFit(RustPayload(opcode, ops + [Vendor(tag, data)])) <==> TreesFit(ops, 0, 0)
  {
    var v := Vendor(tag, data);
    var e := EncodeAll(Rust, ops + [v]);
    assert WalkItems(IndexFits, |ops| + 1, e, 0, 0) <==> TreesFit(ops, 0, 0) by {
      EncodeAllAppend(Rust, ops, v);
      WalkThenOne(ops, Encode(Rust, v), 0);
    }
    IndicesAs(opcode, ops + [v]);
  }

  /** A vendor-free list followed by one vendor operand is always rejected, with
      the one byte left over, if no index overflows before. */
  lemma {:induction false} VendorRejected(p: RustPacket, id: bytes, c: Codec, ops: seq<Operand>, tag: byte, data: bytes)
    requires Typed(p, id) && p.operands == ops + [Vendor(tag, data)] && AllOf(VendorFree, ops) && SmallIn(p.operands)
    requires !HasTrailer(p.flags) && FromU8(ToU8(p.opcode)).Some?
    requires |PayloadIn(p)| <= c.maxPayload && |PayloadIn(p)| < U32
    ensures Validate(c, FrameOf(p, id)) == Err(if c.build.Checked? && !TreesFit(ops, 0, 0) then Panic else TrailingBytes)
  {
    VendorLastReads(ToU8(p.opcode), ops, tag, data);
    RustFrame(p, id);
    OneByteOver(HeaderFor(p, id), PayloadIn(p), c, TreesFit(ops, 0, 0));
  }

  lemma {:induction false} OneByteOver(h: Header, payload: bytes, c: Codec, fits: bool)
    requires HeaderFits(h) && h.version == VERSION && h.payloadLength == |payload| <= c.maxPayload && payload != []
    requires !HasTrailer(h.flags) && FromU8(payload[0]).Some? && (IndicesFit(payload) <==> fits)
    requires ReadOperands(payload).Got? && ReadOperands(payload).n == |payload| - 1
    ensures Validate(c, HeaderBytes(h) + payload + []) == Err(if c.build.Checked? && !fits then Panic else TrailingBytes)
  {
    FrameOutcome(h, payload, [], c);
  }

  lemma {:induction false} VendorLastReads(opcode: byte, ops: seq<Operand>, tag: byte, data: bytes)
    requires var all := ops + [Vendor(tag, data)];
      AllOf(Encodable, all) && AllOf(Maps(Rust), all) && AllOf(VendorFree, ops) && SmallIn(all)
    ensures var s := RustPayload(opcode, ops + [Vendor(tag, data)]);
      && ReadOperands(s).Got? && ReadOperands(s).n == |s| - 1
      && (IndicesFit(s) <==> TreesFit(ops, 0, 0))
  {
    var all := ops + [Vendor(tag, data)];
    assert forall i :: 0 <= i < |ops| ==> ops[i] == all[i];
    assert All(Encodable, all[|ops|]);
    VendorLastPortable(ops, Vendor(tag, data));
    VendorLast(opcode, ops, tag, data);
    VendorLastIndices(opcode, ops, tag, data);
  }

  // --- the read paths agree ---

  lemma {:induction false} ItemsPrefix(count: nat, data: bytes, j: nat)
    requires ParseItems(Rust, count, data).Got? && j <= count
    ensures ParseItems(Rust, j, data).Got? && ParseItems(Rust, j, data).v == ParseItems(Rust, count, data).v[..j]
    decreases count
  {
    if j > 0 {
      var p := Parse(Rust, data);
      var rest := data[p.n..];
      ItemsUnfold(Rust, count, data);
      ItemsUnfold(Rust, j, data);
      ItemsPrefix(count - 1, rest, j - 1);
      PrefixAfter(p.v, p.n, ParseItems(Rust, count - 1, rest), ParseItems(Rust, j - 1, rest), j);
    }
  }

  lemma {:induction false} PrefixAfter(x: Operand, n: nat, all: Parsed<seq<Operand>>, some: Parsed<seq<Operand>>, j: nat)
    requires all.Got? && some.Got? && 0 < j <= |all.v| + 1 && some.v == all.v[..j - 1]
    ensures Front([x], n, some).Got? && Front([x], n, some).v == Front([x], n, all).v[..j]
  {
    assert ([x] + all.v)[..j] == [x] + all.v[..j - 1];
  }

  lemma {:induction false} Accepted(c: Codec, data: bytes)
    requires Validate(c, data).Ok?
    ensures Framed(data) && FromU8(data[HEADER_SIZE]).Some?
    ensures ReadOperands(PayloadSlice(data)).Got? && ReadOperands(PayloadSlice(data)).n == |PayloadSlice(data)|
    ensures c.build.Checked? ==> IndicesFit(PayloadSlice(data))
  {
  }

  lemma {:induction false} NthAgrees(build: Build, count: nat, data: bytes, i: nat)
    requires ParseItems(Rust, count, data).Got? && i < count
    requires build.Checked? ==> WalkItems(IndexFits, count, data, 0, 0)
    ensures TryNth(build, data, i).Done? && TryNth(build, data, i).result.Got?
    ensures TryNth(build, data, i).result.v == ParseItems(Rust, count, data).v[i]
  {
    ItemsPrefix(count, data, i + 1);
    if build.Checked? { WalkFewer(IndexFits, count, data, 0, 0, i + 1); }
  }

  /** On every buffer that `decode` accepts, the borrowed path accepts and gives
      the same packet, the count is the number of its operands, and `operand(i)`
      is the operand i for every index, after narrowing to 32 bits; none of them
      panics. */
  lemma {:induction false} FastPathsAgree(c: Codec, data: bytes, idx: nat)
    requires Validate(c, data).Ok?
    ensures Borrow(data) == Ok(())
    ensures Framed(data) && ToPacket(c.build, data).Ok? && PacketFromSlice(c.build, data) == ToPacket(c.build, data)
    ensures var ops := ToPacket(c.build, data).value.operands;
      && OperandCountOf(data) == Ok(|ops|)
      && OperandAt(c.build, data, idx) == if idx % U32 < |ops| then Ok(ops[idx % U32]) else Err(OperandCount)
  {
    Accepted(c, data);
    var payload := PayloadSlice(data);
    var n := Varint.Decode(Rust, payload[1..]);
    if idx % U32 < n.v { NthAgrees(c.build, n.v, payload[1 + n.n..], idx % U32); }
  }

  // --- panics ---

  /** The buffer is a header and nothing else. */
  predicate BareHeader(data: bytes) {
    && |data| == HEADER_SIZE && MagicOk(data) && HeaderCrcOk(data) && ReadHeader(data).version / 256 == 1
    && ReadHeader(data).payloadLength == 0 && !HasTrailer(ReadHeader(data).flags)
  }

  /** Validation gets as far as the operands. */
  predicate ReachesOperands(c: Codec, data: bytes) {
    ValidateFrame(c, data).Ok? && Framed(data) && FromU8(data[HEADER_SIZE]).Some?
  }

  /** `decode` panics exactly on a bare valid header that declares an empty
      payload without a trailer, and, in a build that checks for overflow, on a
      frame whose operands are reached and make an index overflow. */
  lemma {:induction false} PanicsExactly(c: Codec, data: bytes)
    ensures Validate(c, data) == Err(Panic) <==>
              || BareHeader(data)
              || (c.build.Checked? && ReachesOperands(c, data) && !IndicesFit(PayloadSlice(data)))
  {
  }

  /** Such a header exists. */
  lemma {:induction false} PanicHappens(c: Codec)
    ensures Validate(c, HeaderBytes(Header(VERSION, 0, Zeros(16), Zeros(16), 0, 0))) == Err(Panic)
  {
    var h := Header(VERSION, 0, Zeros(16), Zeros(16), 0, 0);
    Pow256Values();
    HeaderReadBack(h, []);
    assert HeaderBytes(h) + [] == HeaderBytes(h);
    PanicsExactly(c, HeaderBytes(h));
  }

  function Wrapped(op: Operand): Operand { List([op]) }

  /** Four levels deep from the sixth operand: 5, 5000, 5000000, 5000000000. */
  function DeepOperands(): seq<Operand> {
    [Null, Null, Null, Null, Null, Wrapped(Wrapped(Wrapped(Null)))]
  }

  predicate Plain(op: Operand) { All(Encodable, op) && All(Maps(Rust), op) && All(VendorFree, op) && All(Small, op) }

  lemma {:induction false} WrappedPlain(op: Operand)
    requires Plain(op)
    ensures Plain(Wrapped(op))
  {
  }

  lemma {:induction false} WrappedOverflows(op: Operand, idx: nat, child: nat)
    requires child == Child(idx, 0) && !TreeFits(op, child)
    ensures !TreeFits(Wrapped(op), idx)
  {
    assert [op][0] == op;
  }

  lemma {:induction false} DeepOverflows(ops: seq<Operand>)
    requires ops == DeepOperands()
    ensures !TreesFit(ops, 0, 0)
  {
    var a, b, c, op := 5, 5 * 1000, 5 * 1000 * 1000, ops[5];
    var b', c' := Wrapped(Wrapped(Null)), Wrapped(Null);
    NullOverflows(c * 1000);
    WrappedOverflows(Null, c, c * 1000);
    WrappedOverflows(c', b, c);
    WrappedOverflows(b', a, b);
    LaterFails(ops, 0, 0, 5);
  }

  lemma {:induction false} NullOverflows(idx: nat)
    requires idx >= U32
    ensures !TreeFits(Null, idx)
  {
  }

  lemma {:induction false} DeepPlain(ops: seq<Operand>)
    requires ops == DeepOperands()
    ensures AllOf(Encodable, ops) && AllOf(Maps(Rust), ops) && AllOf(VendorFree, ops) && SmallIn(ops)
  {
    var c, b := Wrapped(Null), Wrapped(Wrapped(Null));
    assert Plain(Null);
    WrappedPlain(Null);
    WrappedPlain(c);
    WrappedPlain(b);
    forall i | 0 <= i < |ops|
      ensures Plain(ops[i])
    {
      if i < 5 { assert ops[i] == Null; } else { assert ops[i] == Wrapped(b); }
    }
  }

  lemma {:induction false} LaterFails(ops: seq<Operand>, idx: nat, i: nat, j: nat)
    requires j < |ops| && !TreeFits(ops[j], Child(idx, i + j))
    ensures !TreesFit(ops, idx, i)
    decreases j
  {
    if j > 0 {
      assert i + 1 + (j - 1) == i + j;
      LaterFails(ops[1..], idx, i + 1, j - 1);
    }
  }

  /** A packet with these operands panics in a build that checks for overflow, and
      comes back in one that does not. */
  lemma {:induction false} DeepPanics(p: RustPacket, id: bytes, c: Codec)
    requires Typed(p, id) && p.operands == DeepOperands() && !HasTrailer(p.flags) && FromU8(ToU8(p.opcode)).Some?
    requires |PayloadIn(p)| <= c.maxPayload && |PayloadIn(p)| < U32
    ensures Validate(c, FrameOf(p, id)) == if c.build.Checked? then Err(Panic) else Ok(())
  {
    DeepOverflows(p.operands);
    DeepPlain(p.operands);
    RustRoundTrip(p, id, c);
  }

  // --- Rust reads Python ---

  lemma {:induction false} OrderedConcat(a: seq<Operand>, b: seq<Operand>)
    ensures OrderedAll(a + b) == OrderedAll(a) + OrderedAll(b)
    decreases a
  {
    if a == [] {
      assert a + b == b;
    } else {
      assert (a + b)[1..] == a[1..] + b;
      OrderedConcat(a[1..], b);
    }
  }

  lemma {:induction false} OrderedExtensions(ops: seq<Operand>)
    requires PyPacket.AllExtensions(ops)
    ensures OrderedAll(ops) == ops
  {
    if ops != [] {
      assert PyPacket.IsExtension(ops[0]);
      OrderedExtensions(ops[1..]);
    }
  }

  lemma {:induction false} PythonPayloadReads(operation: int, ops: seq<Operand>)
    requires AllOf(Portable(Python), ops) && |ops| < LIMIT
    ensures var s := PyPacket.PayloadOf(operation, ops);
      ReadOperands(s) == Got(OrderedAll(ops), |s|) && (IndicesFit(s) <==> TreesFit(ops, 0, 0))
  {
    var s, e, p := PyPacket.PayloadOf(operation, ops), EncodeAll(Python, ops), Prefix(Python, |ops|);
    PyRoundTrip.PayloadSplits(operation, ops, []);
    assert s + [] == s && e + [] == e;
    PrefixRead(Python, |ops|, e);
    assert ParseItems(Rust, |ops|, e) == Got(OrderedAll(ops), |e|) by {
      ItemsRoundTrip(Python, ops, []);
      ItemsAgree(|ops|, e);
    }
    assert WalkItems(IndexFits, |ops|, e, 0, 0) <==> TreesFit(ops, 0, 0) by { ItemsWalk(Python, ops, [], 0, 0); }
  }

  /** The packet that Rust makes of a Python packet: the core operands with maps
      in key order, then each rich field as a vendor operand. */
  function AsRust(p: PyPacket.Packet, checksum: bool, opcode: Opcode): RustPacket {
    RustPacket(opcode, PyPacket.HeaderOf(p, checksum).flags, Some(p.messageId), p.correlationId, p.deadlineMs,
               OrderedAll(p.symbols) + PyPacket.Extensions(p))
  }

  lemma {:induction false} WiredReads(p: PyPacket.Packet)
    requires AllOf(Encodable, p.symbols) && AllOf(Maps(Python), p.symbols)
    requires |PyPacket.Payload(p)| <= PyView.MAX_PAYLOAD
    ensures ReadOperands(PyPacket.Payload(p))
         == Got(OrderedAll(p.symbols) + PyPacket.Extensions(p), |PyPacket.Payload(p)|)
    ensures IndicesFit(PyPacket.Payload(p)) <==> TreesFit(PyPacket.Wired(p), 0, 0)
  {
    PyRoundTrip.WiredPortable(p);
    PythonPayloadReads(p.operation, PyPacket.Wired(p));
    PyPacket.WiredEncodable(p);
    OrderedConcat(p.symbols, PyPacket.Extensions(p));
    OrderedExtensions(PyPacket.Extensions(p));
  }

  /** What Rust makes of every packet that Python encodes within the Python
      limit. It is truncated if the trailer flag is set without a trailer, has an
      unknown opcode if Rust has none for its byte, panics if an index overflows
      in a build that checks, and otherwise is read as the same packet. */
  lemma {:induction false} RustReadsPython(p: PyPacket.Packet, checksum: bool, c: Codec)
    requires AllOf(Maps(Python), p.symbols) && PyPacket.Encode(p, checksum).Ok?
    requires |PyPacket.Payload(p)| <= PyView.MAX_PAYLOAD <= c.maxPayload
    ensures var s, op := PyPacket.Encode(p, checksum).value, FromU8(p.operation % 256);
      if !checksum && HasTrailer(p.flags) then Validate(c, s) == Err(RustError.Truncated)
      else if op.None? then Validate(c, s) == Err(UnknownOpcode)
      else if c.build.Checked? && !TreesFit(PyPacket.Wired(p), 0, 0) then Validate(c, s) == Err(Panic)
      else Validate(c, s) == Ok(()) && Framed(s) && ToPacket(c.build, s) == Ok(AsRust(p, checksum, op.value))
  {
    var rest := PythonFrame(p, checksum);
    WiredReads(p);
    GoodPayload(PyPacket.HeaderOf(p, checksum), PyPacket.Payload(p), rest, c,
                OrderedAll(p.symbols) + PyPacket.Extensions(p), TreesFit(PyPacket.Wired(p), 0, 0));
  }

  lemma {:induction false} PythonFrame(p: PyPacket.Packet, checksum: bool) returns (rest: bytes)
    requires PyPacket.Encode(p, checksum).Ok? && |PyPacket.Payload(p)| <= PyView.MAX_PAYLOAD
    ensures var h, payload := PyPacket.HeaderOf(p, checksum), PyPacket.Payload(p);
      && HeaderFits(h) && h.version == VERSION && h.payloadLength == |payload| && payload != []
      && payload[0] == p.operation % 256 && AllOf(Encodable, p.symbols)
      && PyPacket.Encode(p, checksum).value == HeaderBytes(h) + payload + rest
      && (HasTrailer(h.flags) <==> checksum || HasTrailer(p.flags))
      && (if checksum then |rest| == CHECKSUM_SIZE && rest[..CHECKSUM_SIZE] == Crc32.Crc(HeaderBytes(h) + payload) else rest == [])
  {
    var s := HeaderBytes(PyPacket.HeaderOf(p, checksum)) + PyPacket.Payload(p);
    PyRoundTrip.EncodeShape(p, checksum);
    rest := if checksum then Crc32.Crc(s) else [];
    assert rest[..|rest|] == rest && s + [] == s;
    FlagOf(p.flags, checksum);
  }

  lemma {:induction false} FlagOf(flags: int, checksum: bool)
    ensures HasTrailer(if checksum then WithTrailer(flags) else flags) <==> checksum || HasTrailer(flags)
  {
  }

  // --- Python reads Rust ---

  lemma {:induction false} TreesAreDicts(ops: seq<Operand>)
    requires AllOf(Maps(Rust), ops)
    ensures AllOf(Maps(Python), ops)
  {
    forall x: Operand | Node(Maps(Rust), x)
      ensures Node(Maps(Python), x)
    {
      if x.Map? { SortedIsDistinct(x.entries); }
    }
    forall i | 0 <= i < |ops|
      ensures All(Maps(Python), ops[i])
    {
      AllWeaken(Maps(Rust), Maps(Python), ops[i]);
    }
  }

  lemma {:induction false} SmallIsNarrow(ops: seq<Operand>)
    requires AllOf(Small, ops)
    ensures AllOf(Narrow, ops)
  {
    forall i | 0 <= i < |ops|
      ensures All(Narrow, ops[i])
    {
      AllWeaken(Small, Narrow, ops[i]);
    }
  }

  lemma {:induction false} SamePayload(opcode: byte, ops: seq<Operand>)
    requires AllOf(VendorFree, ops) && SmallIn(ops)
    ensures RustPayload(opcode, ops) == PyPacket.PayloadOf(opcode, ops)
  {
    SmallIsNarrow(ops);
    EncodersAgreeAll(ops);
    Narrowed(|ops|);
  }

  lemma {:induction false} SmallPayload(opcode: byte, ops: seq<Operand>)
    requires |RustPayload(opcode, ops)| < LIMIT
    ensures SmallIn(ops)
  {
    SizeForcesSmallAll(Rust, ops);
  }

  /** Python reads every vendor-free packet that Rust encodes, whatever its
      flags, up to the Python limit, and rejects the rest. */
  lemma {:induction false} PythonReadsRust(p: RustPacket, id: bytes)
    requires Typed(p, id) && AllOf(VendorFree, p.operands) && |PayloadIn(p)| < U32
    ensures PyView.Decode(FrameOf(p, id))
         == if |PayloadIn(p)| > PyView.MAX_PAYLOAD then Err(PyFields.HeaderError)
            else Ok(PyView.View(HeaderFor(p, id), ToU8(p.opcode), p.operands, map[]))
  {
    var h, payload := HeaderFor(p, id), PayloadIn(p);
    RustFrame(p, id);
    if |payload| > PyView.MAX_PAYLOAD {
      PyRoundTrip.OversizedFrame(h, payload);
    } else {
      SmallPayload(ToU8(p.opcode), p.operands);
      PyRoundTrip.PlainFrame(h, payload);
      PythonView(h, ToU8(p.opcode), p.operands);
    }
  }

  lemma {:induction false} PythonView(h: Header, opcode: byte, ops: seq<Operand>)
    requires AllOf(Encodable, ops) && AllOf(Maps(Rust), ops) && AllOf(VendorFree, ops) && SmallIn(ops)
    ensures PyView.ViewOf(h, RustPayload(opcode, ops)) == Ok(PyView.View(h, opcode, ops, map[]))
  {
    var payload := RustPayload(opcode, ops);
    SamePayload(opcode, ops);
    TreesAreDicts(ops);
    forall i | 0 <= i < |ops|
      ensures All(Portable(Python), ops[i])
    {
      PythonPortable(ops[i]);
    }
    PyRoundTrip.ViewOfOperands(h, opcode, ops, []);
    assert payload + [] == payload;
    NoExtensions(ops);
  }

  lemma {:induction false} NoExtensions(ops: seq<Operand>)
    requires AllOf(VendorFree, ops)
    ensures PyView.CoreOf(ops) == ops && PyView.ExtMap(ops) == map[]
  {
    if ops != [] {
      var n := |ops| - 1;
      NoExtensions(ops[..n]);
      assert All(VendorFree, ops[n]);
      assert ops == ops[..n] + [ops[n]];
    }
  }
}
