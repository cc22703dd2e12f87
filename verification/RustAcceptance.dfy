/** Exactly which buffers the Rust `decode` and `decode_borrowed` accept, and which
    error they give for the others, in plain numbers. */
module RustAcceptance {
  import opened Wire
  import Varint
  import opened Operands
  import opened OperandWalk
  import opened RustOperands
  import opened RustCodec
  import Frame
  import opened HeaderFormat
  import Crc32

  // --- opcodes ---

  /** The 36 named opcodes, and the vendor range. */
  predicate KnownOpcode(b: byte) {
    || b in {0x00, 0x01, 0x02, 0x03, 0x04, 0x05, 0x06, 0x07, 0x08, 0x09, 0x0A}
    || b in {0x10, 0x11, 0x12, 0x13}
    || b in {0x20, 0x21, 0x22, 0x23, 0x24}
    || b in {0x30, 0x31, 0x32}
    || b in {0x40, 0x41, 0x42, 0x43, 0x44, 0x45, 0x46}
    || b in {0x50, 0x51, 0x52}
    || b in {0x60, 0x61, 0x62}
    || b >= 0xF0
  }

  /** `from_u8` and `to_u8`: a known byte and its opcode stand for each other. */
  lemma {:induction false} OpcodesExactly(b: byte)
    ensures FromU8(b).Some? <==> KnownOpcode(b)
    ensures FromU8(b).Some? ==> ToU8(FromU8(b).value) == b && (FromU8(b).value.VendorOp? <==> b >= 0xF0)
  {
  }

  // --- frames ---

  /** A header at the start of data: "AICL", major version 1, and a CRC over the
      first 52 bytes in the last four. */
  predicate HeaderStands(data: bytes) {
    && |data| >= 56
    && data[0] == 0x41 && data[1] == 0x49 && data[2] == 0x43 && data[3] == 0x4C
    && data[4] == 0x01
    && data[52..56] == Crc32.Crc(data[..52])
  }

  function Declared(data: bytes): nat
    requires |data| >= 56
  {
    FromBE(data[44..48])
  }

  /** The declared payload is within the limit and all there. */
  predicate PayloadThere(c: Codec, data: bytes)
    requires |data| >= 56
  {
    Declared(data) <= c.maxPayload && 56 + Declared(data) <= |data|
  }

  /** If the header promises a trailer, it is there. */
  predicate TrailerThere(data: bytes)
    requires |data| >= 56
  {
    data[6] % 2 == 1 ==> |data| >= 60 + Declared(data)
  }

  predicate TrailerRight(c: Codec, data: bytes)
    requires |data| >= 56 && 56 + Declared(data) <= |data| && TrailerThere(data)
  {
    var end := 56 + Declared(data);
    data[6] % 2 == 1 && c.checkCrc ==> data[end..end + 4] == Crc32.Crc(data[..end])
  }

  predicate FrameStands(c: Codec, data: bytes) {
    HeaderStands(data) && PayloadThere(c, data) && TrailerThere(data) && TrailerRight(c, data)
  }

  /** The header checks that `decode` and `decode_borrowed` share. */
  lemma {:induction false} HeaderLiteral(data: bytes)
    requires |data| >= 56
    ensures HeaderStands(data) <==>
            Frame.MagicOk(data) && Frame.ReadHeader(data).version / 256 == 1 && Frame.HeaderCrcOk(data)
    ensures Frame.MagicOk(data) <==> data[..4] == [0x41, 0x49, 0x43, 0x4C]
    ensures Frame.ReadHeader(data).version / 256 == data[4]
    ensures Frame.HasTrailer(Frame.ReadHeader(data).flags) <==> data[6] % 2 == 1
  {
    MagicLiteral(data);
    VersionLiteral(data);
    TrailerLiteral(data);
  }

  lemma {:induction false} FrameExactly(c: Codec, data: bytes)
    ensures ValidateFrame(c, data).Ok? <==> FrameStands(c, data)
  {
    if |data| >= 56 {
      HeaderLiteral(data);
      if HeaderStands(data) { FrameRest(c, data, 56 + Declared(data)); }
    }
  }

  lemma {:induction false} FrameRest(c: Codec, data: bytes, end: nat)
    requires |data| >= 56 && Frame.MagicOk(data) && Frame.ReadHeader(data).version / 256 == 1 && Frame.HeaderCrcOk(data)
    requires end == 56 + Declared(data)
    ensures ValidateFrame(c, data) ==
            var flagged := Frame.HasTrailer(Frame.ReadHeader(data).flags);
            if Declared(data) > c.maxPayload then Err(PayloadTooLarge)
            else if |data| < end then Err(RustError.Truncated)
            else if flagged && |data| < end + 4 then Err(RustError.Truncated)
            else if flagged && c.checkCrc && data[end..end + 4] != Crc32.Crc(data[..end]) then Err(Checksum)
            else Ok(())
  {
  }

  /** `decode_borrowed` accepts a buffer if and only if it starts with a header that
      stands and the payload is all there. */
  lemma {:induction false} BorrowExactly(data: bytes)
    ensures Borrow(data).Ok? <==> HeaderStands(data) && 56 + Declared(data) <= |data|
    ensures |data| < 56 || data[..4] != [0x41, 0x49, 0x43, 0x4C] ==> Borrow(data) == Err(BadHeader)
    ensures |data| >= 56 && data[..4] == [0x41, 0x49, 0x43, 0x4C] && data[4] != 0x01 ==>
              Borrow(data) == Err(UnsupportedVersion)
    ensures |data| >= 56 && data[..4] == [0x41, 0x49, 0x43, 0x4C] && data[4] == 0x01
            && data[52..56] != Crc32.Crc(data[..52]) ==>
              Borrow(data) == Err(BadHeader)
    ensures HeaderStands(data) && |data| < 56 + Declared(data) ==> Borrow(data) == Err(RustError.Truncated)
  {
    if |data| >= 56 { HeaderLiteral(data); }
  }

  // --- payloads ---

  /** The operands of a payload: a count after the opcode, and that many operands. */
  function Counted(payload: bytes): Parsed<seq<Operand>>
    requires payload != []
  {
    var c :- Varint.Decode(Rust, payload[1..]);
    var q :- ParseItems(Rust, c.v, payload[1 + c.n..]);
    Got(q.v, 1 + c.n + q.n)
  }

  /** No operand index overflows in a build that checks. */
  predicate IndicesRight(build: Build, payload: bytes)
    requires payload != []
  {
    var c := Varint.Decode(Rust, payload[1..]);
    build.Checked? && c.Got? ==> WalkItems(IndexFits, c.v, payload[1 + c.n..], 0, 0)
  }

  /** An opcode that is known, and operands that fill the payload. */
  predicate PayloadStands(build: Build, payload: bytes) {
    && payload != [] && KnownOpcode(payload[0]) && IndicesRight(build, payload)
    && Counted(payload).Got? && Counted(payload).n == |payload|
  }

  /** The first thing that is wrong with a payload. */
  function PayloadVerdict(build: Build, data: bytes, payload: bytes): Rusty<()>
    requires |data| >= 56
  {
    if |data| == 56 then Err(Panic)
    else if !KnownOpcode(data[56]) then Err(UnknownOpcode)
    else if payload == [] then Err(RustError.Truncated)
    else if !IndicesRight(build, payload) then Err(Panic)
    else if Counted(payload).Bad? then Err(ErrorOf(Counted(payload).fault))
    else if Counted(payload).n != |payload| then Err(TrailingBytes)
    else Ok(())
  }

  lemma {:induction false} PayloadExactly(build: Build, data: bytes, total: nat)
    requires 56 <= total <= |data|
    ensures var r, payload := ValidatePayload(build, data, total), data[56..total];
      r == PayloadVerdict(build, data, payload) && (r.Ok? <==> PayloadStands(build, payload))
  {
    var payload := data[56..total];
    if |data| > 56 { OpcodesExactly(data[56]); }
    if payload != [] { assert payload[0] == data[56]; }
  }

  lemma {:induction false} AfterFrame(c: Codec, data: bytes)
    ensures if FrameStands(c, data) then Validate(c, data) == ValidatePayload(c.build, data, 56 + Declared(data))
      else Validate(c, data).Err?
  {
    FrameExactly(c, data);
  }

  /** `decode` accepts a buffer if and only if its frame stands for the codec and its
      payload is an opcode that is known and operands that fill it. */
  lemma {:induction false} DecodeExactly(c: Codec, data: bytes)
    ensures Validate(c, data).Ok? <==>
            FrameStands(c, data) && PayloadStands(c.build, data[56..56 + Declared(data)])
  {
    AfterFrame(c, data);
    if FrameStands(c, data) { PayloadExactly(c.build, data, 56 + Declared(data)); }
  }

  /** The error for every buffer whose frame does not stand: the first thing that is
      wrong with it decides. */
  lemma {:induction false} FrameErrors(c: Codec, data: bytes)
    ensures |data| < 56 || data[..4] != [0x41, 0x49, 0x43, 0x4C] ==> Validate(c, data) == Err(BadHeader)
    ensures |data| >= 56 && data[..4] == [0x41, 0x49, 0x43, 0x4C] && data[4] != 0x01 ==>
              Validate(c, data) == Err(UnsupportedVersion)
    ensures |data| >= 56 && data[..4] == [0x41, 0x49, 0x43, 0x4C] && data[4] == 0x01
            && data[52..56] != Crc32.Crc(data[..52]) ==>
              Validate(c, data) == Err(BadHeader)
    ensures HeaderStands(data) && Declared(data) > c.maxPayload ==> Validate(c, data) == Err(PayloadTooLarge)
    ensures HeaderStands(data) && Declared(data) <= c.maxPayload && |data| < 56 + Declared(data) ==>
              Validate(c, data) == Err(RustError.Truncated)
    ensures HeaderStands(data) && PayloadThere(c, data) && !TrailerThere(data) ==>
              Validate(c, data) == Err(RustError.Truncated)
    ensures HeaderStands(data) && PayloadThere(c, data) && TrailerThere(data) && !TrailerRight(c, data) ==>
              Validate(c, data) == Err(Checksum)
  {
    if |data| >= 56 { HeaderLiteral(data); }
  }

  /** The error for every buffer whose frame stands and whose payload does not. */
  lemma {:induction false} PayloadErrors(c: Codec, data: bytes)
    requires FrameStands(c, data)
    ensures Validate(c, data) == PayloadVerdict(c.build, data, data[56..56 + Declared(data)])
    ensures ErrorOf(Fault.Truncated) == RustError.Truncated && ErrorOf(Overflow) == VarintOverflow
    ensures ErrorOf(BadBool) == InvalidBool && ErrorOf(BadUtf8) == InvalidUtf8
  {
    AfterFrame(c, data);
    PayloadExactly(c.build, data, 56 + Declared(data));
  }

  /** `decode_to_packet_from_slice`, which checks no header: what it gives, and the
      reads past the end on which it panics. */
  lemma {:induction false} SliceExactly(build: Build, data: bytes)
    ensures |data| < 56 ==> PacketFromSlice(build, data) == Err(BadHeader)
    ensures |data| == 56 ==> PacketFromSlice(build, data) == Err(Panic)
    ensures |data| > 56 && !KnownOpcode(data[56]) ==> PacketFromSlice(build, data) == Err(UnknownOpcode)
    ensures |data| > 56 && KnownOpcode(data[56]) && |data| < 56 + Declared(data) ==> PacketFromSlice(build, data) == Err(Panic)
    ensures |data| > 56 && KnownOpcode(data[56]) && Declared(data) == 0 ==>
              PacketFromSlice(build, data) == Err(RustError.Truncated)
    ensures |data| > 56 && KnownOpcode(data[56]) && 0 < Declared(data) <= |data| - 56 ==>
              SliceVerdict(build, data, data[56..56 + Declared(data)], PacketFromSlice(build, data))
  {
    if |data| > 56 { OpcodesExactly(data[56]); }
  }

  /** The result for a payload that is there: an overflowing index, an error of the
      first operand that cannot be read, or the packet, whatever follows its
      operands. */
  predicate SliceVerdict(build: Build, data: bytes, payload: bytes, r: Rusty<RustPacket>)
    requires |data| > 56 && payload != []
  {
    if !IndicesRight(build, payload) then r == Err(Panic)
    else if Counted(payload).Bad? then r == Err(ErrorOf(Counted(payload).fault))
    else
      && r.Ok? && r.value.operands == Counted(payload).v && ToU8(r.value.opcode) == data[56]
      && r.value.flags == FromBE(data[6..8]) && r.value.messageId == Some(data[8..24])
      && r.value.correlationId == data[24..40] && r.value.deadlineMs == FromBE(data[40..44])
  }

  // --- what is written ---

  /** The frame that `encode_into` appends: the header fields at their places, the
      opcode, the count of the operands and the operands. */
  lemma {:induction false} EncodedFrame(p: RustPacket, id: bytes)
    requires Typed(p, id) && |PayloadIn(p)| < 0x1_0000_0000 && |p.operands| < 0x1_0000_0000
    ensures var s := FrameOf(p, id);
      && |s| == 56 + |PayloadIn(p)| && HeaderStands(s) && s[5] == 0x00 && Declared(s) == |PayloadIn(p)|
      && FromBE(s[6..8]) == p.flags && s[8..24] == (if p.messageId.Some? then p.messageId.value else id)
      && s[24..40] == p.correlationId && FromBE(s[40..44]) == p.deadlineMs && s[48..52] == [0, 0, 0, 0]
      && s[56] == ToU8(p.opcode) && s[57..] == Varint.Encode(|p.operands|) + EncodeAll(Rust, p.operands)
  {
    var h, payload := HeaderFor(p, id), PayloadIn(p);
    assert Frame.HeaderFits(h) && h.payloadLength == |payload| by { HeaderForFits(p, id); }
    HeaderFirst(h, payload);
    PayloadNext(Frame.HeaderBytes(h), ToU8(p.opcode), p.operands);
  }

  lemma {:induction false} HeaderFirst(h: Frame.Header, payload: bytes)
    requires Frame.HeaderFits(h) && h.version == 0x100
    ensures var s := Frame.HeaderBytes(h) + payload;
      && |s| == 56 + |payload| && HeaderStands(s) && s[5] == 0x00 && Declared(s) == h.payloadLength
      && FromBE(s[6..8]) == h.flags && s[8..24] == h.messageId && s[24..40] == h.correlationId
      && FromBE(s[40..44]) == h.deadlineMs && s[48..52] == [0, 0, 0, 0]
  {
    var g := Frame.HeaderBytes(h);
    var s := g + payload;
    HeaderWritten(h);
    HeaderFront(g, s);
    HeaderLiteral(s);
    VersionLiteral(s);
  }

  lemma {:induction false} PayloadNext(g: bytes, opcode: byte, ops: seq<Operand>)
    requires |g| == 56 && |ops| < 0x1_0000_0000
    ensures var s := g + RustPayload(opcode, ops);
      |s| > 56 && s[56] == opcode && s[57..] == Varint.Encode(|ops|) + EncodeAll(Rust, ops)
  {
    var s, payload := g + RustPayload(opcode, ops), RustPayload(opcode, ops);
    assert s[56..] == payload;
    assert s[57..] == payload[1..];
    assert Prefix(Rust, |ops|) == Varint.Encode(|ops|);
  }
}
