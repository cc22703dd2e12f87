/** The Rust packet codec: `encode_into`, the validated `decode`, access to
    single operands, and the borrowed fast path. */
module RustCodec {
  import opened Wire
  import Varint
  import opened Operands
  import opened OperandLaws
  import opened ReadingLoops
  import opened Frame
  import Crc32
  import opened OperandWalk
  import opened RustOperands

  /** Error codes, and `Panic` for an index out of bounds. */
  datatype RustError =
    | BadHeader | UnsupportedVersion | PayloadTooLarge | Truncated | Checksum | UnknownOpcode | OperandCount
    | TrailingBytes | VarintOverflow | InvalidUtf8 | InvalidBool | UnknownType | Panic

  type Rusty<T> = Result<T, RustError>

  function ErrorOf(f: Fault): RustError {
    match f
    case Truncated => RustError.Truncated
    case Overflow => VarintOverflow
    case BadBool => InvalidBool
    case BadUtf8 => InvalidUtf8
    case UnknownTag => UnknownType
    case OutOfRange => UnknownType
  }

  // --- opcodes ---

  /** The named opcodes by their code, and the vendor opcodes. */
  datatype Opcode = Named(code: byte) | VendorOp(v: byte)

  predicate Assigned(b: byte) {
    b <= 0x0A || 0x10 <= b <= 0x13 || 0x20 <= b <= 0x24 || 0x30 <= b <= 0x32 || 0x40 <= b <= 0x46
    || 0x50 <= b <= 0x52 || 0x60 <= b <= 0x62
  }

  /** `AiclOpcode::from_u8`. */
  function FromU8(b: byte): Option<Opcode> {
    if Assigned(b) then Some(Named(b)) else if b >= 0xF0 then Some(VendorOp(b)) else None
  }

  /** `AiclOpcode::to_u8`. */
  function ToU8(op: Opcode): byte { if op.Named? then op.code else op.v }

  // --- packets ---

  datatype RustPacket = RustPacket(
    opcode: Opcode, flags: int, messageId: Option<bytes>, correlationId: bytes, deadlineMs: int,
    operands: seq<Operand>)

  /** What the types of the fields guarantee; `id` is the generated id. */
  predicate Typed(p: RustPacket, id: bytes) {
    && (p.opcode.Named? ==> Assigned(p.opcode.code))
    && InRange(2, p.flags) && |p.correlationId| == 16 && |id| == 16 && InRange(4, p.deadlineMs)
    && (p.messageId.Some? ==> |p.messageId.value| == 16)
    && AllOf(Encodable, p.operands) && AllOf(Maps(Rust), p.operands)
  }

  function IdOf(p: RustPacket, id: bytes): bytes { if p.messageId.Some? then p.messageId.value else id }

  function RustPayload(opcode: byte, ops: seq<Operand>): (s: bytes)
    ensures |s| >= 2
  {
    [opcode] + (Prefix(Rust, |ops|) + EncodeAll(Rust, ops))
  }

  function PayloadIn(p: RustPacket): bytes { RustPayload(ToU8(p.opcode), p.operands) }

  /** The length goes into 32 bits. */
  function HeaderFor(p: RustPacket, id: bytes): Header {
    Header(VERSION, p.flags, IdOf(p, id), p.correlationId, p.deadlineMs, |PayloadIn(p)| % U32)
  }

  lemma {:induction false} HeaderForFits(p: RustPacket, id: bytes)
    requires Typed(p, id)
    ensures HeaderFits(HeaderFor(p, id))
  {
  }

  function FrameOf(p: RustPacket, id: bytes): bytes { HeaderBytes(HeaderFor(p, id)) + PayloadIn(p) }

  function Zeros(n: nat): (s: bytes)
    ensures |s| == n
  {
    seq(n, _ => 0)
  }

  /** Overwriting part of a buffer. */
  function Put(s: bytes, at: nat, b: bytes): (r: bytes)
    requires at + |b| <= |s|
    ensures |r| == |s|
  {
    s[..at] + b + s[at + |b|..]
  }

  lemma {:induction false} PutNext(done: bytes, b: bytes, n: nat)
    requires |b| <= n
    ensures Put(done + Zeros(n), |done|, b) == done + b + Zeros(n - |b|)
  {
  }

  /** The header fields, written one after the other into zeros. */
  method WriteHeader(h: Header) returns (out: bytes)
    requires HeaderFits(h)
    ensures out == HeaderBytes(h)
  {
    out := Zeros(HEADER_SIZE);
    ghost var p := MAGIC;
    PutNext([], MAGIC, 56);
    assert [] + Zeros(56) == Zeros(56) && [] + MAGIC == MAGIC;
    out := Put(out, 0, MAGIC);
    PutNext(p, Pack(2, h.version), 52);
    out, p := Put(out, 4, Pack(2, h.version)), p + Pack(2, h.version);
    PutNext(p, Pack(2, h.flags), 50);
    out, p := Put(out, 6, Pack(2, h.flags)), p + Pack(2, h.flags);
    PutNext(p, h.messageId, 48);
    out, p := Put(out, 8, h.messageId), p + h.messageId;
    PutNext(p, h.correlationId, 32);
    out, p := Put(out, 24, h.correlationId), p + h.correlationId;
    PutNext(p, Pack(4, h.deadlineMs), 16);
    out, p := Put(out, 40, Pack(4, h.deadlineMs)), p + Pack(4, h.deadlineMs);
    PutNext(p, Pack(4, h.payloadLength), 12);
    out, p := Put(out, 44, Pack(4, h.payloadLength)), p + Pack(4, h.payloadLength);
    assert out == HeaderPrefix(h) + Zeros(4) by {
      assert Zeros(8) == [0, 0, 0, 0] + Zeros(4);
      Assoc(p, [0, 0, 0, 0], Zeros(4));
    }
    assert out[..52] == HeaderPrefix(h);
    PutNext(HeaderPrefix(h), Crc32.Crc(HeaderPrefix(h)), 4);
    out := Put(out, 52, Crc32.Crc(out[..52]));
    assert HeaderBytes(h) + Zeros(0) == HeaderBytes(h);
  }

  lemma {:induction false} PutHeader(out: bytes, header: bytes, payload: bytes)
    requires |header| == HEADER_SIZE
    ensures Put(out + (Zeros(HEADER_SIZE) + payload), |out|, header) == out + (header + payload)
  {
    var all := out + (Zeros(HEADER_SIZE) + payload);
    assert all[..|out|] == out && all[|out| + HEADER_SIZE..] == payload;
    Assoc(out, header, payload);
  }

  /** `encode_into`. A payload above the limit leaves a blank header and the
      payload behind in the buffer. */
  method EncodeInto(p: RustPacket, id: bytes, maxPayload: nat, out: bytes) returns (r: Rusty<()>, out': bytes)
    requires Typed(p, id)
    ensures out <= out'
    ensures if |PayloadIn(p)| % U32 > maxPayload
      then r == Err(PayloadTooLarge) && out' == out + (Zeros(HEADER_SIZE) + PayloadIn(p))
      else r == Ok(()) && out' == out + FrameOf(p, id)
  {
    var start := |out|;
    out' := out + Zeros(HEADER_SIZE);
    var payloadStart := |out'|;
    out' := out' + [ToU8(p.opcode)];
    out' := RustOperands.EncodeItems(p.operands, out');
    Assoc(out + Zeros(HEADER_SIZE), [ToU8(p.opcode)], Prefix(Rust, |p.operands|) + EncodeAll(Rust, p.operands));
    Assoc(out, Zeros(HEADER_SIZE), PayloadIn(p));
    var payloadLen := (|out'| - payloadStart) % U32;
    if payloadLen > maxPayload {
      return Err(PayloadTooLarge), out';
    }
    HeaderForFits(p, id);
    var header := WriteHeader(HeaderFor(p, id));
    PutHeader(out, header, PayloadIn(p));
    out' := Put(out', start, header);
    return Ok(()), out';
  }

  // --- reading ---

  /** The settings of a codec, and how it was built. */
  datatype Codec = Codec(maxPayload: nat, checkCrc: bool, build: Build)

  /** The operands of a payload that is not empty, and how far they reach. */
  function ReadOperands(payload: bytes): Parsed<seq<Operand>>
    requires payload != []
  {
    var c :- Varint.Decode(Rust, payload[1..]);
    var q :- ParseItems(Rust, c.v, payload[1 + c.n..]);
    Got(q.v, 1 + c.n + q.n)
  }

  /** Every operand index that reading the payload computes fits 32 bits. */
  predicate IndicesFit(payload: bytes)
    requires payload != []
  {
    var c := Varint.Decode(Rust, payload[1..]);
    c.Got? ==> WalkItems(IndexFits, c.v, payload[1 + c.n..], 0, 0)
  }

  function TryOperands(build: Build, payload: bytes): Attempt<seq<Operand>>
    requires payload != []
  {
    Tried(build, IndicesFit(payload), ReadOperands(payload))
  }

  /** What a caller gets of a decoder call. */
  function Returned<T>(a: Attempt<T>): Rusty<Parsed<T>> {
    if a.Panicked? then Err(Panic) else if a.result.Bad? then Err(ErrorOf(a.result.fault)) else Ok(a.result)
  }

  /** The last part of `validate_header`, on a buffer that holds the frame. The
      opcode byte is read before the payload is found to be empty. */
  function ValidatePayload(build: Build, data: bytes, total: nat): Rusty<()>
    requires HEADER_SIZE <= total <= |data|
  {
    if |data| == HEADER_SIZE then Err(Panic)
    else if FromU8(data[HEADER_SIZE]).None? then Err(UnknownOpcode)
    else if total == HEADER_SIZE then Err(RustError.Truncated)
    else
      var r :- Returned(TryOperands(build, data[HEADER_SIZE..total]));
      if HEADER_SIZE + r.n != total then Err(TrailingBytes) else Ok(())
  }

  /** The checks of `validate_header` before it reads the opcode. */
  function ValidateFrame(c: Codec, data: bytes): Rusty<()> {
    if |data| < HEADER_SIZE || !MagicOk(data) then Err(BadHeader)
    else if ReadHeader(data).version / 256 != 1 then Err(UnsupportedVersion)
    else if !HeaderCrcOk(data) then Err(BadHeader)
    else
      var h := ReadHeader(data);
      var total := HEADER_SIZE + h.payloadLength;
      if h.payloadLength > c.maxPayload then Err(PayloadTooLarge)
      else if |data| < total then Err(RustError.Truncated)
      else if HasTrailer(h.flags) && |data| < total + CHECKSUM_SIZE then Err(RustError.Truncated)
      else if HasTrailer(h.flags) && c.checkCrc && data[total..total + CHECKSUM_SIZE] != Crc32.Crc(data[..total])
      then Err(Checksum)
      else Ok(())
  }

  /** `validate_header`, which `decode` and `decode_owned` run. */
  function Validate(c: Codec, data: bytes): Rusty<()> {
    var _ :- ValidateFrame(c, data);
    ValidatePayload(c.build, data, HEADER_SIZE + ReadHeader(data).payloadLength)
  }

  /** Count and operand loop, of validation and of `to_packet`. */
  method ReadAllOperands(build: Build, payload: bytes) returns (a: Attempt<seq<Operand>>)
    requires payload != []
    ensures a == TryOperands(build, payload)
  {
    var count := Varint.RustDecode(payload[1..]);
    if count.Bad? {
      return Done(Bad(count.fault));
    }
    var items := RustOperands.DecodeItems(build, payload[1 + count.n..], count.v, 0);
    if items.Panicked? {
      return Panicked;
    }
    var r := items.result;
    a := Done(if r.Got? then Got(r.v, 1 + count.n + r.n) else Bad(r.fault));
  }

  /** `validate_header`, check by check. */
  method ValidateHeader(c: Codec, data: bytes) returns (r: Rusty<()>)
    ensures r == Validate(c, data)
  {
    r := CheckFrame(c, data);
    if r.Ok? {
      r := CheckPayload(c.build, data, HEADER_SIZE + ReadHeader(data).payloadLength);
    }
  }

  method CheckFrame(c: Codec, data: bytes) returns (r: Rusty<()>)
    ensures r == ValidateFrame(c, data)
    ensures r.Ok? ==> |data| >= HEADER_SIZE && HEADER_SIZE + ReadHeader(data).payloadLength <= |data|
  {
    if |data| < HEADER_SIZE || !MagicOk(data) {
      return Err(BadHeader);
    }
    var h := ReadHeader(data);
    if h.version / 256 != 1 {
      return Err(UnsupportedVersion);
    }
    if !HeaderCrcOk(data) {
      return Err(BadHeader);
    }
    if h.payloadLength > c.maxPayload {
      return Err(PayloadTooLarge);
    }
    var total := HEADER_SIZE + h.payloadLength;
    if |data| < total {
      return Err(RustError.Truncated);
    }
    if HasTrailer(h.flags) {
      if |data| < total + CHECKSUM_SIZE {
        return Err(RustError.Truncated);
      }
      if c.checkCrc && data[total..total + CHECKSUM_SIZE] != Crc32.Crc(data[..total]) {
        return Err(Checksum);
      }
    }
    return Ok(());
  }

  method CheckPayload(build: Build, data: bytes, total: nat) returns (r: Rusty<()>)
    requires HEADER_SIZE <= total <= |data|
    ensures r == ValidatePayload(build, data, total)
  {
    if |data| == HEADER_SIZE {
      return Err(Panic);
    }
    if FromU8(data[HEADER_SIZE]).None? {
      return Err(UnknownOpcode);
    }
    var payload := data[HEADER_SIZE..total];
    if payload == [] {
      return Err(RustError.Truncated);
    }
    var operands := ReadAllOperands(build, payload);
    if operands.Panicked? {
      return Err(Panic);
    }
    if operands.result.Bad? {
      return Err(ErrorOf(operands.result.fault));
    }
    return if operands.result.n != |payload| then Err(TrailingBytes) else Ok(());
  }

  /** The header and payload of a buffer that `decode` accepted: the frame is all
      there and its payload is not empty. */
  predicate Framed(data: bytes) {
    |data| > HEADER_SIZE && 1 <= ReadHeader(data).payloadLength <= |data| - HEADER_SIZE
  }

  function PayloadSlice(data: bytes): (s: bytes)
    requires Framed(data)
    ensures s != []
  {
    data[HEADER_SIZE..HEADER_SIZE + ReadHeader(data).payloadLength]
  }

  function Assemble(h: Header, opcode: Opcode, ops: seq<Operand>): RustPacket {
    RustPacket(opcode, h.flags, Some(h.messageId), h.correlationId, h.deadlineMs, ops)
  }

  /** `PacketView::to_packet`. */
  function ToPacket(build: Build, data: bytes): Rusty<RustPacket>
    requires Framed(data)
  {
    var opcode := FromU8(data[HEADER_SIZE]);
    if opcode.None? then Err(UnknownOpcode)
    else
      var r :- Returned(TryOperands(build, PayloadSlice(data)));
      Ok(Assemble(ReadHeader(data), opcode.value, r.v))
  }

  /** `PacketView::operand_count`. */
  function OperandCountOf(data: bytes): Rusty<nat>
    requires Framed(data)
  {
    var c := Varint.Decode(Rust, PayloadSlice(data)[1..]);
    if c.Bad? then Err(ErrorOf(c.fault)) else Ok(c.v)
  }

  /** The operand number i of a run of operands: the last of i + 1. */
  function NthOperand(data: bytes, i: nat): Parsed<Operand> {
    var q :- ParseItems(Rust, i + 1, data);
    Got(q.v[i], q.n)
  }

  function TryNth(build: Build, data: bytes, i: nat): Attempt<Operand> {
    Tried(build, WalkItems(IndexFits, i + 1, data, 0, 0), NthOperand(data, i))
  }

  /** What `operand(idx)` should give. The index is narrowed to 32 bits. */
  function OperandAt(build: Build, data: bytes, idx: nat): Rusty<Operand>
    requires Framed(data)
  {
    var payload := PayloadSlice(data);
    var c := Varint.Decode(Rust, payload[1..]);
    if c.Bad? then Err(ErrorOf(c.fault))
    else if idx % U32 >= c.v then Err(OperandCount)
    else
      var r :- Returned(TryNth(build, payload[1 + c.n..], idx % U32));
      Ok(r.v)
  }

  /** The last of the operands that a loop reads. */
  function LastOf(a: Attempt<seq<Operand>>): Attempt<Operand> {
    if a.Panicked? then Panicked
    else if a.result.Bad? then Done(Bad(a.result.fault))
    else if a.result.v == [] then Done(Bad(Fault.Truncated))
    else Done(Got(a.result.v[|a.result.v| - 1], a.result.n))
  }

  lemma {:induction false} NthIsLast(build: Build, data: bytes, i: nat, goal: Attempt<seq<Operand>>)
    requires goal == Tried(build, WalkItems(IndexFits, i + 1, data, 0, 0), ParseItems(Rust, i + 1, data))
    ensures TryNth(build, data, i) == LastOf(goal)
  {
  }

  /** The loop of `operand`, which stops at the operand it wants: the last of what
      reading that many operands gives. */
  method FindLast(build: Build, data: bytes, count: nat, wanted: nat, ghost goal: Attempt<seq<Operand>>)
    returns (a: Attempt<Operand>)
    requires wanted < count && ItemsUnderway(build, goal, wanted + 1, data, 0, 0, 0, [])
    ensures a == LastOf(goal)
  {
    var i: nat, pos: nat := 0, 0;
    ghost var items: seq<Operand>, k: nat := [], wanted + 1;
    while i < count
      invariant i <= wanted && k == wanted + 1 - i && ItemsUnderway(build, goal, k, data, pos, 0, i, items)
    {
      var item := RustOperands.DecodeChild(build, data[pos..], 0, i);
      TurnItems(build, goal, k, data, pos, 0, i, items, item);
      if item.Panicked? {
        return Panicked;
      }
      if item.result.Bad? {
        return Done(Bad(item.result.fault));
      }
      var op := item.result.v;
      items, pos, k := items + [op], pos + item.result.n, k - 1;
      if i == wanted {
        EndItems(build, goal, k, data, pos, 0, i + 1, items);
        return Done(Got(op, pos));
      }
      i := i + 1;
    }
    assert false;
  }

  method FindOperand(build: Build, data: bytes, count: nat, wanted: nat) returns (a: Attempt<Operand>)
    requires wanted < count
    ensures a == TryNth(build, data, wanted)
  {
    ghost var goal := StartItems(build, wanted + 1, data, 0);
    a := FindLast(build, data, count, wanted, goal);
    NthIsLast(build, data, wanted, goal);
  }

  /** `PacketView::operand`. */
  method ReadOperand(build: Build, data: bytes, idx: nat) returns (r: Rusty<Operand>)
    requires Framed(data)
    ensures r == OperandAt(build, data, idx)
  {
    var payload := PayloadSlice(data);
    var count := Varint.RustDecode(payload[1..]);
    if count.Bad? {
      return Err(ErrorOf(count.fault));
    }
    if idx % U32 >= count.v {
      return Err(OperandCount);
    }
    var op := FindOperand(build, payload[1 + count.n..], count.v, idx % U32);
    r := if op.Panicked? then Err(Panic) else if op.result.Bad? then Err(ErrorOf(op.result.fault)) else Ok(op.result.v);
  }

  // --- the borrowed fast path ---

  /** `decode_borrowed`. */
  function Borrow(data: bytes): Rusty<()> {
    if |data| < HEADER_SIZE || !MagicOk(data) then Err(BadHeader)
    else if ReadHeader(data).version / 256 != 1 then Err(UnsupportedVersion)
    else if !HeaderCrcOk(data) then Err(BadHeader)
    else if |data| < HEADER_SIZE + ReadHeader(data).payloadLength then Err(RustError.Truncated)
    else Ok(())
  }

  /** `decode_to_packet_from_slice`, which `BorrowedView::to_packet` calls. */
  function PacketFromSlice(build: Build, data: bytes): Rusty<RustPacket> {
    if |data| < HEADER_SIZE then Err(BadHeader)
    else if |data| == HEADER_SIZE then Err(Panic)
    else if FromU8(data[HEADER_SIZE]).None? then Err(UnknownOpcode)
    else if |data| < HEADER_SIZE + ReadHeader(data).payloadLength then Err(Panic)
    else if ReadHeader(data).payloadLength == 0 then Err(RustError.Truncated)
    else
      var r :- Returned(TryOperands(build, PayloadSlice(data)));
      Ok(Assemble(ReadHeader(data), FromU8(data[HEADER_SIZE]).value, r.v))
  }
}
