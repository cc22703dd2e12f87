/** Exactly which byte strings the Python `decode` accepts, what it shows of them,
    and which error it raises for the others, in plain numbers. */
module PyAcceptance {
  import opened Wire
  import Varint
  import opened Operands
  import opened PyFields
  import opened PyView
  import Frame
  import opened HeaderFormat
  import PyPacket
  import Crc32

  /** A header that stands at the start of raw: "AICL", version 1.0, and a CRC over
      the first 52 bytes in the last four. */
  predicate HeaderStands(raw: bytes) {
    && |raw| >= 56
    && raw[0] == 0x41 && raw[1] == 0x49 && raw[2] == 0x43 && raw[3] == 0x4C
    && raw[4] == 0x01 && raw[5] == 0x00
    && raw[52..56] == Crc32.Crc(raw[..52])
  }

  /** The length that a header declares. */
  function Declared(raw: bytes): nat
    requires |raw| >= 56
  {
    FromBE(raw[44..48])
  }

  /** Nothing follows the payload, or its CRC does, with more bytes or none. */
  predicate TrailerStands(raw: bytes)
    requires |raw| >= 56 && |raw| >= 56 + Declared(raw)
  {
    var end := 56 + Declared(raw);
    |raw| == end || (|raw| >= end + 4 && raw[end..end + 4] == Crc32.Crc(raw[..end]))
  }

  predicate FrameStands(raw: bytes) {
    && HeaderStands(raw) && Declared(raw) <= 0xFF_FFFF
    && |raw| >= 56 + Declared(raw) && TrailerStands(raw)
  }

  /** What the view is given: the payload, and its trailer if there is one. */
  function Viewed(raw: bytes): bytes
    requires FrameStands(raw)
  {
    var end := 56 + Declared(raw);
    if |raw| == end then raw[56..] else raw[56..end + 4]
  }

  /** The operands of a payload: a count after the opcode, and that many operands.
      A payload of one byte or none has none. */
  function Counted(payload: bytes): Parsed<seq<Operand>> {
    if |payload| < 2 then Got([], 0)
    else
      var c :- Varint.Decode(Python, payload[1..]);
      ParseItems(Python, c.v, payload[1 + c.n..])
  }

  /** Byte i of a header stands at byte i of what starts with it. */
  lemma {:induction false} HeaderSlices(raw: bytes)
    requires |raw| >= 56
    ensures var h := raw[..56];
      && |h| == 56 && h[..4] == raw[..4] && h[4..6] == raw[4..6] && h[44..48] == raw[44..48]
      && h[52..56] == raw[52..56] && h[..52] == raw[..52]
  {
  }

  /** `validate_header`, by what it finds first. */
  lemma {:induction false} HeaderOutcome(raw: bytes)
    requires |raw| >= 56
    ensures var r := ValidateHeader(raw[..56]);
      && (r.Ok? <==> HeaderStands(raw) && Declared(raw) <= 0xFF_FFFF)
      && (r == Err(VersionError) <==>
            && raw[0] == 0x41 && raw[1] == 0x49 && raw[2] == 0x43 && raw[3] == 0x4C
            && !(raw[4] == 0x01 && raw[5] == 0x00))
      && (r.Err? ==> r == Err(VersionError) || r == Err(HeaderError))
  {
    HeaderSlices(raw);
    MagicLiteral(raw);
    VersionLiteral(raw);
    MagicLiteral(raw[..56]);
    VersionLiteral(raw[..56]);
  }

  lemma {:induction false} ViewOutcome(h: Frame.Header, payload: bytes)
    ensures var c := Counted(payload);
      if c.Bad? then ViewOf(h, payload) == Err(SymbolError(c.fault))
      else ViewOf(h, payload) == Ok(View(h, if payload == [] then 0 else payload[0], CoreOf(c.v), ExtMap(c.v)))
  {
  }

  lemma {:induction false} AfterHeader(raw: bytes, end: nat)
    requires |raw| >= 56 && end == 56 + Declared(raw) && ValidateHeader(raw[..56]).Ok?
    ensures var h := Frame.ReadHeader(raw);
      Decode(raw) ==
      if |raw| < end then Err(TruncatedError)
      else if |raw| == end then ViewOf(h, raw[56..])
      else if |raw| < end + 4 then Err(StructError)
      else if raw[end..end + 4] != Crc32.Crc(raw[..end]) then Err(ChecksumError)
      else ViewOf(h, raw[56..end + 4])
  {
  }

  /** The part of `decode` after the header. */
  lemma {:induction false} FrameOutcome(raw: bytes)
    requires HeaderStands(raw) && Declared(raw) <= 0xFF_FFFF
    ensures var end := 56 + Declared(raw);
      Decode(raw) ==
      if |raw| < end then Err(TruncatedError)
      else if end < |raw| < end + 4 then Err(StructError)
      else if !TrailerStands(raw) then Err(ChecksumError)
      else ViewOf(Frame.ReadHeader(raw), Viewed(raw))
  {
    HeaderOutcome(raw);
    AfterHeader(raw, 56 + Declared(raw));
  }

  /** `decode` accepts a byte string if and only if its header and its frame stand
      and its operands can be read. */
  lemma {:induction false} DecodeExactly(raw: bytes)
    ensures Decode(raw).Ok? <==> FrameStands(raw) && Counted(Viewed(raw)).Got?
  {
    if |raw| >= 56 {
      HeaderOutcome(raw);
      if HeaderStands(raw) && Declared(raw) <= 0xFF_FFFF {
        FrameOutcome(raw);
        if FrameStands(raw) { ViewOutcome(Frame.ReadHeader(raw), Viewed(raw)); }
      }
    }
  }

  /** What the view shows: the header fields at their places, the first byte of the
      payload as the operation, and the operands sorted. */
  lemma {:induction false} DecodeShows(raw: bytes)
    requires Decode(raw).Ok?
    ensures FrameStands(raw) && Counted(Viewed(raw)).Got?
    ensures var v, ops := Decode(raw).value, Counted(Viewed(raw)).v;
      && v.header.version == 0x100 && v.header.flags == FromBE(raw[6..8])
      && v.header.messageId == raw[8..24] && v.header.correlationId == raw[24..40]
      && v.header.deadlineMs == FromBE(raw[40..44]) && v.header.payloadLength == FromBE(raw[44..48])
      && v.operation == (if Viewed(raw) == [] then 0 else Viewed(raw)[0])
      && v.symbols == CoreOf(ops) && v.extensions == ExtMap(ops)
  {
    DecodeExactly(raw);
    FrameOutcome(raw);
    ViewOutcome(Frame.ReadHeader(raw), Viewed(raw));
    VersionLiteral(raw);
  }

  /** The error for every byte string that is not accepted: the first thing that is
      wrong with it decides. */
  lemma {:induction false} DecodeErrors(raw: bytes)
    ensures |raw| < 56 ==> Decode(raw) == Err(TruncatedError)
    ensures |raw| >= 56 && raw[..4] != [0x41, 0x49, 0x43, 0x4C] ==> Decode(raw) == Err(HeaderError)
    ensures |raw| >= 56 && raw[..4] == [0x41, 0x49, 0x43, 0x4C] && raw[4..6] != [0x01, 0x00] ==>
              Decode(raw) == Err(VersionError)
    ensures |raw| >= 56 && raw[..4] == [0x41, 0x49, 0x43, 0x4C] && raw[4..6] == [0x01, 0x00]
            && (raw[52..56] != Crc32.Crc(raw[..52]) || Declared(raw) > 0xFF_FFFF) ==>
              Decode(raw) == Err(HeaderError)
    ensures HeaderStands(raw) && Declared(raw) <= 0xFF_FFFF && |raw| < 56 + Declared(raw) ==>
              Decode(raw) == Err(TruncatedError)
    ensures HeaderStands(raw) && Declared(raw) <= 0xFF_FFFF && 56 + Declared(raw) < |raw| < 60 + Declared(raw) ==>
              Decode(raw) == Err(StructError)
    ensures HeaderStands(raw) && Declared(raw) <= 0xFF_FFFF && |raw| >= 60 + Declared(raw) && !TrailerStands(raw) ==>
              Decode(raw) == Err(ChecksumError)
    ensures FrameStands(raw) && Counted(Viewed(raw)).Bad? ==>
              Decode(raw) == Err(SymbolError(Counted(Viewed(raw)).fault))
  {
    if |raw| >= 56 {
      HeaderOutcome(raw);
      MagicLiteral(raw);
      VersionLiteral(raw);
      if HeaderStands(raw) && Declared(raw) <= 0xFF_FFFF {
        FrameOutcome(raw);
        if FrameStands(raw) { ViewOutcome(Frame.ReadHeader(raw), Viewed(raw)); }
      }
    }
  }

  lemma {:induction false} PackHeaderExactly(h: Frame.Header)
    ensures var r := PyPacket.PackHeader(h);
      && (r.Ok? <==>
            && h.version == 0x100 && 0 <= h.flags < 0x1_0000 && |h.messageId| == 16 && |h.correlationId| == 16
            && 0 <= h.deadlineMs < 0x1_0000_0000 && 0 <= h.payloadLength < 0x1_0000_0000)
      && (r.Ok? ==> Frame.HeaderFits(h) && r == Ok(Frame.HeaderBytes(h)))
  {
    FitsExactly(h);
  }

  /** The errors of `encode`: a part that cannot be packed, then a header field that
      `pack_header` refuses, then a negative or too large number. */
  lemma {:induction false} EncodeErrors(p: PyPacket.Packet, checksum: bool)
    ensures var r := PyPacket.Encode(p, checksum);
      var refused := p.version != 0x100 || |p.messageId| != 16 || |p.correlationId| != 16
                     || |PyPacket.Payload(p)| >= 0x1_0000_0000 || p.deadlineMs >= 0x1_0000_0000;
      && (!PyPacket.Packable(p) ==> r == Err(EncodeError))
      && (PyPacket.Packable(p) && refused ==> r == Err(HeaderError))
      && (PyPacket.Packable(p) && !refused && (p.deadlineMs < 0 || p.flags < 0 || p.flags >= 0x1_0000) ==>
            r == Err(StructError))
  {
    FlagRange(p.flags);
    HeaderErrors(PyPacket.HeaderOf(p, checksum));
  }

  lemma {:induction false} HeaderErrors(h: Frame.Header)
    ensures var r := PyPacket.PackHeader(h);
      var refused := h.version != 0x100 || |h.messageId| != 16 || |h.correlationId| != 16
                     || h.payloadLength >= 0x1_0000_0000 || h.deadlineMs >= 0x1_0000_0000;
      && (refused ==> r == Err(HeaderError))
      && (!refused && (h.deadlineMs < 0 || h.payloadLength < 0 || !(0 <= h.flags < 0x1_0000)) ==> r == Err(StructError))
  {
    FitsExactly(h);
  }

  /** `encode` succeeds if and only if every part can be packed, the version is
      1.0, and the ids and numbers fit the header. */
  lemma {:induction false} EncodeExactly(p: PyPacket.Packet, checksum: bool)
    ensures PyPacket.Encode(p, checksum).Ok? <==>
            && PyPacket.Packable(p) && p.version == 0x100 && 0 <= p.flags < 0x1_0000
            && |p.messageId| == 16 && |p.correlationId| == 16 && 0 <= p.deadlineMs < 0x1_0000_0000
            && |PyPacket.Payload(p)| < 0x1_0000_0000
  {
    FlagRange(p.flags);
    PackHeaderExactly(PyPacket.HeaderOf(p, checksum));
  }

  /** The frame that `encode` returns: the header, the payload, and with `checksum`
      the trailer flag and the CRC of both. */
  lemma {:induction false} EncodedFrame(p: PyPacket.Packet, checksum: bool)
    requires PyPacket.Encode(p, checksum).Ok?
    ensures var s, payload := PyPacket.Encode(p, checksum).value, PyPacket.Payload(p); var end := 56 + |payload|;
      && |s| == end + (if checksum then 4 else 0)
      && HeaderStands(s) && Declared(s) == |payload| && s[56..end] == payload
      && FromBE(s[6..8]) == (if checksum && p.flags / 0x100 % 2 == 0 then p.flags + 0x100 else p.flags)
      && s[8..24] == p.messageId && s[24..40] == p.correlationId && FromBE(s[40..44]) == p.deadlineMs
      && (checksum ==> s[end..] == Crc32.Crc(s[..end]))
  {
    var h := PyPacket.HeaderOf(p, checksum);
    PackHeaderExactly(h);
    EncodedLayout(h, PyPacket.Payload(p), checksum);
  }

  lemma {:induction false} EncodedLayout(h: Frame.Header, payload: bytes, checksum: bool)
    requires Frame.HeaderFits(h) && h.version == 0x100 && h.payloadLength == |payload|
    ensures var t := Frame.HeaderBytes(h) + payload; var s, end := if checksum then t + Crc32.Crc(t) else t, 56 + |payload|;
      && |s| == end + (if checksum then 4 else 0)
      && HeaderStands(s) && Declared(s) == |payload| && s[56..end] == payload
      && FromBE(s[6..8]) == h.flags && s[8..24] == h.messageId && s[24..40] == h.correlationId
      && FromBE(s[40..44]) == h.deadlineMs && (checksum ==> s[end..] == Crc32.Crc(s[..end]))
  {
    var g := Frame.HeaderBytes(h);
    var t, end := g + payload, 56 + |payload|;
    var s := if checksum then t + Crc32.Crc(t) else t;
    HeaderWritten(h);
    HeaderFront(g, s);
    assert s[..end] == t && s[56..end] == payload;
    MagicLiteral(s);
    VersionLiteral(s);
  }
}
