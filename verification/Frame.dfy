/** The 56-byte header that both implementations write and check: magic,
    version, flags, ids, deadline, payload length, padding, and a CRC over the
    first 52 bytes. */
module Frame {
  import opened Wire
  import Crc32

  const HEADER_SIZE: nat := 56
  const CRC_SCOPE: nat := 52
  const CHECKSUM_SIZE: nat := 4
  const MAGIC: bytes := [0x41, 0x49, 0x43, 0x4C]
  const VERSION: nat := 0x0100

  datatype Header = Header(
    version: int, flags: int, messageId: bytes, correlationId: bytes, deadlineMs: int, payloadLength: int)

  predicate HeaderFits(h: Header) {
    && InRange(2, h.version) && InRange(2, h.flags)
    && |h.messageId| == 16 && |h.correlationId| == 16
    && InRange(4, h.deadlineMs) && InRange(4, h.payloadLength)
  }

  function HeaderPrefix(h: Header): bytes {
    MAGIC + Pack(2, h.version) + Pack(2, h.flags) + h.messageId + h.correlationId
    + Pack(4, h.deadlineMs) + Pack(4, h.payloadLength) + [0, 0, 0, 0]
  }

  /** The header as it goes on the wire. */
  function HeaderBytes(h: Header): bytes {
    HeaderPrefix(h) + Crc32.Crc(HeaderPrefix(h))
  }

  function ReadHeader(s: bytes): Header
    requires |s| >= HEADER_SIZE
  {
    Header(FromBE(s[4..6]), FromBE(s[6..8]), s[8..24], s[24..40], FromBE(s[40..44]), FromBE(s[44..48]))
  }

  predicate MagicOk(s: bytes)
    requires |s| >= HEADER_SIZE
  {
    s[..4] == MAGIC
  }

  predicate HeaderCrcOk(s: bytes)
    requires |s| >= HEADER_SIZE
  {
    s[52..56] == Crc32.Crc(s[..52])
  }

  lemma {:induction false} PrefixSlices(h: Header)
    requires HeaderFits(h)
    ensures var p := HeaderPrefix(h);
      && |p| == CRC_SCOPE && p[..4] == MAGIC
      && p[4..6] == Pack(2, h.version) && p[6..8] == Pack(2, h.flags)
      && p[8..24] == h.messageId && p[24..40] == h.correlationId
      && p[40..44] == Pack(4, h.deadlineMs) && p[44..48] == Pack(4, h.payloadLength)
  {
  }

  /** Every header that fits is read back from the bytes written for it. */
  lemma {:induction false} HeaderReadBack(h: Header, rest: bytes)
    requires HeaderFits(h)
    ensures |HeaderBytes(h)| == HEADER_SIZE
    ensures var s := HeaderBytes(h) + rest;
      MagicOk(s) && ReadHeader(s) == h && HeaderCrcOk(s)
  {
    var p, s := HeaderPrefix(h), HeaderBytes(h) + rest;
    PrefixSlices(h);
    assert s[..4] == p[..4] && s[4..6] == p[4..6] && s[6..8] == p[6..8];
    assert s[8..24] == p[8..24] && s[24..40] == p[24..40];
    assert s[40..44] == p[40..44] && s[44..48] == p[44..48];
    assert s[..52] == p && s[52..56] == Crc32.Crc(p);
  }

  /** Bit 0x0100 of the flags: a CRC trailer follows the payload. */
  predicate HasTrailer(flags: int) { flags / 256 % 2 == 1 }

  /** `flags | 0x0100`. */
  function WithTrailer(flags: int): int { if HasTrailer(flags) then flags else flags + 256 }
}
