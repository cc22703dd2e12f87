/** The header in plain numbers: what stands at which byte. */
module HeaderFormat {
  import opened Wire
  import opened Frame
  import Crc32
  import Numerals

  lemma {:induction false} MagicLiteral(raw: bytes)
    requires |raw| >= 56
    ensures MagicOk(raw) <==> raw[..4] == [0x41, 0x49, 0x43, 0x4C]
    ensures MagicOk(raw) <==> raw[0] == 0x41 && raw[1] == 0x49 && raw[2] == 0x43 && raw[3] == 0x4C
  {
    assert raw[..4] == [raw[0], raw[1], raw[2], raw[3]];
  }

  lemma {:induction false} VersionLiteral(raw: bytes)
    requires |raw| >= 56
    ensures raw[4..6] == [0x01, 0x00] <==> raw[4] == 0x01 && raw[5] == 0x00
    ensures ReadHeader(raw).version == 0x100 <==> raw[4] == 0x01 && raw[5] == 0x00
    ensures ReadHeader(raw).version / 0x100 == raw[4]
  {
    assert raw[4..6] == [raw[4], raw[5]];
    Numerals.TwoDigits(raw[4], raw[5]);
  }

  /** The trailer flag is the lowest bit of byte 6. */
  lemma {:induction false} TrailerLiteral(raw: bytes)
    requires |raw| >= 56
    ensures HasTrailer(ReadHeader(raw).flags) <==> raw[6] % 2 == 1
  {
    assert raw[6..8] == [raw[6], raw[7]];
    Numerals.TwoDigits(raw[6], raw[7]);
  }

  /** The fields at their places, in every header that fits. */
  lemma {:induction false} HeaderWritten(h: Header)
    requires HeaderFits(h)
    ensures 0 <= h.version < 0x1_0000 && 0 <= h.flags < 0x1_0000
    ensures 0 <= h.deadlineMs < 0x1_0000_0000 && 0 <= h.payloadLength < 0x1_0000_0000
    ensures var s := HeaderBytes(h);
      && |s| == 56 && s[..4] == [0x41, 0x49, 0x43, 0x4C]
      && FromBE(s[4..6]) == h.version && FromBE(s[6..8]) == h.flags
      && s[8..24] == h.messageId && s[24..40] == h.correlationId
      && FromBE(s[40..44]) == h.deadlineMs && FromBE(s[44..48]) == h.payloadLength
      && s[48..52] == [0, 0, 0, 0] && s[52..56] == Crc32.Crc(s[..52])
  {
    Pow256Values();
    HeaderReadBack(h, []);
    var s, p := HeaderBytes(h), HeaderPrefix(h);
    assert s + [] == s;
    PrefixSlices(h);
    assert p[48..52] == [0, 0, 0, 0];
    assert s[48..52] == p[48..52];
  }

  /** The headers that fit. */
  lemma {:induction false} FitsExactly(h: Header)
    ensures HeaderFits(h) <==>
            && 0 <= h.version < 0x1_0000 && 0 <= h.flags < 0x1_0000 && |h.messageId| == 16 && |h.correlationId| == 16
            && 0 <= h.deadlineMs < 0x1_0000_0000 && 0 <= h.payloadLength < 0x1_0000_0000
  {
    Pow256Values();
  }

  /** Setting the trailer flag sets the bit worth 0x100 and no other. */
  lemma {:induction false} FlagSet(flags: nat)
    ensures var f := WithTrailer(flags);
      f / 0x100 % 2 == 1 && f % 0x100 == flags % 0x100 && f / 0x200 == flags / 0x200
  {
    var q, r := flags / 0x100, flags % 0x100;
    assert flags == 0x100 * q + r && flags / 0x200 == q / 2;
  }

  lemma {:induction false} FlagRange(flags: int)
    ensures 0 <= WithTrailer(flags) < 0x1_0000 <==> 0 <= flags < 0x1_0000
  {
  }

  lemma {:induction false} HeaderFront(g: bytes, s: bytes)
    requires |g| == 56 && g <= s
    ensures s[..4] == g[..4] && s[4..6] == g[4..6] && s[6..8] == g[6..8] && s[8..24] == g[8..24] && s[24..40] == g[24..40]
    ensures s[40..44] == g[40..44] && s[44..48] == g[44..48] && s[48..52] == g[48..52] && s[52..56] == g[52..56] && s[..52] == g[..52]
  {
  }
}
