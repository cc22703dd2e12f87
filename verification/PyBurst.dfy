/** Error bursts in a frame: `decode` rejects every frame that differs from an
    accepted one only inside a window of four consecutive bytes. */
module PyBurst {
  import opened Wire
  import opened Frame
  import opened PyFields
  import opened PyPacket
  import opened PyView
  import opened PyRoundTrip
  import opened Operands
  import Crc32

  /** An accepted frame that carries a trailer, or one that carries none. */
  predicate AcceptedSealed(w: bytes) {
    Decode(w).Ok? && |w| == HEADER_SIZE + ReadHeader(w).payloadLength + CHECKSUM_SIZE
  }

  predicate AcceptedPlain(w: bytes) {
    Decode(w).Ok? && |w| == HEADER_SIZE + ReadHeader(w).payloadLength
  }

  lemma {:induction false} AcceptedHeader(w: bytes)
    requires Decode(w).Ok?
    ensures |w| >= HEADER_SIZE && HeaderCrcOk(w)
  {
    var h := w[..HEADER_SIZE];
    assert h[52..56] == w[52..56] && h[..52] == w[..52];
  }

  lemma {:induction false} AcceptedTrailer(w: bytes)
    requires Decode(w).Ok? && |w| >= HEADER_SIZE && |w| == HEADER_SIZE + ReadHeader(w).payloadLength + CHECKSUM_SIZE
    ensures w[|w| - 4..] == Crc32.Crc(w[..|w| - 4])
  {
  }

  /** A window over the first 52 bytes breaks the header CRC. */
  lemma {:induction false} HeaderWindow(w: bytes, w': bytes, at: nat)
    requires Decode(w).Ok? && |w'| == |w|
    requires Crc32.DifferInWindow(w[..CRC_SCOPE], w'[..CRC_SCOPE], at) && w'[52..56] == w[52..56]
    ensures Decode(w').Err?
  {
    AcceptedHeader(w);
    Crc32.BurstDetected(w[..52], w'[..52], at);
    if Decode(w').Ok? {
      AcceptedHeader(w');
    }
  }

  /** So does any change to the stored header CRC alone. */
  lemma {:induction false} HeaderCrcWindow(w: bytes, w': bytes)
    requires Decode(w).Ok? && |w'| == |w|
    requires w'[..52] == w[..52] && w'[52..56] != w[52..56]
    ensures Decode(w').Err?
  {
    AcceptedHeader(w);
    if Decode(w').Ok? {
      AcceptedHeader(w');
    }
  }

  lemma {:induction false} LengthWindow(w: bytes, w': bytes, end: nat, at: nat)
    requires HEADER_SIZE <= end <= |w| == |w'| && Crc32.DifferInWindow(w[..end], w'[..end], at)
    requires w[44..48] != w'[44..48]
    ensures Crc32.DifferInWindow(w[..52], w'[..52], at) && w'[52..56] == w[52..56]
  {
    var i :| 0 <= i < 4 && w[44..48][i] != w'[44..48][i];
    assert w[..end][44 + i] != w'[..end][44 + i];
    assert 40 < at < 48;
    forall j | 0 <= j < end && w[..end][j] != w'[..end][j]
      ensures at <= j < at + 4
    {
    }
    forall j | 0 <= j < 52 && w[..52][j] != w'[..52][j]
      ensures at <= j < at + 4
    {
      assert w[..end][j] != w'[..end][j];
    }
    assert w[..52][44 + i] != w'[..52][44 + i];
    forall j | 0 <= j < 4
      ensures w'[52..56][j] == w[52..56][j]
    {
      assert w[..end][52 + j] == w'[..end][52 + j];
    }
  }

  /** A window anywhere in the covered part of a sealed frame is detected, also
      where it straddles the header CRC or moves the end of the payload. */
  lemma {:induction false} SealedWindow(w: bytes, w': bytes, at: nat)
    requires AcceptedSealed(w) && |w'| == |w| && w'[|w| - 4..] == w[|w| - 4..]
    requires Crc32.DifferInWindow(w[..|w| - 4], w'[..|w| - 4], at)
    ensures Decode(w').Err?
  {
    var end := |w| - 4;
    if w[44..48] != w'[44..48] {
      LengthWindow(w, w', end, at);
      HeaderWindow(w, w', at);
    } else {
      AcceptedTrailer(w);
      Crc32.BurstDetected(w[..end], w'[..end], at);
      if Decode(w').Ok? {
        assert ReadHeader(w').payloadLength == ReadHeader(w).payloadLength;
        AcceptedTrailer(w');
      }
    }
  }

  /** Any change to the trailer alone is detected. */
  lemma {:induction false} TrailerWindow(w: bytes, w': bytes)
    requires AcceptedSealed(w) && |w'| == |w| && w'[..|w| - 4] == w[..|w| - 4] && w' != w
    ensures Decode(w').Err?
  {
    var end := |w| - 4;
    AcceptedTrailer(w);
    assert w == w[..end] + w[end..] && w' == w'[..end] + w'[end..];
    if Decode(w').Ok? {
      assert w[..end][44..48] == w[44..48] && w'[..end][44..48] == w'[44..48];
      AcceptedTrailer(w');
    }
  }

  /** Without a trailer, the header is still protected in its two parts. */
  lemma {:induction false} PlainWindow(w: bytes, w': bytes, at: nat)
    requires AcceptedPlain(w) && |w'| == |w|
    requires
      || (Crc32.DifferInWindow(w[..52], w'[..52], at) && w'[52..56] == w[52..56])
      || (w'[..52] == w[..52] && w'[52..56] != w[52..56])
    ensures Decode(w').Err?
  {
    if w'[..52] == w[..52] { HeaderCrcWindow(w, w'); } else { HeaderWindow(w, w', at); }
  }

  /** What `encode` writes is such a frame. */
  lemma {:induction false} EncodedIsAccepted(p: Packet, checksum: bool)
    requires AllOf(Maps(Python), p.symbols) && PyPacket.Encode(p, checksum).Ok? && |Payload(p)| <= MAX_PAYLOAD
    ensures checksum ==> AcceptedSealed(PyPacket.Encode(p, checksum).value)
    ensures !checksum ==> AcceptedPlain(PyPacket.Encode(p, checksum).value)
  {
    EncodeShape(p, checksum);
    DecodeEncode(p, checksum);
    var h, payload := HeaderOf(p, checksum), Payload(p);
    var s := HeaderBytes(h) + payload;
    HeaderReadBack(h, payload);
    HeaderReadBack(h, payload + Crc32.Crc(s));
    Assoc(HeaderBytes(h), payload, Crc32.Crc(s));
  }
}
