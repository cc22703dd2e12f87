/** The two rich fields that a view does not give back as they were: blob
    references and acknowledgements. */
module PyLostFields {
  import opened Wire
  import opened Operands
  import opened PyFields
  import opened PyPacket
  import opened PyView
  import opened PyRoundTrip
  import Numerals

  // --- blob references ---

  /** A Python value: a record field can hold either. */
  datatype Value = IntValue(n: int) | TextValue(t: bytes)

  /** A blob reference as an object, its fields of any type. */
  datatype ShownBlob = ShownBlob(refType: Value, size: Value, offset: Value, identifier: Value)

  function AsGiven(x: BlobRef): ShownBlob {
    ShownBlob(IntValue(x.refType), IntValue(x.size), IntValue(x.offset), TextValue(x.identifier))
  }

  /** The reads of `PacketView.blob_refs`, all of them big-endian. */
  function ReadBlobRef(d: bytes): Py<BlobRef> {
    var refType :- U8At(d, 0);
    var il :- U8At(d, 1);
    var size :- UIntAt(d, 2, 4);
    var offset :- UIntAt(d, 6, 4);
    var identifier :- Text(Slice(d, 10, 10 + il));
    Ok(BlobRef(refType, size, offset, identifier))
  }

  /** The record made of them: identifier, size and offset are passed by position
      into the fields size, offset and identifier. */
  function ShowBlobRef(d: bytes): Py<ShownBlob> {
    var x :- ReadBlobRef(d);
    Ok(ShownBlob(IntValue(x.refType), TextValue(x.identifier), IntValue(x.size), IntValue(x.offset)))
  }

  function Number(a: int, b: int, c: int, d: int): int { 0x100_0000 * a + 0x1_0000 * b + 0x100 * c + d }

  lemma {:induction false} FourOf(s: bytes)
    requires |s| == 4
    ensures FromBE(s) == Number(s[0], s[1], s[2], s[3])
  {
    assert s == [s[0], s[1], s[2], s[3]];
    Numerals.FourDigits(s[0], s[1], s[2], s[3]);
  }

  lemma {:induction false} FourBytes(n: int)
    requires InRange(4, n)
    ensures var s := Pack(4, n); |s| == 4 && n == Number(s[0], s[1], s[2], s[3])
  {
    FourOf(Pack(4, n));
  }

  /** The identifier that is read starts two bytes early, inside the offset. */
  function IdentifierRead(x: BlobRef): bytes
    requires BlobRefFits(x)
  {
    (Pack(4, x.offset)[2..] + x.identifier)[..|x.identifier|]
  }

  /** The size that is read: its two low bytes, swapped. */
  function SizeRead(x: BlobRef): int
    requires BlobRefFits(x)
  {
    var s := Pack(4, x.size);
    Number(0, 0, s[3], s[2])
  }

  /** The offset that is read: the two high bytes of the size, swapped, in front
      of the two high bytes of the offset. */
  function OffsetRead(x: BlobRef): int
    requires BlobRefFits(x)
  {
    var s, o := Pack(4, x.size), Pack(4, x.offset);
    Number(s[1], s[0], o[0], o[1])
  }

  lemma {:induction false} BlobLayout(x: BlobRef)
    requires BlobRefFits(x)
    ensures var s, o, d := Pack(4, x.size), Pack(4, x.offset), PackBlobRef(x);
      && |d| == 12 + |x.identifier| && d[0] == x.refType && d[1] == |x.identifier|
      && d[2..6] == [0, 0, s[3], s[2]] && d[6..10] == [s[1], s[0], o[0], o[1]]
      && d[10..12] == o[2..] && d[12..] == x.identifier
  {
    OneByte(x.refType);
    OneByte(|x.identifier|);
  }

  lemma {:induction false} CutShifted(d: bytes, two: bytes, id: bytes)
    requires |d| == 12 + |id| && |two| == 2 && d[10..12] == two && d[12..] == id
    ensures Slice(d, 10, 10 + |id|) == (two + id)[..|id|]
  {
    assert d[10..] == d[10..12] + d[12..];
    if id != [] {
      assert Slice(d, 10, 10 + |id|) == d[10..][..|id|];
    }
  }

  lemma {:induction false} BlobReads(x: BlobRef)
    requires BlobRefFits(x)
    ensures var d := PackBlobRef(x);
      && |d| >= 12 && U8At(d, 0) == Ok(x.refType) && U8At(d, 1) == Ok(|x.identifier|)
      && UIntAt(d, 2, 4) == Ok(SizeRead(x)) && UIntAt(d, 6, 4) == Ok(OffsetRead(x))
      && Slice(d, 10, 10 + |x.identifier|) == IdentifierRead(x)
  {
    var d := PackBlobRef(x);
    BlobLayout(x);
    FourOf(d[2..6]);
    FourOf(d[6..10]);
    CutShifted(d, Pack(4, x.offset)[2..], x.identifier);
  }

  /** What a caller gets for a blob reference: an error if the shifted identifier
      is not UTF-8, otherwise a record with the text in its size and numbers in
      its offset and its identifier. It is never the reference that was packed. */
  lemma {:induction false} BlobNeverSurvives(x: BlobRef)
    requires BlobRefFits(x)
    ensures ShowBlobRef(PackBlobRef(x)) == if !ValidUtf8(IdentifierRead(x)) then Err(UnicodeError)
      else Ok(ShownBlob(IntValue(x.refType), TextValue(IdentifierRead(x)), IntValue(SizeRead(x)), IntValue(OffsetRead(x))))
    ensures ShowBlobRef(PackBlobRef(x)) != Ok(AsGiven(x))
  {
    BlobReads(x);
  }

  lemma {:induction false} SwappedSame(x: BlobRef)
    requires BlobRefFits(x)
    ensures SizeRead(x) == x.size <==> x.size < U16 && x.size / 256 == x.size % 256
  {
    var s := Pack(4, x.size);
    FourBytes(x.size);
    Halves(x.size, s[0], s[1], s[2], s[3]);
  }

  lemma {:induction false} Halves(n: int, a: byte, b: byte, c: byte, d: byte)
    requires n == Number(a, b, c, d)
    ensures n < U16 <==> a == 0 && b == 0
    ensures a == 0 && b == 0 ==> n / 256 == c && n % 256 == d
    ensures Number(0, 0, d, c) == n <==> a == 0 && b == 0 && c == d
  {
  }

  lemma {:induction false} OffsetSame(x: BlobRef)
    requires BlobRefFits(x) && x.size < U16
    ensures OffsetRead(x) == x.offset <==> x.offset == 0
  {
    var s, o := Pack(4, x.size), Pack(4, x.offset);
    FourBytes(x.size);
    FourBytes(x.offset);
    Halves(x.size, s[0], s[1], s[2], s[3]);
    LowerHalf(o[0], o[1], o[2], o[3]);
  }

  lemma {:induction false} LowerHalf(a: byte, b: byte, c: byte, d: byte)
    ensures Number(0, 0, a, b) == Number(a, b, c, d) <==> Number(a, b, c, d) == 0
  {
  }

  predicate AllZero(s: bytes) { forall i :: 0 <= i < |s| ==> s[i] == 0 }

  lemma {:induction false} ShiftedSame(two: bytes, id: bytes)
    requires two == [0, 0]
    ensures (two + id)[..|id|] == id <==> AllZero(id)
  {
    var t := (two + id)[..|id|];
    if t == id {
      forall i | 0 <= i < |id|
        ensures id[i] == 0
      {
        ShiftedZero(two, id, i);
      }
    }
  }

  lemma {:induction false} ShiftedZero(two: bytes, id: bytes, i: nat)
    requires two == [0, 0] && i < |id| && (two + id)[..|id|] == id
    ensures id[i] == 0
  {
    assert id[i] == (two + id)[..|id|][i] == (two + id)[i];
    if i >= 2 { ShiftedZero(two, id, i - 2); }
  }

  lemma {:induction false} ZeroTail(s: bytes)
    requires |s| == 4 && Number(s[0], s[1], s[2], s[3]) == 0
    ensures s[2..] == [0, 0]
  {
    NumberZero(s[0], s[1], s[2], s[3]);
    assert s[2..] == [s[2], s[3]];
  }

  lemma {:induction false} NumberZero(a: byte, b: byte, c: byte, d: byte)
    requires Number(a, b, c, d) == 0
    ensures c == 0 && d == 0
  {
  }

  /** The reads give the numbers and the identifier back exactly when the size is
      below 2^16 with equal bytes, the offset is 0 and the identifier is all
      zeros. */
  lemma {:induction false} LayoutSurvivesExactly(x: BlobRef)
    requires BlobRefFits(x)
    ensures ReadBlobRef(PackBlobRef(x)) == Ok(x) <==>
              x.size < U16 && x.size / 256 == x.size % 256 && x.offset == 0 && AllZero(x.identifier)
  {
    BlobReads(x);
    SwappedSame(x);
    if x.size < U16 { OffsetSame(x); }
    FourBytes(x.offset);
    TailSame(Pack(4, x.offset), x.offset, x.identifier);
    ReadIs(x, PackBlobRef(x), SizeRead(x), OffsetRead(x), IdentifierRead(x));
  }

  lemma {:induction false} TailSame(s: bytes, n: int, id: bytes)
    requires |s| == 4 && n == Number(s[0], s[1], s[2], s[3])
    ensures n == 0 ==> ((s[2..] + id)[..|id|] == id <==> AllZero(id))
  {
    if n == 0 {
      ZeroTail(s);
      ShiftedSame(s[2..], id);
    }
  }

  lemma {:induction false} ReadIs(x: BlobRef, d: bytes, size: int, offset: int, identifier: bytes)
    requires U8At(d, 0) == Ok(x.refType) && U8At(d, 1) == Ok(|x.identifier|) && ValidUtf8(x.identifier)
    requires UIntAt(d, 2, 4) == Ok(size) && UIntAt(d, 6, 4) == Ok(offset)
    requires Slice(d, 10, 10 + |x.identifier|) == identifier
    ensures ReadBlobRef(d) == Ok(x) <==> size == x.size && offset == x.offset && identifier == x.identifier
  {
  }

  /** `PacketView.blob_refs`. */
  function ShowBlobRefs(ds: seq<bytes>): Py<seq<ShownBlob>> {
    if ds == [] then Ok([])
    else
      var x :- ShowBlobRef(ds[0]);
      var xs :- ShowBlobRefs(ds[1..]);
      Ok([x] + xs)
  }

  function BlobRefs(v: View): Py<seq<ShownBlob>> { ShowBlobRefs(Lookup(v.extensions, 0x8C)) }

  function AllAsGiven(xs: seq<BlobRef>): seq<ShownBlob> {
    seq(|xs|, i requires 0 <= i < |xs| => AsGiven(xs[i]))
  }

  // --- acknowledgements ---

  /** The view puts the message where the acknowledgement type belongs. */
  function ShowAck(d: bytes): Py<Option<AckInfo>> {
    if d == [] then Ok(None)
    else
      var t :- Text(d[1..]);
      Ok(Some(AckInfo(t, [])))
  }

  /** `PacketView.ack_info`. */
  function Ack(v: View): Py<Option<AckInfo>> {
    if Field(v, 0x8F).None? then Ok(None) else ShowAck(Field(v, 0x8F).value)
  }

  /** An acknowledgement comes back exactly when both of its strings are empty. */
  lemma {:induction false} AckSurvivesExactly(x: AckInfo)
    requires ValidUtf8(x.message)
    ensures ShowAck(PackAck(x)) == Ok(Some(AckInfo(x.message, [])))
    ensures ShowAck(PackAck(x)) == Ok(Some(x)) <==> x.ackType == [] && x.message == []
  {
    assert PackAck(x)[1..] == x.message;
  }

  // --- in a decoded packet ---

  lemma {:induction false} BlobsLost(p: Packet, v: View)
    requires PartsFit(p) && Held(v, 12, PackBlobRefs(p.blobRefs))
    ensures BlobRefs(v) == Ok(AllAsGiven(p.blobRefs)) <==> p.blobRefs == []
  {
    if p.blobRefs == [] {
      assert AllAsGiven(p.blobRefs) == [];
    } else {
      BlobNeverSurvives(p.blobRefs[0]);
      FirstShown(PackBlobRefs(p.blobRefs));
      FirstGiven(p.blobRefs);
    }
  }

  lemma {:induction false} FirstGiven(xs: seq<BlobRef>)
    requires xs != []
    ensures AllAsGiven(xs) != [] && AllAsGiven(xs)[0] == AsGiven(xs[0])
  {
  }

  lemma {:induction false} FirstShown(ds: seq<bytes>)
    requires ds != []
    ensures var r := ShowBlobRefs(ds); r.Ok? ==> r.value != [] && ShowBlobRef(ds[0]) == Ok(r.value[0])
  {
  }

  lemma {:induction false} AckLost(p: Packet, v: View)
    requires PartsFit(p) && Held(v, 15, Present(p.ackInfo, PackAck))
    ensures Ack(v) == Ok(p.ackInfo) <==> p.ackInfo.None? || p.ackInfo.value == AckInfo([], [])
  {
    if p.ackInfo.Some? { AckSurvivesExactly(p.ackInfo.value); }
  }

  /** A decoded packet has its blob references exactly when it has none, and its
      acknowledgement exactly when it has none or an empty one. */
  lemma {:induction false} LostExactly(p: Packet, v: View)
    requires PartsFit(p) && Carries(v, p)
    ensures BlobRefs(v) == Ok(AllAsGiven(p.blobRefs)) <==> p.blobRefs == []
    ensures Ack(v) == Ok(p.ackInfo) <==> p.ackInfo.None? || p.ackInfo.value == AckInfo([], [])
  {
    BlobsLost(p, v) by { assert Held(v, 12, ExtValue(p, 12)); }
    AckLost(p, v) by { assert Held(v, 15, ExtValue(p, 15)); }
  }

  /** End to end: what `decode` shows of these two fields of an encoded packet. */
  lemma {:induction false} LostInTransit(p: Packet, checksum: bool)
    requires NoVendors(p.symbols) && AllOf(Maps(Python), p.symbols)
    requires PyPacket.Encode(p, checksum).Ok? && |Payload(p)| <= MAX_PAYLOAD
    ensures var r := Decode(PyPacket.Encode(p, checksum).value);
      && r.Ok?
      && (BlobRefs(r.value) == Ok(AllAsGiven(p.blobRefs)) <==> p.blobRefs == [])
      && (Ack(r.value) == Ok(p.ackInfo) <==> p.ackInfo.None? || p.ackInfo.value == AckInfo([], []))
  {
    var v := Shown(p, checksum);
    assert Decode(PyPacket.Encode(p, checksum).value) == Ok(v) by { DecodeEncode(p, checksum); }
    assert PartsFit(p) by { EncodeShape(p, checksum); }
    ExtMapCarries(p, v);
    LostExactly(p, v);
  }
}
