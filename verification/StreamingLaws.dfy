/** What the streaming decoder promises: the packets it emits and the buffer it
    keeps depend on the bytes of the stream, not on how they were cut. */
module StreamingLaws {
  import opened Wire
  import opened Operands
  import opened Frame
  import opened PyFields
  import opened PyPacket
  import opened PyView
  import opened PyRoundTrip
  import opened Streaming

  /** The reference: one pass over the whole stream, with no limit. */
  function FeedAll(c: Format, s: bytes): Fed {
    match Next(c, s, 0)
    case Nothing => Fed([], s)
    case Partial(at) => Fed([], s[at..])
    case Whole(at, end) => Then(c.decode(s[at..end]), FeedAll(c, s[end..]))
  }

  // --- the search is not disturbed by later bytes ---

  ghost predicate NoHeader(c: Format, s: bytes, i: nat, j: nat) {
    forall m :: i <= m < j ==> !HeaderAt(c, s, m)
  }

  lemma {:induction false} NextIsFirst(c: Format, s: bytes, i: nat)
    ensures var f := Next(c, s, i);
      NoHeader(c, s, i, if f.Nothing? then |s| else f.at)
    decreases |s| - i
  {
    if i + HEADER_SIZE <= |s| && !HeaderAt(c, s, i) { NextIsFirst(c, s, i + 1); }
  }

  lemma {:induction false} HeaderExtends(c: Format, s: bytes, t: bytes, i: nat)
    requires i + HEADER_SIZE <= |s|
    ensures HeaderAt(c, s + t, i) == HeaderAt(c, s, i)
    ensures FrameEnd(c, s + t, i) == FrameEnd(c, s, i)
  {
    assert (s + t)[i..i + HEADER_SIZE] == s[i..i + HEADER_SIZE];
  }

  lemma {:induction false} NextFrom(c: Format, s: bytes, at: nat)
    requires NoHeader(c, s, 0, at)
    ensures Next(c, s, 0) == Next(c, s, at)
  {
    NextSkips(c, s, 0, at);
  }

  lemma {:induction false} FirstExtends(c: Format, s: bytes, t: bytes, at: nat)
    requires HeaderAt(c, s, at) && NoHeader(c, s, 0, at)
    ensures Next(c, s + t, 0) == Next(c, s + t, at)
  {
    forall m | 0 <= m < at
      ensures !HeaderAt(c, s + t, m)
    {
      HeaderExtends(c, s, t, m);
    }
    NextFrom(c, s + t, at);
  }

  lemma {:induction false} WholeExtends(c: Format, s: bytes, t: bytes, at: nat, end: nat)
    requires Next(c, s, 0) == Whole(at, end)
    ensures Next(c, s + t, 0) == Whole(at, end)
  {
    NextIsFirst(c, s, 0);
    FirstExtends(c, s, t, at);
    HeaderExtends(c, s, t, at);
  }

  lemma {:induction false} ExtendedSlices(s: bytes, t: bytes, at: nat, end: nat)
    requires at <= end <= |s|
    ensures (s + t)[at..end] == s[at..end] && (s + t)[end..] == s[end..] + t
  {
  }

  // --- dropping what precedes a header ---

  lemma {:induction false} AllStep(c: Format, s: bytes, at: nat, end: nat)
    requires Next(c, s, 0) == Whole(at, end)
    ensures FeedAll(c, s) == Then(c.decode(s[at..end]), FeedAll(c, s[end..]))
  {
  }

  lemma {:induction false} DropGarbage(c: Format, s: bytes, at: nat)
    requires HeaderAt(c, s, at) && NoHeader(c, s, 0, at)
    ensures FeedAll(c, s) == FeedAll(c, s[at..])
  {
    var r := s[at..];
    NextFrom(c, s, at);
    ShiftHeader(c, s, at, 0);
    assert at + 0 == at && HeaderAt(c, r, 0) && FrameEnd(c, r, 0) + at == FrameEnd(c, s, at);
    if Next(c, s, 0).Whole? {
      var end := FrameEnd(c, s, at);
      var v, rest := c.decode(s[at..end]), FeedAll(c, s[end..]);
      assert FeedAll(c, s) == Then(v, rest) by { AllStep(c, s, at, end); }
      assert FeedAll(c, r) == Then(v, rest) by {
        assert Next(c, r, 0) == Whole(0, end - at);
        assert r[0..end - at] == s[at..end] && r[end - at..] == s[end..];
        AllStep(c, r, 0, end - at);
      }
    } else {
      assert Next(c, r, 0) == Partial(0);
      assert r[0..] == r;
    }
  }

  // --- resuming ---

  lemma {:induction false} PrependAssoc(a: seq<View>, b: seq<View>, f: Fed)
    ensures Prepend(a, Prepend(b, f)) == Prepend(a + b, f)
  {
  }

  /** The rest of a stream after one call that gave f. */
  function Resumed(c: Format, f: Fed, t: bytes): Fed {
    if f.Fed? then Prepend(f.packets, FeedAll(c, f.rest + t)) else f
  }

  lemma {:induction false} ResumedPrepend(c: Format, v: View, f: Fed, t: bytes)
    ensures Resumed(c, Prepend([v], f), t) == Prepend([v], Resumed(c, f, t))
  {
  }

  /** One call with any limit takes packets off the front of the stream and
      leaves the rest of it, whatever bytes come later. */
  lemma {:induction false} Resume(c: Format, s: bytes, t: bytes, k: nat)
    ensures FeedAll(c, s + t) == Resumed(c, Feed(c, s, k), t)
    decreases |s|, k
  {
    PrependNothing(FeedAll(c, s + t));
    var f := Next(c, s, 0);
    if k == 0 || f.Nothing? {
      assert Feed(c, s, k) == Fed([], s);
    } else if f.Partial? {
      NextIsFirst(c, s, 0);
      ResumePartial(c, s, t, f.at);
    } else {
      Resume(c, s[f.end..], t, k - 1);
      FeedWhole(c, s, 0, k, f.at, f.end);
      ResumeWhole(c, s, t, f.at, f.end, Feed(c, s[f.end..], k - 1));
    }
  }

  lemma {:induction false} ResumeWhole(c: Format, s: bytes, t: bytes, at: nat, end: nat, g: Fed)
    requires Next(c, s, 0) == Whole(at, end) && FeedAll(c, s[end..] + t) == Resumed(c, g, t)
    ensures FeedAll(c, s + t) == Resumed(c, Then(c.decode(s[at..end]), g), t)
  {
    var v := c.decode(s[at..end]);
    assert FeedAll(c, s + t) == Then(v, Resumed(c, g, t)) by {
      WholeExtends(c, s, t, at, end);
      AllStep(c, s + t, at, end);
      ExtendedSlices(s, t, at, end);
    }
    ResumedThen(c, v, g, t);
  }

  lemma {:induction false} ResumedThen(c: Format, v: Py<View>, g: Fed, t: bytes)
    ensures Resumed(c, Then(v, g), t) == Then(v, Resumed(c, g, t))
  {
    if v.Ok? { ResumedPrepend(c, v.value, g, t); }
  }

  lemma {:induction false} ResumePartial(c: Format, s: bytes, t: bytes, at: nat)
    requires HeaderAt(c, s, at) && NoHeader(c, s, 0, at)
    ensures FeedAll(c, s + t) == Resumed(c, Fed([], s[at..]), t)
  {
    forall m | 0 <= m < at
      ensures !HeaderAt(c, s + t, m)
    {
      HeaderExtends(c, s, t, m);
    }
    HeaderExtends(c, s, t, at);
    DropGarbage(c, s + t, at);
    assert (s + t)[at..] == s[at..] + t;
    PrependNothing(FeedAll(c, s[at..] + t));
  }

  // --- limits ---

  /** The per-feed limit was not reached. */
  predicate Roomy(f: Fed, k: nat) { f.Fed? ==> |f.packets| < k }

  /** Below the limit a call is the whole pass; the limit only ever delays. */
  lemma {:induction false} FeedBelowLimit(c: Format, s: bytes, k: nat)
    ensures Feed(c, s, k).Fed? ==> |Feed(c, s, k).packets| <= k
    ensures k > 0 && Roomy(Feed(c, s, k), k) ==> Feed(c, s, k) == FeedAll(c, s)
    ensures FeedAll(c, s).Fed? && Roomy(FeedAll(c, s), k) ==> Feed(c, s, k) == FeedAll(c, s)
    decreases |s|, k
  {
    var f := Next(c, s, 0);
    if k > 0 && f.Whole? {
      FeedWhole(c, s, 0, k, f.at, f.end);
      AllStep(c, s, f.at, f.end);
      FeedBelowLimit(c, s[f.end..], k - 1);
    }
  }

  /** After a call below the limit, nothing more is in the buffer. */
  lemma {:induction false} RestIsIdle(c: Format, s: bytes)
    requires FeedAll(c, s).Fed?
    ensures FeedAll(c, FeedAll(c, s).rest) == Fed([], FeedAll(c, s).rest)
  {
    var f := Next(c, s, 0);
    if f.Whole? {
      AllStep(c, s, f.at, f.end);
      RestIsIdle(c, s[f.end..]);
    } else if f.Partial? {
      var r := s[f.at..];
      ShiftHeader(c, s, f.at, 0);
      assert Next(c, r, 0) == Partial(0);
      assert r[0..] == r;
    }
  }

  /** No header, or the header of a frame that is not all there at the front. */
  ghost predicate Unfinished(c: Format, r: bytes) {
    NoHeader(c, r, 0, |r|) || (HeaderAt(c, r, 0) && FrameEnd(c, r, 0) > |r|)
  }

  predicate Suffix(r: bytes, s: bytes) { |r| <= |s| && r == s[|s| - |r|..] }

  lemma {:induction false} SuffixOfSuffix(s: bytes, end: nat, r: bytes)
    requires end <= |s| && Suffix(r, s[end..])
    ensures Suffix(r, s)
  {
  }

  lemma {:induction false} PartialKept(c: Format, s: bytes, at: nat)
    requires HeaderAt(c, s, at) && FrameEnd(c, s, at) > |s|
    ensures Unfinished(c, s[at..]) && Suffix(s[at..], s)
  {
    ShiftHeader(c, s, at, 0);
  }

  /** The bytes that are kept are the last ones that came. There is no header among
      them, or they begin with the header of a frame that is not all there. */
  lemma {:induction false} KeptBuffer(c: Format, s: bytes)
    requires FeedAll(c, s).Fed?
    ensures Suffix(FeedAll(c, s).rest, s) && Unfinished(c, FeedAll(c, s).rest)
  {
    match Next(c, s, 0) {
      case Whole(at, end) =>
        var tail, g := s[end..], FeedAll(c, s[end..]);
        assert g.Fed? && FeedAll(c, s).rest == g.rest by { AllStep(c, s, at, end); }
        assert Suffix(g.rest, tail) && Unfinished(c, g.rest) by { KeptBuffer(c, tail); }
        SuffixOfSuffix(s, end, g.rest);
      case Partial(at) => PartialKept(c, s, at);
      case Nothing => NextIsFirst(c, s, 0);
    }
  }

  /** Two calls give the packets and the buffer of one call on both chunks. */
  lemma {:induction false} ChunkingIndependence(c: Format, s: bytes, t: bytes, k: nat)
    requires k > 0 && Feed(c, s + t, k).Fed? && Roomy(Feed(c, s + t, k), k)
    ensures Feed(c, s, k).Fed?
    ensures Feed(c, s + t, k) == Prepend(Feed(c, s, k).packets, Feed(c, Feed(c, s, k).rest + t, k))
  {
    FeedBelowLimit(c, s + t, k);
    Resume(c, s, t, k);
    FeedBelowLimit(c, Feed(c, s, k).rest + t, k);
  }

  /** The same from the side of the two calls. */
  lemma {:induction false} ChunkingMerges(c: Format, s: bytes, t: bytes, k: nat)
    requires k > 0 && Feed(c, s, k).Fed?
    requires var g := Feed(c, Feed(c, s, k).rest + t, k);
      g.Fed? && |Feed(c, s, k).packets| + |g.packets| < k
    ensures Feed(c, s + t, k) == Prepend(Feed(c, s, k).packets, Feed(c, Feed(c, s, k).rest + t, k))
  {
    FeedBelowLimit(c, Feed(c, s, k).rest + t, k);
    Resume(c, s, t, k);
    FeedBelowLimit(c, s + t, k);
  }

  /** Once a framed candidate fails to decode, every later call fails. */
  lemma {:induction false} RaisesForever(c: Format, s: bytes, t: bytes, k: nat)
    requires Feed(c, s, k).Raised?
    ensures Feed(c, s + t, k) == Feed(c, s, k)
    decreases |s|, k
  {
    var f := Next(c, s, 0);
    var v, rest := c.decode(s[f.at..f.end]), s[f.end..];
    assert Feed(c, s, k) == Then(v, Feed(c, rest, k - 1)) by { FeedWhole(c, s, 0, k, f.at, f.end); }
    assert Feed(c, s + t, k) == Then(v, Feed(c, rest + t, k - 1)) by {
      WholeExtends(c, s, t, f.at, f.end);
      ExtendedSlices(s, t, f.at, f.end);
      FeedWhole(c, s + t, 0, k, f.at, f.end);
    }
    if v.Ok? { RaisesForever(c, rest, t, k - 1); }
  }

  // --- whole runs ---

  /** The packets and the last buffer of one call per chunk, until one raises. */
  function Run(c: Format, buf: bytes, chunks: seq<bytes>, k: nat): Fed
    decreases |chunks|
  {
    if chunks == [] then Fed([], buf)
    else
      var f := Feed(c, buf + chunks[0], k);
      if f.Raised? then f else Prepend(f.packets, Run(c, f.rest, chunks[1..], k))
  }

  function Concat(chunks: seq<bytes>): bytes {
    if chunks == [] then [] else chunks[0] + Concat(chunks[1..])
  }

  lemma {:induction false} RunStep(c: Format, buf: bytes, chunks: seq<bytes>, k: nat, f: Fed)
    requires chunks != [] && f == Feed(c, buf + chunks[0], k)
    ensures Run(c, buf, chunks, k) == if f.Raised? then f else Prepend(f.packets, Run(c, f.rest, chunks[1..], k))
  {
  }

  /** However the stream is cut and whatever the limit, the packets emitted so
      far and those still in the buffer are those of one pass over the stream. */
  lemma {:induction false} RunConserves(c: Format, buf: bytes, chunks: seq<bytes>, k: nat)
    ensures FeedAll(c, buf + Concat(chunks)) == Resumed(c, Run(c, buf, chunks, k), [])
    decreases |chunks|
  {
    if chunks == [] {
      assert buf + [] == buf;
      PrependNothing(FeedAll(c, buf));
    } else {
      var s, t := buf + chunks[0], Concat(chunks[1..]);
      var f := Feed(c, s, k);
      Assoc(buf, chunks[0], t);
      Resume(c, s, t, k);
      RunStep(c, buf, chunks, k, f);
      if f.Fed? {
        RunConserves(c, f.rest, chunks[1..], k);
        ResumedAfter(c, f.packets, Run(c, f.rest, chunks[1..], k));
      }
    }
  }

  lemma {:induction false} ResumedAfter(c: Format, ps: seq<View>, f: Fed)
    ensures Resumed(c, Prepend(ps, f), []) == Prepend(ps, Resumed(c, f, []))
  {
  }

  function Empties(n: nat): seq<bytes> { seq(n, _ => []) }

  /** Empty calls drain a buffer in at most one call per packet left in it, and
      one more to trim it. */
  lemma {:induction false} EmptyFeedsDrain(c: Format, buf: bytes, k: nat, n: nat)
    requires k > 0 && FeedAll(c, buf).Fed? && n > |FeedAll(c, buf).packets|
    ensures Run(c, buf, Empties(n), k) == FeedAll(c, buf)
    decreases n
  {
    var chunks := Empties(n);
    assert buf + chunks[0] == buf && chunks[1..] == Empties(n - 1);
    var f := Feed(c, buf, k);
    FeedBelowLimit(c, buf, k);
    Resume(c, buf, [], k);
    assert buf + [] == buf && f.rest + [] == f.rest;
    RunStep(c, buf, chunks, k, f);
    if |f.packets| < k {
      RestIsIdle(c, buf);
      IdleRun(c, f.rest, k, n - 1);
    } else {
      EmptyFeedsDrain(c, f.rest, k, n - 1);
    }
  }

  lemma {:induction false} IdleRun(c: Format, r: bytes, k: nat, n: nat)
    requires k > 0 && FeedAll(c, r) == Fed([], r)
    ensures Run(c, r, Empties(n), k) == Fed([], r)
    decreases n
  {
    if n > 0 {
      assert r + Empties(n)[0] == r && Empties(n)[1..] == Empties(n - 1);
      FeedBelowLimit(c, r, k);
      RunStep(c, r, Empties(n), k, Fed([], r));
      IdleRun(c, r, k, n - 1);
      PrependNothing(Fed([], r));
    }
  }

  lemma {:induction false} RunAppend(c: Format, buf: bytes, a: seq<bytes>, b: seq<bytes>, k: nat)
    requires Run(c, buf, a, k).Fed?
    ensures Run(c, buf, a + b, k) == Prepend(Run(c, buf, a, k).packets, Run(c, Run(c, buf, a, k).rest, b, k))
    decreases |a|
  {
    if a == [] {
      assert a + b == b;
      PrependNothing(Run(c, buf, b, k));
    } else {
      var f := Feed(c, buf + a[0], k);
      assert (a + b)[0] == a[0] && (a + b)[1..] == a[1..] + b;
      RunStep(c, buf, a, k, f);
      RunStep(c, buf, a + b, k, f);
      RunAppend(c, f.rest, a[1..], b, k);
      var g := Run(c, f.rest, a[1..], k);
      PrependAssoc(f.packets, g.packets, Run(c, g.rest, b, k));
    }
  }

  /** Any chunking and any limit of at least one, followed by enough empty
      calls, emits exactly the packets of the stream, in order. */
  lemma {:induction false} RunComplete(c: Format, chunks: seq<bytes>, k: nat, n: nat)
    requires k > 0 && FeedAll(c, Concat(chunks)).Fed? && n > |FeedAll(c, Concat(chunks)).packets|
    ensures Run(c, [], chunks + Empties(n), k) == FeedAll(c, Concat(chunks))
  {
    assert [] + Concat(chunks) == Concat(chunks);
    RunConserves(c, [], chunks, k);
    var g := Run(c, [], chunks, k);
    assert g.rest + [] == g.rest;
    RunAppend(c, [], chunks, Empties(n), k);
    EmptyFeedsDrain(c, g.rest, k, n);
  }

  // --- streams of encoded packets ---

  /** A packet as sent, with the garbage before it. */
  datatype Sent = Sent(garbage: bytes, packet: Packet, checksum: bool)

  function FrameOf(x: Sent): bytes {
    var r := PyPacket.Encode(x.packet, x.checksum);
    if r.Ok? then r.value else []
  }

  /** The packet encodes and its payload is within the limit; the trailer flag
      is set only if a trailer is written. */
  predicate Sendable(x: Sent) {
    && PyPacket.Encode(x.packet, x.checksum).Ok? && AllOf(Maps(Python), x.packet.symbols)
    && |Payload(x.packet)| <= MAX_PAYLOAD && FlagHonest(x)
  }

  predicate FlagHonest(x: Sent) { x.checksum || !HasTrailer(x.packet.flags) }

  function Stream(xs: seq<Sent>, tail: bytes): bytes {
    if xs == [] then tail else xs[0].garbage + (FrameOf(xs[0]) + Stream(xs[1..], tail))
  }

  /** No offset outside the packets validates as a header. */
  ghost predicate Separated(xs: seq<Sent>, tail: bytes) {
    if xs == [] then NoHeader(AICL, tail, 0, |tail|)
    else NoHeader(AICL, Stream(xs, tail), 0, |xs[0].garbage|) && Separated(xs[1..], tail)
  }

  /** What decoding each packet shows, in order. */
  function ViewsOf(xs: seq<Sent>): (vs: seq<View>)
    ensures |vs| == |xs|
  {
    if xs == [] then [] else [Shown(xs[0].packet, xs[0].checksum)] + ViewsOf(xs[1..])
  }

  /** The decoder frames an encoded packet correctly exactly when the trailer
      flag is set only through `checksum`. */
  lemma {:induction false} FramedExactly(x: Sent, rest: bytes)
    requires PyPacket.Encode(x.packet, x.checksum).Ok? && |Payload(x.packet)| <= MAX_PAYLOAD
    ensures HeaderAt(AICL, FrameOf(x) + rest, 0)
    ensures FrameEnd(AICL, FrameOf(x) + rest, 0) == |FrameOf(x)| <==> FlagHonest(x)
  {
    var h, f := HeaderOf(x.packet, x.checksum), FrameOf(x);
    FrameShape(x);
    WrittenHeader(h);
    StartsWith(AICL, f, rest, HeaderBytes(h));
    FlagShown(x);
  }

  lemma {:induction false} StartsWith(c: Format, f: bytes, rest: bytes, hb: bytes)
    requires |f| >= HEADER_SIZE && f[..HEADER_SIZE] == hb && c.valid(hb)
    ensures HeaderAt(c, f + rest, 0) && FrameEnd(c, f + rest, 0) == HEADER_SIZE + c.following(hb)
  {
    assert (f + rest)[0..HEADER_SIZE] == hb;
  }

  lemma {:induction false} FlagShown(x: Sent)
    ensures HasTrailer(HeaderOf(x.packet, x.checksum).flags) == (x.checksum || HasTrailer(x.packet.flags))
  {
  }

  lemma {:induction false} FrameShape(x: Sent)
    requires PyPacket.Encode(x.packet, x.checksum).Ok?
    ensures var h, f := HeaderOf(x.packet, x.checksum), FrameOf(x);
      && HeaderFits(h) && h.version == VERSION && h.payloadLength == |Payload(x.packet)|
      && |f| == HEADER_SIZE + h.payloadLength + (if x.checksum then CHECKSUM_SIZE else 0)
      && f[..HEADER_SIZE] == HeaderBytes(h)
  {
    EncodeShape(x.packet, x.checksum);
    HeaderReadBack(HeaderOf(x.packet, x.checksum), []);
  }

  lemma {:induction false} WrittenHeader(h: Header)
    requires HeaderFits(h) && h.version == VERSION && h.payloadLength <= MAX_PAYLOAD
    ensures var hb := HeaderBytes(h);
      && |hb| == HEADER_SIZE && AICL.valid(hb)
      && AICL.following(hb) == h.payloadLength + if HasTrailer(h.flags) then CHECKSUM_SIZE else 0
  {
    var hb := HeaderBytes(h);
    FrameHeader(h, []);
    HeaderReadBack(h, []);
    assert hb + [] == hb && hb[..HEADER_SIZE] == hb;
    assert HeaderIsValid(hb);
  }

  lemma {:induction false} FirstPacket(x: Sent, rest: bytes)
    requires Sendable(x) && NoHeader(AICL, x.garbage + (FrameOf(x) + rest), 0, |x.garbage|)
    ensures FeedAll(AICL, x.garbage + (FrameOf(x) + rest))
         == Prepend([Shown(x.packet, x.checksum)], FeedAll(AICL, rest))
  {
    var g, f := x.garbage, FrameOf(x);
    var s := g + (f + rest);
    FramedExactly(x, rest);
    assert s[|g|..] == f + rest;
    ShiftHeader(AICL, s, |g|, 0);
    DropGarbage(AICL, s, |g|);
    DecodeEncode(x.packet, x.checksum);
    assert Next(AICL, f + rest, 0) == Whole(0, |f|);
    AllStep(AICL, f + rest, 0, |f|);
    assert (f + rest)[0..|f|] == f && (f + rest)[|f|..] == rest;
  }

  /** One pass over the stream emits every packet, once and in order. */
  lemma {:induction false} StreamDecodes(xs: seq<Sent>, tail: bytes)
    requires forall i :: 0 <= i < |xs| ==> Sendable(xs[i])
    requires Separated(xs, tail)
    ensures FeedAll(AICL, Stream(xs, tail)) == Fed(ViewsOf(xs), tail)
    decreases |xs|
  {
    if xs == [] {
      NoFrame(AICL, tail);
    } else {
      StreamDecodes(xs[1..], tail);
      FirstPacket(xs[0], Stream(xs[1..], tail));
    }
  }

  lemma {:induction false} NoFrame(c: Format, s: bytes)
    requires NoHeader(c, s, 0, |s|)
    ensures FeedAll(c, s) == Fed([], s)
  {
  }

  /** Every packet of a stream of encoded packets and garbage arrives exactly
      once and in order, for every chunking and every limit of at least one. */
  lemma {:induction false} StreamingComplete(xs: seq<Sent>, tail: bytes, chunks: seq<bytes>, k: nat, n: nat)
    requires forall i :: 0 <= i < |xs| ==> Sendable(xs[i])
    requires Separated(xs, tail) && Concat(chunks) == Stream(xs, tail)
    requires k > 0 && n > |xs|
    ensures Run(AICL, [], chunks + Empties(n), k) == Fed(ViewsOf(xs), tail)
  {
    StreamDecodes(xs, tail);
    RunComplete(AICL, chunks, k, n);
  }
}
