/** The streaming decoder: frames cut out of a byte stream that arrives in
    chunks, with resynchronisation on garbage. */
module Streaming {
  import opened Wire
  import opened Frame
  import opened PyFields
  import opened PyView

  /** What the decoder asks of a frame format: which 56 bytes are a header, how
      many bytes follow it, and how a whole frame is decoded. */
  datatype Format = Format(valid: bytes -> bool, following: bytes -> nat, decode: bytes -> Py<View>)

  /** Headers start with the magic that the decoder searches for. */
  ghost predicate Searchable(c: Format) {
    forall h :: c.valid(h) ==> |h| >= 4 && h[..4] == MAGIC
  }

  /** Payload, and a trailer if flagged. */
  function Following(h: bytes): nat {
    if |h| < HEADER_SIZE then 0
    else ReadHeader(h).payloadLength + if HasTrailer(ReadHeader(h).flags) then CHECKSUM_SIZE else 0
  }

  function HeaderIsValid(h: bytes): bool { ValidateHeader(h).Ok? }

  const AICL: Format := Format(HeaderIsValid, Following, Decode)

  lemma {:induction false} AiclSearchable()
    ensures Searchable(AICL)
  {
  }

  // --- one scan over a buffer ---

  /** A header that validates starts at offset i. */
  predicate HeaderAt(c: Format, s: bytes, i: nat) {
    i + HEADER_SIZE <= |s| && c.valid(s[i..i + HEADER_SIZE])
  }

  function FrameEnd(c: Format, s: bytes, i: nat): (end: nat)
    requires i + HEADER_SIZE <= |s|
    ensures end >= i + HEADER_SIZE
  {
    i + HEADER_SIZE + c.following(s[i..i + HEADER_SIZE])
  }

  datatype Found = Nothing | Partial(at: nat) | Whole(at: nat, end: nat)

  /** The first header at or after offset i, and whether its frame is all there. */
  function Next(c: Format, s: bytes, i: nat): (f: Found)
    ensures f.Partial? ==> i <= f.at && HeaderAt(c, s, f.at) && FrameEnd(c, s, f.at) > |s|
    ensures f.Whole? ==> i <= f.at && HeaderAt(c, s, f.at) && FrameEnd(c, s, f.at) == f.end <= |s|
    decreases |s| - i
  {
    if i + HEADER_SIZE > |s| then Nothing
    else if !HeaderAt(c, s, i) then Next(c, s, i + 1)
    else if FrameEnd(c, s, i) > |s| then Partial(i)
    else Whole(i, FrameEnd(c, s, i))
  }

  /** The packets of one call and the buffer it leaves, or an exception. */
  datatype Fed = Fed(packets: seq<View>, rest: bytes) | Raised(error: PyError)

  function Prepend(vs: seq<View>, f: Fed): Fed {
    if f.Fed? then Fed(vs + f.packets, f.rest) else f
  }

  /** A decoded frame in front of what the rest of the scan gives. */
  function Then(v: Py<View>, f: Fed): Fed { if v.Err? then Raised(v.error) else Prepend([v.value], f) }

  /** A scan that may emit k more packets and searches s from offset i. */
  function FeedFrom(c: Format, s: bytes, i: nat, k: nat): Fed
    decreases |s|, k
  {
    if k == 0 then Fed([], s)
    else
      match Next(c, s, i)
      case Nothing => Fed([], s)
      case Partial(at) => Fed([], s[at..])
      case Whole(at, end) => Then(c.decode(s[at..end]), FeedFrom(c, s[end..], 0, k - 1))
  }

  function Feed(c: Format, s: bytes, k: nat): Fed { FeedFrom(c, s, 0, k) }

  // --- the decoder object ---

  lemma {:induction false} NextPastEnd(c: Format, s: bytes, i: nat)
    requires i + HEADER_SIZE > |s|
    ensures Next(c, s, i) == Nothing
  {
  }

  lemma {:induction false} NextSkips(c: Format, s: bytes, i: nat, j: nat)
    requires i <= j && forall m :: i <= m < j ==> !HeaderAt(c, s, m)
    ensures Next(c, s, i) == Next(c, s, j)
    decreases j - i
  {
    if i < j {
      assert !HeaderAt(c, s, i);
      if i + HEADER_SIZE <= |s| {
        NextSkips(c, s, i + 1, j);
      } else {
        NextPastEnd(c, s, i);
        NextPastEnd(c, s, j);
      }
    }
  }

  predicate MagicAt(s: bytes, i: nat) { i + 4 <= |s| && s[i..i + 4] == MAGIC }

  lemma {:induction false} HeaderNeedsMagic(c: Format, s: bytes, i: nat)
    requires Searchable(c) && HeaderAt(c, s, i)
    ensures MagicAt(s, i)
  {
  }

  /** `buf.find(b"AICL", scan)`, with the length of the buffer for "not found". */
  method Find(s: bytes, scan: nat) returns (idx: nat)
    requires scan <= |s|
    ensures scan <= idx <= |s|
    ensures idx < |s| ==> MagicAt(s, idx)
    ensures forall m :: scan <= m < idx ==> !MagicAt(s, m)
  {
    idx := scan;
    while idx < |s|
      invariant scan <= idx <= |s|
      invariant forall m :: scan <= m < idx ==> !MagicAt(s, m)
    {
      if idx + 4 <= |s| && s[idx..idx + 4] == MAGIC {
        return;
      }
      idx := idx + 1;
    }
  }

  lemma {:induction false} ShiftHeader(c: Format, buf: bytes, last: nat, i: nat)
    requires last <= |buf|
    ensures HeaderAt(c, buf[last..], i) == HeaderAt(c, buf, last + i)
    ensures last + i + HEADER_SIZE <= |buf| ==> FrameEnd(c, buf[last..], i) + last == FrameEnd(c, buf, last + i)
  {
    if last + i + HEADER_SIZE <= |buf| {
      assert buf[last..][i..i + HEADER_SIZE] == buf[last + i..last + i + HEADER_SIZE];
    }
  }

  /** The same scan in terms of the whole buffer: `last` ends the last packet
      taken out, and the search goes on at `scan`. */
  function Left(c: Format, buf: bytes, last: nat, scan: nat, k: nat): Fed
    requires last <= |buf|
    decreases k
  {
    if k == 0 then Fed([], buf[last..])
    else
      match Next(c, buf, scan)
      case Nothing => Fed([], buf[last..])
      case Partial(at) => Fed([], buf[at..])
      case Whole(at, end) => Then(c.decode(buf[at..end]), Left(c, buf, end, end, k - 1))
  }

  /** A search result in a suffix, counted from the start of the whole. */
  function Shifted(f: Found, d: nat): Found {
    match f
    case Nothing => Nothing
    case Partial(at) => Partial(at + d)
    case Whole(at, end) => Whole(at + d, end + d)
  }

  lemma {:induction false} NextShifts(c: Format, buf: bytes, last: nat, i: nat)
    requires last <= |buf|
    ensures Next(c, buf, last + i) == Shifted(Next(c, buf[last..], i), last)
    decreases |buf| - last - i
  {
    if last + i + HEADER_SIZE <= |buf| {
      ShiftHeader(c, buf, last, i);
      if !HeaderAt(c, buf, last + i) {
        NextShifts(c, buf, last, i + 1);
        assert last + (i + 1) == last + i + 1;
      }
    }
  }

  lemma {:induction false} LeftIsFeed(c: Format, buf: bytes, s: bytes, last: nat, scan: nat, i: nat, k: nat)
    requires last <= |buf| && s == buf[last..] && scan == last + i
    ensures Left(c, buf, last, scan, k) == FeedFrom(c, s, i, k)
    decreases k, 1
  {
    if k > 0 {
      NextShifts(c, buf, last, i);
      var f := Next(c, s, i);
      if f.Partial? {
        assert s[f.at..] == buf[f.at + last..];
      } else if f.Whole? {
        SuffixSlices(buf, last, f.at, f.end);
        WholeAgrees(c, s, i, k, f.at, f.end, buf, last, scan, f.at + last, f.end + last);
      }
    }
  }

  lemma {:induction false} WholeAgrees(
    c: Format, s: bytes, i: nat, k: nat, at: nat, end: nat, buf: bytes, last: nat, scan: nat, at': nat, end': nat)
    requires k > 0 && Next(c, s, i) == Whole(at, end)
    requires last <= |buf| && Next(c, buf, scan) == Whole(at', end')
    requires s[at..end] == buf[at'..end'] && s[end..] == buf[end'..]
    ensures Left(c, buf, last, scan, k) == FeedFrom(c, s, i, k)
    decreases k, 0
  {
    LeftIsFeed(c, buf, s[end..], end', end', 0, k - 1);
  }

  lemma {:induction false} SuffixSlices(buf: bytes, last: nat, at: nat, end: nat)
    requires at <= end && last + end <= |buf|
    ensures buf[last..][at..end] == buf[at + last..end + last] && buf[last..][end..] == buf[end + last..]
  {
  }

  lemma {:induction false} FeedWhole(c: Format, s: bytes, i: nat, k: nat, at: nat, end: nat)
    requires k > 0 && Next(c, s, i) == Whole(at, end)
    ensures FeedFrom(c, s, i, k) == Then(c.decode(s[at..end]), FeedFrom(c, s[end..], 0, k - 1))
  {
  }

  /** What a scan that has collected these results will give in the end. */
  function Outcome(c: Format, buf: bytes, results: seq<View>, last: nat, scan: nat, k: nat): Fed
    requires last <= |buf|
  {
    Prepend(results, Left(c, buf, last, scan, k))
  }

  lemma {:induction false} StartsAsFeed(c: Format, buf: bytes, k: nat)
    ensures Outcome(c, buf, [], 0, 0, k) == Feed(c, buf, k)
  {
    assert buf[0..] == buf;
    LeftIsFeed(c, buf, buf, 0, 0, 0, k);
    PrependNothing(Left(c, buf, 0, 0, k));
  }

  lemma {:induction false} SameNext(c: Format, buf: bytes, last: nat, i: nat, j: nat, k: nat)
    requires last <= |buf| && Next(c, buf, i) == Next(c, buf, j)
    ensures Left(c, buf, last, i, k) == Left(c, buf, last, j, k)
  {
  }

  /** No magic, no header: the search goes on at the next magic. */
  lemma {:induction false} SkipTo(c: Format, buf: bytes, results: seq<View>, last: nat, scan: nat, idx: nat, k: nat)
    requires Searchable(c) && last <= |buf|
    requires scan <= idx && forall m :: scan <= m < idx ==> !MagicAt(buf, m)
    ensures Outcome(c, buf, results, last, scan, k) == Outcome(c, buf, results, last, idx, k)
  {
    forall m | scan <= m < idx
      ensures !HeaderAt(c, buf, m)
    {
      if HeaderAt(c, buf, m) { HeaderNeedsMagic(c, buf, m); }
    }
    NextSkips(c, buf, scan, idx);
    SameNext(c, buf, last, scan, idx, k);
  }

  lemma {:induction false} SkipOne(c: Format, buf: bytes, results: seq<View>, last: nat, scan: nat, k: nat)
    requires last <= |buf| && !HeaderAt(c, buf, scan)
    ensures Outcome(c, buf, results, last, scan, k) == Outcome(c, buf, results, last, scan + 1, k)
  {
    NextSkips(c, buf, scan, scan + 1);
    SameNext(c, buf, last, scan, scan + 1, k);
  }

  lemma {:induction false} Stops(c: Format, buf: bytes, results: seq<View>, last: nat, scan: nat, k: nat)
    requires last <= |buf| && (k == 0 || scan + HEADER_SIZE > |buf|)
    ensures Outcome(c, buf, results, last, scan, k) == Fed(results, buf[last..])
  {
    if k > 0 { NextPastEnd(c, buf, scan); }
    PrependEnds(results, buf[last..]);
  }

  lemma {:induction false} Waits(c: Format, buf: bytes, results: seq<View>, last: nat, scan: nat, k: nat)
    requires last <= |buf| && k > 0 && HeaderAt(c, buf, scan) && FrameEnd(c, buf, scan) > |buf|
    ensures Outcome(c, buf, results, last, scan, k) == Fed(results, buf[scan..])
  {
    PrependEnds(results, buf[scan..]);
  }

  lemma {:induction false} Emits(c: Format, buf: bytes, results: seq<View>, last: nat, scan: nat, k: nat, end: nat)
    requires last <= |buf| && k > 0 && HeaderAt(c, buf, scan) && FrameEnd(c, buf, scan) == end <= |buf|
    ensures var v := c.decode(buf[scan..end]);
      && (v.Ok? || v.Err?)
      && (v.Err? ==> Outcome(c, buf, results, last, scan, k) == Raised(v.error))
      && (v.Ok? ==>
            Outcome(c, buf, results, last, scan, k) == Outcome(c, buf, results + [v.value], end, end, k - 1))
  {
    var v := c.decode(buf[scan..end]);
    assert Next(c, buf, scan) == Whole(scan, end);
    if v.Ok? { PrependTwice(results, v.value, Left(c, buf, end, end, k - 1)); }
  }

  lemma {:induction false} PrependTwice(vs: seq<View>, v: View, f: Fed)
    ensures Prepend(vs, Prepend([v], f)) == Prepend(vs + [v], f)
  {
  }

  lemma {:induction false} PrependNothing(f: Fed)
    ensures Prepend([], f) == f
  {
  }

  lemma {:induction false} PrependEnds(results: seq<View>, rest: bytes)
    ensures Prepend(results, Fed([], rest)) == Fed(results, rest)
  {
  }

  predicate Is(j: nat, k: nat) { j == k }

  /** The goal is the outcome of the scan from here. The trigger keeps the scan
      folded in the loop. */
  ghost predicate Heading(c: Format, goal: Fed, buf: bytes, results: seq<View>, last: nat, scan: nat, k: nat) {
    && last <= scan <= |buf|
    && forall j: nat {:trigger Outcome(c, buf, results, last, scan, j)} :: Is(j, k) ==> goal == Outcome(c, buf, results, last, scan, j)
  }

  lemma {:induction false} Starts(c: Format, buf: bytes, k: nat) returns (goal: Fed)
    ensures goal == Feed(c, buf, k) && Heading(c, goal, buf, [], 0, 0, k)
  {
    StartsAsFeed(c, buf, k);
    goal := Outcome(c, buf, [], 0, 0, k);
  }

  lemma {:induction false} HeadsOn(c: Format, goal: Fed, buf: bytes, results: seq<View>, last: nat, scan: nat, idx: nat, k: nat)
    requires Searchable(c) && Heading(c, goal, buf, results, last, scan, k)
    requires scan <= idx <= |buf| && forall m :: scan <= m < idx ==> !MagicAt(buf, m)
    ensures Heading(c, goal, buf, results, last, idx, k)
  {
    assert Is(k, k) && goal == Outcome(c, buf, results, last, scan, k);
    SkipTo(c, buf, results, last, scan, idx, k);
  }

  lemma {:induction false} HeadsPast(c: Format, goal: Fed, buf: bytes, results: seq<View>, last: nat, scan: nat, k: nat)
    requires scan < |buf| && !HeaderAt(c, buf, scan) && Heading(c, goal, buf, results, last, scan, k)
    ensures Heading(c, goal, buf, results, last, scan + 1, k)
  {
    assert Is(k, k) && goal == Outcome(c, buf, results, last, scan, k);
    SkipOne(c, buf, results, last, scan, k);
  }

  lemma {:induction false} HeadsOut(c: Format, goal: Fed, buf: bytes, results: seq<View>, last: nat, scan: nat, k: nat)
    requires Heading(c, goal, buf, results, last, scan, k) && (k == 0 || scan + HEADER_SIZE > |buf|)
    ensures goal == Fed(results, buf[last..])
  {
    assert Is(k, k) && goal == Outcome(c, buf, results, last, scan, k);
    Stops(c, buf, results, last, scan, k);
  }

  lemma {:induction false} HeadsUp(c: Format, goal: Fed, buf: bytes, results: seq<View>, last: nat, scan: nat, k: nat)
    requires Heading(c, goal, buf, results, last, scan, k)
    requires k > 0 && HeaderAt(c, buf, scan) && FrameEnd(c, buf, scan) > |buf|
    ensures goal == Fed(results, buf[scan..])
  {
    assert Is(k, k) && goal == Outcome(c, buf, results, last, scan, k);
    Waits(c, buf, results, last, scan, k);
  }

  lemma {:induction false} HeadsThrough(
    c: Format, goal: Fed, buf: bytes, results: seq<View>, last: nat, scan: nat, k: nat, end: nat, v: Py<View>)
    requires Heading(c, goal, buf, results, last, scan, k)
    requires k > 0 && HeaderAt(c, buf, scan) && FrameEnd(c, buf, scan) == end <= |buf| && v == c.decode(buf[scan..end])
    ensures v.Ok? || v.Err?
    ensures v.Err? ==> goal == Raised(v.error)
    ensures v.Ok? ==> Heading(c, goal, buf, results + [v.value], end, end, k - 1)
  {
    assert Is(k, k) && goal == Outcome(c, buf, results, last, scan, k);
    Emits(c, buf, results, last, scan, k, end);
  }

  /** The loop of `feed`: the packets it collects and the buffer it trims to. */
  method Scan(c: Format, buf: bytes, max: nat) returns (f: Fed)
    requires Searchable(c)
    ensures f == Feed(c, buf, max)
  {
    ghost var goal := Starts(c, buf, max);
    f := ScanFor(c, buf, max, goal);
  }

  method ScanFor(c: Format, buf: bytes, max: nat, ghost goal: Fed) returns (f: Fed)
    requires Searchable(c) && Heading(c, goal, buf, [], 0, 0, max)
    ensures f == goal
  {
    var n := |buf|;
    var results: seq<View> := [];
    var scan: nat, last: nat := 0, 0;
    ghost var k: nat := max;
    while scan + HEADER_SIZE <= n && |results| < max
      invariant k == max - |results| && Heading(c, goal, buf, results, last, scan, k)
      decreases n - scan
    {
      var idx := Find(buf, scan);
      HeadsOn(c, goal, buf, results, last, scan, idx, k);
      if idx + HEADER_SIZE > n {
        HeadsOut(c, goal, buf, results, last, idx, k);
        return Fed(results, buf[last..]);
      }
      scan := idx;
      if !c.valid(buf[scan..scan + HEADER_SIZE]) {
        HeadsPast(c, goal, buf, results, last, scan, k);
        scan := scan + 1;
        continue;
      }
      var end := FrameEnd(c, buf, scan);
      if n < end {
        HeadsUp(c, goal, buf, results, last, scan, k);
        return Fed(results, buf[scan..]);
      }
      var v := c.decode(buf[scan..end]);
      HeadsThrough(c, goal, buf, results, last, scan, k, end, v);
      if v.Err? {
        return Raised(v.error);
      }
      results, scan, last, k := results + [v.value], end, end, k - 1;
    }
    HeadsOut(c, goal, buf, results, last, scan, k);
    f := Fed(results, buf[last..]);
  }

  class StreamingDecoder {
    var buf: bytes
    const maxPerFeed: nat

    constructor (maxPerFeed: nat)
      ensures buf == [] && this.maxPerFeed == maxPerFeed
    {
      buf := [];
      this.maxPerFeed := maxPerFeed;
    }

    /** `feed`. An exception from `decode` leaves the extended buffer as it is. */
    method FeedBytes(data: bytes) returns (r: Py<seq<View>>)
      modifies this
      ensures var f := Feed(AICL, old(buf) + data, maxPerFeed);
        match f
        case Fed(packets, rest) => r == Ok(packets) && buf == rest
        case Raised(e) => r == Err(e) && buf == old(buf) + data
    {
      buf := buf + data;
      AiclSearchable();
      var f := Scan(AICL, buf, maxPerFeed);
      if f.Raised? {
        return Err(f.error);
      }
      buf := f.rest;
      return Ok(f.packets);
    }

    /** `pending`. */
    method Pending() returns (n: nat)
      ensures n == |buf|
    {
      n := |buf|;
    }
  }
}
