/** One end of the shared-memory ring as an object, and the link between its
    calls and the single-byte steps of the protocol. */
module SharedMemoryRing {
  import opened Wire
  import opened SharedRing

  datatype RingError = ValueError | RingFull | RingEmpty | StructError

  function Splice(mem: bytes, at: nat, b: bytes): bytes {
    if at + |b| <= |mem| then mem[..at] + b + mem[at + |b|..] else mem
  }

  /** The memory after message d was published in the slot of index w. */
  function PushedMem(g: Ring, mem: bytes, w: nat, d: bytes): bytes
    requires Sane(g)
  {
    Splice(mem, Off(g, w), [1] + Image(d))
  }

  /** The message in the slot at `off`; a slice ends with the memory. */
  function MessageAt(mem: bytes, off: nat): bytes
    requires off + SLOT_DATA <= |mem|
  {
    var end := off + SLOT_DATA + FromBE(mem[off + 1..off + SLOT_DATA]);
    mem[off + SLOT_DATA..if end < |mem| then end else |mem|]
  }

  /** A message in memory: behind the 20 bytes of the ring header, in the slot of its
      index, a used byte of 1, four bytes of length, and the data; nothing else
      changes. */
  lemma {:induction false} PushLayout(g: Ring, mem: bytes, w: nat, d: bytes)
    requires Sane(g) && |mem| == 20 + g.capacity * g.slotSize && |d| + 5 <= g.slotSize && |d| < 0x1_0000_0000
    ensures var m, off := PushedMem(g, mem, w, d), 20 + (w % g.capacity) * g.slotSize;
      && |m| == |mem| && off + 5 + |d| <= |m| && m[off] == 1
      && FromBE(m[off + 1..off + 5]) == |d| && m[off + 5..off + 5 + |d|] == d
      && m[..off] == mem[..off] && m[off + 5 + |d|..] == mem[off + 5 + |d|..]
  {
    Pow256Values();
    var off := Off(g, w);
    assert off + g.slotSize <= |mem|;
    SplicedParts(mem, off, Pack(4, |d|), d);
    assert [1] + Image(d) == [1] + (Pack(4, |d|) + d);
  }

  lemma {:induction false} SplicedParts(mem: bytes, off: nat, length: bytes, d: bytes)
    requires |length| == 4 && off + 5 + |d| <= |mem|
    ensures var m := Splice(mem, off, [1] + (length + d));
      && |m| == |mem| && m[off] == 1 && m[off + 1..off + 5] == length && m[off + 5..off + 5 + |d|] == d
      && m[..off] == mem[..off] && m[off + 5 + |d|..] == mem[off + 5 + |d|..]
  {
  }

  /** How `push_nowait` ends, given the used byte it finds. */
  function PushResult(g: Ring, used: byte, d: bytes): Result<(), RingError> {
    if !Fits(g, d) then Err(ValueError)
    else if used == 1 then Err(RingFull)
    else if !InRange(4, |d|) then Err(StructError)
    else Ok(())
  }

  /** A message that is too long is refused first, then any message while the slot
      is in use, then a length that four bytes cannot carry. */
  lemma {:induction false} PushResultExactly(g: Ring, used: byte, d: bytes)
    ensures var r := PushResult(g, used, d);
      && (r == Err(ValueError) <==> |d| + 5 > g.slotSize)
      && (r == Err(RingFull) <==> |d| + 5 <= g.slotSize && used == 1)
      && (r == Err(StructError) <==> |d| + 5 <= g.slotSize && used != 1 && |d| >= 0x1_0000_0000)
      && (r.Ok? <==> |d| + 5 <= g.slotSize && used != 1 && |d| < 0x1_0000_0000)
  {
    Pow256Values();
  }

  method WriteHeader(buf: array<byte>, header: bytes)
    requires |header| == RING_HEADER <= buf.Length
    modifies buf
    ensures buf[..RING_HEADER] == header
  {
    forall i | 0 <= i < RING_HEADER {
      buf[i] := header[i];
    }
  }

  /** The loop of `create` over the used bytes. */
  method MarkFree(buf: array<byte>, g: Ring)
    requires Sane(g) && buf.Length == Total(g)
    modifies buf
    ensures buf[..RING_HEADER] == old(buf[..RING_HEADER])
    ensures MarkedBelow(g, buf[..], g.capacity)
  {
    for i := 0 to g.capacity
      invariant buf[..RING_HEADER] == old(buf[..RING_HEADER])
      invariant MarkedBelow(g, buf[..], i)
    {
      ghost var was := buf[..];
      MarkNext(g, was, i);
      var off := Off(g, i);
      buf[off] := 0;
      assert buf[..] == was[off := 0];
      assert buf[..RING_HEADER] == was[..RING_HEADER];
    }
  }

  class SharedMemoryRing {
    const buf: array<byte>
    const capacity: nat
    const slotSize: nat
    var writeIdx: nat
    var readIdx: nat

    function Shape(): Ring { Ring(capacity, slotSize) }

    predicate Valid() { Sane(Shape()) && buf.Length == Total(Shape()) }

    /** `create`, on a segment of the right size and any content: the header is
        written and every slot is marked free. */
    constructor (buf: array<byte>, capacity: nat, slotSize: nat)
      requires capacity > 0 && slotSize > 0 && buf.Length == Total(Ring(capacity, slotSize))
      requires InRange(8, capacity) && InRange(8, slotSize)
      modifies buf
      ensures this.buf == buf && Shape() == Ring(capacity, slotSize) && Valid()
      ensures buf.Length == 20 + capacity * slotSize && buf[..4] == [0x53, 0x48, 0x4D, 0x52]
      ensures FromBE(buf[4..12]) == capacity && FromBE(buf[12..20]) == slotSize
      ensures Created(Shape(), State(buf[..], writeIdx, readIdx, Idle, Waiting, [], []))
    {
      this.buf, this.capacity, this.slotSize := buf, capacity, slotSize;
      writeIdx, readIdx := 0, 0;
      new;
      var g := Ring(capacity, slotSize);
      ghost var header := RING_MAGIC + Pack(8, capacity) + Pack(8, slotSize);
      WriteHeader(buf, RING_MAGIC + Pack(8, capacity) + Pack(8, slotSize));
      MarkFree(buf, g);
      assert buf[..4] == header[..4] && buf[4..12] == header[4..12] && buf[12..20] == header[12..20];
    }

    method PushNowait(data: bytes) returns (r: Result<(), RingError>)
      requires Valid()
      modifies this`writeIdx, buf
      ensures r == PushResult(Shape(), old(buf[Off(Shape(), writeIdx)]), data)
      ensures r.Ok? ==>
                buf[..] == PushedMem(Shape(), old(buf[..]), old(writeIdx), data) && writeIdx == old(writeIdx) + 1
      ensures r.Err? ==> buf[..] == old(buf[..]) && writeIdx == old(writeIdx)
    {
      if |data| > slotSize - SLOT_DATA {
        return Err(ValueError);
      }
      var off := Off(Shape(), writeIdx);
      if buf[off] == 1 {
        return Err(RingFull);
      }
      if !InRange(4, |data|) {
        return Err(StructError);
      }
      var image := Image(data);
      forall i | 0 <= i < |image| {
        buf[off + 1 + i] := image[i];
      }
      buf[off] := 1;
      writeIdx := writeIdx + 1;
      assert buf[..] == PushedMem(Shape(), old(buf[..]), old(writeIdx), data);
      return Ok(());
    }

    method PopNowait() returns (r: Result<bytes, RingError>)
      requires Valid()
      modifies this`readIdx, buf
      ensures var mem, off := old(buf[..]), Off(Shape(), old(readIdx));
        if mem[off] == 0 then r == Err(RingEmpty)
        else if off + SLOT_DATA > |mem| then r == Err(StructError)
        else r == Ok(MessageAt(mem, off)) && buf[..] == mem[off := 0] && readIdx == old(readIdx) + 1
      ensures r.Err? ==> buf[..] == old(buf[..]) && readIdx == old(readIdx)
    {
      var off := Off(Shape(), readIdx);
      if buf[off] == 0 {
        return Err(RingEmpty);
      }
      if off + SLOT_DATA > buf.Length {
        return Err(StructError);
      }
      var length := FromBE(buf[off + 1..off + SLOT_DATA]);
      var end := off + SLOT_DATA + length;
      var data := buf[off + SLOT_DATA..if end < buf.Length then end else buf.Length];
      assert buf[..][off + 1..off + SLOT_DATA] == buf[off + 1..off + SLOT_DATA];
      assert data == MessageAt(buf[..], off);
      buf[off] := 0;
      readIdx := readIdx + 1;
      return Ok(data);
    }
  }

  /** The first n slots are marked free. */
  ghost predicate MarkedBelow(g: Ring, mem: bytes, n: nat)
    requires Sane(g) && |mem| == Total(g)
  {
    forall i: nat :: i < n ==> Slot(g, mem, i)[0] == 0
  }

  lemma {:induction false} MarkNext(g: Ring, mem: bytes, n: nat)
    requires Sane(g) && |mem| == Total(g) && n < g.capacity && MarkedBelow(g, mem, n)
    ensures MarkedBelow(g, mem[Off(g, n) := 0], n + 1)
  {
    var mem' := mem[Off(g, n) + 0 := 0];
    WriteOwn(g, mem, n, 0, 0);
    forall i: nat | i < n
      ensures Slot(g, mem', i)[0] == 0
    {
      assert Slot(g, mem, i)[0] == 0;
      WriteOther(g, mem, n, 0, 0, i);
    }
  }

  // --- a call alone is a run of steps ---

  function Repeat(a: Action, n: nat): seq<Action> { seq(n, _ => a) }

  lemma {:induction false} RunOne(g: Ring, s: State, a: Action, n: nat)
    requires Sane(g) && n > 0
    ensures Run(g, s, Repeat(a, n)) == Run(g, Step(g, s, a), Repeat(a, n - 1))
  {
    assert Repeat(a, n)[0] == a && Repeat(a, n)[1..] == Repeat(a, n - 1);
  }

  lemma {:induction false} RunFirst(g: Ring, s: State, a: Action, acts: seq<Action>)
    requires Sane(g)
    ensures Run(g, s, [a] + acts) == Run(g, Step(g, s, a), acts)
  {
  }

  lemma {:induction false} SpliceStep(mem: bytes, at: nat, b: bytes, j: nat)
    requires at + |b| <= |mem| && j < |b|
    ensures Splice(mem[at + j := b[j]], at + (j + 1), b[j + 1..]) == Splice(mem, at + j, b[j..])
  {
  }

  /** The state once the image of d is written from byte j on, and published. */
  function Filled(g: Ring, s: State, d: bytes, j: nat): State
    requires Sane(g) && |s.mem| == Total(g) && j <= |Image(d)|
  {
    s.(mem := Splice(s.mem, Off(g, s.w) + 1 + j, Image(d)[j..])[Off(g, s.w) := 1],
       w := s.w + 1, producer := Idle, pushed := s.pushed + [d])
  }

  lemma {:induction false} FillTurn(g: Ring, s: State, d: bytes, j: nat)
    requires Sane(g) && |s.mem| == Total(g) && s.producer == Fill(d, j) && j < |Image(d)| == 4 + |d| && Fits(g, d)
    ensures var s' := Step(g, s, Produce);
      |s'.mem| == Total(g) && s'.producer == Fill(d, j + 1) && Filled(g, s', d, j + 1) == Filled(g, s, d, j)
  {
    FillsByte(g, s, d, j);
    FilledSame(g, s, s.mem[Off(g, s.w) + 1 + j := Image(d)[j]], d, j);
  }

  lemma {:induction false} FillsByte(g: Ring, s: State, d: bytes, j: nat)
    requires Sane(g) && |s.mem| == Total(g) && s.producer == Fill(d, j) && j < |Image(d)| == 4 + |d| && Fits(g, d)
    ensures Off(g, s.w) + 1 + j < |s.mem|
    ensures Step(g, s, Produce) == s.(mem := s.mem[Off(g, s.w) + 1 + j := Image(d)[j]], producer := Fill(d, j + 1))
  {
  }

  lemma {:induction false} FilledSame(g: Ring, s: State, mem: bytes, d: bytes, j: nat)
    requires Sane(g) && |s.mem| == Total(g) && j < |Image(d)| && Off(g, s.w) + 1 + |Image(d)| <= |s.mem|
    requires mem == s.mem[Off(g, s.w) + 1 + j := Image(d)[j]]
    ensures Filled(g, s.(mem := mem, producer := Fill(d, j + 1)), d, j + 1) == Filled(g, s, d, j)
  {
    SpliceStep(s.mem, Off(g, s.w) + 1, Image(d), j);
  }

  lemma {:induction false} FillRun(g: Ring, s: State, d: bytes, j: nat, n: nat)
    requires Sane(g) && |s.mem| == Total(g) && s.producer == Fill(d, j) && j <= |Image(d)| == 4 + |d|
    requires Fits(g, d) && n == |Image(d)| - j + 2
    ensures Run(g, s, Repeat(Produce, n)) == Filled(g, s, d, j)
    decreases n
  {
    RunOne(g, s, Produce, n);
    if j < |Image(d)| {
      FillTurn(g, s, d, j);
      FillRun(g, Step(g, s, Produce), d, j + 1, n - 1);
    } else {
      LastSteps(g, s, d);
      RunOne(g, Step(g, s, Produce), Produce, 1);
      SpliceNothing(s.mem, Off(g, s.w) + 1 + j, Image(d)[j..]);
    }
  }

  lemma {:induction false} SpliceNothing(mem: bytes, at: nat, b: bytes)
    requires b == []
    ensures Splice(mem, at, b) == mem
  {
  }

  lemma {:induction false} LastSteps(g: Ring, s: State, d: bytes)
    requires Sane(g) && |s.mem| == Total(g) && s.producer == Fill(d, |Image(d)|)
    ensures Step(g, Step(g, s, Produce), Produce)
         == s.(mem := s.mem[Off(g, s.w) := 1], w := s.w + 1, producer := Idle, pushed := s.pushed + [d])
  {
  }

  /** A push that the other side does not interrupt takes |d| + 8 steps and does
      to the memory what `push_nowait` does. */
  lemma {:induction false} SoloPush(g: Ring, s: State, d: bytes)
    requires Sane(g) && |s.mem| == Total(g) && s.producer.Idle?
    requires PushResult(g, s.mem[Off(g, s.w)], d).Ok?
    ensures Run(g, s, [Push(d)] + Repeat(Produce, |d| + 7))
         == s.(mem := PushedMem(g, s.mem, s.w, d), w := s.w + 1, pushed := s.pushed + [d])
  {
    var off, image := Off(g, s.w), Image(d);
    var s1 := s.(producer := Test(d));
    var s2 := s.(producer := Fill(d, 0));
    RunFirst(g, s, Push(d), Repeat(Produce, |d| + 7));
    RunOne(g, s1, Produce, |d| + 7);
    assert Step(g, s1, Produce) == s2;
    FillRun(g, s2, d, 0, |d| + 6);
    assert image[0..] == image && off + 1 + 0 == off + 1;
    SpliceUsed(s.mem, off, image);
  }

  lemma {:induction false} SpliceUsed(mem: bytes, off: nat, image: bytes)
    requires off + 1 + |image| <= |mem|
    ensures Splice(mem, off + 1, image)[off := 1] == Splice(mem, off, [1] + image)
  {
  }

  function Taken(g: Ring, s: State, d: bytes): State
    requires Sane(g) && |s.mem| == Total(g)
  {
    s.(mem := s.mem[Off(g, s.r) := 0], r := s.r + 1, consumer := Waiting, popped := s.popped + [d])
  }

  /** The bytes from the length on that a copy has to collect. */
  predicate Collecting(mem: bytes, off: nat, got: bytes, d: bytes) {
    && off + SLOT_DATA <= |mem| && d == MessageAt(mem, off)
    && |got| <= 4 + |d| && got == mem[off + 1..off + 1 + |got|]
  }

  lemma {:induction false} CopyOnce(g: Ring, s: State, got: bytes, d: bytes)
    requires Sane(g) && |s.mem| == Total(g) && s.consumer == Copy(got) && Collecting(s.mem, Off(g, s.r), got, d)
    ensures |got| < 4 + |d| ==>
              var got' := got + [s.mem[Off(g, s.r) + 1 + |got|]];
              Collecting(s.mem, Off(g, s.r), got', d) && Step(g, s, Consume) == s.(consumer := Copy(got'))
    ensures |got| == 4 + |d| ==> Step(g, Step(g, s, Consume), Consume) == Taken(g, s, d)
  {
    CopyTurn(s.mem, Off(g, s.r), got, d);
  }

  lemma {:induction false} CopyRun(g: Ring, s: State, got: bytes, d: bytes, n: nat)
    requires Sane(g) && |s.mem| == Total(g) && s.consumer == Copy(got) && Collecting(s.mem, Off(g, s.r), got, d)
    requires n == 4 + |d| - |got| + 2
    ensures Run(g, s, Repeat(Consume, n)) == Taken(g, s, d)
    decreases n
  {
    CopyOnce(g, s, got, d);
    RunOne(g, s, Consume, n);
    if |got| < 4 + |d| {
      var got' := got + [s.mem[Off(g, s.r) + 1 + |got|]];
      CopyRun(g, s.(consumer := Copy(got')), got', d, n - 1);
    } else {
      RunOne(g, Step(g, s, Consume), Consume, 1);
    }
  }

  lemma {:induction false} CopyTurn(mem: bytes, off: nat, got: bytes, d: bytes)
    requires Collecting(mem, off, got, d)
    ensures Copied(mem, off, got) <==> |got| == 4 + |d|
    ensures |got| == 4 + |d| ==> got[4..] == d
  {
    if |got| >= 4 {
      assert got[..4] == mem[off + 1..off + SLOT_DATA];
    }
  }

  /** The same for a pop of message d, in |d| + 8 steps. */
  lemma {:induction false} SoloPop(g: Ring, s: State)
    requires Sane(g) && |s.mem| == Total(g) && s.consumer.Waiting?
    requires s.mem[Off(g, s.r)] != 0 && Off(g, s.r) + SLOT_DATA <= |s.mem|
    ensures var d := MessageAt(s.mem, Off(g, s.r));
      Run(g, s, [Pop] + Repeat(Consume, |d| + 7))
      == s.(mem := s.mem[Off(g, s.r) := 0], r := s.r + 1, popped := s.popped + [d])
  {
    var d := MessageAt(s.mem, Off(g, s.r));
    var s1 := s.(consumer := Look);
    RunFirst(g, s, Pop, Repeat(Consume, |d| + 7));
    RunOne(g, s1, Consume, |d| + 7);
    assert Step(g, s1, Consume) == s.(consumer := Copy([]));
    CopyRun(g, s.(consumer := Copy([])), [], d, |d| + 6);
  }

  /** From every reachable state, a call of a side that is between calls ends on
      its own within |d| + 8 steps, whatever the other side is doing: a push
      succeeds unless `capacity` messages are in flight, and a pop then returns
      the oldest message in flight. */
  lemma {:induction false} CallsComplete(g: Ring, s: State, d: bytes)
    requires Inv(g, s)
    ensures s.producer.Idle? && Fits(g, d) && InRange(4, |d|) && |s.pushed| < |s.popped| + g.capacity ==>
              Run(g, s, [Push(d)] + Repeat(Produce, |d| + 7)).pushed == s.pushed + [d]
    ensures s.consumer.Waiting? && |s.popped| < |s.pushed| ==>
              Run(g, s, [Pop] + Repeat(Consume, |s.pushed[|s.popped|]| + 7)).popped == s.popped + [s.pushed[|s.popped|]]
  {
    FreeExactly(g, s);
    if s.producer.Idle? && Fits(g, d) && InRange(4, |d|) && |s.pushed| < |s.popped| + g.capacity {
      SoloPush(g, s, d);
    }
    if s.consumer.Waiting? && |s.popped| < |s.pushed| {
      OldestMessage(g, s);
      SoloPop(g, s);
    }
  }

  lemma {:induction false} OldestMessage(g: Ring, s: State)
    requires Inv(g, s) && |s.popped| < |s.pushed|
    ensures var off := Off(g, |s.popped|);
      off + SLOT_DATA <= |s.mem| && s.mem[off] == 1 && MessageAt(s.mem, off) == s.pushed[|s.popped|]
  {
    var q := |s.popped|;
    var d, off, slot := s.pushed[q], Off(g, q), Slot(g, s.mem, q);
    assert FullAt(g, s.mem, q, d);
    SubSlice(s.mem, off, off + g.slotSize, 1, 5 + |d|);
    MessageIs(s.mem, off, d);
  }

  lemma {:induction false} MessageIs(mem: bytes, off: nat, d: bytes)
    requires |Image(d)| == 4 + |d| && off + (5 + |d|) <= |mem| && mem[off + 1..off + (5 + |d|)] == Image(d)
    ensures MessageAt(mem, off) == d
  {
    assert mem[off + 1..off + SLOT_DATA] == Pack(4, |d|) by {
      SubSlice(mem, off + 1, off + (5 + |d|), 0, 4);
      assert Image(d)[0..4] == Pack(4, |d|);
    }
    assert mem[off + SLOT_DATA..off + SLOT_DATA + |d|] == d by {
      SubSlice(mem, off + 1, off + (5 + |d|), 4, 4 + |d|);
      assert Image(d)[4..4 + |d|] == d;
    }
  }

  lemma {:induction false} SubSlice(s: bytes, a: nat, b: nat, i: nat, j: nat)
    requires i <= j && a + j <= b <= |s|
    ensures s[a..b][i..j] == s[a + i..a + j]
  {
    forall k | 0 <= k < j - i
      ensures s[a..b][i..j][k] == s[a + i..a + j][k]
    {
      assert s[a..b][i + k] == s[a + i + k];
    }
  }
}
