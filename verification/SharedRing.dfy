/** The shared-memory ring as a protocol: one producer and one consumer take
    single-byte steps on the same memory, in any order. */
module SharedRing {
  import opened Wire
  import opened Modular

  const RING_HEADER: nat := 20
  const SLOT_DATA: nat := 5
  const RING_MAGIC: bytes := [0x53, 0x48, 0x4D, 0x52]

  datatype Ring = Ring(capacity: nat, slotSize: nat)

  predicate Sane(g: Ring) { g.capacity > 0 && g.slotSize > 0 }

  // --- layout ---

  function Total(g: Ring): nat { RING_HEADER + g.capacity * g.slotSize }

  /** `_slot_offset`. */
  function Off(g: Ring, k: nat): (off: nat)
    requires Sane(g)
    ensures RING_HEADER <= off && off + g.slotSize <= Total(g)
  {
    var i := k % g.capacity;
    assert i * g.slotSize + g.slotSize == (i + 1) * g.slotSize <= g.capacity * g.slotSize by {
      Monotone(i + 1, g.capacity, g.slotSize);
    }
    RING_HEADER + i * g.slotSize
  }

  lemma {:induction false} OffsApart(g: Ring, i: nat, j: nat)
    requires Sane(g) && i % g.capacity != j % g.capacity
    ensures Off(g, i) + g.slotSize <= Off(g, j) || Off(g, j) + g.slotSize <= Off(g, i)
  {
    var a, b := i % g.capacity, j % g.capacity;
    if a < b { Monotone(a + 1, b, g.slotSize); } else { Monotone(b + 1, a, g.slotSize); }
  }

  /** The bytes of the slot of message k. */
  function Slot(g: Ring, mem: bytes, k: nat): (s: bytes)
    requires Sane(g) && |mem| == Total(g)
    ensures |s| == g.slotSize
  {
    mem[Off(g, k)..Off(g, k) + g.slotSize]
  }

  lemma {:induction false} WriteOwn(g: Ring, mem: bytes, k: nat, j: nat, b: byte)
    requires Sane(g) && |mem| == Total(g) && j < g.slotSize
    ensures Slot(g, mem[Off(g, k) + j := b], k) == Slot(g, mem, k)[j := b]
  {
  }

  lemma {:induction false} WriteOther(g: Ring, mem: bytes, k: nat, j: nat, b: byte, i: nat)
    requires Sane(g) && |mem| == Total(g) && j < g.slotSize
    requires i < k < i + g.capacity || k < i < k + g.capacity
    ensures Slot(g, mem[Off(g, k) + j := b], i) == Slot(g, mem, i)
  {
    if i < k { ModApart(i, k, g.capacity); } else { ModApart(k, i, g.capacity); }
    OffsApart(g, i, k);
  }

  lemma {:induction false} SlotTurn(g: Ring, mem: bytes, k: nat)
    requires Sane(g) && |mem| == Total(g)
    ensures Slot(g, mem, k + g.capacity) == Slot(g, mem, k)
  {
    ModTurn(k, g.capacity);
  }

  // --- messages ---

  /** Length and data, as they follow the used byte. */
  function Image(d: bytes): bytes { Pack(4, |d|) + d }

  predicate Fits(g: Ring, d: bytes) { |d| + SLOT_DATA <= g.slotSize }

  predicate Holds(slot: bytes, d: bytes) {
    |Image(d)| == 4 + |d| < |slot| && slot[0] == 1 && slot[1..5 + |d|] == Image(d)
  }

  // --- the two processes ---

  datatype Producer = Idle | Test(data: bytes) | Fill(data: bytes, done: nat) | Bump

  datatype Consumer = Waiting | Look | Copy(got: bytes) | Advance

  /** Shared memory, the private cursor and program counter of each side, and
      the messages published and released so far. */
  datatype State = State(
    mem: bytes, w: nat, r: nat, producer: Producer, consumer: Consumer, pushed: seq<bytes>, popped: seq<bytes>)

  /** A call begins, or the side that is in a call takes its next step. */
  datatype Action = Push(data: bytes) | Produce | Pop | Consume

  function Peek(mem: bytes, i: nat): byte { if i < |mem| then mem[i] else 0 }

  function Poke(mem: bytes, i: nat, b: byte): bytes { if i < |mem| then mem[i := b] else mem }

  /** The copy is complete; a slice ends with the memory. */
  predicate Copied(mem: bytes, off: nat, got: bytes) {
    |got| >= 4 && (|got| - 4 == FromBE(got[..4]) || off + 1 + |got| >= |mem|)
  }

  function Produced(g: Ring, s: State): State
    requires Sane(g)
  {
    var off := Off(g, s.w);
    match s.producer
    case Idle => s
    case Test(d) =>
      if Peek(s.mem, off) == 1 || !InRange(4, |d|) then s.(producer := Idle) else s.(producer := Fill(d, 0))
    case Fill(d, j) =>
      if j < |Image(d)| then s.(mem := Poke(s.mem, off + 1 + j, Image(d)[j]), producer := Fill(d, j + 1))
      else s.(mem := Poke(s.mem, off, 1), producer := Bump, pushed := s.pushed + [d])
    case Bump => s.(w := s.w + 1, producer := Idle)
  }

  function Consumed(g: Ring, s: State): State
    requires Sane(g)
  {
    var off := Off(g, s.r);
    match s.consumer
    case Waiting => s
    case Look => if Peek(s.mem, off) == 0 then s.(consumer := Waiting) else s.(consumer := Copy([]))
    case Copy(got) =>
      if !Copied(s.mem, off, got) then s.(consumer := Copy(got + [Peek(s.mem, off + 1 + |got|)]))
      else s.(mem := Poke(s.mem, off, 0), consumer := Advance, popped := s.popped + [got[4..]])
    case Advance => s.(r := s.r + 1, consumer := Waiting)
  }

  function Step(g: Ring, s: State, a: Action): State
    requires Sane(g)
  {
    match a
    case Push(d) => if s.producer.Idle? && Fits(g, d) then s.(producer := Test(d)) else s
    case Produce => Produced(g, s)
    case Pop => if s.consumer.Waiting? then s.(consumer := Look) else s
    case Consume => Consumed(g, s)
  }

  function Run(g: Ring, s: State, acts: seq<Action>): State
    requires Sane(g)
    decreases |acts|
  {
    if acts == [] then s else Run(g, Step(g, s, acts[0]), acts[1..])
  }

  /** A freshly created ring: every used byte is zero, the rest is arbitrary. */
  ghost predicate Created(g: Ring, s: State) {
    && Sane(g) && |s.mem| == Total(g)
    && (forall i: nat :: i < g.capacity ==> Slot(g, s.mem, i)[0] == 0)
    && s.w == 0 && s.r == 0 && s.producer.Idle? && s.consumer.Waiting? && s.pushed == [] && s.popped == []
  }

  // --- the invariant ---

  predicate FullAt(g: Ring, mem: bytes, k: nat, d: bytes)
    requires Sane(g) && |mem| == Total(g)
  {
    Holds(Slot(g, mem, k), d)
  }

  predicate FreeAt(g: Ring, mem: bytes, k: nat)
    requires Sane(g) && |mem| == Total(g)
  {
    Slot(g, mem, k)[0] == 0
  }

  /** Slots hold the messages numbered q up to |pushed|; the others are free. */
  ghost predicate Slots(g: Ring, mem: bytes, pushed: seq<bytes>, q: nat) {
    && Sane(g) && |mem| == Total(g) && q <= |pushed| <= q + g.capacity
    && (forall k :: q <= k < |pushed| ==> FullAt(g, mem, k, pushed[k]))
    && (forall k :: |pushed| <= k < q + g.capacity ==> FreeAt(g, mem, k))
  }

  predicate Filling(g: Ring, mem: bytes, k: nat, d: bytes, j: nat)
    requires Sane(g) && |mem| == Total(g)
  {
    Fits(g, d) && InRange(4, |d|) && j <= 4 + |d| && Slot(g, mem, k)[1..1 + j] == Image(d)[..j]
  }

  predicate ProducerOk(g: Ring, s: State, q: nat)
    requires Sane(g) && |s.mem| == Total(g)
  {
    match s.producer
    case Idle => s.w == |s.pushed|
    case Test(d) => s.w == |s.pushed| && Fits(g, d)
    case Fill(d, j) => s.w == |s.pushed| < q + g.capacity && Filling(g, s.mem, s.w, d, j)
    case Bump => s.w + 1 == |s.pushed|
  }

  predicate ConsumerOk(s: State, q: nat) {
    match s.consumer
    case Waiting => s.r == q
    case Look => s.r == q
    case Copy(got) => s.r == q < |s.pushed| && got <= Image(s.pushed[q])
    case Advance => s.r + 1 == q
  }

  ghost predicate Inv(g: Ring, s: State) {
    var q := |s.popped|;
    Slots(g, s.mem, s.pushed, q) && s.popped <= s.pushed && ProducerOk(g, s, q) && ConsumerOk(s, q)
  }

  lemma {:induction false} CreatedInv(g: Ring, s: State)
    requires Created(g, s)
    ensures Inv(g, s)
  {
  }

  // --- writes keep the slots ---

  /** Filling a free slot behind its used byte. */
  lemma {:induction false} FillKeeps(g: Ring, mem: bytes, pushed: seq<bytes>, q: nat, j: nat, b: byte)
    requires Slots(g, mem, pushed, q) && |pushed| < q + g.capacity && 0 < j < g.slotSize
    ensures Slots(g, mem[Off(g, |pushed|) + j := b], pushed, q)
  {
    var p := |pushed|;
    var mem' := mem[Off(g, p) + j := b];
    WriteOwn(g, mem, p, j, b);
    forall k | q <= k < p
      ensures FullAt(g, mem', k, pushed[k])
    {
      assert FullAt(g, mem, k, pushed[k]);
      WriteOther(g, mem, p, j, b, k);
    }
    forall k | p <= k < q + g.capacity
      ensures FreeAt(g, mem', k)
    {
      assert FreeAt(g, mem, k);
      if k > p { WriteOther(g, mem, p, j, b, k); }
    }
  }

  lemma {:induction false} PublishKeeps(g: Ring, mem: bytes, pushed: seq<bytes>, q: nat, d: bytes)
    requires Slots(g, mem, pushed, q) && |pushed| < q + g.capacity && Filling(g, mem, |pushed|, d, 4 + |d|)
    ensures Slots(g, mem[Off(g, |pushed|) := 1], pushed + [d], q)
  {
    var p := |pushed|;
    var mem' := mem[Off(g, p) + 0 := 1];
    WriteOwn(g, mem, p, 0, 1);
    forall k | q <= k < p + 1
      ensures FullAt(g, mem', k, (pushed + [d])[k])
    {
      if k < p {
        assert FullAt(g, mem, k, pushed[k]);
        WriteOther(g, mem, p, 0, 1, k);
      } else {
        assert Slot(g, mem', p)[1..5 + |d|] == Slot(g, mem, p)[1..5 + |d|];
      }
    }
    forall k | p + 1 <= k < q + g.capacity
      ensures FreeAt(g, mem', k)
    {
      assert FreeAt(g, mem, k);
      WriteOther(g, mem, p, 0, 1, k);
    }
  }

  lemma {:induction false} ReleaseKeeps(g: Ring, mem: bytes, pushed: seq<bytes>, q: nat)
    requires Slots(g, mem, pushed, q) && q < |pushed|
    ensures Slots(g, mem[Off(g, q) := 0], pushed, q + 1)
  {
    var mem' := mem[Off(g, q) + 0 := 0];
    WriteOwn(g, mem, q, 0, 0);
    forall k | q + 1 <= k < |pushed|
      ensures FullAt(g, mem', k, pushed[k])
    {
      assert FullAt(g, mem, k, pushed[k]);
      WriteOther(g, mem, q, 0, 0, k);
    }
    forall k | |pushed| <= k < q + 1 + g.capacity
      ensures FreeAt(g, mem', k)
    {
      if k < q + g.capacity {
        assert FreeAt(g, mem, k);
        WriteOther(g, mem, q, 0, 0, k);
      } else {
        SlotTurn(g, mem', q);
      }
    }
  }

  // --- every step keeps the invariant ---

  lemma {:induction false} FillsOn(g: Ring, mem: bytes, k: nat, d: bytes, j: nat)
    requires Sane(g) && |mem| == Total(g) && Filling(g, mem, k, d, j) && j < 4 + |d|
    ensures Filling(g, mem[Off(g, k) + (1 + j) := Image(d)[j]], k, d, j + 1)
  {
    var slot, b := Slot(g, mem, k), Image(d)[j];
    WriteOwn(g, mem, k, 1 + j, b);
    assert slot[1 + j := b][1..1 + (j + 1)] == slot[1..1 + j] + [b];
  }

  lemma {:induction false} FillStep(g: Ring, s: State, d: bytes, j: nat)
    requires Inv(g, s) && s.producer == Fill(d, j) && j < 4 + |d|
    ensures Inv(g, Produced(g, s))
  {
    var i, b := Off(g, s.w) + (1 + j), Image(d)[j];
    var s' := s.(mem := s.mem[i := b], producer := Fill(d, j + 1));
    assert Produced(g, s) == s';
    assert Slots(g, s'.mem, s.pushed, |s.popped|) by { FillKeeps(g, s.mem, s.pushed, |s.popped|, 1 + j, b); }
    assert Filling(g, s'.mem, s.w, d, j + 1) by { FillsOn(g, s.mem, s.w, d, j); }
  }

  lemma {:induction false} PublishStep(g: Ring, s: State, d: bytes)
    requires Inv(g, s) && s.producer == Fill(d, 4 + |d|)
    ensures Inv(g, Produced(g, s))
  {
    PublishKeeps(g, s.mem, s.pushed, |s.popped|, d);
    var s' := s.(mem := s.mem[Off(g, s.w) := 1], producer := Bump, pushed := s.pushed + [d]);
    assert Produced(g, s) == s';
    assert s'.popped <= s'.pushed && ConsumerOk(s', |s.popped|);
  }

  lemma {:induction false} ProducedInv(g: Ring, s: State)
    requires Inv(g, s)
    ensures Inv(g, Produced(g, s))
  {
    match s.producer
    case Idle =>
    case Bump =>
    case Test(d) => FreeExactly(g, s);
    case Fill(d, j) => if j < 4 + |d| { FillStep(g, s, d, j); } else { PublishStep(g, s, d); }
  }

  /** What the used byte of the next slot of each side tells it. */
  lemma {:induction false} FreeExactly(g: Ring, s: State)
    requires Inv(g, s)
    ensures Slot(g, s.mem, |s.pushed|)[0] == 0 || Slot(g, s.mem, |s.pushed|)[0] == 1
    ensures Slot(g, s.mem, |s.pushed|)[0] == 1 <==> |s.pushed| == |s.popped| + g.capacity
    ensures Slot(g, s.mem, |s.popped|)[0] == 0 <==> |s.pushed| == |s.popped|
  {
    var p, q := |s.pushed|, |s.popped|;
    if p < q + g.capacity {
      assert FreeAt(g, s.mem, p);
    } else {
      assert FullAt(g, s.mem, q, s.pushed[q]);
      SlotTurn(g, s.mem, q);
    }
    if q < p { assert FullAt(g, s.mem, q, s.pushed[q]); }
  }

  lemma {:induction false} ImageLength(d: bytes, n: nat)
    requires |Image(d)| == 4 + |d| && n <= |Image(d)|
    ensures n >= 4 ==> FromBE(Image(d)[..n][..4]) == |d|
  {
    if n >= 4 {
      assert Image(d)[..n][..4] == Pack(4, |d|);
    }
  }

  /** The copy is complete exactly when it is the whole message; until then the
      next byte is read from inside the slot. */
  lemma {:induction false} CopyStep(g: Ring, s: State, got: bytes)
    requires Inv(g, s) && s.consumer == Copy(got)
    ensures var image := Image(s.pushed[s.r]);
      && (Copied(s.mem, Off(g, s.r), got) <==> got == image)
      && (got != image ==> got + [Peek(s.mem, Off(g, s.r) + 1 + |got|)] <= image)
      && (got == image ==> |got| >= 4 && got[4..] == s.pushed[s.r])
  {
    var d, off := s.pushed[s.r], Off(g, s.r);
    var image, slot := Image(d), Slot(g, s.mem, s.r);
    assert FullAt(g, s.mem, s.r, d);
    ImageLength(d, |got|);
    assert got == image[..|got|];
    if got != image {
      assert slot[1..5 + |d|][|got|] == slot[1 + |got|] == s.mem[off + 1 + |got|];
    }
  }

  lemma {:induction false} ConsumedInv(g: Ring, s: State)
    requires Inv(g, s)
    ensures Inv(g, Consumed(g, s))
  {
    match s.consumer
    case Waiting =>
    case Advance =>
    case Look => FreeExactly(g, s);
    case Copy(got) => if Copied(s.mem, Off(g, s.r), got) { ReleaseStep(g, s, got); } else { ReadStep(g, s, got); }
  }

  lemma {:induction false} ReadStep(g: Ring, s: State, got: bytes)
    requires Inv(g, s) && s.consumer == Copy(got) && !Copied(s.mem, Off(g, s.r), got)
    ensures Inv(g, Consumed(g, s))
  {
    CopyStep(g, s, got);
  }

  lemma {:induction false} ReleaseStep(g: Ring, s: State, got: bytes)
    requires Inv(g, s) && s.consumer == Copy(got) && Copied(s.mem, Off(g, s.r), got)
    ensures Inv(g, Consumed(g, s))
  {
    var q, off := |s.popped|, Off(g, s.r);
    CopyStep(g, s, got);
    ReleaseKeeps(g, s.mem, s.pushed, q);
    var s' := Consumed(g, s);
    assert s' == s.(mem := s.mem[off := 0], consumer := Advance, popped := s.popped + [s.pushed[q]]);
    assert s'.popped == s.pushed[..q + 1];
    if s.producer.Fill? { WriteOther(g, s.mem, q, 0, 0, s.w); assert off + 0 == off; }
  }

  lemma {:induction false} StepInv(g: Ring, s: State, a: Action)
    requires Inv(g, s)
    ensures Inv(g, Step(g, s, a))
  {
    match a
    case Push(_) =>
    case Pop =>
    case Produce => ProducedInv(g, s);
    case Consume => ConsumedInv(g, s);
  }

  lemma {:induction false} RunInv(g: Ring, s: State, acts: seq<Action>)
    requires Inv(g, s)
    ensures Inv(g, Run(g, s, acts))
    decreases |acts|
  {
    if acts != [] {
      StepInv(g, s, acts[0]);
      RunInv(g, Step(g, s, acts[0]), acts[1..]);
    }
  }

  // --- safety of every interleaving ---

  /** Slot i holds a message that was published and not yet released. */
  ghost predicate Undelivered(g: Ring, s: State, i: nat)
    requires Sane(g)
  {
    exists k :: |s.popped| <= k < |s.pushed| && k % g.capacity == i
  }

  lemma {:induction false} SameSlot(g: Ring, mem: bytes, k: nat, i: nat)
    requires Sane(g) && |mem| == Total(g) && i < g.capacity && k % g.capacity == i
    ensures Slot(g, mem, k) == Slot(g, mem, i)
  {
    assert i % g.capacity == i by { ModUnique(0, i, g.capacity); }
    assert Off(g, k) == Off(g, i);
  }

  lemma {:induction false} UsedExactly(g: Ring, s: State, i: nat)
    requires Inv(g, s) && i < g.capacity
    ensures Slot(g, s.mem, i)[0] == if Undelivered(g, s, i) then 1 else 0
  {
    var p, q := |s.pushed|, |s.popped|;
    var k := Representative(q, i, g.capacity);
    SameSlot(g, s.mem, k, i);
    if k < p {
      assert FullAt(g, s.mem, k, s.pushed[k]);
      assert Undelivered(g, s, i);
    } else {
      assert FreeAt(g, s.mem, k);
      if Undelivered(g, s, i) {
        var j :| q <= j < p && j % g.capacity == i;
        ModApart(j, k, g.capacity);
        assert false;
      }
    }
  }

  /** In every interleaving from a fresh ring, what was popped is a prefix of
      what was pushed, byte for byte; at most `capacity` messages are in flight;
      and a slot is marked used exactly while it holds an undelivered one. */
  lemma {:induction false} EveryRunSafe(g: Ring, s: State, acts: seq<Action>)
    requires Created(g, s)
    ensures var t := Run(g, s, acts);
      && t.popped <= t.pushed && |t.pushed| <= |t.popped| + g.capacity && |t.mem| == Total(g)
      && forall i: nat :: i < g.capacity ==> Slot(g, t.mem, i)[0] == if Undelivered(g, t, i) then 1 else 0
  {
    CreatedInv(g, s);
    RunInv(g, s, acts);
    var t := Run(g, s, acts);
    forall i: nat | i < g.capacity
      ensures Slot(g, t.mem, i)[0] == if Undelivered(g, t, i) then 1 else 0
    {
      UsedExactly(g, t, i);
    }
  }

  /** In every interleaving, a push finds the ring full exactly when `capacity`
      messages are in flight at its test, and a pop finds it empty exactly when
      none is. */
  lemma {:induction false} FullAndEmptyExactly(g: Ring, s: State, acts: seq<Action>)
    requires Created(g, s)
    ensures var t := Run(g, s, acts);
      && (t.producer.Test? && InRange(4, |t.producer.data|) ==>
            (Step(g, t, Produce).producer.Idle? <==> |t.pushed| == |t.popped| + g.capacity))
      && (t.consumer.Look? ==> (Step(g, t, Consume).consumer.Waiting? <==> |t.pushed| == |t.popped|))
  {
    CreatedInv(g, s);
    RunInv(g, s, acts);
    FreeExactly(g, Run(g, s, acts));
  }
}
