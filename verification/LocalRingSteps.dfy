/** The Rust ring on two threads: the loads, stores and byte copies of `push` and
    `try_pop`, in any order. */
module LocalRingSteps {
  import opened Wire
  import opened LocalRing
  import opened LocalRingLaws

  /** Where a push is: between calls, with the tail loaded, with a slot reserved,
      with the slot header and some bytes written. */
  datatype Producer = Idle | Loaded(data: bytes, t: nat) | Reserved(data: bytes) | Filling(data: bytes, done: nat)

  /** Where a pop is: between calls, with the head loaded, with a slot acquired,
      with its header read. */
  datatype Consumer = Waiting | Seen(h: nat) | Acquired | Holding(hdr: SlotHeader)

  /** The ring, the program counters, the frames committed and the borrows given
      out so far. */
  datatype State = State(ring: Ring, producer: Producer, consumer: Consumer, pushed: seq<bytes>, popped: seq<Borrow>)

  datatype Action = Begin(data: bytes) | Produce | BeginPop | Consume

  function SetHeader(r: Ring, i: nat, hdr: SlotHeader): Ring {
    if i < |r.slots| then r.(slots := r.slots[i := r.slots[i].(hdr := hdr)]) else r
  }

  function SetByte(r: Ring, i: nat, j: nat, b: byte): Ring {
    if i < |r.slots| && j < |r.slots[i].area|
    then r.(slots := r.slots[i := r.slots[i].(area := r.slots[i].area[j := b])]) else r
  }

  /** One load, store or byte copy of `push`. */
  function Produced(s: State): State
    requires Shaped(s.ring)
  {
    var r := s.ring;
    match s.producer
    case Idle => s
    case Loaded(d, t) =>
      if t >= U64 || WrappingSub(t, r.head) >= r.capacity || |d| > r.slotSize - SLOT_HEADER then s.(producer := Idle)
      else s.(producer := Reserved(d))
    case Reserved(d) =>
      s.(ring := SetHeader(r, r.tail % r.capacity, HeaderOf(d)), producer := Filling(d, 0))
    case Filling(d, j) =>
      if j < |d| then s.(ring := SetByte(r, r.tail % r.capacity, j, d[j]), producer := Filling(d, j + 1))
      else s.(ring := r.(tail := Wrap(r.tail + 1)), producer := Idle, pushed := s.pushed + [d])
  }

  /** One load or store of `try_pop`. */
  function Consumed(s: State): State
    requires Shaped(s.ring)
  {
    var r := s.ring;
    match s.consumer
    case Waiting => s
    case Seen(h) => if h == r.tail then s.(consumer := Waiting) else s.(consumer := Acquired)
    case Acquired => s.(consumer := Holding(r.slots[r.head % r.capacity].hdr))
    case Holding(hdr) =>
      s.(ring := r.(head := Wrap(r.head + 1)), consumer := Waiting,
         popped := s.popped + [Borrow(r.head % r.capacity, hdr)])
  }

  function Step(s: State, a: Action): State
    requires Shaped(s.ring)
  {
    match a
    case Begin(d) => if s.producer.Idle? then s.(producer := Loaded(d, s.ring.tail)) else s
    case Produce => Produced(s)
    case BeginPop => if s.consumer.Waiting? then s.(consumer := Seen(s.ring.head)) else s
    case Consume => Consumed(s)
  }

  lemma {:induction false} StepShaped(s: State, a: Action)
    requires Shaped(s.ring)
    ensures Shaped(Step(s, a).ring) && Step(s, a).ring.capacity == s.ring.capacity
    ensures |s.pushed| <= |Step(s, a).pushed|
  {
  }

  function Run(s: State, acts: seq<Action>): (t: State)
    requires Shaped(s.ring)
    ensures Shaped(t.ring) && t.ring.capacity == s.ring.capacity && |s.pushed| <= |t.pushed|
    decreases |acts|
  {
    if acts == [] then s else StepShaped(s, acts[0]); Run(Step(s, acts[0]), acts[1..])
  }

  predicate Fresh(s: State) {
    && Shaped(s.ring) && s.ring.head == 0 && s.ring.tail == 0
    && s.producer.Idle? && s.consumer.Waiting? && s.pushed == [] && s.popped == []
  }

  // --- the invariant ---

  /** The oldest frame whose slot has not been touched since it was committed. */
  function Oldest(s: State): nat {
    var t := |s.pushed| + (if s.producer.Filling? then 1 else 0);
    if t <= s.ring.capacity then 0 else t - s.ring.capacity
  }

  predicate Kept(r: Ring, pushed: seq<bytes>, k: nat)
    requires Shaped(r) && k < |pushed|
  {
    Holds(r.slots[Place(r.capacity, k)], pushed[k])
  }

  /** The borrow of frame k. */
  function BorrowOf(r: Ring, pushed: seq<bytes>, k: nat): Borrow
    requires r.capacity > 0 && k < |pushed|
  {
    Borrow(Place(r.capacity, k), HeaderOf(pushed[k]))
  }

  predicate ProducerOk(s: State)
    requires Shaped(s.ring)
  {
    var r, t := s.ring, |s.pushed|;
    match s.producer
    case Idle => true
    case Loaded(_, tail) => tail == r.tail
    case Reserved(d) => t < |s.popped| + r.capacity && |d| <= r.slotSize - SLOT_HEADER
    case Filling(d, j) =>
      && t < |s.popped| + r.capacity && |d| <= r.slotSize - SLOT_HEADER && j <= |d|
      && r.slots[Place(r.capacity, t)].hdr == HeaderOf(d) && r.slots[Place(r.capacity, t)].area[..j] == d[..j]
  }

  predicate ConsumerOk(s: State)
    requires Shaped(s.ring)
  {
    var h := |s.popped|;
    match s.consumer
    case Waiting => true
    case Seen(head) => head == s.ring.head
    case Acquired => h < |s.pushed|
    case Holding(hdr) => h < |s.pushed| && hdr == HeaderOf(s.pushed[h])
  }

  ghost predicate Inv(s: State) {
    var r, h, t := s.ring, |s.popped|, |s.pushed|;
    && Shaped(r) && h <= t <= h + r.capacity && r.head == Wrap(h) && r.tail == Wrap(t)
    && (forall k: nat :: Oldest(s) <= k < t ==> Kept(r, s.pushed, k))
    && (forall k: nat :: k < h ==> s.popped[k] == BorrowOf(r, s.pushed, k))
    && ProducerOk(s) && ConsumerOk(s)
  }

  lemma {:induction false} FreshInv(s: State)
    requires Fresh(s)
    ensures Inv(s)
  {
    WrapIs(0);
  }

  /** Writing into the slot of the next frame leaves the frames kept. */
  lemma {:induction false} WriteKeeps(s: State, r: Ring, k: nat)
    requires Inv(s) && Addressable(s.ring.capacity, |s.pushed|)
    requires Shaped(r) && r.capacity == s.ring.capacity
    requires forall i :: 0 <= i < r.capacity && i != Place(r.capacity, |s.pushed|) ==> r.slots[i] == s.ring.slots[i]
    requires k < |s.pushed| < k + r.capacity
    ensures Kept(r, s.pushed, k)
  {
    assert Kept(s.ring, s.pushed, k);
    PlacesApart(r.capacity, k, |s.pushed|);
  }

  lemma {:induction false} PlaceOfTail(s: State)
    requires Inv(s)
    ensures s.ring.tail % s.ring.capacity == Place(s.ring.capacity, |s.pushed|)
    ensures s.ring.head % s.ring.capacity == Place(s.ring.capacity, |s.popped|)
  {
  }

  lemma {:induction false} HeaderStep(s: State, d: bytes)
    requires Inv(s) && s.producer == Reserved(d) && Addressable(s.ring.capacity, |s.pushed|)
    ensures Inv(Produced(s))
  {
    var s' := Produced(s);
    PlaceOfTail(s);
    StepShaped(s, Produce);
    forall k: nat | Oldest(s') <= k < |s.pushed|
      ensures Kept(s'.ring, s.pushed, k)
    {
      WriteKeeps(s, s'.ring, k);
    }
  }

  lemma {:induction false} ByteStep(s: State, d: bytes, j: nat)
    requires Inv(s) && s.producer == Filling(d, j) && j < |d| && Addressable(s.ring.capacity, |s.pushed|)
    ensures Inv(Produced(s))
  {
    var s' := Produced(s);
    PlaceOfTail(s);
    StepShaped(s, Produce);
    forall k: nat | Oldest(s') <= k < |s.pushed|
      ensures Kept(s'.ring, s.pushed, k)
    {
      WriteKeeps(s, s'.ring, k);
    }
    var i := Place(s.ring.capacity, |s.pushed|);
    assert s'.ring.slots[i].area[..j + 1] == s.ring.slots[i].area[..j] + [d[j]];
    assert d[..j + 1] == d[..j] + [d[j]];
  }

  lemma {:induction false} CommitStep(s: State, d: bytes)
    requires Inv(s) && s.producer == Filling(d, |d|)
    ensures Inv(Produced(s))
  {
    var s' := Produced(s);
    WrapNext(|s.pushed|);
    assert d[..|d|] == d;
    forall k: nat | Oldest(s') <= k < |s'.pushed|
      ensures Kept(s'.ring, s'.pushed, k)
    {
      if k < |s.pushed| { assert Kept(s.ring, s.pushed, k); }
    }
    forall k: nat | k < |s.popped|
      ensures s'.popped[k] == BorrowOf(s'.ring, s'.pushed, k)
    {
    }
  }

  lemma {:induction false} ProducedInv(s: State)
    requires Inv(s) && Addressable(s.ring.capacity, |s.pushed|)
    ensures Inv(Produced(s))
  {
    match s.producer
    case Idle =>
    case Loaded(d, t) => Distance(|s.popped|, |s.pushed|);
    case Reserved(d) => HeaderStep(s, d);
    case Filling(d, j) => if j < |d| { ByteStep(s, d, j); } else { CommitStep(s, d); }
  }

  lemma {:induction false} ReadStep(s: State)
    requires Inv(s) && s.consumer.Acquired?
    ensures Inv(Consumed(s))
  {
    PlaceOfTail(s);
    assert Kept(s.ring, s.pushed, |s.popped|);
  }

  lemma {:induction false} ReleaseStep(s: State)
    requires Inv(s) && s.consumer.Holding?
    ensures Inv(Consumed(s))
  {
    var s', h := Consumed(s), |s.popped|;
    assert s'.popped == s.popped + [BorrowOf(s.ring, s.pushed, h)] by { PlaceOfTail(s); }
    assert s'.ring.head == Wrap(h + 1) by { WrapNext(h); }
    assert Oldest(s') == Oldest(s) && s'.ring.slots == s.ring.slots;
    forall k: nat | k < h + 1
      ensures s'.popped[k] == BorrowOf(s'.ring, s.pushed, k)
    {
      if k < h { assert s'.popped[k] == s.popped[k]; }
    }
    forall k: nat | Oldest(s') <= k < |s.pushed|
      ensures Kept(s'.ring, s.pushed, k)
    {
      assert Kept(s.ring, s.pushed, k);
    }
  }

  lemma {:induction false} ConsumedInv(s: State)
    requires Inv(s)
    ensures Inv(Consumed(s))
  {
    match s.consumer
    case Waiting =>
    case Seen(h) => Distance(|s.popped|, |s.pushed|);
    case Acquired => ReadStep(s);
    case Holding(hdr) => ReleaseStep(s);
  }

  lemma {:induction false} StepInv(s: State, a: Action)
    requires Inv(s) && Addressable(s.ring.capacity, |s.pushed|)
    ensures Inv(Step(s, a))
  {
    match a
    case Begin(_) =>
    case BeginPop =>
    case Produce => ProducedInv(s);
    case Consume => ConsumedInv(s);
  }

  lemma {:induction false} RunInv(s: State, acts: seq<Action>)
    requires Inv(s) && Addressable(s.ring.capacity, |Run(s, acts).pushed|)
    ensures Inv(Run(s, acts))
    decreases |acts|
  {
    if acts != [] {
      StepShaped(s, acts[0]);
      StepInv(s, acts[0]);
      RunInv(Step(s, acts[0]), acts[1..]);
    }
  }

  // --- what every interleaving keeps ---

  /** In every interleaving on a fresh ring, for ever when the capacity divides
      2^64 and otherwise until 2^64 frames were committed: the borrows given out
      are those of the frames committed, in order and with their headers whole; at
      most `capacity` frames are in flight; and a borrow reads as its frame until
      the producer begins to fill its slot again, `capacity` frames later. */
  lemma {:induction false} EveryRunDelivers(s: State, acts: seq<Action>)
    requires Fresh(s) && Addressable(s.ring.capacity, |Run(s, acts).pushed|)
    ensures var t := Run(s, acts);
      && |t.popped| <= |t.pushed| <= |t.popped| + t.ring.capacity
      && (forall k: nat :: k < |t.popped| ==> t.popped[k] == BorrowOf(t.ring, t.pushed, k))
      && (forall k: nat :: Oldest(t) <= k < |t.popped| ==> DataOf(t.ring, t.popped[k]) == t.pushed[k])
  {
    FreshInv(s);
    RunInv(s, acts);
    var t := Run(s, acts);
    forall k: nat | Oldest(t) <= k < |t.popped|
      ensures DataOf(t.ring, t.popped[k]) == t.pushed[k]
    {
      assert Kept(t.ring, t.pushed, k) && t.popped[k] == BorrowOf(t.ring, t.pushed, k);
    }
  }

  /** A push that loads the head finds the ring full exactly when `capacity` frames
      are in flight at that moment, and a pop that loads the tail finds it empty
      exactly when none is. */
  lemma {:induction false} FullAndEmptyExactly(s: State, acts: seq<Action>)
    requires Fresh(s) && Addressable(s.ring.capacity, |Run(s, acts).pushed|)
    ensures var t := Run(s, acts);
      && (t.producer.Loaded? && |t.producer.data| <= t.ring.slotSize - SLOT_HEADER ==>
            (Step(t, Produce).producer.Idle? <==> |t.pushed| == |t.popped| + t.ring.capacity))
      && (t.consumer.Seen? ==> (Step(t, Consume).consumer.Waiting? <==> |t.pushed| == |t.popped|))
  {
    FreshInv(s);
    RunInv(s, acts);
    var t := Run(s, acts);
    Distance(|t.popped|, |t.pushed|);
  }
}
