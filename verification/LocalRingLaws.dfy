/** The ring behaves like the bounded queue in every run, and a borrowed frame
    stays readable for an exact number of further pushes. */
module LocalRingLaws {
  import opened Wire
  import opened Modular
  import opened Frame
  import opened LocalRing

  // --- wrapping counters ---

  /** The slot of message k, counted without wrapping. */
  function Place(cap: nat, k: nat): nat
    requires cap > 0
  {
    Wrap(k) % cap
  }

  lemma {:induction false} WrapIs(k: nat)
    ensures k == k / U64 * U64 + Wrap(k)
    ensures k < U64 ==> Wrap(k) == k
  {
  }

  lemma {:induction false} WrapNext(k: nat)
    ensures Wrap(Wrap(k) + 1) == Wrap(k + 1)
  {
  }

  /** The difference of two counters is right as long as it fits. */
  lemma {:induction false} Distance(h: nat, t: nat)
    requires h <= t < h + U64
    ensures WrappingSub(Wrap(t), Wrap(h)) == t - h
    ensures Wrap(t) == Wrap(h) <==> t == h
  {
  }

  /** Remainders survive the wrap when the capacity divides 2^64. */
  lemma {:induction false} PlaceIsMod(cap: nat, k: nat)
    requires cap > 0 && (U64 % cap == 0 || k < U64)
    ensures Place(cap, k) == k % cap
  {
    WrapIs(k);
    if U64 % cap == 0 {
      var a, b, w := k / U64, U64 / cap, Wrap(k);
      assert U64 == b * cap;
      assert a * U64 == a * b * cap by { MulAssoc(a, b, cap); }
      var q := w / cap;
      assert w == q * cap + w % cap;
      ModUnique(a * b + q, w % cap, cap);
      assert (a * b + q) * cap == a * b * cap + q * cap;
    }
  }

  lemma {:induction false} MulAssoc(a: nat, b: nat, c: nat)
    ensures a * (b * c) == a * b * c
  {
  }

  /** Messages that can be in flight together have different slots. */
  lemma {:induction false} PlacesApart(cap: nat, i: nat, j: nat)
    requires i < j < i + cap && (U64 % cap == 0 || j < U64)
    ensures Place(cap, i) != Place(cap, j)
  {
    PlaceIsMod(cap, i);
    PlaceIsMod(cap, j);
    ModApart(i, j, cap);
  }

  /** They always have, exactly when the capacity divides 2^64: otherwise two
      messages on either side of the wrap share a slot. */
  lemma {:induction false} SlotsDistinctExactly(cap: nat)
    requires 0 < cap < U64
    ensures (forall i: nat, j: nat :: i < j < i + cap ==> Place(cap, i) != Place(cap, j)) <==> U64 % cap == 0
  {
    if U64 % cap == 0 {
      forall i: nat, j: nat | i < j < i + cap
        ensures Place(cap, i) != Place(cap, j)
      {
        PlacesApart(cap, i, j);
      }
    } else {
      var i := U64 - U64 % cap;
      Collide(cap, i);
      assert i < U64 < i + cap && Place(cap, i) == Place(cap, U64);
    }
  }

  lemma {:induction false} Collide(cap: nat, i: nat)
    requires 0 < cap < U64 && i == U64 - U64 % cap && U64 % cap > 0
    ensures Place(cap, i) == 0 == Place(cap, U64)
  {
    WrapIs(i);
    assert i == U64 / cap * cap;
    ModUnique(U64 / cap, 0, cap);
    ModUnique(1, 0, U64);
    assert Wrap(U64) == 0;
  }

  // --- the ring holds a queue ---

  predicate Holds(slot: Slot, d: bytes) {
    slot.hdr == HeaderOf(d) && |d| <= |slot.area| && slot.area[..|d|] == d
  }

  /** Messages h to t are in flight and are the queue q. */
  ghost predicate Carries(r: Ring, h: nat, t: nat, q: seq<bytes>) {
    && Shaped(r) && h <= t <= h + r.capacity && |q| == t - h
    && r.head == Wrap(h) && r.tail == Wrap(t)
    && forall k :: 0 <= k < |q| ==> Holds(r.slots[Place(r.capacity, h + k)], q[k])
  }

  /** Message number t is addressed as if the counters did not wrap. */
  predicate Addressable(cap: nat, t: nat)
    requires cap > 0
  {
    U64 % cap == 0 || t < U64
  }

  lemma {:induction false} PendingIs(r: Ring, h: nat, t: nat, q: seq<bytes>)
    requires Carries(r, h, t, q)
    ensures Pending(r) == |q| <= r.capacity
    ensures r.head == r.tail <==> q == []
  {
  }

  lemma {:induction false} PushCarries(r: Ring, h: nat, t: nat, q: seq<bytes>, data: bytes)
    requires Carries(r, h, t, q) && |q| < r.capacity && |data| <= r.slotSize - SLOT_HEADER && Addressable(r.capacity, t)
    ensures Pushed(r, data).0 == Ok(())
    ensures Carries(Pushed(r, data).1, h, t + 1, q + [data])
    ensures Pushed(r, data).1.slots[Place(r.capacity, t)] == Slot(HeaderOf(data), Overwrite(r.slots[Place(r.capacity, t)].area, data))
    ensures forall i :: 0 <= i < r.capacity && i != Place(r.capacity, t) ==> Pushed(r, data).1.slots[i] == r.slots[i]
  {
    PendingIs(r, h, t, q);
    var cap, r', q' := r.capacity, Pushed(r, data).1, q + [data];
    WrapNext(t);
    forall k | 0 <= k < |q'|
      ensures Holds(r'.slots[Place(cap, h + k)], q'[k])
    {
      if k < |q| {
        assert Holds(r.slots[Place(cap, h + k)], q[k]);
        PlacesApart(cap, h + k, t);
      } else {
        assert h + k == t;
      }
    }
  }

  lemma {:induction false} PopCarries(r: Ring, h: nat, t: nat, q: seq<bytes>)
    requires Carries(r, h, t, q) && q != []
    ensures var (b, r') := Popped(r);
      && b == Some(Borrow(Place(r.capacity, h), HeaderOf(q[0]))) && r'.slots == r.slots
      && DataOf(r', b.value) == q[0] && Carries(r', h + 1, t, q[1..])
  {
    PendingIs(r, h, t, q);
    var cap, r' := r.capacity, Popped(r).1;
    assert h + 0 == h && Holds(r.slots[Place(cap, h + 0)], q[0]);
    WrapNext(h);
    forall k | 0 <= k < |q[1..]|
      ensures Holds(r'.slots[Place(cap, h + 1 + k)], q[1..][k])
    {
      assert Holds(r.slots[Place(cap, h + (1 + k))], q[1 + k]);
      assert h + (1 + k) == h + 1 + k;
    }
  }

  /** A fresh ring carries the empty queue. */
  lemma {:induction false} FreshCarries(r: Ring)
    requires Shaped(r) && r.head == 0 && r.tail == 0
    ensures Carries(r, 0, 0, [])
  {
  }

  // --- runs ---

  datatype Op = Push(data: bytes) | Pop

  /** What a caller sees. */
  datatype Seen = Sent(ok: bool) | Taken(data: Option<bytes>)

  predicate OpFits(r: Ring, op: Op) { op.Push? ==> |op.data| <= r.slotSize - SLOT_HEADER }

  /** The data of a pop is read while the borrow is fresh. */
  function RingStep(r: Ring, op: Op): (x: (Seen, Ring))
    requires Shaped(r)
    ensures Shaped(x.1) && x.1.capacity == r.capacity && x.1.slotSize == r.slotSize
  {
    match op
    case Push(data) =>
      var (res, r') := Pushed(r, data);
      (Sent(res.Ok?), r')
    case Pop =>
      var (b, r') := Popped(r);
      (Taken(if b.Some? then Some(DataOf(r', b.value)) else None), r')
  }

  function QueueStep(q: seq<bytes>, cap: nat, op: Op): (Seen, seq<bytes>) {
    match op
    case Push(data) =>
      var (ok, q') := QueuePush(q, cap, data);
      (Sent(ok), q')
    case Pop =>
      var (x, q') := QueuePop(q);
      (Taken(x), q')
  }

  function RingRun(r: Ring, ops: seq<Op>): (x: (seq<Seen>, Ring))
    requires Shaped(r)
    ensures Shaped(x.1) && x.1.capacity == r.capacity && x.1.slotSize == r.slotSize
    decreases |ops|
  {
    if ops == [] then ([], r)
    else
      var (s, r') := RingStep(r, ops[0]);
      var (ss, r'') := RingRun(r', ops[1..]);
      ([s] + ss, r'')
  }

  function QueueRun(q: seq<bytes>, cap: nat, ops: seq<Op>): (seq<Seen>, seq<bytes>)
    decreases |ops|
  {
    if ops == [] then ([], q)
    else
      var (s, q') := QueueStep(q, cap, ops[0]);
      var (ss, q'') := QueueRun(q', cap, ops[1..]);
      ([s] + ss, q'')
  }

  /** How many pushes a run got through. */
  function Accepted(seen: seq<Seen>): nat {
    if seen == [] then 0 else (if seen[0] == Sent(true) then 1 else 0) + Accepted(seen[1..])
  }

  predicate OpsFit(r: Ring, ops: seq<Op>) { forall i :: 0 <= i < |ops| ==> OpFits(r, ops[i]) }

  /** No message that the run accepts is addressed past a wrap that moves the
      slots. */
  predicate NoBadWrap(cap: nat, t: nat, seen: seq<Seen>)
    requires cap > 0
  {
    U64 % cap == 0 || t + Accepted(seen) <= U64
  }

  /** The message counters after one operation. */
  function NextTail(t: nat, s: Seen): nat { if s == Sent(true) then t + 1 else t }

  function NextHead(h: nat, s: Seen): nat { if s.Taken? && s.data.Some? then h + 1 else h }

  function TailAfter(t: nat, seen: seq<Seen>): nat
    decreases |seen|
  {
    if seen == [] then t else TailAfter(NextTail(t, seen[0]), seen[1..])
  }

  function HeadAfter(h: nat, seen: seq<Seen>): nat
    decreases |seen|
  {
    if seen == [] then h else HeadAfter(NextHead(h, seen[0]), seen[1..])
  }

  lemma {:induction false} TailCounts(t: nat, seen: seq<Seen>)
    ensures TailAfter(t, seen) == t + Accepted(seen)
    decreases |seen|
  {
    if seen != [] { TailCounts(NextTail(t, seen[0]), seen[1..]); }
  }

  lemma {:induction false} HeadGrows(h: nat, seen: seq<Seen>)
    ensures HeadAfter(h, seen) >= h
    decreases |seen|
  {
    if seen != [] { HeadGrows(NextHead(h, seen[0]), seen[1..]); }
  }

  lemma {:induction false} RunSplits(r: Ring, ops: seq<Op>)
    requires Shaped(r) && ops != []
    ensures var (s, r') := RingStep(r, ops[0]);
      && RingRun(r, ops).0[0] == s && RingRun(r, ops).0[1..] == RingRun(r', ops[1..]).0
      && RingRun(r, ops).1 == RingRun(r', ops[1..]).1
  {
  }

  lemma {:induction false} StepRefines(r: Ring, h: nat, t: nat, q: seq<bytes>, op: Op)
    requires Carries(r, h, t, q) && OpFits(r, op)
    requires RingStep(r, op).0 == Sent(true) ==> Addressable(r.capacity, t)
    ensures var (s, r') := RingStep(r, op);
      s == QueueStep(q, r.capacity, op).0
      && Carries(r', NextHead(h, s), NextTail(t, s), QueueStep(q, r.capacity, op).1)
  {
    PendingIs(r, h, t, q);
    if op.Push? {
      if |q| < r.capacity {
        assert RingStep(r, op).0 == Sent(true);
        PushCarries(r, h, t, q, op.data);
      }
    } else if q != [] {
      PopCarries(r, h, t, q);
    }
  }

  /** Every run of pushes and pops that fit looks the same on the ring and on the
      queue, for ever when the capacity divides 2^64, and for any capacity as long
      as the accepted pushes do not take the counter past the wrap. */
  lemma {:induction false} RingRefinesQueue(r: Ring, h: nat, t: nat, q: seq<bytes>, ops: seq<Op>)
    requires Carries(r, h, t, q) && OpsFit(r, ops) && NoBadWrap(r.capacity, t, RingRun(r, ops).0)
    ensures RingRun(r, ops).0 == QueueRun(q, r.capacity, ops).0
    ensures var (seen, r') := RingRun(r, ops);
      Carries(r', HeadAfter(h, seen), TailAfter(t, seen), QueueRun(q, r.capacity, ops).1)
    decreases |ops|
  {
    if ops != [] {
      RunSplits(r, ops);
      var (s, r') := RingStep(r, ops[0]);
      AcceptedSplits(RingRun(r, ops).0);
      StepRefines(r, h, t, q, ops[0]);
      RingRefinesQueue(r', NextHead(h, s), NextTail(t, s), QueueStep(q, r.capacity, ops[0]).1, ops[1..]);
    }
  }

  lemma {:induction false} AcceptedSplits(seen: seq<Seen>)
    requires seen != []
    ensures Accepted(seen) == NextTail(0, seen[0]) + Accepted(seen[1..])
  {
  }

  // --- the counters alone ---

  /** The counters stand for h and t, and the queue has as many entries. */
  predicate Counts(r: Ring, h: nat, t: nat, q: seq<bytes>) {
    && Shaped(r) && h <= t <= h + r.capacity && r.head == Wrap(h) && r.tail == Wrap(t) && |q| == t - h
  }

  lemma {:induction false} StepCounts(r: Ring, h: nat, t: nat, q: seq<bytes>, op: Op)
    requires Counts(r, h, t, q) && OpFits(r, op)
    ensures var (s, r') := RingStep(r, op);
      Counts(r', NextHead(h, s), NextTail(t, s), QueueStep(q, r.capacity, op).1)
  {
    Distance(h, t);
    WrapNext(h);
    WrapNext(t);
  }

  lemma {:induction false} RunCounts(r: Ring, h: nat, t: nat, q: seq<bytes>, ops: seq<Op>)
    requires Counts(r, h, t, q) && OpsFit(r, ops)
    ensures var (seen, r') := RingRun(r, ops);
      Counts(r', HeadAfter(h, seen), TailAfter(t, seen), QueueRun(q, r.capacity, ops).1)
    decreases |ops|
  {
    if ops != [] {
      RunSplits(r, ops);
      var (s, r') := RingStep(r, ops[0]);
      StepCounts(r, h, t, q, ops[0]);
      RunCounts(r', NextHead(h, s), NextTail(t, s), QueueStep(q, r.capacity, ops[0]).1, ops[1..]);
    }
  }

  /** The subtraction in `free_slots` never underflows, for any capacity and
      across every wrap: after every run it is the room left in the queue. */
  lemma {:induction false} FreeSlotsExact(r: Ring, ops: seq<Op>)
    requires Shaped(r) && r.head == 0 && r.tail == 0 && OpsFit(r, ops)
    ensures var r', q := RingRun(r, ops).1, QueueRun([], r.capacity, ops).1;
      Pending(r') <= r'.capacity && r'.capacity - Pending(r') == r.capacity - |q|
  {
    WrapIs(0);
    RunCounts(r, 0, 0, [], ops);
    var seen := RingRun(r, ops).0;
    Distance(HeadAfter(0, seen), TailAfter(0, seen));
  }

  // --- the zero-copy window ---

  lemma {:induction false} StepKeeps(r: Ring, h: nat, t: nat, q: seq<bytes>, op: Op, m: nat)
    requires Carries(r, h, t, q) && OpFits(r, op) && m < h
    requires NextTail(t, RingStep(r, op).0) <= m + r.capacity
    requires U64 % r.capacity == 0 || m + r.capacity <= U64
    ensures var (s, r') := RingStep(r, op);
      && r'.slots[Place(r.capacity, m)] == r.slots[Place(r.capacity, m)]
      && Carries(r', NextHead(h, s), NextTail(t, s), QueueStep(q, r.capacity, op).1)
  {
    PendingIs(r, h, t, q);
    if op.Push? {
      if |q| < r.capacity {
        assert RingStep(r, op).0 == Sent(true);
        PushCarries(r, h, t, q, op.data);
        PlacesApart(r.capacity, m, t);
      }
    } else if q != [] {
      PopCarries(r, h, t, q);
    }
  }

  /** The slot of message m keeps its content in every run whose pushes stay
      below message m + capacity. */
  lemma {:induction false} SlotKept(r: Ring, h: nat, t: nat, q: seq<bytes>, ops: seq<Op>, m: nat)
    requires Carries(r, h, t, q) && OpsFit(r, ops) && m < h
    requires TailAfter(t, RingRun(r, ops).0) <= m + r.capacity
    requires U64 % r.capacity == 0 || m + r.capacity <= U64
    ensures var (seen, r') := RingRun(r, ops);
      && r'.slots[Place(r.capacity, m)] == r.slots[Place(r.capacity, m)]
      && Carries(r', HeadAfter(h, seen), TailAfter(t, seen), QueueRun(q, r.capacity, ops).1)
    decreases |ops|
  {
    if ops != [] {
      RunSplits(r, ops);
      var (s, r') := RingStep(r, ops[0]);
      TailCounts(NextTail(t, s), RingRun(r', ops[1..]).0);
      StepKeeps(r, h, t, q, ops[0], m);
      SlotKept(r', NextHead(h, s), NextTail(t, s), QueueStep(q, r.capacity, ops[0]).1, ops[1..], m);
    }
  }

  /** A frame popped when messages h to t were in flight reads as pushed through
      capacity - (t - h) further pushes, whatever else happens; its copied header
      is that of the frame for ever. */
  lemma {:induction false} WindowHolds(r: Ring, h: nat, t: nat, q: seq<bytes>, ops: seq<Op>)
    requires Carries(r, h, t, q) && q != [] && OpsFit(r, ops)
    requires Accepted(RingRun(Popped(r).1, ops).0) <= r.capacity - (t - h)
    requires U64 % r.capacity == 0 || h + r.capacity <= U64
    ensures var (b, r1) := Popped(r);
      b.Some? && b.value.hdr == HeaderOf(q[0]) && DataOf(RingRun(r1, ops).1, b.value) == q[0]
  {
    PopCarries(r, h, t, q);
    var r1 := Popped(r).1;
    TailCounts(t, RingRun(r1, ops).0);
    SlotKept(r1, h + 1, t, q[1..], ops, h);
  }

  /** What is left of frame d when frame e was written over it. */
  function Overlaid(d: bytes, e: bytes): bytes { if |e| >= |d| then e[..|d|] else e + d[|e|..] }

  lemma {:induction false} OverwriteShows(area: bytes, d: bytes, e: bytes)
    requires |d| <= |area| && |e| <= |area| && area[..|d|] == d
    ensures Overwrite(area, e)[..|d|] == Overlaid(d, e)
  {
  }

  /** The push after those is always accepted, and it writes over the frame. */
  lemma {:induction false} WindowEnds(r: Ring, h: nat, t: nat, q: seq<bytes>, ops: seq<Op>, data: bytes)
    requires Carries(r, h, t, q) && q != [] && OpsFit(r, ops) && OpFits(r, Push(data))
    requires Accepted(RingRun(Popped(r).1, ops).0) == r.capacity - (t - h)
    requires U64 % r.capacity == 0 || h + r.capacity < U64
    ensures var (b, r1) := Popped(r); var (res, r2) := Pushed(RingRun(r1, ops).1, data);
      b.Some? && res == Ok(()) && DataOf(r2, b.value) == Overlaid(q[0], data)
  {
    PopCarries(r, h, t, q);
    var cap, r1 := r.capacity, Popped(r).1;
    var (seen, r2) := RingRun(r1, ops);
    TailCounts(t, seen);
    SlotKept(r1, h + 1, t, q[1..], ops, h);
    HeadGrows(h + 1, seen);
    assert h + 0 == h && Holds(r.slots[Place(cap, h + 0)], q[0]);
    assert Holds(r2.slots[Place(cap, h)], q[0]);
    WritesOver(r2, HeadAfter(h + 1, seen), TailAfter(t, seen), QueueRun(q[1..], cap, ops).1, data, h, q[0]);
  }

  lemma {:induction false} WritesOver(r: Ring, h: nat, t: nat, q: seq<bytes>, data: bytes, m: nat, d: bytes)
    requires m < h && t == m + r.capacity && Carries(r, h, t, q) && OpFits(r, Push(data))
    requires Holds(r.slots[Place(r.capacity, m)], d) && (U64 % r.capacity == 0 || m + r.capacity < U64)
    ensures var (res, r') := Pushed(r, data);
      res == Ok(()) && DataOf(r', Borrow(Place(r.capacity, m), HeaderOf(d))) == Overlaid(d, data)
  {
    PushCarries(r, h, t, q, data);
    SamePlace(r.capacity, m);
    OverwriteShows(r.slots[Place(r.capacity, m)].area, d, data);
  }

  lemma {:induction false} SamePlace(cap: nat, h: nat)
    requires cap > 0 && (U64 % cap == 0 || h + cap < U64)
    ensures Place(cap, h + cap) == Place(cap, h)
  {
    PlaceIsMod(cap, h);
    PlaceIsMod(cap, h + cap);
    ModTurn(h, cap);
  }

  // --- past the wrap ---

  function Pushes(d: bytes, n: nat): seq<Op> { seq(n, _ => Push(d)) }

  lemma {:induction false} RingRunAppend(r: Ring, a: seq<Op>, b: seq<Op>)
    requires Shaped(r)
    ensures RingRun(r, a + b).0 == RingRun(r, a).0 + RingRun(RingRun(r, a).1, b).0
    decreases |a|
  {
    if a == [] {
      assert a + b == b;
    } else {
      assert (a + b)[0] == a[0] && (a + b)[1..] == a[1..] + b;
      var (s, r') := RingStep(r, a[0]);
      RingRunAppend(r', a[1..], b);
      Assoc3([s], RingRun(r', a[1..]).0, RingRun(RingRun(r, a).1, b).0);
    }
  }

  lemma {:induction false} Assoc3(a: seq<Seen>, b: seq<Seen>, c: seq<Seen>)
    ensures a + b + c == a + (b + c)
  {
  }

  lemma {:induction false} QueueRunAppend(q: seq<bytes>, cap: nat, a: seq<Op>, b: seq<Op>)
    ensures QueueRun(q, cap, a + b).0 == QueueRun(q, cap, a).0 + QueueRun(QueueRun(q, cap, a).1, cap, b).0
    decreases |a|
  {
    if a == [] {
      assert a + b == b;
    } else {
      assert (a + b)[0] == a[0] && (a + b)[1..] == a[1..] + b;
      var (s, q') := QueueStep(q, cap, a[0]);
      QueueRunAppend(q', cap, a[1..], b);
      Assoc3([s], QueueRun(q', cap, a[1..]).0, QueueRun(QueueRun(q, cap, a).1, cap, b).0);
    }
  }

  function Copies(d: bytes, n: nat): seq<bytes> { seq(n, _ => d) }

  /** Filling a ring up to the wrap. */
  lemma {:induction false} FillBoth(r: Ring, h: nat, t: nat, q: seq<bytes>, d: bytes, n: nat)
    requires Carries(r, h, t, q) && OpFits(r, Push(d)) && |q| + n <= r.capacity && t + n <= U64
    ensures Carries(RingRun(r, Pushes(d, n)).1, h, t + n, q + Copies(d, n))
    ensures RingRun(r, Pushes(d, n)).0 == QueueRun(q, r.capacity, Pushes(d, n)).0
    ensures QueueRun(q, r.capacity, Pushes(d, n)).1 == q + Copies(d, n)
    decreases n
  {
    if n == 0 {
      assert q + Copies(d, n) == q;
    } else {
      assert Pushes(d, n)[1..] == Pushes(d, n - 1);
      assert q + [d] + Copies(d, n - 1) == q + Copies(d, n);
      PushCarries(r, h, t, q, d);
      FillBoth(Pushed(r, d).1, h, t + 1, q + [d], d, n - 1);
    }
  }

  lemma {:induction false} PushThenPop(r: Ring, h: nat, q: seq<bytes>, e: bytes)
    requires Carries(r, h, U64, q) && q != [] && |q| < r.capacity && OpFits(r, Push(e))
    requires Place(r.capacity, h) == Place(r.capacity, U64)
    ensures RingRun(r, [Push(e), Pop]).0 == [Sent(true), Taken(Some(e))]
  {
    PendingIs(r, h, U64, q);
    assert Wrap(U64) == 0 by { ModUnique(1, 0, U64); }
    var (s1, r1) := RingStep(r, Push(e));
    var (s2, r2) := RingStep(r1, Pop);
    assert s1 == Sent(true) && r1.tail == Wrap(1);
    WrapIs(1);
    WrapIs(h);
    assert r1.head == h >= 2;
    assert s2 == Taken(Some(e)) by { OverwriteStarts(r.slots[0].area, e); }
    RunTwo(r, Push(e), Pop);
  }

  lemma {:induction false} RunTwo(r: Ring, a: Op, b: Op)
    requires Shaped(r)
    ensures var (s1, r1) := RingStep(r, a);
      RingRun(r, [a, b]).0 == [s1, RingStep(r1, b).0]
  {
    var (s1, r1) := RingStep(r, a);
    var (s2, r2) := RingStep(r1, b);
    assert [a, b][1..] == [b] && [b][1..] == [];
    assert RingRun(r2, []) == ([], r2);
    assert RingRun(r1, [b]) == ([s2] + [], r2);
    assert RingRun(r, [a, b]) == ([s1] + ([s2] + []), r2);
  }

  lemma {:induction false} OverwriteStarts(area: bytes, e: bytes)
    requires |e| <= |area|
    ensures |Overwrite(area, e)| == |area| && Overwrite(area, e)[..|e|] == e
  {
  }

  /** For a capacity that does not divide 2^64 the ring stops behaving like the
      queue at the wrap: this run pops the wrong frame. */
  lemma {:induction false} WrapCorrupts(r: Ring, d: bytes, e: bytes)
    requires Shaped(r) && U64 % r.capacity != 0 && r.head == r.tail == U64 - U64 % r.capacity
    requires OpFits(r, Push(d)) && OpFits(r, Push(e)) && d != e
    ensures var ops := Pushes(d, U64 % r.capacity) + [Push(e), Pop];
      RingRun(r, ops).0 != QueueRun([], r.capacity, ops).0
  {
    var h := U64 - U64 % r.capacity;
    Collide(r.capacity, h);
    MeetAtWrap(r, h, U64 % r.capacity, d, e);
  }

  lemma {:induction false} MeetAtWrap(r: Ring, h: nat, n: nat, d: bytes, e: bytes)
    requires Shaped(r) && 0 < n < r.capacity && h + n == U64 && r.head == r.tail == h
    requires Place(r.capacity, h) == Place(r.capacity, U64)
    requires OpFits(r, Push(d)) && OpFits(r, Push(e)) && d != e
    ensures var ops := Pushes(d, n) + [Push(e), Pop];
      RingRun(r, ops).0 != QueueRun([], r.capacity, ops).0
  {
    var cap, a, b := r.capacity, Pushes(d, n), [Push(e), Pop];
    WrapIs(h);
    FillBoth(r, h, h, [], d, n);
    assert [] + Copies(d, n) == Copies(d, n);
    PushThenPop(RingRun(r, a).1, h, Copies(d, n), e);
    QueueTwo(Copies(d, n), cap, e);
    RingRunAppend(r, a, b);
    QueueRunAppend([], cap, a, b);
    LastDiffers(RingRun(r, a).0, Sent(true), Taken(Some(e)), Taken(Some(d)));
  }

  lemma {:induction false} LastDiffers(seen: seq<Seen>, s: Seen, x: Seen, y: Seen)
    requires x != y
    ensures seen + [s, x] != seen + [s, y]
  {
    assert (seen + [s, x])[|seen| + 1] != (seen + [s, y])[|seen| + 1];
  }

  lemma {:induction false} QueueTwo(q: seq<bytes>, cap: nat, e: bytes)
    requires 0 < |q| < cap
    ensures QueueRun(q, cap, [Push(e), Pop]).0 == [Sent(true), Taken(Some(q[0]))]
  {
    assert [Push(e), Pop][1..] == [Pop] && [Pop][1..] == [];
    assert (q + [e])[0] == q[0];
    assert QueueRun(q + [e], cap, [Pop]).0 == [Taken(Some(q[0]))];
  }

  /** n times a push and a pop. */
  function Turns(d: bytes, n: nat): seq<Op> { if n == 0 then [] else [Push(d), Pop] + Turns(d, n - 1) }

  lemma {:induction false} TurnsSplit(d: bytes, n: nat)
    requires n > 0
    ensures var ops := Turns(d, n);
      |ops| >= 2 && ops[0] == Push(d) && ops[1..] != [] && ops[1..][0] == Pop && ops[1..][1..] == Turns(d, n - 1)
  {
    assert Turns(d, n)[1..][1..] == Turns(d, n)[2..];
  }

  /** They move both counters on by n and leave an empty ring. */
  lemma {:induction false} TurnsReach(r: Ring, h: nat, d: bytes, n: nat)
    requires Carries(r, h, h, []) && OpFits(r, Push(d)) && h + n <= U64
    ensures RingRun(r, Turns(d, n)).0 == QueueRun([], r.capacity, Turns(d, n)).0
    ensures QueueRun([], r.capacity, Turns(d, n)).1 == []
    ensures Carries(RingRun(r, Turns(d, n)).1, h + n, h + n, [])
    decreases n
  {
    if n > 0 {
      var ops := Turns(d, n);
      TurnsSplit(d, n);
      var r1, r2 := OneTurn(r, h, d);
      TurnsReach(r2, h + 1, d, n - 1);
      assert h + 1 + (n - 1) == h + n;
      assert RingRun(r, ops).0 == [Sent(true), Taken(Some(d))] + RingRun(r2, Turns(d, n - 1)).0
          && RingRun(r, ops).1 == RingRun(r2, Turns(d, n - 1)).1 by {
        RunSplits(r, ops);
        RunSplits(r1, ops[1..]);
      }
      QueueTurn(d, r.capacity, n);
    }
  }

  lemma {:induction false} OneTurn(r: Ring, h: nat, d: bytes) returns (r1: Ring, r2: Ring)
    requires Carries(r, h, h, []) && OpFits(r, Push(d)) && h < U64
    ensures RingStep(r, Push(d)) == (Sent(true), r1) && Shaped(r1) && RingStep(r1, Pop) == (Taken(Some(d)), r2)
    ensures r2.capacity == r.capacity && r2.slotSize == r.slotSize && Carries(r2, h + 1, h + 1, [])
  {
    PushCarries(r, h, h, [], d);
    r1 := Pushed(r, d).1;
    assert [] + [d] == [d];
    PopCarries(r1, h, h + 1, [d]);
    r2 := Popped(r1).1;
    assert [d][1..] == [];
  }

  lemma {:induction false} QueueTurn(d: bytes, cap: nat, n: nat)
    requires n > 0 && cap > 0
    ensures var x, y := QueueRun([], cap, Turns(d, n)), QueueRun([], cap, Turns(d, n - 1));
      x.0 == [Sent(true), Taken(Some(d))] + y.0 && x.1 == y.1
  {
    var ops := Turns(d, n);
    TurnsSplit(d, n);
    assert [] + [d] == [d] && [d][1..] == [];
    assert QueueRun([d], cap, ops[1..]).0 == [Taken(Some(d))] + QueueRun([], cap, ops[1..][1..]).0;
  }

  /** Every run from here looks the same on the ring and on the queue. */
  ghost predicate ActsAsQueue(r: Ring)
    requires Shaped(r)
  {
    forall ops :: OpsFit(r, ops) ==> RingRun(r, ops).0 == QueueRun([], r.capacity, ops).0
  }

  /** What fails from a later state fails after the turns that lead to it. */
  lemma {:induction false} FailsLater(r: Ring, a: seq<Op>, b: seq<Op>)
    requires Shaped(r) && OpsFit(r, a) && OpsFit(r, b)
    requires RingRun(r, a).0 == QueueRun([], r.capacity, a).0 && QueueRun([], r.capacity, a).1 == []
    requires RingRun(RingRun(r, a).1, b).0 != QueueRun([], r.capacity, b).0
    ensures OpsFit(r, a + b) && RingRun(r, a + b).0 != QueueRun([], r.capacity, a + b).0
  {
    RingRunAppend(r, a, b);
    QueueRunAppend([], r.capacity, a, b);
    SameFront(RingRun(r, a).0, RingRun(RingRun(r, a).1, b).0, QueueRun([], r.capacity, b).0);
  }

  lemma {:induction false} SameFront(a: seq<Seen>, x: seq<Seen>, y: seq<Seen>)
    requires x != y
    ensures a + x != a + y
  {
    assert (a + x)[|a|..] == x && (a + y)[|a|..] == y;
  }

  lemma {:induction false} FailingRun(r: Ring, m: nat) returns (ops: seq<Op>)
    requires Shaped(r) && r.head == 0 && r.tail == 0 && m == U64 % r.capacity && m != 0
    ensures OpsFit(r, ops) && RingRun(r, ops).0 != QueueRun([], r.capacity, ops).0
  {
    var n: nat := U64 - m;
    var a, b := Turns([], n), Pushes([], m) + [Push([0]), Pop];
    FreshCarries(r);
    TurnsReach(r, 0, [], n);
    WrapIs(n);
    assert RingRun(RingRun(r, a).1, b).0 != QueueRun([], r.capacity, b).0 by {
      WrapCorrupts(RingRun(r, a).1, [], [0]);
    }
    TurnsFit(r, n);
    FailsLater(r, a, b);
    ops := a + b;
  }

  lemma {:induction false} TurnsFit(r: Ring, n: nat)
    requires Shaped(r)
    ensures OpsFit(r, Turns([], n))
  {
    if n > 0 { TurnsFit(r, n - 1); }
  }

  /** A fresh ring behaves like the queue in every run exactly when its capacity
      divides 2^64. */
  lemma {:induction false} QueueExactly(r: Ring)
    requires Shaped(r) && r.head == 0 && r.tail == 0
    ensures ActsAsQueue(r) <==> U64 % r.capacity == 0
  {
    if U64 % r.capacity == 0 {
      FreshCarries(r);
      forall ops | OpsFit(r, ops)
        ensures RingRun(r, ops).0 == QueueRun([], r.capacity, ops).0
      {
        RingRefinesQueue(r, 0, 0, [], ops);
      }
    } else {
      var ops := FailingRun(r, U64 % r.capacity);
    }
  }

  // --- the copied slot header ---

  /** For a frame, the opcode in the slot header is that of the payload, and the
      byte called `flags_lo` is the high byte of the flags. */
  lemma {:induction false} SlotHeaderOfFrame(h: Header, payload: bytes)
    requires HeaderFits(h) && payload != []
    ensures HeaderOf(HeaderBytes(h) + payload)
         == SlotHeader(HEADER_SIZE + |payload|, payload[0], h.flags / 256)
  {
    var s := HeaderBytes(h) + payload;
    assert |HeaderBytes(h)| == HEADER_SIZE by { HeaderReadBack(h, payload); }
    assert s[6] == Pack(2, h.flags)[0] by {
      PrefixSlices(h);
      assert s[6] == HeaderPrefix(h)[6] == HeaderPrefix(h)[6..8][0];
    }
    HighByte(h.flags);
  }

  lemma {:induction false} HighByte(n: int)
    requires InRange(2, n)
    ensures Pack(2, n)[0] == n / 256
  {
    Pow256Values();
    assert ToBE(2, n) == ToBE(1, n / 256) + [n % 256];
    assert ToBE(1, n / 256) == ToBE(0, n / 256 / 256) + [n / 256 % 256];
  }
}
