/** The Rust ring buffer with its wrapping counters, and the plain bounded
    queue of the in-process channel. */
module LocalRing {
  import opened Wire
  import opened Frame

  const SLOT_HEADER: nat := 8
  const MIN_SLOT: nat := 256
  const MAX_SLOT: nat := 0x10_0000

  datatype RingFault = Backpressure | PayloadTooLarge

  // --- one slot ---

  datatype SlotHeader = SlotHeader(payloadLen: nat, opcode: byte, flagsLo: byte)

  /** The metadata of a slot and the bytes behind it. */
  datatype Slot = Slot(hdr: SlotHeader, area: bytes)

  /** The copies that dispatch reads: the opcode of the frame, and its byte 6. */
  function HeaderOf(data: bytes): SlotHeader {
    SlotHeader(|data|, if |data| > HEADER_SIZE then data[HEADER_SIZE] else 0, if |data| > 6 then data[6] else 0)
  }

  /** Bytes of an earlier, longer frame stay behind the new one. */
  function Overwrite(area: bytes, data: bytes): bytes
    requires |data| <= |area|
  {
    data + area[|data|..]
  }

  // --- counters of 64 bits ---

  function Wrap(n: nat): (r: nat)
    ensures r < U64
  {
    n % U64
  }

  function WrappingSub(a: nat, b: nat): (r: nat)
    requires a < U64 && b < U64
    ensures r < U64
  {
    if a >= b then a - b else a - b + U64
  }

  // --- the ring as a value ---

  datatype Ring = Ring(capacity: nat, slotSize: nat, head: nat, tail: nat, slots: seq<Slot>)

  /** What `new` establishes and every operation keeps. */
  predicate Shaped(r: Ring) {
    && 0 < r.capacity < U64 && MIN_SLOT <= r.slotSize <= MAX_SLOT
    && r.head < U64 && r.tail < U64 && |r.slots| == r.capacity
    && forall i :: 0 <= i < |r.slots| ==> |r.slots[i].area| == r.slotSize - SLOT_HEADER
  }

  /** `pending_slots`. */
  function Pending(r: Ring): nat
    requires Shaped(r)
  {
    WrappingSub(r.tail, r.head)
  }

  /** `push`: the ring is checked before the size of the data. */
  function Pushed(r: Ring, data: bytes): (Result<(), RingFault>, Ring)
    requires Shaped(r)
  {
    if Pending(r) >= r.capacity then (Err(Backpressure), r)
    else if |data| > r.slotSize - SLOT_HEADER then (Err(PayloadTooLarge), r)
    else
      var i := r.tail % r.capacity;
      (Ok(()), r.(slots := r.slots[i := Slot(HeaderOf(data), Overwrite(r.slots[i].area, data))], tail := Wrap(r.tail + 1)))
  }

  /** A popped frame: the place of its slot, and a copy of the slot header. */
  datatype Borrow = Borrow(slot: nat, hdr: SlotHeader)

  /** `try_pop`: the slot is released before the borrow is read. */
  function Popped(r: Ring): (Option<Borrow>, Ring)
    requires Shaped(r)
  {
    if r.head == r.tail then (None, r)
    else
      var i := r.head % r.capacity;
      (Some(Borrow(i, r.slots[i].hdr)), r.(head := Wrap(r.head + 1)))
  }

  /** `RingBorrow::data`, read from the ring as it is now. */
  function DataOf(r: Ring, b: Borrow): bytes {
    if b.slot < |r.slots| && b.hdr.payloadLen <= |r.slots[b.slot].area| then r.slots[b.slot].area[..b.hdr.payloadLen]
    else []
  }

  // --- the object ---

  class LocalRingBuffer {
    const capacity: nat
    const slotSize: nat
    var head: nat
    var tail: nat
    const slots: array<Slot>

    function View(): Ring
      reads this, slots
    {
      Ring(capacity, slotSize, head, tail, slots[..])
    }

    /** `new`, with the assertions it makes. */
    constructor (capacity: nat, slotSize: nat)
      requires 0 < capacity < U64 && 256 <= slotSize <= 0x10_0000
      ensures Shaped(View()) && fresh(slots)
      ensures this.capacity == capacity && this.slotSize == slotSize && head == 0 && tail == 0
    {
      this.capacity, this.slotSize := capacity, slotSize;
      head, tail := 0, 0;
      var blank: bytes := seq(slotSize - SLOT_HEADER, _ => 0);
      slots := new Slot[capacity](_ => Slot(SlotHeader(0, 0, 0), blank));
    }

    /** `reserve`. */
    method Reserve() returns (i: Option<nat>)
      requires Shaped(View())
      ensures i == if Pending(View()) >= capacity then None else Some(tail)
    {
      var t, h := tail, head;
      if WrappingSub(t, h) >= capacity {
        return None;
      }
      return Some(t);
    }

    method Push(data: bytes) returns (r: Result<(), RingFault>)
      requires Shaped(View())
      modifies this`tail, slots
      ensures Shaped(View())
      ensures (r, View()) == Pushed(old(View()), data)
      ensures r.Ok? <==> old(Pending(View())) < capacity && |data| <= slotSize - 8
      ensures r == Err(Backpressure) <==> old(Pending(View())) >= capacity
      ensures r.Ok? ==> slots[old(tail) % capacity].area[..|data|] == data
    {
      var reserved := Reserve();
      if reserved.None? {
        return Err(Backpressure);
      }
      if |data| > slotSize - SLOT_HEADER {
        return Err(PayloadTooLarge);
      }
      var i := reserved.value % capacity;
      ghost var was := slots[..];
      slots[i] := Slot(HeaderOf(data), Overwrite(slots[i].area, data));
      assert slots[..] == was[i := slots[i]];
      tail := Wrap(tail + 1);
      return Ok(());
    }

    method TryPop() returns (b: Option<Borrow>)
      requires Shaped(View())
      modifies this`head
      ensures Shaped(View())
      ensures (b, View()) == Popped(old(View()))
    {
      if head == tail {
        return None;
      }
      var i := head % capacity;
      b := Some(Borrow(i, slots[i].hdr));
      head := Wrap(head + 1);
    }

    method Data(b: Borrow) returns (data: bytes)
      requires Shaped(View())
      ensures data == DataOf(View(), b)
    {
      data := if b.slot < slots.Length && b.hdr.payloadLen <= |slots[b.slot].area|
        then slots[b.slot].area[..b.hdr.payloadLen] else [];
    }
  }

  // --- the queue it should behave like ---

  function QueuePush(q: seq<bytes>, cap: nat, data: bytes): (bool, seq<bytes>) {
    if |q| >= cap then (false, q) else (true, q + [data])
  }

  function QueuePop(q: seq<bytes>): (Option<bytes>, seq<bytes>) {
    if q == [] then (None, q) else (Some(q[0]), q[1..])
  }

  /** One direction of an `InProcChannel`. */
  class LockedQueue {
    var queue: seq<bytes>
    const cap: nat

    constructor (cap: nat)
      ensures queue == [] && this.cap == cap
    {
      queue := [];
      this.cap := cap;
    }

    method Push(data: bytes) returns (ok: bool)
      modifies this
      ensures (ok, queue) == QueuePush(old(queue), cap, data)
    {
      if |queue| >= cap {
        return false;
      }
      queue := queue + [data];
      return true;
    }

    method Pop() returns (r: Option<bytes>)
      modifies this
      ensures (r, queue) == QueuePop(old(queue))
    {
      if queue == [] {
        return None;
      }
      r := Some(queue[0]);
      queue := queue[1..];
    }
  }
}
