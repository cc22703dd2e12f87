/** The capability table: registering, unregistering and looking up by 16-bit
    index. */
module Capability {
  import opened Wire

  const MAX_CAPABILITY: nat := 65535

  datatype Kind = Function | Resource | Remote | Model | Vendor(v: byte)

  datatype Capability = Capability(name: bytes, kind: Kind, payload: Option<nat>)

  type Slots = seq<Option<Capability>>

  datatype TableError = CapabilityOverflow | CapabilityInvalid

  datatype Table = Table(slots: Slots, next: nat)

  function Empty(n: nat): Slots { seq(n, _ => None) }

  /** `new`. */
  function Fresh(capacity: nat): Table {
    var cap := if capacity < MAX_CAPABILITY then capacity else MAX_CAPABILITY;
    Table(Empty(if cap < 1 then 1 else cap), 1)
  }

  /** A free slot; slot 0 is reserved. */
  predicate Free(slots: Slots, i: nat) { 1 <= i < |slots| && slots[i].None? }

  function Get(t: Table, idx: nat): Option<Capability> { if idx < |t.slots| then t.slots[idx] else None }

  /** The first free slot from i on, or the number of slots. */
  function FirstFree(slots: Slots, i: nat): (r: nat)
    requires i <= |slots|
    ensures i <= r <= |slots|
    ensures r < |slots| ==> slots[r].None?
    ensures forall j :: i <= j < r ==> slots[j].Some?
    decreases |slots| - i
  {
    if i == |slots| || slots[i].None? then i else FirstFree(slots, i + 1)
  }

  /** `register`. With no free slot the watermark is taken as the index, whether
      or not that slot is in use. */
  function Registered(t: Table, cap: Capability): (Result<nat, TableError>, Table)
    requires |t.slots| >= 1
  {
    var i := FirstFree(t.slots, 1);
    if i < |t.slots| then (Ok(i), t.(slots := t.slots[i := Some(cap)]))
    else if |t.slots| >= MAX_CAPABILITY then (Err(CapabilityOverflow), t)
    else
      var next := (t.next + 1) % U16;
      if t.next >= |t.slots| then (Ok(t.next), Table(t.slots + [Some(cap)], next))
      else (Ok(t.next), Table(t.slots[t.next := Some(cap)], next))
  }

  /** `unregister`. */
  function Unregistered(t: Table, idx: nat): (Result<Capability, TableError>, Table) {
    if idx == 0 || idx >= |t.slots| || t.slots[idx].None? then (Err(CapabilityInvalid), t)
    else (Ok(t.slots[idx].value), t.(slots := t.slots[idx := None]))
  }

  // --- the object ---

  class CapabilityTable {
    var slots: Slots
    var next: nat

    function View(): Table
      reads this
    {
      Table(slots, next)
    }

    constructor (capacity: nat)
      ensures View() == Fresh(capacity)
    {
      var cap := if capacity < MAX_CAPABILITY then capacity else MAX_CAPABILITY;
      var all: Slots := [None];
      for i := 1 to if cap < 1 then 1 else cap
        invariant all == Empty(i)
      {
        all := all + [None];
      }
      slots, next := all, 1;
    }

    method Register(cap: Capability) returns (r: Result<nat, TableError>)
      requires |slots| >= 1
      modifies this
      ensures (r, View()) == Registered(old(View()), cap)
    {
      for i := 1 to |slots|
        invariant slots == old(slots) && next == old(next)
        invariant FirstFree(slots, 1) == FirstFree(slots, i)
      {
        if slots[i].None? {
          slots := slots[i := Some(cap)];
          return Ok(i);
        }
      }
      if |slots| >= MAX_CAPABILITY {
        return Err(CapabilityOverflow);
      }
      var idx := next;
      next := (next + 1) % U16;
      if idx >= |slots| {
        slots := slots + [Some(cap)];
      } else {
        slots := slots[idx := Some(cap)];
      }
      return Ok(idx);
    }

    method Unregister(idx: nat) returns (r: Result<Capability, TableError>)
      modifies this
      ensures (r, View()) == Unregistered(old(View()), idx)
    {
      if idx == 0 || idx >= |slots| || slots[idx].None? {
        return Err(CapabilityInvalid);
      }
      r := Ok(slots[idx].value);
      slots := slots[idx := None];
    }

    /** `find_by_name`: the lowest index that holds the name. */
    method FindByName(name: bytes) returns (r: Option<nat>)
      ensures r.Some? ==> r.value < |slots| && slots[r.value].Some? && slots[r.value].value.name == name
      ensures forall i :: 0 <= i < (if r.Some? then r.value else |slots|) ==>
                slots[i].Some? ==> slots[i].value.name != name
    {
      for i := 0 to |slots|
        invariant forall j :: 0 <= j < i ==> slots[j].Some? ==> slots[j].value.name != name
      {
        if slots[i].Some? && slots[i].value.name == name {
          return Some(i);
        }
      }
      return None;
    }
  }

  // --- runs ---

  datatype Op = Register(cap: Capability) | Unregister(idx: nat)

  function Step(t: Table, op: Op): Table
    requires |t.slots| >= 1
  {
    if op.Register? then Registered(t, op.cap).1 else Unregistered(t, op.idx).1
  }

  function Run(t: Table, ops: seq<Op>): (r: Table)
    requires |t.slots| >= 1
    ensures |r.slots| >= 1
    decreases |ops|
  {
    if ops == [] then t else Run(Step(t, ops[0]), ops[1..])
  }

  /** Slot 0 is empty, and the table is at its largest or grows at its end. */
  predicate Sound(t: Table) {
    1 <= |t.slots| <= MAX_CAPABILITY && t.slots[0].None? && (|t.slots| == MAX_CAPABILITY || t.next == |t.slots|)
  }

  lemma {:induction false} FreshSound(capacity: nat)
    ensures Sound(Fresh(capacity)) <==> capacity <= 1 || capacity >= 65535
  {
  }

  lemma {:induction false} StepSound(t: Table, op: Op)
    requires Sound(t)
    ensures Sound(Step(t, op))
  {
  }

  lemma {:induction false} RunSound(t: Table, ops: seq<Op>)
    requires Sound(t)
    ensures Sound(Run(t, ops))
    decreases |ops|
  {
    if ops != [] {
      StepSound(t, ops[0]);
      RunSound(Step(t, ops[0]), ops[1..]);
    }
  }

  /** What `register` should do: a free index that is not 0 gets the entry, and no
      other index changes; it fails only when every index from 1 to 65534 is in
      use, and then changes nothing. */
  ghost predicate RegistersWell(t: Table, cap: Capability)
    requires |t.slots| >= 1
  {
    var (r, t') := Registered(t, cap);
    if r.Ok? then
      && 0 < r.value < U16 && Get(t, r.value).None? && Get(t', r.value) == Some(cap)
      && forall j: nat :: j != r.value ==> Get(t', j) == Get(t, j)
    else r == Err(CapabilityOverflow) && t' == t && forall j: nat :: 1 <= j < 65535 ==> Get(t, j).Some?
  }

  lemma {:induction false} SoundRegistersWell(t: Table, cap: Capability)
    requires Sound(t)
    ensures RegistersWell(t, cap)
  {
  }

  /** Filling the free slots of a fresh table from 1 on. */
  function Filled(n: nat, k: nat, cap: Capability): Slots { seq(n, i => if 1 <= i <= k then Some(cap) else None) }

  function Repeat(op: Op, n: nat): seq<Op> { seq(n, _ => op) }

  lemma {:induction false} FillFrom(t: Table, cap: Capability, n: nat, k: nat, m: nat)
    requires t.slots == Filled(n, k, cap) && k + m < n
    ensures Run(t, Repeat(Register(cap), m)) == Table(Filled(n, k + m, cap), t.next)
    decreases m
  {
    if m > 0 {
      assert Repeat(Register(cap), m)[1..] == Repeat(Register(cap), m - 1);
      var i := FirstFree(t.slots, 1);
      assert t.slots[k + 1].None?;
      assert forall j :: 1 <= j <= k ==> t.slots[j].Some?;
      assert i == k + 1;
      var t' := Step(t, Register(cap));
      assert t'.slots == Filled(n, k + 1, cap);
      FillFrom(t', cap, n, k + 1, m - 1);
    }
  }

  /** A full table of a capacity in between overwrites the entry of index 1. */
  lemma {:induction false} GrowthOverwrites(capacity: nat, a: Capability, b: Capability)
    requires 1 < capacity < 65535
    ensures var t := Run(Fresh(capacity), Repeat(Register(a), capacity - 1));
      Get(t, 1) == Some(a) && Registered(t, b).0 == Ok(1) && Get(Registered(t, b).1, 1) == Some(b)
  {
    var t0 := Fresh(capacity);
    assert t0.slots == Filled(capacity, 0, a);
    FillFrom(t0, a, capacity, 0, capacity - 1);
    var t := Run(t0, Repeat(Register(a), capacity - 1));
    assert FirstFree(t.slots, 1) == capacity;
  }

  ghost predicate AlwaysWell(capacity: nat) {
    forall ops, cap :: RegistersWell(Run(Fresh(capacity), ops), cap)
  }

  /** Every run registers well exactly for capacities of at most 1 and of at least
      65535. */
  lemma {:induction false} AlwaysWellExactly(capacity: nat)
    ensures AlwaysWell(capacity) <==> capacity <= 1 || capacity >= 65535
  {
    if 1 < capacity < 65535 {
      var a := Capability([], Function, None);
      GrowthOverwrites(capacity, a, a);
      assert !RegistersWell(Run(Fresh(capacity), Repeat(Register(a), capacity - 1)), a);
    } else {
      forall ops, cap
        ensures RegistersWell(Run(Fresh(capacity), ops), cap)
      {
        FreshSound(capacity);
        RunSound(Fresh(capacity), ops);
        SoundRegistersWell(Run(Fresh(capacity), ops), cap);
      }
    }
  }

  /** Unregistering fails if and only if the index is 0 or holds nothing, and then
      changes nothing; otherwise it gives the entry out, and no other index
      changes. */
  lemma {:induction false} UnregisterExactly(t: Table, idx: nat)
    ensures var (r, t') := Unregistered(t, idx);
      && (r.Err? <==> idx == 0 || Get(t, idx).None?)
      && (r.Err? ==> r == Err(CapabilityInvalid) && t' == t)
      && (r.Ok? ==> Get(t, idx) == Some(r.value) && Get(t', idx).None? && forall j: nat :: j != idx ==> Get(t', j) == Get(t, j))
  {
  }

  /** Registering and then unregistering gives the entry back and restores every
      index. */
  lemma {:induction false} RegisterUnregister(t: Table, cap: Capability)
    requires Sound(t) && Registered(t, cap).0.Ok?
    ensures var (r, t1) := Registered(t, cap); var (c, t2) := Unregistered(t1, r.value);
      c == Ok(cap) && forall j: nat :: Get(t2, j) == Get(t, j)
  {
  }
}
