/** Shared buffers: handles on reference-counted allocations, in every run of
    creating, cloning, dropping and converting them, on any number of threads. */
module Refcount {
  import opened Wire

  /** An allocation: its counter, the threads that saw the counter reach zero and
      have not freed yet, how often it was freed, and the handles that
      `into_vec` consumed without counting down. */
  datatype Alloc = Alloc(data: bytes, count: nat, pending: nat, freed: nat, leaked: nat)

  function Created(data: bytes): Alloc { Alloc(data, 1, 0, 0, 0) }

  function Cloned(a: Alloc): Alloc { a.(count := a.count + 1) }

  /** `fetch_sub` and the test of the previous value. */
  function Dropped(a: Alloc): Alloc
    requires a.count > 0
  {
    a.(count := a.count - 1, pending := if a.count == 1 then a.pending + 1 else a.pending)
  }

  function Freed(a: Alloc): Alloc
    requires a.pending > 0
  {
    a.(pending := a.pending - 1, freed := a.freed + 1)
  }

  /** `into_vec` on a shared handle: a copy, and no count down. */
  function Converted(a: Alloc): Alloc { a.(leaked := a.leaked + 1) }

  /** The counter block and the buffer behind a set of handles. */
  class SharedAlloc {
    const data: bytes
    var count: nat
    var freed: nat
    ghost var leaked: nat

    ghost function View(): Alloc
      reads this
    {
      Alloc(data, count, 0, freed, leaked)
    }

    /** `shared`. */
    constructor (data: bytes)
      ensures View() == Created(data)
    {
      this.data := data;
      count, freed, leaked := 1, 0, 0;
    }

    /** `clone`. */
    method Clone()
      modifies this
      ensures View() == Cloned(old(View()))
    {
      count := count + 1;
    }

    /** `drop`, with nothing in between its two steps. */
    method Drop()
      requires count > 0
      modifies this
      ensures var a := Dropped(old(View()));
        View() == if a.pending > 0 then Freed(a) else a
    {
      var prev := count;
      count := count - 1;
      if prev == 1 {
        freed := freed + 1;
      }
    }

    /** `into_vec`. */
    method IntoVec() returns (v: bytes)
      modifies this
      ensures v == data && View() == Converted(old(View()))
    {
      v := data;
      leaked := leaked + 1;
    }
  }

  // --- runs over many allocations ---

  /** The live handles, by the allocation they point to, and the allocations. */
  datatype State = State(handles: multiset<nat>, allocs: seq<Alloc>)

  /** Actions on a handle of allocation a; Free ends the drop that began it. */
  datatype Action = Shared(data: bytes) | Clone(a: nat) | Drop(a: nat) | Free(a: nat) | IntoVec(a: nat)

  /** Handles are values: an action needs one that is live. */
  predicate Enabled(s: State, x: Action) {
    match x
    case Shared(_) => true
    case Clone(a) => a in s.handles && a < |s.allocs|
    case Drop(a) => a in s.handles && a < |s.allocs| && s.allocs[a].count > 0
    case Free(a) => a < |s.allocs| && s.allocs[a].pending > 0
    case IntoVec(a) => a in s.handles && a < |s.allocs|
  }

  function Step(s: State, x: Action): State {
    if !Enabled(s, x) then s
    else
      match x
      case Shared(d) => State(s.handles + multiset{|s.allocs|}, s.allocs + [Created(d)])
      case Clone(a) => State(s.handles + multiset{a}, s.allocs[a := Cloned(s.allocs[a])])
      case Drop(a) => State(s.handles - multiset{a}, s.allocs[a := Dropped(s.allocs[a])])
      case Free(a) => State(s.handles, s.allocs[a := Freed(s.allocs[a])])
      case IntoVec(a) => State(s.handles - multiset{a}, s.allocs[a := Converted(s.allocs[a])])
  }

  function Run(s: State, xs: seq<Action>): State
    decreases |xs|
  {
    if xs == [] then s else Run(Step(s, xs[0]), xs[1..])
  }

  const Start: State := State(multiset{}, [])

  /** The counter counts the live handles and those that were converted; freeing
      begins when it reaches zero, and only then. */
  predicate AllocOk(a: Alloc, live: nat) {
    a.count == live + a.leaked && a.pending + a.freed == if a.count == 0 then 1 else 0
  }

  ghost predicate Inv(s: State) {
    && (forall a :: a in s.handles ==> a < |s.allocs|)
    && (forall a :: 0 <= a < |s.allocs| ==> AllocOk(s.allocs[a], s.handles[a]))
  }

  lemma {:induction false} StepInv(s: State, x: Action)
    requires Inv(s)
    ensures Inv(Step(s, x))
  {
    if Enabled(s, x) {
      var s' := Step(s, x);
      assert s.handles[|s.allocs|] == 0;
      forall a | 0 <= a < |s'.allocs|
        ensures AllocOk(s'.allocs[a], s'.handles[a])
      {
        if a < |s.allocs| { assert AllocOk(s.allocs[a], s.handles[a]); }
      }
    }
  }

  lemma {:induction false} RunInv(s: State, xs: seq<Action>)
    requires Inv(s)
    ensures Inv(Run(s, xs))
    decreases |xs|
  {
    if xs != [] {
      StepInv(s, xs[0]);
      RunInv(Step(s, xs[0]), xs[1..]);
    }
  }

  /** A live handle always finds its allocation, with a count above zero, so
      every action on a live handle is enabled. */
  lemma {:induction false} LiveHandlesCount(s: State, a: nat)
    requires Inv(s) && a in s.handles
    ensures a < |s.allocs| && s.allocs[a].count > 0
  {
    assert AllocOk(s.allocs[a], s.handles[a]);
  }

  /** In every run: an allocation is freed at most once, and never, nor is it
      about to be, while a handle on it is live. */
  lemma {:induction false} FreedOnceNeverLive(xs: seq<Action>, a: nat)
    requires a < |Run(Start, xs).allocs|
    ensures var s := Run(Start, xs); var x := s.allocs[a];
      && x.freed + x.pending <= 1
      && (a in s.handles ==> x.freed == 0 && x.pending == 0)
  {
    RunInv(Start, xs);
    var s := Run(Start, xs);
    assert AllocOk(s.allocs[a], s.handles[a]);
  }

  /** It is freed, or about to be, exactly when no handle is left, unless a
      shared handle on it was converted: then it is never freed. */
  lemma {:induction false} FreedExactlyAtLastDrop(xs: seq<Action>, a: nat)
    requires a < |Run(Start, xs).allocs|
    ensures var s := Run(Start, xs); var x := s.allocs[a];
      x.freed + x.pending == 1 <==> a !in s.handles && x.leaked == 0
  {
    RunInv(Start, xs);
    var s := Run(Start, xs);
    assert AllocOk(s.allocs[a], s.handles[a]);
  }

  predicate NoIntoVec(xs: seq<Action>, a: nat) { forall i :: 0 <= i < |xs| ==> xs[i] != IntoVec(a) }

  lemma {:induction false} LeaksOnlyByConverting(s: State, xs: seq<Action>, a: nat)
    requires NoIntoVec(xs, a) && (a < |s.allocs| ==> s.allocs[a].leaked == 0)
    ensures var t := Run(s, xs); a < |t.allocs| ==> t.allocs[a].leaked == 0
    decreases |xs|
  {
    if xs != [] {
      var s' := Step(s, xs[0]);
      assert xs[0] != IntoVec(a);
      assert a < |s'.allocs| ==> s'.allocs[a].leaked == 0;
      LeaksOnlyByConverting(s', xs[1..], a);
    }
  }

  /** In every run without `into_vec` on a handle of it, an allocation is freed
      exactly when its last handle is dropped. */
  lemma {:induction false} FreedAtLastDrop(xs: seq<Action>, a: nat)
    requires a < |Run(Start, xs).allocs| && NoIntoVec(xs, a)
    ensures var s := Run(Start, xs); var x := s.allocs[a];
      x.freed + x.pending == 1 <==> a !in s.handles
  {
    LeaksOnlyByConverting(Start, xs, a);
    FreedExactlyAtLastDrop(xs, a);
  }

  lemma {:induction false} LeaksStay(s: State, xs: seq<Action>, a: nat)
    requires a < |s.allocs|
    ensures a < |Run(s, xs).allocs| && Run(s, xs).allocs[a].leaked >= s.allocs[a].leaked
    ensures Run(s, xs).allocs[a].data == s.allocs[a].data
    decreases |xs|
  {
    if xs != [] {
      StepKeeps(s, xs[0], a);
      LeaksStay(Step(s, xs[0]), xs[1..], a);
    }
  }

  lemma {:induction false} StepKeeps(s: State, x: Action, a: nat)
    requires a < |s.allocs|
    ensures a < |Step(s, x).allocs| && Step(s, x).allocs[a].leaked >= s.allocs[a].leaked
    ensures Step(s, x).allocs[a].data == s.allocs[a].data
  {
  }

  /** After `into_vec` on a shared handle the allocation is never freed. */
  lemma {:induction false} ConvertedIsNeverFreed(xs: seq<Action>, ys: seq<Action>, a: nat)
    requires Enabled(Run(Start, xs), IntoVec(a))
    ensures var s := Run(Step(Run(Start, xs), IntoVec(a)), ys);
      a < |s.allocs| && s.allocs[a].freed == 0 && s.allocs[a].pending == 0
  {
    var s0 := Run(Start, xs);
    var s1 := Step(s0, IntoVec(a));
    var s := Run(s1, ys);
    RunInv(Start, xs);
    StepInv(s0, IntoVec(a));
    RunInv(s1, ys);
    LeaksStay(s1, ys, a);
    assert AllocOk(s.allocs[a], s.handles[a]);
  }
}
