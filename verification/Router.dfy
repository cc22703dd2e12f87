/** The router and the connection: which handler a packet goes to, and how
    queued packets are drained. */
module Router {
  import opened Wire
  import opened Modular
  import opened Operands

  datatype Strategy = RoundRobin | Direct

  datatype RouteError = NoHandler | Failed(code: nat)

  /** The part of a packet that routing looks at, and the rest as one value. */
  datatype Packet = Packet(operands: seq<Operand>, body: nat)

  type Served = Result<Packet, RouteError>

  /** A handler is a state, and a call gives the next state and a result. */
  type Serve<!H> = (H, Packet) -> (H, Served)

  /** Handlers and, side by side, their capability references. */
  datatype Routes<H> = Routes(strategy: Strategy, handlers: seq<H>, cursor: nat, caps: seq<int>)

  predicate Aligned<H>(r: Routes<H>) { |r.handlers| == |r.caps| && r.cursor < U64 }

  // --- picking ---

  /** Operand j is a reference, tag 0x15, to the capability of handler i. */
  predicate Matches(ops: seq<Operand>, caps: seq<int>, j: nat, i: nat) {
    j < |ops| && i < |caps| && ops[j].Fixed? && ops[j].tag == 0x15 && caps[i] == ops[j].n
  }

  predicate Unmatched(ops: seq<Operand>, caps: seq<int>, j: nat) {
    forall i: nat :: i < |caps| ==> !Matches(ops, caps, j, i)
  }

  /** The first reference that has a handler decides, and its first handler. */
  ghost predicate FirstMatch(ops: seq<Operand>, caps: seq<int>, j: nat, i: nat) {
    && Matches(ops, caps, j, i)
    && (forall j': nat :: j' < j ==> Unmatched(ops, caps, j'))
    && (forall i': nat :: i' < i ==> !Matches(ops, caps, j, i'))
  }

  /** The first handler of a capability, or the number of handlers. */
  function IndexOf(caps: seq<int>, cap: int): (i: nat)
    ensures i <= |caps| && (i < |caps| ==> caps[i] == cap)
    ensures forall i' :: 0 <= i' < i ==> caps[i'] != cap
  {
    if caps == [] || caps[0] == cap then 0 else 1 + IndexOf(caps[1..], cap)
  }

  function DirectPick(ops: seq<Operand>, caps: seq<int>): (r: Option<nat>)
    ensures r.Some? ==> r.value < |caps|
  {
    if ops == [] then None
    else if ops[0].Fixed? && ops[0].tag == REF && IndexOf(caps, ops[0].n) < |caps| then Some(IndexOf(caps, ops[0].n))
    else DirectPick(ops[1..], caps)
  }

  lemma {:induction false} IndexStep(caps: seq<int>, cap: int, i: nat)
    requires i <= |caps| && forall i' :: 0 <= i' < i ==> caps[i'] != cap
    ensures i < |caps| && caps[i] == cap ==> IndexOf(caps, cap) == i
    ensures i == |caps| ==> IndexOf(caps, cap) == |caps|
  {
  }

  /** The two loops of a direct pick. */
  method FindDirect(ops: seq<Operand>, caps: seq<int>) returns (r: Option<nat>)
    ensures r == DirectPick(ops, caps)
  {
    assert ops[0..] == ops;
    for j := 0 to |ops|
      invariant DirectPick(ops, caps) == DirectPick(ops[j..], caps)
    {
      assert ops[j..][1..] == ops[j + 1..];
      if ops[j].Fixed? && ops[j].tag == REF {
        for i := 0 to |caps|
          invariant forall i' :: 0 <= i' < i ==> caps[i'] != ops[j].n
        {
          if caps[i] == ops[j].n {
            IndexStep(caps, ops[j].n, i);
            return Some(i);
          }
        }
        IndexStep(caps, ops[j].n, |caps|);
      }
    }
    return None;
  }

  /** A direct pick is the first handler of the first reference that has one, and
      nothing exactly when no reference has a handler. */
  lemma {:induction false} DirectPickExactly(ops: seq<Operand>, caps: seq<int>)
    ensures var r := DirectPick(ops, caps);
      && (r.Some? ==> exists j: nat :: FirstMatch(ops, caps, j, r.value))
      && (r.None? ==> forall j: nat :: j < |ops| ==> Unmatched(ops, caps, j))
  {
    if ops != [] {
      var i := IndexOf(caps, if ops[0].Fixed? then ops[0].n else 0);
      if ops[0].Fixed? && ops[0].tag == REF && i < |caps| {
        assert FirstMatch(ops, caps, 0, i);
      } else {
        assert Unmatched(ops, caps, 0);
        var t, r := ops[1..], DirectPick(ops[1..], caps);
        DirectPickExactly(t, caps);
        if r.Some? {
          var j: nat :| FirstMatch(t, caps, j, r.value);
          MatchShifts(ops, caps, j, r.value);
        } else {
          forall j: nat | j < |ops|
            ensures Unmatched(ops, caps, j)
          {
            if j > 0 { UnmatchedShifts(ops, caps, j); }
          }
        }
      }
    }
  }

  lemma {:induction false} UnmatchedShifts(ops: seq<Operand>, caps: seq<int>, j: nat)
    requires 0 < j < |ops| && Unmatched(ops[1..], caps, j - 1)
    ensures Unmatched(ops, caps, j)
  {
    forall i: nat | i < |caps|
      ensures !Matches(ops, caps, j, i)
    {
      assert !Matches(ops[1..], caps, j - 1, i);
    }
  }

  lemma {:induction false} MatchShifts(ops: seq<Operand>, caps: seq<int>, j: nat, i: nat)
    requires ops != [] && Unmatched(ops, caps, 0) && FirstMatch(ops[1..], caps, j, i)
    ensures FirstMatch(ops, caps, j + 1, i)
  {
    var k := j + 1;
    forall j': nat | j' < k
      ensures Unmatched(ops, caps, j')
    {
      if j' > 0 {
        assert Unmatched(ops[1..], caps, j' - 1);
        UnmatchedShifts(ops, caps, j');
      }
    }
    forall i': nat | i' < i
      ensures !Matches(ops, caps, k, i')
    {
      assert !Matches(ops[1..], caps, j, i');
    }
  }

  // --- dispatching ---

  function RemoveAt<T>(s: seq<T>, i: nat): seq<T>
    requires i < |s|
  {
    s[..i] + s[i + 1..]
  }

  function InsertAt<T>(s: seq<T>, i: nat, x: T): seq<T>
    requires i <= |s|
  {
    s[..i] + [x] + s[i..]
  }

  /** Taking an element out and putting one back in its place moves no other. */
  lemma {:induction false} RemoveInsert<T>(s: seq<T>, i: nat, x: T)
    requires i < |s|
    ensures InsertAt(RemoveAt(s, i), i, x) == s[i := x]
  {
  }

  /** `pick`, and the cursor it leaves. */
  function PickOf<H>(r: Routes<H>, p: Packet): (i: Option<nat>)
    ensures Aligned(r) && i.Some? ==> i.value < |r.handlers|
  {
    if r.handlers == [] then None
    else if r.strategy.RoundRobin? then Some(r.cursor % |r.handlers|)
    else DirectPick(p.operands, r.caps)
  }

  function CursorAfter<H>(r: Routes<H>): nat {
    if r.handlers != [] && r.strategy.RoundRobin? then (r.cursor + 1) % U64 else r.cursor
  }

  /** `dispatch`: only the handler that was picked moves on. */
  function Dispatched<H>(serve: Serve<H>, r: Routes<H>, p: Packet): (x: (Served, Routes<H>))
    requires Aligned(r)
    ensures Aligned(x.1) && |x.1.handlers| == |r.handlers| && x.1.caps == r.caps && x.1.strategy == r.strategy
  {
    var i := PickOf(r, p);
    if i.None? then (Err(NoHandler), r.(cursor := CursorAfter(r)))
    else
      var (h, res) := serve(r.handlers[i.value], p);
      (res, r.(handlers := r.handlers[i.value := h], cursor := CursorAfter(r)))
  }

  /** A packet finds no handler if and only if there is none, or the router picks
      directly and no reference of the packet has one; nothing changes then but the
      cursor. Otherwise the handler that was picked decides the result. */
  lemma {:induction false} DispatchExactly<H>(serve: Serve<H>, r: Routes<H>, p: Packet)
    requires Aligned(r)
    ensures var (res, r') := Dispatched(serve, r, p); var i := PickOf(r, p);
      && (i.None? <==> r.handlers == [] || (r.strategy.Direct? && forall j: nat :: j < |p.operands| ==> Unmatched(p.operands, r.caps, j)))
      && (i.None? ==> res == Err(NoHandler) && r'.handlers == r.handlers)
      && (i.Some? ==> res == serve(r.handlers[i.value], p).1)
  {
    DirectPickExactly(p.operands, r.caps);
    if r.handlers != [] && r.strategy.Direct? && DirectPick(p.operands, r.caps).Some? {
      var i := DirectPick(p.operands, r.caps).value;
      var j: nat :| FirstMatch(p.operands, r.caps, j, i);
      assert Matches(p.operands, r.caps, j, i);
      assert !Unmatched(p.operands, r.caps, j);
    }
  }

  class Router<H> {
    const strategy: Strategy
    var handlers: seq<H>
    var cursor: nat
    var caps: seq<int>

    function View(): Routes<H>
      reads this
    {
      Routes(strategy, handlers, cursor, caps)
    }

    constructor (strategy: Strategy)
      ensures View() == Routes(strategy, [], 0, []) && Aligned(View())
    {
      this.strategy := strategy;
      handlers, cursor, caps := [], 0, [];
    }

    /** `add_capability_handler`; `add_handler` passes reference 0. */
    method Add(cap: int, h: H) returns (idx: nat)
      requires Aligned(View())
      modifies this
      ensures Aligned(View()) && idx == |old(handlers)|
      ensures View() == Routes(strategy, old(handlers) + [h], old(cursor), old(caps) + [cap])
    {
      idx := |handlers|;
      handlers, caps := handlers + [h], caps + [cap];
    }

    method Pick(p: Packet) returns (i: Option<nat>)
      requires Aligned(View())
      modifies this`cursor
      ensures Aligned(View()) && i == PickOf(old(View()), p) && cursor == CursorAfter(old(View()))
    {
      if handlers == [] {
        return None;
      }
      if strategy.RoundRobin? {
        i := Some(cursor % |handlers|);
        cursor := (cursor + 1) % U64;
      } else {
        i := FindDirect(p.operands, caps);
      }
    }

    /** `dispatch`: the handler is taken out, called, and put back. */
    method Dispatch(serve: Serve<H>, p: Packet) returns (res: Served)
      requires Aligned(View())
      modifies this`cursor, this`handlers
      ensures Aligned(View()) && (res, View()) == Dispatched(serve, old(View()), p)
    {
      var idx := Pick(p);
      if idx.None? {
        return Err(NoHandler);
      }
      var i := idx.value;
      var h := handlers[i];
      handlers := RemoveAt(handlers, i);
      var (h', out) := serve(h, p);
      handlers := InsertAt(handlers, i, h');
      RemoveInsert(old(handlers), i, h');
      res := out;
    }
  }

  // --- runs ---

  /** The picks of a run of dispatches, and the routes it leaves. */
  function Run<H>(serve: Serve<H>, r: Routes<H>, ps: seq<Packet>): (x: (seq<Option<nat>>, Routes<H>))
    requires Aligned(r)
    ensures |x.0| == |ps| && Aligned(x.1)
    ensures |x.1.handlers| == |r.handlers| && x.1.caps == r.caps && x.1.strategy == r.strategy
    decreases |ps|
  {
    if ps == [] then ([], r)
    else
      var (picks, r') := Run(serve, Dispatched(serve, r, ps[0]).1, ps[1..]);
      ([PickOf(r, ps[0])] + picks, r')
  }

  /** The packets that went to handler i, in order. */
  function SentTo(ps: seq<Packet>, picks: seq<Option<nat>>, i: nat): seq<Packet>
    requires |picks| == |ps|
  {
    if ps == [] then []
    else (if picks[0] == Some(i) then [ps[0]] else []) + SentTo(ps[1..], picks[1..], i)
  }

  /** A handler by itself, after these packets. */
  function After<H>(serve: Serve<H>, h: H, ps: seq<Packet>): H
    decreases |ps|
  {
    if ps == [] then h else After(serve, serve(h, ps[0]).0, ps[1..])
  }

  lemma {:induction false} AfterCons<H>(serve: Serve<H>, h: H, p: Packet, ps: seq<Packet>)
    ensures After(serve, h, [p] + ps) == After(serve, serve(h, p).0, ps)
  {
  }

  /** In every run, taking handlers out and putting them back keeps their order
      and their alignment with the references: place i ends up with the handler
      that was there, having served the packets picked for it, in order, and no
      others. */
  lemma {:induction false} HandlersStayInPlace<H>(serve: Serve<H>, r: Routes<H>, ps: seq<Packet>, i: nat)
    requires Aligned(r) && i < |r.handlers|
    ensures var (picks, r') := Run(serve, r, ps);
      r'.caps == r.caps && r'.handlers[i] == After(serve, r.handlers[i], SentTo(ps, picks, i))
    decreases |ps|
  {
    if ps != [] {
      var r1 := Dispatched(serve, r, ps[0]).1;
      HandlersStayInPlace(serve, r1, ps[1..], i);
      var picks := Run(serve, r1, ps[1..]).0;
      assert ([PickOf(r, ps[0])] + picks)[1..] == picks;
      var later := SentTo(ps[1..], picks, i);
      if PickOf(r, ps[0]) == Some(i) {
        AfterCons(serve, r.handlers[i], ps[0], later);
      } else {
        assert [] + later == later;
      }
    }
  }

  // --- fairness ---

  /** How many of the n cursor values from c on pick handler i out of k. */
  function Hits(c: nat, n: nat, k: nat, i: nat): nat
    requires k > 0
    decreases n
  {
    if n == 0 then 0 else (if c % k == i then 1 else 0) + Hits(c + 1, n - 1, k, i)
  }

  lemma {:induction false} HitsSplit(c: nat, a: nat, b: nat, k: nat, i: nat)
    requires k > 0
    ensures Hits(c, a + b, k, i) == Hits(c, a, k, i) + Hits(c + a, b, k, i)
    decreases a
  {
    if a > 0 {
      HitsSplit(c + 1, a - 1, b, k, i);
      assert c + 1 + (a - 1) == c + a && a + b - 1 == a - 1 + b;
    }
  }

  lemma {:induction false} NoHits(c: nat, n: nat, k: nat, i: nat)
    requires k > 0 && forall m :: c <= m < c + n ==> m % k != i
    ensures Hits(c, n, k, i) == 0
    decreases n
  {
    if n > 0 { NoHits(c + 1, n - 1, k, i); }
  }

  /** Any k consecutive turns call every handler once. */
  lemma {:induction false} OncePerRound(c: nat, k: nat, i: nat)
    requires i < k
    ensures Hits(c, k, k, i) == 1
  {
    var m := Representative(c, i, k);
    HitsSplit(c, m - c, k - (m - c), k, i);
    forall x | c <= x < m
      ensures x % k != i
    {
      ModApart(x, m, k);
    }
    NoHits(c, m - c, k, i);
    forall x | m + 1 <= x < c + k
      ensures x % k != i
    {
      ModApart(m, x, k);
    }
    NoHits(m + 1, k - (m - c) - 1, k, i);
  }

  lemma {:induction false} AtMostOnce(c: nat, n: nat, k: nat, i: nat)
    requires i < k && n <= k
    ensures Hits(c, n, k, i) <= 1
  {
    OncePerRound(c, k, i);
    HitsSplit(c, n, k - n, k, i);
  }

  function Ceil(n: nat, k: nat): nat
    requires k > 0
  {
    if n % k == 0 then n / k else n / k + 1
  }

  /** Of any n consecutive turns, each of the k handlers gets n / k, rounded down
      or up. */
  lemma {:induction false} Fair(c: nat, n: nat, k: nat, i: nat)
    requires i < k
    ensures n / k <= Hits(c, n, k, i) <= Ceil(n, k)
    decreases n
  {
    if n < k {
      AtMostOnce(c, n, k, i);
      ModUnique(0, n, k);
      assert n % k == n;
      assert n / k == 0 by { DivSmall(n, k); }
    } else {
      Fair(c + k, n - k, k, i);
      HitsSplit(c, k, n - k, k, i);
      OncePerRound(c, k, i);
      DivStep(n, k);
    }
  }

  lemma {:induction false} DivSmall(n: nat, k: nat)
    requires n < k
    ensures n / k == 0
  {
  }

  lemma {:induction false} DivStep(n: nat, k: nat)
    requires 0 < k <= n
    ensures n / k == (n - k) / k + 1 && n % k == (n - k) % k
  {
    var m := n - k;
    ModTurn(m, k);
    assert m == m / k * k + m % k && n == n / k * k + n % k;
    var a, b := n / k, m / k + 1;
    assert a * k == b * k;
    if a > b { Gap(a, b, k); } else if b > a { Gap(b, a, k); }
  }

  lemma {:induction false} SharesAreHits<H>(serve: Serve<H>, r: Routes<H>, ps: seq<Packet>, i: nat)
    requires Aligned(r) && r.strategy.RoundRobin? && r.handlers != [] && r.cursor + |ps| <= U64
    ensures |SentTo(ps, Run(serve, r, ps).0, i)| == Hits(r.cursor, |ps|, |r.handlers|, i)
    decreases |ps|
  {
    if ps != [] {
      var r1 := Dispatched(serve, r, ps[0]).1;
      var picks := Run(serve, r1, ps[1..]).0;
      assert ([PickOf(r, ps[0])] + picks)[1..] == picks;
      if |ps| == 1 {
        assert ps[1..] == [];
      } else {
        assert r1.cursor == r.cursor + 1 by { ModUnique(0, r.cursor + 1, U64); }
        SharesAreHits(serve, r1, ps[1..], i);
      }
    }
  }

  /** In every run of round-robin dispatches in which the cursor does not wrap,
      whatever the handlers do, each handler gets its share of the packets. */
  lemma {:induction false} RoundRobinFair<H>(serve: Serve<H>, r: Routes<H>, ps: seq<Packet>, i: nat)
    requires Aligned(r) && r.strategy.RoundRobin? && i < |r.handlers| && r.cursor + |ps| <= U64
    ensures |ps| / |r.handlers| <= |SentTo(ps, Run(serve, r, ps).0, i)| <= Ceil(|ps|, |r.handlers|)
  {
    SharesAreHits(serve, r, ps, i);
    Fair(r.cursor, |ps|, |r.handlers|, i);
  }

  // --- connections ---

  const MAX_INFLIGHT: nat := 1024

  /** What a drain leaves: responses, the routes, the queue and the outcome. */
  datatype Drained<H> = Drained(responses: seq<Packet>, routes: Routes<H>, rest: seq<Packet>, outcome: Result<nat, RouteError>)

  /** A drain of the queue ps by the router. */
  function Drain<H>(serve: Serve<H>, r: Routes<H>, ps: seq<Packet>, done: seq<Packet>): Drained<H>
    requires Aligned(r)
    decreases |ps|
  {
    if ps == [] then Drained(done, r, [], Ok(|done|))
    else
      var (res, r') := Dispatched(serve, r, ps[0]);
      if res.Err? then Drained(done, r', ps[1..], Err(res.error))
      else Drain(serve, r', ps[1..], done + [res.value])
  }

  /** The result of the n-th dispatch of a run. */
  function ResultAt<H>(serve: Serve<H>, r: Routes<H>, ps: seq<Packet>, n: nat): Served
    requires Aligned(r) && n < |ps|
    decreases n
  {
    var (res, r') := Dispatched(serve, r, ps[0]);
    if n == 0 then res else ResultAt(serve, r', ps[1..], n - 1)
  }

  /** The first n dispatches succeed and give these responses. */
  predicate Succeed<H>(serve: Serve<H>, r: Routes<H>, ps: seq<Packet>, responses: seq<Packet>)
    requires Aligned(r)
  {
    |responses| <= |ps| && forall n: nat :: n < |responses| ==> ResultAt(serve, r, ps, n) == Ok(responses[n])
  }

  lemma {:induction false} DrainFrom<H>(serve: Serve<H>, r: Routes<H>, ps: seq<Packet>, done: seq<Packet>)
    requires Aligned(r)
    ensures var d := Drain(serve, r, ps, done); var n := |d.responses| - |done|;
      && done <= d.responses && n <= |ps| && Succeed(serve, r, ps, d.responses[|done|..])
      && (d.outcome.Ok? ==> n == |ps| && d.rest == [] && d.outcome.value == |d.responses|)
      && (d.outcome.Err? ==>
            n < |ps| && ResultAt(serve, r, ps, n) == Err(d.outcome.error) && d.rest == ps[n + 1..])
    decreases |ps|
  {
    if ps != [] {
      var (res, r') := Dispatched(serve, r, ps[0]);
      if res.Ok? {
        DrainFrom(serve, r', ps[1..], done + [res.value]);
        var d := Drain(serve, r', ps[1..], done + [res.value]);
        var later := d.responses[|done| + 1..];
        assert d.responses[|done|..] == [res.value] + later;
        SucceedCons(serve, r, ps, res.value, later);
      }
    }
  }

  lemma {:induction false} SucceedCons<H>(serve: Serve<H>, r: Routes<H>, ps: seq<Packet>, x: Packet, later: seq<Packet>)
    requires Aligned(r) && ps != [] && Dispatched(serve, r, ps[0]).0 == Ok(x)
    requires Succeed(serve, Dispatched(serve, r, ps[0]).1, ps[1..], later)
    ensures Succeed(serve, r, ps, [x] + later)
  {
    var r' := Dispatched(serve, r, ps[0]).1;
    forall n: nat | n < |[x] + later|
      ensures ResultAt(serve, r, ps, n) == Ok(([x] + later)[n])
    {
      if n > 0 { assert ResultAt(serve, r', ps[1..], n - 1) == Ok(later[n - 1]); }
    }
  }

  /** A drain handles packets first in, first out; it stops at the first failing
      packet, and the queue is then exactly what came after that packet. */
  lemma {:induction false} DrainIsFifo<H>(serve: Serve<H>, r: Routes<H>, ps: seq<Packet>)
    requires Aligned(r)
    ensures var d := Drain(serve, r, ps, []); var n := |d.responses|;
      && Succeed(serve, r, ps, d.responses)
      && (d.outcome.Ok? ==> n == |ps| && d.rest == [] && d.outcome.value == n)
      && (d.outcome.Err? ==>
            n < |ps| && ResultAt(serve, r, ps, n) == Err(d.outcome.error) && d.rest == ps[n + 1..])
  {
    DrainFrom(serve, r, ps, []);
    var d := Drain(serve, r, ps, []);
    assert d.responses[0..] == d.responses;
  }

  class Connection<H> {
    const router: Router<H>
    var incoming: seq<Packet>

    constructor (router: Router<H>)
      ensures this.router == router && incoming == []
    {
      this.router := router;
      incoming := [];
    }

    /** `enqueue`. */
    method Enqueue(p: Packet) returns (ok: bool)
      modifies this
      ensures ok == (|old(incoming)| < 1024)
      ensures incoming == if ok then old(incoming) + [p] else old(incoming)
    {
      if |incoming| >= MAX_INFLIGHT {
        return false;
      }
      incoming := incoming + [p];
      return true;
    }

    /** `drain`, with the packets it passes to `on_response`. */
    method DrainAll(serve: Serve<H>) returns (r: Result<nat, RouteError>, responses: seq<Packet>)
      requires Aligned(router.View())
      modifies this, router`cursor, router`handlers
      ensures Aligned(router.View())
      ensures Drained(responses, router.View(), incoming, r)
           == Drain(serve, old(router.View()), old(incoming), [])
    {
      responses := [];
      while incoming != []
        invariant Aligned(router.View())
        invariant Drain(serve, old(router.View()), old(incoming), [])
               == Drain(serve, router.View(), incoming, responses)
        decreases |incoming|
      {
        var p := incoming[0];
        incoming := incoming[1..];
        var res := router.Dispatch(serve, p);
        if res.Err? {
          return Err(res.error), responses;
        }
        responses := responses + [res.value];
      }
      return Ok(|responses|), responses;
    }
  }
}
