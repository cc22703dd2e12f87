/** What joining names with commas writes and what splitting at commas finds, each
    stated by positions and without the other. */
module NameLists {
  import opened Wire
  import opened PyFields

  // --- joining ---

  /** Where name k starts: after the names before it and one comma each. */
  function Offset(names: seq<bytes>, k: nat): nat
    requires k <= |names|
  {
    if k == 0 then 0 else Offset(names, k - 1) + |names[k - 1]| + 1
  }

  lemma {:induction false} OffsetTail(names: seq<bytes>, k: nat)
    requires 0 < k <= |names|
    ensures Offset(names, k) == |names[0]| + 1 + Offset(names[1..], k - 1)
    decreases k
  {
    if k > 1 { OffsetTail(names, k - 1); }
  }

  lemma {:induction false} JoinTail(names: seq<bytes>)
    requires |names| > 1
    ensures Join(names) == names[0] + [0x2C] + Join(names[1..])
  {
  }

  lemma {:induction false} JoinLength(names: seq<bytes>)
    requires names != []
    ensures |Join(names)| + 1 == Offset(names, |names|)
  {
    OffsetTail(names, |names|);
    if |names| > 1 {
      JoinTail(names);
      JoinLength(names[1..]);
    }
  }

  /** The name stands at a place, and a comma after it if more follows. */
  predicate Stands(s: bytes, at: nat, name: bytes, more: bool) {
    && at + |name| <= |s| && s[at..at + |name|] == name
    && (more ==> at + |name| < |s| && s[at + |name|] == 0x2C)
  }

  lemma {:induction false} StandsLater(a: bytes, t: bytes, at: nat, name: bytes, more: bool)
    requires Stands(t, at, name, more)
    ensures Stands(a + t, |a| + at, name, more)
  {
    assert (a + t)[|a| + at..|a| + at + |name|] == t[at..at + |name|];
  }

  lemma {:induction false} StandsFirst(name: bytes, t: bytes)
    ensures Stands(name + [0x2C] + t, 0, name, true)
  {
    assert (name + [0x2C] + t)[0..|name|] == name;
  }

  /** Name k stands at its offset in the joined list, and a comma, the byte 0x2C,
      stands between it and the next one; there is nothing else. */
  lemma {:induction false} Joined(names: seq<bytes>, k: nat)
    requires k < |names|
    ensures |Join(names)| + 1 == Offset(names, |names|)
    ensures Stands(Join(names), Offset(names, k), names[k], k + 1 < |names|)
    decreases k
  {
    JoinLength(names);
    if |names| > 1 {
      JoinTail(names);
      var t := Join(names[1..]);
      if k == 0 {
        StandsFirst(names[0], t);
      } else {
        OffsetTail(names, k);
        Joined(names[1..], k - 1);
        StandsLater(names[0] + [0x2C], t, Offset(names[1..], k - 1), names[k], k + 1 < |names|);
      }
    }
  }

  // --- splitting ---

  /** From i up to, not including, j there is no comma, and the run cannot be made
      longer. */
  predicate Run(v: bytes, i: nat, j: nat) {
    && i < j <= |v|
    && (forall k :: i <= k < j ==> v[k] != 0x2C)
    && (i == 0 || v[i - 1] == 0x2C)
    && (j == |v| || v[j] == 0x2C)
  }

  datatype Span = Span(start: nat, end: nat)

  /** Runs of v from position `from` on, in order, and the pieces that they hold. */
  predicate RunsOf(v: bytes, from: nat, spans: seq<Span>, pieces: seq<bytes>) {
    && |spans| == |pieces|
    && (forall k :: 0 <= k < |spans| ==> from <= spans[k].start && Run(v, spans[k].start, spans[k].end))
    && (forall k :: 0 <= k < |spans| ==> pieces[k] == v[spans[k].start..spans[k].end])
    && (forall k, l :: 0 <= k < l < |spans| ==> spans[k].end < spans[l].start)
  }

  predicate Inside(i: nat, spans: seq<Span>) {
    exists k :: 0 <= k < |spans| && spans[k].start <= i < spans[k].end
  }

  /** No byte from position `from` on is left out, except commas. */
  predicate Covered(v: bytes, from: nat, spans: seq<Span>) {
    forall i: nat :: from <= i < |v| && v[i] != 0x2C ==> Inside(i, spans)
  }

  predicate Runs(v: bytes, from: nat, spans: seq<Span>, pieces: seq<bytes>) {
    RunsOf(v, from, spans, pieces) && Covered(v, from, spans)
  }

  lemma {:induction false} CoveredFirst(v: bytes, from: nat, at: nat, next: nat, spans: seq<Span>)
    requires from < at <= |v| && at <= next <= at + 1 && (next > at ==> at < |v| && v[at] == 0x2C) && Covered(v, next, spans)
    ensures Covered(v, from, [Span(from, at)] + spans)
  {
    var all := [Span(from, at)] + spans;
    forall i: nat | from <= i < |v| && v[i] != 0x2C
      ensures Inside(i, all)
    {
      if i < at {
        assert all[0].start <= i < all[0].end;
      } else {
        assert Inside(i, spans);
        var k :| 0 <= k < |spans| && spans[k].start <= i < spans[k].end;
        assert all[k + 1] == spans[k];
      }
    }
  }

  lemma {:induction false} RunFirst(v: bytes, from: nat, at: nat, next: nat, spans: seq<Span>, pieces: seq<bytes>)
    requires from < at <= next && Run(v, from, at) && RunsOf(v, next, spans, pieces) && (at < |v| ==> next > at)
    ensures RunsOf(v, from, [Span(from, at)] + spans, [v[from..at]] + pieces)
  {
  }

  lemma {:induction false} RunsNone(v: bytes, from: nat, spans: seq<Span>, pieces: seq<bytes>)
    requires from < |v| && v[from] == 0x2C && Runs(v, from + 1, spans, pieces)
    ensures Runs(v, from, spans, pieces)
  {
  }

  /** A run that ends at position `at`, or none, in front of what follows. */
  lemma {:induction false} PieceEnds(v: bytes, from: nat, at: nat, spans: seq<Span>, pieces: seq<bytes>)
    returns (all: seq<Span>)
    requires from <= at <= |v| && (from == 0 || v[from - 1] == 0x2C) && forall k :: from <= k < at ==> v[k] != 0x2C
    requires if at < |v| then v[at] == 0x2C && Runs(v, at + 1, spans, pieces) else spans == [] && pieces == []
    ensures Runs(v, from, all, Keep(v[from..at]) + pieces)
  {
    if from < at {
      all := [Span(from, at)] + spans;
      RunFirst(v, from, at, at + 1, spans, pieces);
      CoveredFirst(v, from, at, if at < |v| then at + 1 else at, spans);
    } else {
      all := spans;
      assert v[from..at] == [] && [] + pieces == pieces;
      if at < |v| { RunsNone(v, from, spans, pieces); }
    }
  }

  /** What is split off from a position on, with the piece read so far. */
  lemma {:induction false} SplitRuns(v: bytes, from: nat, at: nat) returns (spans: seq<Span>)
    requires from <= at <= |v| && (from == 0 || v[from - 1] == 0x2C) && forall k :: from <= k < at ==> v[k] != 0x2C
    ensures Runs(v, from, spans, SplitFrom(v[from..at], v[at..]))
    decreases |v| - at
  {
    if at == |v| {
      spans := PieceEnds(v, from, at, [], []);
      assert Keep(v[from..at]) + [] == Keep(v[from..at]) && v[at..] == [];
    } else if v[at] == 0x2C {
      var rest := SplitRuns(v, at + 1, at + 1);
      assert v[at..][1..] == v[at + 1..] && v[at + 1..at + 1] == [];
      spans := PieceEnds(v, from, at, rest, SplitFrom([], v[at + 1..]));
    } else {
      assert v[from..at] + [v[at]] == v[from..at + 1] && v[at..][1..] == v[at + 1..];
      spans := SplitRuns(v, from, at + 1);
    }
  }

  /** The view shows the names, unless one of them is not UTF-8. */
  lemma {:induction false} NamesShown(v: bytes)
    ensures NamesOf(v) == Ok(Split(v)) || NamesOf(v) == Err(UnicodeError)
    ensures NamesOf(v).Err? <==> exists i :: 0 <= i < |Split(v)| && !ValidUtf8(Split(v)[i])
  {
  }

  /** Splitting finds the maximal non-empty runs of bytes other than 0x2C, all of
      them and in order. */
  lemma {:induction false} SplitFinds(v: bytes) returns (spans: seq<Span>)
    ensures Runs(v, 0, spans, Split(v))
  {
    spans := SplitRuns(v, 0, 0);
    assert v[0..0] == [] && v[0..] == v;
  }
}
