/** What one turn of a reading loop does, for the loops of both codecs. */
module ReadingLoops {
  import opened Wire
  import opened Operands

  /** What was read so far, in front of what is still to be read. */
  function Front<T>(items: seq<T>, n: nat, r: Parsed<seq<T>>): Parsed<seq<T>> {
    if r.Got? then Got(items + r.v, n + r.n) else r
  }

  lemma {:induction false} FrontNothing<T>(r: Parsed<seq<T>>)
    ensures Front([], 0, r) == r
  {
    assert r.Got? ==> [] + r.v == r.v;
  }

  lemma {:induction false} FrontEnds<T>(items: seq<T>, n: nat)
    ensures Front(items, n, Got([], 0)) == Got(items, n)
  {
    assert items + [] == items;
  }

  lemma {:induction false} FrontAppend<T>(items: seq<T>, n: nat, x: T, m: nat, total: nat, q: Parsed<seq<T>>)
    requires total == n + m
    ensures Front(items, n, Front([x], m, q)) == Front(items + [x], total, q)
  {
    assert q.Got? ==> items + ([x] + q.v) == items + [x] + q.v;
  }

  lemma {:induction false} ItemsUnfold(lang: Lang, k: nat, data: bytes)
    requires k > 0
    ensures var p := Parse(lang, data);
      ParseItems(lang, k, data)
      == if p.Bad? then Bad(p.fault) else Front([p.v], p.n, ParseItems(lang, k - 1, data[p.n..]))
  {
  }

  lemma {:induction false} EntriesUnfold(lang: Lang, k: nat, data: bytes)
    requires k > 0
    ensures var p := ParseEntry(lang, data);
      ParseEntries(lang, k, data)
      == if p.Bad? then Bad(p.fault) else Front([p.v], p.n, ParseEntries(lang, k - 1, data[p.n..]))
  {
  }

  /** What reading k more items from position `at` will give. */
  function ItemsLeft(lang: Lang, k: nat, data: bytes, at: nat): Parsed<seq<Operand>> {
    if at <= |data| then ParseItems(lang, k, data[at..]) else Bad(Truncated)
  }

  function EntriesLeft(lang: Lang, k: nat, data: bytes, at: nat): Parsed<seq<Entry>> {
    if at <= |data| then ParseEntries(lang, k, data[at..]) else Bad(Truncated)
  }

  function AllLeft(data: bytes, at: nat): Parsed<seq<Operand>> {
    if at <= |data| then ParseAll(Python, data[at..]) else Bad(Truncated)
  }

  /** One turn of the item loop: what is left to read before it, and after. */
  lemma {:induction false} ItemStep(lang: Lang, data: bytes, at: nat, k: nat, item: Parsed<Operand>)
    requires k > 0 && at <= |data| && item == At(at, Parse(lang, data[at..]))
    ensures item.Bad? ==> ItemsLeft(lang, k, data, at) == Bad(item.fault)
    ensures item.Got? ==> at < item.n <= |data|
    ensures item.Got? ==>
      ItemsLeft(lang, k, data, at) == Front([item.v], item.n - at, ItemsLeft(lang, k - 1, data, item.n))
  {
    ItemsUnfold(lang, k, data[at..]);
    if item.Got? {
      var n := Parse(lang, data[at..]).n;
      assert n == item.n - at;
      assert data[at..][n..] == data[item.n..];
    }
  }

  lemma {:induction false} EntryStep(lang: Lang, data: bytes, at: nat, k: nat, e: Parsed<Entry>)
    requires k > 0 && at <= |data| && e == At(at, ParseEntry(lang, data[at..]))
    ensures e.Bad? ==> EntriesLeft(lang, k, data, at) == Bad(e.fault)
    ensures e.Got? ==> at < e.n <= |data|
    ensures e.Got? ==>
      EntriesLeft(lang, k, data, at) == Front([e.v], e.n - at, EntriesLeft(lang, k - 1, data, e.n))
  {
    EntriesUnfold(lang, k, data[at..]);
    if e.Got? {
      var n := ParseEntry(lang, data[at..]).n;
      assert n == e.n - at;
      assert data[at..][n..] == data[e.n..];
    }
  }

  lemma {:induction false} AllStep(data: bytes, at: nat, item: Parsed<Operand>)
    requires at < |data| && item == At(at, Parse(Python, data[at..]))
    ensures item.Bad? ==> AllLeft(data, at) == Bad(item.fault)
    ensures item.Got? ==> at < item.n <= |data|
    ensures item.Got? ==> AllLeft(data, at) == Front([item.v], item.n - at, AllLeft(data, item.n))
  {
  }

  lemma {:induction false} CollectAppend(lang: Lang, raw: seq<Entry>, e: Entry)
    ensures Collect(lang, raw + [e]) == Insert(lang, Collect(lang, raw), e.key, e.value)
  {
  }

  // --- a reading in progress, kept folded ---

  predicate Is(j: nat, k: nat) { j == k }

  /** The goal is reached by reading k more items from position `at`, with these
      read since `pos`. The trigger keeps loops from unfolding the reader. */
  ghost predicate ItemsOn(lang: Lang, goal: Parsed<seq<Operand>>, k: nat, data: bytes, pos: nat, at: nat, read: seq<Operand>) {
    && pos <= at <= |data|
    && forall j: nat {:trigger ItemsLeft(lang, j, data, at)} :: Is(j, k) ==> goal == Front(read, at - pos, ItemsLeft(lang, j, data, at))
  }

  lemma {:induction false} ItemsBegin(lang: Lang, k: nat, data: bytes, pos: nat) returns (goal: Parsed<seq<Operand>>)
    requires pos <= |data|
    ensures goal == ParseItems(lang, k, data[pos..]) && ItemsOn(lang, goal, k, data, pos, pos, [])
  {
    goal := ItemsLeft(lang, k, data, pos);
    FrontNothing(goal);
  }

  lemma {:induction false} ItemsTurn(
    lang: Lang, goal: Parsed<seq<Operand>>, k: nat, data: bytes, pos: nat, at: nat, read: seq<Operand>, item: Parsed<Operand>)
    requires k > 0 && ItemsOn(lang, goal, k, data, pos, at, read) && item == At(at, Parse(lang, data[at..]))
    ensures item.Bad? ==> goal == Bad(item.fault)
    ensures item.Got? ==> ItemsOn(lang, goal, k - 1, data, pos, item.n, read + [item.v])
  {
    assert Is(k, k) && goal == Front(read, at - pos, ItemsLeft(lang, k, data, at));
    ItemStep(lang, data, at, k, item);
    if item.Got? { FrontAppend(read, at - pos, item.v, item.n - at, item.n - pos, ItemsLeft(lang, k - 1, data, item.n)); }
  }

  lemma {:induction false} ItemsEnd(lang: Lang, goal: Parsed<seq<Operand>>, data: bytes, pos: nat, at: nat, read: seq<Operand>)
    requires ItemsOn(lang, goal, 0, data, pos, at, read)
    ensures goal == Got(read, at - pos)
  {
    assert Is(0, 0) && goal == Front(read, at - pos, ItemsLeft(lang, 0, data, at));
    FrontEnds(read, at - pos);
  }

  /** The same for map entries. */
  ghost predicate EntriesOn(lang: Lang, goal: Parsed<seq<Entry>>, k: nat, data: bytes, pos: nat, at: nat, read: seq<Entry>) {
    && pos <= at <= |data|
    && forall j: nat {:trigger EntriesLeft(lang, j, data, at)} :: Is(j, k) ==> goal == Front(read, at - pos, EntriesLeft(lang, j, data, at))
  }

  lemma {:induction false} EntriesBegin(lang: Lang, k: nat, data: bytes, pos: nat) returns (goal: Parsed<seq<Entry>>)
    requires pos <= |data|
    ensures goal == ParseEntries(lang, k, data[pos..]) && EntriesOn(lang, goal, k, data, pos, pos, [])
  {
    goal := EntriesLeft(lang, k, data, pos);
    FrontNothing(goal);
  }

  lemma {:induction false} EntriesTurn(
    lang: Lang, goal: Parsed<seq<Entry>>, k: nat, data: bytes, pos: nat, at: nat, read: seq<Entry>, e: Parsed<Entry>)
    requires k > 0 && EntriesOn(lang, goal, k, data, pos, at, read) && e == At(at, ParseEntry(lang, data[at..]))
    ensures e.Bad? ==> goal == Bad(e.fault)
    ensures e.Got? ==> EntriesOn(lang, goal, k - 1, data, pos, e.n, read + [e.v])
  {
    assert Is(k, k) && goal == Front(read, at - pos, EntriesLeft(lang, k, data, at));
    EntryStep(lang, data, at, k, e);
    if e.Got? { FrontAppend(read, at - pos, e.v, e.n - at, e.n - pos, EntriesLeft(lang, k - 1, data, e.n)); }
  }

  lemma {:induction false} EntriesEnd(lang: Lang, goal: Parsed<seq<Entry>>, data: bytes, pos: nat, at: nat, read: seq<Entry>)
    requires EntriesOn(lang, goal, 0, data, pos, at, read)
    ensures goal == Got(read, at - pos)
  {
    assert Is(0, 0) && goal == Front(read, at - pos, EntriesLeft(lang, 0, data, at));
    FrontEnds(read, at - pos);
  }
}
