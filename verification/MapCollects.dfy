/** What a map holds after entries were put into it one by one: under every key the
    last value that came with it, in the order of the implementation. */
module MapCollects {
  import opened Wire
  import opened Operands
  import opened OperandLaws

  /** The entry i of raw is the last one with its key. */
  predicate LastOf(raw: seq<Entry>, i: nat) {
    i < |raw| && forall j :: i < j < |raw| ==> raw[j].key != raw[i].key
  }

  ghost predicate IsLast(raw: seq<Entry>, e: Entry) {
    exists i: nat :: LastOf(raw, i) && raw[i] == e
  }

  /** Inserting replaces the entry of the key, and leaves all others. */
  lemma {:induction false} TreeInsertHolds(s: seq<Entry>, k: bytes, v: Operand, e: Entry)
    requires SortedKeys(s)
    ensures e in TreeInsert(s, k, v) <==> e == Entry(k, v) || (e in s && e.key != k)
  {
    if s != [] {
      var h, t := s[0], s[1..];
      assert SortedKeys(t);
      assert e in s <==> e == h || e in t;
      if h.key == k {
        NotAgain(s, e);
      } else if Below(k, h.key) {
        NotBelow(s, k, e);
      } else {
        TreeInsertHolds(t, k, v, e);
        assert e in [h] + TreeInsert(t, k, v) <==> e == h || e in TreeInsert(t, k, v);
      }
    }
  }

  lemma {:induction false} NotAgain(s: seq<Entry>, e: Entry)
    requires SortedKeys(s) && s != []
    ensures e in s[1..] ==> e.key != s[0].key
  {
    if e in s[1..] {
      var i :| 0 <= i < |s[1..]| && s[1..][i] == e;
      assert Below(s[0].key, s[i + 1].key);
      BelowIrreflexive(s[0].key);
    }
  }

  lemma {:induction false} NotBelow(s: seq<Entry>, k: bytes, e: Entry)
    requires SortedKeys(s) && s != [] && Below(k, s[0].key)
    ensures e in s ==> e.key != k
  {
    if e in s {
      var i :| 0 <= i < |s| && s[i] == e;
      if i > 0 { BelowTransitive(k, s[0].key, s[i].key); }
      BelowIrreflexive(k);
    }
  }

  lemma {:induction false} DictInsertHolds(s: seq<Entry>, k: bytes, v: Operand, e: Entry)
    requires DistinctKeys(s)
    ensures e in DictInsert(s, k, v) <==> e == Entry(k, v) || (e in s && e.key != k)
  {
    if s != [] {
      var h, t := s[0], s[1..];
      assert DistinctKeys(t);
      assert e in s <==> e == h || e in t;
      if h.key == k {
        if e in t {
          var i :| 0 <= i < |t| && t[i] == e;
          assert s[0].key != s[i + 1].key;
        }
        assert e in [Entry(k, v)] + t <==> e == Entry(k, v) || e in t;
      } else {
        DictInsertHolds(t, k, v, e);
        assert e in [h] + DictInsert(t, k, v) <==> e == h || e in DictInsert(t, k, v);
      }
    }
  }

  lemma {:induction false} CollectOk(lang: Lang, raw: seq<Entry>)
    ensures KeysOk(lang, Collect(lang, raw))
  {
    if raw != [] {
      var n := |raw| - 1;
      CollectOk(lang, raw[..n]);
      InsertKeysOk(lang, Collect(lang, raw[..n]), raw[n].key, raw[n].value);
    }
  }

  /** An entry is in the map if and only if it is the last with its key. */
  lemma {:induction false} CollectHolds(lang: Lang, raw: seq<Entry>, e: Entry)
    ensures e in Collect(lang, raw) <==> IsLast(raw, e)
  {
    if raw != [] {
      var n := |raw| - 1;
      var acc, x := Collect(lang, raw[..n]), raw[n];
      CollectOk(lang, raw[..n]);
      CollectHolds(lang, raw[..n], e);
      if lang.Python? { DictInsertHolds(acc, x.key, x.value, e); } else { TreeInsertHolds(acc, x.key, x.value, e); }
      assert Entry(x.key, x.value) == x;
      LastGrows(raw, n, e);
    }
  }

  lemma {:induction false} LastGrows(raw: seq<Entry>, n: nat, e: Entry)
    requires |raw| == n + 1
    ensures IsLast(raw, e) <==>
              e == raw[n] || (e.key != raw[n].key && IsLast(raw[..n], e))
  {
    if i: nat :| LastOf(raw, i) && raw[i] == e {
      if i < n { assert LastOf(raw[..n], i) && raw[..n][i] == e; }
    }
    if e == raw[n] { assert LastOf(raw, n); }
    if e.key != raw[n].key && IsLast(raw[..n], e) { LastStays(raw, n, e); }
  }

  lemma {:induction false} LastStays(raw: seq<Entry>, n: nat, e: Entry)
    requires |raw| == n + 1 && e.key != raw[n].key && IsLast(raw[..n], e)
    ensures IsLast(raw, e)
  {
    var i: nat :| LastOf(raw[..n], i) && raw[..n][i] == e;
    forall j | i < j < |raw|
      ensures raw[j].key != raw[i].key
    {
      if j < n { assert raw[..n][j].key != raw[..n][i].key; }
    }
    assert LastOf(raw, i);
  }

  /** The position at which a key comes first. */
  function FirstAt(raw: seq<Entry>, k: bytes): (r: nat)
    ensures r <= |raw| && (r < |raw| ==> raw[r].key == k) && forall i :: 0 <= i < r ==> raw[i].key != k
  {
    if raw == [] || raw[0].key == k then 0 else 1 + FirstAt(raw[1..], k)
  }

  lemma {:induction false} FirstIs(raw: seq<Entry>, k: bytes, r: nat)
    requires r < |raw| && raw[r].key == k && forall i :: 0 <= i < r ==> raw[i].key != k
    ensures FirstAt(raw, k) == r
  {
  }

  lemma {:induction false} FirstStays(raw: seq<Entry>, n: nat, k: bytes)
    requires n <= |raw| && FirstAt(raw[..n], k) < n
    ensures FirstAt(raw, k) == FirstAt(raw[..n], k)
  {
    var r := FirstAt(raw[..n], k);
    forall i | 0 <= i < r
      ensures raw[i].key != k
    {
      assert raw[..n][i].key != k;
    }
    FirstIs(raw, k, r);
  }

  /** The keys of s come first in raw in the order in which they stand in s. */
  predicate FirstOrder(raw: seq<Entry>, s: seq<Entry>) {
    && (forall i :: 0 <= i < |s| ==> FirstAt(raw, s[i].key) < |raw|)
    && (forall i, j :: 0 <= i < j < |s| ==> FirstAt(raw, s[i].key) < FirstAt(raw, s[j].key))
  }

  lemma {:induction false} OrderStays(raw: seq<Entry>, n: nat, s: seq<Entry>)
    requires |raw| == n + 1 && FirstOrder(raw[..n], s)
    ensures FirstOrder(raw, s) && forall i :: 0 <= i < |s| ==> FirstAt(raw, s[i].key) < n
  {
    forall i | 0 <= i < |s|
      ensures FirstAt(raw, s[i].key) == FirstAt(raw[..n], s[i].key) < n
    {
      FirstStays(raw, n, s[i].key);
    }
  }

  /** A dict has its keys in the order in which they first came. */
  lemma {:induction false} DictOrder(raw: seq<Entry>)
    ensures FirstOrder(raw, Collect(Python, raw))
  {
    if raw != [] {
      var n := |raw| - 1;
      var acc, x := Collect(Python, raw[..n]), raw[n];
      DictOrder(raw[..n]);
      OrderStays(raw, n, acc);
      CollectOk(Python, raw[..n]);
      if HasKey(acc, x.key) {
        OldKeepsOrder(raw, acc, x);
      } else {
        NewComesLast(raw, n, acc);
        NewKeepsOrder(raw, n, acc, x);
      }
    }
  }

  lemma {:induction false} OldKeepsOrder(raw: seq<Entry>, acc: seq<Entry>, x: Entry)
    requires DistinctKeys(acc) && FirstOrder(raw, acc) && HasKey(acc, x.key)
    ensures FirstOrder(raw, DictInsert(acc, x.key, x.value))
  {
    var m: nat :| m < |acc| && acc[m].key == x.key;
    DictInsertOld(acc, m, x.value);
    SameKeys(raw, acc, acc[m := Entry(acc[m].key, x.value)]);
  }

  lemma {:induction false} SameKeys(raw: seq<Entry>, s: seq<Entry>, t: seq<Entry>)
    requires FirstOrder(raw, s) && |s| == |t| && forall i :: 0 <= i < |s| ==> s[i].key == t[i].key
    ensures FirstOrder(raw, t)
  {
  }

  lemma {:induction false} NewKeepsOrder(raw: seq<Entry>, n: nat, acc: seq<Entry>, x: Entry)
    requires |raw| == n + 1 && FirstOrder(raw, acc) && !HasKey(acc, x.key) && FirstAt(raw, x.key) == n
    requires forall i :: 0 <= i < |acc| ==> FirstAt(raw, acc[i].key) < n
    ensures FirstOrder(raw, DictInsert(acc, x.key, x.value))
  {
    DictInsertNew(acc, x.key, x.value);
  }

  lemma {:induction false} KeyIsThere(raw: seq<Entry>, r: nat)
    requires r < |raw|
    ensures HasKey(Collect(Python, raw), raw[r].key)
  {
    var i := LastWith(raw, raw[r].key, r);
    CollectHolds(Python, raw, raw[i]);
  }

  lemma {:induction false} NewComesLast(raw: seq<Entry>, n: nat, acc: seq<Entry>)
    requires |raw| == n + 1 && acc == Collect(Python, raw[..n]) && !HasKey(acc, raw[n].key)
    ensures FirstAt(raw, raw[n].key) == n
  {
    forall i | 0 <= i < n
      ensures raw[i].key != raw[n].key
    {
      KeyIsThere(raw[..n], i);
    }
    FirstIs(raw, raw[n].key, n);
  }

  lemma {:induction false} LastWith(raw: seq<Entry>, k: bytes, r: nat) returns (i: nat)
    requires r < |raw| && raw[r].key == k
    ensures LastOf(raw, i) && raw[i].key == k
    decreases |raw| - r
  {
    if LastOf(raw, r) {
      i := r;
    } else {
      var j :| r < j < |raw| && raw[j].key == raw[r].key;
      i := LastWith(raw, k, j);
    }
  }

  /** The map that was collected: keys in order for Rust, keys as they first came for
      Python, and under each key the last value that came with it. */
  lemma {:induction false} CollectExactly(lang: Lang, raw: seq<Entry>)
    ensures forall e :: e in Collect(lang, raw) <==> IsLast(raw, e)
    ensures lang.Rust? ==> SortedKeys(Collect(lang, raw))
    ensures lang.Python? ==> FirstOrder(raw, Collect(lang, raw))
  {
    forall e
      ensures e in Collect(lang, raw) <==> IsLast(raw, e)
    {
      CollectHolds(lang, raw, e);
    }
    CollectOk(lang, raw);
    if lang.Python? { DictOrder(raw); }
  }
}
