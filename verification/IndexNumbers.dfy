/** The operand index of a node, from the path that leads to it: the digits of a
    number in base 1000. */
module IndexNumbers {
  import opened Wire
  import opened Operands
  import Gate
  import opened OperandWalk

  /** The index of the node that a path leads to, below a node of index idx. */
  function Number(idx: nat, path: seq<nat>): nat
    decreases |path|
  {
    if path == [] then idx else Number(1000 * idx + path[0], path[1..])
  }

  ghost predicate NumbersFit(op: Operand, idx: nat) {
    forall path :: Gate.At(op, path).Some? ==> Number(idx, path) < 0x1_0000_0000
  }

  lemma {:induction false} NumbersUnfold(op: Operand, idx: nat)
    ensures NumbersFit(op, idx) <==>
              && idx < 0x1_0000_0000
              && forall i: nat :: i < |Gate.Children(op)| ==> NumbersFit(Gate.Children(op)[i], 1000 * idx + i)
  {
    if NumbersFit(op, idx) {
      assert Gate.At(op, []) == Some(op) && Number(idx, []) == idx;
      forall i: nat | i < |Gate.Children(op)|
        ensures NumbersFit(Gate.Children(op)[i], 1000 * idx + i)
      {
        forall path | Gate.At(Gate.Children(op)[i], path).Some?
          ensures Number(1000 * idx + i, path) < 0x1_0000_0000
        {
          assert ([i] + path)[1..] == path;
          assert Gate.At(op, [i] + path) == Gate.At(Gate.Children(op)[i], path);
          assert Number(idx, [i] + path) == Number(1000 * idx + i, path);
        }
      }
    } else {
      var path :| Gate.At(op, path).Some? && Number(idx, path) >= 0x1_0000_0000;
      if path != [] {
        assert Gate.At(op, path) == Gate.At(Gate.Children(op)[path[0]], path[1..]);
        assert Number(idx, path) == Number(1000 * idx + path[0], path[1..]);
      }
    }
  }

  lemma {:induction false} TreesUnfold(ops: seq<Operand>, idx: nat, i: nat)
    ensures TreesFit(ops, idx, i) <==> forall k: nat :: k < |ops| ==> TreeFits(ops[k], 1000 * idx + (i + k))
    decreases |ops|
  {
    if ops != [] {
      TreesUnfold(ops[1..], idx, i + 1);
      Shifted(ops, idx, i);
    }
  }

  lemma {:induction false} Shifted(ops: seq<Operand>, idx: nat, i: nat)
    requires ops != []
    ensures (forall k: nat :: k < |ops| ==> TreeFits(ops[k], 1000 * idx + (i + k))) <==>
              && TreeFits(ops[0], 1000 * idx + i)
              && forall k: nat :: k < |ops[1..]| ==> TreeFits(ops[1..][k], 1000 * idx + (i + 1 + k))
  {
    if forall k: nat :: k < |ops| ==> TreeFits(ops[k], 1000 * idx + (i + k)) {
      assert TreeFits(ops[0], 1000 * idx + (i + 0));
      forall k: nat | k < |ops[1..]|
        ensures TreeFits(ops[1..][k], 1000 * idx + (i + 1 + k))
      {
        assert TreeFits(ops[k + 1], 1000 * idx + (i + (k + 1)));
        assert i + (k + 1) == i + 1 + k;
      }
    }
    if TreeFits(ops[0], 1000 * idx + i) && forall k: nat :: k < |ops[1..]| ==> TreeFits(ops[1..][k], 1000 * idx + (i + 1 + k)) {
      forall k: nat | k < |ops|
        ensures TreeFits(ops[k], 1000 * idx + (i + k))
      {
        if k > 0 {
          assert TreeFits(ops[1..][k - 1], 1000 * idx + (i + 1 + (k - 1)));
          assert i + 1 + (k - 1) == i + k;
        }
      }
    }
  }

  function Values(entries: seq<Entry>): (r: seq<Operand>)
    ensures |r| == |entries| && forall i :: 0 <= i < |r| ==> r[i] == entries[i].value
  {
    seq(|entries|, i requires 0 <= i < |entries| => entries[i].value)
  }

  lemma {:induction false} ValuesAreTrees(entries: seq<Entry>, idx: nat, i: nat)
    ensures ValuesFit(entries, idx, i) <==> TreesFit(Values(entries), idx, i)
    decreases |entries|
  {
    if entries != [] {
      assert Values(entries)[1..] == Values(entries[1..]);
      ValuesAreTrees(entries[1..], idx, i + 1);
    }
  }

  lemma {:induction false} ChildrenUnfold(ops: seq<Operand>, idx: nat)
    ensures TreesFit(ops, idx, 0) <==> forall k: nat :: k < |ops| ==> TreeFits(ops[k], 1000 * idx + k)
  {
    TreesUnfold(ops, idx, 0);
    forall k: nat | k < |ops|
      ensures TreeFits(ops[k], 1000 * idx + (0 + k)) <==> TreeFits(ops[k], 1000 * idx + k)
    {
      assert 0 + k == k;
    }
  }

  lemma {:induction false} TreeUnfold(op: Operand, idx: nat)
    ensures TreeFits(op, idx) <==>
              idx < 0x1_0000_0000 && forall k: nat :: k < |Gate.Children(op)| ==> TreeFits(Gate.Children(op)[k], 1000 * idx + k)
  {
    match op {
      case List(items) =>
        ChildrenUnfold(items, idx);
        assert Gate.Children(op) == items;
      case Map(entries) =>
        ValuesAreTrees(entries, idx, 0);
        ChildrenUnfold(Values(entries), idx);
        assert Gate.Children(op) == Values(entries);
      case _ =>
    }
  }

  /** The indices of a tree fit 32 bits if and only if the number of every path in
      it does. */
  lemma {:induction false} FitsExactly(op: Operand, idx: nat)
    ensures TreeFits(op, idx) <==> NumbersFit(op, idx)
    decreases op
  {
    NumbersUnfold(op, idx);
    TreeUnfold(op, idx);
    forall i: nat | i < |Gate.Children(op)|
      ensures TreeFits(Gate.Children(op)[i], 1000 * idx + i) <==> NumbersFit(Gate.Children(op)[i], 1000 * idx + i)
    {
      if op.List? { FitsExactly(op.items[i], 1000 * idx + i); } else { FitsExactly(op.entries[i].value, 1000 * idx + i); }
    }
  }

  /** The same for the operands of a packet: operand i has the index i. */
  lemma {:induction false} PacketFitsExactly(ops: seq<Operand>)
    ensures TreesFit(ops, 0, 0) <==> forall i: nat :: i < |ops| ==> NumbersFit(ops[i], i)
  {
    ChildrenUnfold(ops, 0);
    forall i: nat | i < |ops|
      ensures TreeFits(ops[i], 1000 * 0 + i) <==> NumbersFit(ops[i], i)
    {
      FitsExactly(ops[i], i);
    }
  }
}
