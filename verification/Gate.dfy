/** The gate: which packets pass the capability check and the safety limits. */
module Gate {
  import opened Wire
  import opened Operands
  import opened Capability

  datatype Policy = Policy(maxOperandCount: nat, maxStringLength: nat, maxBytesLength: nat, maxNestingDepth: nat)

  datatype Decision = Allow | Deny | Audit

  datatype GateError = CapabilityNotFound | OperandCount | PayloadTooLarge

  // --- the recursive check ---

  predicate StringOk(p: Policy, s: bytes) { |s| <= p.maxStringLength }

  function ValidateOperand(p: Policy, op: Operand, depth: nat): Result<(), GateError>
    decreases op, 1
  {
    if depth > p.maxNestingDepth then Err(PayloadTooLarge)
    else
      match op
      case Str(s) => if StringOk(p, s) then Ok(()) else Err(PayloadTooLarge)
      case Bytes(b) => if |b| <= p.maxBytesLength then Ok(()) else Err(PayloadTooLarge)
      case List(items) => ValidateItems(p, items, depth + 1)
      case Map(entries) => ValidateEntries(p, entries, depth + 1)
      case _ => Ok(())
  }

  function ValidateItems(p: Policy, items: seq<Operand>, depth: nat): Result<(), GateError>
    decreases items, 0
  {
    if items == [] then Ok(())
    else
      var _ :- ValidateOperand(p, items[0], depth);
      ValidateItems(p, items[1..], depth)
  }

  function ValidateEntries(p: Policy, entries: seq<Entry>, depth: nat): Result<(), GateError>
    decreases entries, 0
  {
    if entries == [] then Ok(())
    else if !StringOk(p, entries[0].key) then Err(PayloadTooLarge)
    else
      var _ :- ValidateOperand(p, entries[0].value, depth);
      ValidateEntries(p, entries[1..], depth)
  }

  /** `validate_operand`, with its loops. */
  method CheckOperand(p: Policy, op: Operand, depth: nat) returns (r: Result<(), GateError>)
    ensures r == ValidateOperand(p, op, depth)
    decreases op
  {
    if depth > p.maxNestingDepth {
      return Err(PayloadTooLarge);
    }
    match op {
      case Str(s) => r := if |s| > p.maxStringLength then Err(PayloadTooLarge) else Ok(());
      case Bytes(b) => r := if |b| > p.maxBytesLength then Err(PayloadTooLarge) else Ok(());
      case List(items) =>
        assert items[0..] == items;
        for i := 0 to |items|
          invariant ValidateItems(p, items, depth + 1) == ValidateItems(p, items[i..], depth + 1)
        {
          assert items[i..][1..] == items[i + 1..];
          var x := CheckOperand(p, items[i], depth + 1);
          if x.Err? {
            return x;
          }
        }
        return Ok(());
      case Map(entries) =>
        assert entries[0..] == entries;
        for i := 0 to |entries|
          invariant ValidateEntries(p, entries, depth + 1) == ValidateEntries(p, entries[i..], depth + 1)
        {
          assert entries[i..][1..] == entries[i + 1..];
          if |entries[i].key| > p.maxStringLength {
            return Err(PayloadTooLarge);
          }
          var x := CheckOperand(p, entries[i].value, depth + 1);
          if x.Err? {
            return x;
          }
        }
        return Ok(());
      case _ => r := Ok(());
    }
  }

  // --- packets ---

  /** Every top-level reference, tag 0x15, is registered. */
  predicate RefsKnown(t: Table, ops: seq<Operand>) {
    forall i :: 0 <= i < |ops| ==> ops[i].Fixed? && ops[i].tag == 0x15 ==> ops[i].n >= 0 && Get(t, ops[i].n).Some?
  }

  /** `check`. */
  method Check(t: Table, audit: bool, ops: seq<Operand>) returns (d: Decision)
    ensures d == if !RefsKnown(t, ops) then Deny else if audit then Audit else Allow
  {
    for i := 0 to |ops|
      invariant RefsKnown(t, ops[..i])
    {
      if ops[i].Fixed? && ops[i].tag == REF && (ops[i].n < 0 || Get(t, ops[i].n).None?) {
        return Deny;
      }
      assert ops[..i + 1] == ops[..i] + [ops[i]];
    }
    assert ops[..|ops|] == ops;
    return if audit then Audit else Allow;
  }

  /** `validate_packet`. The operand count is narrowed to 32 bits. */
  function ValidatePacket(p: Policy, ops: seq<Operand>): Result<(), GateError> {
    if |ops| % U32 > p.maxOperandCount then Err(OperandCount) else ValidateItems(p, ops, 0)
  }

  method CheckPacket(p: Policy, ops: seq<Operand>) returns (r: Result<(), GateError>)
    ensures r == ValidatePacket(p, ops)
  {
    if |ops| % U32 > p.maxOperandCount {
      return Err(OperandCount);
    }
    assert ops[0..] == ops;
    for i := 0 to |ops|
      invariant ValidateItems(p, ops, 0) == ValidateItems(p, ops[i..], 0)
    {
      assert ops[i..][1..] == ops[i + 1..];
      var x := CheckOperand(p, ops[i], 0);
      if x.Err? {
        return x;
      }
    }
    return Ok(());
  }

  /** `check_and_validate`: it succeeds exactly when every top-level Ref is
      registered and the packet is within limits at every node. */
  method CheckAndValidate(t: Table, p: Policy, audit: bool, ops: seq<Operand>) returns (r: Result<Decision, GateError>)
    ensures r == if !RefsKnown(t, ops) then Err(CapabilityNotFound)
                 else if ValidatePacket(p, ops).Err? then Err(ValidatePacket(p, ops).error)
                 else Ok(if audit then Audit else Allow)
    ensures r.Ok? <==> RefsKnown(t, ops) && |ops| % U32 <= p.maxOperandCount
                       && forall i :: 0 <= i < |ops| ==> WithinLimits(p, ops[i], 0)
  {
    PassesExactly(p, ops);
    var d := Check(t, audit, ops);
    if d == Deny {
      return Err(CapabilityNotFound);
    }
    var v := CheckPacket(p, ops);
    if v.Err? {
      return Err(v.error);
    }
    return Ok(d);
  }

  // --- what passes, node by node ---

  /** The node that a path of child indices leads to. */
  function At(op: Operand, path: seq<nat>): Option<Operand>
    decreases |path|
  {
    if path == [] then Some(op)
    else if op.List? && path[0] < |op.items| then At(op.items[path[0]], path[1..])
    else if op.Map? && path[0] < |op.entries| then At(op.entries[path[0]].value, path[1..])
    else None
  }

  /** The limits on one node by itself. */
  predicate NodeOk(p: Policy, op: Operand) {
    match op
    case Str(s) => StringOk(p, s)
    case Bytes(b) => |b| <= p.maxBytesLength
    case Map(entries) => forall i :: 0 <= i < |entries| ==> StringOk(p, entries[i].key)
    case _ => true
  }

  /** At every node, the depth and the lengths are within limits. */
  ghost predicate WithinLimits(p: Policy, op: Operand, depth: nat) {
    forall path :: At(op, path).Some? ==> depth + |path| <= p.maxNestingDepth && NodeOk(p, At(op, path).value)
  }

  lemma {:induction false} ItemsExactly(p: Policy, items: seq<Operand>, depth: nat)
    ensures ValidateItems(p, items, depth).Ok? <==>
              forall i :: 0 <= i < |items| ==> ValidateOperand(p, items[i], depth).Ok?
    decreases |items|
  {
    if items != [] {
      ItemsExactly(p, items[1..], depth);
      assert forall i :: 1 <= i < |items| ==> items[i] == items[1..][i - 1];
    }
  }

  lemma {:induction false} EntriesExactly(p: Policy, entries: seq<Entry>, depth: nat)
    ensures ValidateEntries(p, entries, depth).Ok? <==>
              forall i :: 0 <= i < |entries| ==>
                StringOk(p, entries[i].key) && ValidateOperand(p, entries[i].value, depth).Ok?
    decreases |entries|
  {
    if entries != [] {
      EntriesExactly(p, entries[1..], depth);
      assert forall i :: 1 <= i < |entries| ==> entries[i] == entries[1..][i - 1];
    }
  }

  function Children(op: Operand): seq<Operand> {
    match op
    case List(items) => items
    case Map(entries) => seq(|entries|, i requires 0 <= i < |entries| => entries[i].value)
    case _ => []
  }

  /** A tree is within limits when its root is and its subtrees are. */
  lemma {:induction false} LimitsUnfold(p: Policy, op: Operand, depth: nat)
    ensures WithinLimits(p, op, depth) <==>
              && depth <= p.maxNestingDepth && NodeOk(p, op)
              && forall i :: 0 <= i < |Children(op)| ==> WithinLimits(p, Children(op)[i], depth + 1)
  {
    if WithinLimits(p, op, depth) {
      assert At(op, []) == Some(op);
      forall i | 0 <= i < |Children(op)|
        ensures WithinLimits(p, Children(op)[i], depth + 1)
      {
        forall path | At(Children(op)[i], path).Some?
          ensures depth + 1 + |path| <= p.maxNestingDepth && NodeOk(p, At(Children(op)[i], path).value)
        {
          assert ([i] + path)[1..] == path;
          assert At(op, [i] + path) == At(Children(op)[i], path);
        }
      }
    } else {
      var path :| At(op, path).Some? && !(depth + |path| <= p.maxNestingDepth && NodeOk(p, At(op, path).value));
      if path != [] {
        assert At(op, path) == At(Children(op)[path[0]], path[1..]);
        assert depth + |path| == depth + 1 + |path[1..]|;
      }
    }
  }

  /** The recursive check, seen the same way. */
  lemma {:induction false} ValidateUnfold(p: Policy, op: Operand, depth: nat)
    ensures ValidateOperand(p, op, depth).Ok? <==>
              && depth <= p.maxNestingDepth && NodeOk(p, op)
              && forall i :: 0 <= i < |Children(op)| ==> ValidateOperand(p, Children(op)[i], depth + 1).Ok?
  {
    match op {
      case List(items) =>
        ItemsExactly(p, items, depth + 1);
        assert Children(op) == items;
      case Map(entries) =>
        EntriesExactly(p, entries, depth + 1);
        assert forall i :: 0 <= i < |entries| ==> Children(op)[i] == entries[i].value;
      case _ =>
    }
  }

  ghost predicate Agrees(p: Policy, op: Operand, depth: nat) {
    ValidateOperand(p, op, depth).Ok? <==> WithinLimits(p, op, depth)
  }

  lemma {:induction false} AgreesUnfold(p: Policy, op: Operand, depth: nat)
    requires forall i :: 0 <= i < |Children(op)| ==> Agrees(p, Children(op)[i], depth + 1)
    ensures Agrees(p, op, depth)
  {
    LimitsUnfold(p, op, depth);
    ValidateUnfold(p, op, depth);
    assert forall i :: 0 <= i < |Children(op)| ==>
      ValidateOperand(p, Children(op)[i], depth + 1).Ok? == WithinLimits(p, Children(op)[i], depth + 1);
  }

  lemma {:induction false} OperandExactly(p: Policy, op: Operand, depth: nat)
    ensures Agrees(p, op, depth)
    decreases op
  {
    forall i | 0 <= i < |Children(op)|
      ensures Agrees(p, Children(op)[i], depth + 1)
    {
      if op.List? { OperandExactly(p, op.items[i], depth + 1); } else { OperandExactly(p, op.entries[i].value, depth + 1); }
    }
    AgreesUnfold(p, op, depth);
  }

  /** A packet passes the safety checks exactly when the operand count, taken
      modulo 2^32, is within its limit and so is every node of every tree. */
  lemma {:induction false} PassesExactly(p: Policy, ops: seq<Operand>)
    ensures ValidatePacket(p, ops).Ok? <==>
              |ops| % U32 <= p.maxOperandCount && forall i :: 0 <= i < |ops| ==> WithinLimits(p, ops[i], 0)
  {
    ItemsExactly(p, ops, 0);
    forall i | 0 <= i < |ops|
      ensures ValidateOperand(p, ops[i], 0).Ok? <==> WithinLimits(p, ops[i], 0)
    {
      OperandExactly(p, ops[i], 0);
    }
  }

  lemma {:induction false} OperandErrors(p: Policy, op: Operand, depth: nat)
    ensures var r := ValidateOperand(p, op, depth); r.Err? ==> r.error == PayloadTooLarge
    decreases op, 1
  {
    match op {
      case List(items) => ItemsErrors(p, items, depth + 1);
      case Map(entries) => EntriesErrors(p, entries, depth + 1);
      case _ =>
    }
  }

  lemma {:induction false} ItemsErrors(p: Policy, items: seq<Operand>, depth: nat)
    ensures var r := ValidateItems(p, items, depth); r.Err? ==> r.error == PayloadTooLarge
    decreases items, 0
  {
    if items != [] {
      OperandErrors(p, items[0], depth);
      ItemsErrors(p, items[1..], depth);
    }
  }

  lemma {:induction false} EntriesErrors(p: Policy, entries: seq<Entry>, depth: nat)
    ensures var r := ValidateEntries(p, entries, depth); r.Err? ==> r.error == PayloadTooLarge
    decreases entries, 0
  {
    if entries != [] {
      OperandErrors(p, entries[0].value, depth);
      EntriesErrors(p, entries[1..], depth);
    }
  }

  /** Too many operands give one error, and any node beyond its limits the other. */
  lemma {:induction false} LimitErrors(p: Policy, ops: seq<Operand>)
    ensures var r := ValidatePacket(p, ops);
      && (r == Err(OperandCount) <==> |ops| % 0x1_0000_0000 > p.maxOperandCount)
      && (r.Err? ==> r.error == OperandCount || r.error == PayloadTooLarge)
  {
    ItemsErrors(p, ops, 0);
  }

  /** Tightening the limits never lets more through. */
  lemma {:induction false} Monotone(p: Policy, q: Policy, ops: seq<Operand>)
    requires p.maxOperandCount <= q.maxOperandCount && p.maxStringLength <= q.maxStringLength
    requires p.maxBytesLength <= q.maxBytesLength && p.maxNestingDepth <= q.maxNestingDepth
    requires ValidatePacket(p, ops).Ok?
    ensures ValidatePacket(q, ops).Ok?
  {
    PassesExactly(p, ops);
    PassesExactly(q, ops);
    forall i | 0 <= i < |ops|
      ensures WithinLimits(q, ops[i], 0)
    {
      assert WithinLimits(p, ops[i], 0);
    }
  }
}
