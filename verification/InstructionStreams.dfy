/** The parser and the encoder as they run: a cursor advanced and a buffer
    appended to, one operand at a time. Each is held to the function of the same
    purpose in InstructionCodec. */
module InstructionStreams {
  import opened Bytes
  import opened Status
  import opened Instructions
  import opened InstructionCodec

  method SkipPaddingBytes(c: ByteCursor)
    requires c.Valid()
    modifies c
    ensures c.Valid() && c.View() == SkipPadding(old(c.View()))
  {
    while c.pos % 4 != 0 && c.ok
      invariant c.Valid()
      invariant SkipPadding(c.View()) == SkipPadding(old(c.View()))
      decreases c.ok, |c.data| - c.pos
    {
      var _ := c.U1();
    }
  }

  method ReadTargetRun(c: ByteCursor, entries: nat, at: int) returns (targets: seq<int>)
    requires c.Valid()
    modifies c
    ensures c.Valid() && Read(targets, c.View()) == ReadTargets(old(c.View()), entries, at)
  {
    targets := [];
    for i := 0 to entries
      invariant c.Valid() && Read(targets, c.View()) == ReadTargets(old(c.View()), i, at)
    {
      var delta := c.U4();
      targets := targets + [at + AsI4(delta)];
    }
  }

  method ReadCaseRun(c: ByteCursor, pairs: nat, at: int) returns (cases: seq<Case>)
    requires c.Valid()
    modifies c
    ensures c.Valid() && Read(cases, c.View()) == ReadCases(old(c.View()), pairs, at)
  {
    cases := [];
    for i := 0 to pairs
      invariant c.Valid() && Read(cases, c.View()) == ReadCases(old(c.View()), i, at)
    {
      var key := c.U4();
      var delta := c.U4();
      cases := cases + [Case(AsI4(key), at + AsI4(delta))];
    }
  }

  method ReadTableSwitch(c: ByteCursor, at: nat) returns (r: Result<Operand>)
    requires c.Valid()
    modifies c
    ensures c.Valid()
    ensures var spec := ParseTableSwitch(old(c.View()), at);
            if r.Success? then spec == Success(Read(r.value, c.View())) else spec == Failure(r.status)
  {
    hide SkipPadding, ReadTargets, ReadU4, AsI4;
    SkipPaddingBytes(c);
    var otherwise := c.U4();
    var low := c.U4();
    var high := c.U4();
    if !c.ok || AsI4(high) < AsI4(low) {
      return Failure(TRUNCATED);
    }
    var span := AsI4(high) as int - AsI4(low) as int + 1;
    if span * 4 > (if c.ok then |c.data| - c.pos else 0) {
      return Failure(TRUNCATED);
    }
    var targets := ReadTargetRun(c, span, at);
    r := Success(TableSwitch(at + AsI4(otherwise), AsI4(low), AsI4(high), targets));
  }

  method ReadLookupSwitch(c: ByteCursor, at: nat) returns (r: Result<Operand>)
    requires c.Valid()
    modifies c
    ensures c.Valid()
    ensures var spec := ParseLookupSwitch(old(c.View()), at);
            if r.Success? then spec == Success(Read(r.value, c.View())) else spec == Failure(r.status)
  {
    hide SkipPadding, ReadCases, ReadU4, AsI4;
    SkipPaddingBytes(c);
    var otherwise := c.U4();
    var count := c.U4();
    if !c.ok || AsI4(count) < 0 {
      return Failure(TRUNCATED);
    }
    if AsI4(count) as int * 8 > (if c.ok then |c.data| - c.pos else 0) {
      return Failure(TRUNCATED);
    }
    var cases := ReadCaseRun(c, AsI4(count), at);
    r := Success(LookupSwitch(at + AsI4(otherwise), cases));
  }

  method ReadOperand(c: ByteCursor, opcode: u1, wide: bool, at: nat) returns (r: Result<Operand>)
    requires c.Valid()
    modifies c
    ensures c.Valid()
    ensures var spec := ParseOperand(old(c.View()), opcode, wide, at);
            if r.Success? then spec == Success(Read(r.value, c.View())) else spec == Failure(r.status)
  {
    hide ReadU1, ReadU2, ReadU4, AsI1, AsI2, AsI4, ParseTableSwitch, ParseLookupSwitch;
    match KindOf(opcode) {
      case NONE =>
        r := Success(NoOperand);
      case IMMEDIATE =>
        if opcode == SIPUSH {
          var v := c.U2();
          r := Success(Immediate(AsI2(v)));
        } else {
          var v := c.U1();
          r := Success(Immediate(AsI1(v)));
        }
      case LOCAL =>
        var v;
        if wide { v := c.U2(); } else { v := c.U1(); }
        r := Success(Local(v));
      case IINC =>
        if wide {
          var v := c.U2();
          var k := c.U2();
          r := Success(Iinc(v, AsI2(k)));
        } else {
          var v := c.U1();
          var k := c.U1();
          r := Success(Iinc(v, AsI1(k)));
        }
      case CONSTANT =>
        var v;
        if opcode == LDC { v := c.U1(); } else { v := c.U2(); }
        r := Success(Operand.Constant(v));
      case CP_INDEX =>
        var v := c.U2();
        r := Success(CpIndex(v));
      case INVOKE_INTERFACE =>
        var v := c.U2();
        var count := c.U1();
        var zero := c.U1();
        r := Success(InvokeInterface(v, count, zero));
      case INVOKE_DYNAMIC =>
        var v := c.U2();
        var zeros := c.U2();
        r := Success(InvokeDynamic(v, zeros));
      case MULTIANEWARRAY =>
        var v := c.U2();
        var dimensions := c.U1();
        r := Success(MultiANewArray(v, dimensions));
      case BRANCH =>
        var delta := c.U2();
        r := Success(Branch(at + AsI2(delta)));
      case BRANCH_WIDE =>
        var delta := c.U4();
        r := Success(BranchWide(at + AsI4(delta)));
      case TABLE_SWITCH =>
        r := ReadTableSwitch(c, at);
      case LOOKUP_SWITCH =>
        r := ReadLookupSwitch(c, at);
    }
  }

  method ReadNode(c: ByteCursor) returns (r: Result<Instruction>)
    requires c.Valid()
    modifies c
    ensures c.Valid()
    ensures var spec := ParseNode(old(c.View()));
            if r.Success? then spec == Success(Read(r.value, c.View())) else spec == Failure(r.status)
  {
    hide ReadU1, ParseOperand, KindOf;
    var offset := c.pos;
    var wide := false;
    var opcode := c.U1();
    if opcode == WIDE {
      wide := true;
      opcode := c.U1();
    }
    if opcode > LAST_OPCODE || opcode == WIDE {
      return Failure(if c.ok then OPCODE else TRUNCATED);
    }
    if wide && KindOf(opcode) != LOCAL && KindOf(opcode) != IINC {
      return Failure(OPCODE);
    }
    var operand := ReadOperand(c, opcode, wide, offset);
    if operand.Failure? {
      return Failure(operand.status);
    }
    if !c.ok {
      return Failure(TRUNCATED);
    }
    r := Success(Instruction(offset, opcode, wide, operand.value));
  }

  method ParseList(code: seq<u1>) returns (r: Result<seq<Instruction>>)
    ensures r == Parse(code)
  {
    hide ParseNode;
    var c := new ByteCursor(code);
    var list := [];
    while !(c.pos == |c.data|) && c.ok
      invariant c.Valid() && c.ok
      invariant ParseFrom(c.View(), list) == Parse(code)
      decreases |c.data| - c.pos
    {
      ghost var before := c.View();
      var node := ReadNode(c);
      if node.Failure? {
        return Failure(node.status);
      }
      ParseNodeAdvances(before);
      list := list + [node.value];
    }
    r := Success(list);
  }

  // ----- writing -----

  method WritePadding(b: ByteBuffer)
    requires |b.data| > 0
    modifies b
    ensures b.data == old(b.data) + Zeros(Padding(|old(b.data)| - 1))
  {
    ghost var n := Padding(|b.data| - 1);
    ghost var written := 0;
    while |b.data| % 4 != 0
      invariant 0 <= written <= n
      invariant b.data == old(b.data) + Zeros(written)
      decreases n - written
    {
      b.U1(0);
      written := written + 1;
      assert Zeros(written) == Zeros(written - 1) + [0];
    }
    assert written == n;
  }

  method WriteTargets(b: ByteBuffer, targets: seq<int>, at: int)
    modifies b
    ensures b.data == old(b.data) + DeltaBytes(targets, at)
  {
    for k := 0 to |targets|
      invariant b.data == old(b.data) + DeltaBytes(targets[..k], at)
    {
      hide U4Bytes, ToU4;
      b.U4(ToU4(targets[k] - at));
      assert targets[..k + 1][..k] == targets[..k];
    }
    assert targets[..|targets|] == targets;
  }

  method WriteCases(b: ByteBuffer, cases: seq<Case>, at: int)
    modifies b
    ensures b.data == old(b.data) + CaseBytes(cases, at)
  {
    for k := 0 to |cases|
      invariant b.data == old(b.data) + CaseBytes(cases[..k], at)
    {
      hide U4Bytes, ToU4;
      b.U4(ToU4(cases[k].key));
      b.U4(ToU4(cases[k].target - at));
      assert cases[..k + 1][..k] == cases[..k];
    }
    assert cases[..|cases|] == cases;
  }

  method WriteOperand(b: ByteBuffer, node: Instruction, at: nat) returns (status: Status)
    requires node.operand.IsSwitch() ==> |b.data| == at + 1
    modifies b
    ensures var spec := OperandBytes(node, at);
            if status == OK then spec.Success? && b.data == old(b.data) + spec.value
            else spec == Failure(status)
  {
    hide U2Bytes, U4Bytes, ToU1, ToU2, ToU4, DeltaBytes, CaseBytes, Padding, Zeros;
    status := OK;
    match node.operand {
      case NoOperand =>
      case Immediate(value) =>
        if node.opcode == SIPUSH { b.U2(ToU2(value)); } else { b.U1(ToU1(value)); }
      case Local(index) =>
        if node.wide { b.U2(index); } else { b.U1(ToU1(index)); }
      case Iinc(index, constant) =>
        if node.wide {
          b.U2(index);
          b.U2(ToU2(constant));
        } else {
          b.U1(ToU1(index));
          b.U1(ToU1(constant));
        }
      case Constant(index) =>
        if node.opcode == LDC { b.U1(ToU1(index)); } else { b.U2(index); }
      case CpIndex(index) =>
        b.U2(index);
      case InvokeInterface(index, count, zero) =>
        b.U2(index);
        b.U1(count);
        b.U1(zero);
      case InvokeDynamic(index, zeros) =>
        b.U2(index);
        b.U2(zeros);
      case MultiANewArray(index, dimensions) =>
        b.U2(index);
        b.U1(dimensions);
      case Branch(target) =>
        if !FitsI2(target - at) {
          return BRANCH_RANGE;
        }
        b.U2(ToU2(target - at));
      case BranchWide(target) =>
        if !FitsI4(target - at) {
          return BRANCH_RANGE;
        }
        b.U4(ToU4(target - at));
      case TableSwitch(otherwise, low, high, targets) =>
        WritePadding(b);
        b.U4(ToU4(otherwise - at));
        b.U4(ToU4(low));
        b.U4(ToU4(high));
        WriteTargets(b, targets, at);
      case LookupSwitch(otherwise, cases) =>
        WritePadding(b);
        b.U4(ToU4(otherwise - at));
        b.U4(ToU4(|cases|));
        WriteCases(b, cases, at);
    }
  }

  method WriteNode(b: ByteBuffer, node: Instruction) returns (status: Status)
    requires node.operand.IsSwitch() ==> !node.wide
    modifies b
    ensures var spec := NodeBytes(node, |old(b.data)|);
            if status == OK then spec.Success? && b.data == old(b.data) + spec.value
            else spec == Failure(status)
  {
    hide OperandBytes;
    var offset := |b.data|;
    ghost var before := b.data;
    if node.wide {
      b.U1(WIDE);
    }
    b.U1(node.opcode);
    assert b.data == before + Prefix(node);
    status := WriteOperand(b, node, offset);
  }

  method EncodeList(code: seq<Instruction>) returns (r: Result<seq<u1>>)
    requires AllWellFormed(code)
    ensures r == Encode(code)
  {
    hide NodeBytes;
    var b := new ByteBuffer();
    for i := 0 to |code|
      invariant ListBytes(code, i, b.data) == ListBytes(code, 0, [])
    {
      assert WellFormed(code[i]);
      var status := WriteNode(b, code[i]);
      if status != OK {
        return Failure(status);
      }
    }
    if |b.data| > MAX_CODE_LENGTH {
      return Failure(CODE_TOO_LARGE);
    }
    r := Success(b.data);
  }
}
