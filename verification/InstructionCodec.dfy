/** Bytecode to instruction list and back (chapter 6 of the JVMS): the wide
    prefix, the two padded switches, and every other operand shape. */
module InstructionCodec {
  import opened Bytes
  import opened Status
  import opened Instructions

  // ----- what a list encodes to -----

  function Zeros(n: nat): (s: seq<u1>)
    ensures |s| == n
  {
    seq(n, i => 0)
  }

  /** Switch targets as deltas from the switch. */
  function DeltaBytes(targets: seq<int>, at: int): (s: seq<u1>)
    ensures |s| == 4 * |targets|
  {
    if targets == [] then []
    else DeltaBytes(targets[..|targets| - 1], at) + U4Bytes(ToU4(targets[|targets| - 1] - at))
  }

  function CaseBytes(cases: seq<Case>, at: int): (s: seq<u1>)
    ensures |s| == 8 * |cases|
  {
    if cases == [] then []
    else
      var last := cases[|cases| - 1];
      CaseBytes(cases[..|cases| - 1], at) + U4Bytes(ToU4(last.key)) + U4Bytes(ToU4(last.target - at))
  }

  /** The operand bytes of a node whose opcode byte sits at offset at. A branch
      whose delta no longer fits is refused, a switch delta is cast. */
  function OperandBytes(node: Instruction, at: nat): Result<seq<u1>> {
    match node.operand
    case NoOperand => Success([])
    case Immediate(value) =>
      Success(if node.opcode == SIPUSH then U2Bytes(ToU2(value)) else [ToU1(value)])
    case Local(index) => Success(if node.wide then U2Bytes(index) else [ToU1(index)])
    case Iinc(index, constant) =>
      Success(if node.wide then U2Bytes(index) + U2Bytes(ToU2(constant)) else [ToU1(index), ToU1(constant)])
    case Constant(index) => Success(if node.opcode == LDC then [ToU1(index)] else U2Bytes(index))
    case CpIndex(index) => Success(U2Bytes(index))
    case InvokeInterface(index, count, zero) => Success(U2Bytes(index) + [count] + [zero])
    case InvokeDynamic(index, zeros) => Success(U2Bytes(index) + U2Bytes(zeros))
    case MultiANewArray(index, dimensions) => Success(U2Bytes(index) + [dimensions])
    case Branch(target) =>
      if FitsI2(target - at) then Success(U2Bytes(ToU2(target - at))) else Failure(BRANCH_RANGE)
    case BranchWide(target) =>
      if FitsI4(target - at) then Success(U4Bytes(ToU4(target - at))) else Failure(BRANCH_RANGE)
    case TableSwitch(otherwise, low, high, targets) =>
      Success(Zeros(Padding(at)) + U4Bytes(ToU4(otherwise - at)) + U4Bytes(ToU4(low)) + U4Bytes(ToU4(high))
              + DeltaBytes(targets, at))
    case LookupSwitch(otherwise, cases) =>
      Success(Zeros(Padding(at)) + U4Bytes(ToU4(otherwise - at)) + U4Bytes(ToU4(|cases|))
              + CaseBytes(cases, at))
  }

  function Prefix(node: Instruction): seq<u1> {
    if node.wide then [WIDE, node.opcode] else [node.opcode]
  }

  function NodeBytes(node: Instruction, at: nat): Result<seq<u1>> {
    var operand :- OperandBytes(node, at);
    Success(Prefix(node) + operand)
  }

  /** Nodes i.. written behind a buffer that already holds done bytes. */
  function ListBytes(code: seq<Instruction>, i: nat, done: seq<u1>): Result<seq<u1>>
    requires i <= |code|
    decreases |code| - i
  {
    if i == |code| then Success(done)
    else
      var bytes :- NodeBytes(code[i], |done|);
      ListBytes(code, i + 1, done + bytes)
  }

  function Encode(code: seq<Instruction>): Result<seq<u1>> {
    var bytes :- ListBytes(code, 0, []);
    if |bytes| > MAX_CODE_LENGTH then Failure(CODE_TOO_LARGE) else Success(bytes)
  }

  // ----- what a code array parses to -----

  function SkipPadding(c: Cursor): (r: Cursor)
    requires c.Valid()
    ensures r.Valid() && r.data == c.data
    ensures r.ok ==> c.ok && r.pos % 4 == 0 && r.pos == c.pos + (4 - c.pos % 4) % 4
    ensures c.Has((4 - c.pos % 4) % 4) ==> r.ok
    decreases if c.ok then 1 + (4 - c.pos % 4) % 4 else 0
  {
    if c.pos % 4 != 0 && c.ok then SkipPadding(ReadU1(c).rest) else c
  }

  function ReadTargets(c: Cursor, n: nat, at: int): (r: Read<seq<int>>)
    requires c.Valid()
    ensures r.rest.Valid() && r.rest.data == c.data && |r.value| == n
    ensures r.rest.ok <==> c.ok && c.pos + 4 * n <= |c.data|
    ensures r.rest.ok ==> r.rest.pos == c.pos + 4 * n
  {
    if n == 0 then Read([], c)
    else
      var front := ReadTargets(c, n - 1, at);
      var delta := ReadU4(front.rest);
      Read(front.value + [at + AsI4(delta.value)], delta.rest)
  }

  function ReadCases(c: Cursor, n: nat, at: int): (r: Read<seq<Case>>)
    requires c.Valid()
    ensures r.rest.Valid() && r.rest.data == c.data && |r.value| == n
    ensures r.rest.ok <==> c.ok && c.pos + 8 * n <= |c.data|
    ensures r.rest.ok ==> r.rest.pos == c.pos + 8 * n
  {
    if n == 0 then Read([], c)
    else
      var front := ReadCases(c, n - 1, at);
      var key := ReadU4(front.rest);
      var delta := ReadU4(key.rest);
      Read(front.value + [Case(AsI4(key.value), at + AsI4(delta.value))], delta.rest)
  }

  function ParseTableSwitch(c: Cursor, at: nat): (r: Result<Read<Operand>>)
    requires c.Valid()
    ensures r.Success? ==> r.value.rest.Valid() && r.value.rest.data == c.data
  {
    var aligned := SkipPadding(c);
    var otherwise := ReadU4(aligned);
    var low := ReadU4(otherwise.rest);
    var high := ReadU4(low.rest);
    if !high.rest.ok || AsI4(high.value) < AsI4(low.value) then Failure(TRUNCATED)
    else
      var span := AsI4(high.value) as int - AsI4(low.value) as int + 1;
      if span * 4 > high.rest.Remaining() then Failure(TRUNCATED)
      else
        var targets := ReadTargets(high.rest, span, at);
        Success(Read(TableSwitch(at + AsI4(otherwise.value), AsI4(low.value), AsI4(high.value), targets.value),
                     targets.rest))
  }

  function ParseLookupSwitch(c: Cursor, at: nat): (r: Result<Read<Operand>>)
    requires c.Valid()
    ensures r.Success? ==> r.value.rest.Valid() && r.value.rest.data == c.data
  {
    var aligned := SkipPadding(c);
    var otherwise := ReadU4(aligned);
    var count := ReadU4(otherwise.rest);
    if !count.rest.ok || AsI4(count.value) < 0 then Failure(TRUNCATED)
    else if AsI4(count.value) as int * 8 > count.rest.Remaining() then Failure(TRUNCATED)
    else
      var cases := ReadCases(count.rest, AsI4(count.value), at);
      Success(Read(LookupSwitch(at + AsI4(otherwise.value), cases.value), cases.rest))
  }

  /** The operand of an opcode at offset at, read from behind the opcode byte. */
  function ParseOperand(c: Cursor, opcode: u1, wide: bool, at: nat): (r: Result<Read<Operand>>)
    requires c.Valid()
    ensures r.Success? ==> r.value.rest.Valid() && r.value.rest.data == c.data
  {
    match KindOf(opcode)
    case NONE => Success(Read(NoOperand, c))
    case IMMEDIATE =>
      if opcode == SIPUSH then var v := ReadU2(c); Success(Read(Immediate(AsI2(v.value)), v.rest))
      else var v := ReadU1(c); Success(Read(Immediate(AsI1(v.value)), v.rest))
    case LOCAL =>
      if wide then var v := ReadU2(c); Success(Read(Local(v.value), v.rest))
      else var v := ReadU1(c); Success(Read(Local(v.value), v.rest))
    case IINC =>
      if wide then
        var v := ReadU2(c); var k := ReadU2(v.rest);
        Success(Read(Iinc(v.value, AsI2(k.value)), k.rest))
      else
        var v := ReadU1(c); var k := ReadU1(v.rest);
        Success(Read(Iinc(v.value, AsI1(k.value)), k.rest))
    case CONSTANT =>
      if opcode == LDC then var v := ReadU1(c); Success(Read(Operand.Constant(v.value), v.rest))
      else var v := ReadU2(c); Success(Read(Operand.Constant(v.value), v.rest))
    case CP_INDEX => var v := ReadU2(c); Success(Read(CpIndex(v.value), v.rest))
    case INVOKE_INTERFACE =>
      var v := ReadU2(c); var n := ReadU1(v.rest); var z := ReadU1(n.rest);
      Success(Read(InvokeInterface(v.value, n.value, z.value), z.rest))
    case INVOKE_DYNAMIC =>
      var v := ReadU2(c); var z := ReadU2(v.rest);
      Success(Read(InvokeDynamic(v.value, z.value), z.rest))
    case MULTIANEWARRAY =>
      var v := ReadU2(c); var d := ReadU1(v.rest);
      Success(Read(MultiANewArray(v.value, d.value), d.rest))
    case BRANCH => var v := ReadU2(c); Success(Read(Branch(at + AsI2(v.value)), v.rest))
    case BRANCH_WIDE => var v := ReadU4(c); Success(Read(BranchWide(at + AsI4(v.value)), v.rest))
    case TABLE_SWITCH => ParseTableSwitch(c, at)
    case LOOKUP_SWITCH => ParseLookupSwitch(c, at)
  }

  /** One instruction. The opcode check comes before the one for running out of
      bytes, so a wide prefix at the very end is reported as a bad opcode. */
  function ParseNode(c: Cursor): (r: Result<Read<Instruction>>)
    requires c.Valid()
    ensures r.Success? ==> r.value.rest.Valid() && r.value.rest.data == c.data && r.value.rest.ok
  {
    var first := ReadU1(c);
    var wide := first.value == WIDE;
    var opcode := if wide then ReadU1(first.rest) else first;
    if opcode.value > LAST_OPCODE || opcode.value == WIDE then
      Failure(if opcode.rest.ok then OPCODE else TRUNCATED)
    else if wide && KindOf(opcode.value) != LOCAL && KindOf(opcode.value) != IINC then
      Failure(OPCODE)
    else
      var operand :- ParseOperand(opcode.rest, opcode.value, wide, c.pos);
      if !operand.rest.ok then Failure(TRUNCATED)
      else Success(Read(Instruction(c.pos, opcode.value, wide, operand.value), operand.rest))
  }

  /** A parsed node consumes at least its opcode byte. */
  lemma ParseNodeAdvances(c: Cursor)
    requires c.Valid() && ParseNode(c).Success?
    ensures ParseNode(c).value.rest.pos > c.pos
  {
  }

  /** The nodes from the cursor on, behind those already parsed. */
  function ParseFrom(c: Cursor, done: seq<Instruction>): Result<seq<Instruction>>
    requires c.Valid() && c.ok
    decreases |c.data| - c.pos
  {
    if c.Exhausted() then Success(done)
    else
      var node :- ParseNode(c);
      ParseNodeAdvances(c);
      ParseFrom(node.rest, done + [node.value])
  }

  function Parse(code: seq<u1>): Result<seq<Instruction>> {
    ParseFrom(Cursor(code, 0, true), [])
  }
}
