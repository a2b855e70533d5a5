/** Decoded bytecode instructions: their operands, their encoded length, and the
    layout of an instruction list. */
module Instructions {
  import opened Bytes

  // section 4.7.3 of the JVMS
  const MAX_CODE_LENGTH := 65535

  const ALOAD_0: u1 := 42
  const SIPUSH: u1 := 17
  const LDC: u1 := 18
  const GOTO: u1 := 167
  const JSR: u1 := 168
  const WIDE: u1 := 196
  const GOTO_W: u1 := 200
  const JSR_W: u1 := 201
  const LAST_OPCODE: u1 := 201

  datatype Kind =
    | NONE | IMMEDIATE | LOCAL | IINC | CONSTANT | CP_INDEX | INVOKE_INTERFACE
    | INVOKE_DYNAMIC | MULTIANEWARRAY | BRANCH | BRANCH_WIDE | TABLE_SWITCH | LOOKUP_SWITCH

  function KindOf(opcode: u1): Kind {
    if opcode == 16 || opcode == 17 || opcode == 188 then IMMEDIATE
    else if 21 <= opcode <= 25 || 54 <= opcode <= 58 || opcode == 169 then LOCAL
    else if opcode == 132 then IINC
    else if 18 <= opcode <= 20 then CONSTANT
    else if 178 <= opcode <= 184 || opcode == 187 || opcode == 189 || opcode == 192 || opcode == 193 then CP_INDEX
    else if opcode == 185 then INVOKE_INTERFACE
    else if opcode == 186 then INVOKE_DYNAMIC
    else if opcode == 197 then MULTIANEWARRAY
    else if 153 <= opcode <= 168 || opcode == 198 || opcode == 199 then BRANCH
    else if opcode == 200 || opcode == 201 then BRANCH_WIDE
    else if opcode == 170 then TABLE_SWITCH
    else if opcode == 171 then LOOKUP_SWITCH
    else NONE
  }

  /** Targets are absolute: the offset of the instruction plus the stored delta. */
  datatype Case = Case(key: i4, target: int)

  datatype Operand =
    | NoOperand
    | Immediate(value: int)
    | Local(index: u2)
    | Iinc(index: u2, constant: int)
    | Constant(index: u2)
    | CpIndex(index: u2)
    | InvokeInterface(index: u2, count: u1, zero: u1)
    | InvokeDynamic(index: u2, zeros: u2)
    | MultiANewArray(index: u2, dimensions: u1)
    | Branch(target: int)
    | BranchWide(target: int)
    | TableSwitch(otherwise: int, low: i4, high: i4, targets: seq<int>)
    | LookupSwitch(otherwise: int, cases: seq<Case>)
  {
    function Kind(): Kind {
      match this
      case NoOperand => NONE
      case Immediate(_) => IMMEDIATE
      case Local(_) => LOCAL
      case Iinc(_, _) => IINC
      case Constant(_) => CONSTANT
      case CpIndex(_) => CP_INDEX
      case InvokeInterface(_, _, _) => INVOKE_INTERFACE
      case InvokeDynamic(_, _) => INVOKE_DYNAMIC
      case MultiANewArray(_, _) => MULTIANEWARRAY
      case Branch(_) => BRANCH
      case BranchWide(_) => BRANCH_WIDE
      case TableSwitch(_, _, _, _) => TABLE_SWITCH
      case LookupSwitch(_, _) => LOOKUP_SWITCH
    }

    predicate IsSwitch() { TableSwitch? || LookupSwitch? }
  }

  datatype Instruction = Instruction(offset: nat, opcode: u1, wide: bool, operand: Operand)

  /** The shape every parsed node has and every hand-built node is given. */
  predicate WellFormed(node: Instruction) {
    && node.opcode <= LAST_OPCODE
    && node.opcode != WIDE
    && node.operand.Kind() == KindOf(node.opcode)
    && (node.wide ==> node.operand.Local? || node.operand.Iinc?)
    && match node.operand
       case Immediate(value) => if node.opcode == SIPUSH then FitsI2(value) else FitsI1(value)
       case Local(index) => node.wide || index < 0x100
       case Iinc(index, constant) =>
         if node.wide then FitsI2(constant) else index < 0x100 && FitsI1(constant)
       case Constant(index) => node.opcode == LDC ==> index < 0x100
       case TableSwitch(_, low, high, targets) =>
         |targets| == high as int - low as int + 1 && 0 < |targets| <= MAX_CODE_LENGTH
       case LookupSwitch(_, cases) => |cases| < 0x8000_0000
       case _ => true
  }

  // ----- encoded length -----

  /** The opcode length table; 99 marks the two switches and 0 the wide prefix. */
  function OpcodeLength(opcode: u1): nat {
    if opcode == 16 || opcode == 18 || 21 <= opcode <= 25 || 54 <= opcode <= 58 || opcode == 169 || opcode == 188 then 2
    else if opcode == 17 || opcode == 19 || opcode == 20 || opcode == 132 || 153 <= opcode <= 168
            || 178 <= opcode <= 184 || opcode == 187 || opcode == 189 || opcode == 192 || opcode == 193
            || opcode == 198 || opcode == 199 then 3
    else if opcode == 197 then 4
    else if opcode == 185 || opcode == 186 || opcode == 200 || opcode == 201 then 5
    else if opcode == 170 || opcode == 171 then 99
    else if opcode == 196 then 0
    else 1
  }

  /** Computed wider than the stored i4s and capped at the longest code array. */
  function SwitchEntries(node: Instruction): nat {
    match node.operand
    case TableSwitch(_, low, high, _) =>
      var entries := high as int - low as int + 1;
      if high < low then 0 else if entries > MAX_CODE_LENGTH then MAX_CODE_LENGTH else entries
    case LookupSwitch(_, cases) => |cases|
    case _ => 0
  }

  function Padding(offset: nat): nat { (4 - (offset + 1) % 4) % 4 }

  function LengthAt(node: Instruction, offset: nat): nat {
    match node.operand
    case Local(_) => if node.wide then 4 else 2
    case Iinc(_, _) => if node.wide then 6 else 3
    case TableSwitch(_, _, _, _) => 1 + Padding(offset) + 12 + SwitchEntries(node) * 4
    case LookupSwitch(_, _) => 1 + Padding(offset) + 8 + SwitchEntries(node) * 8
    case _ => if node.opcode <= LAST_OPCODE then OpcodeLength(node.opcode) else 1
  }

  // ----- layout -----

  /** Where instruction i starts when the list is laid out from offset 0. */
  function OffsetOf(code: seq<Instruction>, i: nat): nat
    requires i <= |code|
  {
    if i == 0 then 0
    else var previous := OffsetOf(code, i - 1); previous + LengthAt(code[i - 1], previous)
  }

  lemma OffsetStep(code: seq<Instruction>, i: nat)
    requires i < |code|
    ensures OffsetOf(code, i + 1) == OffsetOf(code, i) + LengthAt(code[i], OffsetOf(code, i))
  {
    hide LengthAt;
  }

  predicate LaidOut(code: seq<Instruction>, length: nat) {
    && (forall i :: 0 <= i < |code| ==> code[i].offset == OffsetOf(code, i))
    && length == OffsetOf(code, |code|)
  }

  predicate AllWellFormed(code: seq<Instruction>) {
    forall i :: 0 <= i < |code| ==> WellFormed(code[i])
  }

  lemma LengthIsPositive(node: Instruction, offset: nat)
    requires WellFormed(node)
    ensures LengthAt(node, offset) >= 1
  {
  }

  /** Well-formed nodes take at least a byte each, so offsets strictly increase. */
  lemma {:induction false} OffsetsIncrease(code: seq<Instruction>, i: nat, j: nat)
    requires AllWellFormed(code)
    requires i <= j <= |code|
    ensures OffsetOf(code, i) + (j - i) <= OffsetOf(code, j)
  {
    hide LengthAt, WellFormed;
    if i < j {
      OffsetsIncrease(code, i, j - 1);
      LengthIsPositive(code[j - 1], OffsetOf(code, j - 1));
    }
  }

  /** Offsets and branch targets do not enter the encoded length. */
  predicate SameLength(a: Instruction, b: Instruction) {
    && a.opcode == b.opcode
    && a.wide == b.wide
    && a.operand.Kind() == b.operand.Kind()
    && SwitchEntries(a) == SwitchEntries(b)
  }

  lemma {:induction false} SameLengthSameOffsets(a: seq<Instruction>, b: seq<Instruction>, i: nat)
    requires i <= |a| && i <= |b|
    requires forall k :: 0 <= k < i ==> SameLength(a[k], b[k])
    ensures OffsetOf(a, i) == OffsetOf(b, i)
  {
    hide SameLength;
    if i > 0 {
      SameLengthSameOffsets(a, b, i - 1);
      SameLengthMeans(a[i - 1], b[i - 1], OffsetOf(a, i - 1));
    }
  }

  lemma SameLengthMeans(a: Instruction, b: Instruction, offset: nat)
    requires SameLength(a, b)
    ensures LengthAt(a, offset) == LengthAt(b, offset)
  {
  }

  // ----- recomputing the layout -----

  /** The list with every offset set to where the instruction now starts. */
  function Relaid(code: seq<Instruction>): (r: seq<Instruction>)
    ensures |r| == |code|
  {
    seq(|code|, i requires 0 <= i < |code| => code[i].(offset := OffsetOf(code, i)))
  }

  lemma RelaidIsLaidOut(code: seq<Instruction>)
    ensures LaidOut(Relaid(code), OffsetOf(code, |code|))
    ensures forall i :: 0 <= i <= |code| ==> OffsetOf(Relaid(code), i) == OffsetOf(code, i)
  {
    hide OffsetOf;
    var relaid := Relaid(code);
    assert forall k :: 0 <= k < |code| ==> SameLength(relaid[k], code[k]);
    hide SameLength;
    forall i | 0 <= i <= |code| ensures OffsetOf(relaid, i) == OffsetOf(code, i) {
      SameLengthSameOffsets(relaid, code, i);
    }
  }

  lemma RelaidOfLaidOut(code: seq<Instruction>, length: nat)
    requires LaidOut(code, length)
    ensures Relaid(code) == code
  {
  }

  // ----- offset lookup -----

  /** The first node from k on that starts at offset, or -1. */
  function FirstAt(code: seq<Instruction>, offset: int, k: nat): (i: int)
    requires k <= |code|
    ensures i == -1 || (k <= i < |code| && code[i].offset == offset)
    ensures i == -1 ==> forall j :: k <= j < |code| ==> code[j].offset != offset
    decreases |code| - k
  {
    if k == |code| then -1 else if code[k].offset == offset then k else FirstAt(code, offset, k + 1)
  }

  /** The end of the code counts as the index one past the last node. */
  function OffsetToIndex(code: seq<Instruction>, length: nat, offset: int): (i: int)
    ensures -1 <= i <= |code|
  {
    if offset < 0 then -1 else if offset == length then |code| else FirstAt(code, offset, 0)
  }

  function IndexToOffset(code: seq<Instruction>, length: nat, index: int): int {
    if index < 0 then -1 else if index >= |code| then length else code[index].offset
  }

  /** In a laid-out list the two lookups are inverse on the boundaries. */
  lemma BoundaryLookup(code: seq<Instruction>, length: nat, i: nat)
    requires AllWellFormed(code) && LaidOut(code, length) && i <= |code|
    ensures OffsetToIndex(code, length, OffsetOf(code, i)) == i
    ensures IndexToOffset(code, length, i) == OffsetOf(code, i)
  {
    var found := OffsetToIndex(code, length, OffsetOf(code, i));
    OffsetsIncrease(code, i, |code|);
    if 0 <= found < i {
      OffsetsIncrease(code, found, i);
    } else if i < found {
      OffsetsIncrease(code, i, found);
    }
  }

  lemma FoundIsBoundary(code: seq<Instruction>, length: nat, offset: int)
    requires LaidOut(code, length) && OffsetToIndex(code, length, offset) >= 0
    ensures OffsetOf(code, OffsetToIndex(code, length, offset)) == offset
  {
  }

  // ----- the list as it is updated -----

  class InstructionList {
    var items: seq<Instruction>
    var codeLength: nat

    constructor (code: seq<Instruction>, length: nat)
      ensures items == code && codeLength == length
    {
      items := code;
      codeLength := length;
    }

    method IndexAt(offset: int) returns (index: int)
      ensures index == OffsetToIndex(items, codeLength, offset)
    {
      if offset < 0 {
        return -1;
      }
      if offset == codeLength {
        return |items|;
      }
      for i := 0 to |items|
        invariant FirstAt(items, offset, 0) == FirstAt(items, offset, i)
      {
        if items[i].offset == offset {
          return i;
        }
      }
      return -1;
    }

    /** One pass: writes each running offset and reports whether any moved. */
    method RecomputePass() returns (changed: bool)
      modifies this
      ensures items == Relaid(old(items))
      ensures codeLength == OffsetOf(old(items), |items|)
      ensures changed <==> !LaidOut(old(items), codeLength)
    {
      ghost var before := items;
      var offset := 0;
      changed := false;
      for i := 0 to |items|
        invariant |items| == |before| && offset == OffsetOf(before, i)
        invariant forall k :: 0 <= k < i ==> items[k] == Relaid(before)[k]
        invariant forall k :: i <= k < |items| ==> items[k] == before[k]
        invariant changed <==> exists k :: 0 <= k < i && before[k].offset != OffsetOf(before, k)
      {
        var node := items[i];
        if node.offset != offset {
          items := items[i := node.(offset := offset)];
          changed := true;
        }
        offset := offset + LengthAt(node, offset);
      }
      codeLength := offset;
    }

    /** Repeats the pass until nothing moved. A pass adds up its own running
        offset, never a stored one, so the first pass already settles every
        offset and a second one can only confirm it. */
    method RecomputeOffsets() returns (ghost passes: nat)
      modifies this
      ensures items == Relaid(old(items))
      ensures codeLength == OffsetOf(old(items), |items|)
      ensures LaidOut(items, codeLength)
      ensures passes == if LaidOut(old(items), codeLength) then 1 else 2
    {
      ghost var before := items;
      passes := 0;
      var changed := true;
      while changed
        invariant passes == 0 ==> changed && items == before
        invariant passes >= 1 ==>
          && items == Relaid(before)
          && codeLength == OffsetOf(before, |before|)
          && (passes == 1 <==> changed || LaidOut(before, codeLength))
          && (passes == 1 && changed ==> !LaidOut(before, codeLength))
          && passes <= 2
        decreases 2 - passes
      {
        RelaidIsLaidOut(before);
        RelaidOfLaidOut(Relaid(before), OffsetOf(before, |before|));
        changed := RecomputePass();
        passes := passes + 1;
      }
      RelaidIsLaidOut(before);
    }
  }
}
