/** What a code array says, read off its bytes: chapter 6 of the JVMS, format by
    format, and that parsing reads just that. */
module InstructionMeaning {
  import opened Bytes
  import opened BigEndian
  import opened Status
  import opened Instructions
  import opened InstructionCodec

  // ----- the formats -----

  /** The operand of an opcode, whose bytes are those from p up to end. The
      instruction itself stands at offset at. */
  predicate OperandMeans(d: seq<u1>, opcode: int, wide: bool, at: nat, p: nat, operand: Operand, end: nat)
    requires p <= end <= |d|
  {
    if 153 <= opcode <= 168 || opcode == 198 || opcode == 199 then
      // if<cond>, goto, jsr, ifnull, ifnonnull: branchbyte1 branchbyte2
      end == p + 2 && operand == Branch(at + Signed2(d, p))
    else if opcode == 200 || opcode == 201 then
      // goto_w, jsr_w: four branch bytes
      end == p + 4 && operand == BranchWide(at + Signed4(d, p))
    else if opcode == 170 then TableMeans(d, at, p, operand, end)
    else if opcode == 171 then LookupMeans(d, at, p, operand, end)
    else if opcode == 16 || opcode == 188 then
      // bipush: byte; newarray: atype
      end == p + 1 && operand == Immediate(Signed1(d, p))
    else if opcode == 17 then
      // sipush: byte1 byte2
      end == p + 2 && operand == Immediate(Signed2(d, p))
    else if opcode == 18 then
      // ldc: index
      end == p + 1 && operand == Operand.Constant(d[p])
    else if opcode == 19 || opcode == 20 then
      // ldc_w, ldc2_w: indexbyte1 indexbyte2
      end == p + 2 && operand == Operand.Constant(Unsigned2(d, p))
    else if 21 <= opcode <= 25 || 54 <= opcode <= 58 || opcode == 169 then
      // loads, stores, ret: index, in the wide form indexbyte1 indexbyte2
      if wide then end == p + 2 && operand == Local(Unsigned2(d, p)) else end == p + 1 && operand == Local(d[p])
    else if opcode == 132 then
      // iinc: index const, in the wide form two bytes each
      if wide then end == p + 4 && operand == Iinc(Unsigned2(d, p), Signed2(d, p + 2))
      else end == p + 2 && operand == Iinc(d[p], Signed1(d, p + 1))
    else if 178 <= opcode <= 184 || opcode == 187 || opcode == 189 || opcode == 192 || opcode == 193 then
      // fields, calls, new, anewarray, checkcast, instanceof: indexbyte1 indexbyte2
      end == p + 2 && operand == CpIndex(Unsigned2(d, p))
    else if opcode == 185 then
      // invokeinterface: indexbyte1 indexbyte2 count 0
      end == p + 4 && operand == InvokeInterface(Unsigned2(d, p), d[p + 2], d[p + 3])
    else if opcode == 186 then
      // invokedynamic: indexbyte1 indexbyte2 0 0
      end == p + 4 && operand == InvokeDynamic(Unsigned2(d, p), Unsigned2(d, p + 2))
    else if opcode == 197 then
      // multianewarray: indexbyte1 indexbyte2 dimensions
      end == p + 3 && operand == MultiANewArray(Unsigned2(d, p), d[p + 2])
    else end == p && operand == NoOperand
  }

  /** The first multiple of four from p on. */
  predicate Aligned(p: nat, a: nat) {
    p <= a < p + 4 && a % 4 == 0
  }

  predicate TargetsStand(d: seq<u1>, at: nat, p: nat, targets: seq<int>)
    requires p + 4 * |targets| <= |d|
  {
    forall k :: 0 <= k < |targets| ==> targets[k] == at + Signed4(d, p + 4 * k)
  }

  predicate CasesStand(d: seq<u1>, at: nat, p: nat, cases: seq<Case>)
    requires p + 8 * |cases| <= |d|
  {
    forall k :: 0 <= k < |cases| ==>
      cases[k].key == Signed4(d, p + 8 * k) && cases[k].target == at + Signed4(d, p + 8 * k + 4)
  }

  /** tableswitch: padding, default, low, high, high - low + 1 offsets. */
  predicate TableMeans(d: seq<u1>, at: nat, p: nat, operand: Operand, end: nat)
    requires p <= end <= |d|
  {
    operand.TableSwitch? && exists a: nat ::
      && Aligned(p, a)
      && end == a + 12 + 4 * |operand.targets|
      && operand.otherwise == at + Signed4(d, a)
      && operand.low == Signed4(d, a + 4) && operand.high == Signed4(d, a + 8)
      && |operand.targets| == operand.high - operand.low + 1
      && TargetsStand(d, at, a + 12, operand.targets)
  }

  /** lookupswitch: padding, default, npairs, npairs keys each with an offset. */
  predicate LookupMeans(d: seq<u1>, at: nat, p: nat, operand: Operand, end: nat)
    requires p <= end <= |d|
  {
    operand.LookupSwitch? && exists a: nat ::
      && Aligned(p, a)
      && end == a + 8 + 8 * |operand.cases|
      && operand.otherwise == at + Signed4(d, a)
      && |operand.cases| == Signed4(d, a + 4)
      && CasesStand(d, at, a + 8, operand.cases)
  }

  predicate Widens(opcode: int) {
    21 <= opcode <= 25 || 54 <= opcode <= 58 || opcode == 169 || opcode == 132
  }

  /** The instruction whose bytes are those from its offset up to end. */
  predicate NodeMeans(d: seq<u1>, node: Instruction, end: nat) {
    var at := node.offset;
    && node.opcode <= 201 && node.opcode != 196
    && if node.wide then
         && at + 2 <= end <= |d| && d[at] == 196 && d[at + 1] == node.opcode && Widens(node.opcode)
         && OperandMeans(d, node.opcode, true, at, at + 2, node.operand, end)
       else
         && at + 1 <= end <= |d| && d[at] == node.opcode
         && OperandMeans(d, node.opcode, false, at, at + 1, node.operand, end)
  }

  /** Where instruction k ends: where the next one starts, or the code does. */
  function EndOf(d: seq<u1>, list: seq<Instruction>, k: nat): nat
    requires k < |list|
  {
    if k + 1 < |list| then list[k + 1].offset else |d|
  }

  /** The list is what the bytes say, from the first to the last. */
  predicate ListMeans(d: seq<u1>, list: seq<Instruction>) {
    && (if list == [] then d == [] else list[0].offset == 0)
    && forall k :: 0 <= k < |list| ==> NodeMeans(d, list[k], EndOf(d, list, k))
  }

  // ----- what the readers read -----

  lemma StillOk4(c: Cursor)
    requires c.Valid() && ReadU4(c).rest.ok
    ensures c.ok
  {
  }

  lemma {:induction false} TargetsMean(c: Cursor, n: nat, at: nat)
    requires c.Valid() && ReadTargets(c, n, at).rest.ok
    ensures c.pos + 4 * n <= |c.data| && TargetsStand(c.data, at, c.pos, ReadTargets(c, n, at).value)
    decreases n
  {
    hide ReadU4, Signed4;
    if n > 0 {
      var front := ReadTargets(c, n - 1, at);
      StillOk4(front.rest);
      TargetsMean(c, n - 1, at);
      Read4(front.rest);
    }
  }

  lemma {:induction false} CasesMean(c: Cursor, n: nat, at: nat)
    requires c.Valid() && ReadCases(c, n, at).rest.ok
    ensures c.pos + 8 * n <= |c.data| && CasesStand(c.data, at, c.pos, ReadCases(c, n, at).value)
    decreases n
  {
    hide ReadU4, Signed4;
    if n > 0 {
      var front := ReadCases(c, n - 1, at);
      var key := ReadU4(front.rest);
      StillOk4(key.rest);
      StillOk4(front.rest);
      CasesMean(c, n - 1, at);
      Read4(front.rest);
      Read4(key.rest);
    }
  }

  lemma PaddingSkipped(c: Cursor)
    requires c.Valid() && SkipPadding(c).ok
    ensures var a := SkipPadding(c); Aligned(c.pos, a.pos) && a == Cursor(c.data, a.pos, true) && c.ok
  {
    hide SkipPadding;
  }

  lemma TableParsed(c: Cursor, at: nat)
    requires c.Valid() && ParseTableSwitch(c, at).Success? && ParseTableSwitch(c, at).value.rest.ok
    ensures var r := ParseTableSwitch(c, at).value; c.pos <= r.rest.pos <= |c.data| && TableMeans(c.data, at, c.pos, r.value, r.rest.pos)
  {
    hide ReadU4, SkipPadding, ReadTargets, Signed4, Aligned;
    var aligned := SkipPadding(c);
    var otherwise := ReadU4(aligned);
    var low := ReadU4(otherwise.rest);
    var high := ReadU4(low.rest);
    StillOk4(low.rest);
    StillOk4(otherwise.rest);
    StillOk4(aligned);
    PaddingSkipped(c);
    Read4(aligned);
    Read4(otherwise.rest);
    Read4(low.rest);
    var span := AsI4(high.value) as int - AsI4(low.value) as int + 1;
    TargetsMean(high.rest, span, at);
    AlignedBehind(c.pos, aligned.pos);
  }

  lemma AlignedBehind(p: nat, a: nat)
    requires Aligned(p, a)
    ensures p <= a
  {
  }

  lemma LookupParsed(c: Cursor, at: nat)
    requires c.Valid() && ParseLookupSwitch(c, at).Success? && ParseLookupSwitch(c, at).value.rest.ok
    ensures var r := ParseLookupSwitch(c, at).value; c.pos <= r.rest.pos <= |c.data| && LookupMeans(c.data, at, c.pos, r.value, r.rest.pos)
  {
    hide ReadU4, SkipPadding, ReadCases, Signed4, Aligned;
    var aligned := SkipPadding(c);
    var otherwise := ReadU4(aligned);
    var count := ReadU4(otherwise.rest);
    StillOk4(otherwise.rest);
    StillOk4(aligned);
    PaddingSkipped(c);
    Read4(aligned);
    Read4(otherwise.rest);
    CasesMean(count.rest, AsI4(count.value), at);
    AlignedBehind(c.pos, aligned.pos);
  }

  lemma Chained1(c: Cursor)
    requires c.Valid()
    ensures ReadU1(c).rest.ok ==> c.ok
    ensures ReadU2(c).rest.ok ==> c.ok
  {
  }

  /** Every operand is read as its format says. */
  lemma OperandParsed(c: Cursor, opcode: u1, wide: bool, at: nat)
    requires c.Valid() && c.ok && ParseOperand(c, opcode, wide, at).Success? && ParseOperand(c, opcode, wide, at).value.rest.ok
    ensures var r := ParseOperand(c, opcode, wide, at).value;
      && c.pos <= r.rest.pos <= |c.data| && r.rest == Cursor(c.data, r.rest.pos, true)
      && OperandMeans(c.data, opcode, wide, at, c.pos, r.value, r.rest.pos)
  {
    hide ReadU1, ReadU2, ReadU4, ParseTableSwitch, ParseLookupSwitch, TableMeans, LookupMeans, Signed1, Signed2, Signed4, Unsigned2, AsI1, AsI2, AsI4;
    var a1, a2, a4 := ReadU1(c), ReadU2(c), ReadU4(c);
    if a1.rest.ok { Read1(c); }
    if a2.rest.ok { Read2(c); }
    if a4.rest.ok { Read4(c); }
    match KindOf(opcode)
    case TABLE_SWITCH => TableParsed(c, at);
    case LOOKUP_SWITCH => LookupParsed(c, at);
    case IINC =>
      if wide {
        Chained1(a2.rest);
        Read2(a2.rest);
      } else {
        Chained1(a1.rest);
        Read1(a1.rest);
      }
    case INVOKE_INTERFACE =>
      var n := ReadU1(a2.rest);
      Chained1(n.rest);
      Chained1(a2.rest);
      Read1(a2.rest);
      Read1(n.rest);
    case INVOKE_DYNAMIC =>
      Chained1(a2.rest);
      Read2(a2.rest);
    case MULTIANEWARRAY =>
      Chained1(a2.rest);
      Read1(a2.rest);
    case _ =>
  }

  lemma NodeIsRead(c: Cursor)
    requires c.Valid() && ParseNode(c).Success?
    ensures var r := ParseNode(c).value;
      && r.value.offset == c.pos && c.pos < r.rest.pos <= |c.data| && r.rest == Cursor(c.data, r.rest.pos, true)
      && NodeMeans(c.data, r.value, r.rest.pos)
  {
    hide ReadU1, ParseOperand, OperandMeans;
    var first := ReadU1(c);
    var wide := first.value == WIDE;
    var opcode := if wide then ReadU1(first.rest) else first;
    var operand := ParseOperand(opcode.rest, opcode.value, wide, c.pos).value;
    OperandStillOk(opcode.rest, opcode.value, wide, c.pos);
    Chained1(first.rest);
    Read1(c);
    if wide {
      Read1(first.rest);
    }
    OperandParsed(opcode.rest, opcode.value, wide, c.pos);
  }

  lemma OperandStillOk(c: Cursor, opcode: u1, wide: bool, at: nat)
    requires c.Valid() && ParseOperand(c, opcode, wide, at).Success? && ParseOperand(c, opcode, wide, at).value.rest.ok
    ensures c.ok
  {
  }

  // ----- the whole array -----

  /** The nodes from the cursor on say what the bytes from there on say. */
  lemma {:induction false} RestMeans(c: Cursor, done: seq<Instruction>)
    requires c.Valid() && c.ok && ParseFrom(c, done).Success?
    ensures var list := ParseFrom(c, done).value;
      && done <= list
      && (if |list| > |done| then list[|done|].offset == c.pos else c.pos == |c.data|)
      && forall k :: |done| <= k < |list| ==> NodeMeans(c.data, list[k], EndOf(c.data, list, k))
    decreases |c.data| - c.pos
  {
    hide ParseNode, NodeMeans;
    if !c.Exhausted() {
      var node := ParseNode(c).value;
      NodeIsRead(c);
      RestMeans(node.rest, done + [node.value]);
      var list := ParseFrom(c, done).value;
      assert list[|done|] == node.value;
      assert EndOf(c.data, list, |done|) == node.rest.pos;
    }
  }

  /** An accepted code array is parsed to the instructions its bytes are: each node
      has the opcode, the operand and the targets written there, and they follow one
      another from the first byte to the last. */
  lemma ParseMeans(code: seq<u1>)
    requires Parse(code).Success?
    ensures ListMeans(code, Parse(code).value)
  {
    hide ParseFrom, NodeMeans;
    RestMeans(Cursor(code, 0, true), []);
    var list := Parse(code).value;
    if list == [] {
      assert code == [];
    }
  }
}
