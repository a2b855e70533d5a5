/** What a guarded method does: ask, and either go on as the method always did
    or return at once. */
module GuardedBody {
  import opened Bytes
  import opened Status
  import opened Instructions
  import opened References
  import opened CodeEditor
  import opened Insertion
  import opened Simulation

  const IFEQ := Instruction(0, 153, false, Branch(0))

  function GuardBlock(prologue: seq<Instruction>, tail: seq<Instruction>): seq<Instruction> {
    prologue + [IFEQ] + tail
  }

  /** Code in front of a body, and room for it. */
  predicate Guardable(e: Editor, prologue: seq<Instruction>, tail: seq<Instruction>) {
    && Consistent(e) && |e.code| > 0
    && AllWellFormed(prologue) && AllWellFormed(tail)
    && Committed(e, 0, GuardBlock(prologue, tail)).codeLength <= MAX_CODE_LENGTH
  }

  /** The insertion at offset 0, with the branch led to where the body now is. */
  function Guarded(e: Editor, prologue: seq<Instruction>, tail: seq<Instruction>): Editor
    requires |Committed(e, 0, GuardBlock(prologue, tail)).code| > |prologue| + 1 + |tail|
  {
    var after := Committed(e, 0, GuardBlock(prologue, tail));
    var k := |prologue|;
    after.(code := after.code[k := after.code[k].(operand := Branch(BodyStart(after, prologue, tail)))])
  }

  function BodyStart(after: Editor, prologue: seq<Instruction>, tail: seq<Instruction>): int
    requires |after.code| > |prologue| + 1 + |tail|
  {
    after.code[|prologue| + 1 + |tail|].offset
  }

  lemma BlockIsWellFormed(e: Editor, prologue: seq<Instruction>, tail: seq<Instruction>)
    requires Guardable(e, prologue, tail)
    ensures AllWellFormed(GuardBlock(prologue, tail))
    ensures |Committed(e, 0, GuardBlock(prologue, tail)).code| == |e.code| + |prologue| + 1 + |tail|
  {
    hide Consistent, Committed, WellFormed;
    WellFormedParts(prologue, tail);
    assert AllWellFormed(e.code) by { ConsistentCode(e); }
    hide AllWellFormed;
    CommittedCode(e, 0, GuardBlock(prologue, tail));
  }

  lemma ConsistentCode(e: Editor)
    requires Consistent(e)
    ensures AllWellFormed(e.code) && LaidOut(e.code, e.codeLength)
  {
    hide AllWellFormed, LaidOut, AllMap;
  }

  lemma WellFormedParts(prologue: seq<Instruction>, tail: seq<Instruction>)
    requires AllWellFormed(prologue) && AllWellFormed(tail)
    ensures AllWellFormed(GuardBlock(prologue, tail))
  {
    assert WellFormed(IFEQ);
    hide WellFormed;
  }

  /** Leading the branch elsewhere moves nothing. */
  lemma GuardedCode(e: Editor, prologue: seq<Instruction>, tail: seq<Instruction>)
    requires Guardable(e, prologue, tail)
    ensures |Committed(e, 0, GuardBlock(prologue, tail)).code| == |e.code| + |prologue| + 1 + |tail|
    ensures var after, guarded := Committed(e, 0, GuardBlock(prologue, tail)), Guarded(e, prologue, tail);
      && AllWellFormed(guarded.code) && LaidOut(guarded.code, guarded.codeLength)
      && (forall i :: 0 <= i <= |guarded.code| ==> OffsetOf(guarded.code, i) == OffsetOf(after.code, i))
  {
    hide Consistent, Committed, WellFormed, OffsetOf, MapNode;
    BlockIsWellFormed(e, prologue, tail);
    ConsistentCode(e);
    var block := GuardBlock(prologue, tail);
    var after := Committed(e, 0, block);
    CommittedCode(e, 0, block);
    BranchKept(e, prologue, tail);
    Retargeted(after, |prologue|, BodyStart(after, prologue, tail));
  }

  lemma Retargeted(after: Editor, k: nat, target: int)
    requires AllWellFormed(after.code) && LaidOut(after.code, after.codeLength)
    requires k < |after.code| && after.code[k].opcode == 153 && !after.code[k].wide && after.code[k].operand.Branch?
    ensures var code := after.code[k := after.code[k].(operand := Branch(target))];
      && AllWellFormed(code) && LaidOut(code, after.codeLength)
      && (forall i :: 0 <= i <= |code| ==> OffsetOf(code, i) == OffsetOf(after.code, i))
  {
    var code := after.code[k := after.code[k].(operand := Branch(target))];
    BranchLength(after.code[k], target);
    hide WellFormed, OffsetOf;
    forall i | 0 <= i < |code| ensures SameLength(code[i], after.code[i]) {
    }
    hide SameLength;
    forall i | 0 <= i <= |code| ensures OffsetOf(code, i) == OffsetOf(after.code, i) {
      SameLengthSameOffsets(code, after.code, i);
    }
  }

  /** The node in the middle still is the branch it was built as. */
  lemma BranchKept(e: Editor, prologue: seq<Instruction>, tail: seq<Instruction>)
    requires Guardable(e, prologue, tail)
    ensures var after := Committed(e, 0, GuardBlock(prologue, tail));
      && |prologue| < |after.code| && after.code[|prologue|].opcode == 153 && !after.code[|prologue|].wide
      && after.code[|prologue|].operand.Branch?
  {
    hide Committed, Consistent, OffsetOf, Relisted, WellFormed;
    BlockIsWellFormed(e, prologue, tail);
    ConsistentCode(e);
    var block := GuardBlock(prologue, tail);
    assert block[|prologue|] == IFEQ;
    CommittedBlock(e, 0, block, |prologue|);
  }

  lemma BranchLength(node: Instruction, target: int)
    requires node.opcode == 153 && !node.wide && node.operand.Branch?
    ensures WellFormed(node.(operand := Branch(target))) && SameLength(node.(operand := Branch(target)), node)
  {
  }

  /** Every operation of the block is what it was built as. */
  lemma BlockOperation(e: Editor, prologue: seq<Instruction>, tail: seq<Instruction>, k: nat)
    requires Guardable(e, prologue, tail) && k < |prologue| + 1 + |tail|
    ensures |Committed(e, 0, GuardBlock(prologue, tail)).code| == |e.code| + |prologue| + 1 + |tail|
    ensures Operation(Guarded(e, prologue, tail).code[k]) == Operation(GuardBlock(prologue, tail)[k])
  {
    hide Committed, Consistent, OffsetOf, Relisted, Operation, MapNode, WellFormed;
    BlockIsWellFormed(e, prologue, tail);
    ConsistentCode(e);
    BranchKept(e, prologue, tail);
    var block := GuardBlock(prologue, tail);
    var after := Committed(e, 0, block);
    CommittedBlock(e, 0, block, k);
    var shifted := MapNode(SHIFT(0, |block|), block[k]);
    OperationKept(SHIFT(0, |block|), block[k], shifted.offset);
    OperationKept(TO_OFFSET(Relisted(e, 0, block), after.codeLength), shifted, OffsetOf(after.code, k));
    SameNode(shifted, shifted.offset);
    RetargetedOperation(after.code[|prologue|], BodyStart(after, prologue, tail));
  }

  lemma SameNode(node: Instruction, offset: nat)
    requires offset == node.offset
    ensures node.(offset := offset) == node
  {
  }

  lemma RetargetedOperation(node: Instruction, target: int)
    requires node.operand.Branch?
    ensures Operation(node.(operand := Branch(target))) == Operation(node)
  {
  }

  // ----- running straight-line code -----

  predicate Operates(b: Body, lo: nat, ops: seq<Instruction>) {
    && lo + |ops| <= |b.code| && AllWellFormed(b.code) && LaidOut(b.code, b.length)
    && forall k :: 0 <= k < |ops| ==> Operation(b.code[lo + k]) == Operation(ops[k])
  }

  lemma {:induction false} SegmentRuns<D>(b: Body, m: Machine<D>, lo: nat, ops: seq<Instruction>, k: nat, t: D)
    requires Operates(b, lo, ops) && k <= |ops| && Through(m, ops, k, t).AT?
    ensures Run(b, m, AT(OffsetOf(b.code, lo + k), t), |ops| - k) == AT(OffsetOf(b.code, lo + |ops|), Through(m, ops, k, t).state)
    decreases |ops| - k
  {
    hide AllWellFormed, LaidOut, OffsetOf, LengthAt, OffsetToIndex, Operation;
    if k < |ops| {
      NextOffset(b.code, b.length, lo + k);
      assert Operation(b.code[lo + k]) == Operation(ops[k]);
      SegmentRuns(b, m, lo, ops, k + 1, m.exec(Operation(ops[k]), t).state);
    }
  }

  /** One instruction at index i, wherever it takes control. */
  lemma StepAt<D>(b: Body, m: Machine<D>, i: nat, t: D)
    requires AllWellFormed(b.code) && LaidOut(b.code, b.length) && i < |b.code|
    ensures var pc := OffsetOf(b.code, i);
      match m.exec(Operation(b.code[i]), t)
      case NEXT(s) => Step(b, m, AT(pc, t)) == AT(OffsetOf(b.code, i + 1), s)
      case JUMP(k, s) => k < |Targets(b.code[i].operand)| ==> Step(b, m, AT(pc, t)) == AT(Targets(b.code[i].operand)[k], s)
      case LEAVE(s) => Step(b, m, AT(pc, t)) == LEFT(s)
      case THROW(_, _) => true
  {
    hide AllWellFormed, LaidOut, OffsetOf, LengthAt, OffsetToIndex, Operation;
    NextOffset(b.code, b.length, i);
  }

  lemma PartOperates(b: Body, lo: nat, ops: seq<Instruction>, i: nat, part: seq<Instruction>)
    requires Operates(b, lo, ops) && i + |part| <= |ops| && ops[i..i + |part|] == part
    ensures Operates(b, lo + i, part)
  {
    hide AllWellFormed, LaidOut, Operation;
    forall k | 0 <= k < |part| ensures Operation(b.code[lo + i + k]) == Operation(part[k]) {
      assert ops[i + k] == ops[i..i + |part|][k] == part[k];
      assert Operation(b.code[lo + (i + k)]) == Operation(ops[i + k]);
    }
  }

  lemma PartsOperate(b: Body, prologue: seq<Instruction>, tail: seq<Instruction>)
    requires Operates(b, 0, GuardBlock(prologue, tail))
    ensures Operates(b, 0, prologue) && Operates(b, |prologue|, [IFEQ]) && Operates(b, |prologue| + 1, tail)
  {
    hide Operates;
    var block := GuardBlock(prologue, tail);
    assert block[0..0 + |prologue|] == prologue;
    PartOperates(b, 0, block, 0, prologue);
    assert block[|prologue|..|prologue| + |[IFEQ]|] == [IFEQ];
    PartOperates(b, 0, block, |prologue|, [IFEQ]);
    assert block[|prologue| + 1..|prologue| + 1 + |tail|] == tail;
    PartOperates(b, 0, block, |prologue| + 1, tail);
  }

  lemma BlockSize(prologue: seq<Instruction>, tail: seq<Instruction>)
    ensures |GuardBlock(prologue, tail)| == |prologue| + 1 + |tail|
  {
  }

  lemma GuardedOperates(e: Editor, prologue: seq<Instruction>, tail: seq<Instruction>)
    requires Guardable(e, prologue, tail)
    ensures |Committed(e, 0, GuardBlock(prologue, tail)).code| == |e.code| + |prologue| + 1 + |tail|
    ensures |Committed(e, 0, GuardBlock(prologue, tail)).code| > |prologue| + 1 + |tail|
    ensures var b := BodyOf(Guarded(e, prologue, tail));
      Operates(b, 0, prologue) && Operates(b, |prologue|, [IFEQ]) && Operates(b, |prologue| + 1, tail)
  {
    GuardedCode(e, prologue, tail);
    BlockSize(prologue, tail);
    hide Guardable, Committed, OffsetOf, Operation, AllWellFormed, LaidOut, GuardBlock;
    var b := BodyOf(Guarded(e, prologue, tail));
    var block := GuardBlock(prologue, tail);
    forall k | 0 <= k < |block| ensures Operation(b.code[k]) == Operation(block[k]) {
      BlockOperation(e, prologue, tail, k);
    }
    AllOperate(b, block);
    PartsOperate(b, prologue, tail);
  }

  lemma AllOperate(b: Body, ops: seq<Instruction>)
    requires |ops| <= |b.code| && AllWellFormed(b.code) && LaidOut(b.code, b.length)
    requires forall k :: 0 <= k < |ops| ==> Operation(b.code[k]) == Operation(ops[k])
    ensures Operates(b, 0, ops)
  {
    hide Operation, AllWellFormed, LaidOut;
    forall k | 0 <= k < |ops| ensures Operation(b.code[0 + k]) == Operation(ops[k]) {
      assert b.code[0 + k] == b.code[k];
    }
  }

  // ----- the guard says no: the method as it was -----

  /** A false guard arrives at the body with the state the branch leaves. */
  lemma GuardFalse<D>(e: Editor, prologue: seq<Instruction>, tail: seq<Instruction>, m: Machine<D>, s: D, t: D)
    requires Guardable(e, prologue, tail) && Through(m, prologue, 0, s).AT?
    requires m.exec(Operation(IFEQ), Through(m, prologue, 0, s).state) == JUMP(0, t)
    ensures |Committed(e, 0, GuardBlock(prologue, tail)).code| > |prologue| + 1 + |tail|
    ensures var after := Committed(e, 0, GuardBlock(prologue, tail));
      Run(BodyOf(Guarded(e, prologue, tail)), m, AT(0, s), |prologue| + 1) == AT(BodyStart(after, prologue, tail), t)
  {
    hide Guardable, Committed, Operation, AllWellFormed, LaidOut, Step, Through;
    GuardedOperates(e, prologue, tail);
    var b := BodyOf(Guarded(e, prologue, tail));
    FirstOffset(b.code);
    hide OffsetOf;
    SegmentRuns(b, m, 0, prologue, 0, s);
    var u := Through(m, prologue, 0, s).state;
    assert Operation(b.code[|prologue| + 0]) == Operation([IFEQ][0]);
    StepAt(b, m, |prologue|, u);
    RunComposes(b, m, AT(0, s), |prologue|, 1);
    OneStep(b, m, AT(OffsetOf(b.code, |prologue|), u));
  }

  lemma FirstOffset(code: seq<Instruction>)
    ensures OffsetOf(code, 0) == 0
  {
  }

  /** A true guard returns what the code behind the branch returns. */
  lemma GuardTrue<D>(e: Editor, prologue: seq<Instruction>, value: seq<Instruction>, leave: Instruction, m: Machine<D>, s: D, v: D, r: D)
    requires Guardable(e, prologue, value + [leave]) && Through(m, prologue, 0, s).AT?
    requires m.exec(Operation(IFEQ), Through(m, prologue, 0, s).state) == NEXT(v)
    requires Through(m, value, 0, v).AT? && m.exec(Operation(leave), Through(m, value, 0, v).state) == LEAVE(r)
    ensures |Committed(e, 0, GuardBlock(prologue, value + [leave])).code| > |prologue| + 2 + |value|
    ensures Run(BodyOf(Guarded(e, prologue, value + [leave])), m, AT(0, s), |prologue| + |value| + 2) == LEFT(r)
  {
    hide Guardable, Committed, Operation, AllWellFormed, LaidOut, Step, Through;
    var tail := value + [leave];
    GuardedOperates(e, prologue, tail);
    var b := BodyOf(Guarded(e, prologue, tail));
    FirstOffset(b.code);
    hide OffsetOf;
    SegmentRuns(b, m, 0, prologue, 0, s);
    var u := Through(m, prologue, 0, s).state;
    assert Operation(b.code[|prologue| + 0]) == Operation([IFEQ][0]);
    StepAt(b, m, |prologue|, u);
    OneStep(b, m, AT(OffsetOf(b.code, |prologue|), u));
    RunComposes(b, m, AT(0, s), |prologue|, 1);
    ValueRuns(b, m, |prologue| + 1, value, leave, v, r);
    RunComposes(b, m, AT(0, s), |prologue| + 1, |value| + 1);
  }

  lemma ValueRuns<D>(b: Body, m: Machine<D>, lo: nat, value: seq<Instruction>, leave: Instruction, v: D, r: D)
    requires Operates(b, lo, value + [leave])
    requires Through(m, value, 0, v).AT? && m.exec(Operation(leave), Through(m, value, 0, v).state) == LEAVE(r)
    ensures Run(b, m, AT(OffsetOf(b.code, lo), v), |value| + 1) == LEFT(r)
  {
    hide Operation, AllWellFormed, LaidOut, Step, Through, OffsetOf, Run, Operates;
    LastOperates(b, lo, value, leave);
    var n, u := |value|, Through(m, value, 0, v).state;
    SegmentRuns(b, m, lo, value, 0, v);
    StepAt(b, m, lo + n, u);
    OneStep(b, m, AT(OffsetOf(b.code, lo + n), u));
    RunComposes(b, m, AT(OffsetOf(b.code, lo), v), n, 1);
  }

  lemma LastOperates(b: Body, lo: nat, value: seq<Instruction>, leave: Instruction)
    requires Operates(b, lo, value + [leave])
    ensures Operates(b, lo, value) && lo + |value| < |b.code| && AllWellFormed(b.code) && LaidOut(b.code, b.length)
    ensures Operation(b.code[lo + |value|]) == Operation(leave)
  {
    hide Operation, AllWellFormed, LaidOut;
    var ops := value + [leave];
    assert Operation(b.code[lo + |value|]) == Operation(ops[|value|]);
    forall k | 0 <= k < |value| ensures Operation(b.code[lo + k]) == Operation(value[k]) {
      assert ops[k] == value[k];
    }
  }

  // ----- the body behind the guard -----

  lemma LaterOffset(code: seq<Instruction>, i: nat)
    requires AllWellFormed(code) && 0 < i <= |code|
    ensures OffsetOf(code, i) > 0
  {
    OffsetsIncrease(code, 0, i);
  }

  /** The step at any place but the branch does not see where it leads. */
  lemma SameStep<D>(a: Body, b: Body, m: Machine<D>, k: nat, j: nat, t: D)
    requires AllWellFormed(a.code) && LaidOut(a.code, a.length) && AllWellFormed(b.code) && LaidOut(b.code, b.length)
    requires a.length == b.length && a.handlers == b.handlers && |a.code| == |b.code|
    requires j <= |a.code| && j != k && forall i :: 0 <= i < |a.code| && i != k ==> a.code[i] == b.code[i]
    requires OffsetOf(a.code, j) == OffsetOf(b.code, j)
    ensures Step(a, m, AT(OffsetOf(a.code, j), t)) == Step(b, m, AT(OffsetOf(a.code, j), t))
  {
    hide AllWellFormed, LaidOut, OffsetToIndex, LengthAt, OffsetOf, Operation, Targets;
    BoundaryLookup(a.code, a.length, j);
    BoundaryLookup(b.code, b.length, j);
    SameHandler(a, b, m, OffsetOf(a.code, j));
  }

  lemma SameHandler<D>(a: Body, b: Body, m: Machine<D>, pc: int)
    requires a.handlers == b.handlers
    ensures forall x :: HandlerFor(a, m, pc, x, 0) == HandlerFor(b, m, pc, x, 0)
  {
    forall x ensures HandlerFor(a, m, pc, x, 0) == HandlerFor(b, m, pc, x, 0) {
      SameHandlerFrom(a, b, m, pc, x, 0);
    }
  }

  lemma {:induction false} SameHandlerFrom<D>(a: Body, b: Body, m: Machine<D>, pc: int, x: int, k: nat)
    requires a.handlers == b.handlers && k <= |a.handlers|
    ensures HandlerFor(a, m, pc, x, k) == HandlerFor(b, m, pc, x, k)
    decreases |a.handlers| - k
  {
    if k < |a.handlers| {
      SameHandlerFrom(a, b, m, pc, x, k + 1);
    }
  }

  lemma GuardedStep<D>(e: Editor, prologue: seq<Instruction>, tail: seq<Instruction>, m: Machine<D>, j: nat, t: D)
    requires Guardable(e, prologue, tail) && |prologue| < j
    ensures |Committed(e, 0, GuardBlock(prologue, tail)).code| > |prologue| + 1 + |tail|
    ensures var after := Committed(e, 0, GuardBlock(prologue, tail));
      j <= |after.code| ==>
        Step(BodyOf(Guarded(e, prologue, tail)), m, AT(OffsetOf(after.code, j), t))
        == Step(BodyOf(after), m, AT(OffsetOf(after.code, j), t))
  {
    hide Consistent, Committed, WellFormed, OffsetOf, Step;
    GuardedCode(e, prologue, tail);
    BlockIsWellFormed(e, prologue, tail);
    ConsistentCode(e);
    CommittedCode(e, 0, GuardBlock(prologue, tail));
    hide AllWellFormed, LaidOut, GuardBlock;
    var after := Committed(e, 0, GuardBlock(prologue, tail));
    if j <= |after.code| {
      SameStep(BodyOf(after), BodyOf(Guarded(e, prologue, tail)), m, |prologue|, j, t);
    }
  }

  /** What is known of a guarded method before it runs. */
  lemma Setup(e: Editor, prologue: seq<Instruction>, tail: seq<Instruction>)
    requires Guardable(e, prologue, tail)
    ensures Consistent(e) && AllWellFormed(e.code) && LaidOut(e.code, e.codeLength) && |e.code| > 0
    ensures var block := GuardBlock(prologue, tail); var after, move := Committed(e, 0, block), MoveOf(e, 0, block);
      && AllWellFormed(block) && |block| == |prologue| + 1 + |tail| && after.codeLength <= MAX_CODE_LENGTH
      && |after.code| == |e.code| + |block| && AllWellFormed(after.code) && LaidOut(after.code, after.codeLength)
      && LegalMove(move) && move == MOVE(e.code, e.codeLength, 0, |block|, after.code, after.codeLength)
      && BodyStart(after, prologue, tail) == OffsetOf(after.code, |block|)
      && OffsetOf(e.code, 0) == 0 && OffsetOf(after.code, 0) == 0
  {
    hide Guardable, Consistent, Committed, OffsetOf, LegalMove, AllWellFormed, GuardBlock;
    GuardableParts(e, prologue, tail);
    ConsistentCode(e);
    BlockIsWellFormed(e, prologue, tail);
    BlockSize(prologue, tail);
    var after := Committed(e, 0, GuardBlock(prologue, tail));
    MoveIsLegal(e, 0, GuardBlock(prologue, tail));
    CommittedCode(e, 0, GuardBlock(prologue, tail));
    FirstOffset(e.code);
    FirstOffset(after.code);
    hide LaidOut;
    LaidOutLookups(after.code, after.codeLength, |prologue| + 1 + |tail|);
  }

  lemma GuardableParts(e: Editor, prologue: seq<Instruction>, tail: seq<Instruction>)
    requires Guardable(e, prologue, tail)
    ensures Consistent(e) && |e.code| > 0 && Committed(e, 0, GuardBlock(prologue, tail)).codeLength <= MAX_CODE_LENGTH
  {
    hide Consistent, Committed, AllWellFormed, GuardBlock;
  }

  /** Past the last instruction both are stuck. */
  lemma AtTheEnd<D(!new)>(e: Editor, prologue: seq<Instruction>, tail: seq<Instruction>, m: Machine<D>, pc: int, s: D, t: D)
    requires Guardable(e, prologue, tail) && OffsetToIndex(e.code, e.codeLength, pc) == |e.code|
    ensures |Committed(e, 0, GuardBlock(prologue, tail)).code| > |prologue| + 1 + |tail|
    ensures Step(BodyOf(e), m, AT(pc, s)) == STUCK(s)
    ensures Step(BodyOf(Guarded(e, prologue, tail)), m, AT(Identity(MoveOf(e, 0, GuardBlock(prologue, tail)), pc), t)) == STUCK(t)
  {
    hide Guardable, Consistent, Committed, MoveOf, GuardBlock, Step, OffsetOf, LegalMove, AllWellFormed, LaidOut, Position, Identity, BodyStart, OffsetToIndex;
    Setup(e, prologue, tail);
    GuardedCode(e, prologue, tail);
    var b := BodyOf(Guarded(e, prologue, tail));
    ArrivalPoint(MoveOf(e, 0, GuardBlock(prologue, tail)), pc);
    EndIsStuck(BodyOf(e), m, pc, s);
    BoundaryLookup(b.code, b.length, |b.code|);
    EndIsStuck(b, m, OffsetOf(b.code, |b.code|), t);
  }

  // ----- the frames -----

  /** No frame can already stand where the body has moved to: one that stood at
      offset 0 stays there, all others lie behind it. */
  lemma FramesBehindBody(e: Editor, prologue: seq<Instruction>, tail: seq<Instruction>, i: nat)
    requires Guardable(e, prologue, tail) && i < |e.frames|
    ensures |Committed(e, 0, GuardBlock(prologue, tail)).code| > |prologue| + 1 + |tail|
    ensures var after := Committed(e, 0, GuardBlock(prologue, tail));
      && |after.frames| == |e.frames|
      && after.frames[i].offset != BodyStart(after, prologue, tail)
      && (if e.frames[i].offset == 0 then after.frames[i].offset == 0 < BodyStart(after, prologue, tail)
          else after.frames[i].offset > BodyStart(after, prologue, tail))
  {
    hide Guardable, Consistent, Committed, MoveOf, GuardBlock, OffsetOf, LegalMove, AllWellFormed, LaidOut, Position, Identity, BodyStart, OffsetToIndex, ExactlyMoved, MapTypes;
    Setup(e, prologue, tail);
    ConsistentFrame(e, i);
    var block := GuardBlock(prologue, tail);
    var after, move := Committed(e, 0, block), MoveOf(e, 0, block);
    CommittedTables(e, 0, block);
    var r := e.frames[i].offset;
    FoundIsBoundary(e.code, e.codeLength, r);
    ArrivalPoint(move, r);
    var j := OffsetToIndex(e.code, e.codeLength, r);
    assert after.frames[i].offset == MapPosition(move, r);
    OffsetsIncrease(after.code, 0, |block|);
    if j > 0 {
      LaterOffset(e.code, j);
      OffsetsIncrease(after.code, |block|, j + |block|);
    }
  }

  lemma ConsistentFrame(e: Editor, i: nat)
    requires Consistent(e) && i < |e.frames|
    ensures OffsetToIndex(e.code, e.codeLength, e.frames[i].offset) >= 0
  {
    hide AllWellFormed, LaidOut, CodeMaps, ExceptionsMap, LinesMap, ScopesMap, AnnotationsMap;
    assert FrameMaps(TO_INDEX(e.code, e.codeLength), e.frames[i]);
  }
}
