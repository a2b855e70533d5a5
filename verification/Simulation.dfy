/** What a method body does, step by step over its stored offsets, and the
    theorem that an inserted block changes nothing else: every run of the
    original is matched by a run that executes the block once for each arrival
    at the insertion point. */
module Simulation {
  import opened Bytes
  import opened Status
  import opened Instructions
  import opened References
  import opened CodeEditor
  import opened Insertion

  // ----- running a method body -----

  /** The effect of one operation: fall through, take one of its targets, throw,
      or leave the method. Operations see neither addresses nor targets, which
      leaves jsr and ret, whose meaning is an address, without a semantics. */
  datatype Effect<D> =
    | NEXT(state: D)
    | JUMP(choice: nat, state: D)
    | THROW(thrown: int, state: D)
    | LEAVE(state: D)

  /** exec gives meaning to an operation on the stack, locals and heap (and any
      outside input the state carries); catches decides whether a handler of
      some catch type takes a throwable; land is the state a handler starts in. */
  datatype Machine<!D> =
    Machine(exec: (Instruction, D) -> Effect<D>, catches: (u2, int) -> bool, land: (int, D) -> D)

  datatype Config<D> =
    | AT(pc: int, state: D)
    | LEFT(state: D)
    | ESCAPED(thrown: int, state: D)
    | STUCK(state: D)

  datatype Body = Body(code: seq<Instruction>, length: nat, handlers: seq<ExceptionEntry>)

  function BodyOf(e: Editor): Body {
    Body(e.code, e.codeLength, e.exceptions)
  }

  function Targets(operand: Operand): seq<int> {
    match operand
    case Branch(target) => [target]
    case BranchWide(target) => [target]
    case TableSwitch(otherwise, _, _, targets) => [otherwise] + targets
    case LookupSwitch(otherwise, cases) =>
      [otherwise] + CaseTargets(cases)
    case _ => []
  }

  function NoTargets(cases: seq<Case>): (r: seq<Case>)
    ensures |r| == |cases|
  {
    seq(|cases|, i requires 0 <= i < |cases| => cases[i].(target := 0))
  }

  /** The operation of a node, without its address and its targets. */
  function Operation(node: Instruction): Instruction {
    node.(offset := 0, operand :=
      match node.operand
      case Branch(_) => Branch(0)
      case BranchWide(_) => BranchWide(0)
      case TableSwitch(_, low, high, _) => TableSwitch(0, low, high, [])
      case LookupSwitch(_, cases) => LookupSwitch(0, NoTargets(cases))
      case other => other)
  }

  predicate Covers(h: ExceptionEntry, pc: int) {
    h.startPc <= pc < h.endPc
  }

  /** The first handler from k on that covers pc and takes the throwable. */
  function HandlerFor<D>(b: Body, m: Machine<D>, pc: int, thrown: int, k: nat): (r: int)
    requires k <= |b.handlers|
    ensures -1 <= r < |b.handlers|
    decreases |b.handlers| - k
  {
    if k == |b.handlers| then -1
    else if Covers(b.handlers[k], pc) && m.catches(b.handlers[k].catchType, thrown) then k
    else HandlerFor(b, m, pc, thrown, k + 1)
  }

  function Step<D>(b: Body, m: Machine<D>, c: Config<D>): Config<D> {
    if !c.AT? then c
    else
      var i := OffsetToIndex(b.code, b.length, c.pc);
      if i < 0 || i == |b.code| then STUCK(c.state)
      else
        match m.exec(Operation(b.code[i]), c.state)
        case NEXT(s) => AT(c.pc + LengthAt(b.code[i], c.pc), s)
        case JUMP(k, s) =>
          if k < |Targets(b.code[i].operand)| then AT(Targets(b.code[i].operand)[k], s) else STUCK(s)
        case THROW(x, s) =>
          var h := HandlerFor(b, m, c.pc, x, 0);
          if h < 0 then ESCAPED(x, s) else AT(b.handlers[h].handlerPc, m.land(x, s))
        case LEAVE(s) => LEFT(s)
  }

  function Run<D>(b: Body, m: Machine<D>, c: Config<D>, steps: nat): Config<D>
    decreases steps
  {
    if steps == 0 then c else Run(b, m, Step(b, m, c), steps - 1)
  }

  /** How often control stands at pc before one of the next steps. */
  function Arrivals<D>(b: Body, m: Machine<D>, c: Config<D>, steps: nat, pc: int): nat
    decreases steps
  {
    if steps == 0 then 0
    else (if c.AT? && c.pc == pc then 1 else 0) + Arrivals(b, m, Step(b, m, c), steps - 1, pc)
  }

  lemma {:induction false} RunComposes<D>(b: Body, m: Machine<D>, c: Config<D>, p: nat, q: nat)
    ensures Run(b, m, c, p + q) == Run(b, m, Run(b, m, c, p), q)
    decreases p
  {
    hide Step;
    if p > 0 {
      RunComposes(b, m, Step(b, m, c), p - 1, q);
    }
  }

  // ----- blocks that leave everything as they found it -----

  /** The state after operations k.. of a straight-line block, if it is one. */
  function Through<D>(m: Machine<D>, block: seq<Instruction>, k: nat, s: D): (r: Config<D>)
    requires k <= |block|
    ensures r.AT? || r.STUCK?
    decreases |block| - k
  {
    if k == |block| then AT(0, s)
    else match m.exec(Operation(block[k]), s)
         case NEXT(t) => Through(m, block, k + 1, t)
         case _ => STUCK(s)
  }

  ghost predicate SameEffect<D(!new)>(same: (D, D) -> bool, a: Effect<D>, b: Effect<D>) {
    match a
    case NEXT(s) => b.NEXT? && same(s, b.state)
    case JUMP(k, s) => b.JUMP? && b.choice == k && same(s, b.state)
    case THROW(x, s) => b.THROW? && b.thrown == x && same(s, b.state)
    case LEAVE(s) => b.LEAVE? && same(s, b.state)
  }

  /** Operations cannot tell related states apart. */
  ghost predicate Respects<D(!new)>(m: Machine<D>, same: (D, D) -> bool) {
    && (forall op, s, t :: same(s, t) ==> SameEffect(same, m.exec(op, s), m.exec(op, t)))
    && (forall x, s, t :: same(s, t) ==> same(m.land(x, s), m.land(x, t)))
  }

  /** From any state related to some s the block falls through to one still
      related to s: it may change what no operation of the method looks at. */
  ghost predicate Neutral<D(!new)>(m: Machine<D>, same: (D, D) -> bool, block: seq<Instruction>) {
    forall s, t :: same(s, t) ==> Through(m, block, 0, t).AT? && same(s, Through(m, block, 0, t).state)
  }

  /** A configuration of the original and its counterpart in the edited body. */
  ghost predicate Matches<D(!new)>(same: (D, D) -> bool, move: RefMap, c: Config<D>, d: Config<D>) {
    match c
    case AT(pc, s) => d.AT? && d.pc == Position(move, pc) && same(s, d.state)
    case LEFT(s) => d.LEFT? && same(s, d.state)
    case ESCAPED(x, s) => d.ESCAPED? && d.thrown == x && same(s, d.state)
    case STUCK(s) => d.STUCK? && same(s, d.state)
  }

  // ----- coverage by handlers -----

  /** An original instruction is covered by a handler iff it was before. */
  lemma CoverageKept(move: RefMap, h: ExceptionEntry, after: ExceptionEntry, i: nat)
    requires LegalMove(move) && i < |move.code|
    requires ExceptionMaps(TO_INDEX(move.code, move.length), h)
    requires after.startPc == Position(move, h.startPc) && after.endPc == Position(move, h.endPc)
    ensures Covers(after, Identity(move, move.code[i].offset)) <==> Covers(h, move.code[i].offset)
  {
    hide AllWellFormed, LaidOut, OffsetToIndex, OffsetOf, IndexToOffset;
    LaidOutLookups(move.code, move.length, i);
    var s := OffsetToIndex(move.code, move.length, h.startPc);
    var e := OffsetToIndex(move.code, move.length, h.endPc);
    IndexComparison(move.code, move.length, s, i, h.startPc, move.code[i].offset);
    IndexComparison(move.code, move.length, e, i, h.endPc, move.code[i].offset);
    MovedPosition(move, h.startPc);
    MovedPosition(move, h.endPc);
    MovedIdentity(move, move.code[i].offset);
    var j := ShiftWith(i, move.at, move.count);
    IndexComparison(move.newCode, move.newLength, ShiftAfter(s, move.at, move.count), j,
                    after.startPc, Identity(move, move.code[i].offset));
    IndexComparison(move.newCode, move.newLength, ShiftAfter(e, move.at, move.count), j,
                    after.endPc, Identity(move, move.code[i].offset));
  }

  lemma IndexComparison(code: seq<Instruction>, length: nat, i: int, j: int, r: int, s: int)
    requires AllWellFormed(code) && LaidOut(code, length)
    requires i == OffsetToIndex(code, length, r) >= 0 && j == OffsetToIndex(code, length, s) >= 0
    ensures r <= s <==> i <= j
  {
    hide AllWellFormed, LaidOut, OffsetToIndex;
    if r <= s {
      IndexOrder(code, length, r, s);
    } else {
      IndexOrder(code, length, s, r);
    }
  }

  /** The block is covered iff the instruction at the insertion point was. */
  lemma BlockCoverage(move: RefMap, h: ExceptionEntry, after: ExceptionEntry, k: nat)
    requires LegalMove(move) && k < move.count && move.at < |move.code|
    requires ExceptionMaps(TO_INDEX(move.code, move.length), h)
    requires after.startPc == Position(move, h.startPc) && after.endPc == Position(move, h.endPc)
    ensures Covers(after, move.newCode[move.at + k].offset) <==> Covers(h, move.code[move.at].offset)
  {
    hide AllWellFormed, LaidOut, OffsetToIndex, OffsetOf, IndexToOffset;
    LaidOutLookups(move.code, move.length, move.at);
    LaidOutLookups(move.newCode, move.newLength, move.at + k);
    var s := OffsetToIndex(move.code, move.length, h.startPc);
    var e := OffsetToIndex(move.code, move.length, h.endPc);
    IndexComparison(move.code, move.length, s, move.at, h.startPc, move.code[move.at].offset);
    IndexComparison(move.code, move.length, e, move.at, h.endPc, move.code[move.at].offset);
    MovedPosition(move, h.startPc);
    MovedPosition(move, h.endPc);
    var pc := move.newCode[move.at + k].offset;
    IndexComparison(move.newCode, move.newLength, ShiftAfter(s, move.at, move.count), move.at + k, after.startPc, pc);
    IndexComparison(move.newCode, move.newLength, ShiftAfter(e, move.at, move.count), move.at + k, after.endPc, pc);
  }

  // ----- one step of an original instruction -----

  lemma OperationKept(m: RefMap, node: Instruction, offset: nat)
    ensures Operation(MapNode(m, node).(offset := offset)) == Operation(node)
  {
    hide MapPosition;
    if node.operand.LookupSwitch? {
      var cases := node.operand.cases;
      assert NoTargets(MapCases(m, cases)) == NoTargets(cases);
    }
  }

  /** Targets in the result are the moved targets. */
  lemma TargetsMoved(move: RefMap, operand: Operand, k: nat)
    requires move.MOVE? && LegalMove(move) && OperandMaps(TO_INDEX(move.code, move.length), operand)
    requires k < |Targets(operand)|
    ensures |Targets(MapOperand(move, operand))| == |Targets(operand)|
    ensures Targets(MapOperand(move, operand))[k] == Position(move, Targets(operand)[k])
  {
    hide LegalMove, OffsetToIndex, Position, MapPosition;
    TargetMaps(move, operand, k);
    SameTargetCount(move, operand);
    var target := Targets(operand)[k];
    assert Targets(MapOperand(move, operand))[k] == MapPosition(move, target);
    MovedMaps(move, target);
  }

  lemma TargetMaps(move: RefMap, operand: Operand, k: nat)
    requires move.MOVE? && OperandMaps(TO_INDEX(move.code, move.length), operand) && k < |Targets(operand)|
    ensures OffsetToIndex(move.code, move.length, Targets(operand)[k]) >= 0
  {
    hide OffsetToIndex;
  }

  function CaseTargets(cases: seq<Case>): (r: seq<int>)
    ensures |r| == |cases|
  {
    seq(|cases|, i requires 0 <= i < |cases| => cases[i].target)
  }

  lemma SameTargetCount(m: RefMap, operand: Operand)
    ensures Targets(MapOperand(m, operand)) == MapTargets(m, Targets(operand))
  {
    hide MapPosition;
    match operand
    case TableSwitch(otherwise, _, _, targets) =>
      assert MapTargets(m, [otherwise] + targets) == [MapPosition(m, otherwise)] + MapTargets(m, targets);
    case LookupSwitch(otherwise, cases) =>
      assert MapTargets(m, [otherwise] + CaseTargets(cases)) == [MapPosition(m, otherwise)] + CaseTargets(MapCases(m, cases));
    case _ =>
  }

  /** The same handler takes the throwable on both sides. */
  lemma {:induction false} HandlerKept<D>(e: Editor, at: nat, block: seq<Instruction>, m: Machine<D>, i: nat, x: int, k: nat)
    requires Consistent(e) && AllWellFormed(block) && at <= |e.code| && i < |e.code|
    requires Committed(e, at, block).codeLength <= MAX_CODE_LENGTH
    requires k <= |e.exceptions|
    ensures |Committed(e, at, block).exceptions| == |e.exceptions|
    ensures HandlerFor(BodyOf(Committed(e, at, block)), m, Identity(MoveOf(e, at, block), e.code[i].offset), x, k)
         == HandlerFor(BodyOf(e), m, e.code[i].offset, x, k)
    decreases |e.exceptions| - k
  {
    hide AllWellFormed, LaidOut, LegalMove, Committed, MoveOf, Identity, Position, Covers, ScopesMoved, LinesMap;
    CommittedTables(e, at, block);
    if k < |e.exceptions| {
      MoveIsLegal(e, at, block);
      MoveStartsAt(e, at, block);
      CoverageKept(MoveOf(e, at, block), e.exceptions[k], Committed(e, at, block).exceptions[k], i);
      HandlerKept(e, at, block, m, i, x, k + 1);
    }
  }

  lemma NextOffset(code: seq<Instruction>, length: nat, i: nat)
    requires AllWellFormed(code) && LaidOut(code, length) && i < |code|
    ensures code[i].offset == OffsetOf(code, i)
    ensures code[i].offset + LengthAt(code[i], code[i].offset) == OffsetOf(code, i + 1)
    ensures OffsetToIndex(code, length, OffsetOf(code, i)) == i
    ensures OffsetToIndex(code, length, OffsetOf(code, i + 1)) == i + 1
    ensures IndexToOffset(code, length, i) == OffsetOf(code, i)
    ensures IndexToOffset(code, length, i + 1) == OffsetOf(code, i + 1)
  {
    hide AllWellFormed, LengthAt, OffsetToIndex, IndexToOffset;
    BoundaryLookup(code, length, i);
    BoundaryLookup(code, length, i + 1);
  }

  /** Falling through an original instruction arrives where its successor went. */
  lemma SuccessorMoved(move: RefMap, i: nat)
    requires LegalMove(move) && i < |move.code|
    ensures var j := ShiftWith(i, move.at, move.count);
            var pc := move.code[i].offset; var newPc := Identity(move, pc);
      && newPc == move.newCode[j].offset
      && OffsetToIndex(move.code, move.length, pc + LengthAt(move.code[i], pc)) == i + 1
      && newPc + LengthAt(move.newCode[j], newPc) == Position(move, pc + LengthAt(move.code[i], pc))
  {
    hide AllWellFormed, LaidOut, OffsetToIndex, IndexToOffset, LengthAt, OffsetOf;
    NextOffset(move.code, move.length, i);
    NextOffset(move.newCode, move.newLength, ShiftWith(i, move.at, move.count));
  }

  /** Executing original instruction i, wherever it now sits, goes from matching
      state to matching configuration. */
  lemma OriginalStep<D(!new)>(e: Editor, at: nat, block: seq<Instruction>, m: Machine<D>, same: (D, D) -> bool,
                        i: nat, s: D, t: D)
    requires Consistent(e) && AllWellFormed(block) && at <= |e.code| && i < |e.code|
    requires Committed(e, at, block).codeLength <= MAX_CODE_LENGTH
    requires Respects(m, same) && same(s, t)
    ensures var move := MoveOf(e, at, block); var pc := e.code[i].offset;
      Matches(same, move, Step(BodyOf(e), m, AT(pc, s)),
              Step(BodyOf(Committed(e, at, block)), m, AT(Identity(move, pc), t)))
  {
    hide AllWellFormed, LaidOut, LegalMove, Committed, MoveOf, Identity, Position, HandlerFor, Operation, Targets;
    hide LengthAt, SameLength, OffsetOf, OffsetToIndex, ScopesMoved, MapOperand, OperandMaps;
    var after := Committed(e, at, block);
    var move := MoveOf(e, at, block);
    MoveIsLegal(e, at, block);
    MoveStartsAt(e, at, block);
    CommittedNode(e, at, block, i);
    LaidOutLookups(e.code, e.codeLength, i);
    MovedIdentity(move, e.code[i].offset);
    var j := ShiftWith(i, at, |block|);
    var node, moved := e.code[i], after.code[j];
    OperationKept(move, node, OffsetOf(after.code, j));
    MappedIsWellFormed(move, node);
    assert SameLength(moved, node) by { SameLengthIgnoresOffset(MapNode(move, node), node, OffsetOf(after.code, j)); }
    var effect := m.exec(Operation(node), s);
    assert SameEffect(same, effect, m.exec(Operation(moved), t));
    match effect
    case NEXT(u) =>
      SuccessorMoved(move, i);
    case JUMP(k, u) =>
      SameTargetCount(move, node.operand);
      if k < |Targets(node.operand)| {
        TargetsMoved(move, node.operand, k);
      }
    case THROW(x, u) =>
      CommittedTables(e, at, block);
      HandlerKept(e, at, block, m, i, x, 0);
    case LEAVE(u) =>
  }

  lemma SameLengthIgnoresOffset(a: Instruction, b: Instruction, offset: nat)
    requires SameLength(a, b)
    ensures SameLength(a.(offset := offset), b)
  {
  }

  // ----- the block -----

  /** A block that only falls through has no target to shift. */
  predicate Plain(block: seq<Instruction>) {
    forall k :: 0 <= k < |block| ==> Targets(block[k].operand) == []
  }

  lemma PlainIsKept(m: RefMap, node: Instruction)
    requires Targets(node.operand) == []
    ensures MapNode(m, node) == node && OperandMaps(SHIFT(0, 0), node.operand)
  {
  }

  /** Operations k.. of the block run from where the layout put them. */
  lemma {:induction false} BlockRuns<D>(e: Editor, at: nat, block: seq<Instruction>, m: Machine<D>, k: nat, t: D)
    requires AllWellFormed(e.code) && AllWellFormed(block) && at <= |e.code| && Plain(block)
    requires k <= |block| && Through(m, block, k, t).AT?
    ensures var after := Committed(e, at, block);
      && |after.code| == |e.code| + |block|
      && Run(BodyOf(after), m, AT(OffsetOf(after.code, at + k), t), |block| - k)
      == AT(OffsetOf(after.code, at + |block|), Through(m, block, k, t).state)
    decreases |block| - k
  {
    hide AllWellFormed, Committed, Relisted, OffsetOf, LengthAt, OffsetToIndex, Operation, Targets, MapNode;
    CommittedCode(e, at, block);
    var after := Committed(e, at, block);
    if k < |block| {
      CommittedBlock(e, at, block, k);
      assert Targets(block[k].operand) == [];
      PlainIsKept(SHIFT(at, |block|), block[k]);
      PlainIsKept(TO_OFFSET(Relisted(e, at, block), after.codeLength), block[k]);
      OperationIgnoresOffset(block[k], OffsetOf(after.code, at + k));
      NextOffset(after.code, after.codeLength, at + k);
      BlockRuns(e, at, block, m, k + 1, m.exec(Operation(block[k]), t).state);
    }
  }

  lemma OperationIgnoresOffset(node: Instruction, offset: nat)
    ensures Operation(node.(offset := offset)) == Operation(node)
  {
  }

  // ----- the main theorem -----

  predicate Boundary(e: Editor, pc: int) {
    OffsetToIndex(e.code, e.codeLength, pc) >= 0
  }

  /** Control never leaves the boundaries. */
  lemma StepStaysOnBoundaries<D>(e: Editor, m: Machine<D>, c: Config<D>)
    requires Consistent(e) && (c.AT? ==> Boundary(e, c.pc))
    ensures var d := Step(BodyOf(e), m, c); d.AT? ==> Boundary(e, d.pc)
  {
    hide AllWellFormed, LaidOut, OffsetToIndex, Targets, LengthAt, OperandMaps, HandlerFor, LinesMap, ScopesMap, FramesMap, AnnotationsMap;
    if c.AT? {
      var i := OffsetToIndex(e.code, e.codeLength, c.pc);
      if i < |e.code| {
        FoundIsBoundary(e.code, e.codeLength, c.pc);
        NextOffset(e.code, e.codeLength, i);
        var effect := m.exec(Operation(e.code[i]), c.state);
        if effect.JUMP? && effect.choice < |Targets(e.code[i].operand)| {
          var move := MOVE(e.code, e.codeLength, 0, 0, e.code, e.codeLength);
          TargetMaps(move, e.code[i].operand, effect.choice);
        }
      }
    }
  }

  /** One step of the original from where control arrives: the block first, if
      this is the insertion point, and then the instruction itself. */
  lemma StepMatches<D(!new)>(e: Editor, at: nat, block: seq<Instruction>, m: Machine<D>, same: (D, D) -> bool,
                             pc: int, s: D, t: D)
    requires Insertable(e, at, block) && Respects(m, same) && Neutral(m, same, block)
    requires Boundary(e, pc) && same(s, t)
    ensures var move := MoveOf(e, at, block); var after := BodyOf(Committed(e, at, block));
            var extra := if pc == OffsetOf(e.code, at) then |block| else 0;
      Matches(same, move, Step(BodyOf(e), m, AT(pc, s)), Run(after, m, AT(Position(move, pc), t), 1 + extra))
  {
    hide AllWellFormed, LaidOut, LegalMove, Committed, MoveOf, Relisted, Step, OffsetToIndex, OffsetOf, AllMap, Through, Plain;
    var after := Committed(e, at, block);
    var body := BodyOf(after);
    var move := MoveOf(e, at, block);
    MoveIsLegal(e, at, block);
    MoveStartsAt(e, at, block);
    CommittedCode(e, at, block);
    var i := OffsetToIndex(e.code, e.codeLength, pc);
    FoundIsBoundary(e.code, e.codeLength, pc);
    BoundaryLookup(e.code, e.codeLength, at);
    ArrivalPoint(move, pc);
    var u := t;
    if i == at {
      BlockRuns(e, at, block, m, 0, t);
      u := Through(m, block, 0, t).state;
      RunComposes(body, m, AT(Position(move, pc), t), |block|, 1);
    }
    assert same(s, u);
    var there := AT(OffsetOf(after.code, ShiftWith(i, at, |block|)), u);
    OneStep(body, m, there);
    if i < |e.code| {
      LaidOutLookups(e.code, e.codeLength, i);
      OffsetsAgree(e.code, e.codeLength, i, pc);
      OriginalStep(e, at, block, m, same, i, s, u);
    } else {
      EndIsStuck(BodyOf(e), m, pc, s);
      BoundaryLookup(after.code, after.codeLength, |after.code|);
      EndIsStuck(body, m, OffsetOf(after.code, |after.code|), u);
    }
  }

  lemma OneStep<D>(b: Body, m: Machine<D>, c: Config<D>)
    ensures Run(b, m, c, 1) == Step(b, m, c)
  {
    hide Step;
    assert Run(b, m, c, 1) == Run(b, m, Step(b, m, c), 0);
  }

  lemma EndIsStuck<D>(b: Body, m: Machine<D>, pc: int, s: D)
    requires OffsetToIndex(b.code, b.length, pc) == |b.code|
    ensures Step(b, m, AT(pc, s)) == STUCK(s)
  {
  }

  lemma OffsetsAgree(code: seq<Instruction>, length: nat, i: nat, pc: int)
    requires LaidOut(code, length) && i < |code| && OffsetOf(code, i) == pc
    ensures code[i].offset == pc
  {
  }

  /** Control arrives at the block when there is one, else at the instruction. */
  lemma ArrivalPoint(move: RefMap, pc: int)
    requires LegalMove(move) && OffsetToIndex(move.code, move.length, pc) >= 0
    ensures var i := OffsetToIndex(move.code, move.length, pc);
      && Position(move, pc) == OffsetOf(move.newCode, if i == move.at then i else ShiftWith(i, move.at, move.count))
      && Identity(move, pc) == OffsetOf(move.newCode, ShiftWith(i, move.at, move.count))
  {
    hide AllWellFormed, LaidOut, OffsetToIndex, OffsetOf, IndexToOffset;
    var i := OffsetToIndex(move.code, move.length, pc);
    BoundaryLookup(move.newCode, move.newLength, ShiftAfter(i, move.at, move.count));
    BoundaryLookup(move.newCode, move.newLength, ShiftWith(i, move.at, move.count));
  }

  /** An insertion of a straight-line block that keeps the code legal. */
  predicate Insertable(e: Editor, at: nat, block: seq<Instruction>) {
    && at <= |e.code|
    && Consistent(e) && AllWellFormed(block) && Plain(block)
    && Committed(e, at, block).codeLength <= MAX_CODE_LENGTH
  }

  lemma InsertableIsConsistent(e: Editor, at: nat, block: seq<Instruction>)
    requires Insertable(e, at, block)
    ensures Consistent(e)
  {
  }

  /** n original steps and hits passes through a block of the given size. */
  function StepCount(n: nat, hits: nat, size: nat): nat {
    n + hits * size
  }

  ghost predicate MatchesAfter<D(!new)>(
      e: Editor, at: nat, block: seq<Instruction>, m: Machine<D>, same: (D, D) -> bool,
      c: Config<D>, d: Config<D>, n: nat)
    requires at <= |e.code|
  {
    var hits := Arrivals(BodyOf(e), m, c, n, OffsetOf(e.code, at));
    Matches(same, MoveOf(e, at, block), Run(BodyOf(e), m, c, n),
            Run(BodyOf(Committed(e, at, block)), m, d, StepCount(n, hits, |block|)))
  }

  /** Inserting a neutral block simulates the original: after n original steps,
      the edited body has taken n steps plus one pass through the block for each
      time control stood at the insertion point, and stands at the matching
      place in a matching state. Both machines are deterministic, so this is
      every run. */
  lemma {:induction false} InsertionSimulates<D(!new)>(
      e: Editor, at: nat, block: seq<Instruction>, m: Machine<D>, same: (D, D) -> bool,
      c: Config<D>, d: Config<D>, n: nat)
    requires at <= |e.code| && Matches(same, MoveOf(e, at, block), c, d)
    requires c.AT? ==> Boundary(e, c.pc)
    requires Insertable(e, at, block) && Respects(m, same) && Neutral(m, same, block)
    ensures MatchesAfter(e, at, block, m, same, c, d, n)
    decreases n
  {
    hide Insertable, AllWellFormed, Consistent, Committed, MoveOf, Step, OffsetOf, OffsetToIndex, Respects, Neutral, Position;
    var b, after := BodyOf(e), BodyOf(Committed(e, at, block));
    if n > 0 {
      var p := OffsetOf(e.code, at);
      var extra := if c.AT? && c.pc == p then |block| else 0;
      var next, reached := Step(b, m, c), Run(after, m, d, 1 + extra);
      if c.AT? {
        StepMatches(e, at, block, m, same, c.pc, c.state, d.state);
      } else {
        DoneStays(b, m, c, 1);
        DoneStays(after, m, d, 1);
        OneStep(b, m, c);
      }
      InsertableIsConsistent(e, at, block);
      StepStaysOnBoundaries(e, m, c);
      InsertionSimulates(e, at, block, m, same, next, reached, n - 1);
      var hits := Arrivals(b, m, next, n - 1, p);
      RunComposes(after, m, d, 1 + extra, StepCount(n - 1, hits, |block|));
      assert StepCount(n, Arrivals(b, m, c, n, p), |block|) == 1 + extra + StepCount(n - 1, hits, |block|) by {
        hide *;
        AddPass(n - 1, hits, |block|);
      }
    }
  }

  lemma AddPass(n: nat, hits: nat, size: nat)
    ensures StepCount(n + 1, hits, size) == 1 + StepCount(n, hits, size)
    ensures StepCount(n + 1, hits + 1, size) == 1 + size + StepCount(n, hits, size)
  {
  }

  lemma {:induction false} DoneStays<D>(b: Body, m: Machine<D>, c: Config<D>, n: nat)
    requires !c.AT?
    ensures Run(b, m, c, n) == c
    decreases n
  {
    if n > 0 {
      DoneStays(b, m, c, n - 1);
    }
  }
}
