/** What one committed insertion does to the code and to every reference. */
module Insertion {
  import opened Bytes
  import opened Status
  import opened Instructions
  import opened References
  import opened AnnotationFlush
  import opened CodeEditor

  /** The state a parsed Code attribute is in: laid out, with every stored
      reference naming an instruction boundary. */
  predicate Consistent(e: Editor) {
    && AllWellFormed(e.code)
    && LaidOut(e.code, e.codeLength)
    && AllMap(TO_INDEX(e.code, e.codeLength), e)
  }

  function MoveOf(e: Editor, at: nat, block: seq<Instruction>): RefMap
    requires at <= |e.code|
  {
    var after := Committed(e, at, block);
    MOVE(e.code, e.codeLength, at, |block|, after.code, after.codeLength)
  }

  // ----- the code -----

  lemma MappedIsWellFormed(m: RefMap, node: Instruction)
    ensures WellFormed(MapNode(m, node)) <==> WellFormed(node)
    ensures SameLength(MapNode(m, node), node)
  {
  }

  lemma RelaidIsWellFormed(code: seq<Instruction>)
    ensures AllWellFormed(Relaid(code)) <==> AllWellFormed(code)
  {
    forall i | 0 <= i < |code| ensures WellFormed(Relaid(code)[i]) <==> WellFormed(code[i]) {
      var node := code[i];
      assert Relaid(code)[i] == node.(offset := OffsetOf(code, i));
    }
    if AllWellFormed(Relaid(code)) {
      forall i | 0 <= i < |code| ensures WellFormed(code[i]) {
        assert WellFormed(Relaid(code)[i]);
      }
    }
  }

  /** Node j of the new list, before any offset is written. */
  function Origin(e: Editor, at: nat, block: seq<Instruction>, j: nat): Instruction
    requires at <= |e.code| && j < |e.code| + |block|
  {
    if j < at then e.code[j] else if j < at + |block| then block[j - at] else e.code[j - |block|]
  }

  lemma SplicedAt<T>(s: seq<T>, at: nat, block: seq<T>, j: nat)
    requires at <= |s| && j < |s| + |block|
    ensures Spliced(s, at, block)[j]
         == if j < at then s[j] else if j < at + |block| then block[j - at] else s[j - |block|]
  {
  }

  /** The new list is laid out and keeps every operation, in the spliced order. */
  lemma CommittedCode(e: Editor, at: nat, block: seq<Instruction>)
    requires AllWellFormed(e.code) && AllWellFormed(block) && at <= |e.code|
    ensures var after := Committed(e, at, block);
      && |after.code| == |e.code| + |block|
      && AllWellFormed(after.code) && LaidOut(after.code, after.codeLength)
  {
    hide WellFormed, SameLength, MapNode;
    var indexed := MapCode(TO_INDEX(e.code, e.codeLength), e.code);
    var spliced := Spliced(indexed, at, block);
    var shifted := MapCode(SHIFT(at, |block|), spliced);
    forall j | 0 <= j < |spliced| ensures WellFormed(spliced[j]) {
      SplicedAt(indexed, at, block, j);
      if j < at {
        MappedIsWellFormed(TO_INDEX(e.code, e.codeLength), e.code[j]);
      } else if at + |block| <= j {
        MappedIsWellFormed(TO_INDEX(e.code, e.codeLength), e.code[j - |block|]);
      }
    }
    forall j | 0 <= j < |spliced| ensures WellFormed(shifted[j]) {
      MappedIsWellFormed(SHIFT(at, |block|), spliced[j]);
    }
    RelaidIsWellFormed(shifted);
    RelaidIsLaidOut(shifted);
    var relaid := Relaid(shifted);
    MapCodeKeepsLayout(TO_OFFSET(relaid, OffsetOf(shifted, |shifted|)), relaid, OffsetOf(shifted, |shifted|));
  }

  lemma MapCodeKeepsLayout(m: RefMap, code: seq<Instruction>, length: nat)
    requires AllWellFormed(code) && LaidOut(code, length)
    ensures AllWellFormed(MapCode(m, code)) && LaidOut(MapCode(m, code), length)
    ensures forall i :: 0 <= i <= |code| ==> OffsetOf(MapCode(m, code), i) == OffsetOf(code, i)
  {
    hide WellFormed, SameLength, OffsetOf;
    var mapped := MapCode(m, code);
    forall i | 0 <= i < |code|
      ensures WellFormed(mapped[i]) && SameLength(mapped[i], code[i]) && mapped[i].offset == code[i].offset
    {
      MappedIsWellFormed(m, code[i]);
    }
    forall i | 0 <= i <= |code| ensures OffsetOf(mapped, i) == OffsetOf(code, i) {
      SameLengthSameOffsets(mapped, code, i);
    }
  }

  // ----- one reference -----

  /** A move between two legal, laid-out lists; a legal list has legal length. */
  predicate LegalMove(m: RefMap) {
    && m.MOVE?
    && m.at <= |m.code|
    && |m.newCode| == |m.code| + m.count
    && AllWellFormed(m.code) && LaidOut(m.code, m.length)
    && AllWellFormed(m.newCode) && LaidOut(m.newCode, m.newLength)
    && m.newLength <= MAX_CODE_LENGTH
  }

  predicate SameOffsets(a: seq<Instruction>, b: seq<Instruction>) {
    |a| == |b| && forall i :: 0 <= i < |a| ==> a[i].offset == b[i].offset
  }

  predicate Small(v: int) { 0 <= v <= MAX_CODE_LENGTH }

  /** The three steps an insertion takes, ending in a list with m's layout. */
  function Steps(m: RefMap, list: seq<Instruction>): (RefMap, RefMap, RefMap)
    requires LegalMove(m)
  {
    (TO_INDEX(m.code, m.length), SHIFT(m.at, m.count), TO_OFFSET(list, m.newLength))
  }

  lemma IndexIsSmall(code: seq<Instruction>, length: nat, i: nat)
    requires AllWellFormed(code) && LaidOut(code, length) && length <= MAX_CODE_LENGTH && i <= |code|
    ensures i <= |code| <= length <= MAX_CODE_LENGTH
    ensures OffsetOf(code, i) <= length
  {
    OffsetsIncrease(code, 0, |code|);
    OffsetsIncrease(code, i, |code|);
  }

  lemma PositionComposes(m: RefMap, list: seq<Instruction>, r: int)
    requires LegalMove(m) && SameOffsets(list, m.newCode)
    requires OffsetToIndex(m.code, m.length, r) >= 0
    ensures var (a, b, c) := Steps(m, list);
      && Small(MapPosition(a, r)) && Small(MapPosition(b, MapPosition(a, r)))
      && MapPosition(c, MapPosition(b, MapPosition(a, r))) == MapPosition(m, r) == Position(m, r)
      && Small(Position(m, r))
      && Position(b, MapPosition(a, r)) >= 0 && Position(c, MapPosition(b, MapPosition(a, r))) >= 0
  {
    hide AllWellFormed, OffsetToIndex, OffsetOf;
    var i := ShiftAfter(OffsetToIndex(m.code, m.length, r), m.at, m.count);
    IndexIsSmall(m.newCode, m.newLength, i);
  }

  lemma IdentityComposes(m: RefMap, list: seq<Instruction>, r: int)
    requires LegalMove(m) && SameOffsets(list, m.newCode)
    requires OffsetToIndex(m.code, m.length, r) >= 0
    ensures var (a, b, c) := Steps(m, list);
      && MapIdentity(c, MapIdentity(b, MapIdentity(a, r))) == MapIdentity(m, r) == Identity(m, r)
      && Small(Identity(m, r))
      && Identity(b, MapIdentity(a, r)) >= 0 && Identity(c, MapIdentity(b, MapIdentity(a, r))) >= 0
  {
    hide AllWellFormed, OffsetToIndex, OffsetOf;
    var i := ShiftWith(OffsetToIndex(m.code, m.length, r), m.at, m.count);
    IndexIsSmall(m.newCode, m.newLength, i);
  }

  lemma SmallCast(v: int)
    requires Small(v)
    ensures ToU2(v) == v
  {
  }

  // ----- one entry of each table -----

  lemma ExceptionComposes(m: RefMap, list: seq<Instruction>, x: ExceptionEntry)
    requires LegalMove(m) && SameOffsets(list, m.newCode)
    requires ExceptionMaps(TO_INDEX(m.code, m.length), x)
    ensures var (a, b, c) := Steps(m, list); MapException(c, MapException(b, MapException(a, x))) == MapException(m, x)
    ensures MapException(m, x).startPc == Position(m, x.startPc)
    ensures MapException(m, x).endPc == Position(m, x.endPc)
    ensures MapException(m, x).handlerPc == Position(m, x.handlerPc)
    ensures MapException(m, x).catchType == x.catchType
  {
    hide LegalMove, SameOffsets, MapPosition, ToU2, OffsetToIndex;
    PositionComposes(m, list, x.startPc);
    PositionComposes(m, list, x.endPc);
    PositionComposes(m, list, x.handlerPc);
    forall v | Small(v) ensures ToU2(v) == v { SmallCast(v); }
  }

  lemma LineComposes(m: RefMap, list: seq<Instruction>, x: LineEntry)
    requires LegalMove(m) && SameOffsets(list, m.newCode)
    requires LineMaps(TO_INDEX(m.code, m.length), x)
    ensures var (a, b, c) := Steps(m, list); MapLine(c, MapLine(b, MapLine(a, x))) == MapLine(m, x)
    ensures MapLine(m, x).startPc == Position(m, x.startPc) && MapLine(m, x).line == x.line
  {
    hide LegalMove, SameOffsets, MapPosition, ToU2, OffsetToIndex;
    PositionComposes(m, list, x.startPc);
    forall v | Small(v) ensures ToU2(v) == v { SmallCast(v); }
  }

  /** The two ends keep their order, so the length is never cut below zero. */
  lemma ScopeComposes(m: RefMap, list: seq<Instruction>, x: ScopeEntry)
    requires LegalMove(m) && SameOffsets(list, m.newCode)
    requires ScopeMaps(TO_INDEX(m.code, m.length), x)
    ensures var (a, b, c) := Steps(m, list); MapScope(c, MapScope(b, MapScope(a, x))) == MapScope(m, x)
    ensures MapScope(m, x).startPc == Position(m, x.startPc)
    ensures MapScope(m, x).startPc as int + MapScope(m, x).length as int == Position(m, x.startPc + x.length as int)
    ensures MapScope(m, x).nameIndex == x.nameIndex && MapScope(m, x).descriptorIndex == x.descriptorIndex
    ensures MapScope(m, x).index == x.index
  {
    hide LegalMove, SameOffsets, MapPosition, ToU2, OffsetToIndex;
    var end := x.startPc + x.length as int;
    PositionComposes(m, list, x.startPc);
    PositionComposes(m, list, end);
    PositionMonotone(m, x.startPc, end);
    var (a, b, c) := Steps(m, list);
    IndexMonotone(m, x.startPc, end);
    forall v | Small(v) ensures ToU2(v) == v { SmallCast(v); }
    var first := MapScope(a, x);
    assert first.startPc as int + first.length as int == MapPosition(a, end);
    var second := MapScope(b, first);
    assert second.startPc as int + second.length as int == MapPosition(b, MapPosition(a, end));
  }

  lemma IndexOrder(code: seq<Instruction>, length: nat, r: int, s: int)
    requires AllWellFormed(code) && LaidOut(code, length) && r <= s
    requires OffsetToIndex(code, length, r) >= 0 && OffsetToIndex(code, length, s) >= 0
    ensures OffsetToIndex(code, length, r) <= OffsetToIndex(code, length, s)
    ensures r < s ==> OffsetToIndex(code, length, r) < OffsetToIndex(code, length, s)
  {
    hide AllWellFormed, LaidOut, OffsetToIndex, OffsetOf;
    var i, j := OffsetToIndex(code, length, r), OffsetToIndex(code, length, s);
    FoundIsBoundary(code, length, r);
    FoundIsBoundary(code, length, s);
    if j < i {
      OffsetsIncrease(code, j, i);
    }
  }

  lemma IndexMonotone(m: RefMap, r: int, s: int)
    requires LegalMove(m) && r <= s
    requires OffsetToIndex(m.code, m.length, r) >= 0 && OffsetToIndex(m.code, m.length, s) >= 0
    ensures var a := TO_INDEX(m.code, m.length); var b := SHIFT(m.at, m.count);
      && MapPosition(a, r) <= MapPosition(a, s)
      && MapPosition(b, MapPosition(a, r)) <= MapPosition(b, MapPosition(a, s))
      && (r < s ==> MapPosition(a, r) < MapPosition(a, s))
  {
    hide AllWellFormed, LaidOut, OffsetToIndex;
    IndexOrder(m.code, m.length, r, s);
  }

  /** Positions keep their order, and distinct positions stay distinct. */
  lemma PositionMonotone(m: RefMap, r: int, s: int)
    requires LegalMove(m) && r <= s
    requires OffsetToIndex(m.code, m.length, r) >= 0 && OffsetToIndex(m.code, m.length, s) >= 0
    ensures Position(m, r) <= Position(m, s)
    ensures r < s ==> Position(m, r) < Position(m, s)
  {
    hide AllWellFormed, LaidOut, OffsetToIndex, OffsetOf;
    IndexMonotone(m, r, s);
    var i := ShiftAfter(OffsetToIndex(m.code, m.length, r), m.at, m.count);
    var j := ShiftAfter(OffsetToIndex(m.code, m.length, s), m.at, m.count);
    assert i <= j && (r < s ==> i < j);
    OffsetsIncrease(m.newCode, i, j);
    BoundaryLookup(m.newCode, m.newLength, i);
    BoundaryLookup(m.newCode, m.newLength, j);
  }

  lemma TypesCompose(m: RefMap, list: seq<Instruction>, x: seq<VerificationType>)
    requires LegalMove(m) && SameOffsets(list, m.newCode)
    requires TypesMap(TO_INDEX(m.code, m.length), x)
    ensures var (a, b, c) := Steps(m, list); MapTypes(c, MapTypes(b, MapTypes(a, x))) == MapTypes(m, x)
  {
    hide LegalMove, SameOffsets, MapIdentity, OffsetToIndex;
    var (a, b, c) := Steps(m, list);
    forall i | 0 <= i < |x| ensures MapType(c, MapType(b, MapType(a, x[i]))) == MapType(m, x[i]) {
      if x[i].tag == UNINITIALIZED {
        IdentityComposes(m, list, x[i].offset);
      }
    }
  }

  lemma FrameComposes(m: RefMap, list: seq<Instruction>, x: Frame)
    requires LegalMove(m) && SameOffsets(list, m.newCode)
    requires FrameMaps(TO_INDEX(m.code, m.length), x)
    ensures var (a, b, c) := Steps(m, list); MapFrame(c, MapFrame(b, MapFrame(a, x))) == MapFrame(m, x)
  {
    hide LegalMove, SameOffsets, MapPosition, MapTypes, TypesMap, OffsetToIndex;
    PositionComposes(m, list, x.offset);
    TypesCompose(m, list, x.locals);
    TypesCompose(m, list, x.stack);
  }

  lemma AnnotationComposes(m: RefMap, list: seq<Instruction>, x: AnnotationRef)
    requires LegalMove(m) && SameOffsets(list, m.newCode)
    requires AnnotationMaps(TO_INDEX(m.code, m.length), x)
    ensures var (a, b, c) := Steps(m, list);
            MapAnnotation(c, MapAnnotation(b, MapAnnotation(a, x))) == MapAnnotation(m, x)
  {
    hide LegalMove, SameOffsets, MapPosition, MapIdentity, OffsetToIndex;
    if x.kind == SPAN {
      PositionComposes(m, list, x.start);
      PositionComposes(m, list, x.end);
    } else {
      IdentityComposes(m, list, x.start);
    }
  }

  lemma TargetsCompose(m: RefMap, list: seq<Instruction>, x: seq<int>)
    requires LegalMove(m) && SameOffsets(list, m.newCode)
    requires forall i :: 0 <= i < |x| ==> Position(TO_INDEX(m.code, m.length), x[i]) >= 0
    ensures var (a, b, c) := Steps(m, list); MapTargets(c, MapTargets(b, MapTargets(a, x))) == MapTargets(m, x)
  {
    hide LegalMove, SameOffsets, MapPosition, OffsetToIndex;
    forall i | 0 <= i < |x|
      ensures var (a, b, c) := Steps(m, list);
              MapPosition(c, MapPosition(b, MapPosition(a, x[i]))) == MapPosition(m, x[i])
    {
      PositionComposes(m, list, x[i]);
    }
  }

  lemma CasesCompose(m: RefMap, list: seq<Instruction>, x: seq<Case>)
    requires LegalMove(m) && SameOffsets(list, m.newCode)
    requires forall i :: 0 <= i < |x| ==> Position(TO_INDEX(m.code, m.length), x[i].target) >= 0
    ensures var (a, b, c) := Steps(m, list); MapCases(c, MapCases(b, MapCases(a, x))) == MapCases(m, x)
  {
    hide LegalMove, SameOffsets, MapPosition, OffsetToIndex;
    forall i | 0 <= i < |x|
      ensures var (a, b, c) := Steps(m, list);
              MapPosition(c, MapPosition(b, MapPosition(a, x[i].target))) == MapPosition(m, x[i].target)
    {
      PositionComposes(m, list, x[i].target);
    }
  }

  lemma OperandComposes(m: RefMap, list: seq<Instruction>, x: Operand)
    requires LegalMove(m) && SameOffsets(list, m.newCode)
    requires OperandMaps(TO_INDEX(m.code, m.length), x)
    ensures var (a, b, c) := Steps(m, list); MapOperand(c, MapOperand(b, MapOperand(a, x))) == MapOperand(m, x)
  {
    hide LegalMove, SameOffsets, MapPosition, MapTargets, MapCases, OffsetToIndex;
    match x
    case Branch(target) => PositionComposes(m, list, target);
    case BranchWide(target) => PositionComposes(m, list, target);
    case TableSwitch(otherwise, _, _, targets) =>
      PositionComposes(m, list, otherwise);
      TargetsCompose(m, list, targets);
    case LookupSwitch(otherwise, cases) =>
      PositionComposes(m, list, otherwise);
      CasesCompose(m, list, cases);
    case _ =>
  }

  // ----- the whole editor -----

  /** Nothing a cast touched lost a bit: every two byte reference is exactly
      where the uncast map sends it. */
  predicate ExactlyMoved(m: RefMap, e: Editor, after: Editor)
    requires |after.exceptions| == |e.exceptions| && |after.lines| == |e.lines|
    requires |after.locals| == |e.locals| && |after.localTypes| == |e.localTypes|
  {
    && (forall i :: 0 <= i < |e.exceptions| ==>
          && after.exceptions[i].startPc == Position(m, e.exceptions[i].startPc)
          && after.exceptions[i].endPc == Position(m, e.exceptions[i].endPc)
          && after.exceptions[i].handlerPc == Position(m, e.exceptions[i].handlerPc)
          && after.exceptions[i].catchType == e.exceptions[i].catchType)
    && LinesMoved(m, e.lines, after.lines)
    && ScopesMoved(m, e.locals, after.locals)
    && ScopesMoved(m, e.localTypes, after.localTypes)
    && FramesMoved(m, e.frames, after.frames)
    && AnnotationsMoved(m, e.annotations, after.annotations)
  }

  predicate LinesMoved(m: RefMap, s: seq<LineEntry>, after: seq<LineEntry>)
    requires |s| == |after|
  {
    forall i :: 0 <= i < |s| ==> after[i].startPc == Position(m, s[i].startPc) && after[i].line == s[i].line
  }

  predicate ScopesMoved(m: RefMap, s: seq<ScopeEntry>, after: seq<ScopeEntry>)
    requires |s| == |after|
  {
    forall i :: 0 <= i < |s| ==>
      && after[i].startPc == Position(m, s[i].startPc)
      && after[i].startPc as int + after[i].length as int == Position(m, s[i].startPc + s[i].length as int)
      && after[i].nameIndex == s[i].nameIndex && after[i].descriptorIndex == s[i].descriptorIndex && after[i].index == s[i].index
  }

  /** A frame keeps its place; what it says of an object under construction (tag 8)
      follows the instruction that made the object. */
  predicate FramesMoved(m: RefMap, s: seq<Frame>, after: seq<Frame>) {
    |after| == |s| && forall i :: 0 <= i < |s| ==>
      && after[i].offset == Position(m, s[i].offset)
      && after[i].rawTag == s[i].rawTag && after[i].kind == s[i].kind && after[i].chop == s[i].chop
      && TypesMoved(m, s[i].locals, after[i].locals) && TypesMoved(m, s[i].stack, after[i].stack)
  }

  predicate TypesMoved(m: RefMap, s: seq<VerificationType>, after: seq<VerificationType>) {
    |after| == |s| && forall i :: 0 <= i < |s| ==>
      && after[i].tag == s[i].tag && after[i].poolIndex == s[i].poolIndex
      && after[i].offset == if s[i].tag == 8 then Identity(m, s[i].offset) else s[i].offset
  }

  /** A span keeps its places, an annotated instruction is followed; where the value
      is written back does not change. */
  predicate AnnotationsMoved(m: RefMap, s: seq<AnnotationRef>, after: seq<AnnotationRef>) {
    |after| == |s| && forall i :: 0 <= i < |s| ==>
      && after[i].kind == s[i].kind && after[i].attribute == s[i].attribute && after[i].payloadOffset == s[i].payloadOffset
      && (s[i].kind == SPAN ==> after[i].start == Position(m, s[i].start) && after[i].end == Position(m, s[i].end))
      && (s[i].kind == INSTRUCTION ==> after[i].start == Identity(m, s[i].start))
  }

  lemma TypesAreMoved(m: RefMap, s: seq<VerificationType>)
    requires m.MOVE? && LegalMove(m) && TypesMap(TO_INDEX(m.code, m.length), s)
    ensures TypesMoved(m, s, MapTypes(m, s))
  {
    hide LegalMove, OffsetToIndex, MapPosition, MapIdentity, Position, Identity;
    forall i | 0 <= i < |s| && s[i].tag == UNINITIALIZED ensures MapIdentity(m, s[i].offset) == Identity(m, s[i].offset) {
      IdentityMaps(m, s[i].offset);
      MovedMaps(m, s[i].offset);
    }
  }

  lemma IdentityMaps(m: RefMap, r: int)
    requires m.MOVE?
    ensures Identity(TO_INDEX(m.code, m.length), r) == OffsetToIndex(m.code, m.length, r)
    ensures Position(TO_INDEX(m.code, m.length), r) == OffsetToIndex(m.code, m.length, r)
  {
  }

  lemma FramesAreMoved(m: RefMap, s: seq<Frame>)
    requires m.MOVE? && LegalMove(m) && forall i :: 0 <= i < |s| ==> FrameMaps(TO_INDEX(m.code, m.length), s[i])
    ensures FramesMoved(m, s, MapFrames(m, s))
  {
    hide LegalMove, OffsetToIndex, MapPosition, MapTypes, TypesMap, TypesMoved, Position, Identity;
    forall i | 0 <= i < |s|
      ensures MapPosition(m, s[i].offset) == Position(m, s[i].offset)
      ensures TypesMoved(m, s[i].locals, MapTypes(m, s[i].locals)) && TypesMoved(m, s[i].stack, MapTypes(m, s[i].stack))
    {
      assert FrameMaps(TO_INDEX(m.code, m.length), s[i]);
      IdentityMaps(m, s[i].offset);
      MovedMaps(m, s[i].offset);
      TypesAreMoved(m, s[i].locals);
      TypesAreMoved(m, s[i].stack);
    }
  }

  lemma AnnotationsAreMoved(m: RefMap, s: seq<AnnotationRef>)
    requires m.MOVE? && LegalMove(m) && forall i :: 0 <= i < |s| ==> AnnotationMaps(TO_INDEX(m.code, m.length), s[i])
    ensures AnnotationsMoved(m, s, MapAnnotations(m, s))
  {
    hide LegalMove, OffsetToIndex, MapPosition, MapIdentity, Position, Identity;
    forall i | 0 <= i < |s|
      ensures s[i].kind == SPAN ==> MapPosition(m, s[i].start) == Position(m, s[i].start) && MapPosition(m, s[i].end) == Position(m, s[i].end)
      ensures s[i].kind == INSTRUCTION ==> MapIdentity(m, s[i].start) == Identity(m, s[i].start)
    {
      assert AnnotationMaps(TO_INDEX(m.code, m.length), s[i]);
      IdentityMaps(m, s[i].start);
      IdentityMaps(m, s[i].end);
      MovedMaps(m, s[i].start);
      if s[i].kind == SPAN {
        MovedMaps(m, s[i].end);
      }
    }
  }

  /** The list before its indices became offsets: same layout as the result. */
  function Relisted(e: Editor, at: nat, block: seq<Instruction>): seq<Instruction>
    requires at <= |e.code|
  {
    Relaid(MapCode(SHIFT(at, |block|), Spliced(MapCode(TO_INDEX(e.code, e.codeLength), e.code), at, block)))
  }

  lemma MoveIsLegal(e: Editor, at: nat, block: seq<Instruction>)
    requires Consistent(e) && AllWellFormed(block) && at <= |e.code|
    requires Committed(e, at, block).codeLength <= MAX_CODE_LENGTH
    ensures LegalMove(MoveOf(e, at, block))
    ensures SameOffsets(Relisted(e, at, block), Committed(e, at, block).code)
    ensures Committed(e, at, block).code
         == MapCode(TO_OFFSET(Relisted(e, at, block), Committed(e, at, block).codeLength), Relisted(e, at, block))
  {
    hide Relaid, LaidOut, MapOperand;
    CommittedCode(e, at, block);
  }

  lemma CommittedTables(e: Editor, at: nat, block: seq<Instruction>)
    requires Consistent(e) && AllWellFormed(block) && at <= |e.code|
    requires Committed(e, at, block).codeLength <= MAX_CODE_LENGTH
    ensures var m := MoveOf(e, at, block); var after := Committed(e, at, block);
      && after.exceptions == MapExceptions(m, e.exceptions)
      && after.lines == MapLines(m, e.lines)
      && after.locals == MapScopes(m, e.locals)
      && after.localTypes == MapScopes(m, e.localTypes)
      && after.frames == MapFrames(m, e.frames)
      && after.annotations == MapAnnotations(m, e.annotations)
      && ExactlyMoved(m, e, after)
  {
    hide Relaid, LaidOut, MapOperand, LegalMove, MapCode, SameOffsets, CodeMaps;
    hide MapException, MapLine, MapScope, MapFrame, MapAnnotation, Position, FramesMoved, AnnotationsMoved;
    MoveIsLegal(e, at, block);
    var m := MoveOf(e, at, block);
    var list := Relisted(e, at, block);
    forall i | 0 <= i < |e.exceptions| { ExceptionComposes(m, list, e.exceptions[i]); }
    forall i | 0 <= i < |e.lines| { LineComposes(m, list, e.lines[i]); }
    forall i | 0 <= i < |e.locals| { ScopeComposes(m, list, e.locals[i]); }
    forall i | 0 <= i < |e.localTypes| { ScopeComposes(m, list, e.localTypes[i]); }
    forall i | 0 <= i < |e.frames| { FrameComposes(m, list, e.frames[i]); }
    forall i | 0 <= i < |e.annotations| { AnnotationComposes(m, list, e.annotations[i]); }
    FramesAreMoved(m, e.frames);
    AnnotationsAreMoved(m, e.annotations);
  }

  /** Original node i follows the shift that keeps identities; its operation is
      untouched and its targets went through the move. */
  lemma CommittedNode(e: Editor, at: nat, block: seq<Instruction>, i: nat)
    requires Consistent(e) && AllWellFormed(block) && at <= |e.code| && i < |e.code|
    requires Committed(e, at, block).codeLength <= MAX_CODE_LENGTH
    ensures var m := MoveOf(e, at, block); var after := Committed(e, at, block);
            var j := ShiftWith(i, at, |block|);
      && 0 <= j < |after.code|
      && after.code[j] == MapNode(m, e.code[i]).(offset := OffsetOf(after.code, j))
      && after.code[j].offset == Identity(m, e.code[i].offset)
  {
    hide AllWellFormed, LaidOut, MapOperand, LegalMove, SameOffsets, OperandMaps, OffsetToIndex, OffsetOf;
    MoveIsLegal(e, at, block);
    var m := MoveOf(e, at, block);
    var list := Relisted(e, at, block);
    var j := ShiftWith(i, at, |block|);
    var indexed := MapCode(TO_INDEX(e.code, e.codeLength), e.code);
    SplicedAt(indexed, at, block, j);
    OperandComposes(m, list, e.code[i].operand);
    LaidOutLookups(e.code, e.codeLength, i);
    CommittedCode(e, at, block);
    LaidOutLookups(m.newCode, m.newLength, j);
  }

  lemma LaidOutLookups(code: seq<Instruction>, length: nat, i: nat)
    requires AllWellFormed(code) && LaidOut(code, length) && i < |code|
    ensures code[i].offset == OffsetOf(code, i)
    ensures OffsetToIndex(code, length, code[i].offset) == i
  {
    BoundaryLookup(code, length, i);
  }

  lemma RelistedBlock(e: Editor, at: nat, block: seq<Instruction>, k: nat)
    requires at <= |e.code| && k < |block|
    ensures at + k < |Relisted(e, at, block)|
    ensures Relisted(e, at, block)[at + k]
         == MapNode(SHIFT(at, |block|), block[k]).(offset := Relisted(e, at, block)[at + k].offset)
  {
    hide MapOperand, OffsetOf;
    SplicedAt(MapCode(TO_INDEX(e.code, e.codeLength), e.code), at, block, at + k);
  }

  lemma CommittedIsMapped(e: Editor, at: nat, block: seq<Instruction>)
    requires at <= |e.code|
    ensures Committed(e, at, block).code
         == MapCode(TO_OFFSET(Relisted(e, at, block), Committed(e, at, block).codeLength), Relisted(e, at, block))
  {
    hide Relaid, MapOperand;
  }

  lemma CommittedBlock(e: Editor, at: nat, block: seq<Instruction>, k: nat)
    requires AllWellFormed(e.code) && AllWellFormed(block) && at <= |e.code| && k < |block|
    ensures var after := Committed(e, at, block); var j := at + k;
      && j < |after.code|
      && after.code[j] == MapNode(TO_OFFSET(Relisted(e, at, block), after.codeLength),
                                  MapNode(SHIFT(at, |block|), block[k])).(offset := OffsetOf(after.code, j))
  {
    hide AllWellFormed, MapOperand, Committed, Relisted, OffsetOf;
    CommittedCode(e, at, block);
    RelistedBlock(e, at, block, k);
    CommittedIsMapped(e, at, block);
  }

  /** Frame offsets stay strictly increasing, so no delta can turn negative. */
  predicate FramesIncrease(frames: seq<Frame>) {
    forall i, j :: 0 <= i < j < |frames| ==> frames[i].offset < frames[j].offset
  }

  lemma InsertKeepsFrameOrder(e: Editor, at: nat, block: seq<Instruction>)
    requires Consistent(e) && AllWellFormed(block) && at <= |e.code|
    requires Committed(e, at, block).codeLength <= MAX_CODE_LENGTH
    requires FramesIncrease(e.frames)
    ensures FramesIncrease(Committed(e, at, block).frames)
    ensures forall i :: 0 <= i < |e.frames| ==> 0 <= Committed(e, at, block).frames[i].offset <= MAX_CODE_LENGTH
  {
    hide AllWellFormed, LaidOut, MapOperand, LegalMove, SameOffsets, OffsetToIndex, Committed, Relisted, ExactlyMoved, MoveOf;
    CommittedTables(e, at, block);
    MoveIsLegal(e, at, block);
    var m := MoveOf(e, at, block);
    var list := Relisted(e, at, block);
    MoveStartsAt(e, at, block);
    forall i | 0 <= i < |e.frames|
      ensures Committed(e, at, block).frames[i].offset == Position(m, e.frames[i].offset) && Small(Position(m, e.frames[i].offset))
    {
      assert FrameMaps(TO_INDEX(e.code, e.codeLength), e.frames[i]);
      PositionComposes(m, list, e.frames[i].offset);
    }
    forall i, j | 0 <= i < j < |e.frames|
      ensures Committed(e, at, block).frames[i].offset < Committed(e, at, block).frames[j].offset
    {
      PositionMonotone(m, e.frames[i].offset, e.frames[j].offset);
    }
  }

  lemma MoveStartsAt(e: Editor, at: nat, block: seq<Instruction>)
    requires at <= |e.code|
    ensures var m := MoveOf(e, at, block);
      m == MOVE(e.code, e.codeLength, at, |block|, Committed(e, at, block).code, Committed(e, at, block).codeLength)
  {
  }

  // ----- after the commit point nothing can be left half way -----

  /** Every reference is a count from the start, as offsets and indices are. An
      index always has an offset, so this is all the way back ever needs. */
  predicate NonNegative(e: Editor) {
    AllMap(SHIFT(0, 0), e)
  }

  lemma NonNegativeHasOffset(e: Editor, code: seq<Instruction>, length: nat)
    requires NonNegative(e)
    ensures AllMap(TO_OFFSET(code, length), e)
  {
    var zero, m := SHIFT(0, 0), TO_OFFSET(code, length);
    forall i | 0 <= i < |e.code| ensures OperandMaps(m, e.code[i].operand) {
      assert OperandMaps(zero, e.code[i].operand);
    }
    forall i | 0 <= i < |e.exceptions| ensures ExceptionMaps(m, e.exceptions[i]) {
    }
    forall i | 0 <= i < |e.frames| ensures FrameMaps(m, e.frames[i]) {
      assert FrameMaps(zero, e.frames[i]);
    }
    forall i | 0 <= i < |e.annotations| ensures AnnotationMaps(m, e.annotations[i]) {
      assert AnnotationMaps(zero, e.annotations[i]);
    }
  }

  lemma MappedOperandIsNonNegative(m: RefMap, operand: Operand)
    requires OperandMaps(m, operand)
    ensures OperandMaps(SHIFT(0, 0), MapOperand(m, operand))
  {
  }

  lemma MappedFrameIsNonNegative(m: RefMap, f: Frame)
    requires FrameMaps(m, f)
    ensures FrameMaps(SHIFT(0, 0), MapFrame(m, f))
  {
  }

  lemma MappedIsNonNegative(m: RefMap, e: Editor)
    requires AllMap(m, e)
    ensures NonNegative(MapAll(m, e))
  {
    hide OperandMaps, FrameMaps, MapOperand, MapFrame;
    var zero, r := SHIFT(0, 0), MapAll(m, e);
    forall i | 0 <= i < |r.code| ensures OperandMaps(zero, r.code[i].operand) {
      MappedOperandIsNonNegative(m, e.code[i].operand);
    }
    forall i | 0 <= i < |r.exceptions| ensures ExceptionMaps(zero, r.exceptions[i]) {
    }
    forall i | 0 <= i < |r.frames| ensures FrameMaps(zero, r.frames[i]) {
      MappedFrameIsNonNegative(m, e.frames[i]);
    }
    forall i | 0 <= i < |r.annotations| ensures AnnotationMaps(zero, r.annotations[i]) {
      assert AnnotationMaps(m, e.annotations[i]);
    }
  }

  lemma NonNegativeShifts(e: Editor, at: nat, count: nat)
    requires NonNegative(e)
    ensures AllMap(SHIFT(at, count), e)
  {
    var zero, m := SHIFT(0, 0), SHIFT(at, count);
    forall i | 0 <= i < |e.code| ensures OperandMaps(m, e.code[i].operand) {
      assert OperandMaps(zero, e.code[i].operand);
    }
    forall i | 0 <= i < |e.frames| ensures FrameMaps(m, e.frames[i]) {
      assert FrameMaps(zero, e.frames[i]);
    }
    forall i | 0 <= i < |e.annotations| ensures AnnotationMaps(m, e.annotations[i]) {
      assert AnnotationMaps(zero, e.annotations[i]);
    }
  }

  /** The editor between the two mappings, when it holds indices. */
  function Shifted(e: Editor, at: nat, block: seq<Instruction>): Editor
    requires at <= |e.code|
  {
    var indexed := MapAll(TO_INDEX(e.code, e.codeLength), e);
    var shifted := MapAll(SHIFT(at, |block|), indexed.(code := Spliced(indexed.code, at, block)));
    shifted.(code := Relaid(shifted.code), codeLength := OffsetOf(shifted.code, |shifted.code|))
  }

  /** A passed rehearsal settles both mappings: no reference of the editor that
      holds indices lacks an offset, whatever was spliced in. */
  lemma RehearsalSuffices(e: Editor, at: nat, block: seq<Instruction>)
    requires at <= |e.code| && AllMap(TO_INDEX(e.code, e.codeLength), e)
    requires CodeMaps(SHIFT(0, 0), block)
    ensures AllMap(TO_OFFSET(Shifted(e, at, block).code, Shifted(e, at, block).codeLength), Shifted(e, at, block))
  {
    hide OperandMaps, ExceptionsMap, LinesMap, ScopesMap, FramesMap, AnnotationsMap, MapNode, OffsetOf;
    var zero := SHIFT(0, 0);
    var indexed := MapAll(TO_INDEX(e.code, e.codeLength), e);
    MappedIsNonNegative(TO_INDEX(e.code, e.codeLength), e);
    var spliced := indexed.(code := Spliced(indexed.code, at, block));
    forall j | 0 <= j < |spliced.code| ensures OperandMaps(zero, spliced.code[j].operand) {
      SplicedAt(indexed.code, at, block, j);
    }
    NonNegativeShifts(spliced, at, |block|);
    var shifted := MapAll(SHIFT(at, |block|), spliced);
    MappedIsNonNegative(SHIFT(at, |block|), spliced);
    var relaid := Shifted(e, at, block);
    forall j | 0 <= j < |relaid.code| ensures OperandMaps(zero, relaid.code[j].operand) {
      assert relaid.code[j].operand == shifted.code[j].operand;
    }
    NonNegativeHasOffset(relaid, relaid.code, relaid.codeLength);
  }

  // ----- the result is again an editor holding offsets -----

  /** A moved position is the boundary the shift says, and nothing else. */
  lemma MovedPosition(m: RefMap, r: int)
    requires LegalMove(m) && OffsetToIndex(m.code, m.length, r) >= 0
    ensures OffsetToIndex(m.newCode, m.newLength, Position(m, r))
         == ShiftAfter(OffsetToIndex(m.code, m.length, r), m.at, m.count) >= 0
  {
    hide AllWellFormed, LaidOut, OffsetToIndex, OffsetOf;
    BoundaryLookup(m.newCode, m.newLength, ShiftAfter(OffsetToIndex(m.code, m.length, r), m.at, m.count));
  }

  lemma MovedIdentity(m: RefMap, r: int)
    requires LegalMove(m) && OffsetToIndex(m.code, m.length, r) >= 0
    ensures OffsetToIndex(m.newCode, m.newLength, Identity(m, r))
         == ShiftWith(OffsetToIndex(m.code, m.length, r), m.at, m.count) >= 0
  {
    hide AllWellFormed, LaidOut, OffsetToIndex, OffsetOf;
    BoundaryLookup(m.newCode, m.newLength, ShiftWith(OffsetToIndex(m.code, m.length, r), m.at, m.count));
  }

  lemma MovedMaps(m: RefMap, r: int)
    requires LegalMove(m) && OffsetToIndex(m.code, m.length, r) >= 0
    ensures MapPosition(m, r) == Position(m, r) && Small(Position(m, r))
    ensures OffsetToIndex(m.newCode, m.newLength, Position(m, r)) >= 0
    ensures MapIdentity(m, r) == Identity(m, r)
    ensures OffsetToIndex(m.newCode, m.newLength, Identity(m, r)) >= 0
  {
    hide AllWellFormed, LaidOut, OffsetToIndex, IndexToOffset, Position, Identity, MapPosition, MapIdentity;
    MovedPosition(m, r);
    MovedIdentity(m, r);
    SameOffsetsReflexive(m.newCode);
    PositionComposes(m, m.newCode, r);
    IdentityComposes(m, m.newCode, r);
  }

  lemma SameOffsetsReflexive(code: seq<Instruction>)
    ensures SameOffsets(code, code)
  {
  }

  lemma MovedOperandMaps(m: RefMap, operand: Operand)
    requires LegalMove(m) && OperandMaps(TO_INDEX(m.code, m.length), operand)
    ensures OperandMaps(TO_INDEX(m.newCode, m.newLength), MapOperand(m, operand))
  {
    hide LegalMove, OffsetToIndex, MapPosition;
    match operand
    case Branch(target) => MovedMaps(m, target);
    case BranchWide(target) => MovedMaps(m, target);
    case TableSwitch(otherwise, _, _, targets) =>
      MovedMaps(m, otherwise);
      forall i | 0 <= i < |targets| { MovedMaps(m, targets[i]); }
    case LookupSwitch(otherwise, cases) =>
      MovedMaps(m, otherwise);
      forall i | 0 <= i < |cases| { MovedMaps(m, cases[i].target); }
    case _ =>
  }

  lemma MovedFrameMaps(m: RefMap, f: Frame)
    requires LegalMove(m) && FrameMaps(TO_INDEX(m.code, m.length), f)
    ensures FrameMaps(TO_INDEX(m.newCode, m.newLength), MapFrame(m, f))
  {
    hide LegalMove, OffsetToIndex, MapPosition, MapIdentity;
    MovedMaps(m, f.offset);
    MovedTypesMap(m, f.locals);
    MovedTypesMap(m, f.stack);
  }

  lemma MovedTypesMap(m: RefMap, types: seq<VerificationType>)
    requires LegalMove(m) && TypesMap(TO_INDEX(m.code, m.length), types)
    ensures TypesMap(TO_INDEX(m.newCode, m.newLength), MapTypes(m, types))
  {
    hide LegalMove, OffsetToIndex, MapIdentity;
    forall i | 0 <= i < |types| && types[i].tag == UNINITIALIZED { MovedMaps(m, types[i].offset); }
  }

  lemma MovedTablesMap(m: RefMap, e: Editor, after: Editor)
    requires m.MOVE? && LegalMove(m) && AllMap(TO_INDEX(m.code, m.length), e)
    requires after.exceptions == MapExceptions(m, e.exceptions) && after.lines == MapLines(m, e.lines)
    requires after.locals == MapScopes(m, e.locals) && after.localTypes == MapScopes(m, e.localTypes)
    requires after.frames == MapFrames(m, e.frames) && after.annotations == MapAnnotations(m, e.annotations)
    requires ExactlyMoved(m, e, after)
    ensures var n := TO_INDEX(m.newCode, m.newLength);
      && ExceptionsMap(n, after.exceptions) && LinesMap(n, after.lines)
      && ScopesMap(n, after.locals) && ScopesMap(n, after.localTypes)
      && FramesMap(n, after.frames) && AnnotationsMap(n, after.annotations)
  {
    hide LegalMove, OffsetToIndex, IndexToOffset, MapException, MapLine, MapScope, MapFrame, MapPosition, MapIdentity, FrameMaps, CodeMaps, ScopesMoved, ScopesMap, FramesMoved, AnnotationsMoved;
    var n := TO_INDEX(m.newCode, m.newLength);
    forall i | 0 <= i < |e.exceptions| ensures ExceptionMaps(n, after.exceptions[i]) {
      MovedMaps(m, e.exceptions[i].startPc);
      MovedMaps(m, e.exceptions[i].endPc);
      MovedMaps(m, e.exceptions[i].handlerPc);
    }
    forall i | 0 <= i < |e.lines| ensures LineMaps(n, after.lines[i]) {
      MovedMaps(m, e.lines[i].startPc);
    }
    forall i | 0 <= i < |e.frames| ensures FrameMaps(n, after.frames[i]) {
      MovedFrameMaps(m, e.frames[i]);
    }
    MovedScopesMap(m, e.locals, after.locals);
    MovedScopesMap(m, e.localTypes, after.localTypes);
    forall i | 0 <= i < |e.annotations| ensures AnnotationMaps(n, after.annotations[i]) {
      assert AnnotationMaps(TO_INDEX(m.code, m.length), e.annotations[i]);
      MovedMaps(m, e.annotations[i].start);
      if e.annotations[i].kind == SPAN {
        MovedMaps(m, e.annotations[i].end);
      }
    }
  }

  lemma MovedScopesMap(m: RefMap, s: seq<ScopeEntry>, after: seq<ScopeEntry>)
    requires LegalMove(m) && |s| == |after| && ScopesMap(TO_INDEX(m.code, m.length), s) && ScopesMoved(m, s, after)
    ensures ScopesMap(TO_INDEX(m.newCode, m.newLength), after)
  {
    hide AllWellFormed, LaidOut, OffsetToIndex, IndexToOffset, MapPosition, MapIdentity;
    forall i | 0 <= i < |s| ensures ScopeMaps(TO_INDEX(m.newCode, m.newLength), after[i]) {
      assert ScopeMaps(TO_INDEX(m.code, m.length), s[i]);
      MovedMaps(m, s[i].startPc);
      MovedMaps(m, s[i].startPc + s[i].length as int);
    }
  }

  /** Spliced-in targets are indices, and any index names a boundary. */
  lemma BlockOperandMaps(list: seq<Instruction>, code: seq<Instruction>, length: nat, operand: Operand)
    requires AllWellFormed(code) && LaidOut(code, length) && SameOffsets(list, code)
    requires OperandMaps(SHIFT(0, 0), operand)
    ensures OperandMaps(TO_INDEX(code, length), MapOperand(TO_OFFSET(list, length), operand))
  {
    hide AllWellFormed, LaidOut, OffsetToIndex;
    forall t: int | t >= 0
      ensures OffsetToIndex(code, length, MapPosition(TO_OFFSET(list, length), t)) >= 0
    {
      BoundaryLookup(code, length, if t < |code| then t else |code|);
      BoundaryLookup(code, length, |code|);
    }
  }

  lemma CommittedOperandsMap(e: Editor, at: nat, block: seq<Instruction>)
    requires Consistent(e) && AllWellFormed(block) && at <= |e.code| && CodeMaps(SHIFT(0, 0), block)
    requires Committed(e, at, block).codeLength <= MAX_CODE_LENGTH
    ensures var after := Committed(e, at, block); CodeMaps(TO_INDEX(after.code, after.codeLength), after.code)
  {
    hide AllWellFormed, LaidOut, LegalMove, SameOffsets, Committed, Relisted, OperandMaps, MapOperand, OffsetToIndex, OffsetOf;
    var after := Committed(e, at, block);
    MoveIsLegal(e, at, block);
    MoveStartsAt(e, at, block);
    CommittedCode(e, at, block);
    var m := MoveOf(e, at, block);
    forall j | 0 <= j < |after.code|
      ensures OperandMaps(TO_INDEX(after.code, after.codeLength), after.code[j].operand)
    {
      if at <= j < at + |block| {
        CommittedBlock(e, at, block, j - at);
        var shifted := MapOperand(SHIFT(at, |block|), block[j - at].operand);
        ShiftedOperand(SHIFT(at, |block|), block[j - at].operand);
        BlockOperandMaps(Relisted(e, at, block), after.code, after.codeLength, shifted);
      } else {
        var i := if j < at then j else j - |block|;
        CommittedNode(e, at, block, i);
        MovedOperandMaps(m, e.code[i].operand);
      }
    }
  }

  lemma ShiftedOperand(m: RefMap, operand: Operand)
    requires m.SHIFT? && OperandMaps(SHIFT(0, 0), operand)
    ensures OperandMaps(SHIFT(0, 0), MapOperand(m, operand))
  {
  }

  lemma CommittedIsConsistent(e: Editor, at: nat, block: seq<Instruction>)
    requires Consistent(e) && AllWellFormed(block) && at <= |e.code| && CodeMaps(SHIFT(0, 0), block)
    requires Committed(e, at, block).codeLength <= MAX_CODE_LENGTH
    ensures Consistent(Committed(e, at, block))
  {
    hide AllWellFormed, LaidOut, LegalMove, Committed, CodeMaps, ExceptionsMap, LinesMap, ScopesMap, FramesMap, AnnotationsMap;
    hide MapExceptions, MapLines, MapScopes, MapFrames, MapAnnotations, ExactlyMoved;
    MoveIsLegal(e, at, block);
    MoveStartsAt(e, at, block);
    CommittedCode(e, at, block);
    CommittedTables(e, at, block);
    CommittedOperandsMap(e, at, block);
    MovedTablesMap(MoveOf(e, at, block), e, Committed(e, at, block));
  }

  // ----- the main results about one insertion -----

  /** A refusal before the commit point changes nothing. In every outcome that
      still fits a code array, stored references are offsets of boundaries; a
      failure after the commit point can only come from the annotations. */
  lemma AllOrNothing(e: Editor, offset: u4, block: seq<Instruction>, extraStack: u2, reserved: bool)
    requires Consistent(e) && AllWellFormed(block) && CodeMaps(SHIFT(0, 0), block)
    ensures var r := Insert(e, offset, block, extraStack, reserved);
      && (r.status in {BAD_OFFSET, LIMIT_EXCEEDED, OUT_OF_MEMORY} ==> r.editor == e)
      && (r.status in {OK, BAD_OFFSET, LIMIT_EXCEEDED, OUT_OF_MEMORY, CODE_TOO_LARGE, UNSUPPORTED})
      && (r.editor.codeLength <= MAX_CODE_LENGTH ==> Consistent(r.editor))
      && (r.status == BAD_OFFSET <==> block != [] && OffsetToIndex(e.code, e.codeLength, AsI4(offset)) < 0)
  {
    hide Consistent, AllMap, AllWellFormed, Committed, FlushFrom, CodeMaps, OffsetToIndex, AsI4;
    assert AllMap(TO_INDEX(e.code, e.codeLength), e) by { ConsistentMaps(e); }
    var at := OffsetToIndex(e.code, e.codeLength, AsI4(offset));
    if block != [] && at >= 0 {
      var moved := Committed(e, at, block);
      FlushStatuses(moved.annotations, 0, moved.others);
      if moved.codeLength <= MAX_CODE_LENGTH {
        CommittedIsConsistent(e, at, block);
        var r := Insert(e, offset, block, extraStack, reserved);
        if r.status !in {BAD_OFFSET, LIMIT_EXCEEDED, OUT_OF_MEMORY} {
          ConsistentIgnores(moved, r.editor);
        }
      }
    }
  }

  lemma ConsistentMaps(e: Editor)
    requires Consistent(e)
    ensures AllMap(TO_INDEX(e.code, e.codeLength), e)
  {
  }

  lemma ConsistentIgnores(e: Editor, f: Editor)
    requires Consistent(e) && f == e.(others := f.others, maxStack := f.maxStack)
    ensures Consistent(f)
  {
    hide AllWellFormed, LaidOut, CodeMaps, ExceptionsMap, LinesMap, ScopesMap, FramesMap, AnnotationsMap;
  }

  lemma {:induction false} FlushStatuses(refs: seq<AnnotationRef>, i: nat, others: seq<Attribute>)
    requires i <= |refs|
    ensures FlushFrom(refs, i, others).status in {OK, CODE_TOO_LARGE, UNSUPPORTED}
    decreases |refs| - i
  {
    hide Patch;
    if i < |refs| && FlushRef(refs[i], others).status == OK {
      FlushStatuses(refs, i + 1, FlushRef(refs[i], others).others);
    }
  }
}
