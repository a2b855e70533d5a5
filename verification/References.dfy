/** Everything a Code attribute holds that names a place in the bytecode, and the
    maps an insertion pushes those names through. */
module References {
  import opened Bytes
  import opened Instructions

  // tag of an Uninitialized verification type (section 4.7.4 of the JVMS)
  const UNINITIALIZED: u1 := 8
  const OBJECT: u1 := 7

  datatype ExceptionEntry = ExceptionEntry(startPc: u2, endPc: u2, handlerPc: u2, catchType: u2)
  datatype LineEntry = LineEntry(startPc: u2, line: u2)
  datatype ScopeEntry =
    ScopeEntry(startPc: u2, length: u2, nameIndex: u2, descriptorIndex: u2, index: u2)

  /** offset is meaningful for Uninitialized, poolIndex for Object. */
  datatype VerificationType = VerificationType(tag: u1, poolIndex: u2, offset: int)
  datatype FrameKind = SAME | SAME_LOCALS_1_STACK_ITEM | CHOP | APPEND | FULL
  datatype Frame =
    Frame(rawTag: u1, kind: FrameKind, offset: int, chop: u2,
          locals: seq<VerificationType>, stack: seq<VerificationType>)

  /** A value inside an opaque attribute: a scope with a length behind it, or the
      identity of one instruction. */
  datatype AnnotationKind = SPAN | INSTRUCTION
  datatype AnnotationRef =
    AnnotationRef(attribute: nat, payloadOffset: nat, kind: AnnotationKind, start: int, end: int)

  datatype Attribute = Attribute(nameIndex: u2, info: seq<u1>)

  // ----- the three maps -----

  /** A reference that names a position keeps it, so inserted code takes it over. */
  function ShiftAfter(index: int, at: int, count: nat): int {
    if index > at then index + count else index
  }

  /** A reference that names one instruction follows that instruction. */
  function ShiftWith(index: int, at: int, count: nat): int {
    if index >= at then index + count else index
  }

  /** MOVE is the whole journey of a reference through one insertion: offset to
      index in the old list, shifted, back to an offset in the new list. It is
      what the other three amount to, and nothing ever runs it. */
  datatype RefMap =
    | TO_INDEX(code: seq<Instruction>, length: nat)
    | SHIFT(at: nat, count: nat)
    | TO_OFFSET(code: seq<Instruction>, length: nat)
    | MOVE(code: seq<Instruction>, length: nat, at: nat, count: nat, newCode: seq<Instruction>, newLength: nat)

  /** Where a reference to a position goes; negative when it has no image. */
  function Position(m: RefMap, r: int): int {
    match m
    case TO_INDEX(code, length) => OffsetToIndex(code, length, r)
    case SHIFT(at, count) => ShiftAfter(r, at, count)
    case TO_OFFSET(code, length) => IndexToOffset(code, length, r)
    case MOVE(code, length, at, count, newCode, newLength) =>
      IndexToOffset(newCode, newLength, ShiftAfter(OffsetToIndex(code, length, r), at, count))
  }

  /** Where a reference to one instruction goes. */
  function Identity(m: RefMap, r: int): int {
    match m
    case TO_INDEX(code, length) => OffsetToIndex(code, length, r)
    case SHIFT(at, count) => ShiftWith(r, at, count)
    case TO_OFFSET(code, length) => IndexToOffset(code, length, r)
    case MOVE(code, length, at, count, newCode, newLength) =>
      IndexToOffset(newCode, newLength, ShiftWith(OffsetToIndex(code, length, r), at, count))
  }

  /** A reference without an image is left as it is. */
  function MapPosition(m: RefMap, r: int): int {
    if Position(m, r) < 0 then r else Position(m, r)
  }

  function MapIdentity(m: RefMap, r: int): int {
    if Identity(m, r) < 0 then r else Identity(m, r)
  }

  // ----- the maps on every table -----

  function MapTargets(m: RefMap, targets: seq<int>): (r: seq<int>)
    ensures |r| == |targets|
  {
    seq(|targets|, i requires 0 <= i < |targets| => MapPosition(m, targets[i]))
  }

  function MapCases(m: RefMap, cases: seq<Case>): (r: seq<Case>)
    ensures |r| == |cases|
  {
    seq(|cases|, i requires 0 <= i < |cases| => cases[i].(target := MapPosition(m, cases[i].target)))
  }

  function MapOperand(m: RefMap, operand: Operand): Operand {
    match operand
    case Branch(target) => Branch(MapPosition(m, target))
    case BranchWide(target) => BranchWide(MapPosition(m, target))
    case TableSwitch(otherwise, low, high, targets) =>
      TableSwitch(MapPosition(m, otherwise), low, high, MapTargets(m, targets))
    case LookupSwitch(otherwise, cases) => LookupSwitch(MapPosition(m, otherwise), MapCases(m, cases))
    case _ => operand
  }

  function MapNode(m: RefMap, node: Instruction): Instruction {
    node.(operand := MapOperand(m, node.operand))
  }

  function MapCode(m: RefMap, code: seq<Instruction>): (r: seq<Instruction>)
    ensures |r| == |code|
  {
    seq(|code|, i requires 0 <= i < |code| => MapNode(m, code[i]))
  }

  /** A two byte reference goes through a cast. */
  function MapException(m: RefMap, e: ExceptionEntry): ExceptionEntry {
    e.(startPc := ToU2(MapPosition(m, e.startPc)),
       endPc := ToU2(MapPosition(m, e.endPc)),
       handlerPc := ToU2(MapPosition(m, e.handlerPc)))
  }

  function MapLine(m: RefMap, e: LineEntry): LineEntry {
    e.(startPc := ToU2(MapPosition(m, e.startPc)))
  }

  /** Both ends of a scope move; the length is what is left between them. */
  function MapScope(m: RefMap, e: ScopeEntry): ScopeEntry {
    var start := MapPosition(m, e.startPc);
    var end := MapPosition(m, e.startPc + e.length as int);
    e.(startPc := ToU2(start), length := ToU2(end - start))
  }

  function MapType(m: RefMap, t: VerificationType): VerificationType {
    if t.tag == UNINITIALIZED then t.(offset := MapIdentity(m, t.offset)) else t
  }

  function MapTypes(m: RefMap, types: seq<VerificationType>): (r: seq<VerificationType>)
    ensures |r| == |types|
  {
    seq(|types|, i requires 0 <= i < |types| => MapType(m, types[i]))
  }

  function MapFrame(m: RefMap, f: Frame): Frame {
    f.(offset := MapPosition(m, f.offset), locals := MapTypes(m, f.locals), stack := MapTypes(m, f.stack))
  }

  function MapAnnotation(m: RefMap, a: AnnotationRef): AnnotationRef {
    match a.kind
    case SPAN => a.(start := MapPosition(m, a.start), end := MapPosition(m, a.end))
    case INSTRUCTION => a.(start := MapIdentity(m, a.start))
  }

  function MapExceptions(m: RefMap, s: seq<ExceptionEntry>): (r: seq<ExceptionEntry>)
    ensures |r| == |s|
  {
    seq(|s|, i requires 0 <= i < |s| => MapException(m, s[i]))
  }

  function MapLines(m: RefMap, s: seq<LineEntry>): (r: seq<LineEntry>)
    ensures |r| == |s|
  {
    seq(|s|, i requires 0 <= i < |s| => MapLine(m, s[i]))
  }

  function MapScopes(m: RefMap, s: seq<ScopeEntry>): (r: seq<ScopeEntry>)
    ensures |r| == |s|
  {
    seq(|s|, i requires 0 <= i < |s| => MapScope(m, s[i]))
  }

  function MapFrames(m: RefMap, s: seq<Frame>): (r: seq<Frame>)
    ensures |r| == |s|
  {
    seq(|s|, i requires 0 <= i < |s| => MapFrame(m, s[i]))
  }

  function MapAnnotations(m: RefMap, s: seq<AnnotationRef>): (r: seq<AnnotationRef>)
    ensures |r| == |s|
  {
    seq(|s|, i requires 0 <= i < |s| => MapAnnotation(m, s[i]))
  }

  // ----- whether every reference has an image -----

  predicate OperandMaps(m: RefMap, operand: Operand) {
    match operand
    case Branch(target) => Position(m, target) >= 0
    case BranchWide(target) => Position(m, target) >= 0
    case TableSwitch(otherwise, _, _, targets) =>
      Position(m, otherwise) >= 0 && forall i :: 0 <= i < |targets| ==> Position(m, targets[i]) >= 0
    case LookupSwitch(otherwise, cases) =>
      Position(m, otherwise) >= 0 && forall i :: 0 <= i < |cases| ==> Position(m, cases[i].target) >= 0
    case _ => true
  }

  predicate ExceptionMaps(m: RefMap, e: ExceptionEntry) {
    Position(m, e.startPc) >= 0 && Position(m, e.endPc) >= 0 && Position(m, e.handlerPc) >= 0
  }

  predicate LineMaps(m: RefMap, e: LineEntry) {
    Position(m, e.startPc) >= 0
  }

  predicate ScopeMaps(m: RefMap, e: ScopeEntry) {
    Position(m, e.startPc) >= 0 && Position(m, e.startPc + e.length as int) >= 0
  }

  predicate TypesMap(m: RefMap, types: seq<VerificationType>) {
    forall i :: 0 <= i < |types| && types[i].tag == UNINITIALIZED ==> Identity(m, types[i].offset) >= 0
  }

  predicate FrameMaps(m: RefMap, f: Frame) {
    Position(m, f.offset) >= 0 && TypesMap(m, f.locals) && TypesMap(m, f.stack)
  }

  predicate AnnotationMaps(m: RefMap, a: AnnotationRef) {
    match a.kind
    case SPAN => Position(m, a.start) >= 0 && Position(m, a.end) >= 0
    case INSTRUCTION => Identity(m, a.start) >= 0
  }

  // ----- an editable Code attribute, as a value -----

  /** Which of the four table attributes were present, and under which name. */
  datatype TableNames =
    TableNames(hasLines: bool, lines: u2, hasLocals: bool, locals: u2,
               hasLocalTypes: bool, localTypes: u2, hasFrames: bool, frames: u2)

  datatype Editor = Editor(
    maxStack: u2,
    maxLocals: u2,
    code: seq<Instruction>,
    codeLength: nat,
    exceptions: seq<ExceptionEntry>,
    lines: seq<LineEntry>,
    locals: seq<ScopeEntry>,
    localTypes: seq<ScopeEntry>,
    frames: seq<Frame>,
    annotations: seq<AnnotationRef>,
    others: seq<Attribute>,
    names: TableNames)

  function MapAll(m: RefMap, e: Editor): (r: Editor)
    ensures |r.code| == |e.code| && r.codeLength == e.codeLength
    ensures r.maxStack == e.maxStack && r.maxLocals == e.maxLocals && r.others == e.others && r.names == e.names
  {
    e.(code := MapCode(m, e.code),
       exceptions := MapExceptions(m, e.exceptions),
       lines := MapLines(m, e.lines),
       locals := MapScopes(m, e.locals),
       localTypes := MapScopes(m, e.localTypes),
       frames := MapFrames(m, e.frames),
       annotations := MapAnnotations(m, e.annotations))
  }

  predicate CodeMaps(m: RefMap, s: seq<Instruction>) {
    forall i :: 0 <= i < |s| ==> OperandMaps(m, s[i].operand)
  }

  predicate ExceptionsMap(m: RefMap, s: seq<ExceptionEntry>) {
    forall i :: 0 <= i < |s| ==> ExceptionMaps(m, s[i])
  }

  predicate LinesMap(m: RefMap, s: seq<LineEntry>) {
    forall i :: 0 <= i < |s| ==> LineMaps(m, s[i])
  }

  predicate ScopesMap(m: RefMap, s: seq<ScopeEntry>) {
    forall i :: 0 <= i < |s| ==> ScopeMaps(m, s[i])
  }

  predicate FramesMap(m: RefMap, s: seq<Frame>) {
    forall i :: 0 <= i < |s| ==> FrameMaps(m, s[i])
  }

  predicate AnnotationsMap(m: RefMap, s: seq<AnnotationRef>) {
    forall i :: 0 <= i < |s| ==> AnnotationMaps(m, s[i])
  }

  predicate AllMap(m: RefMap, e: Editor) {
    && CodeMaps(m, e.code)
    && ExceptionsMap(m, e.exceptions)
    && LinesMap(m, e.lines)
    && ScopesMap(m, e.locals)
    && ScopesMap(m, e.localTypes)
    && FramesMap(m, e.frames)
    && AnnotationsMap(m, e.annotations)
  }
}
