/** Type annotations by their grammar (sections 4.7.16, 4.7.16.1 and 4.7.20 of the
    JVMS), and that walking their bytes records just the offsets they hold. */
module AnnotationGrammar {
  import opened Bytes
  import opened Status
  import opened References
  import opened TypeAnnotations
  import opened ClassFileWritten

  // ----- annotations -----

  datatype Element =
    | ConstantValue(tag: char, index: u2)
    | EnumValue(typeName: u2, constantName: u2)
    | Nested(annotation: Annotation)
    | ArrayValue(values: seq<Element>)

  datatype Pair = Pair(name: u2, value: Element)

  datatype Annotation = Annotation(typeIndex: u2, pairs: seq<Pair>)

  predicate ValidElement(e: Element) {
    match e
    case ConstantValue(tag, _) => tag in {'B', 'C', 'D', 'F', 'I', 'J', 'S', 'Z', 's', 'c'}
    case EnumValue(_, _) => true
    case Nested(a) => ValidAnnotation(a)
    case ArrayValue(values) => |values| < 65536 && forall i :: 0 <= i < |values| ==> ValidElement(values[i])
  }

  predicate ValidAnnotation(a: Annotation) {
    |a.pairs| < 65536 && forall i :: 0 <= i < |a.pairs| ==> ValidElement(a.pairs[i].value)
  }

  function ElementBytes(e: Element): seq<u1>
    requires ValidElement(e)
    decreases e
  {
    match e
    case ConstantValue(tag, index) => [tag as int] + U2Bytes(index)
    case EnumValue(t, name) => ['e' as int] + (U2Bytes(t) + U2Bytes(name))
    case Nested(a) => ['@' as int] + AnnotationBytes(a)
    case ArrayValue(values) => ['[' as int] + (U2Bytes(|values|) + ValuesBytes(values))
  }

  function ValuesBytes(values: seq<Element>): seq<u1>
    requires forall i :: 0 <= i < |values| ==> ValidElement(values[i])
    decreases values
  {
    if values == [] then [] else ValuesBytes(values[..|values| - 1]) + ElementBytes(values[|values| - 1])
  }

  function AnnotationBytes(a: Annotation): seq<u1>
    requires ValidAnnotation(a)
    decreases a
  {
    U2Bytes(a.typeIndex) + (U2Bytes(|a.pairs|) + PairsBytes(a.pairs))
  }

  function PairsBytes(pairs: seq<Pair>): seq<u1>
    requires forall i :: 0 <= i < |pairs| ==> ValidElement(pairs[i].value)
    decreases pairs
  {
    if pairs == [] then [] else PairsBytes(pairs[..|pairs| - 1]) + PairBytes(pairs[|pairs| - 1])
  }

  function PairBytes(pair: Pair): seq<u1>
    requires ValidElement(pair.value)
    decreases pair
  {
    U2Bytes(pair.name) + ElementBytes(pair.value)
  }

  /** Nothing is nested deeper than 32, counting the annotation from depth on. */
  predicate ElementFits(e: Element, depth: nat)
    decreases e
  {
    && depth <= 32
    && match e
       case Nested(a) => AnnotationFits(a, depth + 1)
       case ArrayValue(values) => forall i :: 0 <= i < |values| ==> ElementFits(values[i], depth + 1)
       case _ => true
  }

  predicate AnnotationFits(a: Annotation, depth: nat)
    decreases a
  {
    depth <= 32 && forall i :: 0 <= i < |a.pairs| ==> ElementFits(a.pairs[i].value, depth + 1)
  }

  lemma Tagged(data: seq<u1>, p: nat, tag: char, rest: seq<u1>)
    requires tag < 256 as char && Stands(data, p, [tag as int] + rest)
    ensures Here(data, p).Valid() && ReadU1(Here(data, p)) == Read(tag as int, Here(data, p + 1))
    ensures Stands(data, p + 1, rest) && p + 1 + |rest| <= |data|
  {
    Split(data, p, [tag as int], rest);
    StandingU1IsRead(data, p, tag as int);
  }

  lemma Counted(data: seq<u1>, p: nat, n: u2, rest: seq<u1>)
    requires Stands(data, p, U2Bytes(n) + rest)
    ensures Here(data, p).Valid() && ReadU2(Here(data, p)) == Read(n, Here(data, p + 2))
    ensures Stands(data, p + 2, rest) && p + 2 + |rest| <= |data|
  {
    hide U2Bytes;
    Split(data, p, U2Bytes(n), rest);
    StandingU2IsRead(data, p, n);
  }

  /** An element value is stepped over to its end, unless it is nested too deep. */
  lemma {:induction false} ElementSkipped(data: seq<u1>, p: nat, e: Element, depth: nat)
    requires ValidElement(e) && Stands(data, p, ElementBytes(e)) && depth <= MAX_DEPTH + 1
    ensures Here(data, p).Valid()
    ensures SkipElement(Here(data, p), depth) == if ElementFits(e, depth) then Some(Here(data, p + |ElementBytes(e)|)) else None
    decreases e, 1
  {
    hide Stands, U2Bytes, ReadU1, ReadU2, SkipValues, SkipAnnotation, ValuesBytes, AnnotationBytes;
    match e
    case ConstantValue(tag, index) =>
      Tagged(data, p, tag, U2Bytes(index));
      StandingU2IsRead(data, p + 1, index);
    case EnumValue(t, name) =>
      Tagged(data, p, 'e', U2Bytes(t) + U2Bytes(name));
      Counted(data, p + 1, t, U2Bytes(name));
      StandingU2IsRead(data, p + 3, name);
    case Nested(a) =>
      Tagged(data, p, '@', AnnotationBytes(a));
      if depth <= MAX_DEPTH {
        AnnotationSkipped(data, p + 1, a, depth + 1);
      }
    case ArrayValue(values) =>
      Tagged(data, p, '[', U2Bytes(|values|) + ValuesBytes(values));
      Counted(data, p + 1, |values|, ValuesBytes(values));
      if depth <= MAX_DEPTH {
        ValuesSkipped(data, p + 3, values, depth);
      }
  }

  lemma {:induction false} ValuesSkipped(data: seq<u1>, p: nat, values: seq<Element>, depth: nat)
    requires forall i :: 0 <= i < |values| ==> ValidElement(values[i])
    requires Stands(data, p, ValuesBytes(values)) && depth <= MAX_DEPTH
    ensures Here(data, p).Valid()
    ensures SkipValues(Here(data, p), |values|, depth)
         == if forall i :: 0 <= i < |values| ==> ElementFits(values[i], depth + 1) then Some(Here(data, p + |ValuesBytes(values)|)) else None
    decreases values, 0
  {
    hide Stands, SkipElement, ElementFits, ElementBytes;
    Inside(data, p, ValuesBytes(values));
    if values != [] {
      var n := |values| - 1;
      Split(data, p, ValuesBytes(values[..n]), ElementBytes(values[n]));
      ValuesSkipped(data, p, values[..n], depth);
      ElementSkipped(data, p + |ValuesBytes(values[..n])|, values[n], depth + 1);
      assert forall i :: 0 <= i < n ==> values[..n][i] == values[i];
    }
  }

  lemma {:induction false} AnnotationSkipped(data: seq<u1>, p: nat, a: Annotation, depth: nat)
    requires ValidAnnotation(a) && Stands(data, p, AnnotationBytes(a)) && depth <= MAX_DEPTH + 1
    ensures Here(data, p).Valid()
    ensures SkipAnnotation(Here(data, p), depth)
         == if AnnotationFits(a, depth) then Some(Here(data, p + |AnnotationBytes(a)|)) else None
    decreases a, 1
  {
    hide Stands, U2Bytes, ReadU2, SkipPairs, PairsBytes;
    Counted(data, p, a.typeIndex, U2Bytes(|a.pairs|) + PairsBytes(a.pairs));
    Counted(data, p + 2, |a.pairs|, PairsBytes(a.pairs));
    if depth <= MAX_DEPTH {
      PairsSkipped(data, p + 4, a.pairs, depth);
    }
  }

  lemma {:induction false} PairsSkipped(data: seq<u1>, p: nat, pairs: seq<Pair>, depth: nat)
    requires forall i :: 0 <= i < |pairs| ==> ValidElement(pairs[i].value)
    requires Stands(data, p, PairsBytes(pairs)) && depth <= MAX_DEPTH
    ensures Here(data, p).Valid()
    ensures SkipPairs(Here(data, p), |pairs|, depth)
         == if forall i :: 0 <= i < |pairs| ==> ElementFits(pairs[i].value, depth + 1) then Some(Here(data, p + |PairsBytes(pairs)|)) else None
    decreases pairs, 0
  {
    hide Stands, SkipElement, ElementFits, PairBytes, ReadU2;
    Inside(data, p, PairsBytes(pairs));
    if pairs != [] {
      var n := |pairs| - 1;
      var front := PairsBytes(pairs[..n]);
      Split(data, p, front, PairBytes(pairs[n]));
      PairsSkipped(data, p, pairs[..n], depth);
      PairSkipped(data, p + |front|, pairs[n], depth);
      assert forall i :: 0 <= i < n ==> pairs[..n][i] == pairs[i];
    }
  }

  lemma {:induction false} PairSkipped(data: seq<u1>, p: nat, pair: Pair, depth: nat)
    requires ValidElement(pair.value) && Stands(data, p, PairBytes(pair)) && depth <= MAX_DEPTH
    ensures Here(data, p).Valid()
    ensures SkipElement(ReadU2(Here(data, p)).rest, depth + 1)
         == if ElementFits(pair.value, depth + 1) then Some(Here(data, p + |PairBytes(pair)|)) else None
    decreases pair, 2
  {
    hide Stands, SkipElement, ElementFits, ElementBytes, U2Bytes, ReadU2;
    Counted(data, p, pair.name, ElementBytes(pair.value));
    ElementSkipped(data, p + 2, pair.value, depth + 1);
  }

  // ----- targets -----

  datatype Range = Range(start: u2, length: u2, index: u2)

  /** What is annotated, by target_type (tables 4.7.20-A and 4.7.20-B). */
  datatype Target =
    | TypeParameter(kind: u1, index: u1)              // 0x00, 0x01
    | Supertype(classIndex: u2)                       // 0x10
    | TypeParameterBound(kind: u1, parameter: u1, bound: u1) // 0x11, 0x12
    | EmptyTarget(kind: u1)                           // 0x13, 0x14, 0x15: field, return, receiver
    | FormalParameter(parameterIndex: u1)             // 0x16
    | ThrowsTarget(throwsIndex: u2)                   // 0x17
    | LocalVariable(kind: u1, table: seq<Range>)      // 0x40, 0x41: local and resource variables
    | CatchTarget(exceptionIndex: u2)                 // 0x42
    | AtInstruction(kind: u1, offset: u2)             // 0x43 .. 0x46: instanceof, new, method references
    | TypeArgument(kind: u1, offset: u2, argument: u1) // 0x47 .. 0x4B: casts and type arguments

  predicate ValidTarget(t: Target) {
    match t
    case TypeParameter(kind, _) => kind == 0x00 || kind == 0x01
    case TypeParameterBound(kind, _, _) => kind == 0x11 || kind == 0x12
    case EmptyTarget(kind) => kind == 0x13 || kind == 0x14 || kind == 0x15
    case LocalVariable(kind, table) => (kind == 0x40 || kind == 0x41) && |table| < 65536
    case AtInstruction(kind, _) => kind == 0x43 || kind == 0x44 || kind == 0x45 || kind == 0x46
    case TypeArgument(kind, _, _) => kind == 0x47 || kind == 0x48 || kind == 0x49 || kind == 0x4A || kind == 0x4B
    case _ => true
  }

  function TargetType(t: Target): u1 {
    match t
    case TypeParameter(kind, _) => kind
    case Supertype(_) => 0x10
    case TypeParameterBound(kind, _, _) => kind
    case EmptyTarget(kind) => kind
    case FormalParameter(_) => 0x16
    case ThrowsTarget(_) => 0x17
    case LocalVariable(kind, _) => kind
    case CatchTarget(_) => 0x42
    case AtInstruction(kind, _) => kind
    case TypeArgument(kind, _, _) => kind
  }

  function RangeBytes(r: Range): (s: seq<u1>)
    ensures |s| == 6
  {
    U2Bytes(r.start) + (U2Bytes(r.length) + U2Bytes(r.index))
  }

  function TableBytes(table: seq<Range>): (s: seq<u1>)
    ensures |s| == 6 * |table|
  {
    if table == [] then [] else TableBytes(table[..|table| - 1]) + RangeBytes(table[|table| - 1])
  }

  function InfoBytes(t: Target): seq<u1>
    requires ValidTarget(t)
  {
    match t
    case TypeParameter(_, index) => [index]
    case Supertype(index) => U2Bytes(index)
    case TypeParameterBound(_, parameter, bound) => [parameter, bound]
    case EmptyTarget(_) => []
    case FormalParameter(index) => [index]
    case ThrowsTarget(index) => U2Bytes(index)
    case LocalVariable(_, table) => U2Bytes(|table|) + TableBytes(table)
    case CatchTarget(index) => U2Bytes(index)
    case AtInstruction(_, offset) => U2Bytes(offset)
    case TypeArgument(_, offset, argument) => U2Bytes(offset) + [argument]
  }

  function RangeMark(r: Range, attribute: nat, p: nat): AnnotationRef {
    AnnotationRef(attribute, p, SPAN, r.start, r.start + r.length as int)
  }

  function TableMarks(table: seq<Range>, attribute: nat, p: nat): (r: seq<AnnotationRef>)
    ensures |r| == |table|
  {
    seq(|table|, k requires 0 <= k < |table| => RangeMark(table[k], attribute, p + 6 * k))
  }

  /** The offsets a target holds, and where in the payload, when its info stands at
      p: a span for each range of a variable, and the annotated instruction. */
  function Marks(t: Target, attribute: nat, p: nat): seq<AnnotationRef> {
    match t
    case LocalVariable(_, table) => TableMarks(table, attribute, p + 2)
    case AtInstruction(_, offset) => [AnnotationRef(attribute, p, INSTRUCTION, offset, 0)]
    case TypeArgument(_, offset, _) => [AnnotationRef(attribute, p, INSTRUCTION, offset, 0)]
    case _ => []
  }

  lemma LastMark(table: seq<Range>, attribute: nat, p: nat)
    requires table != []
    ensures var n := |table| - 1;
      TableMarks(table, attribute, p) == TableMarks(table[..n], attribute, p) + [RangeMark(table[n], attribute, p + 6 * n)]
  {
    hide RangeMark;
  }

  lemma RangeRead(data: seq<u1>, p: nat, r: Range)
    requires Stands(data, p, RangeBytes(r))
    ensures Here(data, p).Valid()
    ensures var start := ReadU2(Here(data, p)); var length := ReadU2(start.rest); var index := ReadU2(length.rest);
      start.value == r.start && length.value == r.length && index.rest == Here(data, p + 6)
  {
    hide Stands, U2Bytes, ReadU2;
    Counted(data, p, r.start, U2Bytes(r.length) + U2Bytes(r.index));
    Counted(data, p + 2, r.length, U2Bytes(r.index));
    StandingU2IsRead(data, p + 4, r.index);
  }

  lemma {:induction false} SpansRead(data: seq<u1>, p: nat, table: seq<Range>, attribute: nat, have: nat)
    requires Stands(data, p, TableBytes(table)) && have + |table| <= 65535
    ensures Here(data, p).Valid()
    ensures ReadSpans(Here(data, p), |table|, attribute, have)
         == Success(Collected(Here(data, p + 6 * |table|), TableMarks(table, attribute, p)))
    decreases |table|
  {
    hide Stands, RangeBytes, ReadU2, TableMarks;
    Inside(data, p, TableBytes(table));
    if table != [] {
      var n := |table| - 1;
      Split(data, p, TableBytes(table[..n]), RangeBytes(table[n]));
      SpansRead(data, p, table[..n], attribute, have);
      RangeRead(data, p + 6 * n, table[n]);
      LastMark(table, attribute, p);
    } else {
      NoMarks(attribute, p);
    }
  }

  lemma NoMarks(attribute: nat, p: nat)
    ensures TableMarks([], attribute, p) == []
  {
  }

  lemma StepRead(data: seq<u1>, p: nat, bytes: seq<u1>)
    requires Stands(data, p, bytes)
    ensures Here(data, p).Valid() && Step(Here(data, p), |bytes|) == Success(Collected(Here(data, p + |bytes|), []))
  {
    StandingBytesAreRead(data, p, bytes);
  }

  lemma InstructionRead(data: seq<u1>, p: nat, offset: u2, extra: seq<u1>, attribute: nat, have: nat)
    requires Stands(data, p, U2Bytes(offset) + extra) && have < 65535
    ensures Here(data, p).Valid()
    ensures ReadInstruction(Here(data, p), |extra|, attribute, have)
         == Success(Collected(Here(data, p + 2 + |extra|), [AnnotationRef(attribute, p, INSTRUCTION, offset, 0)]))
  {
    hide Stands, U2Bytes, ReadU2, ReadBytes;
    Counted(data, p, offset, extra);
    StandingBytesAreRead(data, p + 2, extra);
  }

  /** A target's info is read to its end, and its offsets recorded where they stand. */
  lemma TargetRead(data: seq<u1>, p: nat, t: Target, attribute: nat, have: nat)
    requires ValidTarget(t) && Stands(data, p, InfoBytes(t)) && have + |Marks(t, attribute, p)| <= 65535
    ensures Here(data, p).Valid()
    ensures ReadTarget(Here(data, p), TargetType(t), attribute, have)
         == Success(Collected(Here(data, p + |InfoBytes(t)|), Marks(t, attribute, p)))
  {
    hide Stands, U2Bytes, ReadU2, ReadInstruction, ReadSpans, Step, TableMarks;
    match t
    case LocalVariable(_, table) =>
      Counted(data, p, |table|, TableBytes(table));
      SpansRead(data, p + 2, table, attribute, have);
    case AtInstruction(_, offset) =>
      assert U2Bytes(offset) + [] == U2Bytes(offset);
      InstructionRead(data, p, offset, [], attribute, have);
    case TypeArgument(_, offset, argument) =>
      InstructionRead(data, p, offset, [argument], attribute, have);
    case _ =>
      StepRead(data, p, InfoBytes(t));
  }

  // ----- type annotations -----

  /** path holds type_path_kind and type_argument_index of each step. */
  datatype TypeAnnotation = TypeAnnotation(target: Target, path: seq<u1>, annotation: Annotation)

  predicate ValidTypeAnnotation(t: TypeAnnotation) {
    ValidTarget(t.target) && |t.path| % 2 == 0 && |t.path| < 512 && ValidAnnotation(t.annotation)
  }

  function TypeAnnotationBytes(t: TypeAnnotation): seq<u1>
    requires ValidTypeAnnotation(t)
  {
    [TargetType(t.target)] + (InfoBytes(t.target) + ([|t.path| / 2] + (t.path + AnnotationBytes(t.annotation))))
  }

  lemma OneRead(data: seq<u1>, p: nat, t: TypeAnnotation, attribute: nat, have: nat)
    requires ValidTypeAnnotation(t) && AnnotationFits(t.annotation, 0) && Stands(data, p, TypeAnnotationBytes(t))
    requires have + |Marks(t.target, attribute, p + 1)| <= 65535
    ensures Here(data, p).Valid()
    ensures ReadOne(Here(data, p), attribute, have)
         == Success(Collected(Here(data, p + |TypeAnnotationBytes(t)|), Marks(t.target, attribute, p + 1)))
  {
    hide Stands, ReadU1, ReadBytes, ReadTarget, SkipAnnotation, InfoBytes, AnnotationBytes, Marks, TargetType, ValidTarget, AnnotationFits, ValidAnnotation;
    var info, annotation := InfoBytes(t.target), AnnotationBytes(t.annotation);
    var behind := [|t.path| / 2] + (t.path + annotation);
    Split(data, p, [TargetType(t.target)], info + behind);
    StandingU1IsRead(data, p, TargetType(t.target));
    Split(data, p + 1, info, behind);
    TargetRead(data, p + 1, t.target, attribute, have);
    var q := p + 1 + |info|;
    Split(data, q, [|t.path| / 2], t.path + annotation);
    StandingU1IsRead(data, q, |t.path| / 2);
    Split(data, q + 1, t.path, annotation);
    StandingBytesAreRead(data, q + 1, t.path);
    AnnotationSkipped(data, q + 1 + |t.path|, t.annotation, 0);
    Inside(data, q + 1 + |t.path|, annotation);
  }

  function AllBytes(list: seq<TypeAnnotation>): seq<u1>
    requires forall i :: 0 <= i < |list| ==> ValidTypeAnnotation(list[i])
    decreases |list|
  {
    if list == [] then [] else AllBytes(list[..|list| - 1]) + TypeAnnotationBytes(list[|list| - 1])
  }

  /** The offsets of a list of type annotations that stands at p. */
  function AllMarks(list: seq<TypeAnnotation>, attribute: nat, p: nat): seq<AnnotationRef>
    requires forall i :: 0 <= i < |list| ==> ValidTypeAnnotation(list[i])
    decreases |list|
  {
    if list == [] then []
    else
      var front, last := list[..|list| - 1], list[|list| - 1];
      AllMarks(front, attribute, p) + Marks(last.target, attribute, p + |AllBytes(front)| + 1)
  }

  lemma {:induction false} AllRead(data: seq<u1>, p: nat, list: seq<TypeAnnotation>, attribute: nat, have: nat)
    requires forall i :: 0 <= i < |list| ==> ValidTypeAnnotation(list[i]) && AnnotationFits(list[i].annotation, 0)
    requires Stands(data, p, AllBytes(list)) && have + |AllMarks(list, attribute, p)| <= 65535
    ensures Here(data, p).Valid()
    ensures ReadAll(Here(data, p), |list|, attribute, have)
         == Success(Collected(Here(data, p + |AllBytes(list)|), AllMarks(list, attribute, p)))
    decreases |list|
  {
    hide Stands, ReadOne, TypeAnnotationBytes, Marks, ValidTypeAnnotation, AnnotationFits;
    Inside(data, p, AllBytes(list));
    if list != [] {
      var n := |list| - 1;
      var front, last := list[..n], list[n];
      Split(data, p, AllBytes(front), TypeAnnotationBytes(last));
      AllRead(data, p, front, attribute, have);
      OneRead(data, p + |AllBytes(front)|, last, attribute, have + |AllMarks(front, attribute, p)|);
    }
  }

  /** A type annotation attribute is understood by its grammar: collecting gives the
      offsets its targets hold, in order and where they stand, and no others. */
  lemma CollectReads(list: seq<TypeAnnotation>, attribute: nat, have: nat)
    requires |list| < 65536
    requires forall i :: 0 <= i < |list| ==> ValidTypeAnnotation(list[i]) && AnnotationFits(list[i].annotation, 0)
    requires have + |AllMarks(list, attribute, 2)| <= 65535
    ensures Collect(U2Bytes(|list|) + AllBytes(list), attribute, have) == Success(AllMarks(list, attribute, 2))
  {
    hide Stands, U2Bytes, ReadU2, ReadAll, AllBytes, AllMarks, ValidTypeAnnotation, AnnotationFits;
    var data := U2Bytes(|list|) + AllBytes(list);
    Whole(data);
    Counted(data, 0, |list|, AllBytes(list));
    AllRead(data, 2, list, attribute, have);
  }

  /** Anything else is refused: a target_type of no table, and a tag of no element. */
  lemma OthersRefused(c: Cursor, target: u1, attribute: nat, have: nat, depth: nat)
    requires c.Valid() && c.ok && depth <= MAX_DEPTH
    ensures (forall t :: ValidTarget(t) ==> TargetType(t) != target) ==> ReadTarget(c, target, attribute, have) == Failure(UNSUPPORTED)
    ensures ReadU1(c).rest.ok && ReadU1(c).value as char !in {'B', 'C', 'D', 'F', 'I', 'J', 'S', 'Z', 's', 'c', 'e', '@', '['}
      ==> SkipElement(c, depth) == None
  {
    assert ValidTarget(TypeParameter(target, 0)) || ValidTarget(TypeParameterBound(target, 0, 0)) || ValidTarget(EmptyTarget(target))
      || ValidTarget(LocalVariable(target, [])) || ValidTarget(AtInstruction(target, 0)) || ValidTarget(TypeArgument(target, 0, 0))
      || target in {0x10, 0x16, 0x17, 0x42} || ReadTarget(c, target, attribute, have) == Failure(UNSUPPORTED);
    assert TargetType(Supertype(0)) == 0x10 && TargetType(FormalParameter(0)) == 0x16;
    assert TargetType(ThrowsTarget(0)) == 0x17 && TargetType(CatchTarget(0)) == 0x42;
    assert TargetType(TypeParameter(target, 0)) == TargetType(TypeParameterBound(target, 0, 0)) == TargetType(EmptyTarget(target)) == target;
    assert TargetType(LocalVariable(target, [])) == TargetType(AtInstruction(target, 0)) == TargetType(TypeArgument(target, 0, 0)) == target;
  }
}
