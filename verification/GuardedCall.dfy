/** The guarded call: the nodes put in front of a body, the stack they need, and
    the callee they name. */
module GuardedCall {
  import opened Bytes
  import opened Status
  import opened Instructions
  import opened Descriptors
  import opened StackShapes
  import opened GuardParameters
  import opened GuardedBody

  // ----- the callee -----

  const OBJECT_NAME := "java/lang/Object"

  /** References are forwarded as Object, everything else as it is. */
  function ForwardedType(p: Parameter): FieldType {
    if p.forwarded == 'L' then Reference(OBJECT_NAME) else Primitive(p.forwarded)
  }

  function ForwardedTypes(ps: seq<Parameter>): (r: seq<FieldType>)
    ensures |r| == |ps| && forall i :: 0 <= i < |r| ==> r[i] == ForwardedType(ps[i])
  {
    seq(|ps|, i requires 0 <= i < |ps| => ForwardedType(ps[i]))
  }

  /** The guard takes its id and every argument, and answers yes or no. */
  function GuardType(ps: seq<Parameter>): MethodType {
    MethodType([Primitive('I')] + ForwardedTypes(ps), [Primitive('Z')])
  }

  lemma {:induction false} RenderAllConcat(a: seq<FieldType>, b: seq<FieldType>)
    ensures RenderAll(a + b) == RenderAll(a) + RenderAll(b)
    decreases |a|
  {
    if a == [] {
      assert a + b == b;
    } else {
      assert (a + b)[1..] == a[1..] + b;
      RenderAllConcat(a[1..], b);
    }
  }

  /** Written into a buffer of 1024 bytes, its end included. */
  method BuildGuardDescriptor(ps: seq<Parameter>) returns (ok: bool, text: string)
    ensures ok == (|RenderMethod(GuardType(ps))| < 1024)
    ensures ok ==> text == RenderMethod(GuardType(ps))
  {
    hide Render;
    text := "(I";
    ghost var types := [Primitive('I')] + ForwardedTypes(ps);
    ghost var whole := RenderMethod(GuardType(ps));
    assert |whole| == |RenderAll(types)| + 3 by { LetterLength('Z'); }
    IntParameter();
    for i := 0 to |ps|
      invariant text == ['('] + RenderAll(types[..i + 1])
    {
      assert types[..i + 2] == types[..i + 1] + [types[i + 1]];
      RenderAllConcat(types[..i + 1], [types[i + 1]]);
      RenderOne(types[i + 1]);
      NotLonger(types, i + 2);
      if ps[i].forwarded == 'L' {
        ObjectText();
        if |text| + 18 >= 1024 {
          return false, text;
        }
        text := text + "Ljava/lang/Object;";
      } else {
        LetterLength(ps[i].forwarded);
        if |text| + 1 >= 1024 {
          return false, text;
        }
        text := text + [ps[i].forwarded];
      }
    }
    assert types[..|ps| + 1] == types;
    if |text| + 3 > 1024 {
      return false, text;
    }
    text := text + ")V";
    text := text[|text| - 1 := 'Z'];
    LetterLength('Z');
    return true, text;
  }

  lemma RenderOne(t: FieldType)
    ensures RenderAll([t]) == Render(t)
  {
    assert [t][1..] == [];
  }

  lemma IntParameter()
    ensures RenderAll([Primitive('I')]) == "I"
  {
    RenderOne(Primitive('I'));
  }

  lemma ObjectText()
    ensures Render(Reference(OBJECT_NAME)) == "Ljava/lang/Object;"
  {
  }

  lemma LetterLength(letter: char)
    ensures Render(Primitive(letter)) == [letter]
  {
  }

  lemma NotLonger(types: seq<FieldType>, i: nat)
    requires i <= |types|
    ensures |RenderAll(types[..i])| <= |RenderAll(types)|
  {
    assert types == types[..i] + types[i..];
    RenderAllConcat(types[..i], types[i..]);
  }

  // ----- the nodes -----

  function Push(argument: int): Instruction { Instruction(0, 17, false, Immediate(argument)) }

  function Call(index: u2): Instruction { Instruction(0, 184, false, CpIndex(index)) }

  function Load(p: Parameter): Instruction
    requires p.slot < 0x1_0000
  {
    Instruction(0, p.load, false, Local(p.slot))
  }

  predicate Loadable(ps: seq<Parameter>) {
    forall i :: 0 <= i < |ps| ==> ps[i].slot < 0x100 && ILOAD <= ps[i].load <= ALOAD
  }

  function Loads(ps: seq<Parameter>): (r: seq<Instruction>)
    requires Loadable(ps)
    ensures |r| == |ps|
  {
    seq(|ps|, i requires 0 <= i < |ps| => Load(ps[i]))
  }

  function Prologue(argument: int, ps: seq<Parameter>, guard: u2): seq<Instruction>
    requires Loadable(ps)
  {
    [Push(argument)] + Loads(ps) + [Call(guard)]
  }

  function ReturnOpcode(kind: char): u1 {
    if kind == 'V' then 177
    else if kind == 'J' then 173
    else if kind == 'F' then 174
    else if kind == 'D' then 175
    else if kind == 'L' || kind == '[' then 176
    else 172
  }

  function DefaultOpcode(kind: char): u1 {
    if kind == 'J' then 9
    else if kind == 'F' then 11
    else if kind == 'D' then 14
    else if kind == 'L' || kind == '[' then 1
    else 3
  }

  /** Where the value comes from when the guard says yes. */
  datatype Answer = DEFAULT | ASKED(callee: u2, cast: Option<u2>)

  function Bare(opcode: u1): Instruction { Instruction(0, opcode, false, NoOperand) }

  function Value(argument: int, kind: char, answer: Answer): seq<Instruction> {
    if kind == 'V' then []
    else match answer
         case DEFAULT => [Bare(DefaultOpcode(kind))]
         case ASKED(callee, None) => [Push(argument), Call(callee)]
         case ASKED(callee, Some(cast)) => [Push(argument), Call(callee), Instruction(0, 192, false, CpIndex(cast))]
  }

  function LoadWidth(p: Parameter): nat {
    if p.load == LLOAD || p.load == DLOAD then 2 else 1
  }

  function Widths(ps: seq<Parameter>): nat {
    if ps == [] then 0 else Widths(ps[..|ps| - 1]) + LoadWidth(ps[|ps| - 1])
  }

  function Pushed(ps: seq<Parameter>, kind: char): nat {
    var pushed := 1 + Widths(ps);
    if kind != 'V' && pushed < 2 then 2 else pushed
  }

  method BuildGuard(argument: int, ps: seq<Parameter>, guard: u2, kind: char, answer: Answer)
    returns (nodes: seq<Instruction>, branch: nat, pushed: nat)
    requires Loadable(ps)
    ensures nodes == GuardBlock(Prologue(argument, ps, guard), Value(argument, kind, answer) + [Bare(ReturnOpcode(kind))])
    ensures branch == |Prologue(argument, ps, guard)| && pushed == Pushed(ps, kind)
    ensures |nodes| <= |ps| + 7
  {
    nodes, pushed := [Push(argument)], 1;
    for i := 0 to |ps|
      invariant nodes == [Push(argument)] + Loads(ps[..i]) && pushed == 1 + Widths(ps[..i])
    {
      assert ps[..i + 1][..i] == ps[..i];
      nodes := nodes + [Load(ps[i])];
      pushed := pushed + (if ps[i].load == LLOAD || ps[i].load == DLOAD then 2 else 1);
    }
    assert ps[..|ps|] == ps;
    nodes := nodes + [Call(guard)];
    branch := |nodes|;
    nodes := nodes + [IFEQ];
    if kind != 'V' {
      match answer {
      case DEFAULT => nodes := nodes + [Bare(DefaultOpcode(kind))];
      case ASKED(callee, cast) =>
        nodes := nodes + [Push(argument)] + [Call(callee)];
        if cast.Some? {
          nodes := nodes + [Instruction(0, 192, false, CpIndex(cast.value))];
        }
      }
      if pushed < 2 {
        pushed := 2;
      }
    }
    nodes := nodes + [Bare(ReturnOpcode(kind))];
  }

  /** The nodes are put into an array of 70: that is enough exactly as long as
      parameters and value instructions are at most 66, which 64 parameters and a
      value that has to be cast are not. */
  lemma NodesFit(argument: int, ps: seq<Parameter>, guard: u2, kind: char, answer: Answer)
    requires Loadable(ps)
    ensures var value := Value(argument, kind, answer);
      && |value| <= 3
      && (|GuardBlock(Prologue(argument, ps, guard), value + [Bare(ReturnOpcode(kind))])| <= 70 <==> |ps| + |value| <= 66)
  {
  }

  /** A static method of 64 ints that returns an object, which a callee answers. */
  function SixtyFourInts(): MethodType {
    MethodType(seq(64, i => Primitive('I')), [Reference("A")])
  }

  /** Its parameters are described and its guard's descriptor is short enough, but
      its 71 nodes do not go into the array. */
  lemma NodesOverflow(argument: int, guard: u2, callee: u2, cast: u2)
    ensures ValidMethod(SixtyFourInts())
    ensures var d := Describe(RenderMethod(SixtyFourInts()), true, 64);
      && d.Some? && Loadable(d.value.parameters) && |RenderMethod(GuardType(d.value.parameters))| < 1024
      && |GuardBlock(Prologue(argument, d.value.parameters, guard),
                     Value(argument, 'L', ASKED(callee, Some(cast))) + [Bare(ReturnOpcode('L'))])| == 71
  {
    var m := SixtyFourInts();
    SixtyFourDescribed();
    hide Describe, RenderMethod, RenderAll, DescribedAll, ValidMethod, GuardBlock, SixtyFourInts, Prologue, Value, Bare, ReturnOpcode;
    hide GuardType;
    var ps := DescribedAll(m.parameters, 0);
    IntsDescribed(m.parameters, 0);
    ForwardedInts(ps);
    IntsRendered([Primitive('I')] + ForwardedTypes(ps));
    hide ForwardedTypes;
    GuardLength(ps);
    NodeCount(argument, ps, guard, callee, cast);
  }

  lemma SixtyFourDescribed()
    ensures var m := SixtyFourInts();
      && ValidMethod(m) && |m.parameters| == 64 && AllInts(m.parameters)
      && Describe(RenderMethod(m), true, 64) == Some(Description(DescribedAll(m.parameters, 0), CountedAll(m.parameters)))
  {
    hide Describe, RenderMethod, DescribedAll, CountedAll;
    var m := SixtyFourInts();
    assert ';' !in "A" && '\0' !in "A";
    DescribeReads(m, true, 64);
    assert [] + DescribedAll(m.parameters, 0) == DescribedAll(m.parameters, 0);
  }

  lemma ForwardedInts(ps: seq<Parameter>)
    requires forall i :: 0 <= i < |ps| ==> ps[i].forwarded == 'I'
    ensures AllInts([Primitive('I')] + ForwardedTypes(ps))
  {
  }

  lemma NodeCount(argument: int, ps: seq<Parameter>, guard: u2, callee: u2, cast: u2)
    requires Loadable(ps)
    ensures |GuardBlock(Prologue(argument, ps, guard), Value(argument, 'L', ASKED(callee, Some(cast))) + [Bare(ReturnOpcode('L'))])|
         == |ps| + 7
  {
  }

  predicate AllInts(types: seq<FieldType>) {
    forall i :: 0 <= i < |types| ==> types[i] == Primitive('I')
  }

  lemma {:induction false} IntsDescribed(types: seq<FieldType>, slot: nat)
    requires AllInts(types)
    ensures forall i :: 0 <= i < |types| ==> DescribedAll(types, slot)[i] == Parameter(ILOAD, slot + i, 'I')
    decreases |types|
  {
    if types != [] {
      IntsDescribed(types[1..], slot + 1);
      assert Described(types[0], slot) == Parameter(ILOAD, slot, 'I');
    }
  }

  lemma {:induction false} IntsRendered(types: seq<FieldType>)
    requires AllInts(types)
    ensures |RenderAll(types)| == |types|
    decreases |types|
  {
    if types != [] {
      IntsRendered(types[1..]);
    }
  }

  lemma GuardLength(ps: seq<Parameter>)
    ensures |RenderMethod(GuardType(ps))| == |RenderAll([Primitive('I')] + ForwardedTypes(ps))| + 3
  {
    hide RenderAll;
    LetterLength('Z');
  }

  lemma GuardIsWellFormed(argument: int, ps: seq<Parameter>, guard: u2, kind: char, answer: Answer)
    requires Loadable(ps) && FitsI2(argument)
    ensures AllWellFormed(Prologue(argument, ps, guard))
    ensures AllWellFormed(Value(argument, kind, answer) + [Bare(ReturnOpcode(kind))])
  {
    forall i | 0 <= i < |ps| ensures WellFormed(Load(ps[i])) {
    }
    CallsAreWellFormed(argument, guard);
    ValueIsWellFormed(argument, kind, answer);
    hide WellFormed, Value, ReturnOpcode;
  }

  lemma CallsAreWellFormed(argument: int, callee: u2)
    requires FitsI2(argument)
    ensures WellFormed(Push(argument)) && WellFormed(Call(callee)) && WellFormed(Instruction(0, 192, false, CpIndex(callee)))
  {
  }

  lemma ValueIsWellFormed(argument: int, kind: char, answer: Answer)
    requires FitsI2(argument)
    ensures AllWellFormed(Value(argument, kind, answer)) && WellFormed(Bare(ReturnOpcode(kind)))
  {
    assert WellFormed(Bare(DefaultOpcode(kind))) && WellFormed(Bare(ReturnOpcode(kind)));
    if answer.ASKED? {
      CallsAreWellFormed(argument, answer.callee);
      if answer.cast.Some? {
        CallsAreWellFormed(argument, answer.cast.value);
      }
    }
    hide WellFormed, DefaultOpcode;
  }

  // ----- the stack they need -----

  /** The effect of some shapes in a row, none of which may go past maxStack. */
  function Follow(shapes: seq<Shape>, w: Work, maxStack: nat): Option<Work>
    decreases |shapes|
  {
    if shapes == [] then Some(w)
    else match Apply(shapes[0], w, maxStack)
         case None => None
         case Some(next) => Follow(shapes[1..], next, maxStack)
  }

  lemma {:induction false} FollowConcat(a: seq<Shape>, b: seq<Shape>, w: Work, maxStack: nat)
    requires Follow(a, w, maxStack).Some?
    ensures Follow(a + b, w, maxStack) == Follow(b, Follow(a, w, maxStack).value, maxStack)
    decreases |a|
  {
    hide Apply;
    if a == [] {
      assert a + b == b;
    } else {
      assert (a + b)[0] == a[0] && (a + b)[1..] == a[1..] + b;
      FollowConcat(a[1..], b, Apply(a[0], w, maxStack).value, maxStack);
    }
  }

  function LoadShapes(ps: seq<Parameter>): (r: seq<Shape>)
    requires Loadable(ps)
    ensures |r| == |ps|
  {
    seq(|ps|, i requires 0 <= i < |ps| => ShapeOf(Load(ps[i]), None))
  }

  /** Every parameter lies inside the locals. */
  predicate Inside(ps: seq<Parameter>, locals: nat) {
    forall i :: 0 <= i < |ps| ==> ps[i].slot + LoadWidth(ps[i]) <= locals
  }

  lemma LoadShape(p: Parameter, w: Work, maxStack: nat)
    requires p.slot < 0x100 && ILOAD <= p.load <= ALOAD && p.slot + LoadWidth(p) <= |w.locals|
    requires |w.stack| + LoadWidth(p) <= maxStack
    ensures var r := Apply(ShapeOf(Load(p), None), w, maxStack);
      && r.Some? && r.value.locals == w.locals && |r.value.stack| == |w.stack| + LoadWidth(p)
  {
  }

  lemma {:induction false} LoadsPush(ps: seq<Parameter>, w: Work, maxStack: nat)
    requires Loadable(ps) && Inside(ps, |w.locals|) && |w.stack| + Widths(ps) <= maxStack
    ensures var r := Follow(LoadShapes(ps), w, maxStack);
      && r.Some? && r.value.locals == w.locals && |r.value.stack| == |w.stack| + Widths(ps)
    decreases |ps|
  {
    hide Apply, ShapeOf;
    if ps != [] {
      var n := |ps| - 1;
      LoadsPush(ps[..n], w, maxStack);
      var mid := Follow(LoadShapes(ps[..n]), w, maxStack).value;
      LoadShape(ps[n], mid, maxStack);
      var last := [ShapeOf(Load(ps[n]), None)];
      assert LoadShapes(ps) == LoadShapes(ps[..n]) + last;
      FollowConcat(LoadShapes(ps[..n]), last, w, maxStack);
      FollowOne(last[0], mid, maxStack);
    }
  }

  lemma FollowOne(shape: Shape, w: Work, maxStack: nat)
    ensures Follow([shape], w, maxStack) == Apply(shape, w, maxStack)
  {
    hide Apply;
    assert [shape][1..] == [];
  }

  /** What the guard's descriptor makes the JVM pop. */
  lemma {:induction false} GuardSlots(ps: seq<Parameter>)
    requires forall i :: 0 <= i < |ps| ==> ValidType(ForwardedType(ps[i])) && Slots(ForwardedType(ps[i])) == LoadWidth(ps[i])
    ensures SlotsOfAll(ForwardedTypes(ps)) == Widths(ps)
    decreases |ps|
  {
    if ps != [] {
      var n := |ps| - 1;
      GuardSlots(ps[..n]);
      var last := [ForwardedType(ps[n])];
      assert ForwardedTypes(ps) == ForwardedTypes(ps[..n]) + last;
      SlotsConcat(ForwardedTypes(ps[..n]), last);
      assert last[1..] == [];
    }
  }

  lemma {:induction false} SlotsConcat(a: seq<FieldType>, b: seq<FieldType>)
    ensures SlotsOfAll(a + b) == SlotsOfAll(a) + SlotsOfAll(b)
    decreases |a|
  {
    if a == [] {
      assert a + b == b;
    } else {
      assert (a + b)[1..] == a[1..] + b;
      SlotsConcat(a[1..], b);
    }
  }

  /** The shapes of the prologue and the branch, by the callee's descriptor. */
  function PrologueShapes(argument: int, ps: seq<Parameter>, guard: u2): seq<Shape>
    requires Loadable(ps)
  {
    [ShapeOf(Push(argument), None)] + LoadShapes(ps)
    + [ShapeOf(Call(guard), Some(SlotCount(SlotsOfAll(GuardType(ps).parameters), SlotsOfAll(GuardType(ps).result)))), ShapeOf(IFEQ, None)]
  }

  /** Forwarded as it is loaded, slot for slot. */
  predicate Matched(ps: seq<Parameter>) {
    forall i :: 0 <= i < |ps| ==> ValidType(ForwardedType(ps[i])) && Slots(ForwardedType(ps[i])) == LoadWidth(ps[i])
  }

  /** From an empty stack the prologue never needs more than it asks for, and
      leaves the stack empty and the locals as they were. */
  lemma PrologueFits(argument: int, ps: seq<Parameter>, guard: u2, locals: seq<Trace>)
    requires Loadable(ps) && Inside(ps, |locals|) && Matched(ps)
    ensures Follow(PrologueShapes(argument, ps, guard), Work(locals, []), 1 + Widths(ps)) == Some(Work(locals, []))
  {
    var start, limit := Work(locals, []), 1 + Widths(ps);
    var push := ShapeOf(Push(argument), None);
    assert push == REPLACE(0, 1);
    var pushed := Apply(push, start, limit).value;
    GuardSlots(ps);
    SlotsConcat([Primitive('I')], ForwardedTypes(ps));
    assert SlotsOfAll(GuardType(ps).parameters) == limit && SlotsOfAll(GuardType(ps).result) == 1 by {
      assert [Primitive('I')][1..] == [] && [Primitive('Z')][1..] == [];
    }
    var call := ShapeOf(Call(guard), Some(SlotCount(limit, 1)));
    assert call == REPLACE(limit, 1) && ShapeOf(IFEQ, None) == REPLACE(1, 0);
    LoadsPush(ps, pushed, limit);
    var loaded := Follow(LoadShapes(ps), pushed, limit).value;
    CallAndBranch(loaded, limit);
    hide ShapeOf, Apply, SlotsOfAll;
    FollowOne(push, start, limit);
    FollowConcat([push], LoadShapes(ps), start, limit);
    FollowConcat([push] + LoadShapes(ps), [REPLACE(limit, 1), REPLACE(1, 0)], start, limit);
  }

  lemma CallAndBranch(w: Work, limit: nat)
    requires |w.stack| == limit > 0
    ensures Follow([REPLACE(limit, 1), REPLACE(1, 0)], w, limit) == Some(Work(w.locals, []))
  {
    var called := Work(w.locals, [OTHER]);
    assert Apply(REPLACE(limit, 1), w, limit) == Some(called) by {
      assert w.stack[..0] + Others(1) == [OTHER];
    }
    assert [REPLACE(limit, 1), REPLACE(1, 0)][1..] == [REPLACE(1, 0)];
    assert Apply(REPLACE(1, 0), called, limit) == Some(Work(w.locals, [])) by {
      assert [OTHER][..0] + Others(0) == [];
    }
    FollowOne(REPLACE(1, 0), called, limit);
  }

  /** A described parameter is forwarded as it is loaded unless it is an array of
      primitives. */
  lemma DescribedIsMatched(t: FieldType, slot: nat)
    requires ValidType(t) && !PrimitiveArray(t)
    ensures var p := Described(t, slot);
      ValidType(ForwardedType(p)) && Slots(ForwardedType(p)) == LoadWidth(p) && LoadWidth(p) == Slots(t) && ILOAD <= p.load <= ALOAD
  {
    ValidLoad(t);
    InnermostCounts(t);
    if t.ArrayOf? {
      assert Innermost(t).Reference?;
    }
  }

  lemma {:induction false} AllDescribedMatch(types: seq<FieldType>, slot: nat)
    requires forall i :: 0 <= i < |types| ==> ValidType(types[i]) && !PrimitiveArray(types[i])
    ensures var ps := DescribedAll(types, slot);
      && Matched(ps) && Inside(ps, slot + SlotsOfAll(types))
      && (forall i :: 0 <= i < |ps| ==> ILOAD <= ps[i].load <= ALOAD && ps[i].slot < slot + 2 * |types|)
    decreases |types|
  {
    hide Described, ValidType, PrimitiveArray, ForwardedType, LoadWidth;
    if types != [] {
      DescribedIsMatched(types[0], slot);
      DescribedSlot(types[0], slot);
      CountedIsSlots(types[0]);
      AllDescribedMatch(types[1..], slot + Counted(types[0]));
    }
  }

  lemma DescribedSlot(t: FieldType, slot: nat)
    requires ValidType(t)
    ensures Described(t, slot).slot == slot
  {
  }

  lemma CountedIsSlots(t: FieldType)
    requires ValidType(t) && !PrimitiveArray(t)
    ensures Counted(t) == Slots(t)
  {
    LoadExact(t);
  }

  /** The forwarded parameters of a method without arrays of primitives: each is
      loaded and forwarded right, from inside the locals. */
  lemma ParametersFit(m: MethodType, isStatic: bool)
    requires ValidMethod(m) && |m.parameters| <= 64
    requires forall i :: 0 <= i < |m.parameters| ==> !PrimitiveArray(m.parameters[i])
    ensures var first := Receiver(isStatic); var ps := first + DescribedAll(m.parameters, |first|);
      Loadable(ps) && Matched(ps) && Inside(ps, |first| + SlotsOfAll(m.parameters))
  {
    var first := Receiver(isStatic);
    ReceiverFits(isStatic);
    AllDescribedMatch(m.parameters, |first|);
    hide DescribedAll, ValidType, ForwardedType, PrimitiveArray, SlotsOfAll, Receiver, LoadWidth;
    var rest := DescribedAll(m.parameters, |first|);
    FitTogether(first, rest, |first| + SlotsOfAll(m.parameters));
  }

  lemma FitTogether(a: seq<Parameter>, b: seq<Parameter>, locals: nat)
    requires Loadable(a) && Matched(a) && Inside(a, locals) && Loadable(b) && Matched(b) && Inside(b, locals)
    ensures Loadable(a + b) && Matched(a + b) && Inside(a + b, locals)
  {
    hide ValidType, ForwardedType, LoadWidth;
  }

  lemma ReceiverFits(isStatic: bool)
    ensures var first := Receiver(isStatic); Loadable(first) && Matched(first) && Inside(first, |first|)
  {
  }

  // ----- the value returned instead -----

  /** The kind of a result: what its descriptor starts with. */
  function KindOfResult(result: seq<FieldType>): char {
    if result == [] then 'V' else Render(result[0])[0]
  }

  /** The value callee takes the id and returns what the method returns, except
      that a reference comes as Object. */
  function AnswerType(result: seq<FieldType>): MethodType {
    MethodType([Primitive('I')],
      if result != [] && !result[0].Primitive? then [Reference(OBJECT_NAME)] else result)
  }

  function AnswerSlots(result: seq<FieldType>): SlotCount {
    SlotCount(SlotsOfAll(AnswerType(result).parameters), SlotsOfAll(AnswerType(result).result))
  }

  lemma AnswerWidth(result: seq<FieldType>)
    requires |result| <= 1
    ensures AnswerSlots(result) == SlotCount(1, SlotsOfAll(result))
  {
    assert [Primitive('I')][1..] == [];
    if result != [] {
      assert result[1..] == [] && [Reference(OBJECT_NAME)][1..] == [];
    }
  }

  function ValueShapes(argument: int, result: seq<FieldType>, answer: Answer): seq<Shape> {
    var kind := KindOfResult(result);
    (if result == [] then []
     else match answer
          case DEFAULT => [ShapeOf(Bare(DefaultOpcode(kind)), None)]
          case ASKED(callee, None) => [ShapeOf(Push(argument), None), ShapeOf(Call(callee), Some(AnswerSlots(result)))]
          case ASKED(callee, Some(cast)) =>
            [ShapeOf(Push(argument), None), ShapeOf(Call(callee), Some(AnswerSlots(result))),
             ShapeOf(Instruction(0, 192, false, CpIndex(cast)), None)])
    + [ShapeOf(Bare(ReturnOpcode(kind)), None)]
  }

  function WidthOfKind(kind: char): nat {
    if kind == 'V' then 0 else if kind == 'J' || kind == 'D' then 2 else 1
  }

  lemma ReturnShape(kind: char)
    ensures ShapeOf(Bare(ReturnOpcode(kind)), None) == REPLACE(WidthOfKind(kind), 0)
  {
  }

  lemma DefaultShape(kind: char)
    requires kind != 'V'
    ensures ShapeOf(Bare(DefaultOpcode(kind)), None) == REPLACE(0, WidthOfKind(kind))
  {
  }

  lemma KindWidth(result: seq<FieldType>)
    requires |result| <= 1 && (result != [] ==> ValidType(result[0]))
    ensures SlotsOfAll(result) == WidthOfKind(KindOfResult(result))
    ensures result != [] ==> KindOfResult(result) != 'V'
  {
    if result != [] {
      assert result[1..] == [];
    }
  }

  lemma FollowStep(shape: Shape, rest: seq<Shape>, w: Work, maxStack: nat)
    requires Apply(shape, w, maxStack).Some?
    ensures Follow([shape] + rest, w, maxStack) == Follow(rest, Apply(shape, w, maxStack).value, maxStack)
  {
    hide Apply;
    FollowOne(shape, w, maxStack);
    FollowConcat([shape], rest, w, maxStack);
  }

  lemma PushAndPop(locals: seq<Trace>, n: nat, width: nat, maxStack: nat)
    requires width <= maxStack
    ensures Apply(REPLACE(n, width), Work(locals, Others(n)), maxStack) == Some(Work(locals, Others(width)))
  {
    assert Others(n)[..0] + Others(width) == Others(width);
  }

  /** Two slots are enough for any value, and the return takes all of it. */
  lemma ValueFits(argument: int, result: seq<FieldType>, answer: Answer, locals: seq<Trace>, maxStack: nat)
    requires |result| <= 1 && (result != [] ==> ValidType(result[0]) && maxStack >= 2)
    ensures Follow(ValueShapes(argument, result, answer), Work(locals, []), maxStack) == Some(Work(locals, []))
  {
    var kind, width := KindOfResult(result), SlotsOfAll(result);
    KindWidth(result);
    AnswerWidth(result);
    ReturnShape(kind);
    var empty, one, full := Work(locals, Others(0)), Work(locals, Others(1)), Work(locals, Others(width));
    assert Others(0) == [];
    var give := REPLACE(width, 0);
    PushAndPop(locals, width, 0, maxStack);
    FollowOne(give, full, maxStack);
    var shapes := ValueShapes(argument, result, answer);
    if result == [] {
      assert shapes == [give];
    } else {
      DefaultShape(kind);
      assert ShapeOf(Push(argument), None) == REPLACE(0, 1);
      PushAndPop(locals, 0, 1, maxStack);
      PushAndPop(locals, 0, width, maxStack);
      PushAndPop(locals, 1, width, maxStack);
      assert Apply(PEEK, full, maxStack) == Some(full);
      hide Apply, Follow, Others, ReturnOpcode, DefaultOpcode, WidthOfKind, AnswerSlots;
      match answer
      case DEFAULT =>
        assert shapes == [REPLACE(0, width)] + [give];
        FollowStep(REPLACE(0, width), [give], empty, maxStack);
      case ASKED(callee, None) =>
        assert ShapeOf(Call(callee), Some(AnswerSlots(result))) == REPLACE(1, width);
        assert shapes == [REPLACE(0, 1)] + ([REPLACE(1, width)] + [give]);
        FollowStep(REPLACE(0, 1), [REPLACE(1, width)] + [give], empty, maxStack);
        FollowStep(REPLACE(1, width), [give], one, maxStack);
      case ASKED(callee, Some(cast)) =>
        assert ShapeOf(Call(callee), Some(AnswerSlots(result))) == REPLACE(1, width);
        assert shapes == [REPLACE(0, 1)] + ([REPLACE(1, width)] + ([PEEK] + [give]));
        FollowStep(REPLACE(0, 1), [REPLACE(1, width)] + ([PEEK] + [give]), empty, maxStack);
        FollowStep(REPLACE(1, width), [PEEK] + [give], one, maxStack);
        FollowStep(PEEK, [give], full, maxStack);
    }
  }
}
