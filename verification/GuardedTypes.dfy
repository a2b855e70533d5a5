/** The guard by types: each instruction in front of the body finds operands of its
    types, and what is returned in the body's place is the default value of the
    method's type, or the callee's answer. */
module GuardedTypes {
  import opened Bytes
  import opened Status
  import opened Instructions
  import opened Descriptors
  import opened OpcodeTypes
  import opened GuardParameters
  import opened GuardedBody
  import opened GuardedCall

  // ----- straight-line code by types -----

  /** The locals slot by slot; the second slot of a long or a double has no type. */
  function SlotTypes(types: seq<JType>): (r: seq<Option<JType>>)
    decreases |types|
  {
    if types == [] then []
    else [Some(types[0])] + (if Words(types[0]) == 2 then [None] else []) + SlotTypes(types[1..])
  }

  /** The types on the stack after an action, if it finds its operands. The one
      rearrangement needed is the one that leaves a reference as it is. */
  function Typed(action: Action, locals: seq<Option<JType>>, stack: seq<JType>): Option<seq<JType>> {
    var n := |stack|;
    match action
    case Computes(operands, results) =>
      if |operands| <= n && stack[n - |operands|..] == operands then Some(stack[..n - |operands|] + results) else None
    case LoadsLocal(t, index) => if index < |locals| && locals[index] == Some(t) then Some(stack + [t]) else None
    case Rearranges(takes, order) =>
      if takes == 1 && order == [0] && n > 0 && stack[n - 1] == REFERENCE then Some(stack) else None
    case _ => None
  }

  function TypedAll(actions: seq<Action>, locals: seq<Option<JType>>, stack: seq<JType>): Option<seq<JType>>
    decreases |actions|
  {
    if actions == [] then Some(stack)
    else match Typed(actions[0], locals, stack)
         case None => None
         case Some(next) => TypedAll(actions[1..], locals, next)
  }

  lemma {:induction false} TypedFirst(action: Action, rest: seq<Action>, locals: seq<Option<JType>>, stack: seq<JType>)
    requires Typed(action, locals, stack).Some?
    ensures TypedAll([action] + rest, locals, stack) == TypedAll(rest, locals, Typed(action, locals, stack).value)
  {
    hide Typed;
    assert ([action] + rest)[1..] == rest;
  }

  lemma {:induction false} TypedThen(a: seq<Action>, b: seq<Action>, locals: seq<Option<JType>>, stack: seq<JType>)
    requires TypedAll(a, locals, stack).Some?
    ensures TypedAll(a + b, locals, stack) == TypedAll(b, locals, TypedAll(a, locals, stack).value)
    decreases |a|
  {
    hide Typed;
    if a == [] {
      assert a + b == b;
    } else {
      assert (a + b)[0] == a[0] && (a + b)[1..] == a[1..] + b;
      TypedThen(a[1..], b, locals, Typed(a[0], locals, stack).value);
    }
  }

  /** Operands on top of the stack are replaced by results. */
  lemma {:induction false} TypedCall(operands: seq<JType>, results: seq<JType>, locals: seq<Option<JType>>, below: seq<JType>)
    ensures Typed(Computes(operands, results), locals, below + operands) == Some(below + results)
    ensures below == [] ==> Typed(Computes(operands, results), locals, operands) == Some(results)
  {
    assert below == [] ==> below + operands == operands && below + results == results;
    assert (below + operands)[..|below|] == below && (below + operands)[|below|..] == operands;
  }

  // ----- the loads -----

  function LoadActions(ps: seq<Parameter>): (r: seq<Action>)
    requires Loadable(ps)
    ensures |r| == |ps|
  {
    seq(|ps|, i requires 0 <= i < |ps| => OpcodeAction(Load(ps[i])))
  }

  /** Unless it is an array of primitives, a parameter is loaded by the instruction
      for its type from the local it is in, and forwarded as its type. */
  lemma DescribedByType(t: FieldType, slot: nat)
    requires ValidType(t) && !PrimitiveArray(t) && slot < 0x100
    ensures var p := Described(t, slot);
      && Loadable([p]) && p.slot == slot && OpcodeAction(Load(p)) == LoadsLocal(TypeOf(t), slot) && TypeOf(ForwardedType(p)) == TypeOf(t)
      && Counted(t) == Words(TypeOf(t))
  {
    ValidLoad(t);
    InnermostCounts(t);
    match t
    case Primitive(letter) => PrimitiveByType(letter, slot);
    case Reference(_) =>
    case ArrayOf(element) => assert Innermost(t).Reference?;
  }

  lemma PrimitiveByType(letter: char, slot: nat)
    requires IsPrimitive(letter) && slot < 0x100
    ensures LoadOf(letter).Some?
    ensures var load := LoadOf(letter).value.0;
      && ILOAD <= load <= ALOAD
      && OpcodeAction(Instruction(0, load, false, Local(slot))) == LoadsLocal(TypeOf(Primitive(letter)), slot)
    ensures letter != 'L'
  {
  }

  /** The locals from slot on are those of the types. */
  predicate Hold(locals: seq<Option<JType>>, slot: nat, types: seq<FieldType>) {
    slot <= |locals| && SlotTypes(TypesOf(types)) <= locals[slot..]
  }

  lemma {:induction false} HoldFirst(locals: seq<Option<JType>>, slot: nat, types: seq<FieldType>)
    requires Hold(locals, slot, types) && types != []
    ensures slot < |locals| && locals[slot] == Some(TypeOf(types[0]))
    ensures Hold(locals, slot + Words(TypeOf(types[0])), types[1..])
  {
    var all := TypesOf(types);
    assert all[1..] == TypesOf(types[1..]);
    var first := [Some(all[0])] + (if Words(all[0]) == 2 then [None] else []);
    assert SlotTypes(all) == first + SlotTypes(all[1..]);
    assert locals[slot..][0] == SlotTypes(all)[0];
    var w := |first|;
    assert SlotTypes(all)[w..] == SlotTypes(all[1..]);
    assert locals[slot + w..] == locals[slot..][w..];
  }

  lemma {:induction false} LoadsByType(types: seq<FieldType>, slot: nat, locals: seq<Option<JType>>, stack: seq<JType>)
    requires forall i :: 0 <= i < |types| ==> ValidType(types[i]) && !PrimitiveArray(types[i])
    requires Hold(locals, slot, types) && |locals| <= 0x100
    ensures var ps := DescribedAll(types, slot);
      && Loadable(ps) && TypedAll(LoadActions(ps), locals, stack) == Some(stack + TypesOf(types))
      && TypesOf(ForwardedTypes(ps)) == TypesOf(types)
    decreases |types|
  {
    hide Described, ValidType, PrimitiveArray, TypeOf, ForwardedType, Hold, OpcodeAction, Counted, Words;
    var ps := DescribedAll(types, slot);
    if types == [] {
      assert LoadActions(ps) == [] && stack + TypesOf(types) == stack;
      assert TypesOf(ForwardedTypes(ps)) == TypesOf(types);
    } else {
      HoldFirst(locals, slot, types);
      DescribedByType(types[0], slot);
      var first, rest := Described(types[0], slot), DescribedAll(types[1..], slot + Counted(types[0]));
      var t := TypeOf(types[0]);
      LoadsByType(types[1..], slot + Counted(types[0]), locals, stack + [t]);
      LoadTyped(first, rest, t, slot, locals, stack, TypesOf(types[1..]));
      assert ps == [first] + rest;
      assert TypesOf(types) == [t] + TypesOf(types[1..]);
    }
  }

  lemma {:induction false} LoadTyped(first: Parameter, rest: seq<Parameter>, t: JType, slot: nat, locals: seq<Option<JType>>, stack: seq<JType>, types: seq<JType>)
    requires Loadable([first]) && Loadable(rest) && first.slot < 0x100 && TypeOf(ForwardedType(first)) == t
    requires OpcodeAction(Load(first)) == LoadsLocal(t, slot) && slot < |locals| && locals[slot] == Some(t)
    requires TypedAll(LoadActions(rest), locals, stack + [t]) == Some(stack + [t] + types)
    requires TypesOf(ForwardedTypes(rest)) == types
    ensures Loadable([first] + rest) && TypedAll(LoadActions([first] + rest), locals, stack) == Some(stack + ([t] + types))
    ensures TypesOf(ForwardedTypes([first] + rest)) == [t] + types
  {
    hide TypeOf, ForwardedType, OpcodeAction, TypedAll;
    LoadableJoins(first, rest);
    assert [first][0] == first;
    assert LoadActions([first] + rest) == [OpcodeAction(Load(first))] + LoadActions(rest);
    TypedFirst(LoadsLocal(t, slot), LoadActions(rest), locals, stack);
    assert stack + [t] + types == stack + ([t] + types);
    assert ForwardedTypes([first] + rest) == [ForwardedType(first)] + ForwardedTypes(rest);
  }

  lemma LoadableJoins(p: Parameter, rest: seq<Parameter>)
    requires Loadable([p]) && Loadable(rest)
    ensures Loadable([p] + rest)
  {
    assert [p][0] == p;
  }

  // ----- the prologue -----

  function PrologueActions(argument: int, ps: seq<Parameter>, guard: u2): seq<Action>
    requires Loadable(ps)
  {
    [OpcodeAction(Push(argument))] + LoadActions(ps) + [CallAction(Call(guard).opcode as int, GuardType(ps)), OpcodeAction(IFEQ)]
  }

  /** The locals a method starts with: the receiver, unless it is static, and its
      parameters. */
  function EntryStack(m: MethodType, isStatic: bool): seq<JType> {
    (if isStatic then [] else [REFERENCE]) + TypesOf(m.parameters)
  }

  lemma ReceiverByType(isStatic: bool)
    ensures Loadable(Receiver(isStatic))
    ensures LoadActions(Receiver(isStatic)) == if isStatic then [] else [LoadsLocal(REFERENCE, 0)]
    ensures TypesOf(ForwardedTypes(Receiver(isStatic))) == if isStatic then [] else [REFERENCE]
  {
    if !isStatic {
      assert LoadActions(Receiver(isStatic))[0] == OpcodeAction(Load(Receiver(isStatic)[0]));
      assert ForwardedTypes(Receiver(isStatic)) == [Reference(OBJECT_NAME)];
    }
  }

  /** From the state a method without arrays of primitives starts in, the prologue
      loads the receiver and every argument as what it is, calls the guard with the
      id and just those, and branches on its int: nothing is left on the stack. */
  lemma {:induction false} PrologueByType(m: MethodType, isStatic: bool, argument: int, guard: u2, locals: seq<Option<JType>>)
    requires ValidMethod(m) && forall i :: 0 <= i < |m.parameters| ==> !PrimitiveArray(m.parameters[i])
    requires SlotTypes(EntryStack(m, isStatic)) <= locals && |locals| <= 0x100
    ensures var first := Receiver(isStatic); var ps := first + DescribedAll(m.parameters, |first|);
      && Loadable(ps) && TypedAll(PrologueActions(argument, ps, guard), locals, []) == Some([])
      && TypesOf(GuardType(ps).parameters) == [INT] + EntryStack(m, isStatic) && TypesOf(GuardType(ps).result) == [INT]
  {
    hide DescribedAll, PrimitiveArray, Typed, TypedAll, SlotTypes, LoadActions, OpcodeAction, ForwardedTypes, ValidType, TypesOf, Loadable;
    var first := Receiver(isStatic);
    var rest := DescribedAll(m.parameters, |first|);
    var ps := first + rest;
    ReceiverByType(isStatic);
    EntryHolds(m, isStatic, locals);
    LoadsByType(m.parameters, |first|, locals, [INT] + (if isStatic then [] else [REFERENCE]));
    Joined(first, rest);
    GuardTakes(ps, EntryStack(m, isStatic));
    ReceiverLoads(isStatic, locals);
    TypedThen(LoadActions(first), LoadActions(rest), locals, [INT]);
    assert [INT] + (if isStatic then [] else [REFERENCE]) + TypesOf(m.parameters) == [INT] + EntryStack(m, isStatic);
    PushedThenCalled(ps, argument, guard, locals, EntryStack(m, isStatic));
  }

  lemma {:induction false} EntryHolds(m: MethodType, isStatic: bool, locals: seq<Option<JType>>)
    requires SlotTypes(EntryStack(m, isStatic)) <= locals
    ensures Hold(locals, |Receiver(isStatic)|, m.parameters)
    ensures !isStatic ==> |locals| > 0 && locals[0] == Some(REFERENCE)
  {
    var types := TypesOf(m.parameters);
    if isStatic {
      assert [] + types == types && locals[0..] == locals;
    } else {
      assert ([REFERENCE] + types)[1..] == types;
      assert SlotTypes([REFERENCE] + types) == [Some(REFERENCE)] + SlotTypes(types);
      assert ([Some(REFERENCE)] + SlotTypes(types))[1..] == SlotTypes(types);
    }
  }

  lemma {:induction false} ReceiverLoads(isStatic: bool, locals: seq<Option<JType>>)
    requires !isStatic ==> |locals| > 0 && locals[0] == Some(REFERENCE)
    ensures Loadable(Receiver(isStatic))
    ensures TypedAll(LoadActions(Receiver(isStatic)), locals, [INT]) == Some([INT] + (if isStatic then [] else [REFERENCE]))
  {
    hide LoadActions, OpcodeAction;
    ReceiverByType(isStatic);
    if !isStatic {
      TypedFirst(LoadsLocal(REFERENCE, 0), [], locals, [INT]);
      assert [LoadsLocal(REFERENCE, 0)] + [] == [LoadsLocal(REFERENCE, 0)];
    } else {
      assert [INT] + [] == [INT];
    }
  }

  lemma Joined(a: seq<Parameter>, b: seq<Parameter>)
    requires Loadable(a) && Loadable(b)
    ensures Loadable(a + b) && LoadActions(a + b) == LoadActions(a) + LoadActions(b)
    ensures TypesOf(ForwardedTypes(a + b)) == TypesOf(ForwardedTypes(a)) + TypesOf(ForwardedTypes(b))
  {
    hide OpcodeAction, ForwardedType, TypeOf;
  }

  lemma GuardTakes(ps: seq<Parameter>, types: seq<JType>)
    requires TypesOf(ForwardedTypes(ps)) == types
    ensures TypesOf(GuardType(ps).parameters) == [INT] + types && TypesOf(GuardType(ps).result) == [INT]
  {
    hide ForwardedTypes;
    assert TypesOf([Primitive('I')] + ForwardedTypes(ps)) == [TypeOf(Primitive('I'))] + TypesOf(ForwardedTypes(ps));
  }

  lemma {:induction false} PushedThenCalled(ps: seq<Parameter>, argument: int, guard: u2, locals: seq<Option<JType>>, types: seq<JType>)
    requires Loadable(ps) && TypedAll(LoadActions(ps), locals, [INT]) == Some([INT] + types)
    requires TypesOf(GuardType(ps).parameters) == [INT] + types && TypesOf(GuardType(ps).result) == [INT]
    ensures TypedAll(PrologueActions(argument, ps, guard), locals, []) == Some([])
  {
    PrologueIs(ps, argument, guard, types);
    hide LoadActions, Typed, TypedAll, PrologueActions;
    var last := [Computes([INT] + types, [INT])] + [Pops(INT)];
    TypedCall([], [INT], locals, []);
    TypedFirst(Pushes(INT), LoadActions(ps), locals, []);
    TypedThen([Pushes(INT)] + LoadActions(ps), last, locals, []);
    CalledAndBranched(locals, types);
  }

  lemma PrologueIs(ps: seq<Parameter>, argument: int, guard: u2, types: seq<JType>)
    requires Loadable(ps)
    requires TypesOf(GuardType(ps).parameters) == [INT] + types && TypesOf(GuardType(ps).result) == [INT]
    ensures PrologueActions(argument, ps, guard)
         == [Pushes(INT)] + LoadActions(ps) + ([Computes([INT] + types, [INT])] + [Pops(INT)])
  {
    PushAction(argument);
    assert OpcodeAction(IFEQ) == Pops(INT);
    assert CallAction(184, GuardType(ps)) == Computes([INT] + types, [INT]) by {
      assert [] + ([INT] + types) == [INT] + types;
    }
    hide LoadActions, OpcodeAction, GuardType, CallAction;
  }

  lemma {:induction false} CalledAndBranched(locals: seq<Option<JType>>, types: seq<JType>)
    ensures TypedAll([Computes([INT] + types, [INT])] + [Pops(INT)], locals, [INT] + types) == Some([])
  {
    TypedCall([INT] + types, [INT], locals, []);
    hide Typed;
    GivenBack(Computes([INT] + types, [INT]), INT, locals, [INT] + types);
  }

  /** The guard's false, which is 0, is the answer on which the branch is taken. */
  lemma FalseIsTaken(answer: int)
    ensures TakenOn(IFEQ.opcode as int, answer) <==> answer == 0
  {
  }

  // ----- the value returned instead -----

  function ValueActions(argument: int, result: seq<FieldType>, answer: Answer): seq<Action> {
    var kind := KindOfResult(result);
    (if result == [] then []
     else match answer
          case DEFAULT => [OpcodeAction(Bare(DefaultOpcode(kind)))]
          case ASKED(callee, None) =>
            [OpcodeAction(Push(argument)), CallAction(Call(callee).opcode as int, AnswerType(result))]
          case ASKED(callee, Some(cast)) =>
            [OpcodeAction(Push(argument)), CallAction(Call(callee).opcode as int, AnswerType(result)),
             OpcodeAction(Instruction(0, 192, false, CpIndex(cast)))])
    + [OpcodeAction(Bare(ReturnOpcode(kind)))]
  }

  lemma KindOfOne(t: FieldType)
    ensures KindOfResult([t]) == match t case Primitive(letter) => letter case Reference(_) => 'L' case ArrayOf(_) => '['
  {
  }

  /** Without a callee, what is pushed is 0 or null of the method's type. */
  lemma DefaultIsZero(t: FieldType)
    requires ValidType(t)
    ensures var op := DefaultOpcode(KindOfResult([t])) as int;
      && ConstantPushed(op) == Some(DefaultOf(TypeOf(t)))
      && OpcodeAction(Bare(op)) == Pushes(TypeOf(t))
  {
    KindOfOne(t);
    hide KindOfResult;
  }

  /** The return is a return, and of exactly the method's type. */
  lemma ReturnIsOfType(result: seq<FieldType>)
    requires |result| <= 1 && (result != [] ==> ValidType(result[0]))
    ensures var op := ReturnOpcode(KindOfResult(result)) as int;
      172 <= op <= 177 && OpcodeAction(Bare(op)) == Computes(TypesOf(result), [])
  {
    if result != [] {
      assert TypesOf(result) == [TypeOf(result[0])];
    } else {
      assert TypesOf(result) == [];
    }
  }

  lemma AnswerIsOfType(result: seq<FieldType>)
    requires |result| == 1
    ensures CallAction(184, AnswerType(result)) == Computes([INT], [TypeOf(result[0])])
  {
    assert TypesOf([Primitive('I')]) == [INT] && [] + [INT] == [INT];
    assert TypesOf(AnswerType(result).result) == [TypeOf(result[0])];
  }

  /** Behind the branch, from an empty stack, the value instructions leave one value
      of the method's type, or none, and the return takes it. */
  lemma {:induction false} ValueByType(argument: int, result: seq<FieldType>, answer: Answer, locals: seq<Option<JType>>)
    requires |result| <= 1 && (result != [] ==> ValidType(result[0]))
    requires answer.ASKED? && answer.cast.Some? && result != [] ==> !result[0].Primitive?
    ensures TypedAll(ValueActions(argument, result, answer), locals, []) == Some([])
  {
    ReturnIsOfType(result);
    hide ReturnOpcode, DefaultOpcode, OpcodeAction, CallAction, AnswerType;
    if result == [] {
      assert TypesOf(result) == [];
      var give := Computes([], []);
      assert ValueActions(argument, result, answer) == [give] && [give] + [] == [give];
      TypedCall([], [], locals, []);
      TypedFirst(give, [], locals, []);
    } else {
      var t := TypeOf(result[0]);
      assert TypesOf(result) == [t];
      DefaultIsZero(result[0]);
      AnswerIsOfType(result);
      PushAction(argument);
      assert [result[0]] == result;
      hide TypedAll, KindOfResult, TypeOf;
      match answer
      case DEFAULT =>
        assert ValueActions(argument, result, answer) == [Pushes(t)] + [Pops(t)];
        TypedCall([], [t], locals, []);
        GivenBack(Pushes(t), t, locals, []);
      case ASKED(callee, None) =>
        assert ValueActions(argument, result, answer) == [Pushes(INT)] + ([Unary(INT, t)] + [Pops(t)]);
        AskedByType(t, locals);
      case ASKED(callee, Some(cast)) =>
        CastAction(cast);
        assert ValueActions(argument, result, answer)
            == [Pushes(INT)] + ([Unary(INT, t)] + ([Rearranges(1, [0])] + [Pops(t)]));
        CastByType(locals);
    }
  }

  lemma PushAction(argument: int)
    ensures OpcodeAction(Push(argument)) == Pushes(INT)
  {
  }

  lemma {:induction false} AskedByType(t: JType, locals: seq<Option<JType>>)
    ensures TypedAll([Pushes(INT)] + ([Unary(INT, t)] + [Pops(t)]), locals, []) == Some([])
  {
    hide TypedAll;
    TypedCall([], [INT], locals, []);
    TypedCall([INT], [t], locals, []);
    TypedFirst(Pushes(INT), [Unary(INT, t)] + [Pops(t)], locals, []);
    GivenBack(Unary(INT, t), t, locals, [INT]);
  }

  lemma {:induction false} CastByType(locals: seq<Option<JType>>)
    ensures TypedAll([Pushes(INT)] + ([Unary(INT, REFERENCE)] + ([Rearranges(1, [0])] + [Pops(REFERENCE)])), locals, []) == Some([])
  {
    CastTyped(locals);
    hide TypedAll, Typed;
    var last := [Rearranges(1, [0])] + [Pops(REFERENCE)];
    TypedFirst(Pushes(INT), [Unary(INT, REFERENCE)] + last, locals, []);
    TypedFirst(Unary(INT, REFERENCE), last, locals, [INT]);
    GivenBack(Rearranges(1, [0]), REFERENCE, locals, [REFERENCE]);
  }

  lemma {:induction false} CastTyped(locals: seq<Option<JType>>)
    ensures Typed(Pushes(INT), locals, []) == Some([INT]) && Typed(Unary(INT, REFERENCE), locals, [INT]) == Some([REFERENCE])
    ensures Typed(Rearranges(1, [0]), locals, [REFERENCE]) == Some([REFERENCE])
  {
    CastStays(locals, [REFERENCE]);
    hide Typed;
    TypedCall([], [INT], locals, []);
    TypedCall([INT], [REFERENCE], locals, []);
  }

  lemma {:induction false} CastStays(locals: seq<Option<JType>>, stack: seq<JType>)
    requires |stack| > 0 && stack[|stack| - 1] == REFERENCE
    ensures Typed(Rearranges(1, [0]), locals, stack) == Some(stack)
  {
  }

  lemma CastAction(cast: u2)
    ensures OpcodeAction(Instruction(0, 192, false, CpIndex(cast))) == Rearranges(1, [0])
  {
  }

  lemma {:induction false} GivenBack(last: Action, t: JType, locals: seq<Option<JType>>, stack: seq<JType>)
    requires Typed(last, locals, stack) == Some([t])
    ensures TypedAll([last] + [Pops(t)], locals, stack) == Some([])
  {
    TypedCall([t], [], locals, []);
    assert [] + [t] == [t] && [Pops(t)] + [] == [Pops(t)];
    TypedFirst(last, [Pops(t)], locals, stack);
    TypedFirst(Pops(t), [], locals, [t]);
  }
}
