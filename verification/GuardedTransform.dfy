/** The guarded call as a whole: what it names, what it builds, where it goes. */
module GuardedTransform {
  import opened Bytes
  import opened Status
  import opened Instructions
  import opened References
  import opened CodeEditor
  import opened Insertion
  import opened Simulation
  import opened Descriptors
  import opened ConstantPool
  import opened StackShapes
  import opened OpcodeTypes
  import opened GuardParameters
  import opened GuardedBody
  import opened GuardedCall
  import opened GuardedTypes
  import opened EntryFrame
  import opened GuardTransform

  const MAX_PARAMETERS := 64

  datatype Outcome = DONE | NOT_FOUND | BAD_ARGUMENT | FAILED(cause: Status)

  /** What was put in front of the body. */
  datatype Plan = Plan(parameters: seq<Parameter>, guard: u2, kind: char, answer: Answer)

  // ----- names in the pool -----

  predicate RefNames(pool: Pool, index: int, owner: string, name: string, descriptor: string) {
    match At(pool, index)
    case Some(Ref(tag, c, n)) =>
      tag == METHODREF && ClassName(pool, c) == Some(owner) && MemberAt(pool, n) == Some(Member(name, descriptor))
    case _ => false
  }

  lemma ClassSurvives(pool: Pool, more: Pool, index: int)
    requires pool <= more && ClassName(pool, index).Some?
    ensures ClassName(more, index) == ClassName(pool, index)
  {
    hide TextAt;
    PrefixKeepsAt(pool, more, index);
    TextSurvives(pool, more, At(pool, index).value.nameIndex);
  }

  lemma MemberSurvives(pool: Pool, more: Pool, index: int)
    requires pool <= more && MemberAt(pool, index).Some?
    ensures MemberAt(more, index) == MemberAt(pool, index)
  {
    hide TextAt;
    PrefixKeepsAt(pool, more, index);
    var entry := At(pool, index).value;
    TextSurvives(pool, more, entry.nameIndex);
    TextSurvives(pool, more, entry.descriptorIndex);
  }

  lemma RefSurvives(pool: Pool, more: Pool, index: int, owner: string, name: string, descriptor: string)
    requires pool <= more && RefNames(pool, index, owner, name, descriptor)
    ensures RefNames(more, index, owner, name, descriptor)
  {
    hide ClassName, MemberAt;
    PrefixKeepsAt(pool, more, index);
    ClassSurvives(pool, more, At(pool, index).value.classIndex);
    MemberSurvives(pool, more, At(pool, index).value.natIndex);
  }

  lemma InternMethodrefKeeps(pool: Pool, classIndex: u2, owner: string, name: string, descriptor: string)
    requires PoolValid(pool) && ClassName(pool, classIndex) == Some(owner)
    requires InternMethodref(pool, classIndex, name, descriptor).Success?
    ensures var r := InternMethodref(pool, classIndex, name, descriptor).value;
      pool <= r.pool && PoolValid(r.pool) && RefNames(r.pool, r.index, owner, name, descriptor)
  {
    hide InternNameAndType, Intern, ClassName, MemberAt;
    var n := InternNameAndType(pool, name, descriptor).value;
    InternNameAndTypeKeeps(pool, name, descriptor);
    InternKeeps(n.pool, Ref(METHODREF, classIndex, n.index));
    var r := InternMethodref(pool, classIndex, name, descriptor).value;
    ClassSurvives(pool, r.pool, classIndex);
    MemberSurvives(n.pool, r.pool, n.index);
  }

  lemma {:induction false} BuildKeeps(pool: Pool, s: string, i: nat, count: nat)
    requires PoolValid(pool) && i <= |s| && BuildFrom(pool, s, i, count).Success?
    ensures var r := BuildFrom(pool, s, i, count).value; pool <= r.pool && PoolValid(r.pool)
    decreases |s| - i
  {
    hide BuildOne, PoolValid;
    if s[i] != ')' {
      BuildOneKeeps(pool, s, i);
      var one := BuildOne(pool, s, i).value;
      BuildKeeps(one.pool, s, one.next, count + 1);
    }
  }

  lemma BuildOneKeeps(pool: Pool, s: string, i: nat)
    requires PoolValid(pool) && i < |s| && BuildOne(pool, s, i).Success?
    ensures var r := BuildOne(pool, s, i).value; pool <= r.pool && PoolValid(r.pool)
  {
    hide InternClass, ClassName;
    forall name | InternClass(pool, name).Success? ensures pool <= InternClass(pool, name).value.pool && PoolValid(InternClass(pool, name).value.pool) {
      InternClassKeeps(pool, name);
    }
  }

  // ----- the answer -----

  predicate IsReferenceKind(kind: char) { kind == 'L' || kind == '[' }

  /** What a value callee is declared to return. */
  function AnswerDescriptor(kind: char): string {
    if IsReferenceKind(kind) then "(I)Ljava/lang/Object;" else "(I)" + [kind]
  }

  /** What the answer is cast to: a class by its name, an array by its descriptor. */
  function CastName(result: string): string
    requires |result| >= 2
  {
    if result[0] == 'L' then result[1..|result| - 1] else result
  }

  /** The result's descriptor is copied into eight bytes as long as it goes on with
      brackets and class letters, even though a reference does not use the copy. */
  predicate CopyRefused(result: string) {
    |result| > 4 && forall i :: 0 <= i < 4 ==> IsReferenceKind(result[i])
  }

  predicate AnswerNamed(pool: Pool, owner: string, valueCallee: Option<string>, result: string, answer: Answer)
    requires |result| >= 1 && (IsReferenceKind(result[0]) ==> |result| >= 2)
  {
    if result[0] == 'V' || valueCallee.None? then answer == DEFAULT
    else
      && answer.ASKED? && RefNames(pool, answer.callee, owner, valueCallee.value, AnswerDescriptor(result[0]))
      && (if IsReferenceKind(result[0]) then answer.cast.Some? && ClassName(pool, answer.cast.value) == Some(CastName(result))
          else answer.cast.None?)
  }

  lemma AnswerSurvives(pool: Pool, more: Pool, owner: string, valueCallee: Option<string>, result: string, answer: Answer)
    requires |result| >= 1 && (IsReferenceKind(result[0]) ==> |result| >= 2)
    requires pool <= more && AnswerNamed(pool, owner, valueCallee, result, answer)
    ensures AnswerNamed(more, owner, valueCallee, result, answer)
  {
    hide RefNames, ClassName, AnswerDescriptor, CastName;
    if answer.ASKED? {
      RefSurvives(pool, more, answer.callee, owner, valueCallee.value, AnswerDescriptor(result[0]));
      if answer.cast.Some? {
        ClassSurvives(pool, more, answer.cast.value);
      }
    }
  }

  method NameAnswer(pool: Pool, ownerIndex: u2, owner: string, valueCallee: Option<string>, result: string)
    returns (outcome: Outcome, pool': Pool, answer: Answer)
    requires PoolValid(pool) && ClassName(pool, ownerIndex) == Some(owner)
    requires |result| >= 1 && (IsReferenceKind(result[0]) ==> |result| >= 2)
    ensures outcome == DONE ==> pool <= pool' && PoolValid(pool') && AnswerNamed(pool', owner, valueCallee, result, answer)
    ensures outcome.FAILED? ==> outcome.cause != OK
    ensures result[0] != 'V' && valueCallee.Some? && CopyRefused(result) ==> outcome == FAILED(UNSUPPORTED)
    ensures outcome in {DONE, FAILED(UNSUPPORTED), FAILED(LIMIT_EXCEEDED)}
  {
    hide InternMethodref, InternClass, ClassName, RefNames;
    outcome, pool', answer := DONE, pool, DEFAULT;
    if result[0] == 'V' || valueCallee.None? {
      return;
    }
    if CopyRefused(result) {
      return FAILED(UNSUPPORTED), pool', answer;
    }
    var callee := InternMethodref(pool, ownerIndex, valueCallee.value, AnswerDescriptor(result[0]));
    if callee.Failure? {
      MethodrefFails(pool, ownerIndex, valueCallee.value, AnswerDescriptor(result[0]));
      return FAILED(callee.status), pool', answer;
    }
    InternMethodrefKeeps(pool, ownerIndex, owner, valueCallee.value, AnswerDescriptor(result[0]));
    pool', answer := callee.value.pool, ASKED(callee.value.index, None);
    if IsReferenceKind(result[0]) {
      if |result| >= 512 {
        return FAILED(UNSUPPORTED), pool', answer;
      }
      ghost var before := pool';
      var cast := InternClass(pool', CastName(result));
      if cast.Failure? {
        ClassFails(pool', CastName(result));
        return FAILED(cast.status), pool', answer;
      }
      InternClassKeeps(pool', CastName(result));
      pool', answer := cast.value.pool, ASKED(callee.value.index, Some(cast.value.index));
      RefSurvives(before, pool', callee.value.index, owner, valueCallee.value, AnswerDescriptor(result[0]));
    }
  }

  lemma MethodrefFails(pool: Pool, classIndex: u2, name: string, descriptor: string)
    requires InternMethodref(pool, classIndex, name, descriptor).Failure?
    ensures InternMethodref(pool, classIndex, name, descriptor).status == LIMIT_EXCEEDED
  {
  }

  lemma ClassFails(pool: Pool, name: string)
    requires InternClass(pool, name).Failure?
    ensures InternClass(pool, name).status == LIMIT_EXCEEDED
  {
  }

  // ----- the parameters -----

  /** Whatever the descriptor, the loads are loads and the slots are small. */
  lemma {:induction false} DescribedLoadable(s: string, i: nat, count: nat, slot: nat, capacity: nat)
    requires i <= |s| && count <= capacity && DescribeFrom(s, i, count, slot, capacity).Some?
    requires slot + 2 * (capacity - count) <= 0x100
    ensures var ps := DescribeFrom(s, i, count, slot, capacity).value.parameters;
      Loadable(ps) && count + |ps| <= capacity
    decreases |s| - i
  {
    hide DescribeOne;
    if s[i] != ')' {
      LoadIsLoad(s, i);
      var one := DescribeOne(s, i).value;
      DescribedLoadable(s, one.next, count + 1, slot + one.width, capacity);
    }
  }

  lemma LoadIsLoad(s: string, i: nat)
    requires i < |s| && DescribeOne(s, i).Some?
    ensures ILOAD <= DescribeOne(s, i).value.load <= ALOAD && 1 <= DescribeOne(s, i).value.width <= 2
  {
  }

  lemma AllLoadable(s: string, isStatic: bool)
    requires Describe(s, isStatic, MAX_PARAMETERS).Some?
    ensures var ps := Describe(s, isStatic, MAX_PARAMETERS).value.parameters; Loadable(ps) && |ps| <= MAX_PARAMETERS
  {
    hide DescribeFrom;
    if isStatic {
      DescribedLoadable(s, 1, 0, 0, MAX_PARAMETERS);
    } else {
      DescribedLoadable(s, 1, 1, 1, MAX_PARAMETERS);
    }
  }

  lemma {:induction false} WidthsBound(ps: seq<Parameter>)
    ensures Widths(ps) <= 2 * |ps|
    decreases |ps|
  {
    if ps != [] {
      WidthsBound(ps[..|ps| - 1]);
    }
  }

  function PrologueOf(argument: int, plan: Plan): seq<Instruction>
    requires Loadable(plan.parameters)
  {
    Prologue(argument, plan.parameters, plan.guard)
  }

  function TailOf(argument: int, plan: Plan): seq<Instruction> {
    Value(argument, plan.kind, plan.answer) + [Bare(ReturnOpcode(plan.kind))]
  }

  /** Behind the closing parenthesis. */
  function ResultText(s: string): string {
    var closing := Find(s, ')', 0);
    if closing == |s| then "" else s[closing + 1..]
  }

  /** The names and nodes belong to the call that was asked for. */
  predicate Planned(pool: Pool, owner: string, callee: string, valueCallee: Option<string>, s: string, isStatic: bool, plan: Plan)
    requires var result := ResultText(s); |result| >= 1 && (IsReferenceKind(result[0]) ==> |result| >= 2)
  {
    && Describe(s, isStatic, MAX_PARAMETERS).Some?
    && plan.parameters == Describe(s, isStatic, MAX_PARAMETERS).value.parameters && Loadable(plan.parameters)
    && |RenderMethod(GuardType(plan.parameters))| < 1024
    && RefNames(pool, plan.guard, owner, callee, RenderMethod(GuardType(plan.parameters)))
    && plan.kind == ResultText(s)[0]
    && AnswerNamed(pool, owner, valueCallee, ResultText(s), plan.answer)
  }

  lemma PlanSurvives(pool: Pool, more: Pool, owner: string, callee: string, valueCallee: Option<string>, s: string, isStatic: bool, plan: Plan)
    requires var result := ResultText(s); |result| >= 1 && (IsReferenceKind(result[0]) ==> |result| >= 2)
    requires pool <= more && Planned(pool, owner, callee, valueCallee, s, isStatic, plan)
    ensures Planned(more, owner, callee, valueCallee, s, isStatic, plan)
  {
    hide Describe, RefNames, AnswerNamed, RenderMethod, GuardType;
    RefSurvives(pool, more, plan.guard, owner, callee, RenderMethod(GuardType(plan.parameters)));
    AnswerSurvives(pool, more, owner, valueCallee, ResultText(s), plan.answer);
  }

  // ----- the whole transform -----

  /** The guarded body in the editor, its nodes as planned, the stack and the
      frames it needs. */
  predicate Installed(e: Editor, pool: Pool, thisClass: u2, s: string, isStatic: bool, argument: int, plan: Plan, after: Editor)
    requires |s| > 0 && Loadable(plan.parameters)
  {
    var prologue, tail := PrologueOf(argument, plan), TailOf(argument, plan);
    var built := BuildFrom(pool, s, 1, if isStatic then 0 else 1);
    && Guardable(e, prologue, tail)
    && |Committed(e, 0, GuardBlock(prologue, tail)).code| > |prologue| + 1 + |tail|
    && BodyOf(after) == BodyOf(Guarded(e, prologue, tail))
    && after.maxStack as int == e.maxStack as int + Pushed(plan.parameters, plan.kind)
    && built.Success? && after.names.hasFrames
    && Framed(e, GuardBlock(prologue, tail),
              EntryOf(thisClass, isStatic, built.value.types, BodyStart(Committed(e, 0, GuardBlock(prologue, tail)), prologue, tail)),
              after.frames)
  }

  /** The checks in the order they are made, the names they intern, the nodes and
      the splice. before is the pool the entry frame was built in. */
  method InsertGuardedCall(e: Editor, pool: Pool, thisClass: u2, owner: string, callee: string, valueCallee: Option<string>,
                           s: string, isStatic: bool, argument: int)
    returns (outcome: Outcome, after: Editor, pool': Pool, plan: Plan, ghost before: Pool)
    requires Consistent(e) && FramesIncrease(e.frames) && PoolValid(pool)
    requires |ResultText(s)| >= 1 && IsReferenceKind(ResultText(s)[0]) ==> |ResultText(s)| >= 2
    ensures outcome == DONE ==>
      && FitsI2(argument) && |s| > 0 && |ResultText(s)| >= 1
      && PoolValid(before) && pool <= before <= pool'
      && Planned(pool', owner, callee, valueCallee, s, isStatic, plan)
      && Installed(e, before, thisClass, s, isStatic, argument, plan, after)
      && BuildFrom(before, s, 1, if isStatic then 0 else 1).value.pool <= pool'
    ensures outcome == BAD_ARGUMENT <==> !FitsI2(argument)
    ensures FitsI2(argument) && (ResultText(s) == "" || Describe(s, isStatic, MAX_PARAMETERS).None?
              || |RenderMethod(GuardType(Describe(s, isStatic, MAX_PARAMETERS).value.parameters))| >= 1024)
      ==> outcome == NOT_FOUND || outcome == FAILED(LIMIT_EXCEEDED)
  {
    hide Consistent, FramesIncrease, Describe, InternMethodref, InternClass, ClassName, RefNames, AnswerNamed, RenderMethod, GuardType;
    hide Guardable, Committed, GuardBlock, Framed, BuildFrom, Prologue, TailOf, Loadable, AllWellFormed, Guarded, BodyStart, Pushed, Planned, Installed, TableIsNamed, PoolValid, EntryOf;
    outcome, after, pool', plan, before := NOT_FOUND, e, pool, Plan([], 0, 'V', DEFAULT), pool;
    if argument < -32768 || argument > 32767 {
      outcome := BAD_ARGUMENT;
      return;
    }
    var result := ResultText(s);
    if result == "" {
      return;
    }
    var class_ := InternClass(pool', owner);
    if class_.Failure? {
      ClassFails(pool', owner);
      outcome := FAILED(class_.status);
      return;
    }
    InternClassKeeps(pool', owner);
    pool' := class_.value.pool;
    var described := DescribeParameters(s, isStatic, MAX_PARAMETERS);
    if described.None? {
      return;
    }
    var ps := described.value.parameters;
    AllLoadable(s, isStatic);
    var ok, text := BuildGuardDescriptor(ps);
    if !ok {
      return;
    }
    var guard := InternMethodref(pool', class_.value.index, callee, text);
    if guard.Failure? {
      MethodrefFails(pool', class_.value.index, callee, text);
      outcome := FAILED(guard.status);
      return;
    }
    InternMethodrefKeeps(pool', class_.value.index, owner, callee, text);
    ClassSurvives(pool', guard.value.pool, class_.value.index);
    pool' := guard.value.pool;
    ghost var guarded := pool';
    var answer;
    outcome, pool', answer := NameAnswer(pool', class_.value.index, owner, valueCallee, result);
    if outcome != DONE {
      return;
    }
    plan := Plan(ps, guard.value.index, result[0], answer);
    before := pool';
    RefSurvives(guarded, pool', plan.guard, owner, callee, text);
    PlanMade(pool', owner, callee, valueCallee, s, isStatic, plan);
    var nodes, branch, pushed := BuildGuard(argument, ps, plan.guard, plan.kind, answer);
    PushedIsSmall(ps, plan.kind);
    GuardIsWellFormed(argument, ps, plan.guard, plan.kind, answer);
    var status;
    TailIs(argument, plan);
    status, after, pool' := InsertGuard(e, pool', thisClass, s, isStatic, PrologueOf(argument, plan), TailOf(argument, plan), pushed);
    if status != OK {
      outcome := FAILED(status);
      return;
    }
    NamedTableKeeps(e, before, s, isStatic, after, pool');
    PlanSurvives(before, pool', owner, callee, valueCallee, s, isStatic, plan);
    IsInstalled(e, before, thisClass, s, isStatic, argument, plan, after);
  }

  lemma TailIs(argument: int, plan: Plan)
    ensures TailOf(argument, plan) == Value(argument, plan.kind, plan.answer) + [Bare(ReturnOpcode(plan.kind))]
  {
  }

  lemma PushedIsSmall(ps: seq<Parameter>, kind: char)
    requires |ps| <= MAX_PARAMETERS
    ensures Pushed(ps, kind) < 0x1_0000
  {
    WidthsBound(ps);
  }

  lemma PlanMade(pool: Pool, owner: string, callee: string, valueCallee: Option<string>, s: string, isStatic: bool, plan: Plan)
    requires var result := ResultText(s); |result| >= 1 && (IsReferenceKind(result[0]) ==> |result| >= 2)
    requires Describe(s, isStatic, MAX_PARAMETERS).Some? && plan.parameters == Describe(s, isStatic, MAX_PARAMETERS).value.parameters
    requires Loadable(plan.parameters) && |RenderMethod(GuardType(plan.parameters))| < 1024
    requires RefNames(pool, plan.guard, owner, callee, RenderMethod(GuardType(plan.parameters)))
    requires plan.kind == ResultText(s)[0] && AnswerNamed(pool, owner, valueCallee, ResultText(s), plan.answer)
    ensures Planned(pool, owner, callee, valueCallee, s, isStatic, plan)
  {
    hide Describe, RefNames, AnswerNamed, RenderMethod, GuardType, Loadable;
  }

  lemma NamedTableKeeps(e: Editor, pool: Pool, s: string, isStatic: bool, after: Editor, pool': Pool)
    requires PoolValid(pool) && |s| > 0 && BuildFrom(pool, s, 1, if isStatic then 0 else 1).Success?
    requires TableIsNamed(e, BuildFrom(pool, s, 1, if isStatic then 0 else 1).value.pool, after, pool')
    ensures pool <= pool' && BuildFrom(pool, s, 1, if isStatic then 0 else 1).value.pool <= pool' && after.names.hasFrames
  {
    hide BuildFrom, PoolValid, InternUtf8;
    BuildKeeps(pool, s, 1, if isStatic then 0 else 1);
    var built := BuildFrom(pool, s, 1, if isStatic then 0 else 1).value.pool;
    if !e.names.hasFrames {
      InternUtf8Keeps(built, "StackMapTable");
    }
  }

  lemma IsInstalled(e: Editor, pool: Pool, thisClass: u2, s: string, isStatic: bool, argument: int, plan: Plan, after: Editor)
    requires |s| > 0 && Loadable(plan.parameters)
    requires var prologue, tail := PrologueOf(argument, plan), TailOf(argument, plan);
      var built := BuildFrom(pool, s, 1, if isStatic then 0 else 1);
      && Guardable(e, prologue, tail)
      && |Committed(e, 0, GuardBlock(prologue, tail)).code| > |prologue| + 1 + |tail|
      && BodyOf(after) == BodyOf(Guarded(e, prologue, tail))
      && after.maxStack as int == e.maxStack as int + Pushed(plan.parameters, plan.kind)
      && built.Success? && after.names.hasFrames
      && Framed(e, GuardBlock(prologue, tail),
                EntryOf(thisClass, isStatic, built.value.types, BodyStart(Committed(e, 0, GuardBlock(prologue, tail)), prologue, tail)),
                after.frames)
    ensures Installed(e, pool, thisClass, s, isStatic, argument, plan, after)
  {
    hide Guardable, Committed, Guarded, Pushed, BuildFrom, Framed, EntryOf, BodyStart, GuardBlock, PrologueOf, TailOf, BodyOf;
  }

  /** What is put in front of a method without arrays of primitives loads each
      argument from inside its locals, calls the guard with them, and needs no more
      stack than was asked for. */
  lemma PlanFits(pool: Pool, owner: string, callee: string, valueCallee: Option<string>, m: MethodType, isStatic: bool,
                 argument: int, plan: Plan, locals: seq<Trace>)
    requires ValidMethod(m) && forall i :: 0 <= i < |m.parameters| ==> !PrimitiveArray(m.parameters[i])
    requires var result := ResultText(RenderMethod(m)); |result| >= 1 && (IsReferenceKind(result[0]) ==> |result| >= 2)
    requires Planned(pool, owner, callee, valueCallee, RenderMethod(m), isStatic, plan)
    requires |locals| >= |Receiver(isStatic)| + SlotsOfAll(m.parameters)
    ensures Follow(PrologueShapes(argument, plan.parameters, plan.guard), Work(locals, []), Pushed(plan.parameters, plan.kind))
         == Some(Work(locals, []))
  {
    hide Describe, RenderMethod, PrimitiveArray, SlotsOfAll, Follow, PrologueShapes, Inside, Matched, ValidType, AnswerNamed, RefNames, DescribedAll, CountedAll;
    DescribeReads(m, isStatic, MAX_PARAMETERS);
    ParametersFit(m, isStatic);
    InsideMore(plan.parameters, |Receiver(isStatic)| + SlotsOfAll(m.parameters), |locals|);
    PrologueFits(argument, plan.parameters, plan.guard, locals);
    FollowHigher(PrologueShapes(argument, plan.parameters, plan.guard), Work(locals, []), 1 + Widths(plan.parameters),
                 Pushed(plan.parameters, plan.kind));
  }

  lemma InsideMore(ps: seq<Parameter>, a: nat, b: nat)
    requires Inside(ps, a) && a <= b
    ensures Inside(ps, b)
  {
  }

  lemma ApplyHigher(shape: Shape, w: Work, a: nat, b: nat)
    requires Apply(shape, w, a).Some? && a <= b
    ensures Apply(shape, w, b) == Apply(shape, w, a)
  {
  }

  /** More room does no harm. */
  lemma {:induction false} FollowHigher(shapes: seq<Shape>, w: Work, a: nat, b: nat)
    requires Follow(shapes, w, a).Some? && a <= b
    ensures Follow(shapes, w, b) == Follow(shapes, w, a)
    decreases |shapes|
  {
    hide Apply;
    if shapes != [] {
      ApplyHigher(shapes[0], w, a, b);
      FollowHigher(shapes[1..], Apply(shapes[0], w, a).value, a, b);
    }
  }

  // ----- by types -----

  function ResultDescriptor(m: MethodType): string {
    if m.result == [] then "V" else Render(m.result[0])
  }

  lemma FoundBefore(s: string, c: char, i: nat, k: nat)
    requires i <= k < |s| && s[k] == c && forall j :: i <= j < k ==> s[j] != c
    ensures Find(s, c, i) == k
  {
  }

  /** The result is read behind the first closing parenthesis, which ends the
      parameters if and only if none of them names a class with one in its name. */
  lemma ResultIsRead(m: MethodType)
    requires ValidMethod(m)
    ensures ResultText(RenderMethod(m)) == ResultDescriptor(m) <==> ')' !in RenderAll(m.parameters)
  {
    var s, all := RenderMethod(m), RenderAll(m.parameters);
    assert s == ['('] + all + [')'] + ResultDescriptor(m);
    hide RenderAll, RenderMethod, ResultDescriptor;
    if ')' !in all {
      FoundBefore(s, ')', 0, 1 + |all|);
      assert s[|all| + 2..] == ResultDescriptor(m);
    } else {
      var k :| 0 <= k < |all| && all[k] == ')';
      assert s[1 + k] == ')';
      assert Find(s, ')', 0) <= 1 + k;
      assert |ResultText(s)| > |ResultDescriptor(m)|;
    }
  }

  /** One that does: the method is taken to return a b, and the guard's return is one
      of an int. */
  lemma ParenthesisInName()
    ensures RenderMethod(MethodType([Reference("a)b")], [])) == "(La)b;)V" && ResultText("(La)b;)V") == "b;)V"
    ensures ReturnOpcode('b') == 172
  {
    assert [Reference("a)b")][1..] == [];
    assert RenderAll([Reference("a)b")]) == "La)b;";
    FoundBefore("(La)b;)V", ')', 0, 3);
  }

  /** A value callee is declared to take the id and to return the method's type, a
      reference as Object. */
  lemma AnswerDescriptorIs(t: FieldType)
    requires ValidType(t)
    ensures AnswerDescriptor(Render(t)[0]) == RenderMethod(AnswerType([t]))
  {
    var result := if t.Primitive? then t else Reference(OBJECT_NAME);
    AnswerTypeIs(t, result);
    hide RenderMethod, RenderAll, AnswerType;
    AnswerRendered(result);
    AnswerText(t, result);
  }

  lemma AnswerTypeIs(t: FieldType, result: FieldType)
    requires result == if t.Primitive? then t else Reference(OBJECT_NAME)
    ensures AnswerType([t]) == MethodType([Primitive('I')], [result])
  {
  }

  lemma AnswerText(t: FieldType, result: FieldType)
    requires ValidType(t) && result == if t.Primitive? then t else Reference(OBJECT_NAME)
    ensures AnswerDescriptor(Render(t)[0]) == "(I)" + Render(result)
  {
    KindOfOne(t);
    if t.Primitive? {
      LetterLength(t.letter);
      assert !IsReferenceKind(t.letter);
    } else {
      ObjectText();
      ObjectAnswer(Render(t)[0]);
      hide Render, AnswerDescriptor;
    }
  }

  lemma ObjectAnswer(kind: char)
    requires kind == 'L' || kind == '['
    ensures AnswerDescriptor(kind) == "(I)" + "Ljava/lang/Object;"
  {
    assert "(I)" + "Ljava/lang/Object;" == "(I)Ljava/lang/Object;";
  }

  lemma AnswerRendered(result: FieldType)
    ensures RenderMethod(MethodType([Primitive('I')], [result])) == "(I)" + Render(result)
  {
    IntParameter();
    hide Render, RenderAll;
  }

  /** And the cast is to the method's type: a class by its name, an array by its descriptor. */
  lemma CastNameIs(t: FieldType)
    requires ValidType(t) && !t.Primitive?
    ensures |Render(t)| >= 2
    ensures CastName(Render(t)) == match t case Reference(name) => name case _ => Render(t)
  {
    if t.Reference? {
      assert Render(t) == ['L'] + t.name + [';'];
    }
  }

  lemma PlannedKind(pool: Pool, owner: string, callee: string, valueCallee: Option<string>, m: MethodType, isStatic: bool, plan: Plan)
    requires ValidMethod(m) && ')' !in RenderAll(m.parameters)
    requires var result := ResultText(RenderMethod(m)); |result| >= 1 && (IsReferenceKind(result[0]) ==> |result| >= 2)
    requires Planned(pool, owner, callee, valueCallee, RenderMethod(m), isStatic, plan)
    ensures plan.kind == KindOfResult(m.result)
    ensures plan.answer.ASKED? ==> m.result != [] && (plan.answer.cast.Some? <==> !m.result[0].Primitive?)
  {
    hide Describe, RenderMethod, RenderAll, RefNames, ClassName, GuardType;
    ResultIsRead(m);
    if m.result != [] {
      KindOfOne(m.result[0]);
      assert [m.result[0]] == m.result;
    }
  }

  /** The planned nodes by their types: every instruction in front of the body finds
      operands of its types, from the entry state on, the guard and the callee are
      called with what their descriptors say, and what is returned is of the method's
      type. Asked of the method: no array of primitives among its parameters and no
      parenthesis in the names of their classes. */
  lemma PlanByType(pool: Pool, owner: string, callee: string, valueCallee: Option<string>, m: MethodType, isStatic: bool,
                   argument: int, plan: Plan, locals: seq<Option<JType>>)
    requires ValidMethod(m) && forall i :: 0 <= i < |m.parameters| ==> !PrimitiveArray(m.parameters[i])
    requires ')' !in RenderAll(m.parameters)
    requires var result := ResultText(RenderMethod(m)); |result| >= 1 && (IsReferenceKind(result[0]) ==> |result| >= 2)
    requires Planned(pool, owner, callee, valueCallee, RenderMethod(m), isStatic, plan)
    requires SlotTypes(EntryStack(m, isStatic)) <= locals && |locals| <= 0x100
    ensures Loadable(plan.parameters)
    ensures TypedAll(PrologueActions(argument, plan.parameters, plan.guard), locals, []) == Some([])
    ensures plan.kind == KindOfResult(m.result)
    ensures TypedAll(ValueActions(argument, m.result, plan.answer), locals, []) == Some([])
  {
    hide Describe, RenderMethod, RenderAll, PrimitiveArray, ValidType, AnswerNamed, RefNames, DescribedAll, CountedAll, TypedAll, SlotTypes, PrologueActions, ValueActions, KindOfResult;
    PlannedKind(pool, owner, callee, valueCallee, m, isStatic, plan);
    DescribeReads(m, isStatic, MAX_PARAMETERS);
    PrologueByType(m, isStatic, argument, plan.guard, locals);
    ValueByType(argument, m.result, plan.answer, locals);
  }
}
