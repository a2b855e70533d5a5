/** What the constructor analysis means: runs of the constructor over real
    values, counted in the slots the JVM reserves, against what was reported. */
module ConstructorSoundness {
  import opened Bytes
  import opened Status
  import opened Instructions
  import opened Descriptors
  import opened ConstantPool
  import opened StackShapes
  import opened OpcodeTypes
  import opened OpcodeAgreement
  import opened TraceWork
  import opened Simulation
  import opened InitFlow
  import opened ConstructorInit

  // ----- runs -----

  /** This is the object under construction, before it is initialised. */
  datatype Value = This | Other(id: int)

  datatype Frame = Frame(locals: seq<Value>, stack: seq<Value>)

  datatype Point = Point(at: nat, frame: Frame)

  predicate Computed(values: seq<Value>) {
    forall k :: 0 <= k < |values| ==> values[k].Other?
  }

  /** The slots hold values of the types, of which only a reference can be This. */
  predicate Holds(values: seq<Value>, types: seq<JType>) {
    if types == [] then values == []
    else
      var last := types[|types| - 1];
      var below := |values| - Words(last);
      && below >= 0 && (last != REFERENCE ==> Computed(values[below..]))
      && Holds(values[..below], types[..|types| - 1])
  }

  /** What an instruction does to a frame: before it is initialised This can be
      moved and copied, but nothing can compute it. */
  predicate Acts(action: Action, f: Frame, g: Frame) {
    var n := |f.stack|;
    match action
    case Computes(operands, results) =>
      var below := n - WordsOfAll(operands);
      && below >= 0 && Holds(f.stack[below..], operands) && g.locals == f.locals
      && |g.stack| == below + WordsOfAll(results)
      && g.stack[..below] == f.stack[..below] && Computed(g.stack[below..])
    case LoadsLocal(t, index) =>
      && index + Words(t) <= |f.locals| && Holds(f.locals[index..index + Words(t)], [t])
      && g.locals == f.locals && g.stack == f.stack + f.locals[index..index + Words(t)]
    case StoresLocal(t, index) =>
      var below := n - Words(t);
      && index + Words(t) <= |f.locals| && below >= 0 && Holds(f.stack[below..], [t])
      && g.stack == f.stack[..below]
      && g.locals == f.locals[..index] + f.stack[below..] + f.locals[index + Words(t)..]
    case Increments(index) =>
      && g.stack == f.stack && index < |f.locals| == |g.locals| && f.locals[index].Other? && g.locals[index].Other?
      && forall k :: 0 <= k < |f.locals| && k != index ==> g.locals[k] == f.locals[k]
    case Rearranges(takes, order) =>
      && takes <= n && g.locals == f.locals
      && |g.stack| == n - takes + |order| && g.stack[..n - takes] == f.stack[..n - takes]
      && forall k :: 0 <= k < |order| ==> order[k] < takes && g.stack[n - takes + k] == f.stack[n - takes + order[k]]
    case NoMeaning => false
  }

  predicate NamesMember(opcode: u1) { 178 <= opcode <= 186 }

  /** What an instruction does, by its opcode and the descriptor of the member it
      names, if it names one. */
  ghost predicate ActionOf(m: Method, i: nat, action: Action)
    requires i < |m.code|
  {
    var node := m.code[i];
    if !NamesMember(node.opcode) then Does(node, action)
    else
      var text := MemberDescriptor(m.cls.pool, MemberIndex(node));
      && text.Some?
      && if node.opcode < 182
         then exists t :: ValidType(t) && text.value == Render(t) && action == FieldAction(node.opcode, t)
         else exists t :: ValidMethod(t) && text.value == RenderMethod(t) && action == CallAction(node.opcode, t)
  }

  /** Normal flow: to a target of the instruction or past it. */
  predicate Next(code: seq<Instruction>, i: nat, j: nat) {
    && i < |code| && j < |code|
    && ((j == i + 1 && Continues(code[i].opcode)) || code[j].offset in Targets(code[i].operand))
  }

  /** Neither a goto, jsr or ret, nor a switch, nor the end of the method. */
  predicate Continues(opcode: u1) {
    !(167 <= opcode <= 177 || opcode == 191 || opcode == 200 || opcode == 201)
  }

  predicate OwnClass(cls: ClassInfo, classIndex: int) {
    var name := ClassName(cls.pool, classIndex);
    name.Some? && (name == ClassName(cls.pool, cls.thisClass) || name == ClassName(cls.pool, cls.superClass))
  }

  /** The instruction calls a constructor of the class or its superclass, taking
      the given argument slots. */
  ghost predicate CallsInit(cls: ClassInfo, node: Instruction, arguments: nat) {
    && node.opcode == 183 && node.operand.CpIndex?
    && var ref := At(cls.pool, node.operand.index);
    && ref.Some? && ref.value.Ref? && ref.value.tag == METHODREF && OwnClass(cls, ref.value.classIndex)
    && exists t :: ValidMethod(t) && arguments == SlotsOfAll(t.parameters)
                   && MemberAt(cls.pool, ref.value.natIndex) == Some(Member("<init>", RenderMethod(t)))
  }

  ghost predicate Initialises(m: Method, p: Point) {
    p.at < |m.code| && exists arguments: nat ::
      && CallsInit(m.cls, m.code[p.at], arguments) && arguments < |p.frame.stack|
      && p.frame.stack[|p.frame.stack| - arguments - 1] == This
  }

  ghost predicate Moved(m: Method, p: Point, q: Point) {
    && Next(m.code, p.at, q.at) && |q.frame.stack| <= m.maxStack
    && exists action :: ActionOf(m, p.at, action) && Acts(action, p.frame, q.frame)
  }

  predicate Enters(m: Method, p: Point) {
    && p.at == 0 && p.frame.stack == [] && |p.frame.locals| == m.maxLocals > 0
    && p.frame.locals[0] == This && Computed(p.frame.locals[1..])
  }

  /** A run by normal flow from the entry, none of whose points but perhaps the
      last initialises this. */
  ghost predicate UninitialisedRun(m: Method, run: seq<Point>)
    decreases |run|
  {
    && run != []
    && if |run| == 1 then Enters(m, run[0])
       else var before := run[..|run| - 1];
            && UninitialisedRun(m, before)
            && !Initialises(m, before[|before| - 1])
            && Moved(m, before[|before| - 1], run[|run| - 1])
  }

  // ----- what is asked of the class -----

  predicate NoWideArrays(types: seq<FieldType>) {
    forall k :: 0 <= k < |types| ==> !WideArray(types[k])
  }

  /** A valid descriptor, of at most 255 argument slots and without arrays of
      long or double (those are counted wrongly). */
  ghost predicate FitDescriptor(opcode: u1, text: string) {
    if opcode < 182
    then forall t :: ValidType(t) && text == Render(t) ==> !WideArray(t)
    else && (exists t :: ValidMethod(t) && text == RenderMethod(t))
         && (forall t :: ValidMethod(t) && text == RenderMethod(t) ==>
               NoWideArrays(t.parameters) && NoWideArrays(t.result) && SlotsOfAll(t.parameters) <= 255)
  }

  ghost predicate FitDescriptors(m: Method) {
    forall i :: 0 <= i < |m.code| && NamesMember(m.code[i].opcode) ==> FitDescriptorAt(m, i)
  }

  ghost predicate FitDescriptorAt(m: Method, i: nat)
    requires i < |m.code|
  {
    var text := MemberDescriptor(m.cls.pool, MemberIndex(m.code[i]));
    text.Some? ==> FitDescriptor(m.code[i].opcode, text.value)
  }

  /** The class and its superclass are named by one pool entry each, so that the
      analysis may compare indices. */
  predicate OwnNamesOnce(cls: ClassInfo) {
    && ClassName(cls.pool, cls.thisClass).Some? && ClassName(cls.pool, cls.superClass).Some?
    && forall c: u2 :: OwnClass(cls, c) ==> c == cls.thisClass || c == cls.superClass
  }

  ghost predicate Fit(m: Method) {
    && Analysable(m) && LaidOut(m.code, OffsetOf(m.code, |m.code|))
    && FitDescriptors(m) && OwnNamesOnce(m.cls)
  }

  // ----- a frame and the facts about it -----

  function Traced(values: seq<Value>): (r: seq<Trace>)
    ensures |r| == |values|
  {
    seq(|values|, k requires 0 <= k < |values| => if values[k].This? then THIS else OTHER)
  }

  function Facts(f: Frame): Work {
    Work(Traced(f.locals), Traced(f.stack))
  }

  lemma ComputedIsOther(values: seq<Value>)
    requires Computed(values)
    ensures Traced(values) == Others(|values|)
  {
  }

  lemma TracedConcat(a: seq<Value>, b: seq<Value>)
    ensures Traced(a + b) == Traced(a) + Traced(b)
  {
  }

  lemma TracedSlice(a: seq<Value>, lo: nat, hi: nat)
    requires lo <= hi <= |a|
    ensures Traced(a[lo..hi]) == Traced(a)[lo..hi]
  {
  }

  lemma SplitStack(s: seq<Value>, k: nat)
    requires k <= |s|
    ensures Traced(s) == Traced(s[..k]) + Traced(s[k..])
  {
    assert s == s[..k] + s[k..];
    TracedConcat(s[..k], s[k..]);
  }

  // ----- an effect in slots -----

  /** The same slots hold This; the others may have been computed anew. */
  predicate SamePlaces(a: seq<Value>, b: seq<Value>) {
    |a| == |b| && forall k :: 0 <= k < |a| ==> (a[k].This? <==> b[k].This?)
  }

  predicate Moves(shape: Shape, f: Frame, g: Frame) {
    var n := |f.stack|;
    match shape
    case KEEP => SamePlaces(f.locals, g.locals) && SamePlaces(f.stack, g.stack)
    case REPLACE(pops, pushes) =>
      && pops <= n && |g.stack| == n - pops + pushes && g.locals == f.locals
      && g.stack[..n - pops] == f.stack[..n - pops] && Computed(g.stack[n - pops..])
    case LOAD(index, width, reference) =>
      && index + width <= |f.locals| && index < |f.locals| && g.locals == f.locals
      && if reference then g.stack == f.stack + [f.locals[index]]
         else |g.stack| == n + width && g.stack[..n] == f.stack && Computed(g.stack[n..])
    case STORE(index, width, reference) =>
      && index + width <= |f.locals| && 0 < width <= n && g.stack == f.stack[..n - width]
      && |g.locals| == |f.locals|
      && g.locals[..index] == f.locals[..index] && g.locals[index + width..] == f.locals[index + width..]
      && forall k :: index <= k < index + width ==> if reference then g.locals[k] == f.stack[n - 1] else g.locals[k].Other?
    case DUPLICATE(copied, below) =>
      && copied + below <= n && g.locals == f.locals
      && g.stack == f.stack[..n - copied - below] + f.stack[n - copied..] + f.stack[n - copied - below..]
    case EXCHANGE =>
      n >= 2 && g.locals == f.locals && g.stack == f.stack[..n - 2] + [f.stack[n - 1], f.stack[n - 2]]
    case PEEK => n > 0 && g == f
    case UNKNOWN => false
  }

  lemma {:induction false} HeldIsComputed(values: seq<Value>, types: seq<JType>)
    requires Holds(values, types) && NoReference(types)
    ensures Computed(values)
    decreases |types|
  {
    if types != [] {
      var n := |types| - 1;
      var below := |values| - Words(types[n]);
      assert types[n] in types && forall t :: t in types[..n] ==> t in types;
      HeldIsComputed(values[..below], types[..n]);
      assert values == values[..below] + values[below..];
    }
  }

  lemma HoldsOne(values: seq<Value>, t: JType)
    requires Holds(values, [t])
    ensures |values| == Words(t) && (t != REFERENCE ==> Computed(values))
  {
    assert [t][..0] == [];
    assert values[0..] == values;
  }

  lemma ComputingMoves(shape: Shape, action: Action, f: Frame, g: Frame)
    requires action.Computes? && Agrees(shape, action) && Acts(action, f, g)
    ensures Moves(shape, f, g)
  {
    hide Holds;
    if shape == KEEP {
      var below := |f.stack| - WordsOfAll(action.operands);
      HeldIsComputed(f.stack[below..], action.operands);
      assert forall k :: below <= k < |f.stack| ==> f.stack[k] == f.stack[below..][k - below];
      assert forall k :: below <= k < |g.stack| ==> g.stack[k] == g.stack[below..][k - below];
      assert forall k :: 0 <= k < below ==> f.stack[k] == f.stack[..below][k] == g.stack[..below][k] == g.stack[k];
    }
  }

  lemma LocalsMove(shape: Shape, action: Action, f: Frame, g: Frame)
    requires (action.LoadsLocal? || action.StoresLocal? || action.Increments?) && Agrees(shape, action) && Acts(action, f, g)
    ensures Moves(shape, f, g)
  {
    hide Holds;
    match action
    case LoadsLocal(t, index) =>
      var values := f.locals[index..index + Words(t)];
      HoldsOne(values, t);
      assert g.stack[|f.stack|..] == values;
    case StoresLocal(t, index) =>
      var values := f.stack[|f.stack| - Words(t)..];
      HoldsOne(values, t);
      assert forall k :: index <= k < index + Words(t) ==> g.locals[k] == values[k - index];
    case Increments(index) =>
  }

  lemma RearrangedSlot(takes: nat, order: seq<nat>, f: Frame, g: Frame, k: nat)
    requires Acts(Rearranges(takes, order), f, g) && k < |g.stack|
    ensures var base := |f.stack| - takes;
      0 <= base && g.stack[k] == if k < base then f.stack[k] else f.stack[base + order[k - base]]
  {
    var base := |f.stack| - takes;
    if k < base {
      assert g.stack[k] == g.stack[..base][k];
    } else {
      assert g.stack[base + (k - base)] == f.stack[base + order[k - base]];
    }
  }

  lemma DuplicateMoves(copied: nat, below: nat, f: Frame, g: Frame)
    requires Acts(Rearranges(copied + below, Upward(below, copied) + Upward(0, copied + below)), f, g)
    ensures Moves(DUPLICATE(copied, below), f, g)
  {
    var takes, order := copied + below, Upward(below, copied) + Upward(0, copied + below);
    var base := |f.stack| - takes;
    var want := f.stack[..base] + f.stack[base + below..] + f.stack[base..];
    assert |g.stack| == |want|;
    forall k | 0 <= k < |want| ensures g.stack[k] == want[k] {
      RearrangedSlot(takes, order, f, g, k);
    }
  }

  lemma RearrangingMoves(shape: Shape, action: Action, f: Frame, g: Frame)
    requires action.Rearranges? && Agrees(shape, action) && Acts(action, f, g)
    ensures Moves(shape, f, g)
  {
    var n, takes, order := |f.stack|, action.takes, action.order;
    if shape.DUPLICATE? {
      hide Acts, Moves;
      DuplicateMoves(shape.copied, shape.below, f, g);
    } else if shape == EXCHANGE {
      RearrangedSlot(takes, order, f, g, n - 1);
      RearrangedSlot(takes, order, f, g, n - 2);
    } else if shape == PEEK {
      RearrangedSlot(takes, order, f, g, n - 1);
      assert g.stack == f.stack;
    }
  }

  /** A slot effect that agrees with an action covers whatever the action does. */
  lemma ActionMoves(shape: Shape, action: Action, f: Frame, g: Frame)
    requires Agrees(shape, action) && Acts(action, f, g)
    ensures Moves(shape, f, g)
  {
    hide Agrees, Moves;
    if action.Computes? {
      ComputingMoves(shape, action, f, g);
    } else if action.Rearranges? {
      RearrangingMoves(shape, action, f, g);
    } else {
      LocalsMove(shape, action, f, g);
    }
  }

  /** The facts about the frame after an instruction are what the analysis
      computes from the facts before it. */
  lemma MovesAreFollowed(shape: Shape, f: Frame, g: Frame, maxStack: nat)
    requires Moves(shape, f, g) && |g.stack| <= maxStack
    ensures Apply(shape, Facts(f), maxStack) == Some(Facts(g))
  {
    hide Traced;
    var n := |f.stack|;
    match shape
    case KEEP => SamePlacesSameFacts(f.locals, g.locals); SamePlacesSameFacts(f.stack, g.stack);
    case REPLACE(pops, pushes) =>
      SplitStack(g.stack, n - pops);
      TracedSlice(f.stack, 0, n - pops);
      ComputedIsOther(g.stack[n - pops..]);
      assert Traced(g.stack) == Traced(f.stack)[..n - pops] + Others(pushes);
    case LOAD(index, width, reference) => LoadIsFollowed(shape, f, g, maxStack);
    case STORE(index, width, reference) => StoreIsFollowed(shape, f, g, maxStack);
    case DUPLICATE(copied, below) => DuplicateIsFollowed(shape, f, g, maxStack);
    case EXCHANGE => ExchangeIsFollowed(f, g, maxStack);
    case PEEK =>
  }

  lemma SamePlacesSameFacts(a: seq<Value>, b: seq<Value>)
    requires SamePlaces(a, b)
    ensures Traced(a) == Traced(b)
  {
  }

  lemma LoadIsFollowed(shape: Shape, f: Frame, g: Frame, maxStack: nat)
    requires shape.LOAD? && Moves(shape, f, g) && |g.stack| <= maxStack
    ensures Apply(shape, Facts(f), maxStack) == Some(Facts(g))
  {
    if shape.reference {
      TracedConcat(f.stack, [f.locals[shape.index]]);
      assert Traced(g.stack) == Traced(f.stack) + [Traced(f.locals)[shape.index]];
    } else {
      SplitStack(g.stack, |f.stack|);
      ComputedIsOther(g.stack[|f.stack|..]);
      assert Traced(g.stack) == Traced(f.stack) + Others(shape.width);
    }
  }

  lemma StoreIsFollowed(shape: Shape, f: Frame, g: Frame, maxStack: nat)
    requires shape.STORE? && Moves(shape, f, g) && |g.stack| <= maxStack
    ensures Apply(shape, Facts(f), maxStack) == Some(Facts(g))
  {
    var i, w, n := shape.index, shape.width, |f.stack|;
    TracedSlice(f.stack, 0, n - w);
    SplitStack(g.locals, i + w);
    SplitStack(g.locals[..i + w], i);
    assert g.locals[..i + w][..i] == g.locals[..i];
    TracedSlice(f.locals, 0, i);
    TracedTail(f.locals, i + w);
    var value := if shape.reference then Traced(f.stack)[n - 1] else OTHER;
    assert Traced(g.locals) == Traced(f.locals)[..i] + seq(w, k => value) + Traced(f.locals)[i + w..];
    assert Traced(g.stack) == Traced(f.stack)[..n - w];
  }

  lemma TracedTail(a: seq<Value>, k: nat)
    requires k <= |a|
    ensures Traced(a[k..]) == Traced(a)[k..]
  {
  }

  lemma DuplicateIsFollowed(shape: Shape, f: Frame, g: Frame, maxStack: nat)
    requires shape.DUPLICATE? && Moves(shape, f, g) && |g.stack| <= maxStack
    ensures Apply(shape, Facts(f), maxStack) == Some(Facts(g))
  {
    hide Traced;
    var n := |f.stack|;
    var lo, hi := n - shape.copied - shape.below, n - shape.copied;
    TracedConcat(f.stack[..lo] + f.stack[hi..], f.stack[lo..]);
    TracedConcat(f.stack[..lo], f.stack[hi..]);
    TracedSlice(f.stack, 0, lo);
    TracedTail(f.stack, hi);
    TracedTail(f.stack, lo);
  }

  lemma ExchangeIsFollowed(f: Frame, g: Frame, maxStack: nat)
    requires Moves(EXCHANGE, f, g) && |g.stack| <= maxStack
    ensures Apply(EXCHANGE, Facts(f), maxStack) == Some(Facts(g))
  {
    var n := |f.stack|;
    TracedConcat(f.stack[..n - 2], [f.stack[n - 1], f.stack[n - 2]]);
    TracedSlice(f.stack, 0, n - 2);
    var s := Traced(f.stack);
    assert Traced(g.stack) == s[..n - 2] + [s[n - 1], s[n - 2]];
  }

  // ----- the analysis sees every run -----

  function MethodSlots(t: MethodType): SlotCount {
    SlotCount(SlotsOfAll(t.parameters), if t.result == [] then 0 else Slots(t.result[0]))
  }

  lemma FitMethodIsCounted(t: MethodType)
    requires ValidMethod(t) && NoWideArrays(t.parameters) && NoWideArrays(t.result) && SlotsOfAll(t.parameters) <= 255
    ensures DescriptorSlots(RenderMethod(t)) == Some(MethodSlots(t))
  {
    hide DescriptorSlots, RenderMethod, WideArray, SlotsOfAll, CountedAll;
    CountedMany(t.parameters);
    SlotsExact(t);
  }

  lemma OthersNameNoMember(node: Instruction, slots: Option<SlotCount>)
    requires !NamesMember(node.opcode)
    ensures ShapeOf(node, slots) == ShapeOf(node, None)
  {
    hide LoadShape, StoreShape, ArithmeticShape, ControlShape;
  }

  lemma FieldIsSeen(m: Method, i: nat, action: Action)
    requires i < |m.code| && FitDescriptors(m) && ActionOf(m, i, action) && 178 <= m.code[i].opcode < 182
    ensures Agrees(NodeShape(m.cls, m.code[i]), action)
  {
    hide ShapeOf, MemberDescriptor, DescriptorSlots, Render, Agrees, FieldAction, WideArray;
    var node := m.code[i];
    var text := MemberDescriptor(m.cls.pool, MemberIndex(node));
    var t :| ValidType(t) && text.value == Render(t) && action == FieldAction(node.opcode, t);
    assert FitDescriptorAt(m, i);
    FieldScan(t);
    CountedOne(t);
    FieldsAgree(node, t);
  }

  lemma CallIsSeen(m: Method, i: nat, action: Action)
    requires i < |m.code| && FitDescriptors(m) && ActionOf(m, i, action) && 182 <= m.code[i].opcode <= 186
    ensures Agrees(NodeShape(m.cls, m.code[i]), action)
  {
    hide ShapeOf, MemberDescriptor, DescriptorSlots, RenderMethod, Agrees, CallAction, WideArray, SlotsOfAll;
    var node := m.code[i];
    var text := MemberDescriptor(m.cls.pool, MemberIndex(node));
    var t :| ValidMethod(t) && text.value == RenderMethod(t) && action == CallAction(node.opcode, t);
    assert FitDescriptorAt(m, i);
    FitMethodIsCounted(t);
    CallsAgree(node, t);
  }

  /** The slot effect the analysis looks up is that of what the instruction does. */
  lemma ActionIsSeen(m: Method, i: nat, action: Action)
    requires i < |m.code| && FitDescriptors(m) && WellFormed(m.code[i]) && ActionOf(m, i, action)
    ensures Agrees(NodeShape(m.cls, m.code[i]), action)
  {
    hide ShapeOf, MemberDescriptor, DescriptorSlots, Does, FitDescriptors, Agrees, WellFormed;
    var node := m.code[i];
    if !NamesMember(node.opcode) {
      OpcodesAgree(node, action);
      OthersNameNoMember(node, MemberSlots(m.cls.pool, MemberIndex(node)));
    } else if node.opcode < 182 {
      FieldIsSeen(m, i, action);
    } else {
      CallIsSeen(m, i, action);
    }
  }

  /** The analysis recognises a call to a constructor as one, and counts its
      arguments right. */
  lemma InitCallsAreSeen(m: Method, i: nat, arguments: nat)
    requires i < |m.code| && FitDescriptors(m) && OwnNamesOnce(m.cls)
    ensures CallsInit(m.cls, m.code[i], arguments) <==> InitArguments(m.cls, m.code[i]) == Some(arguments)
  {
    hide At, TextAt, ClassName, RenderMethod, ValidMethod, DescriptorSlots, WideArray, SlotsOfAll;
    var node := m.code[i];
    if node.opcode == 183 && node.operand.CpIndex? {
      assert FitDescriptorAt(m, i);
      var ref := At(m.cls.pool, node.operand.index);
      if ref.Some? && ref.value.Ref? && MemberAt(m.cls.pool, ref.value.natIndex).Some? {
        var text := MemberAt(m.cls.pool, ref.value.natIndex).value.descriptor;
        assert MemberDescriptor(m.cls.pool, MemberIndex(node)) == Some(text);
        forall t | ValidMethod(t) && text == RenderMethod(t) ensures DescriptorSlots(text) == Some(MethodSlots(t)) {
          FitMethodIsCounted(t);
        }
      }
    }
  }

  lemma TargetIsFound(code: seq<Instruction>, targets: seq<int>, j: nat)
    requires AllWellFormed(code) && LaidOut(code, OffsetOf(code, |code|)) && j < |code| && code[j].offset in targets
    ensures j in IndicesAt(code, targets)
  {
    var last := targets[|targets| - 1];
    if last == code[j].offset {
      BoundaryLookup(code, OffsetOf(code, |code|), j);
      OffsetsIncrease(code, j, |code|);
    } else {
      TargetIsFound(code, targets[..|targets| - 1], j);
    }
  }

  lemma NextIsSuccessor(m: Method, i: nat, j: nat)
    requires Fit(m) && Next(m.code, i, j)
    ensures j in Successors(m.code, i)
  {
    hide FallsThrough, IndicesAt, FitDescriptors, OwnNamesOnce, WellFormed, LaidOut;
    if m.code[j].offset in Targets(m.code[i].operand) {
      TargetIsFound(m.code, Targets(m.code[i].operand), j);
    } else {
      FallingContinues(m.code[i]);
    }
  }

  lemma {:induction false} FoundIsTarget(code: seq<Instruction>, targets: seq<int>, j: nat)
    requires j in IndicesAt(code, targets)
    ensures j < |code| && code[j].offset in targets
    decreases |targets|
  {
    var n := |targets| - 1;
    if j in IndicesAt(code, targets[..n]) {
      FoundIsTarget(code, targets[..n], j);
    } else {
      assert j in IndexAt(code, targets[n]);
    }
  }

  lemma FallingContinues(node: Instruction)
    requires WellFormed(node)
    ensures FallsThrough(node) <==> Continues(node.opcode) || node.opcode == 169
  {
  }

  lemma ListedIsNext(m: Method, i: nat, j: nat)
    requires Fit(m) && i < |m.code| && j in Successors(m.code, i)
    ensures j < |m.code|
    ensures Next(m.code, i, j) || (m.code[i].opcode == 169 && j == i + 1)
  {
    CodeIsWellFormed(m, i);
    hide Fit, IndicesAt, FallsThrough, Continues, WellFormed, Targets;
    FallingContinues(m.code[i]);
    var targets := Targets(m.code[i].operand);
    if j in IndicesAt(m.code, targets) {
      FoundIsTarget(m.code, targets, j);
    }
  }

  lemma RetIsListed(m: Method, i: nat)
    requires Fit(m) && i + 1 < |m.code| && m.code[i].opcode == 169
    ensures i + 1 in Successors(m.code, i)
  {
    CodeIsWellFormed(m, i);
    hide Fit, IndicesAt, FallsThrough, Continues, WellFormed, Targets;
    FallingContinues(m.code[i]);
  }

  /** Facts are passed on along the normal flow and nowhere else; only behind a ret,
      which has no effect to pass on, is the next instruction listed all the same. */
  lemma SuccessorsAreNext(m: Method, i: nat, j: nat)
    requires Fit(m) && i < |m.code|
    ensures j in Successors(m.code, i) <==> Next(m.code, i, j) || (m.code[i].opcode == 169 && j == i + 1 < |m.code|)
  {
    hide Fit, Successors, Next;
    if Next(m.code, i, j) {
      NextIsSuccessor(m, i, j);
    }
    if j in Successors(m.code, i) {
      ListedIsNext(m, i, j);
    }
    if m.code[i].opcode == 169 && j == i + 1 < |m.code| {
      RetIsListed(m, i);
    }
  }

  /** The facts at p are covered by the states. */
  predicate Covered(m: Method, states: States, p: Point) {
    p.at < |states| && states[p.at].Some? && Above(states[p.at].value, Facts(p.frame))
  }

  lemma EntryIsCovered(m: Method, states: States, p: Point)
    requires Enters(m, p) && Started(m, states)
    ensures Covered(m, states, p)
  {
    ComputedIsOther(p.frame.locals[1..]);
    SplitStack(p.frame.locals, 1);
    assert Facts(p.frame) == Entry(m);
  }

  /** An uninitialised point where the analysis would stop is no such point. */
  lemma StopsMeansInitialises(m: Method, states: States, p: Point)
    requires Fit(m) && p.at < |m.code| && Covered(m, states, p) && Stops(m, p.at, states[p.at].value)
    ensures Initialises(m, p)
  {
    hide InitArguments, FitDescriptors, OwnNamesOnce, CallsInit, Analysable;
    var arguments := InitArguments(m.cls, m.code[p.at]).value;
    InitCallsAreSeen(m, p.at, arguments);
  }

  lemma CoveredReceiver(w: Work, cert: Work, f: Frame, arguments: nat)
    requires Above(w, Facts(f)) && Above(cert, w)
    requires arguments < |f.stack| && f.stack[|f.stack| - arguments - 1] == This
    requires Receiver(arguments, cert) != Some(MIXED)
    ensures Receiver(arguments, w) == Some(THIS)
  {
  }

  /** With a typing at hand, an initialising point is where the analysis stops. */
  lemma InitialisesMeansStops(m: Method, states: States, cert: States, p: Point)
    requires Fit(m) && p.at < |m.code| && Covered(m, states, p) && Initialises(m, p)
    requires Certificate(m, cert) && AllBelow(states, cert)
    ensures Stops(m, p.at, states[p.at].value)
  {
    hide InitArguments, FitDescriptors, OwnNamesOnce, CallsInit, Analysable, Flow, Entry, Above, Receiver, Facts, LaidOut, StatesFit;
    var arguments: nat :| CallsInit(m.cls, m.code[p.at], arguments) && arguments < |p.frame.stack|
      && p.frame.stack[|p.frame.stack| - arguments - 1] == This;
    InitCallsAreSeen(m, p.at, arguments);
    CertificateAt(m, cert, p.at);
    CoveredReceiver(states[p.at].value, cert[p.at].value, p.frame, arguments);
  }

  lemma CertificateAt(m: Method, cert: States, i: nat)
    requires Certificate(m, cert) && i < |m.code|
    ensures |cert| == |m.code| && CertifiedAt(m, cert, i)
  {
    hide CertifiedAt;
  }

  /** One move of an uninitialised run stays inside the states. */
  lemma MoveIsCovered(m: Method, states: States, cert: States, p: Point, q: Point, result: InitResult, offset: nat)
    requires Fit(m) && Solution(m, states, result, offset) && Certificate(m, cert) && AllBelow(states, cert)
    requires Covered(m, states, p) && !Initialises(m, p) && Moved(m, p, q)
    ensures Covered(m, states, q)
  {
    hide Fit, Initialises, Stops, ActionOf, Acts, Agrees, Moves, Next, Above, Apply, NodeShape, Successors, Facts, Least;
    var i, j := p.at, q.at;
    MoveIsInside(m, p, q);
    if Stops(m, i, states[i].value) {
      StopsMeansInitialises(m, states, p);
    }
    var action :| ActionOf(m, i, action) && Acts(action, p.frame, q.frame);
    FitParts(m);
    CodeIsWellFormed(m, i);
    ActionIsSeen(m, i, action);
    var shape := NodeShape(m.cls, m.code[i]);
    ActionMoves(shape, action, p.frame, q.frame);
    MovesAreFollowed(shape, p.frame, q.frame, m.maxStack);
    ApplyMonotone(shape, states[i].value, Facts(p.frame), m.maxStack);
    NextIsSuccessor(m, i, j);
    assert Settled(m, states, i, result != MISSING, result == AMBIGUOUS, offset);
    var out := Flow(m, i, states[i].value).value;
    FlowMonotone(m, i, cert[i].value, states[i].value);
    assert CertifiedAt(m, cert, i);
    AboveTransitive(cert[j].value, Flow(m, i, cert[i].value).value, out);
    AboveSizes(cert[j].value, out);
    AboveSizes(cert[j].value, states[j].value);
    AboveTransitive(states[j].value, out, Facts(q.frame));
  }

  lemma MoveIsInside(m: Method, p: Point, q: Point)
    requires Moved(m, p, q)
    ensures p.at < |m.code| && q.at < |m.code|
  {
  }

  lemma FitParts(m: Method)
    requires Fit(m)
    ensures FitDescriptors(m) && OwnNamesOnce(m.cls)
  {
  }

  lemma CodeIsWellFormed(m: Method, i: nat)
    requires Fit(m) && i < |m.code|
    ensures WellFormed(m.code[i])
  {
    hide WellFormed, LaidOut, FitDescriptors, OwnNamesOnce;
  }

  lemma {:induction false} RunIsCovered(m: Method, states: States, cert: States, run: seq<Point>, result: InitResult, offset: nat)
    requires Fit(m) && Solution(m, states, result, offset) && Certificate(m, cert) && AllBelow(states, cert)
    requires UninitialisedRun(m, run)
    ensures Covered(m, states, run[|run| - 1])
    decreases |run|
  {
    hide Fit, Solution, Certificate, AllBelow, Enters, Moved, Initialises, Covered;
    if |run| == 1 {
      SolutionStarts(m, states, result, offset);
      EntryIsCovered(m, states, run[0]);
    } else {
      var before := run[..|run| - 1];
      RunIsCovered(m, states, cert, before, result, offset);
      MoveIsCovered(m, states, cert, before[|before| - 1], run[|run| - 1], result, offset);
    }
  }

  lemma SolutionStarts(m: Method, states: States, result: InitResult, offset: nat)
    requires Solution(m, states, result, offset)
    ensures Started(m, states)
  {
  }

  /** FOUND: whatever run of the constructor is taken, its first initialising
      call on this ends at the reported offset. MISSING: no run has such a call.
      Asked of the method: that it can be typed with one stack depth per
      instruction and no initialising call on a slot that may or may not hold
      this, and that no descriptor holds an array of long or double. */
  lemma InitialisationPoint(m: Method, states: States, cert: States, run: seq<Point>, result: InitResult, offset: nat)
    requires Fit(m) && Solution(m, states, result, offset) && Certificate(m, cert)
    requires UninitialisedRun(m, run) && Initialises(m, run[|run| - 1])
    ensures result != MISSING
    ensures result == FOUND ==> offset == After(m, run[|run| - 1].at)
  {
    hide Fit, Stops, Certificate, Started, AllBelow, Moved, Enters;
    var p := run[|run| - 1];
    assert AllBelow(states, cert);
    RunIsCovered(m, states, cert, run, result, offset);
    InitialisesMeansStops(m, states, cert, p);
    assert Settled(m, states, p.at, result != MISSING, result == AMBIGUOUS, offset);
  }
}
