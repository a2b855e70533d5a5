/** The flow equations of the constructor analysis: what each instruction passes
    on, to whom, and how facts from several paths merge. */
module InitFlow {
  import opened Bytes
  import opened Status
  import opened Instructions
  import opened Descriptors
  import opened ConstantPool
  import opened StackShapes
  import opened TraceWork
  import opened Simulation

  datatype Method = Method(cls: ClassInfo, code: seq<Instruction>, maxLocals: nat, maxStack: nat)

  /** A method the analysis is run on at all. */
  predicate Analysable(m: Method) {
    |m.code| > 0 && m.maxLocals > 0 && AllWellFormed(m.code)
  }

  // ----- merging -----

  predicate AboveAll(a: seq<Trace>, b: seq<Trace>) {
    |a| == |b| && forall i :: 0 <= i < |a| ==> a[i] == b[i] || a[i] == MIXED
  }

  /** a allows everything b allows, slot by slot. */
  predicate Above(a: Work, b: Work) {
    AboveAll(a.locals, b.locals) && AboveAll(a.stack, b.stack)
  }

  function JoinAll(a: seq<Trace>, b: seq<Trace>): (r: seq<Trace>)
    requires |a| == |b|
    ensures |r| == |a|
  {
    seq(|a|, i requires 0 <= i < |a| => Join(a[i], b[i]))
  }

  /** The first fact to arrive is taken; one of another stack depth is dropped. */
  function Merge(state: Option<Work>, w: Work): Option<Work>
    requires state.Some? ==> |state.value.locals| == |w.locals|
  {
    match state
    case None => Some(w)
    case Some(v) =>
      if |v.stack| != |w.stack| then state
      else Some(Work(JoinAll(v.locals, w.locals), JoinAll(v.stack, w.stack)))
  }

  // ----- initialising calls -----

  /** The argument slots of a call to this() or super(), if node is one. */
  function InitArguments(cls: ClassInfo, node: Instruction): Option<nat> {
    if node.opcode != 183 || !node.operand.CpIndex? then None
    else match At(cls.pool, node.operand.index)
         case Some(Ref(tag, classIndex, natIndex)) =>
           if tag != METHODREF || (classIndex != cls.thisClass && classIndex != cls.superClass) then None
           else (match At(cls.pool, natIndex)
                 case Some(NameAndType(n, d)) =>
                   if !TextIs(cls.pool, n, "<init>") then None
                   else (match TextAt(cls.pool, d)
                         case Some(text) =>
                           (match DescriptorSlots(text)
                            case Some(s) => Some(s.arguments)
                            case None => None)
                         case None => None)
                 case _ => None)
         case _ => None
  }

  function Receiver(arguments: nat, w: Work): Option<Trace> {
    if |w.stack| > arguments then Some(w.stack[|w.stack| - arguments - 1]) else None
  }

  /** The instruction initialises this on every path seen so far. */
  predicate Stops(m: Method, i: nat, w: Work)
    requires i < |m.code|
  {
    var arguments := InitArguments(m.cls, m.code[i]);
    arguments.Some? && Receiver(arguments.value, w) == Some(THIS)
  }

  function After(m: Method, i: nat): nat
    requires i < |m.code|
  {
    m.code[i].offset + LengthAt(m.code[i], m.code[i].offset)
  }

  // ----- control flow -----

  function IndexAt(code: seq<Instruction>, offset: int): seq<nat> {
    var i := if offset < 0 then -1 else FirstAt(code, offset, 0);
    if i < 0 then [] else [i]
  }

  function IndicesAt(code: seq<Instruction>, targets: seq<int>): seq<nat> {
    if targets == [] then []
    else IndicesAt(code, targets[..|targets| - 1]) + IndexAt(code, targets[|targets| - 1])
  }

  predicate FallsThrough(node: Instruction) {
    match node.operand
    case Branch(_) => node.opcode != GOTO && node.opcode != JSR
    case BranchWide(_) => node.opcode != GOTO_W && node.opcode != JSR_W
    case TableSwitch(_, _, _, _) => false
    case LookupSwitch(_, _) => false
    case _ => !IsTerminal(node.opcode)
  }

  /** The instructions facts are passed on to, in that order. */
  function Successors(code: seq<Instruction>, i: nat): seq<nat>
    requires i < |code|
  {
    IndicesAt(code, Targets(code[i].operand))
    + (if FallsThrough(code[i]) && i + 1 < |code| then [i + 1] else [])
  }

  lemma {:induction false} IndicesAreInside(code: seq<Instruction>, targets: seq<int>)
    ensures forall k :: 0 <= k < |IndicesAt(code, targets)| ==> IndicesAt(code, targets)[k] < |code|
  {
    if targets != [] {
      IndicesAreInside(code, targets[..|targets| - 1]);
    }
  }

  lemma SuccessorsAreInside(code: seq<Instruction>, i: nat)
    requires i < |code|
    ensures forall k :: 0 <= k < |Successors(code, i)| ==> Successors(code, i)[k] < |code|
  {
    IndicesAreInside(code, Targets(code[i].operand));
  }

  // ----- solutions -----

  type States = seq<Option<Work>>

  function Entry(m: Method): Work
    requires m.maxLocals > 0
  {
    Work([THIS] + Others(m.maxLocals - 1), [])
  }

  /** What instruction i passes on from w; nothing past an initialising call or
      an instruction whose effect cannot be followed. */
  function Flow(m: Method, i: nat, w: Work): Option<Work>
    requires i < |m.code|
  {
    if Stops(m, i, w) then None else Apply(NodeShape(m.cls, m.code[i]), w, m.maxStack)
  }

  predicate FitsMethod(m: Method, w: Work) {
    |w.locals| == m.maxLocals && |w.stack| <= m.maxStack
  }

  predicate StatesFit(m: Method, states: States) {
    |states| == |m.code| && forall i :: 0 <= i < |states| && states[i].Some? ==> FitsMethod(m, states[i].value)
  }

  /** state accounts for w wherever the depths agree. */
  predicate Accounts(state: Option<Work>, w: Work) {
    state.Some? && (|state.value.stack| == |w.stack| ==> Above(state.value, w))
  }

  /** All successors of i account for what i passes on. */
  predicate FlowsOn(m: Method, states: States, i: nat)
    requires |states| == |m.code| && i < |m.code|
  {
    states[i].Some? && Flow(m, i, states[i].value).Some? ==>
      forall j :: j in Successors(m.code, i) ==>
        j < |states| && Accounts(states[j], Flow(m, i, states[i].value).value)
  }

  /** A typing of the method, as a verifier or a StackMapTable gives it: one
      depth per instruction, closed under the flow, and no initialising call
      whose receiver may be this or something else. */
  predicate Certificate(m: Method, cert: States) {
    && m.maxLocals > 0 && |m.code| > 0
    && StatesFit(m, cert)
    && cert[0].Some? && Above(cert[0].value, Entry(m))
    && (forall i :: 0 <= i < |cert| ==> CertifiedAt(m, cert, i))
  }

  predicate CertifiedAt(m: Method, cert: States, i: nat)
    requires |cert| == |m.code| && i < |cert|
  {
    cert[i].Some? ==>
      && (InitArguments(m.cls, m.code[i]).Some? ==>
            Receiver(InitArguments(m.cls, m.code[i]).value, cert[i].value) != Some(MIXED))
      && (Flow(m, i, cert[i].value).Some? ==>
            forall j :: j in Successors(m.code, i) ==>
              j < |cert| && cert[j].Some? && Above(cert[j].value, Flow(m, i, cert[i].value).value))
  }

  predicate AllBelow(states: States, cert: States) {
    && |states| == |cert|
    && forall i :: 0 <= i < |states| && states[i].Some? ==> cert[i].Some? && Above(cert[i].value, states[i].value)
  }

  // ----- merging is a least upper bound -----

  lemma AboveTransitive(a: Work, b: Work, c: Work)
    requires Above(a, b) && Above(b, c)
    ensures Above(a, c)
  {
  }

  lemma MergeIsAbove(state: Option<Work>, w: Work)
    requires state.Some? ==> |state.value.locals| == |w.locals|
    ensures Merge(state, w).Some? && Accounts(Merge(state, w), w)
    ensures state.Some? ==> Above(Merge(state, w).value, state.value)
  {
  }

  lemma MergeIsBelow(state: Option<Work>, w: Work, bound: Work)
    requires state.Some? ==> |state.value.locals| == |w.locals| && Above(bound, state.value)
    requires Above(bound, w)
    ensures Above(bound, Merge(state, w).value)
  {
  }

  // ----- flow is monotone -----

  lemma AboveConcat(a: seq<Trace>, b: seq<Trace>, c: seq<Trace>, d: seq<Trace>)
    requires AboveAll(a, b) && AboveAll(c, d)
    ensures AboveAll(a + c, b + d)
  {
  }

  lemma AboveSlice(a: seq<Trace>, b: seq<Trace>, lo: nat, hi: nat)
    requires AboveAll(a, b) && lo <= hi <= |a|
    ensures AboveAll(a[lo..hi], b[lo..hi])
  {
  }

  lemma AboveSame(a: seq<Trace>)
    ensures AboveAll(a, a)
  {
  }

  lemma ApplyMonotone(shape: Shape, a: Work, b: Work, maxStack: nat)
    requires Above(a, b)
    ensures Apply(shape, a, maxStack).Some? <==> Apply(shape, b, maxStack).Some?
    ensures Apply(shape, b, maxStack).Some? ==> Above(Apply(shape, a, maxStack).value, Apply(shape, b, maxStack).value)
  {
    if Apply(shape, b, maxStack).Some? {
      match shape
      case KEEP =>
      case REPLACE(pops, pushes) => ReplaceMonotone(shape, a, b, maxStack);
      case LOAD(index, width, reference) => LoadMonotone(shape, a, b, maxStack);
      case STORE(index, width, reference) => StoreMonotone(shape, a, b, maxStack);
      case DUPLICATE(copied, below) => DuplicateMonotone(shape, a, b, maxStack);
      case EXCHANGE => ExchangeMonotone(a, b, maxStack);
      case PEEK =>
    }
  }

  lemma ReplaceMonotone(shape: Shape, a: Work, b: Work, maxStack: nat)
    requires shape.REPLACE? && Above(a, b) && Apply(shape, b, maxStack).Some?
    ensures Apply(shape, a, maxStack).Some? && Above(Apply(shape, a, maxStack).value, Apply(shape, b, maxStack).value)
  {
    hide AboveAll;
    AboveSizes(a, b);
    var k, more := |a.stack| - shape.pops, Others(shape.pushes);
    AboveSlice(a.stack, b.stack, 0, k);
    AboveSame(more);
    AboveConcat(a.stack[..k], b.stack[..k], more, more);
  }

  lemma DuplicateMonotone(shape: Shape, a: Work, b: Work, maxStack: nat)
    requires shape.DUPLICATE? && Above(a, b) && Apply(shape, b, maxStack).Some?
    ensures Apply(shape, a, maxStack).Some? && Above(Apply(shape, a, maxStack).value, Apply(shape, b, maxStack).value)
  {
    hide AboveAll;
    AboveSizes(a, b);
    var n := |a.stack|;
    var from, top := n - shape.copied - shape.below, n - shape.copied;
    AboveSlice(a.stack, b.stack, 0, from);
    AboveTail(a.stack, b.stack, top);
    AboveTail(a.stack, b.stack, from);
    AboveConcat(a.stack[..from], b.stack[..from], a.stack[top..], b.stack[top..]);
    AboveConcat(a.stack[..from] + a.stack[top..], b.stack[..from] + b.stack[top..], a.stack[from..], b.stack[from..]);
  }

  lemma ExchangeMonotone(a: Work, b: Work, maxStack: nat)
    requires Above(a, b) && Apply(EXCHANGE, b, maxStack).Some?
    ensures Apply(EXCHANGE, a, maxStack).Some? && Above(Apply(EXCHANGE, a, maxStack).value, Apply(EXCHANGE, b, maxStack).value)
  {
    var n := |a.stack|;
    AboveSlice(a.stack, b.stack, 0, n - 2);
    var x, y := [a.stack[n - 1], a.stack[n - 2]], [b.stack[n - 1], b.stack[n - 2]];
    assert AboveAll(x, y);
    hide AboveAll;
    AboveConcat(a.stack[..n - 2], b.stack[..n - 2], x, y);
  }

  lemma AboveTail(a: seq<Trace>, b: seq<Trace>, lo: nat)
    requires AboveAll(a, b) && lo <= |a|
    ensures AboveAll(a[lo..], b[lo..])
  {
  }

  lemma AboveSizes(a: Work, b: Work)
    requires Above(a, b)
    ensures |a.locals| == |b.locals| && |a.stack| == |b.stack|
  {
  }

  lemma LoadMonotone(shape: Shape, a: Work, b: Work, maxStack: nat)
    requires shape.LOAD? && Above(a, b) && Apply(shape, b, maxStack).Some?
    ensures Apply(shape, a, maxStack).Some? && Above(Apply(shape, a, maxStack).value, Apply(shape, b, maxStack).value)
  {
    if shape.reference {
      AboveConcat(a.stack, b.stack, [a.locals[shape.index]], [b.locals[shape.index]]);
    } else {
      AboveConcat(a.stack, b.stack, Others(shape.width), Others(shape.width));
    }
  }

  lemma StoreMonotone(shape: Shape, a: Work, b: Work, maxStack: nat)
    requires shape.STORE? && Above(a, b) && Apply(shape, b, maxStack).Some?
    ensures Apply(shape, a, maxStack).Some? && Above(Apply(shape, a, maxStack).value, Apply(shape, b, maxStack).value)
  {
    var n, i, w := |a.stack|, shape.index, shape.width;
    var x := if shape.reference then a.stack[n - 1] else OTHER;
    var y := if shape.reference then b.stack[n - 1] else OTHER;
    var xs, ys := seq(w, k => x), seq(w, k => y);
    assert AboveAll(xs, ys);
    AboveSlice(a.stack, b.stack, 0, n - w);
    AboveSlice(a.locals, b.locals, 0, i);
    AboveSlice(a.locals, b.locals, i + w, |a.locals|);
    hide AboveAll;
    AboveConcat(a.locals[..i], b.locals[..i], xs, ys);
    AboveConcat(a.locals[..i] + xs, b.locals[..i] + ys, a.locals[i + w..], b.locals[i + w..]);
  }

  /** A larger fact stops less often, since only this alone stops. */
  lemma FlowMonotone(m: Method, i: nat, a: Work, b: Work)
    requires i < |m.code| && Above(a, b) && Flow(m, i, b).Some?
    ensures Flow(m, i, a).Some? && Above(Flow(m, i, a).value, Flow(m, i, b).value)
  {
    hide Apply, InitArguments, NodeShape;
    ApplyMonotone(NodeShape(m.cls, m.code[i]), a, b, m.maxStack);
  }

  lemma FlowFits(m: Method, i: nat, w: Work)
    requires i < |m.code| && FitsMethod(m, w) && Flow(m, i, w).Some?
    ensures FitsMethod(m, Flow(m, i, w).value)
  {
    hide InitArguments, NodeShape;
  }
}
