/** What a rebuild amounts to: every callback directly in front of the original
    instruction at its original offset. */
module Weaving {
  import opened Bytes
  import opened Status
  import opened Instructions
  import opened InstructionCodec
  import opened InstructionRoundTrip
  import opened References
  import opened AnnotationFlush
  import opened CodeEditor
  import opened Insertion
  import opened Simulation
  import opened Rebuild

  type MethodKey = (string, string)

  // ----- applying inserts -----

  /** One insert into one method body: splice, then store. The call needs one
      stack slot. A body that no longer encodes is refused. */
  function InsertCall(e: Editor, hook: InsertHook): Option<Editor> {
    var r := Insert(e, hook.offset, hook.block, 1, true);
    if r.status == OK && Encode(r.editor.code).Success? then Some(r.editor) else None
  }

  function InsertCalls(e: Editor, hooks: seq<InsertHook>): Option<Editor>
    decreases |hooks|
  {
    if hooks == [] then Some(e)
    else match InsertCall(e, hooks[0])
         case None => None
         case Some(next) => InsertCalls(next, hooks[1..])
  }

  /** The same over all methods of a class, in the order given. */
  function ApplyInserts(methods: map<MethodKey, Editor>, hooks: seq<InsertHook>): Option<map<MethodKey, Editor>>
    decreases |hooks|
  {
    if hooks == [] then Some(methods)
    else
      var key := (hooks[0].name, hooks[0].signature);
      if key !in methods then None
      else match InsertCall(methods[key], hooks[0])
           case None => None
           case Some(next) => ApplyInserts(methods[key := next], hooks[1..])
  }

  function ForMethod(hooks: seq<InsertHook>, key: MethodKey): seq<InsertHook> {
    if hooks == [] then []
    else (if (hooks[0].name, hooks[0].signature) == key then [hooks[0]] else []) + ForMethod(hooks[1..], key)
  }

  // ----- the woven body -----

  function Operations(code: seq<Instruction>): (r: seq<Instruction>)
    ensures |r| == |code|
  {
    seq(|code|, i requires 0 <= i < |code| => Operation(code[i]))
  }

  /** The callbacks for one offset, the last one listed first. */
  function CallsAt(hooks: seq<InsertHook>, offset: int): seq<Instruction> {
    if hooks == [] then []
    else CallsAt(hooks[1..], offset) + (if hooks[0].offset == offset then Operations(hooks[0].block) else [])
  }

  /** The body from instruction i on, each instruction behind its callbacks. */
  function Woven(code: seq<Instruction>, i: nat, hooks: seq<InsertHook>): seq<Instruction>
    requires i <= |code|
    decreases |code| - i
  {
    CallsAt(hooks, OffsetOf(code, i))
    + (if i == |code| then [] else [Operation(code[i])] + Woven(code, i + 1, hooks))
  }

  predicate Callback(block: seq<Instruction>) {
    block != [] && AllWellFormed(block) && Plain(block)
  }

  predicate Callbacks(hooks: seq<InsertHook>) {
    forall i :: 0 <= i < |hooks| ==> Callback(hooks[i].block)
  }

  predicate Descending(hooks: seq<InsertHook>) {
    forall i, j :: 0 <= i < j < |hooks| ==> hooks[i].offset >= hooks[j].offset
  }

  // ----- one insertion -----

  lemma EncodedIsLegal(code: seq<Instruction>, length: nat)
    requires AllWellFormed(code) && LaidOut(code, length) && Encode(code).Success?
    ensures length <= MAX_CODE_LENGTH
  {
    hide AllWellFormed, ListBytes;
    ListInPlace(code, 0, []);
  }

  /** A successful insert is a committed, legal insertion at the hook's offset. */
  lemma InsertCallCommits(e: Editor, hook: InsertHook)
    requires Consistent(e) && Callback(hook.block) && InsertCall(e, hook).Some?
    ensures var at := OffsetToIndex(e.code, e.codeLength, AsI4(hook.offset));
      && 0 <= at <= |e.code| && AsI4(hook.offset) == hook.offset
      && OffsetOf(e.code, at) == hook.offset
      && Insertable(e, at, hook.block)
      && InsertCall(e, hook).value.code == Committed(e, at, hook.block).code
      && BodyOf(InsertCall(e, hook).value) == BodyOf(Committed(e, at, hook.block))
      && Consistent(InsertCall(e, hook).value)
  {
    hide AllWellFormed, LaidOut, AllMap, Committed, FlushFrom, OffsetToIndex, OffsetOf, Encode, CodeMaps, Plain;
    var at := OffsetToIndex(e.code, e.codeLength, AsI4(hook.offset));
    assert at >= 0;
    FoundIsBoundary(e.code, e.codeLength, AsI4(hook.offset));
    CommittedCode(e, at, hook.block);
    var after := Committed(e, at, hook.block);
    EncodedIsLegal(after.code, after.codeLength);
    PlainMaps(hook.block);
    CommittedIsConsistent(e, at, hook.block);
    ConsistentIgnores(after, InsertCall(e, hook).value);
  }

  lemma PlainMaps(block: seq<Instruction>)
    requires Plain(block)
    ensures CodeMaps(SHIFT(0, 0), block)
  {
    forall k | 0 <= k < |block| ensures OperandMaps(SHIFT(0, 0), block[k].operand) {
      PlainIsKept(SHIFT(0, 0), block[k]);
    }
  }

  /** The operations are spliced, and every boundary at or below the insertion
      point stays where it was. */
  lemma InsertedOperations(e: Editor, at: nat, block: seq<Instruction>)
    requires Insertable(e, at, block)
    ensures var after := Committed(e, at, block);
      && Operations(after.code) == Operations(e.code)[..at] + Operations(block) + Operations(e.code)[at..]
      && forall i :: 0 <= i <= at ==> OffsetOf(after.code, i) == OffsetOf(e.code, i)
  {
    hide AllWellFormed, LaidOut, Consistent, Committed, MoveOf, Operation, MapNode, Relisted, Targets, OffsetOf, SameLength;
    var after := Committed(e, at, block);
    InsertableIsConsistent(e, at, block);
    WellFormedOf(e);
    CommittedCode(e, at, block);
    forall j | 0 <= j < |after.code|
      ensures Operations(after.code)[j]
           == (Operations(e.code)[..at] + Operations(block) + Operations(e.code)[at..])[j]
    {
      InsertedOperation(e, at, block, j);
    }
    forall k | 0 <= k < at ensures SameLength(after.code[k], e.code[k]) {
      CommittedNode(e, at, block, k);
      MappedIsWellFormed(MoveOf(e, at, block), e.code[k]);
      SameLengthIgnoresOffset(MapNode(MoveOf(e, at, block), e.code[k]), e.code[k], OffsetOf(after.code, k));
    }
    forall i | 0 <= i <= at ensures OffsetOf(after.code, i) == OffsetOf(e.code, i) {
      SameLengthSameOffsets(after.code, e.code, i);
    }
  }

  lemma WellFormedOf(e: Editor)
    requires Consistent(e)
    ensures AllWellFormed(e.code) && LaidOut(e.code, e.codeLength)
  {
  }

  lemma InsertedOperation(e: Editor, at: nat, block: seq<Instruction>, j: nat)
    requires Insertable(e, at, block) && j < |e.code| + |block|
    ensures var after := Committed(e, at, block);
      && |after.code| == |e.code| + |block|
      && Operation(after.code[j])
      == if j < at then Operation(e.code[j])
         else if j < at + |block| then Operation(block[j - at])
         else Operation(e.code[j - |block|])
  {
    hide AllWellFormed, LaidOut, Consistent, Committed, MoveOf, Operation, MapNode, Relisted, Targets, OffsetOf;
    InsertableIsConsistent(e, at, block);
    WellFormedOf(e);
    CommittedCode(e, at, block);
    var after := Committed(e, at, block);
    if at <= j < at + |block| {
      var node := block[j - at];
      CommittedBlock(e, at, block, j - at);
      PlainIsKept(SHIFT(at, |block|), node);
      PlainIsKept(TO_OFFSET(Relisted(e, at, block), after.codeLength), node);
      OperationIgnoresOffset(node, OffsetOf(after.code, j));
    } else {
      var i := if j < at then j else j - |block|;
      CommittedNode(e, at, block, i);
      OperationKept(MoveOf(e, at, block), e.code[i], OffsetOf(after.code, j));
    }
  }

  // ----- weaving -----

  lemma {:induction false} NoCallsAt(hooks: seq<InsertHook>, offset: int)
    requires forall i :: 0 <= i < |hooks| ==> hooks[i].offset != offset
    ensures CallsAt(hooks, offset) == []
  {
    if hooks != [] {
      NoCallsAt(hooks[1..], offset);
    }
  }

  /** Where no callback belongs any more, the woven body is the body. */
  lemma {:induction false} WovenTail(code: seq<Instruction>, i: nat, hooks: seq<InsertHook>)
    requires AllWellFormed(code) && i <= |code|
    requires forall k :: 0 <= k < |hooks| ==> hooks[k].offset < OffsetOf(code, i)
    ensures Woven(code, i, hooks) == Operations(code)[i..]
    decreases |code| - i
  {
    hide AllWellFormed, OffsetOf, Operation;
    NoCallsAt(hooks, OffsetOf(code, i));
    if i < |code| {
      OffsetsIncrease(code, i, i + 1);
      WovenTail(code, i + 1, hooks);
    }
  }

  /** Behind the boundary o only what was there follows. */
  lemma WovenAt(code: seq<Instruction>, i: nat, hooks: seq<InsertHook>)
    requires AllWellFormed(code) && i <= |code|
    requires forall k :: 0 <= k < |hooks| ==> hooks[k].offset <= OffsetOf(code, i)
    ensures Woven(code, i, hooks) == CallsAt(hooks, OffsetOf(code, i)) + Operations(code)[i..]
  {
    hide AllWellFormed, OffsetOf, Operation;
    if i < |code| {
      OffsetsIncrease(code, i, i + 1);
      WovenTail(code, i + 1, hooks);
    }
  }

  lemma WeaveBase(before: seq<Instruction>, after: seq<Instruction>, at: nat, hooks: seq<InsertHook>)
    requires AllWellFormed(before) && AllWellFormed(after) && at <= |before| && at <= |after|
    requires hooks != [] && Descending(hooks) && OffsetOf(before, at) == OffsetOf(after, at) == hooks[0].offset
    requires Operations(after)[at..] == Operations(hooks[0].block) + Operations(before)[at..]
    ensures Woven(after, at, hooks[1..]) == Woven(before, at, hooks)
  {
    hide AllWellFormed, OffsetOf, Operations, Woven;
    WovenAt(after, at, hooks[1..]);
    WovenAt(before, at, hooks);
  }

  lemma WeaveStep(before: seq<Instruction>, after: seq<Instruction>, i: nat, hooks: seq<InsertHook>)
    requires i < |before| && i < |after| && hooks != []
    requires OffsetOf(before, i) == OffsetOf(after, i) && hooks[0].offset != OffsetOf(before, i)
    requires Operation(after[i]) == Operation(before[i])
    requires Woven(after, i + 1, hooks[1..]) == Woven(before, i + 1, hooks)
    ensures Woven(after, i, hooks[1..]) == Woven(before, i, hooks)
  {
    hide OffsetOf, Operation, Operations;
    assert CallsAt(hooks, OffsetOf(before, i)) == CallsAt(hooks[1..], OffsetOf(before, i));
  }

  /** Inserting the last callback in offset order first, and weaving the others
      into the result, weaves them all into the original. */
  lemma {:induction false} WeaveOne(e: Editor, at: nat, hooks: seq<InsertHook>, i: nat)
    requires hooks != [] && Insertable(e, at, hooks[0].block) && Descending(hooks)
    requires OffsetOf(e.code, at) == hooks[0].offset && i <= at
    ensures i <= |Committed(e, at, hooks[0].block).code|
    ensures Woven(Committed(e, at, hooks[0].block).code, i, hooks[1..]) == Woven(e.code, i, hooks)
    decreases at - i
  {
    hide AllWellFormed, OffsetOf, Operation, Committed, Consistent, Woven, CallsAt, Operations;
    var block := hooks[0].block;
    var after := Committed(e, at, block);
    InsertedOperations(e, at, block);
    InsertableIsConsistent(e, at, block);
    WellFormedOf(e);
    CommittedCode(e, at, block);
    if i == at {
      assert Operations(after.code)[at..] == Operations(block) + Operations(e.code)[at..];
      WeaveBase(e.code, after.code, at, hooks);
    } else {
      OffsetsIncrease(e.code, i, at);
      InsertedOperation(e, at, block, i);
      WeaveOne(e, at, hooks, i + 1);
      WeaveStep(e.code, after.code, i, hooks);
    }
  }

  lemma {:induction false} WovenWithout(code: seq<Instruction>, i: nat)
    requires i <= |code|
    ensures Woven(code, i, []) == Operations(code)[i..]
    decreases |code| - i
  {
    hide Operation, OffsetOf;
    if i < |code| {
      WovenWithout(code, i + 1);
    }
  }

  /** Inserts applied in descending offset order weave every callback in front of
      the original instruction at its original offset. */
  lemma {:induction false} InsertsWeave(e: Editor, hooks: seq<InsertHook>)
    requires Consistent(e) && Callbacks(hooks) && Descending(hooks) && InsertCalls(e, hooks).Some?
    ensures Consistent(InsertCalls(e, hooks).value)
    ensures Operations(InsertCalls(e, hooks).value.code) == Woven(e.code, 0, hooks)
    decreases |hooks|
  {
    hide Consistent, InsertCall, Callback, Woven, Operations, OffsetOf, OffsetToIndex, Committed, Insertable, AsI4;
    if hooks == [] {
      WovenWithout(e.code, 0);
      assert Operations(e.code)[0..] == Operations(e.code);
    } else {
      assert Callback(hooks[0].block);
      InsertCallCommits(e, hooks[0]);
      var at := OffsetToIndex(e.code, e.codeLength, AsI4(hooks[0].offset));
      var next := InsertCall(e, hooks[0]).value;
      InsertsWeave(next, hooks[1..]);
      WeaveOne(e, at, hooks, 0);
    }
  }

  // ----- a whole class -----

  /** A method sees only its own inserts, in the order the class saw them. */
  lemma {:induction false} MethodsAreIndependent(methods: map<MethodKey, Editor>, hooks: seq<InsertHook>, key: MethodKey)
    requires key in methods && ApplyInserts(methods, hooks).Some?
    ensures ApplyInserts(methods, hooks).value.Keys == methods.Keys
    ensures InsertCalls(methods[key], ForMethod(hooks, key)) == Some(ApplyInserts(methods, hooks).value[key])
    decreases |hooks|
  {
    hide InsertCall;
    if hooks != [] {
      var first := (hooks[0].name, hooks[0].signature);
      var next := InsertCall(methods[first], hooks[0]).value;
      MethodsAreIndependent(methods[first := next], hooks[1..], key);
      var rest := ForMethod(hooks[1..], key);
      if first == key {
        assert ForMethod(hooks, key) == [hooks[0]] + rest;
        assert ForMethod(hooks, key)[1..] == rest;
      } else {
        assert ForMethod(hooks, key) == rest;
      }
    }
  }

  lemma {:induction false} InForMethod(hooks: seq<InsertHook>, key: MethodKey, i: nat)
    requires i < |ForMethod(hooks, key)|
    ensures ForMethod(hooks, key)[i] in hooks
    ensures (ForMethod(hooks, key)[i].name, ForMethod(hooks, key)[i].signature) == key
  {
    if (hooks[0].name, hooks[0].signature) == key {
      if i > 0 {
        InForMethod(hooks[1..], key, i - 1);
      }
    } else {
      InForMethod(hooks[1..], key, i);
    }
  }

  lemma {:induction false} SortedIsDescending(hooks: seq<InsertHook>, key: MethodKey)
    requires Sorted(hooks)
    ensures Descending(ForMethod(hooks, key))
  {
    hide Strcmp;
    if hooks != [] {
      SortedIsDescending(hooks[1..], key);
      if (hooks[0].name, hooks[0].signature) == key {
        var rest := ForMethod(hooks[1..], key);
        assert ForMethod(hooks, key) == [hooks[0]] + rest;
        forall j | 0 <= j < |rest| ensures hooks[0].offset >= rest[j].offset {
          InForMethod(hooks[1..], key, j);
          var k :| 0 <= k < |hooks[1..]| && hooks[1..][k] == rest[j];
          assert Compare(hooks[0], hooks[k + 1]) <= 0;
          StrcmpEqual(hooks[0].name, rest[j].name);
          StrcmpEqual(hooks[0].signature, rest[j].signature);
        }
      }
    }
  }

  /** Callbacks of one place, last first. */
  function LastFirst(hooks: seq<InsertHook>): seq<Instruction> {
    if hooks == [] then [] else LastFirst(hooks[1..]) + Operations(hooks[0].block)
  }

  lemma {:induction false} CallsAtPlace(hooks: seq<InsertHook>, key: InsertHook)
    ensures CallsAt(ForMethod(hooks, (key.name, key.signature)), key.offset) == LastFirst(AtPlace(hooks, key))
  {
    if hooks != [] {
      hide Operations;
      var place := (key.name, key.signature);
      CallsAtPlace(hooks[1..], key);
      AtPlaceConcat([hooks[0]], hooks[1..], key);
      assert hooks == [hooks[0]] + hooks[1..];
      assert AtPlace([hooks[0]], key) == (if SamePlace(hooks[0], key) then [hooks[0]] else []) by {
        assert [hooks[0]][..0] == [];
      }
      var rest, calls := AtPlace(hooks[1..], key), ForMethod(hooks[1..], place);
      if (hooks[0].name, hooks[0].signature) == place {
        assert ForMethod(hooks, place) == [hooks[0]] + calls;
        assert ForMethod(hooks, place)[1..] == calls;
        if SamePlace(hooks[0], key) {
          assert AtPlace(hooks, key) == [hooks[0]] + rest;
          assert AtPlace(hooks, key)[1..] == rest;
        } else {
          assert AtPlace(hooks, key) == rest;
        }
      } else {
        assert ForMethod(hooks, place) == calls;
        assert AtPlace(hooks, key) == rest;
      }
    }
  }

  /** Only the callbacks for each offset matter, not how the list is ordered. */
  lemma {:induction false} WovenDependsOnCalls(code: seq<Instruction>, i: nat, a: seq<InsertHook>, b: seq<InsertHook>)
    requires AllWellFormed(code) && i <= |code|
    requires forall o: u4 :: CallsAt(a, o) == CallsAt(b, o)
    ensures Woven(code, i, a) == Woven(code, i, b)
    decreases |code| - i
  {
    hide AllWellFormed, OffsetOf, Operation;
    if OffsetOf(code, i) >= 0x1_0000_0000 {
      NoCallsAt(a, OffsetOf(code, i));
      NoCallsAt(b, OffsetOf(code, i));
    }
    if i < |code| {
      WovenDependsOnCalls(code, i + 1, a, b);
    }
  }

  lemma SameCalls(a: seq<InsertHook>, b: seq<InsertHook>, key: MethodKey, o: u4)
    requires StablySame(a, b)
    ensures CallsAt(ForMethod(a, key), o) == CallsAt(ForMethod(b, key), o)
  {
    var place := InsertHook(key.0, key.1, o, "", []);
    CallsAtPlace(a, place);
    CallsAtPlace(b, place);
    assert AtPlace(a, place) == AtPlace(b, place);
  }

  lemma {:induction false} ForMethodCallbacks(hooks: seq<InsertHook>, key: MethodKey)
    requires Callbacks(hooks)
    ensures Callbacks(ForMethod(hooks, key))
  {
    hide Callback;
    forall i | 0 <= i < |ForMethod(hooks, key)| ensures Callback(ForMethod(hooks, key)[i].block) {
      InForMethod(hooks, key, i);
      var k :| 0 <= k < |hooks| && hooks[k] == ForMethod(hooks, key)[i];
    }
  }

  /** The rebuild: whatever order the hooks were registered in, sorting them and
      applying them one after the other puts every callback of every method
      directly in front of the original instruction at its original offset, with
      callbacks at one offset in reverse registration order. */
  lemma RebuildWeaves(methods: map<MethodKey, Editor>, hooks: seq<InsertHook>, sorted: seq<InsertHook>, key: MethodKey)
    requires forall k :: k in methods ==> Consistent(methods[k])
    requires Callbacks(sorted) && Sorted(sorted) && StablySame(sorted, hooks)
    requires key in methods && ApplyInserts(methods, sorted).Some?
    ensures key in ApplyInserts(methods, sorted).value
    ensures Operations(ApplyInserts(methods, sorted).value[key].code)
         == Woven(methods[key].code, 0, ForMethod(hooks, key))
  {
    hide Consistent, Woven, Operations, StablySame, Callbacks, Sorted, CallsAt;
    MethodsAreIndependent(methods, sorted, key);
    ForMethodCallbacks(sorted, key);
    SortedIsDescending(sorted, key);
    InsertsWeave(methods[key], ForMethod(sorted, key));
    forall o: u4 ensures CallsAt(ForMethod(sorted, key), o) == CallsAt(ForMethod(hooks, key), o) {
      SameCalls(sorted, hooks, key, o);
    }
    WellFormedOf(methods[key]);
    WovenDependsOnCalls(methods[key].code, 0, ForMethod(sorted, key), ForMethod(hooks, key));
  }

  lemma OneMakesRoom(e: Editor, hook: InsertHook)
    requires InsertCall(e, hook).Some? && hook.block != []
    ensures InsertCall(e, hook).value.maxStack as int == e.maxStack as int + 1
  {
    hide Committed, FlushFrom, AllMap, OffsetToIndex, Encode, AsI4;
  }

  /** Every callback finds one more slot on the operand stack than the method had. */
  lemma {:induction false} InsertsMakeRoom(e: Editor, hooks: seq<InsertHook>)
    requires InsertCalls(e, hooks).Some? && Callbacks(hooks)
    ensures InsertCalls(e, hooks).value.maxStack as int == e.maxStack as int + |hooks|
    decreases |hooks|
  {
    hide InsertCall;
    if hooks != [] {
      assert Callback(hooks[0].block);
      OneMakesRoom(e, hooks[0]);
      InsertsMakeRoom(InsertCall(e, hooks[0]).value, hooks[1..]);
    }
  }

  /** So a rebuilt method has as many more as it has inserts. */
  lemma RebuildMakesRoom(methods: map<MethodKey, Editor>, sorted: seq<InsertHook>, key: MethodKey)
    requires Callbacks(sorted) && key in methods && ApplyInserts(methods, sorted).Some?
    ensures key in ApplyInserts(methods, sorted).value
    ensures ApplyInserts(methods, sorted).value[key].maxStack as int == methods[key].maxStack as int + |ForMethod(sorted, key)|
  {
    hide ApplyInserts, Callbacks;
    MethodsAreIndependent(methods, sorted, key);
    ForMethodCallbacks(sorted, key);
    InsertsMakeRoom(methods[key], ForMethod(sorted, key));
  }

  // ----- running a rebuilt method -----

  /** Where a position of the original has gone after all inserts. */
  function Journey(e: Editor, hooks: seq<InsertHook>, pc: int): int
    decreases |hooks|
  {
    if hooks == [] then pc
    else
      var at := OffsetToIndex(e.code, e.codeLength, AsI4(hooks[0].offset));
      match InsertCall(e, hooks[0])
      case None => pc
      case Some(next) =>
        if at < 0 then pc else Journey(next, hooks[1..], Position(MoveOf(e, at, hooks[0].block), pc))
  }

  ghost predicate Follows<D(!new)>(same: (D, D) -> bool, e: Editor, hooks: seq<InsertHook>, c: Config<D>, d: Config<D>) {
    match c
    case AT(pc, s) => d.AT? && d.pc == Journey(e, hooks, pc) && same(s, d.state)
    case LEFT(s) => d.LEFT? && same(s, d.state)
    case ESCAPED(x, s) => d.ESCAPED? && d.thrown == x && same(s, d.state)
    case STUCK(s) => d.STUCK? && same(s, d.state)
  }

  ghost predicate Preorder<D(!new)>(same: (D, D) -> bool) {
    && (forall s :: same(s, s))
    && (forall s, t, u :: same(s, t) && same(t, u) ==> same(s, u))
  }

  lemma MatchThenFollow<D(!new)>(same: (D, D) -> bool, e: Editor, at: nat, hooks: seq<InsertHook>,
                                 c: Config<D>, mid: Config<D>, d: Config<D>)
    requires hooks != [] && InsertCall(e, hooks[0]).Some? && at <= |e.code|
    requires at == OffsetToIndex(e.code, e.codeLength, AsI4(hooks[0].offset))
    requires Preorder(same) && Matches(same, MoveOf(e, at, hooks[0].block), c, mid)
    requires Follows(same, InsertCall(e, hooks[0]).value, hooks[1..], mid, d)
    ensures Follows(same, e, hooks, c, d)
  {
    hide InsertCall, MoveOf, Position, OffsetToIndex, AsI4;
  }

  /** Every run of the original is followed by a run of the rebuilt method: after
      any number of original steps the rebuilt one, having taken at least as
      many, stands at the corresponding place in a corresponding state. */
  lemma {:induction false} RebuildSimulates<D(!new)>(
      e: Editor, hooks: seq<InsertHook>, m: Machine<D>, same: (D, D) -> bool, pc: int, s: D, t: D, n: nat)
      returns (steps: nat)
    requires Consistent(e) && Callbacks(hooks) && InsertCalls(e, hooks).Some?
    requires Preorder(same) && Respects(m, same)
    requires forall i :: 0 <= i < |hooks| ==> Neutral(m, same, hooks[i].block)
    requires Boundary(e, pc) && same(s, t)
    ensures steps >= n
    ensures Follows(same, e, hooks, Run(BodyOf(e), m, AT(pc, s), n),
                    Run(BodyOf(InsertCalls(e, hooks).value), m, AT(Journey(e, hooks, pc), t), steps))
    decreases |hooks|
  {
    hide Consistent, InsertCall, Callback, Committed, Insertable, AsI4, Respects, Neutral, Step, MoveOf, OffsetOf;
    if hooks == [] {
      steps := n;
      MatchesItself(e, m, same, AT(pc, s), AT(pc, t), n);
    } else {
      assert Callback(hooks[0].block) && Neutral(m, same, hooks[0].block);
      InsertCallCommits(e, hooks[0]);
      var at := OffsetToIndex(e.code, e.codeLength, AsI4(hooks[0].offset));
      var block, next := hooks[0].block, InsertCall(e, hooks[0]).value;
      var moved := Position(MoveOf(e, at, block), pc);
      InsertionSimulates(e, at, block, m, same, AT(pc, s), AT(moved, s), n);
      var hits := Arrivals(BodyOf(e), m, AT(pc, s), n, OffsetOf(e.code, at));
      var between := StepCount(n, hits, |block|);
      MoreSteps(n, hits, |block|);
      MovedBoundary(e, at, block, next, pc);
      steps := RebuildSimulates(next, hooks[1..], m, same, moved, s, t, between);
      MatchThenFollow(same, e, at, hooks, Run(BodyOf(e), m, AT(pc, s), n), Run(BodyOf(next), m, AT(moved, s), between),
                      Run(BodyOf(InsertCalls(e, hooks).value), m, AT(Journey(e, hooks, pc), t), steps));
    }
  }

  lemma MoreSteps(n: nat, hits: nat, size: nat)
    ensures StepCount(n, hits, size) >= n
  {
  }

  lemma MovedBoundary(e: Editor, at: nat, block: seq<Instruction>, next: Editor, pc: int)
    requires Insertable(e, at, block) && Boundary(e, pc)
    requires BodyOf(next) == BodyOf(Committed(e, at, block))
    ensures Boundary(next, Position(MoveOf(e, at, block), pc))
  {
    hide AllWellFormed, LaidOut, Committed, OffsetToIndex, Position;
    MoveIsLegal(e, at, block);
    MoveStartsAt(e, at, block);
    MovedPosition(MoveOf(e, at, block), pc);
  }

  /** Operations cannot tell related states apart, so neither can runs. */
  lemma {:induction false} MatchesItself<D(!new)>(e: Editor, m: Machine<D>, same: (D, D) -> bool,
                                                  c: Config<D>, d: Config<D>, n: nat)
    requires Respects(m, same) && Follows(same, e, [], c, d)
    ensures Follows(same, e, [], Run(BodyOf(e), m, c, n), Run(BodyOf(e), m, d, n))
    decreases n
  {
    hide OffsetToIndex, LengthAt, HandlerFor, Targets, Operation;
    if n > 0 {
      if c.AT? {
        var i := OffsetToIndex(e.code, e.codeLength, c.pc);
        if 0 <= i < |e.code| {
          assert SameEffect(same, m.exec(Operation(e.code[i]), c.state), m.exec(Operation(e.code[i]), d.state));
        }
      }
      MatchesItself(e, m, same, Step(BodyOf(e), m, c), Step(BodyOf(e), m, d), n - 1);
    }
  }
}
