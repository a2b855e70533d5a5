/** Putting a guard into a method: the splice, the branch, the frame. */
module GuardTransform {
  import opened Bytes
  import opened Status
  import opened Instructions
  import opened InstructionCodec
  import opened References
  import opened AnnotationFlush
  import opened CodeEditor
  import opened Insertion
  import opened Simulation
  import opened Rebuild
  import opened Weaving
  import opened Descriptors
  import opened ConstantPool
  import opened GuardedBody
  import opened EntryFrame

  predicate FrameAtStart(e: Editor) {
    |e.frames| > 0 && e.frames[0].offset == 0
  }

  /** The entry frame is part of the table, which still is in order: it comes first,
      or behind a frame at offset 0, and the others follow as they moved. */
  predicate Framed(e: Editor, block: seq<Instruction>, entry: Frame, frames: seq<Frame>) {
    var moved := Committed(e, 0, block).frames;
    && FramesIncrease(frames)
    && |moved| == |e.frames|
    && frames == (if FrameAtStart(e) then [moved[0], entry] + moved[1..] else [entry] + moved)
  }

  function EntryOf(thisClass: u2, isStatic: bool, types: seq<VerificationType>, offset: int): Frame {
    Frame(255, FULL, offset, 0, (if isStatic then [] else [VerificationType(OBJECT, thisClass, 0)]) + types, [])
  }

  /** Everything behind the insertion point that store refuses once it is too
      long: a guard that is stored is legal. */
  lemma StoredIsGuardable(e: Editor, prologue: seq<Instruction>, tail: seq<Instruction>)
    requires Consistent(e) && AllWellFormed(prologue) && AllWellFormed(tail) && |e.code| > 0
    requires |Committed(e, 0, GuardBlock(prologue, tail)).code| > |prologue| + 1 + |tail|
    requires Encode(Guarded(e, prologue, tail).code).Success?
    ensures Guardable(e, prologue, tail)
  {
    hide Consistent, Committed, WellFormed, OffsetOf, Encode, Relisted, MapNode;
    WellFormedParts(prologue, tail);
    BlockSize(prologue, tail);
    ConsistentCode(e);
    var block := GuardBlock(prologue, tail);
    var after := Committed(e, 0, block);
    CommittedCode(e, 0, block);
    MiddleIsBranch(e, prologue, tail);
    Retargeted(after, |prologue|, BodyStart(after, prologue, tail));
    hide AllWellFormed, LaidOut, GuardBlock;
    EncodedIsLegal(Guarded(e, prologue, tail).code, after.codeLength);
  }

  lemma MiddleIsBranch(e: Editor, prologue: seq<Instruction>, tail: seq<Instruction>)
    requires Consistent(e) && AllWellFormed(prologue) && AllWellFormed(tail)
    ensures var after := Committed(e, 0, GuardBlock(prologue, tail));
      && |prologue| < |after.code| && after.code[|prologue|].opcode == 153 && !after.code[|prologue|].wide
      && after.code[|prologue|].operand.Branch?
  {
    hide Consistent, Committed, WellFormed, OffsetOf, Relisted;
    WellFormedParts(prologue, tail);
    ConsistentCode(e);
    var block := GuardBlock(prologue, tail);
    assert block[|prologue|] == IFEQ;
    CommittedBlock(e, 0, block, |prologue|);
  }

  /** Inserting at offset 0 commits the block. */
  lemma InsertAtStart(e: Editor, block: seq<Instruction>, pushed: u2)
    requires block != [] && Consistent(e)
    ensures var r := Insert(e, 0, block, pushed, true);
      r.status == OK ==>
        && r.editor.maxStack as int == e.maxStack as int + pushed as int
        && BodyOf(r.editor) == BodyOf(Committed(e, 0, block)) && r.editor.frames == Committed(e, 0, block).frames
        && r.editor.names == e.names
  {
    hide Consistent, Committed, FlushFrom, AllMap, OffsetToIndex, OffsetOf, AllWellFormed;
    ConsistentCode(e);
    BoundaryLookup(e.code, e.codeLength, 0);
    FirstOffset(e.code);
    NamesKept(e, 0, block);
  }

  lemma NamesKept(e: Editor, at: nat, block: seq<Instruction>)
    requires at <= |e.code|
    ensures Committed(e, at, block).names == e.names
  {
    hide Relaid, OffsetOf, Spliced;
  }

  /** A table of frames that was not there has been given its name. */
  predicate TableIsNamed(e: Editor, pool: Pool, after: Editor, pool': Pool) {
    && after.names.hasFrames
    && (if e.names.hasFrames then after.names == e.names && pool' == pool
        else InternUtf8(pool, "StackMapTable") == Success(Interned(pool', after.names.frames)))
  }

  /** The guard is put in front of the body. When this succeeds the method runs
      as Guarded says, needs as much more stack as was asked for, and has a frame
      for its entry state where the body has moved to. */
  method InsertGuard(e: Editor, pool: Pool, thisClass: u2, s: string, isStatic: bool,
                     prologue: seq<Instruction>, tail: seq<Instruction>, pushed: u2)
    returns (status: Status, after: Editor, pool': Pool)
    requires Consistent(e) && FramesIncrease(e.frames) && AllWellFormed(prologue) && AllWellFormed(tail) && |s| > 0
    ensures status == OK ==>
      && Guardable(e, prologue, tail)
      && |Committed(e, 0, GuardBlock(prologue, tail)).code| > |prologue| + 1 + |tail|
      && BodyOf(after) == BodyOf(Guarded(e, prologue, tail))
      && after.maxStack as int == e.maxStack as int + pushed as int
    ensures status == OK ==>
      var built := BuildFrom(pool, s, 1, if isStatic then 0 else 1);
      && built.Success? && TableIsNamed(e, built.value.pool, after, pool')
      && Framed(e, GuardBlock(prologue, tail),
                EntryOf(thisClass, isStatic, built.value.types, BodyStart(Committed(e, 0, GuardBlock(prologue, tail)), prologue, tail)),
                after.frames)
  {
    hide Consistent, Committed, AllWellFormed, Insert, Encode, BuildFrom, FramesIncrease, Guardable, Framed, GuardBlock;
    BlockSize(prologue, tail);
    var block := GuardBlock(prologue, tail);
    InsertAtStart(e, block, pushed);
    var r := Insert(e, 0, block, pushed, true);
    after, pool' := r.editor, pool;
    if r.status != OK {
      return r.status, after, pool';
    }
    if |after.code| <= |block| {
      return UNSUPPORTED, after, pool';
    }
    var start := after.code[|block|].offset;
    var branch := after.code[|prologue|].(operand := Branch(start));
    after := after.(code := after.code[|prologue| := branch]);
    var frame;
    status, pool', frame := BuildEntryFrame(pool, thisClass, s, isStatic, start);
    if status != OK {
      return;
    }
    var frames, taken;
    status, frames, taken := InsertFrame(after.frames, frame);
    if status != OK {
      return;
    }
    after := after.(frames := frames);
    if !after.names.hasFrames {
      var name := InternUtf8(pool', "StackMapTable");
      if name.Failure? {
        return name.status, after, pool';
      }
      pool' := name.value.pool;
      after := after.(names := after.names.(hasFrames := true, frames := name.value.index));
    }
    var encoded := Encode(after.code);
    if encoded.Failure? {
      EncodeFails(after.code);
      return encoded.status, after, pool';
    }
    CodeGrew(e, prologue, tail);
    StoredIsGuardable(e, prologue, tail);
    IsFramed(e, prologue, tail, frame, frames, taken);
  }

  lemma CodeGrew(e: Editor, prologue: seq<Instruction>, tail: seq<Instruction>)
    requires Consistent(e) && AllWellFormed(prologue) && AllWellFormed(tail)
    ensures |Committed(e, 0, GuardBlock(prologue, tail)).code| == |e.code| + |prologue| + 1 + |tail|
  {
    hide Consistent, Committed, WellFormed;
    ConsistentCode(e);
    WellFormedParts(prologue, tail);
    BlockSize(prologue, tail);
    CommittedCode(e, 0, GuardBlock(prologue, tail));
  }

  /** The entry frame never finds its place taken. */
  lemma IsFramed(e: Editor, prologue: seq<Instruction>, tail: seq<Instruction>, entry: Frame, frames: seq<Frame>, taken: bool)
    requires Guardable(e, prologue, tail) && FramesIncrease(e.frames)
    requires var after := Committed(e, 0, GuardBlock(prologue, tail)); var moved := after.frames;
      && |after.code| > |prologue| + 1 + |tail| && entry.offset == BodyStart(after, prologue, tail)
      && (FramesIncrease(moved) ==> (taken <==> forall i :: 0 <= i < |moved| ==> moved[i].offset != entry.offset))
      && (taken && FramesIncrease(moved) ==> FramesIncrease(frames))
      && (taken ==> exists k :: 0 <= k <= |moved| && frames == moved[..k] + [entry] + moved[k..])
    ensures Framed(e, GuardBlock(prologue, tail), entry, frames)
  {
    hide Guardable, Consistent, Committed, GuardBlock, BodyStart, AllWellFormed, FramesIncrease;
    Setup(e, prologue, tail);
    var moved := Committed(e, 0, GuardBlock(prologue, tail)).frames;
    InsertKeepsFrameOrder(e, 0, GuardBlock(prologue, tail));
    MovedFrames(e, prologue, tail);
    forall i | 0 <= i < |moved|
      ensures if e.frames[i].offset == 0 then moved[i].offset < entry.offset else entry.offset < moved[i].offset
    {
      FramesBehindBody(e, prologue, tail, i);
    }
    PlaceIsKnown(e, moved, entry, frames);
  }

  /** An ordered table has only one place for a frame. */
  lemma PlaceIsKnown(e: Editor, moved: seq<Frame>, entry: Frame, frames: seq<Frame>)
    requires |moved| == |e.frames| && FramesIncrease(frames) && FramesIncrease(e.frames)
    requires forall i :: 0 <= i < |e.frames| ==> e.frames[i].offset >= 0
    requires forall i :: 0 <= i < |moved| ==>
      if e.frames[i].offset == 0 then moved[i].offset < entry.offset else entry.offset < moved[i].offset
    requires exists k :: 0 <= k <= |moved| && frames == moved[..k] + [entry] + moved[k..]
    ensures frames == if FrameAtStart(e) then [moved[0], entry] + moved[1..] else [entry] + moved
  {
    var k :| 0 <= k <= |moved| && frames == moved[..k] + [entry] + moved[k..];
    assert frames[k] == entry;
    assert forall i :: 0 <= i < k ==> frames[i] == moved[i];
    if k == 0 && |moved| > 0 {
      assert frames[1] == moved[0];
    }
  }

  lemma MovedFrames(e: Editor, prologue: seq<Instruction>, tail: seq<Instruction>)
    requires Guardable(e, prologue, tail)
    ensures var block := GuardBlock(prologue, tail); var moved := Committed(e, 0, block).frames;
      |moved| == |e.frames| && moved == MapFrames(MoveOf(e, 0, block), e.frames)
  {
    hide Guardable, Consistent, Committed, GuardBlock, BodyStart, AllWellFormed, MoveOf, ExactlyMoved;
    Setup(e, prologue, tail);
    CommittedTables(e, 0, GuardBlock(prologue, tail));
  }

  predicate FramesSound(e: Editor, pool: Pool) {
    forall i :: 0 <= i < |e.frames| ==> FrameSound(pool, e.frames[i])
  }

  /** The frame as it was built, seen in a pool that has grown since. */
  predicate EntryBuilt(pool: Pool, more: Pool, thisClass: u2, m: MethodType, isStatic: bool, entry: Frame) {
    var built := BuildFrom(pool, RenderMethod(m), 1, if isStatic then 0 else 1);
    built.Success? && built.value.pool <= more && entry == EntryOf(thisClass, isStatic, built.value.types, entry.offset)
  }

  lemma EntrySays(pool: Pool, more: Pool, thisClass: u2, thisName: string, m: MethodType, isStatic: bool, entry: Frame)
    requires PoolValid(pool) && ValidMethod(m) && ClassName(pool, thisClass) == Some(thisName)
    requires EntryBuilt(pool, more, thisClass, m, isStatic, entry)
    ensures pool <= more && entry.kind == FULL && entry.stack == []
    ensures Views(more, entry.locals) == EntryLocals(m, thisName, isStatic)
  {
    assert |RenderMethod(m)| > 1;
    hide BuildFrom, View, EntryType, ClassName, RenderMethod, ValidMethod;
    EntryFrameIsEntry(pool, thisClass, thisName, m, isStatic);
    var built := BuildFrom(pool, RenderMethod(m), 1, if isStatic then 0 else 1).value;
    var views := Views(built.pool, entry.locals);
    assert views == EntryLocals(m, thisName, isStatic);
    forall i | 0 <= i < |entry.locals| ensures View(built.pool, entry.locals[i]) != Dangling {
      assert views[i] == View(built.pool, entry.locals[i]);
      EntryIsNot(m, thisName, isStatic, i);
    }
    ViewsKept(built.pool, more, entry.locals);
  }

  lemma EntryIsNot(m: MethodType, thisName: string, isStatic: bool, i: nat)
    requires i < |EntryLocals(m, thisName, isStatic)|
    ensures EntryLocals(m, thisName, isStatic)[i] != Dangling
  {
  }

  /** With no frame at offset 0, every other frame still says what it said, and
      the new one what the method starts with. */
  lemma GuardKeepsFrames(e: Editor, pool: Pool, more: Pool, thisClass: u2, thisName: string, m: MethodType, isStatic: bool,
                         prologue: seq<Instruction>, tail: seq<Instruction>, entry: Frame, frames: seq<Frame>)
    requires Guardable(e, prologue, tail) && PoolValid(pool) && ValidMethod(m) && ClassName(pool, thisClass) == Some(thisName)
    requires FramesSound(e, pool) && !FrameAtStart(e)
    requires EntryBuilt(pool, more, thisClass, m, isStatic, entry)
    requires Framed(e, GuardBlock(prologue, tail), entry, frames)
    ensures var locals := EntryLocals(m, thisName, isStatic);
      Decode(more, locals, frames)
      == [Typed(entry.offset, locals, [])] + MoveTyped(MoveOf(e, 0, GuardBlock(prologue, tail)), Decode(pool, locals, e.frames))
  {
    hide Guardable, Committed, GuardBlock, MoveOf, FrameSound, Decode, EntryLocals, Views, ClassName, FramesIncrease, MapFrames, EntryBuilt;
    EntrySays(pool, more, thisClass, thisName, m, isStatic, entry);
    MovedFrames(e, prologue, tail);
    EntryFrameKeepsOthers(pool, more, MoveOf(e, 0, GuardBlock(prologue, tail)), entry, e.frames, m, thisName, isStatic);
  }

  /** The frame behind the one at offset 0 says the same from the entry state as
      from what the frame at offset 0 made of it. */
  predicate SecondFrameAgrees(pool: Pool, locals: seq<TypeView>, frames: seq<Frame>)
    requires |frames| > 0
  {
    |frames| > 1 ==> NextLocals(pool, locals, frames[1]) == NextLocals(pool, NextLocals(pool, locals, frames[0]), frames[1])
  }

  /** With a frame at offset 0, the new frame comes between it and the rest. Those
      two say what they should; the rest says what it said if and only if the first
      of them builds on nothing the frame at offset 0 had changed. */
  lemma GuardFrameBetween(e: Editor, pool: Pool, more: Pool, thisClass: u2, thisName: string, m: MethodType, isStatic: bool,
                          prologue: seq<Instruction>, tail: seq<Instruction>, entry: Frame, frames: seq<Frame>)
    requires Guardable(e, prologue, tail) && PoolValid(pool) && ValidMethod(m) && ClassName(pool, thisClass) == Some(thisName)
    requires FramesSound(e, pool) && FrameAtStart(e)
    requires EntryBuilt(pool, more, thisClass, m, isStatic, entry)
    requires Framed(e, GuardBlock(prologue, tail), entry, frames)
    ensures var locals := EntryLocals(m, thisName, isStatic);
      var was := MoveTyped(MoveOf(e, 0, GuardBlock(prologue, tail)), Decode(pool, locals, e.frames));
      var now := Decode(more, locals, frames);
      && |now| == |was| + 1 && |was| > 0
      && now[0] == was[0] && now[1] == Typed(entry.offset, locals, [])
      && (now[2..] == was[1..] <==> SecondFrameAgrees(pool, locals, e.frames))
  {
    hide Guardable, Committed, GuardBlock, MoveOf, FrameSound, Decode, EntryLocals, Views, ClassName, FramesIncrease, MapFrames, EntryBuilt, SecondFrameAgrees;
    EntrySays(pool, more, thisClass, thisName, m, isStatic, entry);
    MovedFrames(e, prologue, tail);
    EntryFrameBetween(pool, more, MoveOf(e, 0, GuardBlock(prologue, tail)), entry, e.frames, m, thisName, isStatic);
    SameCondition(pool, EntryLocals(m, thisName, isStatic), e.frames);
  }

  /** It may build on what the frame at offset 0 had changed: a frame that drops the
      receiver from the locals, and one that says the same as the one before it. */
  lemma DroppedLocalReturns(pool: Pool)
    ensures !SecondFrameAgrees(pool, [ObjectOf("A")], [Frame(250, CHOP, 0, 1, [], []), Frame(4, SAME, 5, 0, [], [])])
  {
    assert [ObjectOf("A")][..0] == [];
  }

  lemma SameCondition(pool: Pool, locals: seq<TypeView>, frames: seq<Frame>)
    requires |frames| > 0
    ensures SecondFrameAgrees(pool, locals, frames) <==> Agrees(pool, locals, NextLocals(pool, locals, frames[0]), frames[1..])
  {
    hide NextLocals;
  }

  lemma NodeFails(node: Instruction, at: nat)
    requires NodeBytes(node, at).Failure?
    ensures NodeBytes(node, at).status != OK
  {
  }

  lemma {:induction false} ListFails(code: seq<Instruction>, i: nat, bytes: seq<u1>)
    requires i <= |code| && ListBytes(code, i, bytes).Failure?
    ensures ListBytes(code, i, bytes).status != OK
    decreases |code| - i
  {
    hide NodeBytes;
    if NodeBytes(code[i], |bytes|).Failure? {
      NodeFails(code[i], |bytes|);
    } else {
      ListFails(code, i + 1, bytes + NodeBytes(code[i], |bytes|).value);
    }
  }

  lemma EncodeFails(code: seq<Instruction>)
    requires Encode(code).Failure?
    ensures Encode(code).status != OK
  {
    hide ListBytes;
    if ListBytes(code, 0, []).Failure? {
      ListFails(code, 0, []);
    }
  }
}
