/** Whatever an insertion leaves behind that can be stored is loaded back as it
    was, so nothing in it was cut on the way. */
module StoreAfterInsert {
  import opened Bytes
  import opened Status
  import opened Instructions
  import opened InstructionCodec
  import opened InstructionRoundTrip
  import opened References
  import opened AnnotationFlush
  import opened CodeEditor
  import opened Insertion
  import opened ConstantPool
  import opened StackMapCodec
  import opened StackMapRoundTrip
  import opened TypeAnnotations
  import opened AnnotationRoundTrip
  import opened CodeStore
  import opened CodeStoreRoundTrip

  // ----- annotations in several attributes -----

  lemma {:induction false} FlushTwice(a: seq<AnnotationRef>, b: seq<AnnotationRef>, i: nat, others: seq<Attribute>)
    requires i <= |a|
    ensures var first := FlushFrom(a, i, others);
      FlushFrom(a + b, i, others) == if first.status == OK then FlushFrom(b, 0, first.others) else first
    decreases |a| - i
  {
    hide FlushRef;
    if i == |a| {
      ShiftFlush(a, b, 0, others);
    } else {
      assert (a + b)[i] == a[i];
      if FlushRef(a[i], others).status == OK {
        FlushTwice(a, b, i + 1, FlushRef(a[i], others).others);
      }
    }
  }

  lemma {:induction false} ShiftFlush(a: seq<AnnotationRef>, b: seq<AnnotationRef>, k: nat, others: seq<Attribute>)
    requires k <= |b|
    ensures FlushFrom(a + b, |a| + k, others) == FlushFrom(b, k, others)
    decreases |b| - k
  {
    hide FlushRef;
    if k < |b| {
      assert (a + b)[|a| + k] == b[k];
      if FlushRef(b[k], others).status == OK {
        ShiftFlush(a, b, k + 1, FlushRef(b[k], others).others);
      }
    }
  }

  lemma {:induction false} CollectPrefix(pool: Pool, a: seq<Attribute>, b: seq<Attribute>, n: nat)
    requires n <= |a| && n <= |b| && a[..n] == b[..n]
    ensures CollectAll(pool, a, n) == CollectAll(pool, b, n)
    decreases n
  {
    hide Collect, Carrier;
    if n > 0 {
      assert a[n - 1] == a[..n][n - 1] == b[..n][n - 1] == b[n - 1];
      assert a[..n - 1] == a[..n][..n - 1] && b[..n - 1] == b[..n][..n - 1];
      CollectPrefix(pool, a, b, n - 1);
    }
  }

  predicate AllInRange(refs: seq<AnnotationRef>) {
    forall k :: 0 <= k < |refs| ==> InRange(refs[k])
  }

  predicate SameNames(a: seq<Attribute>, b: seq<Attribute>) {
    |a| == |b| && forall i :: 0 <= i < |a| ==> a[i].nameIndex == b[i].nameIndex
  }

  /** Values written back into all carriers are all found again. */
  lemma {:induction false} FlushAllThenCollect(pool: Pool, others: seq<Attribute>, moved: seq<AnnotationRef>, n: nat)
    requires n <= |others| && CollectAll(pool, others, n).Success?
    requires SameRecords(CollectAll(pool, others, n).value, moved) && AllInRange(moved)
    ensures var f := FlushFrom(moved, 0, others);
      && f.status == OK && SameNames(others, f.others) && f.others[n..] == others[n..]
      && CollectAll(pool, f.others, n) == Success(moved)
    decreases n
  {
    hide Collect, Carrier, FlushFrom, InRange, SameRecord;
    if n == 0 {
      NothingToFlush(moved, others);
    } else {
      var front := CollectAll(pool, others, n - 1).value;
      var a, b := moved[..|front|], moved[|front|..];
      assert moved == a + b;
      SameParts(front, CollectAll(pool, others, n).value, moved);
      FlushAllThenCollect(pool, others, a, n - 1);
      var f := FlushFrom(a, 0, others);
      FlushTwice(a, b, 0, others);
      assert f.others[n - 1] == f.others[n - 1..][0] == others[n - 1..][0] == others[n - 1];
      if Carrier(pool, others[n - 1].nameIndex) {
        CarrierStep(pool, others, front, a, b, f.others, n);
      } else {
        assert b == [];
        NothingToFlush(b, f.others);
        assert a + [] == a;
      }
      var g := FlushFrom(moved, 0, others);
      assert others[n..] == others[n - 1..][1..] && f.others[n..] == f.others[n - 1..][1..];
      if !Carrier(pool, others[n - 1].nameIndex) {
        assert g == f;
      }
    }
  }

  lemma NothingToFlush(refs: seq<AnnotationRef>, others: seq<Attribute>)
    requires refs == []
    ensures FlushFrom(refs, 0, others) == Flushed(others, OK)
  {
  }

  lemma SameParts(front: seq<AnnotationRef>, refs: seq<AnnotationRef>, moved: seq<AnnotationRef>)
    requires front <= refs && SameRecords(refs, moved)
    ensures SameRecords(front, moved[..|front|]) && SameRecords(refs[|front|..], moved[|front|..])
  {
    hide SameRecord;
    assert forall k :: 0 <= k < |front| ==> front[k] == refs[k];
  }

  /** The attribute at n - 1 holds values: they are written and found again, and
      those before it stay. */
  lemma CarrierStep(pool: Pool, others: seq<Attribute>, front: seq<AnnotationRef>, a: seq<AnnotationRef>, b: seq<AnnotationRef>,
                    now: seq<Attribute>, n: nat)
    requires 0 < n <= |others| && SameNames(others, now) && now[n - 1] == others[n - 1] && Carrier(pool, others[n - 1].nameIndex)
    requires |front| == |a| && CollectAll(pool, now, n - 1) == Success(a)
    requires Collect(others[n - 1].info, n - 1, |front|).Success?
    requires SameRecords(Collect(others[n - 1].info, n - 1, |front|).value, b) && AllInRange(b)
    ensures var g := FlushFrom(b, 0, now);
      && g.status == OK && SameNames(others, g.others) && g.others[n..] == now[n..]
      && CollectAll(pool, g.others, n) == Success(a + b)
  {
    hide Collect, Carrier, FlushFrom, InRange, SameRecord, Alike;
    FlushThenCollect(now, n - 1, |front|, b);
    var g := FlushFrom(b, 0, now);
    CollectPrefix(pool, g.others, now, n - 1);
    FlushKeepsNames(b, 0, now);
    assert g.others[n - 1].nameIndex == others[n - 1].nameIndex;
  }

  lemma {:induction false} FlushKeepsNames(refs: seq<AnnotationRef>, i: nat, others: seq<Attribute>)
    requires i <= |refs|
    ensures SameNames(others, FlushFrom(refs, i, others).others)
    decreases |refs| - i
  {
    if i < |refs| {
      FlushRefKeepsNames(refs[i], others);
      hide FlushRef;
      if FlushRef(refs[i], others).status == OK {
        FlushKeepsNames(refs, i + 1, FlushRef(refs[i], others).others);
      }
    }
  }

  lemma FlushRefKeepsNames(ref: AnnotationRef, others: seq<Attribute>)
    ensures SameNames(others, FlushRef(ref, others).others)
  {
  }

  /** A flush that succeeds found every value in range. */
  lemma {:induction false} FlushedInRange(refs: seq<AnnotationRef>, i: nat, others: seq<Attribute>)
    requires i <= |refs| && FlushFrom(refs, i, others).status == OK
    requires forall k :: 0 <= k < |refs| ==> refs[k].kind == INSTRUCTION ==> refs[k].end == 0
    ensures forall k :: i <= k < |refs| ==> InRange(refs[k])
    decreases |refs| - i
  {
    if i < |refs| {
      FlushRefInRange(refs[i], others);
      hide FlushRef, InRange;
      FlushedInRange(refs, i + 1, FlushRef(refs[i], others).others);
    }
  }

  lemma FlushRefInRange(ref: AnnotationRef, others: seq<Attribute>)
    requires FlushRef(ref, others).status == OK && (ref.kind == INSTRUCTION ==> ref.end == 0)
    ensures InRange(ref)
  {
    hide Patch;
  }

  // ----- what an insertion leaves -----

  lemma OffsetIsSmall(code: seq<Instruction>, length: nat, offset: int)
    requires AllWellFormed(code) && LaidOut(code, length) && length <= MAX_CODE_LENGTH && OffsetToIndex(code, length, offset) >= 0
    ensures 0 <= offset <= MAX_CODE_LENGTH
  {
    hide AllWellFormed, LaidOut, OffsetToIndex;
    var i := OffsetToIndex(code, length, offset);
    FoundIsBoundary(code, length, offset);
    EndIsLength(code, length);
    if i < |code| {
      OffsetsIncrease(code, i, |code|);
    }
  }

  lemma EndIsLength(code: seq<Instruction>, length: nat)
    requires LaidOut(code, length)
    ensures OffsetOf(code, |code|) == length
  {
  }

  /** References to boundaries of a legal code array fit everywhere. */
  lemma SwitchesFit(e: Editor)
    requires Consistent(e) && e.codeLength <= MAX_CODE_LENGTH
    ensures AllSwitchesInRange(e.code)
  {
    var m := TO_INDEX(e.code, e.codeLength);
    forall i | 0 <= i < |e.code| ensures SwitchInRange(e.code[i]) {
      ConsistentNode(e, i);
      SwitchFits(e, e.code[i]);
    }
  }

  lemma ConsistentNode(e: Editor, i: nat)
    requires Consistent(e) && i < |e.code| && e.codeLength <= MAX_CODE_LENGTH
    ensures AllWellFormed(e.code) && LaidOut(e.code, e.codeLength)
    ensures OperandMaps(TO_INDEX(e.code, e.codeLength), e.code[i].operand) && 0 <= e.code[i].offset <= MAX_CODE_LENGTH
  {
    hide AllWellFormed, OperandMaps, ExceptionsMap, LinesMap, ScopesMap, FramesMap, AnnotationsMap;
    OffsetsIncrease(e.code, i, |e.code|);
  }

  lemma SwitchFits(e: Editor, node: Instruction)
    requires AllWellFormed(e.code) && LaidOut(e.code, e.codeLength) && e.codeLength <= MAX_CODE_LENGTH
    requires OperandMaps(TO_INDEX(e.code, e.codeLength), node.operand) && 0 <= node.offset <= MAX_CODE_LENGTH
    ensures SwitchInRange(node)
  {
    hide AllWellFormed, LaidOut, OffsetToIndex;
    var m := TO_INDEX(e.code, e.codeLength);
    match node.operand
    case TableSwitch(otherwise, _, _, targets) =>
      OffsetIsSmall(e.code, e.codeLength, otherwise);
      forall i | 0 <= i < |targets| ensures FitsI4(targets[i] - node.offset) {
        OffsetIsSmall(e.code, e.codeLength, targets[i]);
      }
    case LookupSwitch(otherwise, cases) =>
      OffsetIsSmall(e.code, e.codeLength, otherwise);
      forall i | 0 <= i < |cases| ensures FitsI4(cases[i].target - node.offset) {
        OffsetIsSmall(e.code, e.codeLength, cases[i].target);
      }
    case _ =>
  }

  lemma FramesStayTidy(e: Editor, after: Editor, move: RefMap)
    requires AllTidy(e.frames) && after.frames == MapFrames(move, e.frames)
    requires Consistent(after) && after.codeLength <= MAX_CODE_LENGTH
    ensures AllTidy(after.frames)
  {
    forall i | 0 <= i < |after.frames| ensures Tidy(after.frames[i]) {
      FrameOf(after, i);
      FrameStaysTidy(e.frames[i], after.frames[i], move, after);
    }
  }

  lemma FrameOf(e: Editor, i: nat)
    requires Consistent(e) && i < |e.frames|
    ensures FrameMaps(TO_INDEX(e.code, e.codeLength), e.frames[i]) && AllWellFormed(e.code) && LaidOut(e.code, e.codeLength)
  {
    hide AllWellFormed, LaidOut, FrameMaps, CodeMaps, ExceptionsMap, LinesMap, ScopesMap, AnnotationsMap;
  }

  lemma FrameStaysTidy(f: Frame, g: Frame, move: RefMap, after: Editor)
    requires Tidy(f) && g == MapFrame(move, f) && FrameMaps(TO_INDEX(after.code, after.codeLength), g)
    requires AllWellFormed(after.code) && LaidOut(after.code, after.codeLength) && after.codeLength <= MAX_CODE_LENGTH
    ensures Tidy(g)
  {
    hide MapIdentity, MapPosition, OffsetToIndex, AllWellFormed, LaidOut, TidyTypes;
    TypesStayTidy(f.locals, g.locals, move, after);
    TypesStayTidy(f.stack, g.stack, move, after);
  }

  lemma TypesStayTidy(types: seq<VerificationType>, moved: seq<VerificationType>, move: RefMap, after: Editor)
    requires TidyTypes(types) && moved == MapTypes(move, types) && TypesMap(TO_INDEX(after.code, after.codeLength), moved)
    requires AllWellFormed(after.code) && LaidOut(after.code, after.codeLength) && after.codeLength <= MAX_CODE_LENGTH
    ensures TidyTypes(moved)
  {
    hide MapIdentity, OffsetToIndex, AllWellFormed, LaidOut;
    forall i | 0 <= i < |moved| ensures TidyType(moved[i]) {
      assert TidyType(types[i]);
      if moved[i].tag == UNINITIALIZED {
        OffsetIsSmall(after.code, after.codeLength, moved[i].offset);
      }
    }
  }

  lemma {:induction false} CollectedAreFresh(pool: Pool, others: seq<Attribute>, n: nat)
    requires n <= |others| && CollectAll(pool, others, n).Success?
    ensures forall k :: 0 <= k < |CollectAll(pool, others, n).value| ==>
      CollectAll(pool, others, n).value[k].kind == INSTRUCTION ==> CollectAll(pool, others, n).value[k].end == 0
    decreases n
  {
    hide Collect, Carrier;
    if n > 0 {
      CollectedAreFresh(pool, others, n - 1);
      if Carrier(pool, others[n - 1].nameIndex) {
        AttributeOf(others[n - 1].info, n - 1, |CollectAll(pool, others, n - 1).value|);
      }
    }
  }

  lemma MovedRecords(refs: seq<AnnotationRef>, move: RefMap)
    requires forall k :: 0 <= k < |refs| ==> refs[k].kind == INSTRUCTION ==> refs[k].end == 0
    ensures SameRecords(refs, MapAnnotations(move, refs))
    ensures forall k :: 0 <= k < |refs| ==> refs[k].kind == INSTRUCTION ==> MapAnnotations(move, refs)[k].end == 0
  {
    hide MapPosition, MapIdentity;
  }

  lemma LegalLength(code: seq<Instruction>, length: nat)
    requires AllWellFormed(code) && LaidOut(code, length) && Encode(code).Success?
    ensures length <= MAX_CODE_LENGTH
  {
    hide AllWellFormed, ListBytes;
    ListInPlace(code, 0, []);
  }

  /** What an insertion that succeeds amounts to. */
  lemma InsertOutcome(e: Editor, offset: u4, block: seq<Instruction>, extraStack: u2)
    requires block != [] && Insert(e, offset, block, extraStack, true).status == OK
    ensures var at := OffsetToIndex(e.code, e.codeLength, AsI4(offset)); var r := Insert(e, offset, block, extraStack, true).editor;
      && 0 <= at <= |e.code|
      && var moved := Committed(e, at, block); var f := FlushFrom(moved.annotations, 0, moved.others);
      && f.status == OK && r == moved.(others := f.others, maxStack := r.maxStack)
  {
    hide Committed, FlushFrom, AllMap, OffsetToIndex;
  }

  lemma CommittedKeeps(e: Editor, at: nat, block: seq<Instruction>)
    requires at <= |e.code|
    ensures var m := Committed(e, at, block);
      && m.others == e.others && m.names == e.names
      && |m.exceptions| == |e.exceptions| && |m.lines| == |e.lines| && |m.locals| == |e.locals|
      && |m.localTypes| == |e.localTypes| && |m.frames| == |e.frames|
  {
    hide MapCode, Relaid, OffsetOf, MapException, MapLine, MapScope, MapFrame, MapAnnotation;
  }

  lemma InsertedIsStorable(pool: Pool, e: Editor, at: nat, block: seq<Instruction>, r: Editor)
    requires Consistent(e) && Storable(pool, e) && AllWellFormed(block) && at <= |e.code|
    requires var moved := Committed(e, at, block); var f := FlushFrom(moved.annotations, 0, moved.others);
      f.status == OK && r == moved.(others := f.others, maxStack := r.maxStack)
    requires r.codeLength <= MAX_CODE_LENGTH && Consistent(r)
    ensures Storable(pool, r)
  {
    hide Consistent, Committed, AllWellFormed, LaidOut, FlushFrom, CollectAll, AllTidy, TablesNamed, AllOther, TablesFit, AllSwitchesInRange, MoveOf, ExactlyMoved;
    var moved := Committed(e, at, block);
    CommittedKeeps(e, at, block);
    CommittedTables(e, at, block);
    CodeOf(r);
    SwitchesFit(r);
    FramesStayTidy(e, r, MoveOf(e, at, block));
    StillNamed(pool, e, r);
    CollectedAreFresh(pool, e.others, |e.others|);
    MovedRecords(e.annotations, MoveOf(e, at, block));
    FlushedInRange(moved.annotations, 0, moved.others);
    FlushAllThenCollect(pool, e.others, moved.annotations, |e.others|);
    OthersStay(pool, e.others, r.others);
    StillFit(e, r);
  }

  lemma CodeOf(e: Editor)
    requires Consistent(e)
    ensures AllWellFormed(e.code) && LaidOut(e.code, e.codeLength)
  {
    hide AllWellFormed, LaidOut, AllMap;
  }

  lemma StillNamed(pool: Pool, e: Editor, r: Editor)
    requires TablesNamed(pool, e) && r.names == e.names && |r.lines| == |e.lines| && |r.locals| == |e.locals|
    requires |r.localTypes| == |e.localTypes| && |r.frames| == |e.frames|
    ensures TablesNamed(pool, r)
  {
    hide TextIs;
  }

  lemma OthersStay(pool: Pool, a: seq<Attribute>, b: seq<Attribute>)
    requires AllOther(pool, a) && SameNames(a, b)
    ensures AllOther(pool, b)
  {
    hide IsOther;
  }

  lemma StillFit(e: Editor, r: Editor)
    requires TablesFit(e) && AllTidy(r.frames) && |r.lines| == |e.lines| && |r.locals| == |e.locals|
    requires |r.localTypes| == |e.localTypes| && |r.frames| == |e.frames| && |r.exceptions| == |e.exceptions|
    ensures TablesFit(r)
  {
    hide Tidy, StackMapCodec.Writable;
    AllTidyWritable(r.frames);
  }

  /** After one insertion, whatever can be stored loads back as the edited
      method; an offset that no longer fits two bytes always makes the code too
      large to store. */
  lemma LoadAfterInsert(pool: Pool, e: Editor, offset: u4, block: seq<Instruction>, extraStack: u2)
    requires Consistent(e) && Storable(pool, e) && AllWellFormed(block) && CodeMaps(SHIFT(0, 0), block) && block != []
    requires Insert(e, offset, block, extraStack, true).status == OK
    ensures var r := Insert(e, offset, block, extraStack, true).editor;
      && (r.codeLength > MAX_CODE_LENGTH ==> Encode(r.code).Failure?)
      && (r.codeLength <= MAX_CODE_LENGTH ==> Storable(pool, r))
      && (r.codeLength <= MAX_CODE_LENGTH && Store(r).Success? ==>
            Load(pool, Store(r).value) == Success(r.(frames := Retagged(r.frames))))
  {
    hide Consistent, AllWellFormed, Insert, CodeMaps, Encode, Store, Load, Retagged, AllSwitchesInRange, AllTidy, TablesNamed, AllOther, CollectAll, TablesFit;
    InsertOutcome(e, offset, block, extraStack);
    var at := OffsetToIndex(e.code, e.codeLength, AsI4(offset));
    var r := Insert(e, offset, block, extraStack, true).editor;
    CodeOf(e);
    CommittedCode(e, at, block);
    if Encode(r.code).Success? {
      LegalLength(r.code, r.codeLength);
    }
    AllOrNothing(e, offset, block, extraStack, true);
    if r.codeLength <= MAX_CODE_LENGTH {
      InsertedIsStorable(pool, e, at, block, r);
      if Store(r).Success? {
        LoadOfStore(pool, r);
      }
    }
  }
}
