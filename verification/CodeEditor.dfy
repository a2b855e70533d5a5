/** Splicing instructions into a method body: every stored offset becomes an
    index, the list is spliced, the indices are shifted, the layout is
    recomputed, and the indices become offsets again. */
module CodeEditor {
  import opened Bytes
  import opened Status
  import opened Instructions
  import opened References
  import opened AnnotationFlush

  // ----- insertion, as a function of the editor -----

  function Spliced<T>(s: seq<T>, at: nat, block: seq<T>): (r: seq<T>)
    requires at <= |s|
    ensures |r| == |s| + |block|
  {
    s[..at] + block + s[at..]
  }

  /** The editor once everything that can fail before the commit has passed. */
  function Committed(e: Editor, at: nat, block: seq<Instruction>): Editor
    requires at <= |e.code|
  {
    var indexed := MapAll(TO_INDEX(e.code, e.codeLength), e);
    var spliced := indexed.(code := Spliced(indexed.code, at, block));
    var shifted := MapAll(SHIFT(at, |block|), spliced);
    var relaid := shifted.(code := Relaid(shifted.code), codeLength := OffsetOf(shifted.code, |shifted.code|));
    MapAll(TO_OFFSET(relaid.code, relaid.codeLength), relaid)
  }

  datatype Outcome = Outcome(editor: Editor, status: Status)

  /** reserved is false when growing the list fails. */
  function Insert(e: Editor, offset: u4, block: seq<Instruction>, extraStack: u2, reserved: bool): Outcome {
    var at := OffsetToIndex(e.code, e.codeLength, AsI4(offset));
    if block == [] then Outcome(e, OK)
    else if at < 0 then Outcome(e, BAD_OFFSET)
    else if e.maxStack as int + extraStack as int > 0xFFFF then Outcome(e, LIMIT_EXCEEDED)
    else if !AllMap(TO_INDEX(e.code, e.codeLength), e) then Outcome(e, BAD_OFFSET)
    else if !reserved then Outcome(e, OUT_OF_MEMORY)
    else
      var moved := Committed(e, at, block);
      var flushed := FlushFrom(moved.annotations, 0, moved.others);
      var written := moved.(others := flushed.others);
      if flushed.status != OK then Outcome(written, flushed.status)
      else Outcome(written.(maxStack := e.maxStack as int + extraStack as int), OK)
  }

  // ----- the editor as it is updated -----

  class CodeEditor {
    const list: InstructionList
    var maxStack: u2
    var maxLocals: u2
    var exceptions: seq<ExceptionEntry>
    var lines: seq<LineEntry>
    var locals: seq<ScopeEntry>
    var localTypes: seq<ScopeEntry>
    var frames: seq<Frame>
    var annotations: seq<AnnotationRef>
    var others: seq<Attribute>
    var names: TableNames

    function View(): Editor
      reads this, list
    {
      Editor(maxStack, maxLocals, list.items, list.codeLength, exceptions, lines, locals, localTypes,
             frames, annotations, others, names)
    }

    constructor (e: Editor)
      ensures View() == e && fresh(list)
    {
      list := new InstructionList(e.code, e.codeLength);
      maxStack, maxLocals, exceptions, lines := e.maxStack, e.maxLocals, e.exceptions, e.lines;
      locals, localTypes, frames, annotations := e.locals, e.localTypes, e.frames, e.annotations;
      others, names := e.others, e.names;
    }

    // Each table is one loop; with apply false nothing is written, so the whole
    // set of references can be checked before the first one is changed.

    method MapInstructions(m: RefMap, apply: bool) returns (ok: bool)
      modifies list
      ensures ok <==> CodeMaps(m, old(list.items))
      ensures list.codeLength == old(list.codeLength)
      ensures list.items == if apply then MapCode(m, old(list.items)) else old(list.items)
    {
      hide MapOperand, OperandMaps;
      ok := true;
      ghost var before := list.items;
      for i := 0 to |list.items|
        invariant |list.items| == |before| && list.codeLength == old(list.codeLength)
        invariant ok <==> forall k :: 0 <= k < i ==> OperandMaps(m, before[k].operand)
        invariant forall k :: 0 <= k < i ==> list.items[k] == if apply then MapNode(m, before[k]) else before[k]
        invariant forall k :: i <= k < |before| ==> list.items[k] == before[k]
      {
        var node := list.items[i];
        ok := ok && OperandMaps(m, node.operand);
        if apply {
          list.items := list.items[i := MapNode(m, node)];
        }
      }
    }

    method MapExceptionTable(m: RefMap, apply: bool) returns (ok: bool)
      modifies this`exceptions
      ensures ok <==> ExceptionsMap(m, old(exceptions))
      ensures exceptions == if apply then MapExceptions(m, old(exceptions)) else old(exceptions)
    {
      hide MapException, ExceptionMaps;
      ok := true;
      ghost var before := exceptions;
      for i := 0 to |exceptions|
        invariant |exceptions| == |before|
        invariant ok <==> forall k :: 0 <= k < i ==> ExceptionMaps(m, before[k])
        invariant forall k :: 0 <= k < i ==> exceptions[k] == if apply then MapException(m, before[k]) else before[k]
        invariant forall k :: i <= k < |before| ==> exceptions[k] == before[k]
      {
        ok := ok && ExceptionMaps(m, exceptions[i]);
        if apply {
          exceptions := exceptions[i := MapException(m, exceptions[i])];
        }
      }
    }

    method MapLineTable(m: RefMap, apply: bool) returns (ok: bool)
      modifies this`lines
      ensures ok <==> LinesMap(m, old(lines))
      ensures lines == if apply then MapLines(m, old(lines)) else old(lines)
    {
      hide MapLine, LineMaps;
      ok := true;
      ghost var before := lines;
      for i := 0 to |lines|
        invariant |lines| == |before|
        invariant ok <==> forall k :: 0 <= k < i ==> LineMaps(m, before[k])
        invariant forall k :: 0 <= k < i ==> lines[k] == if apply then MapLine(m, before[k]) else before[k]
        invariant forall k :: i <= k < |before| ==> lines[k] == before[k]
      {
        ok := ok && LineMaps(m, lines[i]);
        if apply {
          lines := lines[i := MapLine(m, lines[i])];
        }
      }
    }

    /** Runs on both scope tables, which have the same layout. */
    static method MapScopeTable(m: RefMap, table: seq<ScopeEntry>, apply: bool)
      returns (mapped: seq<ScopeEntry>, ok: bool)
      ensures ok <==> ScopesMap(m, table)
      ensures mapped == if apply then MapScopes(m, table) else table
    {
      hide MapScope, ScopeMaps;
      ok := true;
      mapped := table;
      for i := 0 to |table|
        invariant |mapped| == |table|
        invariant ok <==> forall k :: 0 <= k < i ==> ScopeMaps(m, table[k])
        invariant forall k :: 0 <= k < i ==> mapped[k] == if apply then MapScope(m, table[k]) else table[k]
        invariant forall k :: i <= k < |table| ==> mapped[k] == table[k]
      {
        ok := ok && ScopeMaps(m, mapped[i]);
        if apply {
          mapped := mapped[i := MapScope(m, mapped[i])];
        }
      }
    }

    method MapFrameTable(m: RefMap, apply: bool) returns (ok: bool)
      modifies this`frames
      ensures ok <==> FramesMap(m, old(frames))
      ensures frames == if apply then MapFrames(m, old(frames)) else old(frames)
    {
      hide MapFrame, FrameMaps;
      ok := true;
      ghost var before := frames;
      for i := 0 to |frames|
        invariant |frames| == |before|
        invariant ok <==> forall k :: 0 <= k < i ==> FrameMaps(m, before[k])
        invariant forall k :: 0 <= k < i ==> frames[k] == if apply then MapFrame(m, before[k]) else before[k]
        invariant forall k :: i <= k < |before| ==> frames[k] == before[k]
      {
        ok := ok && FrameMaps(m, frames[i]);
        if apply {
          frames := frames[i := MapFrame(m, frames[i])];
        }
      }
    }

    method MapAnnotationRefs(m: RefMap, apply: bool) returns (ok: bool)
      modifies this`annotations
      ensures ok <==> AnnotationsMap(m, old(annotations))
      ensures annotations == if apply then MapAnnotations(m, old(annotations)) else old(annotations)
    {
      hide MapAnnotation, AnnotationMaps;
      ok := true;
      ghost var before := annotations;
      for i := 0 to |annotations|
        invariant |annotations| == |before|
        invariant ok <==> forall k :: 0 <= k < i ==> AnnotationMaps(m, before[k])
        invariant forall k :: 0 <= k < i ==> annotations[k] == if apply then MapAnnotation(m, before[k]) else before[k]
        invariant forall k :: i <= k < |before| ==> annotations[k] == before[k]
      {
        ok := ok && AnnotationMaps(m, annotations[i]);
        if apply {
          annotations := annotations[i := MapAnnotation(m, annotations[i])];
        }
      }
    }

    /** Pushes every offset the Code attribute stores through m. */
    method MapAllReferences(m: RefMap, apply: bool) returns (ok: bool)
      modifies this, list
      ensures ok <==> AllMap(m, old(View()))
      ensures View() == if apply then MapAll(m, old(View())) else old(View())
    {
      hide MapCode, MapExceptions, MapLines, MapScopes, MapFrames, MapAnnotations;
      hide CodeMaps, ExceptionsMap, LinesMap, ScopesMap, FramesMap, AnnotationsMap;
      var instructionsOk := MapInstructions(m, apply);
      var exceptionsOk := MapExceptionTable(m, apply);
      var linesOk := MapLineTable(m, apply);
      var mapped, localsOk := MapScopeTable(m, locals, apply);
      locals := mapped;
      var mappedTypes, localTypesOk := MapScopeTable(m, localTypes, apply);
      localTypes := mappedTypes;
      var framesOk := MapFrameTable(m, apply);
      var annotationsOk := MapAnnotationRefs(m, apply);
      ok := instructionsOk && exceptionsOk && linesOk && localsOk && localTypesOk && framesOk && annotationsOk;
    }

    /** Inserts block before whatever sits at offset. Everything that can fail on
        the references is settled by a rehearsal before the first one moves. */
    method InsertAt(offset: u4, block: seq<Instruction>, extraStack: u2, reserved: bool) returns (status: Status)
      modifies this, list
      ensures Outcome(View(), status) == Insert(old(View()), offset, block, extraStack, reserved)
    {
      hide MapAll, AllMap, Relaid, OffsetOf, FlushFrom, AsI4;
      if block == [] {
        return OK;
      }
      var at := list.IndexAt(AsI4(offset));
      if at < 0 {
        return BAD_OFFSET;
      }
      if maxStack as int + extraStack as int > 0xFFFF {
        return LIMIT_EXCEEDED;
      }
      var toIndex := TO_INDEX(list.items, list.codeLength);
      var rehearsed := MapAllReferences(toIndex, false);
      if !rehearsed {
        return BAD_OFFSET;
      }
      if !reserved {
        return OUT_OF_MEMORY;
      }
      var _ := MapAllReferences(toIndex, true);
      list.items := list.items[..at] + block + list.items[at..];
      var _ := MapAllReferences(SHIFT(at, |block|), true);
      var _ := list.RecomputeOffsets();
      var _ := MapAllReferences(TO_OFFSET(list.items, list.codeLength), true);
      others, status := Flush(annotations, others);
      if status != OK {
        return status;
      }
      maxStack := maxStack as int + extraStack as int;
    }
  }
}
