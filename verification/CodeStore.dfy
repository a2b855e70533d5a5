/** The Code attribute and the tables inside it (sections 4.7.3, 4.7.12 to
    4.7.14 of the JVMS): how an editor is loaded from its bytes and stored. */
module CodeStore {
  import opened Bytes
  import opened Status
  import opened Instructions
  import opened InstructionCodec
  import opened References
  import opened ConstantPool
  import opened ClassFileCodec
  import opened StackMapCodec
  import opened TypeAnnotations

  // ----- the Code attribute -----

  datatype CodeAttribute = CodeAttribute(
    maxStack: u2, maxLocals: u2, code: seq<u1>, exceptions: seq<ExceptionEntry>, attributes: seq<Attribute>)

  predicate CodeWritable(c: CodeAttribute) {
    |c.code| < 0x1_0000_0000 && |c.exceptions| < 0x1_0000 && |c.attributes| < 0x1_0000 && AttributesWritable(c.attributes)
  }

  function ExceptionBytes(e: ExceptionEntry): (r: seq<u1>)
    ensures |r| == 8
  {
    (U2Bytes(e.startPc) + U2Bytes(e.endPc)) + (U2Bytes(e.handlerPc) + U2Bytes(e.catchType))
  }

  function ExceptionsBytes(s: seq<ExceptionEntry>): seq<u1>
    decreases |s|
  {
    if s == [] then [] else ExceptionsBytes(s[..|s| - 1]) + ExceptionBytes(s[|s| - 1])
  }

  function CodeBytes(c: CodeAttribute): seq<u1>
    requires CodeWritable(c)
  {
    (U2Bytes(c.maxStack) + U2Bytes(c.maxLocals)) + (U4Bytes(|c.code|) + (c.code
    + ((U2Bytes(|c.exceptions|) + ExceptionsBytes(c.exceptions)) + AttributesBytes(c.attributes))))
  }

  function ReadException(c: Cursor): (r: Read<ExceptionEntry>)
    requires c.Valid()
    ensures r.rest.Valid() && r.rest.data == c.data && (r.rest.ok ==> c.ok)
  {
    var range := ReadPair(c);
    var handler := ReadPair(range.rest);
    Read(ExceptionEntry(range.value.0, range.value.1, handler.value.0, handler.value.1), handler.rest)
  }

  function ReadExceptions(c: Cursor, n: nat): (r: Result<Read<seq<ExceptionEntry>>>)
    requires c.Valid()
    ensures r.Success? ==> r.value.rest.Valid() && r.value.rest.data == c.data && |r.value.value| == n
    decreases n
  {
    if n == 0 then Success(Read([], c))
    else
      var front :- ReadExceptions(c, n - 1);
      var last := ReadException(front.rest);
      if last.rest.ok then Success(Read(front.value + [last.value], last.rest)) else Failure(TRUNCATED)
  }

  /** Attributes behind a count that may itself have been cut off. */
  function ReadNested(c: Cursor): (r: Result<Read<seq<Attribute>>>)
    requires c.Valid()
    ensures r.Success? ==> r.value.rest.Valid() && r.value.rest.data == c.data
  {
    var count := ReadU2(c);
    if count.value == 0 then Success(Read([], count.rest))
    else ReadAttributeRun(count.rest, count.value)
  }

  /** Neither count is checked for having been there at all: a payload that ends
      before one is taken to have none. */
  function ParseCode(payload: seq<u1>): Result<CodeAttribute> {
    var maxes := ReadPair(Cursor(payload, 0, true));
    var length := ReadU4(maxes.rest);
    var code := ReadBytes(length.rest, length.value);
    if !code.rest.ok then Failure(TRUNCATED)
    else
      var count := ReadU2(code.rest);
      var exceptions :- ReadExceptions(count.rest, count.value);
      var attributes :- ReadNested(exceptions.rest);
      if !attributes.rest.Exhausted() then Failure(TRAILING_BYTES)
      else Success(CodeAttribute(maxes.value.0, maxes.value.1, code.value, exceptions.value, attributes.value))
  }

  method ParseExceptions(c: ByteCursor, count: nat) returns (r: Result<seq<ExceptionEntry>>)
    requires c.Valid()
    modifies c
    ensures c.Valid()
    ensures var spec := ReadExceptions(old(c.View()), count);
      if r.Success? then spec == Success(Read(r.value, c.View())) else spec == Failure(r.status)
  {
    hide ReadU2;
    ghost var start := c.View();
    var exceptions: seq<ExceptionEntry> := [];
    for i := 0 to count
      invariant c.Valid() && ReadExceptions(start, i) == Success(Read(exceptions, c.View()))
    {
      var startPc := c.U2();
      var endPc := c.U2();
      var handlerPc := c.U2();
      var catchType := c.U2();
      if !c.ok {
        ExceptionsStayRefused(start, i + 1, count);
        return Failure(TRUNCATED);
      }
      exceptions := exceptions + [ExceptionEntry(startPc, endPc, handlerPc, catchType)];
    }
    return Success(exceptions);
  }

  method ParseCodeAttribute(payload: seq<u1>) returns (r: Result<CodeAttribute>)
    ensures r == ParseCode(payload)
  {
    hide ReadU2, ReadU4, ReadBytes, ReadNested, ReadExceptions;
    var c := new ByteCursor(payload);
    var maxStack := c.U2();
    var maxLocals := c.U2();
    var length := c.U4();
    var code := c.Bytes(length);
    if !c.ok {
      return Failure(TRUNCATED);
    }
    var count := c.U2();
    var exceptions := ParseExceptions(c, count);
    if exceptions.Failure? {
      return Failure(exceptions.status);
    }
    var attributes := ParseNested(c);
    if attributes.Failure? {
      return Failure(attributes.status);
    }
    if c.pos != |payload| {
      return Failure(TRAILING_BYTES);
    }
    return Success(CodeAttribute(maxStack, maxLocals, code, exceptions.value, attributes.value));
  }

  lemma {:induction false} ExceptionsStayRefused(c: Cursor, i: nat, n: nat)
    requires c.Valid() && i <= n && ReadExceptions(c, i).Failure?
    ensures ReadExceptions(c, n) == Failure(ReadExceptions(c, i).status)
    decreases n
  {
    hide ReadException;
    if i < n {
      ExceptionsStayRefused(c, i, n - 1);
    }
  }

  method ParseNested(c: ByteCursor) returns (r: Result<seq<Attribute>>)
    requires c.Valid()
    modifies c
    ensures c.Valid()
    ensures var spec := ReadNested(old(c.View()));
      if r.Success? then spec == Success(Read(r.value, c.View())) else spec == Failure(r.status)
  {
    ZeroWhenShort(c.View());
    hide ReadU2, ReadAttributeRun;
    var count := c.U2();
    if count == 0 {
      return Success([]);
    }
    r := ParseRun(c, count);
  }

  method ParseRun(c: ByteCursor, count: nat) returns (r: Result<seq<Attribute>>)
    requires c.Valid() && c.ok
    modifies c
    ensures c.Valid()
    ensures var spec := ReadAttributeRun(old(c.View()), count);
      if r.Success? then spec == Success(Read(r.value, c.View())) else spec == Failure(r.status)
  {
    hide ReadU2, ReadU4, ReadBytes;
    ghost var start := c.View();
    var list: seq<Attribute> := [];
    for i := 0 to count
      invariant c.Valid() && c.ok && ReadAttributeRun(start, i) == Success(Read(list, c.View()))
    {
      var name := c.U2();
      var length := c.U4();
      var info := c.Bytes(length);
      if !c.ok {
        NestedStayRefused(start, i + 1, count);
        return Failure(TRUNCATED);
      }
      list := list + [Attribute(name, info)];
    }
    return Success(list);
  }

  lemma ZeroWhenShort(c: Cursor)
    requires c.Valid()
    ensures !ReadU2(c).rest.ok ==> ReadU2(c).value == 0
  {
  }

  lemma {:induction false} NestedStayRefused(c: Cursor, i: nat, n: nat)
    requires c.Valid() && c.ok && i <= n && ReadAttributeRun(c, i).Failure?
    ensures ReadAttributeRun(c, n) == Failure(ReadAttributeRun(c, i).status)
    decreases n
  {
    hide ReadAttribute;
    if i < n {
      NestedStayRefused(c, i, n - 1);
    }
  }

  // ----- the tables -----

  function LineBytes(e: LineEntry): (r: seq<u1>)
    ensures |r| == 4
  {
    U2Bytes(e.startPc) + U2Bytes(e.line)
  }

  function LinesBytes(s: seq<LineEntry>): seq<u1>
    decreases |s|
  {
    if s == [] then [] else LinesBytes(s[..|s| - 1]) + LineBytes(s[|s| - 1])
  }

  function ReadLines(c: Cursor, n: nat): (r: Read<seq<LineEntry>>)
    requires c.Valid()
    ensures r.rest.Valid() && r.rest.data == c.data && (r.rest.ok ==> c.ok) && |r.value| == n
    decreases n
  {
    if n == 0 then Read([], c)
    else
      var front := ReadLines(c, n - 1);
      var last := ReadPair(front.rest);
      Read(front.value + [LineEntry(last.value.0, last.value.1)], last.rest)
  }

  function ScopeBytes(e: ScopeEntry): (r: seq<u1>)
    ensures |r| == 10
  {
    (U2Bytes(e.startPc) + U2Bytes(e.length)) + ((U2Bytes(e.nameIndex) + U2Bytes(e.descriptorIndex)) + U2Bytes(e.index))
  }

  function ScopesBytes(s: seq<ScopeEntry>): seq<u1>
    decreases |s|
  {
    if s == [] then [] else ScopesBytes(s[..|s| - 1]) + ScopeBytes(s[|s| - 1])
  }

  function ReadScope(c: Cursor): (r: Read<ScopeEntry>)
    requires c.Valid()
    ensures r.rest.Valid() && r.rest.data == c.data && (r.rest.ok ==> c.ok)
  {
    var range := ReadPair(c);
    var names := ReadPair(range.rest);
    var index := ReadU2(names.rest);
    Read(ScopeEntry(range.value.0, range.value.1, names.value.0, names.value.1, index.value), index.rest)
  }

  function ReadScopes(c: Cursor, n: nat): (r: Read<seq<ScopeEntry>>)
    requires c.Valid()
    ensures r.rest.Valid() && r.rest.data == c.data && (r.rest.ok ==> c.ok) && |r.value| == n
    decreases n
  {
    if n == 0 then Read([], c)
    else
      var front := ReadScopes(c, n - 1);
      var last := ReadScope(front.rest);
      Read(front.value + [last.value], last.rest)
  }

  /** Tables of one kind may come in several attributes and are joined. */
  function LoadLines(info: seq<u1>, lines: seq<LineEntry>): Result<seq<LineEntry>> {
    var count := ReadU2(Cursor(info, 0, true));
    if !count.rest.ok then Failure(TRUNCATED)
    else if |lines| + count.value > MAX_COUNT then Failure(LIMIT_EXCEEDED)
    else
      var more := ReadLines(count.rest, count.value);
      if more.rest.ok then Success(lines + more.value) else Failure(TRUNCATED)
  }

  function LoadScopes(info: seq<u1>, scopes: seq<ScopeEntry>): Result<seq<ScopeEntry>> {
    var count := ReadU2(Cursor(info, 0, true));
    if !count.rest.ok then Failure(TRUNCATED)
    else if |scopes| + count.value > MAX_COUNT then Failure(LIMIT_EXCEEDED)
    else
      var more := ReadScopes(count.rest, count.value);
      if more.rest.ok then Success(scopes + more.value) else Failure(TRUNCATED)
  }

  // ----- loading -----

  const LINES := "LineNumberTable"
  const LOCALS := "LocalVariableTable"
  const LOCAL_TYPES := "LocalVariableTypeTable"
  const FRAMES := "StackMapTable"

  predicate Carrier(pool: Pool, name: u2) {
    TextIs(pool, name, "RuntimeVisibleTypeAnnotations") || TextIs(pool, name, "RuntimeInvisibleTypeAnnotations")
  }

  /** One attribute inside Code: a table the editor knows, or one it keeps. */
  function LoadAttribute(pool: Pool, e: Editor, a: Attribute): Result<Editor> {
    if TextIs(pool, a.nameIndex, LINES) then
      var lines :- LoadLines(a.info, e.lines);
      Success(e.(lines := lines, names := e.names.(hasLines := true, lines := a.nameIndex)))
    else if TextIs(pool, a.nameIndex, LOCALS) then
      var scopes :- LoadScopes(a.info, e.locals);
      Success(e.(locals := scopes, names := e.names.(hasLocals := true, locals := a.nameIndex)))
    else if TextIs(pool, a.nameIndex, LOCAL_TYPES) then
      var scopes :- LoadScopes(a.info, e.localTypes);
      Success(e.(localTypes := scopes, names := e.names.(hasLocalTypes := true, localTypes := a.nameIndex)))
    else if TextIs(pool, a.nameIndex, FRAMES) then
      if e.names.hasFrames then Failure(UNSUPPORTED)
      else
        var frames :- StackMapCodec.Parse(a.info);
        Success(e.(frames := frames, names := e.names.(hasFrames := true, frames := a.nameIndex)))
    else if !Carrier(pool, a.nameIndex) then Success(e.(others := e.others + [a]))
    else
      var refs :- Collect(a.info, |e.others|, |e.annotations|);
      Success(e.(others := e.others + [a], annotations := e.annotations + refs))
  }

  function LoadAttributes(pool: Pool, e: Editor, attributes: seq<Attribute>): Result<Editor>
    decreases |attributes|
  {
    if attributes == [] then Success(e)
    else
      var front :- LoadAttributes(pool, e, attributes[..|attributes| - 1]);
      LoadAttribute(pool, front, attributes[|attributes| - 1])
  }

  const NO_NAMES := TableNames(false, 0, false, 0, false, 0, false, 0)

  function Bare(maxStack: u2, maxLocals: u2, code: seq<Instruction>, length: nat, exceptions: seq<ExceptionEntry>): Editor {
    Editor(maxStack, maxLocals, code, length, exceptions, [], [], [], [], [], [], NO_NAMES)
  }

  function Load(pool: Pool, payload: seq<u1>): Result<Editor> {
    var code :- ParseCode(payload);
    var list :- InstructionCodec.Parse(code.code);
    LoadAttributes(pool, Bare(code.maxStack, code.maxLocals, list, |code.code|, code.exceptions), code.attributes)
  }

  // ----- storing -----

  function LinesAttribute(e: Editor): Attribute
    requires |e.lines| < 0x1_0000
  {
    Attribute(e.names.lines, U2Bytes(|e.lines|) + LinesBytes(e.lines))
  }

  function ScopesAttribute(name: u2, s: seq<ScopeEntry>): Attribute
    requires |s| < 0x1_0000
  {
    Attribute(name, U2Bytes(|s|) + ScopesBytes(s))
  }

  predicate TablesFit(e: Editor) {
    && |e.lines| < 0x1_0000 && |e.locals| < 0x1_0000 && |e.localTypes| < 0x1_0000 && |e.frames| < 0x1_0000
    && (forall k :: 0 <= k < |e.frames| ==> StackMapCodec.Writable(e.frames[k]))
    && |e.exceptions| < 0x1_0000
  }

  /** The tables the editor knows, in the order they are written. */
  function TableAttributes(e: Editor): Result<seq<Attribute>>
    requires TablesFit(e)
  {
    var tables := (if e.names.hasLines then [LinesAttribute(e)] else [])
                + (if e.names.hasLocals then [ScopesAttribute(e.names.locals, e.locals)] else [])
                + (if e.names.hasLocalTypes then [ScopesAttribute(e.names.localTypes, e.localTypes)] else []);
    if !e.names.hasFrames then Success(tables)
    else
      var frames :- StackMapCodec.Write(e.frames);
      Success(tables + [Attribute(e.names.frames, frames)])
  }

  function Store(e: Editor): Result<seq<u1>>
    requires TablesFit(e)
  {
    var code :- Encode(e.code);
    var tables :- TableAttributes(e);
    var all := CodeAttribute(e.maxStack, e.maxLocals, code, e.exceptions, tables + e.others);
    if CodeWritable(all) then Success(CodeBytes(all)) else Failure(LIMIT_EXCEEDED)
  }
}
