/** Loading and storing a Code attribute as they run: table after table, out of
    and into an attribute list. */
module CodeStreams {
  import opened Bytes
  import opened Status
  import opened Instructions
  import opened InstructionCodec
  import opened InstructionStreams
  import opened References
  import opened ConstantPool
  import opened ClassFileCodec
  import opened ClassFileStreams
  import opened StackMapCodec
  import opened TypeAnnotations
  import opened CodeStore

  // ----- loading -----

  method ReadLineTable(info: seq<u1>, lines: seq<LineEntry>) returns (r: Result<seq<LineEntry>>)
    ensures r == LoadLines(info, lines)
  {
    hide ReadU2;
    var c := new ByteCursor(info);
    var count := c.U2();
    if !c.ok {
      return Failure(TRUNCATED);
    }
    if |lines| + count > MAX_COUNT {
      return Failure(LIMIT_EXCEEDED);
    }
    ghost var start := c.View();
    var more: seq<LineEntry> := [];
    for i := 0 to count
      invariant c.Valid() && ReadLines(start, i) == Read(more, c.View())
    {
      var startPc := c.U2();
      var line := c.U2();
      more := more + [LineEntry(startPc, line)];
    }
    if !c.ok {
      return Failure(TRUNCATED);
    }
    return Success(lines + more);
  }

  method ReadScopeTable(info: seq<u1>, scopes: seq<ScopeEntry>) returns (r: Result<seq<ScopeEntry>>)
    ensures r == LoadScopes(info, scopes)
  {
    hide ReadU2;
    var c := new ByteCursor(info);
    var count := c.U2();
    if !c.ok {
      return Failure(TRUNCATED);
    }
    if |scopes| + count > MAX_COUNT {
      return Failure(LIMIT_EXCEEDED);
    }
    ghost var start := c.View();
    var more: seq<ScopeEntry> := [];
    for i := 0 to count
      invariant c.Valid() && ReadScopes(start, i) == Read(more, c.View())
    {
      var startPc := c.U2();
      var length := c.U2();
      var name := c.U2();
      var descriptor := c.U2();
      var index := c.U2();
      more := more + [ScopeEntry(startPc, length, name, descriptor, index)];
    }
    if !c.ok {
      return Failure(TRUNCATED);
    }
    return Success(scopes + more);
  }

  method LoadTable(pool: Pool, e: Editor, a: Attribute) returns (r: Result<Editor>)
    requires |e.annotations| <= MAX_COUNT
    ensures r == LoadAttribute(pool, e, a)
    ensures r.Success? ==> |r.value.annotations| <= MAX_COUNT
  {
    hide LoadLines, LoadScopes, StackMapCodec.Parse, Collect, TextIs, Carrier;
    if TextIs(pool, a.nameIndex, LINES) {
      var lines := ReadLineTable(a.info, e.lines);
      if lines.Failure? {
        return Failure(lines.status);
      }
      return Success(e.(lines := lines.value, names := e.names.(hasLines := true, lines := a.nameIndex)));
    } else if TextIs(pool, a.nameIndex, LOCALS) {
      var scopes := ReadScopeTable(a.info, e.locals);
      if scopes.Failure? {
        return Failure(scopes.status);
      }
      return Success(e.(locals := scopes.value, names := e.names.(hasLocals := true, locals := a.nameIndex)));
    } else if TextIs(pool, a.nameIndex, LOCAL_TYPES) {
      var scopes := ReadScopeTable(a.info, e.localTypes);
      if scopes.Failure? {
        return Failure(scopes.status);
      }
      return Success(e.(localTypes := scopes.value, names := e.names.(hasLocalTypes := true, localTypes := a.nameIndex)));
    } else if TextIs(pool, a.nameIndex, FRAMES) {
      if e.names.hasFrames {
        return Failure(UNSUPPORTED);
      }
      var frames := ParseTable(a.info);
      if frames.Failure? {
        return Failure(frames.status);
      }
      return Success(e.(frames := frames.value, names := e.names.(hasFrames := true, frames := a.nameIndex)));
    }
    var kept := e.(others := e.others + [a]);
    if !Carrier(pool, a.nameIndex) {
      return Success(kept);
    }
    var refs := CollectAttribute(a.info, |e.others|, e.annotations);
    if refs.Failure? {
      return Failure(refs.status);
    }
    return Success(kept.(annotations := refs.value));
  }

  /** An editor for the method body in payload. */
  method LoadEditor(pool: Pool, payload: seq<u1>) returns (r: Result<Editor>)
    ensures r == Load(pool, payload)
  {
    hide ParseCode, InstructionCodec.Parse, LoadAttribute;
    var code := ParseCodeAttribute(payload);
    if code.Failure? {
      return Failure(code.status);
    }
    var list := ParseList(code.value.code);
    if list.Failure? {
      return Failure(list.status);
    }
    var attributes := code.value.attributes;
    var base := Bare(code.value.maxStack, code.value.maxLocals, list.value, |code.value.code|, code.value.exceptions);
    var e := base;
    for i := 0 to |attributes|
      invariant |e.annotations| <= MAX_COUNT && LoadAttributes(pool, base, attributes[..i]) == Success(e)
    {
      assert attributes[..i + 1][..i] == attributes[..i];
      var next := LoadTable(pool, e, attributes[i]);
      if next.Failure? {
        LoadStaysRefused(pool, base, attributes, i + 1);
        return next;
      }
      e := next.value;
    }
    assert attributes[..|attributes|] == attributes;
    return Success(e);
  }

  lemma {:induction false} LoadStaysRefused(pool: Pool, e: Editor, attributes: seq<Attribute>, i: nat)
    requires i <= |attributes| && LoadAttributes(pool, e, attributes[..i]).Failure?
    ensures LoadAttributes(pool, e, attributes) == Failure(LoadAttributes(pool, e, attributes[..i]).status)
    decreases |attributes|
  {
    hide LoadAttribute;
    if i == |attributes| {
      assert attributes[..i] == attributes;
    } else {
      var front := attributes[..|attributes| - 1];
      assert front[..i] == attributes[..i];
      LoadStaysRefused(pool, e, front, i);
    }
  }

  // ----- storing -----

  method WriteLines(lines: seq<LineEntry>) returns (bytes: seq<u1>)
    requires |lines| < 0x1_0000
    ensures bytes == U2Bytes(|lines|) + LinesBytes(lines)
  {
    hide U2Bytes;
    var b := new ByteBuffer();
    b.U2(|lines|);
    assert b.data == U2Bytes(|lines|);
    for i := 0 to |lines|
      invariant b.data == U2Bytes(|lines|) + LinesBytes(lines[..i])
    {
      assert lines[..i + 1][..i] == lines[..i];
      b.U2(lines[i].startPc);
      b.U2(lines[i].line);
    }
    assert lines[..|lines|] == lines;
    return b.data;
  }

  method WriteScopes(scopes: seq<ScopeEntry>) returns (bytes: seq<u1>)
    requires |scopes| < 0x1_0000
    ensures bytes == U2Bytes(|scopes|) + ScopesBytes(scopes)
  {
    hide U2Bytes;
    var b := new ByteBuffer();
    b.U2(|scopes|);
    assert b.data == U2Bytes(|scopes|);
    for i := 0 to |scopes|
      invariant b.data == U2Bytes(|scopes|) + ScopesBytes(scopes[..i])
    {
      assert scopes[..i + 1][..i] == scopes[..i];
      ghost var before := b.data;
      b.U2(scopes[i].startPc);
      b.U2(scopes[i].length);
      b.U2(scopes[i].nameIndex);
      b.U2(scopes[i].descriptorIndex);
      b.U2(scopes[i].index);
      assert b.data == before + ScopeBytes(scopes[i]);
    }
    assert scopes[..|scopes|] == scopes;
    return b.data;
  }

  method WriteCodeAttribute(c: CodeAttribute) returns (bytes: seq<u1>)
    requires CodeWritable(c)
    ensures bytes == CodeBytes(c)
  {
    hide U2Bytes, U4Bytes, AttributesBytes;
    var b := new ByteBuffer();
    b.U2(c.maxStack);
    b.U2(c.maxLocals);
    b.U4(|c.code|);
    b.Bytes(c.code);
    b.U2(|c.exceptions|);
    ghost var head := b.data;
    WriteExceptions(b, c.exceptions);
    WriteAttributes(b, c.attributes);
    assert b.data == head + ExceptionsBytes(c.exceptions) + AttributesBytes(c.attributes);
    return b.data;
  }

  method WriteExceptions(b: ByteBuffer, s: seq<ExceptionEntry>)
    modifies b
    ensures b.data == old(b.data) + ExceptionsBytes(s)
  {
    hide U2Bytes;
    for i := 0 to |s|
      invariant b.data == old(b.data) + ExceptionsBytes(s[..i])
    {
      assert s[..i + 1][..i] == s[..i];
      ghost var before := b.data;
      b.U2(s[i].startPc);
      b.U2(s[i].endPc);
      b.U2(s[i].handlerPc);
      b.U2(s[i].catchType);
      assert b.data == before + ExceptionBytes(s[i]);
    }
    assert s[..|s|] == s;
  }

  /** The payload for an editor: its tables in a fixed order, then what it kept. */
  method StoreEditor(e: Editor) returns (r: Result<seq<u1>>)
    requires TablesFit(e) && AllWellFormed(e.code)
    ensures r == Store(e)
  {
    hide Encode, StackMapCodec.Write, CodeBytes, U2Bytes, LinesBytes, ScopesBytes, CodeWritable, StackMapCodec.Writable;
    var code := EncodeList(e.code);
    if code.Failure? {
      return code;
    }
    var lines: seq<Attribute>, locals: seq<Attribute>, types: seq<Attribute> := [], [], [];
    if e.names.hasLines {
      var info := WriteLines(e.lines);
      lines := [Attribute(e.names.lines, info)];
    }
    if e.names.hasLocals {
      var info := WriteScopes(e.locals);
      locals := [Attribute(e.names.locals, info)];
    }
    if e.names.hasLocalTypes {
      var info := WriteScopes(e.localTypes);
      types := [Attribute(e.names.localTypes, info)];
    }
    var tables := lines + locals + types;
    if e.names.hasFrames {
      var info := WriteTable(e.frames);
      if info.Failure? {
        return info;
      }
      tables := tables + [Attribute(e.names.frames, info.value)];
    }
    assert TableAttributes(e) == Success(tables);
    var all := CodeAttribute(e.maxStack, e.maxLocals, code.value, e.exceptions, tables + e.others);
    if !CodeWritable(all) {
      return Failure(LIMIT_EXCEEDED);
    }
    var bytes := WriteCodeAttribute(all);
    return Success(bytes);
  }
}
