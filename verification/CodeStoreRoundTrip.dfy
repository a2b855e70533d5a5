/** An editor that was stored is loaded back as it was. */
module CodeStoreRoundTrip {
  import opened Bytes
  import opened Status
  import opened Instructions
  import opened InstructionCodec
  import opened InstructionRoundTrip
  import opened References
  import opened ConstantPool
  import opened ClassFileCodec
  import opened ClassFileWritten
  import opened StackMapCodec
  import opened StackMapRoundTrip
  import opened TypeAnnotations
  import opened CodeStore

  // ----- the Code attribute -----

  lemma ExceptionWritten(data: seq<u1>, p: nat, e: ExceptionEntry)
    requires Stands(data, p, ExceptionBytes(e))
    ensures Here(data, p).Valid() && ReadException(Here(data, p)) == Read(e, Here(data, p + 8))
  {
    hide Stands, U2Bytes, ReadPair;
    Split(data, p, U2Bytes(e.startPc) + U2Bytes(e.endPc), U2Bytes(e.handlerPc) + U2Bytes(e.catchType));
    PairWritten(data, p, e.startPc, e.endPc);
    PairWritten(data, p + 4, e.handlerPc, e.catchType);
  }

  lemma {:induction false} ExceptionsWritten(data: seq<u1>, p: nat, s: seq<ExceptionEntry>)
    requires Stands(data, p, ExceptionsBytes(s))
    ensures Here(data, p).Valid()
    ensures ReadExceptions(Here(data, p), |s|) == Success(Read(s, Here(data, p + |ExceptionsBytes(s)|)))
    decreases |s|
  {
    hide ExceptionBytes, ReadException, Stands;
    Inside(data, p, ExceptionsBytes(s));
    if s != [] {
      var n := |s| - 1;
      var front, last := s[..n], s[n];
      assert s == front + [last];
      Split(data, p, ExceptionsBytes(front), ExceptionBytes(last));
      ExceptionsWritten(data, p, front);
      ExceptionWritten(data, p + |ExceptionsBytes(front)|, last);
    }
  }

  lemma NestedWritten(data: seq<u1>, p: nat, s: seq<Attribute>)
    requires AttributesWritable(s) && |s| < 0x1_0000 && Stands(data, p, AttributesBytes(s))
    ensures Here(data, p).Valid()
    ensures ReadNested(Here(data, p)) == Success(Read(s, Here(data, p + |AttributesBytes(s)|)))
  {
    hide Stands, U2Bytes, ReadAttributeRun;
    Split(data, p, U2Bytes(|s|), AttributeRunBytes(s));
    StandingU2IsRead(data, p, |s|);
    if |s| > 0 {
      hide AttributeRunBytes;
      AttributeRunWritten(data, p + 2, s);
    }
  }

  /** Where the parts of a written attribute stand. */
  lemma CodeStands(c: CodeAttribute)
    requires CodeWritable(c)
    ensures var data, p := CodeBytes(c), 8 + |c.code|; var q := p + 2 + |ExceptionsBytes(c.exceptions)|;
      && Stands(data, 0, U2Bytes(c.maxStack) + U2Bytes(c.maxLocals)) && Stands(data, 4, U4Bytes(|c.code|))
      && Stands(data, 8, c.code) && Stands(data, p, U2Bytes(|c.exceptions|))
      && Stands(data, p + 2, ExceptionsBytes(c.exceptions)) && Stands(data, q, AttributesBytes(c.attributes))
      && q + |AttributesBytes(c.attributes)| == |data|
  {
    hide Stands, U2Bytes, U4Bytes, ExceptionsBytes, AttributesBytes;
    var data := CodeBytes(c);
    Whole(data);
    var maxes := U2Bytes(c.maxStack) + U2Bytes(c.maxLocals);
    var table := U2Bytes(|c.exceptions|) + ExceptionsBytes(c.exceptions);
    var rest := table + AttributesBytes(c.attributes);
    Split(data, 0, maxes, U4Bytes(|c.code|) + (c.code + rest));
    Split(data, 4, U4Bytes(|c.code|), c.code + rest);
    Split(data, 8, c.code, rest);
    var p := 8 + |c.code|;
    Split(data, p, table, AttributesBytes(c.attributes));
    Split(data, p, U2Bytes(|c.exceptions|), ExceptionsBytes(c.exceptions));
  }

  /** What was written is parsed back. */
  lemma CodeParsedBack(c: CodeAttribute)
    requires CodeWritable(c)
    ensures ParseCode(CodeBytes(c)) == Success(c)
  {
    hide Stands, U2Bytes, U4Bytes, ExceptionsBytes, AttributesBytes, CodeBytes;
    hide ReadPair, ReadU2, ReadU4, ReadBytes, ReadNested, ReadExceptions;
    var data := CodeBytes(c);
    CodeStands(c);
    var p := 8 + |c.code|;
    PairWritten(data, 0, c.maxStack, c.maxLocals);
    StandingU4IsRead(data, 4, |c.code|);
    StandingBytesAreRead(data, 8, c.code);
    StandingU2IsRead(data, p, |c.exceptions|);
    ExceptionsWritten(data, p + 2, c.exceptions);
    NestedWritten(data, p + 2 + |ExceptionsBytes(c.exceptions)|, c.attributes);
  }

  // ----- the tables -----

  lemma {:induction false} LinesWritten(data: seq<u1>, p: nat, s: seq<LineEntry>)
    requires Stands(data, p, LinesBytes(s))
    ensures Here(data, p).Valid() && ReadLines(Here(data, p), |s|) == Read(s, Here(data, p + |LinesBytes(s)|))
    decreases |s|
  {
    hide U2Bytes, ReadPair, Stands;
    Inside(data, p, LinesBytes(s));
    if s != [] {
      var n := |s| - 1;
      var front, last := s[..n], s[n];
      assert s == front + [last];
      Split(data, p, LinesBytes(front), LineBytes(last));
      LinesWritten(data, p, front);
      PairWritten(data, p + |LinesBytes(front)|, last.startPc, last.line);
    }
  }

  lemma ScopeWritten(data: seq<u1>, p: nat, e: ScopeEntry)
    requires Stands(data, p, ScopeBytes(e))
    ensures Here(data, p).Valid() && ReadScope(Here(data, p)) == Read(e, Here(data, p + 10))
  {
    hide Stands, U2Bytes, ReadPair;
    var names := U2Bytes(e.nameIndex) + U2Bytes(e.descriptorIndex);
    Split(data, p, U2Bytes(e.startPc) + U2Bytes(e.length), names + U2Bytes(e.index));
    Split(data, p + 4, names, U2Bytes(e.index));
    PairWritten(data, p, e.startPc, e.length);
    PairWritten(data, p + 4, e.nameIndex, e.descriptorIndex);
    StandingU2IsRead(data, p + 8, e.index);
  }

  lemma {:induction false} ScopesWritten(data: seq<u1>, p: nat, s: seq<ScopeEntry>)
    requires Stands(data, p, ScopesBytes(s))
    ensures Here(data, p).Valid() && ReadScopes(Here(data, p), |s|) == Read(s, Here(data, p + |ScopesBytes(s)|))
    decreases |s|
  {
    hide ScopeBytes, ReadScope, Stands;
    Inside(data, p, ScopesBytes(s));
    if s != [] {
      var n := |s| - 1;
      var front, last := s[..n], s[n];
      assert s == front + [last];
      Split(data, p, ScopesBytes(front), ScopeBytes(last));
      ScopesWritten(data, p, front);
      ScopeWritten(data, p + |ScopesBytes(front)|, last);
    }
  }

  lemma LinesLoaded(s: seq<LineEntry>)
    requires |s| < 0x1_0000
    ensures LoadLines(U2Bytes(|s|) + LinesBytes(s), []) == Success(s)
  {
    hide Stands, U2Bytes, LinesBytes, ReadLines;
    var data := U2Bytes(|s|) + LinesBytes(s);
    Whole(data);
    Split(data, 0, U2Bytes(|s|), LinesBytes(s));
    StandingU2IsRead(data, 0, |s|);
    LinesWritten(data, 2, s);
    assert [] + s == s;
  }

  lemma ScopesLoaded(s: seq<ScopeEntry>)
    requires |s| < 0x1_0000
    ensures LoadScopes(U2Bytes(|s|) + ScopesBytes(s), []) == Success(s)
  {
    hide Stands, U2Bytes, ScopesBytes, ReadScopes;
    var data := U2Bytes(|s|) + ScopesBytes(s);
    Whole(data);
    Split(data, 0, U2Bytes(|s|), ScopesBytes(s));
    StandingU2IsRead(data, 0, |s|);
    ScopesWritten(data, 2, s);
    assert [] + s == s;
  }

  // ----- the editor -----

  /** Tables that are there go by their names, others hold nothing. */
  predicate TablesNamed(pool: Pool, e: Editor) {
    && (if e.names.hasLines then TextIs(pool, e.names.lines, LINES) else e.lines == [] && e.names.lines == 0)
    && (if e.names.hasLocals then TextIs(pool, e.names.locals, LOCALS) else e.locals == [] && e.names.locals == 0)
    && (if e.names.hasLocalTypes then TextIs(pool, e.names.localTypes, LOCAL_TYPES)
        else e.localTypes == [] && e.names.localTypes == 0)
    && (if e.names.hasFrames then TextIs(pool, e.names.frames, FRAMES) else e.frames == [] && e.names.frames == 0)
  }

  predicate IsOther(pool: Pool, name: u2) {
    !TextIs(pool, name, LINES) && !TextIs(pool, name, LOCALS) && !TextIs(pool, name, LOCAL_TYPES) && !TextIs(pool, name, FRAMES)
  }

  predicate AllOther(pool: Pool, others: seq<Attribute>) {
    forall i :: 0 <= i < |others| ==> IsOther(pool, others[i].nameIndex)
  }

  /** The offsets inside the first n kept attributes. */
  function CollectAll(pool: Pool, others: seq<Attribute>, n: nat): Result<seq<AnnotationRef>>
    requires n <= |others|
  {
    if n == 0 then Success([])
    else
      var front :- CollectAll(pool, others, n - 1);
      if !Carrier(pool, others[n - 1].nameIndex) then Success(front)
      else
        var refs :- Collect(others[n - 1].info, n - 1, |front|);
        Success(front + refs)
  }

  predicate Storable(pool: Pool, e: Editor) {
    && AllWellFormed(e.code) && LaidOut(e.code, e.codeLength) && AllSwitchesInRange(e.code)
    && TablesFit(e) && AllTidy(e.frames) && TablesNamed(pool, e) && AllOther(pool, e.others)
    && CollectAll(pool, e.others, |e.others|) == Success(e.annotations)
  }

  lemma {:induction false} LoadTwice(pool: Pool, e: Editor, a: seq<Attribute>, b: seq<Attribute>)
    requires LoadAttributes(pool, e, a).Success?
    ensures LoadAttributes(pool, e, a + b) == LoadAttributes(pool, LoadAttributes(pool, e, a).value, b)
    decreases |b|
  {
    hide LoadAttribute;
    if b == [] {
      assert a + b == a;
    } else {
      var n := |b| - 1;
      assert (a + b)[..|a + b| - 1] == a + b[..n] && (a + b)[|a + b| - 1] == b[n];
      LoadTwice(pool, e, a, b[..n]);
    }
  }

  lemma LoadOne(pool: Pool, e: Editor, a: Attribute)
    ensures LoadAttributes(pool, e, [a]) == LoadAttribute(pool, e, a)
  {
    hide LoadAttribute;
    assert [a][..0] == [];
  }

  lemma {:induction false} OthersLoaded(pool: Pool, e: Editor, others: seq<Attribute>, n: nat)
    requires n <= |others| && AllOther(pool, others) && e.others == [] && e.annotations == []
    requires CollectAll(pool, others, n).Success?
    ensures LoadAttributes(pool, e, others[..n]) == Success(e.(others := others[..n], annotations := CollectAll(pool, others, n).value))
    decreases n
  {
    hide Collect, Carrier, LoadLines, LoadScopes, TextIs, StackMapCodec.Parse;
    if n == 0 {
      assert others[..0] == [];
    } else {
      OthersLoaded(pool, e, others, n - 1);
      var a := others[n - 1];
      assert others[..n][..n - 1] == others[..n - 1] && others[..n] == others[..n - 1] + [a];
      assert IsOther(pool, a.nameIndex);
    }
  }

  /** The editor with the tables up to some point. */
  function WithLines(base: Editor, e: Editor): Editor {
    base.(lines := e.lines, names := base.names.(hasLines := e.names.hasLines, lines := e.names.lines))
  }

  function WithLocals(base: Editor, e: Editor): Editor {
    base.(locals := e.locals, names := base.names.(hasLocals := e.names.hasLocals, locals := e.names.locals))
  }

  function WithLocalTypes(base: Editor, e: Editor): Editor {
    base.(localTypes := e.localTypes, names := base.names.(hasLocalTypes := e.names.hasLocalTypes, localTypes := e.names.localTypes))
  }

  function WithFrames(base: Editor, e: Editor): Editor {
    base.(frames := Retagged(e.frames), names := base.names.(hasFrames := e.names.hasFrames, frames := e.names.frames))
  }

  lemma LinesStage(pool: Pool, base: Editor, e: Editor)
    requires TablesNamed(pool, e) && TablesFit(e) && base.lines == [] && base.names == NO_NAMES
    ensures LoadAttributes(pool, base, if e.names.hasLines then [LinesAttribute(e)] else []) == Success(WithLines(base, e))
  {
    hide LoadLines, U2Bytes, LinesBytes, TextIs, Carrier;
    if e.names.hasLines {
      LoadOne(pool, base, LinesAttribute(e));
      LinesLoaded(e.lines);
    }
  }

  lemma LocalsStage(pool: Pool, base: Editor, e: Editor)
    requires TablesNamed(pool, e) && TablesFit(e) && base.locals == [] && !base.names.hasLocals && base.names.locals == 0
    ensures LoadAttributes(pool, base, if e.names.hasLocals then [ScopesAttribute(e.names.locals, e.locals)] else [])
         == Success(WithLocals(base, e))
  {
    hide LoadLines, LoadScopes, U2Bytes, ScopesBytes, Carrier;
    if e.names.hasLocals {
      LoadOne(pool, base, ScopesAttribute(e.names.locals, e.locals));
      ScopesLoaded(e.locals);
    }
  }

  lemma LocalTypesStage(pool: Pool, base: Editor, e: Editor)
    requires TablesNamed(pool, e) && TablesFit(e) && base.localTypes == [] && !base.names.hasLocalTypes && base.names.localTypes == 0
    ensures LoadAttributes(pool, base, if e.names.hasLocalTypes then [ScopesAttribute(e.names.localTypes, e.localTypes)] else [])
         == Success(WithLocalTypes(base, e))
  {
    hide LoadLines, LoadScopes, U2Bytes, ScopesBytes, Carrier;
    if e.names.hasLocalTypes {
      LoadOne(pool, base, ScopesAttribute(e.names.localTypes, e.localTypes));
      ScopesLoaded(e.localTypes);
    }
  }

  lemma FramesStage(pool: Pool, base: Editor, e: Editor)
    requires TablesNamed(pool, e) && TablesFit(e) && AllTidy(e.frames)
    requires base.frames == [] && !base.names.hasFrames && base.names.frames == 0
    requires e.names.hasFrames ==> StackMapCodec.Write(e.frames).Success?
    ensures LoadAttributes(pool, base, if e.names.hasFrames then [Attribute(e.names.frames, StackMapCodec.Write(e.frames).value)] else [])
         == Success(WithFrames(base, e))
  {
    hide LoadLines, LoadScopes, Carrier, StackMapCodec.Parse, StackMapCodec.Write, Tidy;
    if e.names.hasFrames {
      LoadOne(pool, base, Attribute(e.names.frames, StackMapCodec.Write(e.frames).value));
      StackMapRoundTrip.ParseOfWrite(e.frames);
    }
  }

  /** The stored tables rebuild the editor one after the other. */
  lemma TablesLoaded(pool: Pool, base: Editor, e: Editor)
    requires TablesNamed(pool, e) && TablesFit(e) && AllTidy(e.frames) && TableAttributes(e).Success?
    requires base == CodeStore.Bare(e.maxStack, e.maxLocals, e.code, e.codeLength, e.exceptions)
    ensures LoadAttributes(pool, base, TableAttributes(e).value)
         == Success(WithFrames(WithLocalTypes(WithLocals(WithLines(base, e), e), e), e))
  {
    hide LoadAttributes, LinesAttribute, ScopesAttribute, Retagged, StackMapCodec.Write, Tidy, TablesNamed;
    var lines := if e.names.hasLines then [LinesAttribute(e)] else [];
    var locals := if e.names.hasLocals then [ScopesAttribute(e.names.locals, e.locals)] else [];
    var types := if e.names.hasLocalTypes then [ScopesAttribute(e.names.localTypes, e.localTypes)] else [];
    var frames := if e.names.hasFrames then [Attribute(e.names.frames, StackMapCodec.Write(e.frames).value)] else [];
    var e1 := WithLines(base, e);
    var e2 := WithLocals(e1, e);
    var e3 := WithLocalTypes(e2, e);
    LinesStage(pool, base, e);
    LocalsStage(pool, e1, e);
    LocalTypesStage(pool, e2, e);
    FramesStage(pool, e3, e);
    LoadTwice(pool, base, lines, locals);
    LoadTwice(pool, base, lines + locals, types);
    LoadTwice(pool, base, lines + locals + types, frames);
    assert TableAttributes(e).value == lines + locals + types + frames by {
      assert lines + locals + types + [] == lines + locals + types;
    }
  }

  /** Whenever an editor can be stored, loading the result gives it back, up to
      the choice between compact and long frames. */
  lemma LoadOfStore(pool: Pool, e: Editor)
    requires Storable(pool, e) && Store(e).Success?
    ensures Load(pool, Store(e).value) == Success(e.(frames := Retagged(e.frames)))
  {
    hide TablesNamed, AllOther, TablesFit, Encode, ParseCode, CodeBytes, CodeWritable, LoadAttributes, TableAttributes, Retagged;
    hide InstructionCodec.Parse, CollectAll, WithLines, WithLocals, WithLocalTypes, WithFrames, AllWellFormed, AllSwitchesInRange, AllTidy;
    var code := Encode(e.code).value;
    var tables := TableAttributes(e).value;
    var all := CodeAttribute(e.maxStack, e.maxLocals, code, e.exceptions, tables + e.others);
    CodeParsedBack(all);
    ParseOfEncode(e.code, e.codeLength);
    var base := CodeStore.Bare(e.maxStack, e.maxLocals, e.code, e.codeLength, e.exceptions);
    TablesLoaded(pool, base, e);
    LoadTwice(pool, base, tables, e.others);
    var loaded := WithFrames(WithLocalTypes(WithLocals(WithLines(base, e), e), e), e);
    Untouched(base, e);
    assert e.others[..|e.others|] == e.others;
    OthersLoaded(pool, loaded, e.others, |e.others|);
    AllBack(e);
  }

  lemma Untouched(base: Editor, e: Editor)
    requires base.others == [] && base.annotations == []
    ensures var loaded := WithFrames(WithLocalTypes(WithLocals(WithLines(base, e), e), e), e);
      loaded.others == [] && loaded.annotations == []
  {
    hide Retagged;
  }

  lemma AllBack(e: Editor)
    ensures var base := CodeStore.Bare(e.maxStack, e.maxLocals, e.code, e.codeLength, e.exceptions);
      WithFrames(WithLocalTypes(WithLocals(WithLines(base, e), e), e), e).(others := e.others, annotations := e.annotations)
      == e.(frames := Retagged(e.frames))
  {
    hide Retagged;
  }
}
