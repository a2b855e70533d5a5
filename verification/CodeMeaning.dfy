/** What a Code attribute and the tables inside it say, read off their bytes and
    their names (sections 4.7.3 and 4.7.12 to 4.7.14 of the JVMS). */
module CodeMeaning {
  import opened Bytes
  import opened BigEndian
  import opened Status
  import opened Instructions
  import opened References
  import opened ConstantPool
  import opened ClassFileCodec
  import opened StackMapCodec
  import opened TypeAnnotations
  import opened CodeStore
  import opened CodeParsed

  // ----- attributes one after the other -----

  /** attribute_name_index, attribute_length, info. */
  predicate AttributeStands(d: seq<u1>, p: nat, a: Attribute, end: nat) {
    && p + 6 <= end <= |d|
    && a.nameIndex == Unsigned2(d, p) && |a.info| == Unsigned4(d, p + 2) && end == p + 6 + |a.info| && a.info == d[p + 6..end]
  }

  /** ends[k] is where attribute k starts and ends[k + 1] where it ends. */
  predicate AttributesStand(d: seq<u1>, p: nat, s: seq<Attribute>, ends: seq<nat>) {
    && |ends| == |s| + 1 && ends[0] == p
    && forall k :: 0 <= k < |s| ==> AttributeStands(d, ends[k], s[k], ends[k + 1])
  }

  lemma AttributeRead(c: Cursor)
    requires c.Valid() && ReadAttribute(c).Success?
    ensures var r := ReadAttribute(c).value;
      AttributeStands(c.data, c.pos, r.value, r.rest.pos) && r.rest == Cursor(c.data, r.rest.pos, true) && c.ok
  {
    hide ReadU2, ReadU4, ReadBytes, Unsigned2, Unsigned4;
    var name := ReadU2(c);
    var length := ReadU4(name.rest);
    ReadSlice(length.rest, length.value);
    WasOk(name.rest);
    WasOk(c);
    Read2(c);
    Read4(name.rest);
  }

  lemma {:induction false} AttributeRunRead(c: Cursor, n: nat) returns (ends: seq<nat>)
    requires c.Valid() && c.ok && ReadAttributeRun(c, n).Success?
    ensures var r := ReadAttributeRun(c, n).value;
      && AttributesStand(c.data, c.pos, r.value, ends) && r.rest == Cursor(c.data, ends[n], true)
    decreases n
  {
    hide ReadAttribute, AttributeStands;
    if n == 0 {
      ends := [c.pos];
    } else {
      var front, r := ReadAttributeRun(c, n - 1).value, ReadAttributeRun(c, n).value;
      var before := AttributeRunRead(c, n - 1);
      AttributeRead(front.rest);
      ends := before + [r.rest.pos];
      forall k | 0 <= k < n ensures AttributeStands(c.data, ends[k], r.value[k], ends[k + 1]) {
        if k < n - 1 {
          assert ends[k] == before[k] && ends[k + 1] == before[k + 1] && r.value[k] == front.value[k];
        }
      }
    }
  }

  // ----- the Code attribute -----

  /** start_pc, end_pc, handler_pc, catch_type. */
  predicate ExceptionStands(d: seq<u1>, p: nat, e: ExceptionEntry) {
    && p + 8 <= |d|
    && e.startPc == Unsigned2(d, p) && e.endPc == Unsigned2(d, p + 2)
    && e.handlerPc == Unsigned2(d, p + 4) && e.catchType == Unsigned2(d, p + 6)
  }

  lemma ExceptionRead(c: Cursor)
    requires c.Valid() && ReadException(c).rest.ok
    ensures ExceptionStands(c.data, c.pos, ReadException(c).value)
    ensures ReadException(c).rest == Cursor(c.data, c.pos + 8, true) && c.ok
  {
    hide ReadU2, Unsigned2;
    var a := ReadU2(c);
    var b := ReadU2(a.rest);
    var h := ReadU2(b.rest);
    WasOk(h.rest);
    WasOk(b.rest);
    WasOk(a.rest);
    WasOk(c);
    Read2(c);
    Read2(a.rest);
    Read2(b.rest);
    Read2(h.rest);
  }

  predicate ExceptionsStand(d: seq<u1>, p: nat, s: seq<ExceptionEntry>) {
    forall k :: 0 <= k < |s| ==> ExceptionStands(d, p + 8 * k, s[k])
  }

  lemma {:induction false} ExceptionsRead(c: Cursor, n: nat)
    requires c.Valid() && c.ok && ReadExceptions(c, n).Success?
    ensures ExceptionsStand(c.data, c.pos, ReadExceptions(c, n).value.value)
    ensures ReadExceptions(c, n).value.rest == Cursor(c.data, c.pos + 8 * n, true)
    decreases n
  {
    hide ReadException, ExceptionStands;
    if n > 0 {
      ExceptionsRead(c, n - 1);
      ExceptionRead(ReadExceptions(c, n - 1).value.rest);
    }
  }

  /** max_stack, max_locals, code_length, code, exception_table_length, the exception
      table, attributes_count, the attributes; from the first count that is missing on
      there is nothing. */
  ghost predicate CodeStands(p: seq<u1>, c: CodeAttribute) {
    && |p| >= 8 && c.maxStack == Unsigned2(p, 0) && c.maxLocals == Unsigned2(p, 2)
    && |c.code| == Unsigned4(p, 4) && 8 + |c.code| <= |p| && c.code == p[8..8 + |c.code|]
    && var e := 8 + |c.code|;
    if e + 2 > |p| then c.exceptions == [] && c.attributes == [] && e == |p|
    else
      var a := e + 2 + 8 * |c.exceptions|;
      && |c.exceptions| == Unsigned2(p, e) && ExceptionsStand(p, e + 2, c.exceptions) && a <= |p|
      && if a + 2 > |p| then c.attributes == [] && a == |p|
         else |c.attributes| == Unsigned2(p, a)
              && exists ends :: AttributesStand(p, a + 2, c.attributes, ends) && ends[|c.attributes|] == |p|
  }

  lemma FrontRead(p: seq<u1>)
    requires ParseCode(p).Success?
    ensures var c := ParseCode(p).value;
      && |p| >= 8 && c.maxStack == Unsigned2(p, 0) && c.maxLocals == Unsigned2(p, 2)
      && |c.code| == Unsigned4(p, 4) && 8 + |c.code| <= |p| && c.code == p[8..8 + |c.code|]
      && |c.code| == U4At(p, 4)
      && ReadBytes(Cursor(p, 8, true), U4At(p, 4)).rest == Cursor(p, CodeEnd(p), true) && CodeEnd(p) == 8 + |c.code|
  {
    hide ReadU2, ReadU4, ReadBytes, Unsigned2, Unsigned4, ReadExceptions, ReadNested;
    var a := ReadU2(Cursor(p, 0, true));
    var b := ReadU2(a.rest);
    var length := ReadU4(b.rest);
    ReadSlice(length.rest, length.value);
    WasOk(b.rest);
    WasOk(a.rest);
    Read2(Cursor(p, 0, true));
    Read2(a.rest);
    Read4(b.rest);
    SameNumber(p, 4);
  }

  lemma SameNumber(p: seq<u1>, at: nat)
    requires at + 4 <= |p|
    ensures Unsigned4(p, at) == U4At(p, at)
  {
  }

  lemma NestedRead(c: Cursor)
    requires c.Valid() && c.ok && ReadNested(c).Success? && ReadNested(c).value.rest.Exhausted()
    ensures var s := ReadNested(c).value.value;
      if c.pos + 2 > |c.data| then s == [] && c.pos == |c.data|
      else |s| == Unsigned2(c.data, c.pos)
           && exists ends :: AttributesStand(c.data, c.pos + 2, s, ends) && ends[|s|] == |c.data|
  {
    hide ReadAttributeRun, AttributesStand;
    if c.pos + 2 <= |c.data| {
      Read2(c);
      var count := ReadU2(c);
      EmptyRun(count.rest);
      var ends := AttributeRunRead(count.rest, count.value);
      RunEnds(c.data, c.pos + 2, ReadNested(c).value.value, ends);
    }
  }

  lemma EmptyRun(c: Cursor)
    requires c.Valid() && c.ok
    ensures ReadAttributeRun(c, 0) == Success(Read([], c))
  {
  }

  lemma RunEnds(d: seq<u1>, p: nat, s: seq<Attribute>, ends: seq<nat>)
    requires AttributesStand(d, p, s, ends)
    ensures |ends| == |s| + 1
  {
    hide AttributeStands;
  }

  /** An accepted Code attribute is parsed to what its bytes say, field by field. */
  lemma CodeMeans(p: seq<u1>)
    requires ParseCode(p).Success?
    ensures CodeStands(p, ParseCode(p).value)
  {
    FrontRead(p);
    hide ParseCode, ReadU2, ReadExceptions, ReadNested, Unsigned2, Unsigned4, ExceptionsStand, AttributesStand;
    BackParsed(p);
    var e := CodeEnd(p);
    var at := Cursor(p, e, true);
    var count := ReadU2(at);
    ReadCount(p, e);
    if e + 2 <= |p| {
      Read2(at);
      ExceptionsRead(count.rest, count.value);
      NestedRead(ReadExceptions(count.rest, count.value).value.rest);
    } else {
      NothingRead(count.rest);
    }
  }

  // ----- the tables, by the names of their attributes -----

  /** line_number_table_length; start_pc, line_number. */
  predicate LinesStand(info: seq<u1>, more: seq<LineEntry>) {
    && |info| >= 2 && |more| == Unsigned2(info, 0) && 2 + 4 * |more| <= |info|
    && forall k :: 0 <= k < |more| ==> LineStands(info, 2 + 4 * k, more[k])
  }

  predicate LineStands(d: seq<u1>, p: nat, e: LineEntry) {
    p + 4 <= |d| && e.startPc == Unsigned2(d, p) && e.line == Unsigned2(d, p + 2)
  }

  /** local_variable_table_length; start_pc, length, name_index, descriptor_index or
      signature_index, index. */
  predicate ScopesStand(info: seq<u1>, more: seq<ScopeEntry>) {
    && |info| >= 2 && |more| == Unsigned2(info, 0) && 2 + 10 * |more| <= |info|
    && forall k :: 0 <= k < |more| ==> ScopeStands(info, 2 + 10 * k, more[k])
  }

  predicate ScopeStands(d: seq<u1>, p: nat, e: ScopeEntry) {
    && p + 10 <= |d| && e.startPc == Unsigned2(d, p) && e.length == Unsigned2(d, p + 2)
    && e.nameIndex == Unsigned2(d, p + 4) && e.descriptorIndex == Unsigned2(d, p + 6) && e.index == Unsigned2(d, p + 8)
  }

  lemma {:induction false} LinesRead(c: Cursor, n: nat)
    requires c.Valid() && ReadLines(c, n).rest.ok
    ensures c.ok && ReadLines(c, n).rest == Cursor(c.data, c.pos + 4 * n, true) && c.pos + 4 * n <= |c.data|
    ensures forall k :: 0 <= k < n ==> LineStands(c.data, c.pos + 4 * k, ReadLines(c, n).value[k])
    decreases n
  {
    hide ReadU2, Unsigned2;
    if n > 0 {
      var front := ReadLines(c, n - 1);
      var a := ReadU2(front.rest);
      WasOk(a.rest);
      WasOk(front.rest);
      LinesRead(c, n - 1);
      Read2(front.rest);
      Read2(a.rest);
    }
  }

  lemma ScopeRead(c: Cursor)
    requires c.Valid() && ReadScope(c).rest.ok
    ensures ScopeStands(c.data, c.pos, ReadScope(c).value) && ReadScope(c).rest == Cursor(c.data, c.pos + 10, true) && c.ok
  {
    hide ReadU2, Unsigned2;
    var a := ReadU2(c);
    var b := ReadU2(a.rest);
    var n := ReadU2(b.rest);
    var d := ReadU2(n.rest);
    WasOk(d.rest);
    WasOk(n.rest);
    WasOk(b.rest);
    WasOk(a.rest);
    WasOk(c);
    Read2(c);
    Read2(a.rest);
    Read2(b.rest);
    Read2(n.rest);
    Read2(d.rest);
  }

  lemma {:induction false} ScopesRead(c: Cursor, n: nat)
    requires c.Valid() && ReadScopes(c, n).rest.ok
    ensures c.ok && ReadScopes(c, n).rest == Cursor(c.data, c.pos + 10 * n, true) && c.pos + 10 * n <= |c.data|
    ensures forall k :: 0 <= k < n ==> ScopeStands(c.data, c.pos + 10 * k, ReadScopes(c, n).value[k])
    decreases n
  {
    hide ReadScope, ScopeStands;
    if n > 0 {
      ScopeRead(ReadScopes(c, n - 1).rest);
      ScopesRead(c, n - 1);
    }
  }

  lemma LinesLoaded(info: seq<u1>, lines: seq<LineEntry>) returns (more: seq<LineEntry>)
    requires LoadLines(info, lines).Success?
    ensures LoadLines(info, lines).value == lines + more && LinesStand(info, more)
  {
    hide ReadLines, Unsigned2, ReadU2;
    var start := Cursor(info, 0, true);
    Read2(start);
    var count := ReadU2(start);
    LinesRead(count.rest, count.value);
    more := ReadLines(count.rest, count.value).value;
  }

  lemma ScopesLoaded(info: seq<u1>, scopes: seq<ScopeEntry>) returns (more: seq<ScopeEntry>)
    requires LoadScopes(info, scopes).Success?
    ensures LoadScopes(info, scopes).value == scopes + more && ScopesStand(info, more)
  {
    hide ReadScopes, Unsigned2, ReadU2;
    var start := Cursor(info, 0, true);
    Read2(start);
    var count := ReadU2(start);
    ScopesRead(count.rest, count.value);
    more := ReadScopes(count.rest, count.value).value;
  }

  /** What one attribute adds to the editor, by its name. */
  ghost predicate AttributeMeans(name: Option<string>, e: Editor, a: Attribute, r: Editor) {
    match name
    case Some("LineNumberTable") =>
      exists more :: LinesStand(a.info, more)
        && r == e.(lines := e.lines + more, names := e.names.(hasLines := true, lines := a.nameIndex))
    case Some("LocalVariableTable") =>
      exists more :: ScopesStand(a.info, more)
        && r == e.(locals := e.locals + more, names := e.names.(hasLocals := true, locals := a.nameIndex))
    case Some("LocalVariableTypeTable") =>
      exists more :: ScopesStand(a.info, more)
        && r == e.(localTypes := e.localTypes + more, names := e.names.(hasLocalTypes := true, localTypes := a.nameIndex))
    case Some("StackMapTable") =>
      && !e.names.hasFrames && StackMapCodec.Parse(a.info).Success?
      && r == e.(frames := StackMapCodec.Parse(a.info).value, names := e.names.(hasFrames := true, frames := a.nameIndex))
    case Some("RuntimeVisibleTypeAnnotations") => CarrierMeans(e, a, r)
    case Some("RuntimeInvisibleTypeAnnotations") => CarrierMeans(e, a, r)
    case _ => r == e.(others := e.others + [a])
  }

  predicate CarrierMeans(e: Editor, a: Attribute, r: Editor) {
    && Collect(a.info, |e.others|, |e.annotations|).Success?
    && r == e.(others := e.others + [a], annotations := e.annotations + Collect(a.info, |e.others|, |e.annotations|).value)
  }

  /** An attribute is taken for the table its name says, and kept as it is if it has
      any other name. */
  lemma LoadMeans(pool: Pool, e: Editor, a: Attribute)
    requires LoadAttribute(pool, e, a).Success?
    ensures AttributeMeans(TextAt(pool, a.nameIndex), e, a, LoadAttribute(pool, e, a).value)
  {
    hide LoadLines, LoadScopes, StackMapCodec.Parse, Collect, LinesStand, ScopesStand, TextAt;
    var name := TextAt(pool, a.nameIndex);
    if name == Some("LineNumberTable") {
      var more := LinesLoaded(a.info, e.lines);
    } else if name == Some("LocalVariableTable") {
      var more := ScopesLoaded(a.info, e.locals);
    } else if name == Some("LocalVariableTypeTable") {
      var more := ScopesLoaded(a.info, e.localTypes);
    }
  }
}
