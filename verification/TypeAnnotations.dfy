/** Finding the bytecode offsets inside a type annotation attribute (section
    4.7.20 of the JVMS), by walking everything around them. */
module TypeAnnotations {
  import opened Bytes
  import opened Status
  import opened References

  const MAX_DEPTH := 32

  // ----- stepping over annotations -----

  /** An element value; nothing if it is malformed, cut short or too deep. */
  function SkipElement(c: Cursor, depth: nat): (r: Option<Cursor>)
    requires c.Valid() && depth <= MAX_DEPTH + 1
    ensures r.Some? ==> Beyond(c, r.value)
    decreases MAX_DEPTH + 1 - depth, 1, 0
  {
    if depth > MAX_DEPTH || !ReadU1(c).rest.ok then None
    else
      var tag := ReadU1(c);
      if tag.value as char in {'B', 'C', 'D', 'F', 'I', 'J', 'S', 'Z', 's', 'c'} then Sound(ReadU2(tag.rest).rest)
      else if tag.value as char == 'e' then Sound(ReadU2(ReadU2(tag.rest).rest).rest)
      else if tag.value as char == '@' then SkipAnnotation(tag.rest, depth + 1)
      else if tag.value as char == '[' then
        var n := ReadU2(tag.rest);
        if n.rest.ok then SkipValues(n.rest, n.value, depth) else None
      else None
  }

  function Sound(c: Cursor): Option<Cursor> {
    if c.ok then Some(c) else None
  }

  /** r is further on in the same data. */
  predicate Beyond(c: Cursor, r: Cursor) {
    r.data == c.data && c.pos <= r.pos <= |c.data| && r.ok && c.ok
  }

  function SkipValues(c: Cursor, n: nat, depth: nat): (r: Option<Cursor>)
    requires c.Valid() && c.ok && depth <= MAX_DEPTH
    ensures r.Some? ==> Beyond(c, r.value)
    decreases MAX_DEPTH + 1 - depth, 0, n
  {
    if n == 0 then Some(c)
    else match SkipValues(c, n - 1, depth)
         case None => None
         case Some(rest) => SkipElement(rest, depth + 1)
  }

  function SkipAnnotation(c: Cursor, depth: nat): (r: Option<Cursor>)
    requires c.Valid() && depth <= MAX_DEPTH + 1
    ensures r.Some? ==> Beyond(c, r.value)
    decreases MAX_DEPTH + 1 - depth, 1, 0
  {
    if depth > MAX_DEPTH then None
    else
      var pairs := ReadU2(ReadU2(c).rest);
      if pairs.rest.ok then SkipPairs(pairs.rest, pairs.value, depth) else None
  }

  function SkipPairs(c: Cursor, n: nat, depth: nat): (r: Option<Cursor>)
    requires c.Valid() && c.ok && depth <= MAX_DEPTH
    ensures r.Some? ==> Beyond(c, r.value)
    decreases MAX_DEPTH + 1 - depth, 0, n
  {
    if n == 0 then Some(c)
    else match SkipPairs(c, n - 1, depth)
         case None => None
         case Some(rest) => SkipElement(ReadU2(rest).rest, depth + 1)
  }

  method SkipElementAt(c: ByteCursor, depth: nat) returns (ok: bool)
    requires c.Valid() && depth <= MAX_DEPTH + 1
    modifies c
    ensures c.Valid() && ok == SkipElement(old(c.View()), depth).Some?
    ensures ok ==> c.View() == SkipElement(old(c.View()), depth).value
    decreases MAX_DEPTH + 1 - depth
  {
    hide ReadU1, ReadU2;
    if depth > MAX_DEPTH {
      return false;
    }
    var tag := c.U1();
    if !c.ok {
      return false;
    }
    var letter := tag as char;
    if letter in {'B', 'C', 'D', 'F', 'I', 'J', 'S', 'Z', 's', 'c'} {
      var _ := c.U2();
    } else if letter == 'e' {
      var _ := c.U2();
      var _ := c.U2();
    } else if letter == '@' {
      ok := SkipAnnotationAt(c, depth + 1);
      return;
    } else if letter == '[' {
      var values := c.U2();
      if !c.ok {
        return false;
      }
      ghost var start := c.View();
      for i := 0 to values
        invariant c.Valid() && SkipValues(start, i, depth) == Some(c.View())
      {
        ok := SkipElementAt(c, depth + 1);
        if !ok {
          ValuesStayRefused(start, i + 1, values, depth);
          return;
        }
      }
    } else {
      return false;
    }
    return c.ok;
  }

  method SkipAnnotationAt(c: ByteCursor, depth: nat) returns (ok: bool)
    requires c.Valid() && depth <= MAX_DEPTH + 1
    modifies c
    ensures c.Valid() && ok == SkipAnnotation(old(c.View()), depth).Some?
    ensures ok ==> c.View() == SkipAnnotation(old(c.View()), depth).value
    decreases MAX_DEPTH + 1 - depth
  {
    hide ReadU1, ReadU2;
    if depth > MAX_DEPTH {
      return false;
    }
    var _ := c.U2();
    var pairs := c.U2();
    if !c.ok {
      return false;
    }
    ghost var start := c.View();
    for i := 0 to pairs
      invariant c.Valid() && SkipPairs(start, i, depth) == Some(c.View())
    {
      var _ := c.U2();
      ok := SkipElementAt(c, depth + 1);
      if !ok {
        PairsStayRefused(start, i + 1, pairs, depth);
        return;
      }
    }
    return c.ok;
  }

  lemma {:induction false} ValuesStayRefused(c: Cursor, i: nat, n: nat, depth: nat)
    requires c.Valid() && c.ok && depth <= MAX_DEPTH && i <= n && SkipValues(c, i, depth).None?
    ensures SkipValues(c, n, depth).None?
    decreases n
  {
    if i < n {
      ValuesStayRefused(c, i, n - 1, depth);
    }
  }

  lemma {:induction false} PairsStayRefused(c: Cursor, i: nat, n: nat, depth: nat)
    requires c.Valid() && c.ok && depth <= MAX_DEPTH && i <= n && SkipPairs(c, i, depth).None?
    ensures SkipPairs(c, n, depth).None?
    decreases n
  {
    if i < n {
      PairsStayRefused(c, i, n - 1, depth);
    }
  }

  // ----- the values that are offsets -----

  /** What was found from a cursor on, and where that left it. */
  datatype Collected = Collected(rest: Cursor, refs: seq<AnnotationRef>)

  /** The ranges of local variables: a start and a length each. have is how many
      offsets are on record already. */
  function ReadSpans(c: Cursor, n: nat, attribute: nat, have: nat): (r: Result<Collected>)
    requires c.Valid() && c.ok
    ensures r.Success? ==> Beyond(c, r.value.rest)
    decreases n
  {
    if n == 0 then Success(Collected(c, []))
    else
      var front :- ReadSpans(c, n - 1, attribute, have);
      var start := ReadU2(front.rest);
      var length := ReadU2(start.rest);
      var index := ReadU2(length.rest);
      if !index.rest.ok then Failure(TRUNCATED)
      else if have + |front.refs| == MAX_COUNT then Failure(LIMIT_EXCEEDED)
      else Success(Collected(index.rest, front.refs + [AnnotationRef(attribute, front.rest.pos, SPAN, start.value, start.value + length.value as int)]))
  }

  /** One instruction, with some bytes behind its offset. */
  function ReadInstruction(c: Cursor, extra: nat, attribute: nat, have: nat): (r: Result<Collected>)
    requires c.Valid() && c.ok
    ensures r.Success? ==> Beyond(c, r.value.rest)
  {
    var value := ReadU2(c);
    var rest := ReadBytes(value.rest, extra).rest;
    if !rest.ok then Failure(TRUNCATED)
    else if have == MAX_COUNT then Failure(LIMIT_EXCEEDED)
    else Success(Collected(rest, [AnnotationRef(attribute, c.pos, INSTRUCTION, value.value, 0)]))
  }

  function Step(c: Cursor, n: nat): (r: Result<Collected>)
    requires c.Valid() && c.ok
    ensures r.Success? ==> Beyond(c, r.value.rest)
  {
    var rest := ReadBytes(c, n).rest;
    if rest.ok then Success(Collected(rest, [])) else Failure(TRUNCATED)
  }

  /** Section 4.7.20.1 of the JVMS: only some targets hold bytecode offsets. */
  function ReadTarget(c: Cursor, target: u1, attribute: nat, have: nat): (r: Result<Collected>)
    requires c.Valid() && c.ok
    ensures r.Success? ==> Beyond(c, r.value.rest)
  {
    if target in {0x00, 0x01, 0x16} then Step(c, 1)
    else if target in {0x10, 0x17, 0x42, 0x11, 0x12} then Step(c, 2)
    else if target in {0x13, 0x14, 0x15} then Step(c, 0)
    else if target in {0x40, 0x41} then
      var n := ReadU2(c);
      if n.rest.ok then ReadSpans(n.rest, n.value, attribute, have) else Failure(TRUNCATED)
    else if 0x43 <= target <= 0x46 then ReadInstruction(c, 0, attribute, have)
    else if 0x47 <= target <= 0x4B then ReadInstruction(c, 1, attribute, have)
    else Failure(UNSUPPORTED)
  }

  /** A target, a path of two bytes a step, and the annotation itself. */
  function ReadOne(c: Cursor, attribute: nat, have: nat): (r: Result<Collected>)
    requires c.Valid() && c.ok
    ensures r.Success? ==> Beyond(c, r.value.rest)
  {
    var target := ReadU1(c);
    if !target.rest.ok then Failure(TRUNCATED)
    else
      var found :- ReadTarget(target.rest, target.value, attribute, have);
      var steps := ReadU1(found.rest);
      if !steps.rest.ok then Failure(TRUNCATED)
      else
        var path := ReadBytes(steps.rest, 2 * steps.value as int).rest;
        if !path.ok then Failure(TRUNCATED)
        else match SkipAnnotation(path, 0)
             case None => Failure(TRUNCATED)
             case Some(rest) => Success(Collected(rest, found.refs))
  }

  function ReadAll(c: Cursor, n: nat, attribute: nat, have: nat): (r: Result<Collected>)
    requires c.Valid() && c.ok
    ensures r.Success? ==> Beyond(c, r.value.rest)
    decreases n
  {
    if n == 0 then Success(Collected(c, []))
    else
      var front :- ReadAll(c, n - 1, attribute, have);
      var last :- ReadOne(front.rest, attribute, have + |front.refs|);
      Success(Collected(last.rest, front.refs + last.refs))
  }

  /** The offsets inside one attribute. */
  function Collect(payload: seq<u1>, attribute: nat, have: nat): Result<seq<AnnotationRef>> {
    var count := ReadU2(Cursor(payload, 0, true));
    if !count.rest.ok then Failure(TRUNCATED)
    else
      var all :- ReadAll(count.rest, count.value, attribute, have);
      if all.rest.Exhausted() then Success(all.refs) else Failure(TRAILING_BYTES)
  }

  // ----- as it runs -----

  method CollectTarget(c: ByteCursor, target: u1, attribute: nat, refs: seq<AnnotationRef>) returns (r: Result<seq<AnnotationRef>>)
    requires c.Valid() && c.ok && |refs| <= MAX_COUNT
    modifies c
    ensures c.Valid()
    ensures var spec := ReadTarget(old(c.View()), target, attribute, |refs|);
      if r.Success? then spec.Success? && spec.value.rest == c.View() && r.value == refs + spec.value.refs && |r.value| <= MAX_COUNT
      else spec == Failure(r.status)
  {
    hide ReadU1, ReadU2;
    ghost var start := c.View();
    if target == 0x00 || target == 0x01 || target == 0x16 {
      var _ := c.U1();
      OneByte(start);
    } else if target == 0x10 || target == 0x17 || target == 0x42 {
      var _ := c.U2();
      TwoBytes(start);
    } else if target == 0x11 || target == 0x12 {
      var _ := c.U1();
      var _ := c.U1();
      TwoBytes(start);
    } else if target == 0x13 || target == 0x14 || target == 0x15 {
      NoBytes(start);
    } else if target == 0x40 || target == 0x41 {
      r := CollectSpans(c, attribute, refs);
      return;
    } else if 0x43 <= target <= 0x4B {
      r := CollectInstruction(c, target >= 0x47, attribute, refs);
      return;
    } else {
      return Failure(UNSUPPORTED);
    }
    if !c.ok {
      return Failure(TRUNCATED);
    }
    assert refs + [] == refs;
    return Success(refs);
  }

  method CollectInstruction(c: ByteCursor, more: bool, attribute: nat, refs: seq<AnnotationRef>) returns (r: Result<seq<AnnotationRef>>)
    requires c.Valid() && c.ok && |refs| <= MAX_COUNT
    modifies c
    ensures c.Valid()
    ensures var spec := ReadInstruction(old(c.View()), if more then 1 else 0, attribute, |refs|);
      if r.Success? then spec.Success? && spec.value.rest == c.View() && r.value == refs + spec.value.refs && |r.value| <= MAX_COUNT
      else spec == Failure(r.status)
  {
    hide ReadU1, ReadU2;
    var at := c.pos;
    var value := c.U2();
    ghost var mid := c.View();
    if more {
      var _ := c.U1();
    }
    BytesBehind(mid);
    if !c.ok {
      return Failure(TRUNCATED);
    }
    if |refs| == MAX_COUNT {
      return Failure(LIMIT_EXCEEDED);
    }
    return Success(refs + [AnnotationRef(attribute, at, INSTRUCTION, value, 0)]);
  }

  method CollectSpans(c: ByteCursor, attribute: nat, refs: seq<AnnotationRef>) returns (r: Result<seq<AnnotationRef>>)
    requires c.Valid() && c.ok && |refs| <= MAX_COUNT
    modifies c
    ensures c.Valid()
    ensures var spec := ReadTarget(old(c.View()), 0x40, attribute, |refs|);
      if r.Success? then spec.Success? && spec.value.rest == c.View() && r.value == refs + spec.value.refs && |r.value| <= MAX_COUNT
      else spec == Failure(r.status)
  {
    hide ReadU1, ReadU2;
    var entries := c.U2();
    if !c.ok {
      return Failure(TRUNCATED);
    }
    ghost var start := c.View();
    var all := refs;
    assert all[|refs|..] == [];
    for i := 0 to entries
      invariant c.Valid() && c.ok && refs <= all && |all| <= MAX_COUNT
      invariant ReadSpans(start, i, attribute, |refs|) == Success(Collected(c.View(), all[|refs|..]))
    {
      var at := c.pos;
      var from := c.U2();
      var length := c.U2();
      var _ := c.U2();
      if !c.ok {
        SpansStayRefused(start, i + 1, entries, attribute, |refs|);
        return Failure(TRUNCATED);
      }
      if |all| == MAX_COUNT {
        SpansStayRefused(start, i + 1, entries, attribute, |refs|);
        return Failure(LIMIT_EXCEEDED);
      }
      var ref := AnnotationRef(attribute, at, SPAN, from, from + length as int);
      assert (all + [ref])[|refs|..] == all[|refs|..] + [ref];
      all := all + [ref];
    }
    assert all == refs + all[|refs|..];
    return Success(all);
  }

  lemma {:induction false} SpansStayRefused(c: Cursor, i: nat, n: nat, attribute: nat, have: nat)
    requires c.Valid() && c.ok && i <= n && ReadSpans(c, i, attribute, have).Failure?
    ensures ReadSpans(c, n, attribute, have) == Failure(ReadSpans(c, i, attribute, have).status)
    decreases n
  {
    if i < n {
      SpansStayRefused(c, i, n - 1, attribute, have);
    }
  }

  lemma OneByte(c: Cursor)
    requires c.Valid() && c.ok
    ensures ReadBytes(c, 1).rest == ReadU1(c).rest
  {
  }

  lemma TwoBytes(c: Cursor)
    requires c.Valid() && c.ok
    ensures ReadBytes(c, 2).rest == ReadU2(c).rest
    ensures ReadBytes(c, 2).rest.ok == ReadU1(ReadU1(c).rest).rest.ok
    ensures ReadBytes(c, 2).rest.ok ==> ReadBytes(c, 2).rest == ReadU1(ReadU1(c).rest).rest
  {
  }

  lemma NoBytes(c: Cursor)
    requires c.Valid() && c.ok
    ensures ReadBytes(c, 0).rest == c
  {
  }

  lemma BytesBehind(c: Cursor)
    requires c.Valid()
    ensures ReadBytes(c, 1).rest == ReadU1(c).rest && (c.ok ==> ReadBytes(c, 0).rest == c) && ReadBytes(c, 0).rest.ok == c.ok
  {
  }

  /** The whole attribute. */
  method CollectAttribute(payload: seq<u1>, attribute: nat, refs: seq<AnnotationRef>) returns (r: Result<seq<AnnotationRef>>)
    requires |refs| <= MAX_COUNT
    ensures var spec := Collect(payload, attribute, |refs|);
      if r.Success? then spec.Success? && r.value == refs + spec.value && |r.value| <= MAX_COUNT else spec == Failure(r.status)
  {
    hide ReadU1, ReadU2, ReadOne;
    var c := new ByteCursor(payload);
    var count := c.U2();
    if !c.ok {
      return Failure(TRUNCATED);
    }
    ghost var start := c.View();
    var all := refs;
    assert all[|refs|..] == [];
    for i := 0 to count
      invariant c.Valid() && c.ok && c.data == payload && refs <= all && |all| <= MAX_COUNT
      invariant ReadAll(start, i, attribute, |refs|) == Success(Collected(c.View(), all[|refs|..]))
    {
      var more := CollectOne(c, attribute, all);
      if more.Failure? {
        AllStayRefused(start, i + 1, count, attribute, |refs|);
        return more;
      }
      assert all[|refs|..] + more.value[|all|..] == more.value[|refs|..];
      all := more.value;
    }
    if c.pos != |payload| {
      return Failure(TRAILING_BYTES);
    }
    assert all == refs + all[|refs|..];
    return Success(all);
  }

  method CollectOne(c: ByteCursor, attribute: nat, refs: seq<AnnotationRef>) returns (r: Result<seq<AnnotationRef>>)
    requires c.Valid() && c.ok && |refs| <= MAX_COUNT
    modifies c
    ensures c.Valid()
    ensures var spec := ReadOne(old(c.View()), attribute, |refs|);
      if r.Success? then spec.Success? && spec.value.rest == c.View() && c.ok && refs <= r.value
                         && r.value[|refs|..] == spec.value.refs && |r.value| <= MAX_COUNT
      else spec == Failure(r.status)
  {
    hide ReadU1, ReadU2, ReadTarget, SkipAnnotation;
    var target := c.U1();
    if !c.ok {
      return Failure(TRUNCATED);
    }
    r := CollectTarget(c, target, attribute, refs);
    if r.Failure? {
      return;
    }
    var steps := c.U1();
    if !c.ok {
      return Failure(TRUNCATED);
    }
    ghost var start := c.View();
    hide ReadBytes;
    NoBytes(start);
    for k := 0 to steps
      invariant c.Valid() && c.ok == ReadBytes(start, 2 * k).rest.ok && (c.ok ==> c.View() == ReadBytes(start, 2 * k).rest)
      invariant c.data == start.data
    {
      var _ := c.U1();
      var _ := c.U1();
      PathStep(start, k, steps);
    }
    if !c.ok {
      return Failure(TRUNCATED);
    }
    var ok := SkipAnnotationAt(c, 0);
    if !ok {
      return Failure(TRUNCATED);
    }
  }

  lemma PathStep(c: Cursor, k: nat, n: nat)
    requires c.Valid() && c.ok
    ensures var before := ReadBytes(c, 2 * k).rest; var after := ReadBytes(c, 2 * (k + 1)).rest;
      && (before.ok ==> after.ok == ReadU1(ReadU1(before).rest).rest.ok)
      && (before.ok && after.ok ==> after == ReadU1(ReadU1(before).rest).rest)
      && (!before.ok ==> !after.ok)
  {
  }

  lemma {:induction false} AllStayRefused(c: Cursor, i: nat, n: nat, attribute: nat, have: nat)
    requires c.Valid() && c.ok && i <= n && ReadAll(c, i, attribute, have).Failure?
    ensures ReadAll(c, n, attribute, have) == Failure(ReadAll(c, i, attribute, have).status)
    decreases n
  {
    hide ReadOne;
    if i < n {
      AllStayRefused(c, i, n - 1, attribute, have);
    }
  }
}
