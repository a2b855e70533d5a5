/** The parameters a guard forwards: which instruction loads each, from which
    local, and how the callee sees it. */
module GuardParameters {
  import opened Bytes
  import opened Status
  import opened Descriptors

  const ILOAD: u1 := 21
  const LLOAD: u1 := 22
  const FLOAD: u1 := 23
  const DLOAD: u1 := 24
  const ALOAD: u1 := 25

  datatype Parameter = Parameter(load: u1, slot: nat, forwarded: char)
  datatype Description = Description(parameters: seq<Parameter>, slots: nat)
  datatype Scanned = Scanned(next: nat, load: u1, width: nat, forwarded: char)

  // ----- the walk over a descriptor -----

  /** The load and width of a value whose descriptor starts with letter. */
  function LoadOf(letter: char): Option<(u1, nat)> {
    if letter in {'B', 'C', 'S', 'Z', 'I'} then Some((ILOAD, 1))
    else if letter == 'J' then Some((LLOAD, 2))
    else if letter == 'F' then Some((FLOAD, 1))
    else if letter == 'D' then Some((DLOAD, 2))
    else if letter == 'L' then Some((ALOAD, 1))
    else None
  }

  /** One parameter; an array is loaded as its innermost element would be. */
  function DescribeOne(s: string, i: nat): (r: Option<Scanned>)
    requires i < |s|
    ensures r.Some? ==> i < r.value.next <= |s|
  {
    var j := SkipArray(s, i);
    if j == |s| || LoadOf(s[j]).None? then None
    else
      var load := LoadOf(s[j]).value;
      var forwarded := if j > i then 'L' else s[j];
      if s[j] != 'L' then Some(Scanned(j + 1, load.0, load.1, forwarded))
      else
        var end := Find(s, ';', j + 1);
        if end == |s| then None else Some(Scanned(end + 1, load.0, load.1, forwarded))
  }

  function DescribeFrom(s: string, i: nat, count: nat, slot: nat, capacity: nat): Option<Description>
    requires i <= |s|
    decreases |s| - i
  {
    if i == |s| then None
    else if s[i] == ')' then Some(Description([], slot))
    else if count == capacity || DescribeOne(s, i).None? then None
    else
      var one := DescribeOne(s, i).value;
      match DescribeFrom(s, one.next, count + 1, slot + one.width, capacity)
      case None => None
      case Some(rest) => Some(Description([Parameter(one.load, slot, one.forwarded)] + rest.parameters, rest.slots))
  }

  /** The receiver comes first, unless the method is static. */
  function Describe(s: string, isStatic: bool, capacity: nat): Option<Description> {
    if s == "" || s[0] != '(' then None
    else if isStatic then DescribeFrom(s, 1, 0, 0, capacity)
    else if capacity == 0 then None
    else match DescribeFrom(s, 1, 1, 1, capacity)
         case None => None
         case Some(rest) => Some(Description([Parameter(ALOAD, 0, 'L')] + rest.parameters, rest.slots))
  }

  /** The end of a class name, or of the text. */
  method EndOfName(s: string, start: nat) returns (end: nat)
    requires start < |s| && s[start] != ';'
    ensures end == Find(s, ';', start + 1)
  {
    end := start;
    while end < |s| && s[end] != ';'
      invariant start <= end <= |s|
      invariant end > start ==> Find(s, ';', start + 1) == Find(s, ';', end)
    {
      end := end + 1;
    }
  }

  method ScanOne(s: string, start: nat) returns (ok: bool, next: nat, load: u1, width: nat, forwarded: char)
    requires start < |s|
    ensures ok == DescribeOne(s, start).Some?
    ensures ok ==> DescribeOne(s, start).value == Scanned(next, load, width, forwarded)
  {
    next, load, width, forwarded := start, 0, 1, s[start];
    while next < |s| && s[next] == '['
      invariant start <= next <= |s| && SkipArray(s, start) == SkipArray(s, next)
      invariant forwarded == (if next > start then 'L' else s[start])
    {
      next := next + 1;
      forwarded := 'L';
    }
    if next == |s| {
      return false, next, load, width, forwarded;
    }
    var letter := s[next];
    if letter == 'B' || letter == 'C' || letter == 'S' || letter == 'Z' || letter == 'I' {
      load := ILOAD;
    } else if letter == 'J' {
      load, width := LLOAD, 2;
    } else if letter == 'F' {
      load := FLOAD;
    } else if letter == 'D' {
      load, width := DLOAD, 2;
    } else if letter == 'L' {
      load, forwarded := ALOAD, 'L';
      next := EndOfName(s, next);
      if next == |s| {
        return false, next, load, width, forwarded;
      }
    } else {
      return false, next, load, width, forwarded;
    }
    return true, next + 1, load, width, forwarded;
  }

  method DescribeParameters(s: string, isStatic: bool, capacity: nat) returns (r: Option<Description>)
    ensures r == Describe(s, isStatic, capacity)
  {
    hide DescribeOne;
    if |s| == 0 || s[0] != '(' {
      return None;
    }
    var out: seq<Parameter>, slot := [], 0;
    if !isStatic {
      if capacity == 0 {
        return None;
      }
      out, slot := [Parameter(ALOAD, 0, 'L')], 1;
    }
    ghost var first := out;
    JoinedNothing(DescribeFrom(s, 1, |first|, |first|, capacity));
    assert out[|first|..] == [];
    var i := 1;
    while i < |s| && s[i] != ')'
      invariant 1 <= i <= |s| && first <= out
      invariant Joined(out[|first|..], DescribeFrom(s, i, |out|, slot, capacity)) == DescribeFrom(s, 1, |first|, |first|, capacity)
      decreases |s| - i
    {
      if |out| == capacity {
        return None;
      }
      var ok, next, load, width, forwarded := ScanOne(s, i);
      if !ok {
        return None;
      }
      var p := Parameter(load, slot, forwarded);
      JoinedOnce(out[|first|..], p, DescribeFrom(s, next, |out| + 1, slot + width, capacity));
      assert (out + [p])[|first|..] == out[|first|..] + [p];
      out, i, slot := out + [p], next, slot + width;
    }
    if i == |s| {
      return None;
    }
    assert out == first + out[|first|..] && out[|first|..] + [] == out[|first|..];
    return Some(Description(out, slot));
  }

  function Joined(front: seq<Parameter>, rest: Option<Description>): Option<Description> {
    match rest
    case None => None
    case Some(d) => Some(Description(front + d.parameters, d.slots))
  }

  lemma JoinedNothing(rest: Option<Description>)
    ensures Joined([], rest) == rest
  {
    if rest.Some? {
      assert [] + rest.value.parameters == rest.value.parameters;
    }
  }

  lemma JoinedOnce(front: seq<Parameter>, p: Parameter, rest: Option<Description>)
    ensures Joined(front, Joined([p], rest)) == Joined(front + [p], rest)
  {
    if rest.Some? {
      assert front + ([p] + rest.value.parameters) == front + [p] + rest.value.parameters;
    }
  }

  // ----- what the walk says of a valid descriptor -----

  /** The innermost element of an array, any other type itself. */
  function Innermost(t: FieldType): FieldType {
    if t.ArrayOf? then Innermost(t.element) else t
  }

  function LetterOf(t: FieldType): char {
    match t
    case Primitive(letter) => letter
    case Reference(_) => 'L'
    case ArrayOf(_) => '['
  }

  /** The parameter of type t at slot, as the walk describes it. */
  function Described(t: FieldType, slot: nat): Parameter
    requires ValidType(t)
  {
    ValidLoad(t);
    Parameter(LoadOf(LetterOf(Innermost(t))).value.0, slot, if t.Primitive? then t.letter else 'L')
  }

  lemma {:induction false} ValidLoad(t: FieldType)
    requires ValidType(t)
    ensures !Innermost(t).ArrayOf? && LoadOf(LetterOf(Innermost(t))).Some?
    ensures LoadOf(LetterOf(Innermost(t))).value.1 == Counted(t)
  {
    if t.ArrayOf? {
      ValidLoad(t.element);
    }
  }

  function DescribedAll(types: seq<FieldType>, slot: nat): (r: seq<Parameter>)
    requires forall i :: 0 <= i < |types| ==> ValidType(types[i])
    ensures |r| == |types|
  {
    if types == [] then [] else [Described(types[0], slot)] + DescribedAll(types[1..], slot + Counted(types[0]))
  }

  lemma {:induction false} DescribeOneReads(s: string, i: nat, t: FieldType)
    requires ValidType(t) && ReadsAt(s, i, Render(t)) && i < |s|
    ensures var p := Described(t, 0);
      DescribeOne(s, i) == Some(Scanned(i + |Render(t)|, p.load, Counted(t), p.forwarded))
    decreases t
  {
    hide ReadsAt, Find;
    ReadsInside(s, i, Render(t));
    ReadsFirst(s, i, Render(t));
    ValidLoad(t);
    match t
    case Primitive(letter) =>
    case Reference(name) =>
      assert Render(t) == ['L'] + (name + [';']);
      ReadsConcat(s, i, ['L'], name + [';']);
      ReadsInside(s, i + 1, name + [';']);
      FindReads(s, i + 1, name);
    case ArrayOf(element) =>
      ReadsConcat(s, i, ['['], Render(element));
      DescribeOneReads(s, i + 1, element);
  }

  lemma {:induction false} DescribeFromReads(s: string, i: nat, types: seq<FieldType>, count: nat, slot: nat, capacity: nat)
    requires forall k :: 0 <= k < |types| ==> ValidType(types[k])
    requires i <= |s| && ReadsAt(s, i, RenderAll(types) + [')']) && count <= capacity
    ensures DescribeFrom(s, i, count, slot, capacity)
         == if count + |types| <= capacity then Some(Description(DescribedAll(types, slot), slot + CountedAll(types))) else None
    decreases |types|
  {
    hide ReadsAt, ValidType, Render, DescribeOne, Counted, Described;
    ReadsInside(s, i, RenderAll(types) + [')']);
    if types == [] {
      assert RenderAll(types) + [')'] == [')'];
      ReadsFirst(s, i, [')']);
    } else {
      assert RenderAll(types) + [')'] == Render(types[0]) + (RenderAll(types[1..]) + [')']);
      ReadsConcat(s, i, Render(types[0]), RenderAll(types[1..]) + [')']);
      ReadsFirst(s, i, Render(types[0]));
      ReadsInside(s, i, Render(types[0]));
      TypeIsNotClosing(types[0]);
      DescribeOneReads(s, i, types[0]);
      DescribedParts(types[0], slot);
      if count < capacity {
        DescribeFromReads(s, i + |Render(types[0])|, types[1..], count + 1, slot + Counted(types[0]), capacity);
      }
    }
  }

  lemma DescribedParts(t: FieldType, slot: nat)
    requires ValidType(t)
    ensures Described(t, slot) == Parameter(Described(t, 0).load, slot, Described(t, 0).forwarded)
  {
  }

  function Receiver(isStatic: bool): (r: seq<Parameter>)
    ensures |r| == if isStatic then 0 else 1
  {
    if isStatic then [] else [Parameter(ALOAD, 0, 'L')]
  }

  /** A valid descriptor is described in full, unless there are too many. */
  lemma DescribeReads(m: MethodType, isStatic: bool, capacity: nat)
    requires ValidMethod(m)
    ensures var first := Receiver(isStatic);
      Describe(RenderMethod(m), isStatic, capacity)
      == if |first| + |m.parameters| <= capacity
         then Some(Description(first + DescribedAll(m.parameters, |first|), |first| + CountedAll(m.parameters)))
         else None
  {
    hide ReadsAt, DescribeFrom, Counted, CountedAll, RenderAll, Render, Described;
    var s := RenderMethod(m);
    var tail := if m.result == [] then ['V'] else Render(m.result[0]);
    var all := RenderAll(m.parameters);
    assert s == ['('] + (all + [')']) + tail;
    ReadsWhole(s);
    ReadsConcat(s, 0, ['('] + (all + [')']), tail);
    ReadsConcat(s, 0, ['('], all + [')']);
    if |Receiver(isStatic)| <= capacity {
      DescribeFromReads(s, 1, m.parameters, |Receiver(isStatic)|, |Receiver(isStatic)|, capacity);
    }
    assert [] + DescribedAll(m.parameters, 0) == DescribedAll(m.parameters, 0);
  }

  // ----- when that is what the JVM holds in its locals -----

  /** The instruction that loads a value of type t, and the local it is in. */
  function TrueLoads(types: seq<FieldType>, slot: nat): (r: seq<(u1, nat)>)
    requires forall i :: 0 <= i < |types| ==> ValidType(types[i])
    ensures |r| == |types|
  {
    if types == [] then []
    else assert ValidType(types[0]);
         [(if types[0].Primitive? then LoadOf(types[0].letter).value.0 else ALOAD, slot)]
         + TrueLoads(types[1..], slot + Slots(types[0]))
  }

  predicate PrimitiveArray(t: FieldType) {
    t.ArrayOf? && Innermost(t).Primitive?
  }

  predicate Agrees(p: Parameter, load: (u1, nat)) {
    p.load == load.0 && p.slot == load.1
  }

  predicate AllAgree(ps: seq<Parameter>, loads: seq<(u1, nat)>) {
    |ps| == |loads| && forall i :: 0 <= i < |ps| ==> Agrees(ps[i], loads[i])
  }

  /** Every load is right exactly when no parameter is an array of primitives. */
  lemma {:induction false} LoadsExact(types: seq<FieldType>, slot: nat)
    requires forall i :: 0 <= i < |types| ==> ValidType(types[i])
    ensures AllAgree(DescribedAll(types, slot), TrueLoads(types, slot))
       <==> forall i :: 0 <= i < |types| ==> !PrimitiveArray(types[i])
    decreases |types|
  {
    if types != [] {
      LoadExact(types[0]);
      var ps, loads := DescribedAll(types, slot), TrueLoads(types, slot);
      hide Described, Counted, PrimitiveArray, LoadOf, ValidType;
      assert forall i :: 0 < i < |types| ==> types[i] == types[1..][i - 1];
      if PrimitiveArray(types[0]) {
        assert !Agrees(ps[0], loads[0]);
      } else {
        LoadsExact(types[1..], slot + Slots(types[0]));
        assert ps[1..] == DescribedAll(types[1..], slot + Slots(types[0]));
        assert loads[1..] == TrueLoads(types[1..], slot + Slots(types[0]));
        AgreeStep(ps, loads);
      }
    }
  }

  /** One where they are not: the array is loaded as a long, and what follows it
      one local too far. */
  lemma LongArrayIsMisloaded()
    ensures Describe("([JI)V", true, 64) == Some(Description([Parameter(LLOAD, 0, 'L'), Parameter(ILOAD, 2, 'I')], 3))
    ensures RenderMethod(MethodType([ArrayOf(Primitive('J')), Primitive('I')], [])) == "([JI)V"
    ensures TrueLoads([ArrayOf(Primitive('J')), Primitive('I')], 0) == [(ALOAD, 0), (ILOAD, 1)]
  {
    var types := [ArrayOf(Primitive('J')), Primitive('I')];
    assert types[1..] == [Primitive('I')] && types[1..][1..] == [];
    var s := "([JI)V";
    assert DescribeOne(s, 3) == Some(Scanned(4, ILOAD, 1, 'I'));
    assert SkipArray(s, 1) == 2 && DescribeOne(s, 1) == Some(Scanned(3, LLOAD, 2, 'L'));
    hide DescribeOne, SkipArray;
    assert DescribeFrom(s, 4, 2, 3, 64) == Some(Description([], 3));
    assert [Parameter(ILOAD, 2, 'I')] + [] == [Parameter(ILOAD, 2, 'I')];
    assert DescribeFrom(s, 3, 1, 2, 64) == Some(Description([Parameter(ILOAD, 2, 'I')], 3));
    assert [Parameter(LLOAD, 0, 'L')] + [Parameter(ILOAD, 2, 'I')] == [Parameter(LLOAD, 0, 'L'), Parameter(ILOAD, 2, 'I')];
    assert DescribeFrom(s, 1, 0, 0, 64) == Some(Description([Parameter(LLOAD, 0, 'L'), Parameter(ILOAD, 2, 'I')], 3));
  }

  lemma AgreeStep(ps: seq<Parameter>, loads: seq<(u1, nat)>)
    requires |ps| == |loads| > 0 && Agrees(ps[0], loads[0])
    ensures AllAgree(ps, loads) <==> AllAgree(ps[1..], loads[1..])
  {
    if AllAgree(ps[1..], loads[1..]) {
      forall i | 0 <= i < |ps| ensures Agrees(ps[i], loads[i]) {
        if i > 0 {
          assert Agrees(ps[1..][i - 1], loads[1..][i - 1]);
        }
      }
    }
  }

  lemma LoadExact(t: FieldType)
    requires ValidType(t)
    ensures forall slot: nat :: Described(t, slot).slot == slot
    ensures forall slot: nat :: Described(t, slot).load == (if t.Primitive? then LoadOf(t.letter).value.0 else ALOAD)
                           <==> !PrimitiveArray(t)
    ensures !PrimitiveArray(t) ==> Counted(t) == Slots(t)
  {
    ValidLoad(t);
    InnermostCounts(t);
  }

  lemma {:induction false} InnermostCounts(t: FieldType)
    ensures Counted(t) == Slots(Innermost(t)) && !Innermost(t).ArrayOf?
    ensures ValidType(t) ==> ValidType(Innermost(t))
  {
    if t.ArrayOf? {
      InnermostCounts(t.element);
    }
  }
}
