/** Field and method descriptors (section 4.3 of the JVMS): their grammar, and
    the scan that counts argument and result slots. */
module Descriptors {
  import opened Bytes
  import opened Status

  datatype FieldType = Primitive(letter: char) | Reference(name: string) | ArrayOf(element: FieldType)

  /** result is empty for void. */
  datatype MethodType = MethodType(parameters: seq<FieldType>, result: seq<FieldType>)

  predicate IsPrimitive(letter: char) {
    letter in {'B', 'C', 'D', 'F', 'I', 'J', 'S', 'Z'}
  }

  predicate ValidType(t: FieldType) {
    match t
    case Primitive(letter) => IsPrimitive(letter)
    case Reference(name) => ';' !in name && '\0' !in name
    case ArrayOf(element) => ValidType(element)
  }

  predicate ValidMethod(m: MethodType) {
    && (forall i :: 0 <= i < |m.parameters| ==> ValidType(m.parameters[i]))
    && |m.result| <= 1
    && (|m.result| == 1 ==> ValidType(m.result[0]))
  }

  function Render(t: FieldType): (s: string)
    ensures |s| >= 1
  {
    match t
    case Primitive(letter) => [letter]
    case Reference(name) => ['L'] + name + [';']
    case ArrayOf(element) => ['['] + Render(element)
  }

  function RenderAll(types: seq<FieldType>): string {
    if types == [] then [] else Render(types[0]) + RenderAll(types[1..])
  }

  function RenderMethod(m: MethodType): string {
    ['('] + RenderAll(m.parameters) + [')'] + (if m.result == [] then ['V'] else Render(m.result[0]))
  }

  // ----- what the JVM reserves -----

  function Slots(t: FieldType): nat {
    if t.Primitive? && (t.letter == 'J' || t.letter == 'D') then 2 else 1
  }

  function SlotsOfAll(types: seq<FieldType>): nat {
    if types == [] then 0 else Slots(types[0]) + SlotsOfAll(types[1..])
  }

  // ----- what the scan counts -----

  /** The first position from i on that does not hold an array bracket. */
  function SkipArray(s: string, i: nat): (j: nat)
    requires i <= |s|
    ensures i <= j <= |s| && (j < |s| ==> s[j] != '[')
    decreases |s| - i
  {
    if i < |s| && s[i] == '[' then SkipArray(s, i + 1) else i
  }

  /** The first position from i on that holds c, or the end. */
  function Find(s: string, c: char, i: nat): (j: nat)
    requires i <= |s|
    ensures i <= j <= |s| && (j < |s| ==> s[j] == c)
    ensures forall k :: i <= k < j ==> s[k] != c
    decreases |s| - i
  {
    if i < |s| && s[i] != c then Find(s, c, i + 1) else i
  }

  datatype SlotCount = SlotCount(arguments: nat, result: nat)
  datatype Scan = Scan(next: nat, width: nat)

  /** One parameter: the width of an array is taken from its element. */
  function ScanParameter(s: string, i: nat): (r: Option<Scan>)
    requires i < |s|
    ensures r.Some? ==> i < r.value.next <= |s|
  {
    var j := SkipArray(s, i);
    if j >= |s| then None
    else if s[j] == 'L' then
      var end := Find(s, ';', j + 1);
      if end >= |s| then None else Some(Scan(end + 1, 1))
    else Some(Scan(j + 1, if s[j] == 'J' || s[j] == 'D' then 2 else 1))
  }

  /** Parameters from i on; next is left on the closing parenthesis. */
  function ScanParameters(s: string, i: nat, slots: nat): (r: Option<Scan>)
    requires i <= |s|
    ensures r.Some? ==> i <= r.value.next <= |s|
    decreases |s| - i
  {
    if i < |s| && s[i] != ')' then
      match ScanParameter(s, i)
      case None => None
      case Some(p) => ScanParameters(s, p.next, ToU2(slots + p.width))
    else Some(Scan(i, slots))
  }

  function ScanResult(s: string, i: nat): Option<nat>
    requires i <= |s|
  {
    if i >= |s| then None
    else
      var j := SkipArray(s, i);
      if j >= |s| then None
      else Some(if s[j] == 'V' then 0 else if s[j] == 'J' || s[j] == 'D' then 2 else 1)
  }

  /** The slots the scan reports for a method or field descriptor. */
  function DescriptorSlots(s: string): Option<SlotCount> {
    if s == [] then None
    else if s[0] == '(' then
      match ScanParameters(s, 1, 0)
      case None => None
      case Some(p) =>
        if p.next >= |s| then None
        else match ScanResult(s, p.next + 1)
             case None => None
             case Some(result) => Some(SlotCount(p.width, result))
    else match ScanResult(s, 0)
         case None => None
         case Some(result) => Some(SlotCount(0, result))
  }

  // The scan as it runs: one cursor moved over the text.

  method ParameterWidth(s: string, start: nat) returns (ok: bool, next: nat, width: nat)
    requires start < |s|
    ensures ok <==> ScanParameter(s, start).Some?
    ensures ok ==> ScanParameter(s, start) == Some(Scan(next, width))
  {
    var cursor := start;
    ok, next, width := false, 0, 0;
    while cursor < |s| && s[cursor] == '['
      invariant start <= cursor <= |s| && SkipArray(s, cursor) == SkipArray(s, start)
    {
      cursor := cursor + 1;
    }
    if cursor >= |s| {
      return;
    }
    if s[cursor] == 'L' {
      ghost var open := cursor + 1;
      cursor := cursor + 1;
      while cursor < |s| && s[cursor] != ';'
        invariant open <= cursor <= |s| && Find(s, ';', cursor) == Find(s, ';', open)
      {
        cursor := cursor + 1;
      }
      if cursor >= |s| {
        return;
      }
      return true, cursor + 1, 1;
    }
    return true, cursor + 1, if s[cursor] == 'J' || s[cursor] == 'D' then 2 else 1;
  }

  method ResultWidth(s: string, start: nat) returns (ok: bool, result: nat)
    requires start <= |s|
    ensures ok <==> ScanResult(s, start).Some?
    ensures ok ==> ScanResult(s, start) == Some(result)
  {
    ok, result := false, 0;
    var cursor := start;
    if cursor >= |s| {
      return;
    }
    while s[cursor] == '['
      invariant start <= cursor < |s| && SkipArray(s, cursor) == SkipArray(s, start)
      decreases |s| - cursor
    {
      cursor := cursor + 1;
      if cursor >= |s| {
        return;
      }
    }
    result := 1;
    if s[cursor] == 'V' {
      result := 0;
    } else if s[cursor] == 'J' || s[cursor] == 'D' {
      result := 2;
    }
    ok := true;
  }

  method CountSlots(s: string) returns (ok: bool, arguments: nat, result: nat)
    ensures ok <==> DescriptorSlots(s).Some?
    ensures ok ==> DescriptorSlots(s) == Some(SlotCount(arguments, result))
  {
    hide ToU2, ScanParameter, ScanResult;
    ok, arguments, result := false, 0, 0;
    if |s| == 0 {
      return;
    }
    var cursor := 0;
    if s[cursor] == '(' {
      cursor := cursor + 1;
      while cursor < |s| && s[cursor] != ')'
        invariant 1 <= cursor <= |s|
        invariant ScanParameters(s, cursor, arguments) == ScanParameters(s, 1, 0)
        decreases |s| - cursor
      {
        var known, next, width := ParameterWidth(s, cursor);
        if !known {
          return;
        }
        cursor := next;
        arguments := ToU2(arguments + width);
      }
      if cursor >= |s| {
        return;
      }
      cursor := cursor + 1;
    }
    ok, result := ResultWidth(s, cursor);
  }

  // ----- the scan on well-formed descriptors -----

  /** s reads t at position i and goes on behind it. */
  predicate ReadsAt(s: string, i: nat, t: string) {
    i + |t| <= |s| && s[i..i + |t|] == t
  }

  lemma ReadsConcat(s: string, i: nat, a: string, b: string)
    requires ReadsAt(s, i, a + b)
    ensures ReadsAt(s, i, a) && ReadsAt(s, i + |a|, b)
  {
    assert s[i..i + |a|] == s[i..i + |a + b|][..|a|];
    assert s[i + |a|..i + |a| + |b|] == s[i..i + |a + b|][|a|..];
  }

  /** What the scan takes an array of t for: its innermost element. */
  function Counted(t: FieldType): (n: nat)
    ensures 1 <= n <= 2
  {
    match t
    case ArrayOf(element) => Counted(element)
    case _ => Slots(t)
  }

  function CountedAll(types: seq<FieldType>): nat {
    if types == [] then 0 else Counted(types[0]) + CountedAll(types[1..])
  }

  lemma ReadsInside(s: string, i: nat, t: string)
    requires ReadsAt(s, i, t)
    ensures i + |t| <= |s|
  {
  }

  lemma TypeIsNotClosing(t: FieldType)
    requires ValidType(t)
    ensures Render(t)[0] != ')'
  {
  }

  lemma ReadsFirst(s: string, i: nat, t: string)
    requires ReadsAt(s, i, t) && |t| > 0
    ensures s[i] == t[0]
  {
    assert s[i..i + |t|][0] == t[0];
  }

  lemma {:induction false} FindReads(s: string, i: nat, name: string)
    requires ReadsAt(s, i, name + [';']) && ';' !in name
    ensures Find(s, ';', i) == i + |name|
    decreases |name|
  {
    if name != [] {
      ReadsConcat(s, i, [name[0]], name[1..] + [';']) by {
        assert name + [';'] == [name[0]] + (name[1..] + [';']);
      }
      ReadsFirst(s, i, [name[0]]);
      assert name[0] in name;
      FindReads(s, i + 1, name[1..]);
    } else {
      ReadsFirst(s, i, name + [';']);
    }
  }

  lemma {:induction false} ScanParameterReads(s: string, i: nat, t: FieldType)
    requires ValidType(t) && ReadsAt(s, i, Render(t))
    ensures ScanParameter(s, i) == Some(Scan(i + |Render(t)|, Counted(t)))
    decreases t
  {
    hide ReadsAt, Find;
    ReadsInside(s, i, Render(t));
    ReadsFirst(s, i, Render(t));
    match t
    case Primitive(letter) =>
    case Reference(name) =>
      assert Render(t) == ['L'] + (name + [';']);
      ReadsConcat(s, i, ['L'], name + [';']);
      ReadsInside(s, i + 1, name + [';']);
      FindReads(s, i + 1, name);
    case ArrayOf(element) =>
      ReadsConcat(s, i, ['['], Render(element));
      ScanParameterReads(s, i + 1, element);
  }

  lemma {:induction false} ScanParametersRead(s: string, i: nat, types: seq<FieldType>, slots: nat)
    requires forall k :: 0 <= k < |types| ==> ValidType(types[k])
    requires ReadsAt(s, i, RenderAll(types) + [')']) && slots + CountedAll(types) < 0x1_0000
    ensures ScanParameters(s, i, slots) == Some(Scan(i + |RenderAll(types)|, slots + CountedAll(types)))
    decreases |types|
  {
    hide ReadsAt, ValidType, Render, ScanParameter, Counted, ToU2;
    ReadsInside(s, i, RenderAll(types) + [')']);
    if types == [] {
      assert RenderAll(types) + [')'] == [')'];
      ReadsFirst(s, i, [')']);
    } else {
      assert RenderAll(types) + [')'] == Render(types[0]) + (RenderAll(types[1..]) + [')']);
      ReadsConcat(s, i, Render(types[0]), RenderAll(types[1..]) + [')']);
      ReadsFirst(s, i, Render(types[0]));
      TypeIsNotClosing(types[0]);
      ScanParameterReads(s, i, types[0]);
      SmallSum(slots + Counted(types[0]));
      ScanParametersRead(s, i + |Render(types[0])|, types[1..], slots + Counted(types[0]));
    }
  }

  lemma SmallSum(v: nat)
    requires v < 0x1_0000
    ensures ToU2(v) == v
  {
  }

  lemma {:induction false} ScanResultReads(s: string, i: nat, t: FieldType)
    requires ValidType(t) && ReadsAt(s, i, Render(t))
    ensures ScanResult(s, i) == Some(Counted(t))
    decreases t
  {
    ReadsFirst(s, i, Render(t));
    if t.ArrayOf? {
      ReadsConcat(s, i, ['['], Render(t.element));
      ScanResultReads(s, i + 1, t.element);
    }
  }

  lemma ReadsWhole(s: string)
    ensures ReadsAt(s, 0, s)
  {
  }

  lemma VoidResult(s: string, i: nat)
    requires ReadsAt(s, i, ['V'])
    ensures ScanResult(s, i) == Some(0)
  {
    ReadsFirst(s, i, ['V']);
  }

  lemma MethodScan(m: MethodType)
    requires ValidMethod(m) && CountedAll(m.parameters) < 0x1_0000
    ensures DescriptorSlots(RenderMethod(m))
         == Some(SlotCount(CountedAll(m.parameters), if m.result == [] then 0 else Counted(m.result[0])))
  {
    hide ReadsAt, ScanParameters, ScanResult, Counted, CountedAll, RenderAll, Render;
    var s := RenderMethod(m);
    var tail := if m.result == [] then ['V'] else Render(m.result[0]);
    var all := RenderAll(m.parameters);
    assert s == ['('] + (all + [')']) + tail;
    ReadsWhole(s);
    ReadsConcat(s, 0, ['('] + (all + [')']), tail);
    ReadsConcat(s, 0, ['('], all + [')']);
    ScanParametersRead(s, 1, m.parameters, 0);
    if m.result == [] {
      VoidResult(s, 2 + |all|);
    } else {
      ScanResultReads(s, 2 + |all|, m.result[0]);
    }
  }

  lemma {:induction false} FieldScan(t: FieldType)
    requires ValidType(t)
    ensures DescriptorSlots(Render(t)) == Some(SlotCount(0, Counted(t)))
  {
    assert ReadsAt(Render(t), 0, Render(t));
    ScanResultReads(Render(t), 0, t);
  }

  // ----- when the scan agrees with the JVM -----

  /** An array whose innermost element is a long or a double. */
  predicate WideArray(t: FieldType) {
    t.ArrayOf? && Counted(t) == 2
  }

  lemma {:induction false} CountedOne(t: FieldType)
    ensures Slots(t) <= Counted(t) <= 2
    ensures Counted(t) == Slots(t) <==> !WideArray(t)
  {
    if t.ArrayOf? {
      CountedOne(t.element);
    }
  }

  lemma {:induction false} CountedMany(types: seq<FieldType>)
    ensures CountedAll(types) >= SlotsOfAll(types)
    ensures CountedAll(types) == SlotsOfAll(types) <==> forall i :: 0 <= i < |types| ==> !WideArray(types[i])
  {
    if types != [] {
      CountedOne(types[0]);
      CountedMany(types[1..]);
      assert forall i :: 0 < i < |types| ==> types[i] == types[1..][i - 1];
    }
  }

  /** The scan reports the slots the JVM reserves exactly when no parameter and
      no result is an array of long or double, of any depth. */
  lemma SlotsExact(m: MethodType)
    requires ValidMethod(m) && CountedAll(m.parameters) < 0x1_0000
    ensures DescriptorSlots(RenderMethod(m))
         == Some(SlotCount(SlotsOfAll(m.parameters), if m.result == [] then 0 else Slots(m.result[0])))
       <==> (forall i :: 0 <= i < |m.parameters| ==> !WideArray(m.parameters[i]))
            && (m.result != [] ==> !WideArray(m.result[0]))
  {
    MethodScan(m);
    CountedMany(m.parameters);
    if m.result != [] {
      CountedOne(m.result[0]);
    }
  }

  /** A concrete descriptor it gets wrong: one argument slot, counted as two. */
  lemma LongArrayIsMiscounted()
    ensures DescriptorSlots("([J)V") == Some(SlotCount(2, 0))
    ensures SlotsOfAll([ArrayOf(Primitive('J'))]) == 1
    ensures RenderMethod(MethodType([ArrayOf(Primitive('J'))], [])) == "([J)V"
  {
    MethodScan(MethodType([ArrayOf(Primitive('J'))], []));
    assert CountedAll([ArrayOf(Primitive('J'))]) == 2;
    assert RenderAll([ArrayOf(Primitive('J'))]) == Render(ArrayOf(Primitive('J'))) + RenderAll([]);
    assert RenderMethod(MethodType([ArrayOf(Primitive('J'))], [])) == "([J)V";
  }
}
