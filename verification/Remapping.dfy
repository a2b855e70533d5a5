/** What a remap makes of names: class names, descriptors and members, looked up
    in the mapping tables. */
module Remapping {
  import opened Bytes
  import opened Status
  import opened Descriptors
  import opened ConstantPool

  datatype ClassMapping = ClassMapping(from: Option<string>, to: Option<string>)

  datatype MemberMapping = MemberMapping(
    owner: Option<string>,
    name: Option<string>,
    descriptor: Option<string>,
    runtimeOwner: Option<string>,
    runtimeName: Option<string>,
    runtimeDescriptor: Option<string>)

  datatype Mappings = Mappings(classes: seq<ClassMapping>, fields: seq<MemberMapping>, methods: seq<MemberMapping>)

  // ----- class names -----

  predicate MapsClass(entry: ClassMapping, name: string) {
    entry.from == Some(name) && entry.to.Some?
  }

  function LookupClass(classes: seq<ClassMapping>, name: string): Option<string> {
    if classes == [] then None
    else if MapsClass(classes[0], name) then classes[0].to
    else LookupClass(classes[1..], name)
  }

  method FindClass(classes: seq<ClassMapping>, name: string) returns (to: Option<string>)
    ensures to == LookupClass(classes, name)
  {
    for i := 0 to |classes|
      invariant LookupClass(classes[i..], name) == LookupClass(classes, name)
    {
      assert classes[i..][1..] == classes[i + 1..];
      if classes[i].from == None || classes[i].to == None {
        continue;
      }
      if classes[i].from.value == name {
        return classes[i].to;
      }
    }
    return None;
  }

  function MapName(classes: seq<ClassMapping>, name: string): string {
    var to := LookupClass(classes, name);
    if to.Some? then to.value else name
  }

  // ----- descriptors -----

  /** Every name between L and the next semicolon is mapped; a name that never
      ends, and everything else, is copied. */
  function RemapText(classes: seq<ClassMapping>, s: string): string
    decreases |s|
  {
    if s == "" then ""
    else if s[0] != 'L' then [s[0]] + RemapText(classes, s[1..])
    else
      var end := Find(s, ';', 1);
      if end == |s| then s
      else ['L'] + MapName(classes, s[1..end]) + [';'] + RemapText(classes, s[end + 1..])
  }

  /** Whether a name was found in the mapping. */
  predicate TextChanges(classes: seq<ClassMapping>, s: string)
    decreases |s|
  {
    if s == "" then false
    else if s[0] != 'L' then TextChanges(classes, s[1..])
    else
      var end := Find(s, ';', 1);
      end < |s| && (LookupClass(classes, s[1..end]).Some? || TextChanges(classes, s[end + 1..]))
  }

  lemma PlainStep(classes: seq<ClassMapping>, c: char, rest: string)
    requires c != 'L'
    ensures RemapText(classes, [c] + rest) == [c] + RemapText(classes, rest)
    ensures TextChanges(classes, [c] + rest) == TextChanges(classes, rest)
  {
    assert ([c] + rest)[1..] == rest;
  }

  lemma NameStep(classes: seq<ClassMapping>, name: string, rest: string)
    requires ';' !in name
    ensures RemapText(classes, ['L'] + name + [';'] + rest)
         == ['L'] + MapName(classes, name) + [';'] + RemapText(classes, rest)
    ensures TextChanges(classes, ['L'] + name + [';'] + rest)
         <==> LookupClass(classes, name).Some? || TextChanges(classes, rest)
  {
    hide MapName, LookupClass;
    var s := ['L'] + name + [';'] + rest;
    assert s[1..1 + |name + [';']|] == name + [';'];
    FindReads(s, 1, name);
    assert s[1..1 + |name|] == name && s[|name| + 2..] == rest;
  }

  lemma {:induction false} UnchangedText(classes: seq<ClassMapping>, s: string)
    requires !TextChanges(classes, s)
    ensures RemapText(classes, s) == s
    decreases |s|
  {
    if s != "" {
      if s[0] != 'L' {
        UnchangedText(classes, s[1..]);
      } else {
        var end := Find(s, ';', 1);
        if end < |s| {
          UnchangedText(classes, s[end + 1..]);
          assert s == ['L'] + s[1..end] + [s[end]] + s[end + 1..];
        }
      }
    }
  }

  /** The scan over a descriptor, as it copies and maps. */
  method RemapDescriptor(classes: seq<ClassMapping>, descriptor: string) returns (text: string, changed: bool)
    ensures text == RemapText(classes, descriptor) && changed == TextChanges(classes, descriptor)
  {
    hide RemapText, TextChanges, MapName, LookupClass;
    text, changed := "", false;
    var p := 0;
    assert descriptor[0..] == descriptor;
    while p < |descriptor|
      invariant p <= |descriptor|
      invariant text + RemapText(classes, descriptor[p..]) == RemapText(classes, descriptor)
      invariant (changed || TextChanges(classes, descriptor[p..])) == TextChanges(classes, descriptor)
    {
      if descriptor[p] != 'L' {
        assert descriptor[p..] == [descriptor[p]] + descriptor[p + 1..];
        PlainStep(classes, descriptor[p], descriptor[p + 1..]);
        text := text + [descriptor[p]];
        p := p + 1;
        continue;
      }
      var end := Find(descriptor, ';', p + 1);
      if end == |descriptor| {
        UnendedStep(classes, descriptor[p..]);
        text := text + descriptor[p..];
        return;
      }
      var name := descriptor[p + 1..end];
      assert descriptor[p..] == ['L'] + name + [';'] + descriptor[end + 1..];
      NameStep(classes, name, descriptor[end + 1..]);
      var to := FindClass(classes, name);
      MappedName(classes, name);
      text := text + (['L'] + (if to.Some? then to.value else name) + [';']);
      changed := changed || to.Some?;
      p := end + 1;
    }
    assert descriptor[p..] == "";
    NothingToMap(classes);
  }

  lemma MappedName(classes: seq<ClassMapping>, name: string)
    ensures MapName(classes, name) == if LookupClass(classes, name).Some? then LookupClass(classes, name).value else name
  {
  }

  lemma NothingToMap(classes: seq<ClassMapping>)
    ensures RemapText(classes, "") == "" && !TextChanges(classes, "")
  {
  }

  lemma UnendedStep(classes: seq<ClassMapping>, s: string)
    requires s != "" && s[0] == 'L' && forall k :: 1 <= k < |s| ==> s[k] != ';'
    ensures RemapText(classes, s) == s && !TextChanges(classes, s)
  {
  }

  // ----- descriptors by their grammar -----

  function MapType(classes: seq<ClassMapping>, t: FieldType): FieldType {
    match t
    case Primitive(_) => t
    case Reference(name) => Reference(MapName(classes, name))
    case ArrayOf(element) => ArrayOf(MapType(classes, element))
  }

  function MapTypes(classes: seq<ClassMapping>, types: seq<FieldType>): (r: seq<FieldType>)
    ensures |r| == |types| && forall i :: 0 <= i < |r| ==> r[i] == MapType(classes, types[i])
  {
    if types == [] then [] else [MapType(classes, types[0])] + MapTypes(classes, types[1..])
  }

  function MapMethodType(classes: seq<ClassMapping>, m: MethodType): MethodType {
    MethodType(MapTypes(classes, m.parameters), MapTypes(classes, m.result))
  }

  lemma {:induction false} RemapTypeThen(classes: seq<ClassMapping>, t: FieldType, rest: string)
    requires ValidType(t)
    ensures RemapText(classes, Render(t) + rest) == Render(MapType(classes, t)) + RemapText(classes, rest)
    decreases t
  {
    hide RemapText, MapName, TextChanges;
    match t
    case Primitive(letter) => PlainStep(classes, letter, rest);
    case ArrayOf(element) =>
      RemapTypeThen(classes, element, rest);
      assert Render(t) + rest == ['['] + (Render(element) + rest);
      PlainStep(classes, '[', Render(element) + rest);
    case Reference(name) =>
      assert Render(t) + rest == ['L'] + name + [';'] + rest;
      NameStep(classes, name, rest);
  }

  lemma {:induction false} RemapTypesThen(classes: seq<ClassMapping>, types: seq<FieldType>, rest: string)
    requires forall i :: 0 <= i < |types| ==> ValidType(types[i])
    ensures RemapText(classes, RenderAll(types) + rest) == RenderAll(MapTypes(classes, types)) + RemapText(classes, rest)
    decreases |types|
  {
    hide Render, MapType, ValidType, RemapText;
    if types == [] {
      assert RenderAll(types) + rest == rest;
    } else {
      var tail := RenderAll(types[1..]) + rest;
      assert RenderAll(types) + rest == Render(types[0]) + tail;
      RemapTypeThen(classes, types[0], tail);
      RemapTypesThen(classes, types[1..], rest);
      var mapped := MapTypes(classes, types);
      assert mapped[1..] == MapTypes(classes, types[1..]);
      assert RenderAll(mapped) == Render(mapped[0]) + RenderAll(mapped[1..]);
    }
  }

  /** Rewriting the text of a descriptor maps the types it denotes. */
  lemma RemapFieldDescriptor(classes: seq<ClassMapping>, t: FieldType)
    requires ValidType(t)
    ensures RemapText(classes, Render(t)) == Render(MapType(classes, t))
  {
    RemapTypeThen(classes, t, "");
    assert Render(t) + "" == Render(t);
  }

  lemma RemapMethodDescriptor(classes: seq<ClassMapping>, m: MethodType)
    requires ValidMethod(m)
    ensures RemapText(classes, RenderMethod(m)) == RenderMethod(MapMethodType(classes, m))
  {
    hide Render, MapType, ValidType, RenderAll, RemapText, TextChanges;
    var result := if m.result == [] then ['V'] else Render(m.result[0]);
    var tail := [')'] + result;
    assert RenderMethod(m) == ['('] + (RenderAll(m.parameters) + tail);
    PlainStep(classes, '(', RenderAll(m.parameters) + tail);
    RemapTypesThen(classes, m.parameters, tail);
    PlainStep(classes, ')', result);
    if m.result == [] {
      assert result == ['V'] + "";
      PlainStep(classes, 'V', "");
      NothingToMap(classes);
    } else {
      RemapFieldDescriptor(classes, m.result[0]);
    }
  }

  lemma {:induction false} NoChange(s: string)
    ensures !TextChanges([], s)
    decreases |s|
  {
    if s != "" {
      if s[0] != 'L' {
        NoChange(s[1..]);
      } else {
        var end := Find(s, ';', 1);
        if end < |s| {
          NoChange(s[end + 1..]);
        }
      }
    }
  }

  // ----- class entries -----

  /** An array class holds a descriptor, any other an internal name. */
  function MapClass(classes: seq<ClassMapping>, name: string): string {
    if name != "" && name[0] == '[' then RemapText(classes, name) else MapName(classes, name)
  }

  method RemapClassName(classes: seq<ClassMapping>, name: string) returns (mapped: string, changed: bool)
    ensures changed ==> mapped == MapClass(classes, name)
    ensures !changed ==> MapClass(classes, name) == name
    ensures classes == [] ==> !changed
  {
    NoChange(name);
    if |name| > 0 && name[0] == '[' {
      mapped, changed := RemapDescriptor(classes, name);
      if !changed {
        UnchangedText(classes, name);
      }
      return;
    }
    var to := FindClass(classes, name);
    return if to.Some? then to.value else "", to.Some?;
  }

  // ----- members -----

  predicate MapsMember(entry: MemberMapping, owner: string, m: Member) {
    && entry.owner == Some(owner) && entry.name == Some(m.name)
    && (entry.descriptor.None? || entry.descriptor == Some(m.descriptor))
  }

  function LookupMember(table: seq<MemberMapping>, owner: Option<string>, m: Member): Option<MemberMapping> {
    if owner.None? || table == [] then None
    else if MapsMember(table[0], owner.value, m) then Some(table[0])
    else LookupMember(table[1..], owner, m)
  }

  method FindMember(table: seq<MemberMapping>, owner: Option<string>, m: Member) returns (r: Option<MemberMapping>)
    ensures r == LookupMember(table, owner, m)
  {
    if owner.None? {
      return None;
    }
    for i := 0 to |table|
      invariant LookupMember(table[i..], owner, m) == LookupMember(table, owner, m)
    {
      assert table[i..][1..] == table[i + 1..];
      var entry := table[i];
      if entry.owner != owner || entry.name != Some(m.name) {
        continue;
      }
      if entry.descriptor.Some? && entry.descriptor.value != m.descriptor {
        continue;
      }
      return Some(entry);
    }
    return None;
  }

  /** The class file as the remap found it. */
  datatype Unit = Unit(pool: Pool, thisClass: u2, superClass: u2, interfaces: seq<u2>)

  function LookupInterfaces(u: Unit, table: seq<MemberMapping>, m: Member, i: nat): Option<MemberMapping>
    requires i <= |u.interfaces|
    decreases |u.interfaces| - i
  {
    if i == |u.interfaces| then None
    else
      var found := LookupMember(table, ClassName(u.pool, u.interfaces[i]), m);
      if found.Some? then found else LookupInterfaces(u, table, m, i + 1)
  }

  /** By the named owner, and for the class itself also by its super class and
      its interfaces, in that order. */
  function LookupInherited(u: Unit, table: seq<MemberMapping>, owner: Option<string>, m: Member): Option<MemberMapping> {
    var direct := LookupMember(table, owner, m);
    if direct.Some? || owner.None? || ClassName(u.pool, u.thisClass) != owner then direct
    else
      var above := LookupMember(table, ClassName(u.pool, u.superClass), m);
      if above.Some? then above else LookupInterfaces(u, table, m, 0)
  }

  /** The name and descriptor a member has at run time. */
  function MapMember(classes: seq<ClassMapping>, mapping: Option<MemberMapping>, m: Member): Member {
    Member(
      if mapping.Some? && mapping.value.runtimeName.Some? then mapping.value.runtimeName.value else m.name,
      if mapping.Some? && mapping.value.runtimeDescriptor.Some? then mapping.value.runtimeDescriptor.value
      else RemapText(classes, m.descriptor))
  }
}
