/** Which mapping a reference is subject to and what it answers with, told by the
    tables alone. */
module RemapMeaning {
  import opened Bytes
  import opened Status
  import opened Descriptors
  import opened ConstantPool
  import opened Remapping
  import opened RemapProgress
  import opened ClassRemap

  // ----- which entry -----

  /** The entry is for this member of this owner; without a descriptor it is for
      every overload. */
  predicate Suits(entry: MemberMapping, owner: string, m: Member) {
    && entry.owner == Some(owner) && entry.name == Some(m.name)
    && (entry.descriptor == None || entry.descriptor == Some(m.descriptor))
  }

  /** The entry at the least index that suits, or none because none suits. */
  predicate FirstFor(table: seq<MemberMapping>, owner: Option<string>, m: Member, entry: Option<MemberMapping>) {
    match entry
    case Some(e) =>
      owner.Some? && exists i :: 0 <= i < |table| && table[i] == e && Suits(table[i], owner.value, m)
                              && forall j :: 0 <= j < i ==> !Suits(table[j], owner.value, m)
    case None => owner.None? || forall i :: 0 <= i < |table| ==> !Suits(table[i], owner.value, m)
  }

  /** The owners a member is looked for under: its own; for the class itself then
      its superclass and its interfaces in turn. */
  function Searched(u: Unit, owner: Option<string>): (r: seq<Option<string>>)
    ensures |r| >= 1
  {
    if owner.Some? && owner == ClassName(u.pool, u.thisClass) then
      [owner, ClassName(u.pool, u.superClass)]
      + seq(|u.interfaces|, i requires 0 <= i < |u.interfaces| => ClassName(u.pool, u.interfaces[i]))
    else [owner]
  }

  /** The first entry under the first owner that has one. */
  predicate Found(table: seq<MemberMapping>, owners: seq<Option<string>>, m: Member, entry: Option<MemberMapping>) {
    if entry == None then forall k :: 0 <= k < |owners| ==> FirstFor(table, owners[k], m, None)
    else exists k :: 0 <= k < |owners| && FirstFor(table, owners[k], m, entry)
                  && forall j :: 0 <= j < k ==> FirstFor(table, owners[j], m, None)
  }

  lemma {:induction false} LookupIsFirst(table: seq<MemberMapping>, owner: Option<string>, m: Member)
    ensures FirstFor(table, owner, m, LookupMember(table, owner, m))
    decreases |table|
  {
    if owner.Some? && table != [] && !MapsMember(table[0], owner.value, m) {
      LookupIsFirst(table[1..], owner, m);
      var r := LookupMember(table[1..], owner, m);
      if r.Some? {
        var i :| 0 <= i < |table[1..]| && table[1..][i] == r.value && Suits(table[1..][i], owner.value, m)
              && forall j :: 0 <= j < i ==> !Suits(table[1..][j], owner.value, m);
        assert table[i + 1] == r.value;
        forall j | 0 <= j < i + 1 ensures !Suits(table[j], owner.value, m) {
          assert j > 0 ==> table[j] == table[1..][j - 1];
        }
      } else {
        forall j | 0 <= j < |table| ensures !Suits(table[j], owner.value, m) {
          assert j > 0 ==> table[j] == table[1..][j - 1];
        }
      }
    }
  }

  lemma OneOwner(table: seq<MemberMapping>, owner: Option<string>, m: Member)
    ensures Found(table, [owner], m, LookupMember(table, owner, m))
  {
    hide LookupMember, FirstFor;
    LookupIsFirst(table, owner, m);
    assert [owner][0] == owner;
  }

  /** Looking under one more owner first. */
  lemma OwnerBefore(table: seq<MemberMapping>, owner: Option<string>, owners: seq<Option<string>>, m: Member, rest: Option<MemberMapping>)
    requires Found(table, owners, m, rest)
    ensures var first := LookupMember(table, owner, m); Found(table, [owner] + owners, m, if first.Some? then first else rest)
  {
    hide LookupMember, FirstFor;
    LookupIsFirst(table, owner, m);
    var all := [owner] + owners;
    var first := LookupMember(table, owner, m);
    assert all[0] == owner;
    if first.None? {
      if rest.Some? {
        var k :| 0 <= k < |owners| && FirstFor(table, owners[k], m, rest) && forall j :: 0 <= j < k ==> FirstFor(table, owners[j], m, None);
        assert all[k + 1] == owners[k];
        forall j | 0 <= j < k + 1 ensures FirstFor(table, all[j], m, None) {
          assert j > 0 ==> all[j] == owners[j - 1];
        }
      } else {
        forall j | 0 <= j < |all| ensures FirstFor(table, all[j], m, None) {
          assert j > 0 ==> all[j] == owners[j - 1];
        }
      }
    }
  }

  function InterfaceNames(u: Unit, i: nat): (r: seq<Option<string>>)
    requires i <= |u.interfaces|
    decreases |u.interfaces| - i
  {
    if i == |u.interfaces| then [] else [ClassName(u.pool, u.interfaces[i])] + InterfaceNames(u, i + 1)
  }

  lemma {:induction false} InterfaceNamesAre(u: Unit, i: nat)
    requires i <= |u.interfaces|
    ensures InterfaceNames(u, i) == seq(|u.interfaces| - i, k requires 0 <= k < |u.interfaces| - i => ClassName(u.pool, u.interfaces[i + k]))
    decreases |u.interfaces| - i
  {
    hide ClassName;
    if i < |u.interfaces| {
      InterfaceNamesAre(u, i + 1);
    }
  }

  lemma {:induction false} InterfacesSearched(u: Unit, table: seq<MemberMapping>, m: Member, i: nat)
    requires i <= |u.interfaces|
    ensures Found(table, InterfaceNames(u, i), m, LookupInterfaces(u, table, m, i))
    decreases |u.interfaces| - i
  {
    hide LookupMember, FirstFor, ClassName;
    if i < |u.interfaces| {
      InterfacesSearched(u, table, m, i + 1);
      OwnerBefore(table, ClassName(u.pool, u.interfaces[i]), InterfaceNames(u, i + 1), m, LookupInterfaces(u, table, m, i + 1));
    }
  }

  /** Every lookup finds the first entry under the first owner that has one. */
  lemma InheritedIsFound(u: Unit, table: seq<MemberMapping>, owner: Option<string>, m: Member)
    ensures Found(table, Searched(u, owner), m, LookupInherited(u, table, owner, m))
  {
    hide LookupMember, LookupInterfaces, Found, ClassName;
    if owner.Some? && owner == ClassName(u.pool, u.thisClass) {
      var above := ClassName(u.pool, u.superClass);
      InterfacesSearched(u, table, m, 0);
      InterfaceNamesAre(u, 0);
      var names := InterfaceNames(u, 0);
      var deep := LookupInterfaces(u, table, m, 0);
      OwnerBefore(table, above, names, m, deep);
      var up := LookupMember(table, above, m);
      OwnerBefore(table, owner, [above] + names, m, if up.Some? then up else deep);
      assert Searched(u, owner) == [owner] + ([above] + names);
    } else {
      OneOwner(table, owner, m);
    }
  }

  // ----- what it makes of a member -----

  /** The new name is the entry's, if it gives one; so is the descriptor, which is
      otherwise mapped class name by class name. */
  predicate Renamed(classes: seq<ClassMapping>, entry: Option<MemberMapping>, m: Member, after: Member) {
    && after.name == (match entry
                      case Some(e) => (match e.runtimeName case Some(name) => name case None => m.name)
                      case None => m.name)
    && after.descriptor == (match entry
                            case Some(e) => (match e.runtimeDescriptor
                                             case Some(text) => text
                                             case None => RemapText(classes, m.descriptor))
                            case None => RemapText(classes, m.descriptor))
  }

  /** Field references are subject to the field mappings (tag 9), method and
      interface method references (tags 10 and 11) to the method mappings. */
  function TableFor(maps: Mappings, tag: u1): seq<MemberMapping> {
    match tag
    case 9 => maps.fields
    case _ => maps.methods
  }

  /** After a remap every reference answers with what the first entry for it makes
      of its name and descriptor. */
  lemma ReferenceMeaning(u: Unit, maps: Mappings, late: bool, q: Pool, members: Members, after: Members, i: nat)
    requires Remapped(u, maps, late, q, members, after) && i < |u.pool| && u.pool[i].Ref?
    requires MemberAt(u.pool, u.pool[i].natIndex).Some?
    ensures i < |q| && q[i].Ref? && q[i].tag == u.pool[i].tag
    ensures var m := MemberAt(u.pool, u.pool[i].natIndex).value;
      exists entry ::
        && Found(TableFor(maps, u.pool[i].tag), Searched(u, ClassName(u.pool, u.pool[i].classIndex)), m, entry)
        && MemberAt(q, q[i].natIndex).Some? && Renamed(maps.classes, entry, m, MemberAt(q, q[i].natIndex).value)
        && (OwnerMoves(u, maps, i) <==> entry.Some? && entry.value.runtimeOwner.Some?)
        && (if OwnerMoves(u, maps, i) then RuntimeOwner(u, maps, i) == entry.value.runtimeOwner.value
            else q[i].classIndex == u.pool[i].classIndex)
  {
    hide Grown, ClassDone, MembersAt, OwnerDone, Found, Searched, LookupInherited, MemberAt, ClassName, RemapText;
    assert ReferenceDone(u, maps, late, q, i);
    var ref := u.pool[i];
    var m := MemberAt(u.pool, ref.natIndex).value;
    var table := TableFor(maps, ref.tag);
    InheritedIsFound(u, table, ClassName(u.pool, ref.classIndex), m);
    var entry := LookupInherited(u, table, ClassName(u.pool, ref.classIndex), m);
    assert entry == MappingOf(u, maps, ref, m);
    assert Renamed(maps.classes, entry, m, MemberAt(q, q[i].natIndex).value);
  }

  /** Of a dynamic constant or call site only the descriptor is mapped. */
  lemma DynamicMeaning(u: Unit, maps: Mappings, late: bool, q: Pool, members: Members, after: Members, i: nat)
    requires Remapped(u, maps, late, q, members, after) && i < |u.pool| && u.pool[i].DynamicRef?
    requires MemberAt(u.pool, u.pool[i].natIndex).Some?
    ensures i < |q| && q[i].DynamicRef? && q[i].tag == u.pool[i].tag && q[i].bootstrap == u.pool[i].bootstrap
    ensures MemberAt(q, q[i].natIndex).Some?
    ensures Renamed(maps.classes, None, MemberAt(u.pool, u.pool[i].natIndex).value, MemberAt(q, q[i].natIndex).value)
  {
    hide Grown, ClassDone, MembersAt, MemberAt, RemapText;
    assert ReferenceDone(u, maps, late, q, i);
  }

  predicate NamedSo(pool: Pool, member: MemberInfo, m: Member) {
    TextAt(pool, member.nameIndex) == Some(m.name) && TextAt(pool, member.descriptorIndex) == Some(m.descriptor)
  }

  /** The same for the members of the class itself: fields by the field mappings,
      methods by the method mappings, looked for under the class's own name first. */
  lemma OwnMemberMeaning(u: Unit, maps: Mappings, late: bool, q: Pool, members: Members, after: Members, isField: bool, j: nat, m: Member)
    requires Remapped(u, maps, late, q, members, after)
    requires var list := if isField then members.fields else members.methods; j < |list| && NamedSo(u.pool, list[j], m)
    ensures |after.fields| == |members.fields| && |after.methods| == |members.methods|
    ensures var changed := if isField then after.fields[j] else after.methods[j];
      exists entry, named ::
        && Found(if isField then maps.fields else maps.methods, Searched(u, ClassName(u.pool, u.thisClass)), m, entry)
        && NamedSo(q, changed, named) && Renamed(maps.classes, entry, m, named)
  {
    hide Grown, ClassDone, ReferenceDone, Found, Searched, LookupInherited, TextAt, ClassName, RemapText;
    var table := if isField then maps.fields else maps.methods;
    InheritedIsFound(u, table, ClassName(u.pool, u.thisClass), m);
    var entry := LookupInherited(u, table, ClassName(u.pool, u.thisClass), m);
    if isField {
      assert MemberDone(u, maps, maps.fields, q, members.fields[j], after.fields[j]);
    } else {
      assert MemberDone(u, maps, maps.methods, q, members.methods[j], after.methods[j]);
    }
    var named := MapMember(maps.classes, entry, m);
    assert Renamed(maps.classes, entry, m, named);
  }

  // ----- classes -----

  /** The image of a class name: the target of the first entry that has one for it. */
  predicate ImageOf(classes: seq<ClassMapping>, name: string, image: string) {
    || (exists i :: 0 <= i < |classes| && classes[i] == ClassMapping(Some(name), Some(image))
                 && forall j :: 0 <= j < i ==> classes[j].from != Some(name) || classes[j].to == None)
    || (image == name && forall j :: 0 <= j < |classes| ==> classes[j].from != Some(name) || classes[j].to == None)
  }

  lemma {:induction false} NameImage(classes: seq<ClassMapping>, name: string)
    ensures ImageOf(classes, name, MapName(classes, name))
    decreases |classes|
  {
    if classes != [] && !MapsClass(classes[0], name) {
      NameImage(classes[1..], name);
      if i :| 0 <= i < |classes[1..]| && classes[1..][i] == ClassMapping(Some(name), Some(MapName(classes[1..], name)))
              && forall j :: 0 <= j < i ==> classes[1..][j].from != Some(name) || classes[1..][j].to == None {
        assert classes[i + 1] == classes[1..][i];
        forall j | 0 <= j < i + 1 ensures classes[j].from != Some(name) || classes[j].to == None {
          assert j > 0 ==> classes[j] == classes[1..][j - 1];
        }
      } else {
        forall j | 0 <= j < |classes| ensures classes[j].from != Some(name) || classes[j].to == None {
          assert j > 0 ==> classes[j] == classes[1..][j - 1];
        }
      }
    } else if classes != [] {
      assert classes[0] == ClassMapping(Some(name), classes[0].to);
    }
  }

  /** After a remap a class entry goes by the image of its name, and an array class
      by its descriptor with the element type's name mapped. */
  lemma ClassMeaning(u: Unit, maps: Mappings, late: bool, q: Pool, members: Members, after: Members, i: nat, name: string)
    requires Remapped(u, maps, late, q, members, after) && i < |u.pool| && ClassName(u.pool, i) == Some(name)
    ensures (name == "" || name[0] != '[') ==>
      ClassName(q, i).Some? && ImageOf(maps.classes, name, ClassName(q, i).value)
    ensures forall t :: ValidType(t) && name == Render(ArrayOf(t)) ==>
      ClassName(q, i) == Some(Render(ArrayOf(MapType(maps.classes, t))))
  {
    assert IsClass(u.pool[i]);
    hide Grown, ReferenceDone, MembersAt, ClassName, ImageOf, MapName, RemapText, Render, MapType;
    assert ClassDone(u, maps, q, i);
    NameImage(maps.classes, name);
    forall t | ValidType(t) && name == Render(ArrayOf(t))
      ensures ClassName(q, i) == Some(Render(ArrayOf(MapType(maps.classes, t))))
    {
      ArrayImage(maps.classes, t);
    }
  }

  lemma ArrayImage(classes: seq<ClassMapping>, t: FieldType)
    requires ValidType(t)
    ensures MapClass(classes, Render(ArrayOf(t))) == Render(ArrayOf(MapType(classes, t)))
  {
    hide RemapText;
    RemapFieldDescriptor(classes, ArrayOf(t));
  }

  /** The types a descriptor denotes are mapped by the images of their names. */
  lemma TypeImage(classes: seq<ClassMapping>, t: FieldType)
    ensures match t
            case Primitive(_) => MapType(classes, t) == t
            case Reference(name) => MapType(classes, t).Reference? && ImageOf(classes, name, MapType(classes, t).name)
            case ArrayOf(element) => MapType(classes, t) == ArrayOf(MapType(classes, element))
  {
    hide ImageOf, MapName;
    if t.Reference? {
      NameImage(classes, t.name);
    }
  }
}
