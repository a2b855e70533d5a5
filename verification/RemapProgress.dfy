/** How far a remap has come: which entries still are as found and which answer
    with their new names, and why no step disturbs another. */
module RemapProgress {
  import opened Bytes
  import opened Status
  import opened ConstantPool
  import opened Remapping

  datatype MemberInfo = MemberInfo(nameIndex: u2, descriptorIndex: u2)

  // ----- pools that keep their text -----

  /** Texts and NameAndType entries stay, whatever else moves. */
  predicate Steady(p: Pool, q: Pool) {
    |p| <= |q| && forall i :: 0 <= i < |p| && (p[i].Utf8? || p[i].NameAndType?) ==> q[i] == p[i]
  }

  lemma SteadyText(p: Pool, q: Pool, i: int)
    requires Steady(p, q) && TextAt(p, i).Some?
    ensures TextAt(q, i) == TextAt(p, i)
  {
  }

  lemma SteadyMember(p: Pool, q: Pool, i: int)
    requires Steady(p, q) && MemberAt(p, i).Some?
    ensures MemberAt(q, i) == MemberAt(p, i)
  {
    hide TextAt;
    assert At(p, i).value.NameAndType?;
    SteadyText(p, q, At(p, i).value.nameIndex);
    SteadyText(p, q, At(p, i).value.descriptorIndex);
  }

  /** A class entry that has not moved keeps its name. */
  lemma SteadyClass(p: Pool, q: Pool, i: int)
    requires Steady(p, q) && ClassName(p, i).Some? && q[i] == p[i]
    ensures ClassName(q, i) == ClassName(p, i)
  {
    hide TextAt;
    SteadyText(p, q, At(p, i).value.nameIndex);
  }

  predicate IsClass(c: Constant) { c.Named? && c.tag == CLASS }

  predicate IsReference(c: Constant) { c.Ref? || c.DynamicRef? }

  /** Interning only appends, and never a reference. */
  predicate Appends(p: Pool, q: Pool) {
    p <= q && PoolValid(q) && forall i :: |p| <= i < |q| ==> !IsReference(q[i])
  }

  lemma AppendsAgain(p: Pool, q: Pool, r: Pool)
    requires Appends(p, q) && Appends(q, r)
    ensures Appends(p, r)
  {
  }

  lemma AppendsSteady(p: Pool, q: Pool)
    requires Appends(p, q)
    ensures Steady(p, q)
  {
  }

  /** What may happen to an original entry: references and classes are
      repointed, nothing else changes. */
  predicate SameShape(a: Constant, b: Constant) {
    match a
    case Ref(tag, _, _) => b.Ref? && b.tag == tag
    case DynamicRef(tag, bootstrap, _) => b.DynamicRef? && b.tag == tag && b.bootstrap == bootstrap
    case Named(tag, _) => if tag == CLASS then IsClass(b) else b == a
    case _ => b == a
  }

  predicate Grown(p: Pool, q: Pool) {
    && |p| <= |q| && PoolValid(q)
    && (forall i :: 0 <= i < |p| ==> SameShape(p[i], q[i]))
    && (forall i :: |p| <= i < |q| ==> !IsReference(q[i]))
  }

  lemma GrownSteady(p: Pool, q: Pool)
    requires Grown(p, q)
    ensures Steady(p, q)
  {
  }

  // ----- what each entry is to become -----

  /** The mapping entry a reference is subject to. */
  function MappingOf(u: Unit, maps: Mappings, ref: Constant, m: Member): Option<MemberMapping>
    requires ref.Ref?
  {
    LookupInherited(u, if ref.tag == FIELDREF then maps.fields else maps.methods, ClassName(u.pool, ref.classIndex), m)
  }

  predicate HasOwner(mapping: Option<MemberMapping>) {
    mapping.Some? && mapping.value.runtimeOwner.Some?
  }

  /** Interning a class of this name finds an entry the pool already has: one
      that goes by the first text that spells it. */
  predicate Reused(pool: Pool, name: string)
    requires |pool| >= 1
  {
    var text := FirstEqual(pool, Utf8(name), 1);
    text < |pool| && text < 0x1_0000 && exists k :: 1 <= k < |pool| && pool[k] == Named(CLASS, text)
  }

  /** The class at x stands for the runtime owner. late says that the classes had
      been renamed before the references were moved. Otherwise an entry found in
      the original pool still went by its original name when it was found. */
  predicate OwnerDone(u: Unit, maps: Mappings, late: bool, q: Pool, x: nat, owner: string)
    requires |u.pool| >= 1
  {
    if x < |u.pool| then
      && IsClass(u.pool[x]) && ClassName(u.pool, x).Some?
      && (if late then MapClass(maps.classes, ClassName(u.pool, x).value) == owner
          else ClassName(u.pool, x) == Some(owner) && Reused(u.pool, owner))
    else
      ClassName(q, x) == Some(owner) && (!late ==> !Reused(u.pool, owner))
  }

  /** The reference names the mapped member; its owner has moved to the runtime
      owner, or else still is the same class entry. */
  predicate RefDone(u: Unit, maps: Mappings, late: bool, q: Pool, i: nat)
    requires i < |u.pool| && u.pool[i].Ref?
  {
    var ref := u.pool[i];
    && i < |q| && q[i].Ref? && q[i].tag == ref.tag
    && match MemberAt(u.pool, ref.natIndex)
       case None => q[i] == ref
       case Some(m) =>
         var mapping := MappingOf(u, maps, ref, m);
         && MemberAt(q, q[i].natIndex) == Some(MapMember(maps.classes, mapping, m))
         && (if HasOwner(mapping) then OwnerDone(u, maps, late, q, q[i].classIndex, mapping.value.runtimeOwner.value)
             else q[i].classIndex == ref.classIndex)
  }

  predicate DynamicDone(u: Unit, maps: Mappings, q: Pool, i: nat)
    requires i < |u.pool| && u.pool[i].DynamicRef?
  {
    var ref := u.pool[i];
    && i < |q| && q[i].DynamicRef? && q[i].tag == ref.tag && q[i].bootstrap == ref.bootstrap
    && match MemberAt(u.pool, ref.natIndex)
       case None => q[i] == ref
       case Some(m) => MemberAt(q, q[i].natIndex) == Some(MapMember(maps.classes, None, m))
  }

  predicate ReferenceDone(u: Unit, maps: Mappings, late: bool, q: Pool, i: nat)
    requires i < |u.pool|
  {
    match u.pool[i]
    case Ref(_, _, _) => RefDone(u, maps, late, q, i)
    case DynamicRef(_, _, _) => DynamicDone(u, maps, q, i)
    case _ => true
  }

  predicate ClassDone(u: Unit, maps: Mappings, q: Pool, i: nat)
    requires i < |u.pool|
  {
    IsClass(u.pool[i]) && ClassName(u.pool, i).Some? ==>
      ClassName(q, i) == Some(MapClass(maps.classes, ClassName(u.pool, i).value))
  }

  predicate ReferenceAt(u: Unit, maps: Mappings, late: bool, q: Pool, i: nat, limit: nat)
    requires i < |u.pool|
  {
    if i < limit then ReferenceDone(u, maps, late, q, i)
    else IsReference(u.pool[i]) ==> i < |q| && q[i] == u.pool[i]
  }

  predicate ClassAt(u: Unit, maps: Mappings, q: Pool, i: nat, limit: nat)
    requires i < |u.pool|
  {
    if i < limit then ClassDone(u, maps, q, i)
    else IsClass(u.pool[i]) ==> i < |q| && q[i] == u.pool[i]
  }

  /** References below r and classes below c are done, the others as found. */
  predicate Progress(u: Unit, maps: Mappings, late: bool, q: Pool, r: nat, c: nat) {
    && Grown(u.pool, q)
    && (forall i :: 0 <= i < |u.pool| ==> ReferenceAt(u, maps, late, q, i, r))
    && (forall i :: 0 <= i < |u.pool| ==> ClassAt(u, maps, q, i, c))
  }

  /** A member of the class itself. */
  predicate MemberDone(u: Unit, maps: Mappings, table: seq<MemberMapping>, q: Pool, before: MemberInfo, after: MemberInfo) {
    match (TextAt(u.pool, before.nameIndex), TextAt(u.pool, before.descriptorIndex))
    case (Some(name), Some(descriptor)) =>
      var mapping := LookupInherited(u, table, ClassName(u.pool, u.thisClass), Member(name, descriptor));
      var mapped := MapMember(maps.classes, mapping, Member(name, descriptor));
      TextAt(q, after.nameIndex) == Some(mapped.name) && TextAt(q, after.descriptorIndex) == Some(mapped.descriptor)
    case _ => false
  }

  predicate MembersAt(u: Unit, maps: Mappings, table: seq<MemberMapping>, q: Pool, before: seq<MemberInfo>, after: seq<MemberInfo>, n: nat) {
    && |after| == |before|
    && (forall j :: 0 <= j < |before| ==>
          if j < n then MemberDone(u, maps, table, q, before[j], after[j]) else after[j] == before[j])
  }

  // ----- why steps do not disturb each other -----

  lemma MembersStay(u: Unit, maps: Mappings, table: seq<MemberMapping>, q: Pool, q': Pool, before: seq<MemberInfo>, after: seq<MemberInfo>, n: nat)
    requires MembersAt(u, maps, table, q, before, after, n) && Steady(q, q')
    ensures MembersAt(u, maps, table, q', before, after, n)
  {
    hide Steady, TextAt, LookupInherited, MapMember;
    forall j | 0 <= j < |before| && j < n ensures MemberDone(u, maps, table, q', before[j], after[j]) {
      SteadyText(q, q', after[j].nameIndex);
      SteadyText(q, q', after[j].descriptorIndex);
    }
  }

  /** The reference has moved to a runtime owner. */
  predicate OwnerMoves(u: Unit, maps: Mappings, i: nat)
    requires i < |u.pool|
  {
    && u.pool[i].Ref? && MemberAt(u.pool, u.pool[i].natIndex).Some?
    && HasOwner(MappingOf(u, maps, u.pool[i], MemberAt(u.pool, u.pool[i].natIndex).value))
  }

  /** A finished reference stays finished if its entry stays and the runtime
      owner it names, if that is a new entry, keeps its name. */
  lemma ReferenceStays(u: Unit, maps: Mappings, late: bool, q: Pool, q': Pool, i: nat)
    requires i < |u.pool| && ReferenceDone(u, maps, late, q, i) && Steady(q, q')
    requires IsReference(u.pool[i]) ==> i < |q| && q'[i] == q[i]
    requires OwnerMoves(u, maps, i) && i < |q| && q[i].Ref? && q[i].classIndex as int >= |u.pool| ==>
               ClassName(q', q[i].classIndex) == ClassName(q, q[i].classIndex)
    ensures ReferenceDone(u, maps, late, q', i)
  {
    assert |q| <= |q'|;
    hide Steady, MemberAt, ClassName, MappingOf, MapMember, Reused;
    if u.pool[i].Ref? {
      if MemberAt(u.pool, u.pool[i].natIndex).Some? {
        SteadyMember(q, q', q[i].natIndex);
      }
    } else if u.pool[i].DynamicRef? {
      if MemberAt(u.pool, u.pool[i].natIndex).Some? {
        SteadyMember(q, q', q[i].natIndex);
      }
    }
  }

  lemma MovedOwner(u: Unit, maps: Mappings, late: bool, q: Pool, i: nat)
    requires i < |u.pool| && ReferenceDone(u, maps, late, q, i) && OwnerMoves(u, maps, i)
    ensures i < |q| && q[i].Ref?
    ensures OwnerDone(u, maps, late, q, q[i].classIndex, RuntimeOwner(u, maps, i))
  {
    hide MemberAt, ClassName, MappingOf, MapMember, OwnerDone;
  }

  function RuntimeOwner(u: Unit, maps: Mappings, i: nat): string
    requires i < |u.pool| && OwnerMoves(u, maps, i)
  {
    MappingOf(u, maps, u.pool[i], MemberAt(u.pool, u.pool[i].natIndex).value).value.runtimeOwner.value
  }

  /** Appending disturbs nothing. */
  lemma AppendKeepsProgress(u: Unit, maps: Mappings, late: bool, q: Pool, q': Pool, r: nat, c: nat)
    requires Progress(u, maps, late, q, r, c) && Appends(q, q')
    ensures Progress(u, maps, late, q', r, c)
  {
    AppendsSteady(q, q');
    forall i | 0 <= i < |u.pool| ensures SameShape(u.pool[i], q'[i]) {
      assert q'[i] == q[i];
    }
    hide Steady, ReferenceAt, ClassAt, SameShape, IsReference;
    forall i | 0 <= i < |u.pool| ensures ReferenceAt(u, maps, late, q', i, r) {
      AppendKeepsReference(u, maps, late, q, q', i, r);
    }
    forall i | 0 <= i < |u.pool| ensures ClassAt(u, maps, q', i, c) {
      AppendKeepsClass(u, maps, q, q', i, c);
    }
  }

  lemma AppendKeepsReference(u: Unit, maps: Mappings, late: bool, q: Pool, q': Pool, i: nat, limit: nat)
    requires i < |u.pool| <= |q| && ReferenceAt(u, maps, late, q, i, limit) && Appends(q, q') && Steady(q, q')
    ensures ReferenceAt(u, maps, late, q', i, limit)
  {
    hide Steady, ReferenceDone, MappingOf, MemberAt, Reused;
    if i < limit {
      if OwnerMoves(u, maps, i) {
        MovedOwner(u, maps, late, q, i);
        if q[i].classIndex as int >= |u.pool| {
          SteadyClass(q, q', q[i].classIndex);
        }
      }
      ReferenceStays(u, maps, late, q, q', i);
    }
  }

  lemma AppendKeepsClass(u: Unit, maps: Mappings, q: Pool, q': Pool, i: nat, limit: nat)
    requires i < |u.pool| <= |q| && ClassAt(u, maps, q, i, limit) && Appends(q, q') && Steady(q, q')
    ensures ClassAt(u, maps, q', i, limit)
  {
    hide Steady, MapClass;
    if i < limit && IsClass(u.pool[i]) && ClassName(u.pool, i).Some? {
      SteadyClass(q, q', i);
    }
  }

  // ----- one reference -----

  lemma RepointSteady(q: Pool, i: nat, e: Constant)
    requires i < |q| && IsReference(q[i]) && IsReference(e)
    ensures Steady(q, q[i := e])
    ensures forall x :: ClassName(q[i := e], x) == ClassName(q, x)
  {
  }

  lemma RepointKeepsReference(u: Unit, maps: Mappings, late: bool, q: Pool, i: nat, e: Constant, j: nat)
    requires i < |u.pool| <= |q| && j < |u.pool| && j != i && ReferenceAt(u, maps, late, q, j, i)
    requires IsReference(q[i]) && IsReference(e)
    ensures ReferenceAt(u, maps, late, q[i := e], j, i)
  {
    hide Steady, ReferenceDone, ClassName, MemberAt, MappingOf;
    if j < i {
      RepointSteady(q, i, e);
      if OwnerMoves(u, maps, j) {
        MovedOwner(u, maps, late, q, j);
      }
      ReferenceStays(u, maps, late, q, q[i := e], j);
    }
  }

  lemma RepointKeepsClass(u: Unit, maps: Mappings, q: Pool, i: nat, e: Constant, c: nat, j: nat)
    requires i < |u.pool| <= |q| && j < |u.pool| && ClassAt(u, maps, q, j, c)
    requires IsReference(u.pool[i]) && IsReference(q[i]) && IsReference(e)
    ensures ClassAt(u, maps, q[i := e], j, c)
  {
    hide Steady, ClassName, MapClass;
    RepointSteady(q, i, e);
  }

  /** The next reference is repointed. */
  lemma RepointReference(u: Unit, maps: Mappings, late: bool, q: Pool, i: nat, c: nat, e: Constant)
    requires Progress(u, maps, late, q, i, c) && i < |u.pool| && IsReference(u.pool[i]) && SameShape(u.pool[i], e)
    requires ReferenceDone(u, maps, late, q[i := e], i)
    ensures Progress(u, maps, late, q[i := e], i + 1, c)
  {
    var q' := q[i := e];
    assert IsReference(q[i]) && IsReference(e) by {
      assert SameShape(u.pool[i], q[i]);
    }
    hide ReferenceDone, ClassDone, SameShape, IsReference;
    assert Grown(u.pool, q');
    hide Grown, IsClass;
    var next := i + 1;
    forall j | 0 <= j < |u.pool| ensures ReferenceAt(u, maps, late, q', j, next) {
      if j != i {
        RepointKeepsReference(u, maps, late, q, i, e, j);
      }
    }
    forall j | 0 <= j < |u.pool| ensures ClassAt(u, maps, q', j, c) {
      RepointKeepsClass(u, maps, q, i, e, c, j);
    }
  }

  /** The next entry needs nothing, or is no reference. */
  lemma PassReference(u: Unit, maps: Mappings, late: bool, q: Pool, i: nat, c: nat)
    requires Progress(u, maps, late, q, i, c)
    requires i < |u.pool| ==> ReferenceDone(u, maps, late, q, i)
    ensures Progress(u, maps, late, q, i + 1, c)
  {
    hide ReferenceDone, ClassAt, Grown;
    var next := i + 1;
    forall j | 0 <= j < |u.pool| ensures ReferenceAt(u, maps, late, q, j, next) {
      assert ReferenceAt(u, maps, late, q, j, i);
    }
  }

  // ----- one class -----

  lemma RenameSteady(q: Pool, i: nat, name: u2, x: int)
    requires i < |q| && IsClass(q[i])
    ensures Steady(q, q[i := Named(CLASS, name)])
    ensures x != i ==> ClassName(q[i := Named(CLASS, name)], x) == ClassName(q, x)
    ensures i > 0 && TextAt(q, name).Some? ==> ClassName(q[i := Named(CLASS, name)], i) == TextAt(q, name)
  {
  }

  /** The entry at i is about to be renamed as the mapping says. */
  predicate Renames(u: Unit, maps: Mappings, q: Pool, i: nat, name: u2) {
    && 0 < i < |u.pool| && Grown(u.pool, q) && IsClass(u.pool[i]) && q[i] == u.pool[i]
    && ClassName(u.pool, i).Some? && TextAt(q, name) == Some(MapClass(maps.classes, ClassName(u.pool, i).value))
  }

  lemma RenameKeepsReference(u: Unit, maps: Mappings, late: bool, q: Pool, i: nat, name: u2, j: nat, r: nat)
    requires Renames(u, maps, q, i, name)
    requires j < |u.pool| && ReferenceAt(u, maps, late, q, j, r)
    ensures ReferenceAt(u, maps, late, q[i := Named(CLASS, name)], j, r)
  {
    var q' := q[i := Named(CLASS, name)];
    RenameSteady(q, i, name, i);
    hide Steady, ReferenceDone, ClassName, MappingOf, MemberAt, MapClass, Grown, TextAt, Reused, OwnerDone;
    if j < r && IsReference(u.pool[j]) {
      if OwnerMoves(u, maps, j) {
        MovedOwner(u, maps, late, q, j);
        RenameSteady(q, i, name, q[j].classIndex);
      }
      RenamedNoReference(u, q, i, j);
      ReferenceStays(u, maps, late, q, q', j);
    } else if j < r {
      NoReferenceDone(u, maps, late, q', j);
    }
  }

  lemma NoReferenceDone(u: Unit, maps: Mappings, late: bool, q: Pool, i: nat)
    requires i < |u.pool| && !IsReference(u.pool[i])
    ensures ReferenceDone(u, maps, late, q, i)
  {
    hide RefDone, DynamicDone;
  }

  lemma RenamedNoReference(u: Unit, q: Pool, i: nat, j: nat)
    requires i < |u.pool| <= |q| && j < |u.pool| && IsClass(u.pool[i]) && IsReference(u.pool[j])
    ensures i != j
  {
  }

  lemma RenameKeepsClass(u: Unit, maps: Mappings, q: Pool, i: nat, name: u2, j: nat)
    requires Renames(u, maps, q, i, name) && j < |u.pool| && ClassAt(u, maps, q, j, i)
    ensures ClassAt(u, maps, q[i := Named(CLASS, name)], j, i + 1)
  {
    assert |u.pool| <= |q|;
    hide Steady, ClassName, MapClass, Grown, TextAt;
    RenameSteady(q, i, name, j);
  }

  /** The next class is renamed. */
  lemma RenameClass(u: Unit, maps: Mappings, late: bool, q: Pool, r: nat, i: nat, name: u2)
    requires Progress(u, maps, late, q, r, i) && Renames(u, maps, q, i, name)
    ensures Progress(u, maps, late, q[i := Named(CLASS, name)], r, i + 1)
  {
    var q' := q[i := Named(CLASS, name)];
    assert Grown(u.pool, q');
    hide Grown, Renames, ReferenceAt, ClassAt;
    forall j | 0 <= j < |u.pool| ensures ReferenceAt(u, maps, late, q', j, r) {
      RenameKeepsReference(u, maps, late, q, i, name, j, r);
    }
    var next := i + 1;
    forall j | 0 <= j < |u.pool| ensures ClassAt(u, maps, q', j, next) {
      RenameKeepsClass(u, maps, q, i, name, j);
    }
  }

  lemma PassClass(u: Unit, maps: Mappings, late: bool, q: Pool, r: nat, i: nat)
    requires Progress(u, maps, late, q, r, i)
    requires i < |u.pool| ==> ClassDone(u, maps, q, i)
    ensures Progress(u, maps, late, q, r, i + 1)
  {
    hide ClassDone, ReferenceAt, Grown;
    var next := i + 1;
    forall j | 0 <= j < |u.pool| ensures ClassAt(u, maps, q, j, next) {
      assert ClassAt(u, maps, q, j, i);
    }
  }
}
