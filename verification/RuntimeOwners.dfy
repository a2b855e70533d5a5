/** What a moved reference answers with in the end, and the class file a remap
    leaves. */
module RuntimeOwners {
  import opened Bytes
  import opened Status
  import opened ConstantPool
  import opened Remapping
  import opened RemapProgress
  import opened RemapOwners
  import opened ClassRemap
  import opened ClassFileCodec
  import opened ClassFileRoundTrip

  /** The name the owner of a moved reference goes by: the runtime owner, unless
      the references were moved first and found it among the classes that were
      still to be renamed. */
  function OwnerAnswer(u: Unit, maps: Mappings, late: bool, owner: string): string
    requires |u.pool| >= 1
  {
    if !late && Reused(u.pool, owner) then MapClass(maps.classes, owner) else owner
  }

  lemma RuntimeOwnerAnswers(u: Unit, maps: Mappings, late: bool, q: Pool, members: Members, after: Members, i: nat)
    requires Remapped(u, maps, late, q, members, after) && i < |u.pool| && OwnerMoves(u, maps, i)
    ensures i < |q| && q[i].Ref?
    ensures ClassName(q, q[i].classIndex) == Some(OwnerAnswer(u, maps, late, RuntimeOwner(u, maps, i)))
  {
    hide Grown, MembersAt, ClassName, MapClass, Reused, RuntimeOwner, OwnerMoves, ReferenceDone;
    MovedOwner(u, maps, late, q, i);
    var x := q[i].classIndex as int;
    if x < |u.pool| {
      assert ClassDone(u, maps, q, x);
    }
  }

  /** A reference that moves ends at its runtime owner if and only if the classes
      were renamed first, the pool had no class of that name to reuse, or the
      mapping leaves that class alone. */
  lemma RuntimeOwnerReached(u: Unit, maps: Mappings, late: bool, q: Pool, members: Members, after: Members, i: nat)
    requires Remapped(u, maps, late, q, members, after) && i < |u.pool| && OwnerMoves(u, maps, i)
    ensures var owner := RuntimeOwner(u, maps, i);
      && i < |q| && q[i].Ref?
      && (ClassName(q, q[i].classIndex) == Some(owner)
          <==> late || !Reused(u.pool, owner) || MapClass(maps.classes, owner) == owner)
  {
    hide Remapped, ClassName, MapClass, Reused, RuntimeOwner, OwnerMoves;
    RuntimeOwnerAnswers(u, maps, late, q, members, after, i);
  }

  predicate TextsDiffer(pool: Pool) {
    forall i, j :: 0 <= i < j < |pool| && pool[i].Utf8? ==> pool[i] != pool[j]
  }

  /** In a pool that holds no text twice, a name is reused exactly if a class has it. */
  lemma ReusedIsNamed(pool: Pool, name: string)
    requires PoolValid(pool) && TextsDiffer(pool)
    ensures Reused(pool, name) <==> exists i :: 0 <= i < |pool| && ClassName(pool, i) == Some(name)
  {
    var text := FirstEqual(pool, Utf8(name), 1);
    if Reused(pool, name) {
      var k :| 1 <= k < |pool| && pool[k] == Named(CLASS, text);
      assert ClassName(pool, k) == Some(name);
    }
    if i :| 0 <= i < |pool| && ClassName(pool, i) == Some(name) {
      assert pool[pool[i].nameIndex] == Utf8(name);
      assert pool[i] == Named(CLASS, text);
    }
  }

  // ----- a pool and a mapping for which the runtime owner is missed -----

  /** A call of A.m, and a class B. */
  const CALLER: Pool := [
    Unusable, Utf8("A"), Named(CLASS, 1), Utf8("B"), Named(CLASS, 3),
    Utf8("m"), Utf8("()V"), NameAndType(5, 6), Ref(METHODREF, 2, 7)]

  const CALLER_UNIT := Unit(CALLER, 2, 0, [])

  /** B becomes C, and A.m is found in B at run time. */
  const A_M := MemberMapping(Some("A"), Some("m"), None, Some("B"), None, None)
  const B_TO_C := Mappings([ClassMapping(Some("B"), Some("C"))], [], [A_M])

  lemma BIsReused()
    ensures Resolvable(CALLER) && Reused(CALLER, "B")
    ensures OwnerMoves(CALLER_UNIT, B_TO_C, 8) && RuntimeOwner(CALLER_UNIT, B_TO_C, 8) == "B"
    ensures MapClass(B_TO_C.classes, "B") == "C"
  {
    assert CALLER[3] == Utf8("B") && CALLER[4] == Named(CLASS, 3);
    assert FirstEqual(CALLER, Utf8("B"), 1) == 3;
    assert ClassName(CALLER, 2) == Some("A") && ClassName(CALLER, 4) == Some("B");
    assert TextAt(CALLER, 5) == Some("m") && TextAt(CALLER, 6) == Some("()V");
    assert MemberAt(CALLER, 7) == Some(Member("m", "()V"));
    assert MapsMember(A_M, "A", Member("m", "()V"));
    assert MappingOf(CALLER_UNIT, B_TO_C, CALLER[8], Member("m", "()V")) == Some(A_M);
  }

  /** The call is led to C, although its runtime owner is B; had the classes been
      renamed first, it would be led to B. */
  lemma RuntimeOwnerMissed(q: Pool, late: bool, members: Members, after: Members)
    requires Remapped(CALLER_UNIT, B_TO_C, late, q, members, after)
    ensures |q| > 8 && q[8].Ref? && ClassName(q, q[8].classIndex) == Some(if late then "B" else "C")
  {
    hide Remapped, Reused, ClassName, MapClass, OwnerMoves, RuntimeOwner;
    BIsReused();
    RuntimeOwnerAnswers(CALLER_UNIT, B_TO_C, late, q, members, after, 8);
  }

  /** The pool the remap leaves: B goes by C, and the call by B's entry. */
  const MISLED: Pool := CALLER[4 := Named(CLASS, 9)][8 := Ref(METHODREF, 4, 7)] + [Utf8("C")]

  lemma MisledIsRemapped()
    ensures Remapped(CALLER_UNIT, B_TO_C, false, MISLED, Members([], []), Members([], []))
  {
    var u, maps := CALLER_UNIT, B_TO_C;
    BIsReused();
    MisledMember();
    hide MappingOf, MemberAt, Reused, MapClass;
    assert MISLED[8] == Ref(METHODREF, 4, 7) && ClassName(CALLER, 4) == Some("B");
    assert RefDone(u, maps, false, MISLED, 8);
    forall i | 0 <= i < |CALLER| ensures ReferenceDone(u, maps, false, MISLED, i) {
      if i != 8 {
        NoReferenceDone(u, maps, false, MISLED, i);
      }
    }
    MisledClasses();
    hide ReferenceDone, ClassDone;
    assert Grown(CALLER, MISLED);
  }

  lemma MisledMember()
    ensures MemberAt(CALLER, 7) == Some(Member("m", "()V")) == MemberAt(MISLED, 7)
    ensures MappingOf(CALLER_UNIT, B_TO_C, CALLER[8], Member("m", "()V")) == Some(A_M)
    ensures MapMember(B_TO_C.classes, Some(A_M), Member("m", "()V")) == Member("m", "()V")
  {
    assert TextAt(CALLER, 5) == Some("m") && TextAt(CALLER, 6) == Some("()V");
    assert TextAt(MISLED, 5) == Some("m") && TextAt(MISLED, 6) == Some("()V");
    assert ClassName(CALLER, 2) == Some("A");
    assert MapsMember(A_M, "A", Member("m", "()V"));
    UnchangedText(B_TO_C.classes, "()V") by {
      assert !TextChanges(B_TO_C.classes, "V");
      assert !TextChanges(B_TO_C.classes, ")V");
    }
  }

  lemma MisledClasses()
    ensures forall i :: 0 <= i < |CALLER| ==> ClassDone(CALLER_UNIT, B_TO_C, MISLED, i)
  {
    assert ClassName(CALLER, 2) == Some("A") == ClassName(MISLED, 2);
    assert ClassName(CALLER, 4) == Some("B") && ClassName(MISLED, 4) == Some("C");
    assert !MapsClass(ClassMapping(Some("B"), Some("C")), "A");
    assert LookupClass(B_TO_C.classes[1..], "A") == None;
  }

  // ----- class files -----

  function Infos(members: seq<MemberEntry>): (r: seq<MemberInfo>)
    ensures |r| == |members|
  {
    seq(|members|, i requires 0 <= i < |members| => MemberInfo(members[i].nameIndex, members[i].descriptorIndex))
  }

  function Repoint(members: seq<MemberEntry>, infos: seq<MemberInfo>): (r: seq<MemberEntry>)
    requires |infos| == |members|
    ensures infos == Infos(members) ==> r == members
  {
    var r := seq(|members|, i requires 0 <= i < |members| =>
      members[i].(nameIndex := infos[i].nameIndex, descriptorIndex := infos[i].descriptorIndex));
    assert infos == Infos(members) ==> forall i :: 0 <= i < |members| ==> r[i] == members[i];
    r
  }

  function UnitOf(f: ClassFile): Unit { Unit(f.pool, f.thisClass, f.superClass, f.interfaces) }

  function MembersOf(f: ClassFile): Members { Members(Infos(f.fields), Infos(f.methods)) }

  predicate FileResolves(f: ClassFile) {
    Resolvable(f.pool) && MembersResolve(f.pool, Infos(f.fields)) && MembersResolve(f.pool, Infos(f.methods))
  }

  /** A remap of a class file. An empty mapping gives back the bytes it was read from. */
  method RemapFile(f: ClassFile, maps: Mappings) returns (status: Status, g: ClassFile)
    requires FileResolves(f)
    ensures status == OK ==>
      && g == f.(pool := g.pool, fields := g.fields, methods := g.methods)
      && Remapped(UnitOf(f), maps, false, g.pool, MembersOf(f), MembersOf(g))
      && g.fields == Repoint(f.fields, Infos(g.fields)) && g.methods == Repoint(f.methods, Infos(g.methods))
    ensures status == OK && Empty(maps) ==> forall data :: Parse(data) == Success(f) ==> Writable(g) && Serialize(g) == data
  {
    hide Resolvable, MembersResolve, Remapped, Parse, Writable, Serialize;
    var pool, after;
    status, pool, after := RemapClass(UnitOf(f), MembersOf(f), maps);
    g := f;
    if status != OK {
      return;
    }
    RemappedLength(UnitOf(f), maps, pool, MembersOf(f), after);
    g := f.(pool := pool, fields := Repoint(f.fields, after.fields), methods := Repoint(f.methods, after.methods));
    assert Infos(g.fields) == after.fields && Infos(g.methods) == after.methods;
    forall data | Parse(data) == Success(f) ensures Writable(f) && Serialize(f) == data {
      SerializeOfParse(data);
    }
  }

  lemma RemappedLength(u: Unit, maps: Mappings, q: Pool, members: Members, after: Members)
    requires Remapped(u, maps, false, q, members, after)
    ensures |after.fields| == |members.fields| && |after.methods| == |members.methods|
  {
    hide Grown, ReferenceDone, ClassDone;
  }
}
