/** The remapper: four passes over a class file whose constant pool grows under
    them. Shared text is never edited; indices move instead. */
module ClassRemap {
  import opened Bytes
  import opened Status
  import opened ConstantPool
  import opened Remapping
  import opened RemapProgress
  import opened RemapOwners

  // ----- what a class file promises -----

  /** Every reference leads to a name and a descriptor, every class to a name. */
  predicate Resolvable(pool: Pool) {
    && PoolValid(pool)
    && (forall i :: 0 <= i < |pool| ==> EntryResolves(pool, pool[i]))
  }

  predicate EntryResolves(pool: Pool, c: Constant) {
    match c
    case Ref(_, _, natIndex) => MemberAt(pool, natIndex).Some?
    case DynamicRef(_, _, natIndex) => MemberAt(pool, natIndex).Some?
    case Named(tag, nameIndex) => tag == CLASS ==> TextAt(pool, nameIndex).Some?
    case _ => true
  }

  predicate MembersResolve(pool: Pool, members: seq<MemberInfo>) {
    forall j :: 0 <= j < |members| ==>
      TextAt(pool, members[j].nameIndex).Some? && TextAt(pool, members[j].descriptorIndex).Some?
  }

  predicate Empty(maps: Mappings) {
    maps == Mappings([], [], [])
  }

  /** The names the class entries had to begin with. */
  method SnapshotClassNames(pool: Pool) returns (r: Result<seq<Option<string>>>)
    ensures r.Success? ==> |r.value| == |pool| && forall i :: 0 <= i < |pool| ==> r.value[i] == ClassName(pool, i)
    ensures r.Failure? ==> r.status == OUT_OF_MEMORY
    ensures r.Failure? <==> exists i :: 0 < i < |pool| && IsClass(pool[i]) && ClassName(pool, i).None?
  {
    var names: seq<Option<string>> := [];
    for i := 0 to |pool|
      invariant |names| == i && forall j :: 0 <= j < i ==> names[j] == ClassName(pool, j)
      invariant forall j :: 0 < j < i && IsClass(pool[j]) ==> ClassName(pool, j).Some?
    {
      var entry := At(pool, i);
      if entry == None || !entry.value.Named? || entry.value.tag != CLASS {
        names := names + [None];
        continue;
      }
      var name := TextAt(pool, entry.value.nameIndex);
      if name == None {
        assert IsClass(pool[i]) && ClassName(pool, i).None?;
        return Failure(OUT_OF_MEMORY);
      }
      names := names + [name];
    }
    return Success(names);
  }

  lemma InternUtf8Appends(pool: Pool, text: string)
    requires PoolValid(pool) && InternUtf8(pool, text).Success?
    ensures var r := InternUtf8(pool, text).value; Appends(pool, r.pool) && TextAt(r.pool, r.index) == Some(text)
  {
    hide InternUtf8;
    InternUtf8Keeps(pool, text);
  }

  lemma InternClassAppends(pool: Pool, name: string)
    requires PoolValid(pool) && InternClass(pool, name).Success?
    ensures var r := InternClass(pool, name).value; Appends(pool, r.pool) && ClassName(r.pool, r.index) == Some(name)
  {
    hide InternClass, ClassName;
    InternClassKeeps(pool, name);
  }

  lemma InternNameAndTypeAppends(pool: Pool, name: string, descriptor: string)
    requires PoolValid(pool) && InternNameAndType(pool, name, descriptor).Success?
    ensures var r := InternNameAndType(pool, name, descriptor).value;
      Appends(pool, r.pool) && MemberAt(r.pool, r.index) == Some(Member(name, descriptor))
  {
    hide InternNameAndType, MemberAt;
    InternNameAndTypeKeeps(pool, name, descriptor);
  }

  lemma NoEntryToFind(u: Unit, maps: Mappings, table: seq<MemberMapping>, owner: Option<string>, m: Member)
    requires Empty(maps) && table == []
    ensures LookupInherited(u, table, owner, m) == None
  {
    NoInterface(u, m, 0);
  }

  lemma {:induction false} NoInterface(u: Unit, m: Member, i: nat)
    requires i <= |u.interfaces|
    ensures LookupInterfaces(u, [], m, i) == None
    decreases |u.interfaces| - i
  {
    if i < |u.interfaces| {
      NoInterface(u, m, i + 1);
    }
  }

  class Remapper {
    const unit: Unit
    const maps: Mappings
    const names: seq<Option<string>>
    var pool: Pool

    predicate Prepared()
      reads this
    {
      && Resolvable(unit.pool)
      && |names| == |unit.pool| && (forall i :: 0 <= i < |names| ==> names[i] == ClassName(unit.pool, i))
    }

    constructor (original: Unit, mappings: Mappings, snapshot: seq<Option<string>>)
      requires Resolvable(original.pool) && |snapshot| == |original.pool|
      requires forall i :: 0 <= i < |snapshot| ==> snapshot[i] == ClassName(original.pool, i)
      ensures unit == original && maps == mappings && pool == original.pool && Prepared()
    {
      unit, maps, names, pool := original, mappings, snapshot, original.pool;
    }

    lemma ClassesAreNamed()
      requires Prepared()
      ensures ClassesNamed(unit.pool)
    {
      hide TextAt;
      forall i | 0 <= i < |unit.pool| && IsClass(unit.pool[i]) ensures ClassName(unit.pool, i).Some? {
        assert EntryResolves(unit.pool, unit.pool[i]);
      }
    }

    method OriginalName(index: u2) returns (name: Option<string>)
      requires Prepared()
      ensures name == ClassName(unit.pool, index)
    {
      if index == 0 || index as int >= |names| {
        return None;
      }
      return names[index];
    }

    /** By the owner itself, and for this class also by the classes above it. */
    method FindInherited(table: seq<MemberMapping>, owner: Option<string>, m: Member) returns (r: Option<MemberMapping>)
      requires Prepared()
      ensures r == LookupInherited(unit, table, owner, m)
    {
      hide LookupMember, Resolvable, ClassName;
      r := FindMember(table, owner, m);
      if r.Some? {
        return;
      }
      var self := OriginalName(unit.thisClass);
      if self.None? || owner.None? || self.value != owner.value {
        return;
      }
      var above := OriginalName(unit.superClass);
      r := FindMember(table, above, m);
      var i := 0;
      while i < |unit.interfaces| && r.None?
        invariant i <= |unit.interfaces|
        invariant r.None? ==> LookupMember(table, ClassName(unit.pool, unit.superClass), m).None?
        invariant (if r.Some? then r else LookupInterfaces(unit, table, m, i)) == LookupInherited(unit, table, owner, m)
        decreases |unit.interfaces| - i
      {
        var name := OriginalName(unit.interfaces[i]);
        r := FindMember(table, name, m);
        i := i + 1;
      }
    }

    /** The NameAndType a reference is to use instead of the one at natIndex. */
    method RemapNameAndType(natIndex: u2, mapping: Option<MemberMapping>) returns (status: Status, index: u2)
      requires PoolValid(pool)
      modifies this`pool
      ensures Appends(old(pool), pool)
      ensures status == OK && MemberAt(old(pool), natIndex).Some? ==>
        MemberAt(pool, index) == Some(MapMember(maps.classes, mapping, MemberAt(old(pool), natIndex).value))
      ensures Empty(maps) && mapping.None? ==> pool == old(pool) && index == natIndex
      ensures MemberAt(old(pool), natIndex).Some? ==> status in {OK, LIMIT_EXCEEDED}
    {
      hide InternNameAndType, TextAt, RemapText, TextChanges;
      index := natIndex;
      var entry := At(pool, natIndex);
      if entry == None || !entry.value.NameAndType? {
        return OK, index;
      }
      var name, descriptor := TextAt(pool, entry.value.nameIndex), TextAt(pool, entry.value.descriptorIndex);
      if name == None || descriptor == None {
        return OUT_OF_MEMORY, index;
      }
      var newName, newDescriptor, changed := name.value, descriptor.value, false;
      if mapping.Some? && mapping.value.runtimeName.Some? {
        newName, changed := mapping.value.runtimeName.value, true;
      }
      if mapping.Some? && mapping.value.runtimeDescriptor.Some? {
        newDescriptor, changed := mapping.value.runtimeDescriptor.value, true;
      } else {
        var text, descriptorChanged := RemapDescriptor(maps.classes, descriptor.value);
        if descriptorChanged {
          newDescriptor, changed := text, true;
        } else {
          UnchangedText(maps.classes, descriptor.value);
        }
      }
      NoChange(descriptor.value);
      status := OK;
      if changed {
        var r := InternNameAndType(pool, newName, newDescriptor);
        if r.Failure? {
          InternFailure(pool, newName, newDescriptor);
          return r.status, index;
        }
        InternNameAndTypeAppends(pool, newName, newDescriptor);
        pool, index := r.value.pool, r.value.index;
      }
    }

    /** A Field-, Method- or InterfaceMethodref. */
    method RemapRef(i: nat, ghost late: bool, ghost c: nat) returns (status: Status)
      requires Prepared() && 0 < i < |unit.pool| <= |pool| && pool[i].Ref?
      requires Progress(unit, maps, late, pool, i, c) && (if late then c >= |unit.pool| else c == 0)
      modifies this`pool
      ensures PoolValid(pool) && Steady(old(pool), pool)
      ensures status == OK ==> Progress(unit, maps, late, pool, i + 1, c)
      ensures Empty(maps) ==> pool == old(pool)
    {
      ghost var q := pool;
      ResolvedMember(unit, maps, late, pool, i, c);
      hide Progress, Prepared, Resolvable, MemberAt, ClassName, MapMember, LookupInherited, Steady, Appends;
      var ref := pool[i];
      var member := MemberAt(pool, ref.natIndex).value;
      var owner := OriginalName(ref.classIndex);
      var table := if ref.tag == FIELDREF then maps.fields else maps.methods;
      NoEntries(unit, maps, table, owner, member);
      var mapping := FindInherited(table, owner, member);
      assert mapping == MappingOf(unit, maps, ref, member);
      var newNat;
      status, newNat := RemapNameAndType(ref.natIndex, mapping);
      AppendKeepsProgress(unit, maps, late, q, pool, i, c);
      AppendsValid(q, pool);
      if status != OK {
        return;
      }
      ghost var q1 := pool;
      var newClass := ref.classIndex;
      if mapping.Some? && mapping.value.runtimeOwner.Some? {
        var r := InternClass(pool, mapping.value.runtimeOwner.value);
        if r.Failure? {
          return r.status;
        }
        InternClassAppends(pool, mapping.value.runtimeOwner.value);
        ClassesAreNamed();
        InternedOwner(unit, maps, late, pool, i, c, mapping.value.runtimeOwner.value);
        pool, newClass := r.value.pool, r.value.index;
        AppendKeepsProgress(unit, maps, late, q1, pool, i, c);
        AppendsValid(q1, pool);
        SteadyMember(q1, pool, newNat);
        SteadyTwice(q, q1, pool);
      }
      AppendedEntry(unit, maps, late, pool, i, c);
      ghost var q2 := pool;
      pool := pool[i := Ref(ref.tag, newClass, newNat)];
      RefIsDone(unit, maps, late, q2, i, newClass, newNat);
      RepointReference(unit, maps, late, q2, i, c, pool[i]);
      RepointSteady(q2, i, pool[i]);
      SteadyTwice(q, q2, pool);
      StillValid(q2, i, pool[i]);
    }

    /** A Dynamic or InvokeDynamic: only the descriptor can move. */
    method RemapDynamic(i: nat, ghost late: bool, ghost c: nat) returns (status: Status)
      requires Prepared() && 0 < i < |unit.pool| <= |pool| && pool[i].DynamicRef?
      requires Progress(unit, maps, late, pool, i, c)
      modifies this`pool
      ensures PoolValid(pool) && Steady(old(pool), pool)
      ensures status == OK ==> Progress(unit, maps, late, pool, i + 1, c)
      ensures Empty(maps) ==> pool == old(pool)
    {
      ghost var q := pool;
      ResolvedMember(unit, maps, late, pool, i, c);
      hide Progress, Prepared, Resolvable, MemberAt, ClassName, MapMember, Steady, Appends;
      var ref := pool[i];
      var newNat;
      status, newNat := RemapNameAndType(ref.natIndex, None);
      AppendKeepsProgress(unit, maps, late, q, pool, i, c);
      AppendsValid(q, pool);
      if status != OK {
        return;
      }
      AppendedEntry(unit, maps, late, pool, i, c);
      ghost var q2 := pool;
      pool := pool[i := DynamicRef(ref.tag, ref.bootstrap, newNat)];
      DynamicIsDone(unit, maps, late, q2, i, newNat);
      RepointReference(unit, maps, late, q2, i, c, pool[i]);
      RepointSteady(q2, i, pool[i]);
      SteadyTwice(q, q2, pool);
      StillValid(q2, i, pool[i]);
    }

    /** Walks the pool while it grows: what is appended is never a reference. */
    method RemapReferences(ghost late: bool, ghost c: nat) returns (status: Status)
      requires Prepared() && Progress(unit, maps, late, pool, 0, c) && (if late then c >= |unit.pool| else c == 0)
      modifies this`pool
      ensures PoolValid(pool) && Steady(old(pool), pool)
      ensures status == OK ==> Progress(unit, maps, late, pool, |unit.pool|, c)
      ensures Empty(maps) ==> pool == old(pool)
    {
      ProgressFacts(unit, maps, late, pool, 0, c);
      SteadySelf(pool);
      FirstIsUnusable(unit, maps, late, pool, c);
      hide Progress, Prepared, Steady;
      status := OK;
      var i := 1;
      while i < |pool|
        invariant 1 <= i && |unit.pool| <= |pool| && PoolValid(pool) && Steady(old(pool), pool)
        invariant Progress(unit, maps, late, pool, i, c)
        invariant Empty(maps) ==> pool == old(pool)
        decreases MAX_COUNT - i
      {
        ghost var q := pool;
        NotYetDone(unit, maps, late, pool, i, c);
        if pool[i].Ref? {
          status := RemapRef(i, late, c);
        } else if pool[i].DynamicRef? {
          status := RemapDynamic(i, late, c);
        } else {
          PassReference(unit, maps, late, pool, i, c);
        }
        SteadyTwice(old(pool), q, pool);
        SteadyLonger(q, pool);
        if status != OK {
          return;
        }
        i := i + 1;
      }
      ProgressBeyond(unit, maps, late, pool, i, |unit.pool|, c);
    }

    /** A class entry whose name the mapping may move. */
    method RemapClassEntry(i: nat, name: string, ghost late: bool, ghost r: nat) returns (status: Status)
      requires Prepared() && 0 < i < |unit.pool| <= |pool| && IsClass(unit.pool[i]) && ClassName(unit.pool, i) == Some(name)
      requires Progress(unit, maps, late, pool, r, i)
      modifies this`pool
      ensures PoolValid(pool) && Steady(old(pool), pool)
      ensures status == OK ==> Progress(unit, maps, late, pool, r, i + 1)
      ensures Empty(maps) ==> pool == old(pool)
    {
      ghost var q := pool;
      ProgressFacts(unit, maps, late, pool, r, i);
      SteadySelf(pool);
      ClassNotYetDone(unit, maps, late, pool, r, i);
      hide Progress, Prepared, ClassName, MapClass, Steady, Appends, Renames, Grown;
      var mapped, changed := RemapClassName(maps.classes, name);
      if !changed {
        PassClass(unit, maps, late, pool, r, i);
        return OK;
      }
      var n := InternUtf8(pool, mapped);
      if n.Failure? {
        return n.status;
      }
      InternUtf8Appends(pool, mapped);
      pool := n.value.pool;
      AppendKeepsProgress(unit, maps, late, q, pool, r, i);
      AppendsValid(q, pool);
      ghost var q2 := pool;
      ReadyToRename(unit, maps, late, q2, r, i, n.value.index);
      pool := pool[i := Named(CLASS, n.value.index)];
      RenameClass(unit, maps, late, q2, r, i, n.value.index);
      RenamedSteady(unit, maps, q2, i, n.value.index);
      SteadyTwice(q, q2, pool);
      StillValid(q2, i, pool[i]);
      return OK;
    }

    /** Every class entry the snapshot knows. */
    method RemapClassEntries(ghost late: bool, ghost r: nat) returns (status: Status)
      requires Prepared() && Progress(unit, maps, late, pool, r, 0)
      modifies this`pool
      ensures PoolValid(pool) && Steady(old(pool), pool)
      ensures status == OK ==> Progress(unit, maps, late, pool, r, |unit.pool|)
      ensures Empty(maps) ==> pool == old(pool)
    {
      ProgressFacts(unit, maps, late, pool, r, 0);
      SteadySelf(pool);
      FirstIsNoClass(unit, maps, late, pool, r);
      hide Progress, Steady, Resolvable, ClassName;
      status := OK;
      var i := 1;
      while i < |pool|
        invariant 1 <= i && |unit.pool| <= |pool| && PoolValid(pool) && Steady(old(pool), pool)
        invariant Progress(unit, maps, late, pool, r, i)
        invariant Empty(maps) ==> pool == old(pool)
        decreases MAX_COUNT - i
      {
        ghost var q := pool;
        SameClass(unit, maps, late, pool, r, i);
        if pool[i].Named? && pool[i].tag == CLASS && i < |names| && names[i].Some? {
          status := RemapClassEntry(i, names[i].value, late, r);
        } else {
          UnnamedIsDone(unit, maps, pool, i);
          PassClass(unit, maps, late, pool, r, i);
        }
        SteadyTwice(old(pool), q, pool);
        SteadyLonger(q, pool);
        if status != OK {
          return;
        }
        i := i + 1;
      }
      ClassesBeyond(unit, maps, late, pool, r, i, |unit.pool|);
    }

    /** One text of an own member, replaced if it is to change. */
    method Replace(index: u2, text: string, changed: bool) returns (status: Status, newIndex: u2)
      requires PoolValid(pool) && (!changed ==> TextAt(pool, index) == Some(text))
      modifies this`pool
      ensures Appends(old(pool), pool) && (!changed ==> pool == old(pool) && newIndex == index)
      ensures status == OK ==> TextAt(pool, newIndex) == Some(text)
    {
      if !changed {
        return OK, index;
      }
      hide InternUtf8, TextAt;
      var r := InternUtf8(pool, text);
      if r.Failure? {
        return r.status, index;
      }
      InternUtf8Appends(pool, text);
      pool := r.value.pool;
      return OK, r.value.index;
    }

    method RemapOwnMember(member: MemberInfo, table: seq<MemberMapping>) returns (status: Status, after: MemberInfo)
      requires Prepared() && PoolValid(pool) && Steady(unit.pool, pool) && (table == maps.fields || table == maps.methods)
      requires TextAt(unit.pool, member.nameIndex).Some? && TextAt(unit.pool, member.descriptorIndex).Some?
      modifies this`pool
      ensures Appends(old(pool), pool)
      ensures status == OK ==> MemberDone(unit, maps, table, pool, member, after)
      ensures Empty(maps) ==> pool == old(pool) && after == member
    {
      SteadyText(unit.pool, pool, member.nameIndex);
      SteadyText(unit.pool, pool, member.descriptorIndex);
      hide Prepared, Steady, TextAt, LookupInherited, ClassName, RemapText, TextChanges, Appends;
      var name := TextAt(pool, member.nameIndex).value;
      var descriptor := TextAt(pool, member.descriptorIndex).value;
      var self := OriginalName(unit.thisClass);
      NoEntries(unit, maps, table, self, Member(name, descriptor));
      NoChange(descriptor);
      var mapping := FindInherited(table, self, Member(name, descriptor));
      var rename := mapping.Some? && mapping.value.runtimeName.Some?;
      var newName := if rename then mapping.value.runtimeName.value else name;
      var text, changed := RemapDescriptor(maps.classes, descriptor);
      if !changed {
        UnchangedText(maps.classes, descriptor);
      }
      if mapping.Some? && mapping.value.runtimeDescriptor.Some? {
        text, changed := mapping.value.runtimeDescriptor.value, true;
      }
      ghost var q := pool;
      after := member;
      var nameIndex;
      status, nameIndex := Replace(member.nameIndex, newName, rename);
      AppendsValid(q, pool);
      if status != OK {
        return;
      }
      ghost var q1 := pool;
      SteadyText(q, pool, member.descriptorIndex);
      var descriptorIndex;
      status, descriptorIndex := Replace(member.descriptorIndex, text, changed);
      AppendsValid(q1, pool);
      AppendsAgain(q, q1, pool);
      if status == OK {
        SteadyText(q1, pool, nameIndex);
        after := MemberInfo(nameIndex, descriptorIndex);
      }
    }

    method RemapOwnMembers(members: seq<MemberInfo>, table: seq<MemberMapping>) returns (status: Status, after: seq<MemberInfo>)
      requires Prepared() && PoolValid(pool) && Steady(unit.pool, pool) && (table == maps.fields || table == maps.methods)
      requires MembersResolve(unit.pool, members)
      modifies this`pool
      ensures Appends(old(pool), pool)
      ensures status == OK ==> MembersAt(unit, maps, table, pool, members, after, |members|)
      ensures Empty(maps) ==> pool == old(pool) && (status == OK ==> after == members)
    {
      after := members;
      status := OK;
      AppendsSelf(pool);
      hide Prepared, Steady, Appends, MemberDone, TextAt;
      for i := 0 to |members|
        invariant PoolValid(pool) && Appends(old(pool), pool) && Steady(unit.pool, pool)
        invariant MembersAt(unit, maps, table, pool, members, after, i)
        invariant Empty(maps) ==> pool == old(pool) && after == members
      {
        ghost var q := pool;
        var replaced;
        status, replaced := RemapOwnMember(members[i], table);
        AppendsValid(q, pool);
        AppendsAgain(old(pool), q, pool);
        SteadyTwice(unit.pool, q, pool);
        if status != OK {
          return;
        }
        MembersStay(unit, maps, table, q, pool, members, after, i);
        after := after[i := replaced];
      }
    }

    /** The pass over one of the two member lists. */
    method RunMembers(members: seq<MemberInfo>, table: seq<MemberMapping>, ghost late: bool, ghost r: nat, ghost c: nat)
      returns (status: Status, after: seq<MemberInfo>)
      requires Prepared() && Progress(unit, maps, late, pool, r, c) && (table == maps.fields || table == maps.methods)
      requires MembersResolve(unit.pool, members)
      modifies this`pool
      ensures Steady(old(pool), pool)
      ensures status == OK ==> Progress(unit, maps, late, pool, r, c) && MembersAt(unit, maps, table, pool, members, after, |members|)
      ensures Empty(maps) ==> pool == old(pool) && (status == OK ==> after == members)
    {
      ghost var q := pool;
      ProgressFacts(unit, maps, late, q, r, c);
      ProgressSteady(unit, maps, late, q, r, c);
      hide Prepared, Progress, Steady, MembersResolve, MembersAt;
      status, after := RemapOwnMembers(members, table);
      AppendsValid(q, pool);
      AppendKeepsProgress(unit, maps, late, q, pool, r, c);
    }

    /** One more pass, whichever have been run before. */
    method RunPass(pass: Pass, ghost late: bool, ghost done: set<Pass>, fields: seq<MemberInfo>, methods: seq<MemberInfo>, now: Members)
      returns (status: Status, after: Members)
      requires Prepared() && pass !in done && (pass == REFERENCES ==> (late <==> CLASSES in done)) && Stage(unit, maps, late, done, pool, fields, methods, now)
      requires MembersResolve(unit.pool, fields) && MembersResolve(unit.pool, methods)
      modifies this`pool
      ensures status == OK ==> Stage(unit, maps, late, done + {pass}, pool, fields, methods, after)
      ensures Empty(maps) ==> pool == old(pool) && (status == OK ==> after == now)
    {
      ghost var q := pool;
      ghost var r, c := Reached(REFERENCES, done, |unit.pool|), Reached(CLASSES, done, |unit.pool|);
      hide Prepared, Progress, Steady, MembersResolve, MembersAt;
      after := now;
      match pass
      case REFERENCES =>
        status := RemapReferences(late, c);
        StageAfter(unit, maps, late, done, q, pool, fields, methods, now, pass);
      case CLASSES =>
        status := RemapClassEntries(late, r);
        StageAfter(unit, maps, late, done, q, pool, fields, methods, now, pass);
      case FIELDS =>
        Untouched(unit, maps, maps.fields, pool, fields, now.fields);
        status, after := RunFields(now, late, r, c);
        StageAfter(unit, maps, late, done, q, pool, fields, methods, now, pass);
      case METHODS =>
        Untouched(unit, maps, maps.methods, pool, methods, now.methods);
        status, after := RunMethods(now, late, r, c);
        StageAfter(unit, maps, late, done, q, pool, fields, methods, now, pass);
    }

    method RunFields(now: Members, ghost late: bool, ghost r: nat, ghost c: nat) returns (status: Status, after: Members)
      requires Prepared() && Progress(unit, maps, late, pool, r, c) && MembersResolve(unit.pool, now.fields)
      modifies this`pool
      ensures Steady(old(pool), pool) && after.methods == now.methods
      ensures status == OK ==>
        && Progress(unit, maps, late, pool, r, c)
        && MembersAt(unit, maps, maps.fields, pool, now.fields, after.fields, |now.fields|)
      ensures Empty(maps) ==> pool == old(pool) && (status == OK ==> after == now)
    {
      hide Prepared, Progress, Steady, MembersResolve, MembersAt;
      var replaced;
      status, replaced := RunMembers(now.fields, maps.fields, late, r, c);
      after := now.(fields := replaced);
    }

    method RunMethods(now: Members, ghost late: bool, ghost r: nat, ghost c: nat) returns (status: Status, after: Members)
      requires Prepared() && Progress(unit, maps, late, pool, r, c) && MembersResolve(unit.pool, now.methods)
      modifies this`pool
      ensures Steady(old(pool), pool) && after.fields == now.fields
      ensures status == OK ==>
        && Progress(unit, maps, late, pool, r, c)
        && MembersAt(unit, maps, maps.methods, pool, now.methods, after.methods, |now.methods|)
      ensures Empty(maps) ==> pool == old(pool) && (status == OK ==> after == now)
    {
      hide Prepared, Progress, Steady, MembersResolve, MembersAt;
      var replaced;
      status, replaced := RunMembers(now.methods, maps.methods, late, r, c);
      after := now.(methods := replaced);
    }

    /** All four passes, in any order. */
    method RemapIn(order: seq<Pass>, members: Members) returns (status: Status, after: Members)
      requires Prepared() && pool == unit.pool
      requires MembersResolve(unit.pool, members.fields) && MembersResolve(unit.pool, members.methods)
      requires multiset(order) == multiset{REFERENCES, FIELDS, METHODS, CLASSES}
      modifies this`pool
      ensures status == OK ==> Remapped(unit, maps, ClassesFirst(order), pool, members, after)
      ensures Empty(maps) ==> pool == old(pool) && (status == OK ==> after == members)
    {
      after, status := members, OK;
      ghost var late := ClassesFirst(order);
      StartOfStage(unit, maps, late, members);
      hide Prepared, Stage, MembersResolve, Remapped;
      ghost var done: set<Pass> := {};
      for k := 0 to |order|
        invariant Stage(unit, maps, late, done, pool, members.fields, members.methods, after)
        invariant forall p :: p in done <==> p in order[..k]
        invariant Empty(maps) ==> pool == old(pool) && after == members
      {
        EachOnce(order, k);
        WhatCameFirst(order, k);
        status, after := RunPass(order[k], late, done, members.fields, members.methods, after);
        if status != OK {
          return;
        }
        done := done + {order[k]};
        assert order[..k + 1] == order[..k] + [order[k]];
      }
      AllFour(order);
      IsRemapped(unit, maps, late, done, pool, members, after);
    }
  }

  datatype Pass = REFERENCES | FIELDS | METHODS | CLASSES

  /** The classes are renamed before the references move. */
  predicate ClassesFirst(order: seq<Pass>) {
    exists i, j :: 0 <= i < j < |order| && order[i] == CLASSES && order[j] == REFERENCES
  }

  datatype Members = Members(fields: seq<MemberInfo>, methods: seq<MemberInfo>)

  function Reached(pass: Pass, done: set<Pass>, n: nat): nat {
    if pass in done then n else 0
  }

  /** What holds once the passes in done have been run. */
  predicate Stage(u: Unit, maps: Mappings, late: bool, done: set<Pass>, q: Pool, fields: seq<MemberInfo>, methods: seq<MemberInfo>, now: Members) {
    && Progress(u, maps, late, q, Reached(REFERENCES, done, |u.pool|), Reached(CLASSES, done, |u.pool|))
    && MembersAt(u, maps, maps.fields, q, fields, now.fields, Reached(FIELDS, done, |fields|))
    && MembersAt(u, maps, maps.methods, q, methods, now.methods, Reached(METHODS, done, |methods|))
  }

  /** The member lists a pass does not touch stand as they stood. */
  lemma StageAfter(u: Unit, maps: Mappings, late: bool, done: set<Pass>, q: Pool, q': Pool, fields: seq<MemberInfo>,
                   methods: seq<MemberInfo>, now: Members, pass: Pass)
    requires Stage(u, maps, late, done, q, fields, methods, now) && Steady(q, q')
    ensures pass != FIELDS ==> MembersAt(u, maps, maps.fields, q', fields, now.fields, Reached(FIELDS, done + {pass}, |fields|))
    ensures pass != METHODS ==> MembersAt(u, maps, maps.methods, q', methods, now.methods, Reached(METHODS, done + {pass}, |methods|))
  {
    hide Steady, MembersAt, Progress;
    MembersStay(u, maps, maps.fields, q, q', fields, now.fields, Reached(FIELDS, done, |fields|));
    MembersStay(u, maps, maps.methods, q, q', methods, now.methods, Reached(METHODS, done, |methods|));
  }

  lemma ProgressSteady(u: Unit, maps: Mappings, late: bool, q: Pool, r: nat, c: nat)
    requires Progress(u, maps, late, q, r, c)
    ensures Steady(u.pool, q)
  {
    hide Steady;
    GrownSteady(u.pool, q);
  }

  /** Every reference, class and own member answers with the mapping's image of
      its original names, and nothing else has changed. */
  predicate Remapped(u: Unit, maps: Mappings, late: bool, q: Pool, members: Members, after: Members) {
    && Grown(u.pool, q)
    && (forall i :: 0 <= i < |u.pool| ==> ReferenceDone(u, maps, late, q, i))
    && (forall i :: 0 <= i < |u.pool| ==> ClassDone(u, maps, q, i))
    && MembersAt(u, maps, maps.fields, q, members.fields, after.fields, |members.fields|)
    && MembersAt(u, maps, maps.methods, q, members.methods, after.methods, |members.methods|)
  }

  lemma IsRemapped(u: Unit, maps: Mappings, late: bool, done: set<Pass>, q: Pool, members: Members, after: Members)
    requires Stage(u, maps, late, done, q, members.fields, members.methods, after)
    requires REFERENCES in done && FIELDS in done && METHODS in done && CLASSES in done
    ensures Remapped(u, maps, late, q, members, after)
  {
    hide Grown, ReferenceDone, ClassDone, MembersAt;
    forall i | 0 <= i < |u.pool| ensures ReferenceDone(u, maps, late, q, i) && ClassDone(u, maps, q, i) {
      assert ReferenceAt(u, maps, late, q, i, |u.pool|) && ClassAt(u, maps, q, i, |u.pool|);
    }
  }

  lemma StartOfStage(u: Unit, maps: Mappings, late: bool, members: Members)
    requires Resolvable(u.pool)
    ensures Stage(u, maps, late, {}, u.pool, members.fields, members.methods, members)
  {
    hide EntryResolves;
  }

  lemma Untouched(u: Unit, maps: Mappings, table: seq<MemberMapping>, q: Pool, members: seq<MemberInfo>, now: seq<MemberInfo>)
    requires MembersAt(u, maps, table, q, members, now, 0)
    ensures now == members
  {
  }

  lemma EachOnce(order: seq<Pass>, k: nat)
    requires multiset(order) == multiset{REFERENCES, FIELDS, METHODS, CLASSES} && k < |order|
    ensures order[k] !in order[..k]
  {
    assert order == order[..k] + [order[k]] + order[k + 1..];
    assert multiset(order)[order[k]] <= 1;
    assert multiset(order[..k])[order[k]] == 0;
  }

  lemma WhatCameFirst(order: seq<Pass>, k: nat)
    requires multiset(order) == multiset{REFERENCES, FIELDS, METHODS, CLASSES} && k < |order|
    ensures order[k] == REFERENCES ==> (ClassesFirst(order) <==> CLASSES in order[..k])
  {
    forall i, j | 0 <= i < j < |order| ensures order[i] != order[j] {
      EachOnce(order, j);
      assert order[i] in order[..j];
    }
  }

  lemma AllFour(order: seq<Pass>)
    requires multiset(order) == multiset{REFERENCES, FIELDS, METHODS, CLASSES}
    ensures REFERENCES in order[..|order|] && FIELDS in order[..|order|] && METHODS in order[..|order|] && CLASSES in order[..|order|]
  {
    assert order[..|order|] == order;
    assert REFERENCES in multiset(order) && FIELDS in multiset(order) && METHODS in multiset(order) && CLASSES in multiset(order);
  }

  /** Where a reference that keeps its owner leads: to the mapped class. */
  lemma OwnerIsMapped(u: Unit, maps: Mappings, late: bool, q: Pool, members: Members, after: Members, i: nat)
    requires Remapped(u, maps, late, q, members, after) && Resolvable(u.pool)
    requires i < |u.pool| && u.pool[i].Ref? && !OwnerMoves(u, maps, i) && ClassName(u.pool, u.pool[i].classIndex).Some?
    ensures i < |q| && q[i].Ref? && ClassName(q, q[i].classIndex)
         == Some(MapClass(maps.classes, ClassName(u.pool, u.pool[i].classIndex).value))
  {
    assert EntryResolves(u.pool, u.pool[i]);
    assert u.pool[i].classIndex as int < |u.pool| && IsClass(u.pool[u.pool[i].classIndex]);
    hide Grown, ClassName, MapClass, MemberAt, MappingOf, MapMember, Resolvable, MembersAt;
    assert ReferenceDone(u, maps, late, q, i) && ClassDone(u, maps, q, u.pool[i].classIndex);
  }

  /** A whole remap, in the order it is run. An empty mapping changes nothing. */
  method RemapClass(u: Unit, members: Members, maps: Mappings) returns (status: Status, pool: Pool, after: Members)
    requires Resolvable(u.pool)
    requires MembersResolve(u.pool, members.fields) && MembersResolve(u.pool, members.methods)
    ensures status == OK ==> Remapped(u, maps, false, pool, members, after)
    ensures status == OK && Empty(maps) ==> pool == u.pool && after == members
  {
    hide Resolvable, MembersResolve, Remapped, ClassName;
    pool, after := u.pool, members;
    var names := SnapshotClassNames(u.pool);
    if names.Failure? {
      return names.status, pool, after;
    }
    var remapper := new Remapper(u, maps, names.value);
    status, after := remapper.RemapIn([REFERENCES, FIELDS, METHODS, CLASSES], members);
    assert !ClassesFirst([REFERENCES, FIELDS, METHODS, CLASSES]);
    pool := remapper.pool;
  }

  lemma AppendsSelf(p: Pool)
    requires PoolValid(p)
    ensures Appends(p, p)
  {
  }

  lemma ClassNotYetDone(u: Unit, maps: Mappings, late: bool, q: Pool, r: nat, i: nat)
    requires Progress(u, maps, late, q, r, i) && i < |u.pool| && IsClass(u.pool[i]) && ClassName(u.pool, i).Some?
    ensures i < |q| && q[i] == u.pool[i] && ClassName(q, i) == ClassName(u.pool, i)
    ensures MapClass(maps.classes, ClassName(u.pool, i).value) == ClassName(u.pool, i).value ==> ClassDone(u, maps, q, i)
  {
    GrownSteady(u.pool, q);
    hide Grown, Steady, ClassName, MapClass, ReferenceAt;
    assert ClassAt(u, maps, q, i, i);
    SteadyClass(u.pool, q, i);
  }

  lemma ReadyToRename(u: Unit, maps: Mappings, late: bool, q: Pool, r: nat, i: nat, name: u2)
    requires Progress(u, maps, late, q, r, i) && 0 < i < |u.pool| && IsClass(u.pool[i]) && ClassName(u.pool, i).Some?
    requires TextAt(q, name) == Some(MapClass(maps.classes, ClassName(u.pool, i).value))
    ensures Renames(u, maps, q, i, name)
  {
    ClassNotYetDone(u, maps, late, q, r, i);
    hide ClassName, MapClass, ReferenceAt, Grown;
  }

  lemma RenamedSteady(u: Unit, maps: Mappings, q: Pool, i: nat, name: u2)
    requires Renames(u, maps, q, i, name)
    ensures i < |q| && Steady(q, q[i := Named(CLASS, name)])
  {
    hide ClassName, MapClass, TextAt;
    RenameSteady(q, i, name, i);
  }

  lemma FirstIsNoClass(u: Unit, maps: Mappings, late: bool, q: Pool, r: nat)
    requires Resolvable(u.pool) && Progress(u, maps, late, q, r, 0)
    ensures Progress(u, maps, late, q, r, 1)
  {
    assert ClassDone(u, maps, q, 0);
    hide Progress, ClassDone;
    PassClass(u, maps, late, q, r, 0);
  }

  lemma SameClass(u: Unit, maps: Mappings, late: bool, q: Pool, r: nat, i: nat)
    requires Progress(u, maps, late, q, r, i)
    ensures i < |u.pool| <= |q| ==> (IsClass(q[i]) <==> IsClass(u.pool[i]))
  {
    if i < |u.pool| {
      assert SameShape(u.pool[i], q[i]);
    }
  }

  lemma UnnamedIsDone(u: Unit, maps: Mappings, q: Pool, i: nat)
    ensures i < |u.pool| && (!IsClass(u.pool[i]) || ClassName(u.pool, i).None?) ==> ClassDone(u, maps, q, i)
  {
    hide ClassName, MapClass;
  }

  lemma ClassesBeyond(u: Unit, maps: Mappings, late: bool, q: Pool, r: nat, c: nat, c': nat)
    requires Progress(u, maps, late, q, r, c) && |u.pool| <= c && |u.pool| <= c'
    ensures Progress(u, maps, late, q, r, c')
  {
    hide Grown, ClassDone, ReferenceAt;
    forall i | 0 <= i < |u.pool| ensures ClassAt(u, maps, q, i, c') {
      assert ClassAt(u, maps, q, i, c);
    }
  }

  // ----- facts the passes use -----

  lemma ResolvedMember(u: Unit, maps: Mappings, late: bool, q: Pool, i: nat, c: nat)
    requires Resolvable(u.pool) && Progress(u, maps, late, q, i, c) && i < |u.pool| && IsReference(q[i])
    ensures q[i] == u.pool[i] && MemberAt(u.pool, q[i].natIndex).Some?
    ensures MemberAt(q, q[i].natIndex) == MemberAt(u.pool, q[i].natIndex)
    ensures PoolValid(q)
  {
    hide MemberAt, ClassName, ReferenceDone, ClassAt;
    GrownSteady(u.pool, q);
    hide Steady;
    assert EntryResolves(u.pool, u.pool[i]) && ReferenceAt(u, maps, late, q, i, i) && SameShape(u.pool[i], q[i]);
    SteadyMember(u.pool, q, u.pool[i].natIndex);
  }

  lemma NoEntries(u: Unit, maps: Mappings, table: seq<MemberMapping>, owner: Option<string>, m: Member)
    requires table == maps.fields || table == maps.methods
    ensures Empty(maps) ==> LookupInherited(u, table, owner, m) == None
  {
    hide LookupInherited;
    if Empty(maps) {
      NoEntryToFind(u, maps, table, owner, m);
    }
  }

  lemma AppendsValid(q: Pool, q': Pool)
    requires Appends(q, q')
    ensures PoolValid(q') && Steady(q, q') && |q| <= |q'| && q <= q'
  {
    AppendsSteady(q, q');
    hide Steady;
  }

  lemma SteadyTwice(p: Pool, q: Pool, r: Pool)
    requires Steady(p, q) && Steady(q, r)
    ensures Steady(p, r)
  {
  }

  lemma SteadySelf(p: Pool)
    ensures Steady(p, p)
  {
  }

  lemma SteadyLonger(p: Pool, q: Pool)
    requires Steady(p, q)
    ensures |p| <= |q|
  {
  }

  lemma AppendedEntry(u: Unit, maps: Mappings, late: bool, q: Pool, i: nat, c: nat)
    requires Progress(u, maps, late, q, i, c) && i < |u.pool| && IsReference(u.pool[i])
    ensures i < |q| && q[i] == u.pool[i]
  {
    hide Grown, ClassAt, ReferenceDone;
    assert ReferenceAt(u, maps, late, q, i, i);
  }

  lemma StillValid(q: Pool, i: nat, e: Constant)
    requires PoolValid(q) && 0 < i < |q|
    ensures PoolValid(q[i := e])
  {
  }

  lemma RefIsDone(u: Unit, maps: Mappings, late: bool, q: Pool, i: nat, newClass: u2, newNat: u2)
    requires i < |u.pool| <= |q| && q[i] == u.pool[i] && u.pool[i].Ref? && MemberAt(u.pool, u.pool[i].natIndex).Some?
    requires var m := MemberAt(u.pool, u.pool[i].natIndex).value;
      var mapping := MappingOf(u, maps, u.pool[i], m);
      && MemberAt(q, newNat) == Some(MapMember(maps.classes, mapping, m))
      && (if HasOwner(mapping) then OwnerDone(u, maps, late, q, newClass, mapping.value.runtimeOwner.value)
          else newClass == u.pool[i].classIndex)
    ensures ReferenceDone(u, maps, late, q[i := Ref(u.pool[i].tag, newClass, newNat)], i)
  {
    var e := Ref(u.pool[i].tag, newClass, newNat);
    RepointSteady(q, i, e);
    hide Steady, MemberAt, ClassName, MappingOf, MapMember, Reused, MapClass;
    SteadyMember(q, q[i := e], newNat);
  }

  lemma DynamicIsDone(u: Unit, maps: Mappings, late: bool, q: Pool, i: nat, newNat: u2)
    requires i < |u.pool| <= |q| && q[i] == u.pool[i] && u.pool[i].DynamicRef? && MemberAt(u.pool, u.pool[i].natIndex).Some?
    requires MemberAt(q, newNat) == Some(MapMember(maps.classes, None, MemberAt(u.pool, u.pool[i].natIndex).value))
    ensures ReferenceDone(u, maps, late, q[i := DynamicRef(u.pool[i].tag, u.pool[i].bootstrap, newNat)], i)
  {
    var e := DynamicRef(u.pool[i].tag, u.pool[i].bootstrap, newNat);
    RepointSteady(q, i, e);
    hide Steady, MemberAt, ClassName, MapMember;
    SteadyMember(q, q[i := e], newNat);
  }

  lemma ProgressFacts(u: Unit, maps: Mappings, late: bool, q: Pool, r: nat, c: nat)
    requires Progress(u, maps, late, q, r, c)
    ensures PoolValid(q) && |u.pool| <= |q|
  {
  }

  /** Index 0 holds nothing, so the passes may start behind it. */
  lemma FirstIsUnusable(u: Unit, maps: Mappings, late: bool, q: Pool, c: nat)
    requires Resolvable(u.pool) && Progress(u, maps, late, q, 0, c)
    ensures Progress(u, maps, late, q, 1, c)
  {
    hide Progress;
    NoReferenceDone(u, maps, late, q, 0);
    PassReference(u, maps, late, q, 0, c);
  }

  lemma NotYetDone(u: Unit, maps: Mappings, late: bool, q: Pool, i: nat, c: nat)
    requires Progress(u, maps, late, q, i, c) && i < |q|
    ensures IsReference(q[i]) ==> i < |u.pool|
    ensures i < |u.pool| && !IsReference(q[i]) ==> ReferenceDone(u, maps, late, q, i)
  {
    if i < |u.pool| && !IsReference(q[i]) {
      assert SameShape(u.pool[i], q[i]);
      NoReferenceDone(u, maps, late, q, i);
    }
  }

  lemma ProgressBeyond(u: Unit, maps: Mappings, late: bool, q: Pool, r: nat, r': nat, c: nat)
    requires Progress(u, maps, late, q, r, c) && |u.pool| <= r && |u.pool| <= r'
    ensures Progress(u, maps, late, q, r', c)
  {
    hide Grown, ReferenceDone, ClassAt;
    forall i | 0 <= i < |u.pool| ensures ReferenceAt(u, maps, late, q, i, r') {
      assert ReferenceAt(u, maps, late, q, i, r);
    }
  }

  lemma InternFailure(pool: Pool, name: string, descriptor: string)
    requires InternNameAndType(pool, name, descriptor).Failure?
    ensures InternNameAndType(pool, name, descriptor).status == LIMIT_EXCEEDED
  {
  }
}
