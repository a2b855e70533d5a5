/** Where interning a runtime owner lands: on an entry the pool had from the
    beginning, or behind it. */
module RemapOwners {
  import opened Bytes
  import opened Status
  import opened ConstantPool
  import opened Remapping
  import opened RemapProgress

  predicate ClassesNamed(pool: Pool) {
    PoolValid(pool) && forall i :: 0 <= i < |pool| && IsClass(pool[i]) ==> ClassName(pool, i).Some?
  }

  /** No class entry has been renamed yet. */
  predicate ClassesStand(p: Pool, q: Pool) {
    |p| <= |q| && forall i :: 0 <= i < |p| && IsClass(p[i]) ==> q[i] == p[i]
  }

  lemma ShapeOfText(a: Constant, b: Constant)
    requires SameShape(a, b)
    ensures a.Utf8? || b.Utf8? ==> a == b
    ensures IsClass(a) <==> IsClass(b)
  {
  }

  /** The first text of a kind in the original pool is the first one still. */
  lemma SameFirstText(p: Pool, q: Pool, name: string)
    requires Grown(p, q) && |p| >= 1
    ensures var f, g := FirstEqual(p, Utf8(name), 1), FirstEqual(q, Utf8(name), 1);
      if f < |p| then g == f else |p| <= g
  {
    forall i | 0 <= i < |p| ensures p[i] == Utf8(name) <==> q[i] == Utf8(name) {
      ShapeOfText(p[i], q[i]);
    }
    hide SameShape;
    var f, g := FirstEqual(p, Utf8(name), 1), FirstEqual(q, Utf8(name), 1);
    if f < |p| {
      assert q[f] == Utf8(name);
    }
  }

  lemma InternedAt(pool: Pool, c: Constant)
    requires PoolValid(pool) && !c.Unusable? && Intern(pool, c).Success?
    ensures var r, f := Intern(pool, c).value, FirstEqual(pool, c, 1);
      r.index as int == f && (f < |pool| ==> r.pool == pool)
  {
  }

  lemma InternedText(pool: Pool, text: string)
    requires PoolValid(pool) && InternUtf8(pool, text).Success?
    ensures var r, f := InternUtf8(pool, text).value, FirstEqual(pool, Utf8(text), 1);
      r.index as int == f && (f < |pool| ==> r.pool == pool)
  {
    InternedAt(pool, Utf8(text));
  }

  /** Before the classes are renamed, what is found is found in the original pool
      exactly if the name is reused there. */
  lemma OwnerFoundEarly(p: Pool, q: Pool, name: string)
    requires ClassesNamed(p) && Grown(p, q) && ClassesStand(p, q) && InternClass(q, name).Success?
    ensures var x := InternClass(q, name).value.index as int;
      && (x < |p| <==> Reused(p, name))
      && (x < |p| ==> 0 < x && IsClass(p[x]) && ClassName(p, x) == Some(name))
  {
    SameFirstText(p, q, name);
    var f := FirstEqual(p, Utf8(name), 1);
    var n := InternUtf8(q, name).value;
    InternedText(q, name);
    InternUtf8Keeps(q, name);
    var c := Named(CLASS, n.index);
    InternedAt(n.pool, c);
    hide InternUtf8, Intern;
    var x := InternClass(q, name).value.index as int;
    if x < |p| {
      ShapeOfText(p[x], q[x]);
      assert n.pool[x] == c && q[x] == c;
      assert IsClass(p[x]) && p[x] == c && ClassName(p, x).Some?;
      assert f < |p|;
      assert p[x] == Named(CLASS, f);
    }
  }

  lemma ClassesAtStart(u: Unit, maps: Mappings, late: bool, q: Pool, r: nat)
    requires Progress(u, maps, late, q, r, 0)
    ensures ClassesStand(u.pool, q)
  {
    GrownSteady(u.pool, q);
    hide Grown, ReferenceAt;
    forall i | 0 <= i < |u.pool| && IsClass(u.pool[i]) ensures q[i] == u.pool[i] {
      assert ClassAt(u, maps, q, i, 0);
    }
  }

  lemma OwnerFoundLate(u: Unit, maps: Mappings, q: Pool, r: nat, c: nat, name: string)
    requires ClassesNamed(u.pool) && Progress(u, maps, true, q, r, c) && c >= |u.pool| && InternClass(q, name).Success?
    ensures var x := InternClass(q, name).value;
      if x.index as int < |u.pool| then
        && IsClass(u.pool[x.index]) && ClassName(u.pool, x.index).Some?
        && MapClass(maps.classes, ClassName(u.pool, x.index).value) == name
      else ClassName(x.pool, x.index) == Some(name)
  {
    InternClassKeeps(q, name);
    var x := InternClass(q, name).value;
    var i := x.index as int;
    if i < |u.pool| {
      assert q <= x.pool && x.pool[i] == q[i];
      ShapeOfText(u.pool[i], q[i]);
      assert IsClass(u.pool[i]) && ClassName(u.pool, i).Some?;
      hide MapClass, InternClass, Grown, ReferenceAt, SameShape;
      assert ClassAt(u, maps, q, i, c);
      assert ClassDone(u, maps, q, i);
      assert ClassName(x.pool, i) == ClassName(q, i) by {
        TextSurvives(q, x.pool, q[i].nameIndex);
      }
    }
  }

  /** The class interned for a runtime owner stands for it, whichever pass comes first. */
  lemma InternedOwner(u: Unit, maps: Mappings, late: bool, q: Pool, r: nat, c: nat, owner: string)
    requires ClassesNamed(u.pool) && Progress(u, maps, late, q, r, c) && InternClass(q, owner).Success?
    requires if late then c >= |u.pool| else c == 0
    ensures var x := InternClass(q, owner).value; OwnerDone(u, maps, late, x.pool, x.index, owner)
  {
    assert PoolValid(q) && Grown(u.pool, q);
    InternClassKeeps(q, owner);
    hide Reused, InternClass, ClassName, MapClass, Grown, Progress;
    if late {
      OwnerFoundLate(u, maps, q, r, c, owner);
    } else {
      ClassesAtStart(u, maps, late, q, r);
      OwnerFoundEarly(u.pool, q, owner);
    }
  }
}
