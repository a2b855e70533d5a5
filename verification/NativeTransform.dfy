/** Making a method native and taking that back: its body moves to a copy under
    another name, and returns. */
module NativeTransform {
  import opened Bytes
  import opened Status
  import opened References
  import opened ConstantPool
  import opened ClassFileCodec

  datatype TransformStatus =
    TRANSFORMED | METHOD_NOT_FOUND | NAME_IN_USE | INTERFACE | INITIALIZER | ALREADY_NATIVE | IS_ABSTRACT | NO_CODE | CLASSFILE_FAILED

  // ----- access flags -----

  const PRIVATE := 0x0002
  const STATIC := 0x0008
  const FINAL := 0x0010
  const SYNCHRONIZED := 0x0020
  const BRIDGE := 0x0040
  const VARARGS := 0x0080
  const NATIVE := 0x0100
  const IS_INTERFACE := 0x0200
  const ABSTRACT := 0x0400
  const STRICT := 0x0800
  const SYNTHETIC := 0x1000

  predicate Has(flags: u2, bit: int)
    requires bit > 0
  {
    (flags / bit) % 2 == 1
  }

  function Only(flags: u2, bit: int): int
    requires bit > 0
  {
    if Has(flags, bit) then bit else 0
  }

  /** Private and final, and whatever describes the body. */
  function CopyFlags(flags: u2): u2 {
    PRIVATE + FINAL + Only(flags, STATIC) + Only(flags, SYNCHRONIZED) + Only(flags, BRIDGE) + Only(flags, VARARGS)
    + Only(flags, STRICT) + Only(flags, SYNTHETIC)
  }

  function SetNative(flags: u2): u2 {
    if Has(flags, NATIVE) || flags + NATIVE > 0xFFFF then flags else flags + NATIVE
  }

  function ClearNative(flags: u2): u2 {
    if Has(flags, NATIVE) then flags - NATIVE else flags
  }

  /** The copy keeps every flag that describes its body, and has no others. */
  lemma CopyKeepsBody(flags: u2)
    ensures var copy := CopyFlags(flags);
      && Has(copy, PRIVATE) && Has(copy, FINAL)
      && (Has(copy, STATIC) <==> Has(flags, STATIC)) && (Has(copy, SYNCHRONIZED) <==> Has(flags, SYNCHRONIZED))
      && (Has(copy, BRIDGE) <==> Has(flags, BRIDGE)) && (Has(copy, VARARGS) <==> Has(flags, VARARGS))
      && (Has(copy, STRICT) <==> Has(flags, STRICT)) && (Has(copy, SYNTHETIC) <==> Has(flags, SYNTHETIC))
      && !Has(copy, NATIVE) && !Has(copy, ABSTRACT)
  {
    hide Has, CopyFlags;
    CopySum(flags);
    var s, y, b := One(flags, STATIC), One(flags, SYNCHRONIZED), One(flags, BRIDGE);
    var v, t, n := One(flags, VARARGS), One(flags, STRICT), One(flags, SYNTHETIC);
    var copy := CopyFlags(flags);
    BitAt(copy, PRIVATE, 0, 1, 4 + 2 * s + 8 * y + 16 * b + 32 * v + 512 * t + 1024 * n);
    BitAt(copy, STATIC, 2, s, 1 + 2 * y + 4 * b + 8 * v + 128 * t + 256 * n);
    BitAt(copy, FINAL, 2 + 8 * s, 1, y + 2 * b + 4 * v + 64 * t + 128 * n);
    BitAt(copy, SYNCHRONIZED, 18 + 8 * s, y, b + 2 * v + 32 * t + 64 * n);
    BitAt(copy, BRIDGE, 18 + 8 * s + 32 * y, b, v + 16 * t + 32 * n);
    BitAt(copy, VARARGS, 18 + 8 * s + 32 * y + 64 * b, v, 8 * t + 16 * n);
    BitAt(copy, NATIVE, 18 + 8 * s + 32 * y + 64 * b + 128 * v, 0, 4 * t + 8 * n);
    BitAt(copy, ABSTRACT, 18 + 8 * s + 32 * y + 64 * b + 128 * v, 0, t + 2 * n);
    BitAt(copy, STRICT, 18 + 8 * s + 32 * y + 64 * b + 128 * v, t, n);
    BitAt(copy, SYNTHETIC, 18 + 8 * s + 32 * y + 64 * b + 128 * v + 2048 * t, n, 0);
  }

  lemma CopySum(flags: u2)
    ensures CopyFlags(flags) == 18 + 8 * One(flags, STATIC) + 32 * One(flags, SYNCHRONIZED) + 64 * One(flags, BRIDGE)
                              + 128 * One(flags, VARARGS) + 2048 * One(flags, STRICT) + 4096 * One(flags, SYNTHETIC)
  {
    hide Has;
  }

  function One(flags: u2, bit: int): (r: int)
    requires bit > 0
    ensures r == 0 || r == 1
  {
    if Has(flags, bit) then 1 else 0
  }

  /** A number by what lies below, at and above one of its bits. */
  lemma BitAt(flags: u2, bit: int, low: int, x: int, high: int)
    requires bit > 0 && 0 <= low < bit && (x == 0 || x == 1) && flags == low + bit * (x + 2 * high)
    ensures Has(flags, bit) <==> x == 1
  {
    Quotient(bit, x + 2 * high, low);
  }

  lemma Quotient(d: int, q: int, r: int)
    requires 0 <= r < d
    ensures (r + d * q) / d == q
  {
    var n := r + d * q;
    assert d * (n / d) + n % d == n;
    if n / d < q {
      assert d * (n / d) <= d * (q - 1) by { Monotone(d, n / d, q - 1); }
    } else if n / d > q {
      assert d * (n / d) >= d * (q + 1) by { Monotone(d, q + 1, n / d); }
    }
  }

  lemma Monotone(d: int, a: int, b: int)
    requires d > 0 && a <= b
    ensures d * a <= d * b
  {
  }

  lemma NativeAndBack(flags: u2)
    requires !Has(flags, NATIVE)
    ensures Has(SetNative(flags), NATIVE) && ClearNative(SetNative(flags)) == flags
  {
  }

  // ----- finding -----

  /** The first method of that name and descriptor from i on, or the end. */
  function FindMethod(pool: Pool, methods: seq<MemberEntry>, name: string, descriptor: string, i: nat): (r: nat)
    requires i <= |methods|
    ensures i <= r <= |methods| && (r < |methods| ==> Is(pool, methods[r], name, descriptor))
    ensures forall k :: i <= k < r ==> !Is(pool, methods[k], name, descriptor)
    decreases |methods| - i
  {
    if i == |methods| || Is(pool, methods[i], name, descriptor) then i else FindMethod(pool, methods, name, descriptor, i + 1)
  }

  predicate Is(pool: Pool, m: MemberEntry, name: string, descriptor: string) {
    TextIs(pool, m.nameIndex, name) && TextIs(pool, m.descriptorIndex, descriptor)
  }

  predicate IsCode(pool: Pool, a: Attribute) { TextIs(pool, a.nameIndex, "Code") }

  /** The first Code attribute from i on, or the end. */
  function FindCode(pool: Pool, attributes: seq<Attribute>, i: nat): (r: nat)
    requires i <= |attributes|
    ensures i <= r <= |attributes| && (r < |attributes| ==> IsCode(pool, attributes[r]))
    ensures forall k :: i <= k < r ==> !IsCode(pool, attributes[k])
    decreases |attributes| - i
  {
    if i == |attributes| || IsCode(pool, attributes[i]) then i else FindCode(pool, attributes, i + 1)
  }

  function Without<T>(s: seq<T>, i: nat): seq<T>
    requires i < |s|
  {
    s[..i] + s[i + 1..]
  }

  // ----- the transforms -----

  datatype Methods = Methods(interface: bool, pool: Pool, methods: seq<MemberEntry>)

  datatype Transformed = Transformed(status: TransformStatus, after: Methods)

  function MakeNative(c: Methods, name: string, descriptor: string, copyName: string): Transformed {
    var index := FindMethod(c.pool, c.methods, name, descriptor, 0);
    if c.interface then Transformed(INTERFACE, c)
    else if FindMethod(c.pool, c.methods, copyName, descriptor, 0) < |c.methods| then Transformed(NAME_IN_USE, c)
    else if index == |c.methods| then Transformed(METHOD_NOT_FOUND, c)
    else
      var m := c.methods[index];
      var code := FindCode(c.pool, m.attributes, 0);
      if TextIs(c.pool, m.nameIndex, "<init>") || TextIs(c.pool, m.nameIndex, "<clinit>") then Transformed(INITIALIZER, c)
      else if Has(m.access, NATIVE) then Transformed(ALREADY_NATIVE, c)
      else if Has(m.access, ABSTRACT) then Transformed(IS_ABSTRACT, c)
      else if code == |m.attributes| then Transformed(NO_CODE, c)
      else match InternUtf8(c.pool, copyName)
           case Failure(_) => Transformed(CLASSFILE_FAILED, c)
           case Success(n) =>
             if |c.methods| == MAX_COUNT then Transformed(CLASSFILE_FAILED, c.(pool := n.pool))
             else
               var copy := m.(nameIndex := n.index, access := CopyFlags(m.access));
               var native := m.(access := SetNative(m.access), attributes := Without(m.attributes, code));
               Transformed(TRANSFORMED, Methods(c.interface, n.pool, c.methods[index := native] + [copy]))
  }

  function Restore(c: Methods, name: string, descriptor: string, copyName: string): Transformed {
    var copyIndex := FindMethod(c.pool, c.methods, copyName, descriptor, 0);
    var index := FindMethod(c.pool, c.methods, name, descriptor, 0);
    if copyIndex == |c.methods| || index == |c.methods| then Transformed(METHOD_NOT_FOUND, c)
    else
      var copy, m := c.methods[copyIndex], c.methods[index];
      var code := FindCode(c.pool, copy.attributes, 0);
      if code == |copy.attributes| then Transformed(NO_CODE, c)
      else if |m.attributes| == MAX_COUNT then Transformed(CLASSFILE_FAILED, c)
      else
        var restored := m.(access := ClearNative(m.access), attributes := m.attributes + [copy.attributes[code]]);
        Transformed(TRANSFORMED, c.(methods := Without(c.methods[index := restored], copyIndex)))
  }

  class MethodTable {
    const interface: bool
    var pool: Pool
    var methods: seq<MemberEntry>

    function View(): Methods
      reads this
    {
      Methods(interface, pool, methods)
    }

    constructor (c: Methods)
      ensures View() == c
    {
      interface, pool, methods := c.interface, c.pool, c.methods;
    }

    method Find(name: string, descriptor: string) returns (i: nat)
      ensures i == FindMethod(pool, methods, name, descriptor, 0)
    {
      i := 0;
      while i < |methods|
        invariant i <= |methods| && FindMethod(pool, methods, name, descriptor, i) == FindMethod(pool, methods, name, descriptor, 0)
      {
        if TextIs(pool, methods[i].nameIndex, name) && TextIs(pool, methods[i].descriptorIndex, descriptor) {
          return;
        }
        i := i + 1;
      }
    }

    method FindCodeOf(attributes: seq<Attribute>) returns (i: nat)
      ensures i == FindCode(pool, attributes, 0)
    {
      i := 0;
      while i < |attributes|
        invariant i <= |attributes| && FindCode(pool, attributes, i) == FindCode(pool, attributes, 0)
      {
        if TextIs(pool, attributes[i].nameIndex, "Code") {
          return;
        }
        i := i + 1;
      }
    }

    method MakeMethodNative(name: string, descriptor: string, copyName: string) returns (status: TransformStatus)
      modifies this
      ensures Transformed(status, View()) == MakeNative(old(View()), name, descriptor, copyName)
    {
      hide InternUtf8, TextIs, Has, CopyFlags, SetNative;
      if interface {
        return INTERFACE;
      }
      var taken := Find(copyName, descriptor);
      if taken < |methods| {
        return NAME_IN_USE;
      }
      var index := Find(name, descriptor);
      if index == |methods| {
        return METHOD_NOT_FOUND;
      }
      var m := methods[index];
      if TextIs(pool, m.nameIndex, "<init>") || TextIs(pool, m.nameIndex, "<clinit>") {
        return INITIALIZER;
      }
      if Has(m.access, NATIVE) {
        return ALREADY_NATIVE;
      }
      if Has(m.access, ABSTRACT) {
        return IS_ABSTRACT;
      }
      var code := FindCodeOf(m.attributes);
      if code == |m.attributes| {
        return NO_CODE;
      }
      var n := InternUtf8(pool, copyName);
      if n.Failure? {
        return CLASSFILE_FAILED;
      }
      pool := n.value.pool;
      if |methods| == MAX_COUNT {
        return CLASSFILE_FAILED;
      }
      methods := methods + [m.(nameIndex := n.value.index, access := CopyFlags(m.access))];
      var native := m.(access := SetNative(m.access), attributes := m.attributes[..code] + m.attributes[code + 1..]);
      methods := methods[index := native];
      return TRANSFORMED;
    }

    method RestoreMethod(name: string, descriptor: string, copyName: string) returns (status: TransformStatus)
      modifies this
      ensures Transformed(status, View()) == Restore(old(View()), name, descriptor, copyName)
    {
      hide TextIs, ClearNative;
      var copyIndex := Find(copyName, descriptor);
      if copyIndex == |methods| {
        return METHOD_NOT_FOUND;
      }
      var index := Find(name, descriptor);
      if index == |methods| {
        return METHOD_NOT_FOUND;
      }
      var copy := methods[copyIndex];
      var code := FindCodeOf(copy.attributes);
      if code == |copy.attributes| {
        return NO_CODE;
      }
      var m := methods[index];
      if |m.attributes| == MAX_COUNT {
        return CLASSFILE_FAILED;
      }
      methods := methods[index := m.(access := ClearNative(m.access), attributes := m.attributes + [copy.attributes[code]])];
      methods := methods[..copyIndex] + methods[copyIndex + 1..];
      return TRANSFORMED;
    }
  }

  // ----- there and back -----

  /** Every method has a name and a descriptor, every attribute a name. */
  predicate Resolved(c: Methods) {
    && PoolValid(c.pool) && |c.methods| <= MAX_COUNT
    && forall i :: 0 <= i < |c.methods| ==> MethodResolved(c.pool, c.methods[i])
  }

  predicate MethodResolved(pool: Pool, m: MemberEntry) {
    && TextAt(pool, m.nameIndex).Some? && TextAt(pool, m.descriptorIndex).Some? && |m.attributes| <= MAX_COUNT
    && forall k :: 0 <= k < |m.attributes| ==> TextAt(pool, m.attributes[k].nameIndex).Some?
  }

  lemma StillIs(pool: Pool, more: Pool, m: MemberEntry, name: string, descriptor: string)
    requires pool <= more && MethodResolved(pool, m)
    ensures Is(more, m, name, descriptor) == Is(pool, m, name, descriptor)
  {
    hide TextAt;
    TextSurvives(pool, more, m.nameIndex);
    TextSurvives(pool, more, m.descriptorIndex);
  }

  lemma StillCode(pool: Pool, more: Pool, m: MemberEntry)
    requires pool <= more && MethodResolved(pool, m)
    ensures FindCode(more, m.attributes, 0) == FindCode(pool, m.attributes, 0)
  {
    forall k | 0 <= k < |m.attributes| ensures IsCode(more, m.attributes[k]) == IsCode(pool, m.attributes[k]) {
      TextSurvives(pool, more, m.attributes[k].nameIndex);
    }
  }

  /** Found where it was, however the list was changed elsewhere. */
  lemma FoundAt(pool: Pool, methods: seq<MemberEntry>, name: string, descriptor: string, index: nat)
    requires index < |methods| && Is(pool, methods[index], name, descriptor)
    requires forall k :: 0 <= k < index ==> !Is(pool, methods[k], name, descriptor)
    ensures FindMethod(pool, methods, name, descriptor, 0) == index
  {
  }

  /** After make-native and restore the methods are the same, in the same order,
      with the same flags, names and descriptors, except that the Code attribute
      of the method has moved behind its other attributes; the pool has only
      grown. */
  lemma RestoreOfMakeNative(c: Methods, name: string, descriptor: string, copyName: string)
    requires Resolved(c) && MakeNative(c, name, descriptor, copyName).status == TRANSFORMED
    ensures var hooked := MakeNative(c, name, descriptor, copyName).after;
      var index := FindMethod(c.pool, c.methods, name, descriptor, 0); var m := c.methods[index];
      var code := FindCode(c.pool, m.attributes, 0); var back := Restore(hooked, name, descriptor, copyName);
      && back.status == TRANSFORMED && c.pool <= back.after.pool
      && back.after.methods == c.methods[index := m.(attributes := Without(m.attributes, code) + [m.attributes[code]])]
  {
    hide InternUtf8, TextAt, Has, CopyFlags, SetNative, ClearNative;
    var index := FindMethod(c.pool, c.methods, name, descriptor, 0);
    var m := c.methods[index];
    var hooked := MakeNative(c, name, descriptor, copyName).after;
    var n := InternUtf8(c.pool, copyName).value;
    InternUtf8Keeps(c.pool, copyName);
    NativeAndBack(m.access);
    HookedFinds(c, hooked, name, descriptor, copyName);
    StillCode(c.pool, n.pool, m);
    var last := |c.methods|;
    var native := hooked.methods[index];
    var code := FindCode(c.pool, m.attributes, 0);
    assert hooked.methods[last].attributes == m.attributes;
    var restored := native.(access := m.access, attributes := native.attributes + [m.attributes[code]]);
    assert Without(hooked.methods[index := restored], last) == c.methods[index := restored];
  }

  /** The copy is the last method, the original where it was. */
  lemma HookedFinds(c: Methods, hooked: Methods, name: string, descriptor: string, copyName: string)
    requires Resolved(c) && MakeNative(c, name, descriptor, copyName) == Transformed(TRANSFORMED, hooked)
    ensures FindMethod(hooked.pool, hooked.methods, copyName, descriptor, 0) == |c.methods|
    ensures FindMethod(hooked.pool, hooked.methods, name, descriptor, 0) == FindMethod(c.pool, c.methods, name, descriptor, 0)
  {
    hide InternUtf8, TextAt, Has, CopyFlags, SetNative;
    InternUtf8Keeps(c.pool, copyName);
    var index := FindMethod(c.pool, c.methods, name, descriptor, 0);
    forall k | 0 <= k < |c.methods|
      ensures Is(hooked.pool, hooked.methods[k], name, descriptor) == Is(c.pool, c.methods[k], name, descriptor)
      ensures Is(hooked.pool, hooked.methods[k], copyName, descriptor) == Is(c.pool, c.methods[k], copyName, descriptor)
    {
      StillIs(c.pool, hooked.pool, c.methods[k], name, descriptor);
      StillIs(c.pool, hooked.pool, c.methods[k], copyName, descriptor);
    }
    TextSurvives(c.pool, hooked.pool, c.methods[index].descriptorIndex);
    FoundAt(hooked.pool, hooked.methods, copyName, descriptor, |c.methods|);
    FoundAt(hooked.pool, hooked.methods, name, descriptor, index);
  }

  /** On the way, the copy carries the original attributes, its Code among them,
      and the method itself has none left but is native. */
  lemma HookedMethod(c: Methods, name: string, descriptor: string, copyName: string)
    requires MakeNative(c, name, descriptor, copyName).status == TRANSFORMED
    ensures var hooked := MakeNative(c, name, descriptor, copyName).after;
      var index := FindMethod(c.pool, c.methods, name, descriptor, 0); var m := c.methods[index];
      && |hooked.methods| == |c.methods| + 1 && hooked.methods[|c.methods|].attributes == m.attributes
      && hooked.methods[|c.methods|].access == CopyFlags(m.access) && hooked.methods[|c.methods|].descriptorIndex == m.descriptorIndex
      && Has(hooked.methods[index].access, NATIVE) && hooked.methods[index].nameIndex == m.nameIndex
      && (forall k :: 0 <= k < |c.methods| && k != index ==> hooked.methods[k] == c.methods[k])
  {
    hide InternUtf8, TextIs, CopyFlags, Has, SetNative;
    NativeAndBack(c.methods[FindMethod(c.pool, c.methods, name, descriptor, 0)].access);
  }
}
