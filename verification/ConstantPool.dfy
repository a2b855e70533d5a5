/** The constant pool (section 4.4 of the JVMS). Index 0 and the slot behind a
    Long or a Double hold nothing. */
module ConstantPool {
  import opened Bytes
  import opened Status

  const CLASS: u1 := 7
  const MODULE: u1 := 19
  const PACKAGE: u1 := 20
  const FIELDREF: u1 := 9
  const METHODREF: u1 := 10
  const INTERFACE_METHODREF: u1 := 11
  const DYNAMIC: u1 := 17
  const INVOKE_DYNAMIC: u1 := 18

  /** Text is kept as the bytes of the entry, one char per byte. */
  datatype Constant =
    | Unusable
    | Utf8(text: string)
    | Number(tag: u1, bytes: seq<u1>)            // Integer, Float
    | WideNumber(tag: u1, bytes: seq<u1>)        // Long, Double
    | Named(tag: u1, nameIndex: u2)              // Class, Module, Package
    | StringOf(stringIndex: u2)
    | Ref(tag: u1, classIndex: u2, natIndex: u2) // Field-, Method-, InterfaceMethodref
    | NameAndType(nameIndex: u2, descriptorIndex: u2)
    | MethodHandle(kind: u1, referenceIndex: u2)
    | MethodTypeOf(descriptorIndex: u2)
    | DynamicRef(tag: u1, bootstrap: u2, natIndex: u2) // Dynamic, InvokeDynamic

  type Pool = seq<Constant>

  /** The entry at an index, if the index names a usable one. */
  function At(pool: Pool, index: int): Option<Constant> {
    if index <= 0 || index >= |pool| || pool[index].Unusable? then None else Some(pool[index])
  }

  function TextAt(pool: Pool, index: int): Option<string> {
    match At(pool, index)
    case Some(Utf8(text)) => Some(text)
    case _ => None
  }

  predicate TextIs(pool: Pool, index: int, text: string) {
    TextAt(pool, index) == Some(text)
  }

  /** A longer pool that keeps every entry keeps every answer. */
  lemma PrefixKeepsAt(pool: Pool, more: Pool, index: int)
    requires pool <= more && At(pool, index).Some?
    ensures At(more, index) == At(pool, index)
  {
  }

  // ----- appending and interning -----

  function SlotsOf(c: Constant): nat {
    if c.WideNumber? then 2 else 1
  }

  datatype Interned = Interned(pool: Pool, index: u2)

  /** A Long or a Double also claims the slot behind it. */
  function Append(pool: Pool, c: Constant): Result<Interned> {
    var base := if |pool| < 1 then [Unusable] else pool;
    if |base| + SlotsOf(c) > MAX_COUNT then Failure(LIMIT_EXCEEDED)
    else Success(Interned(base + [c] + (if c.WideNumber? then [Unusable] else []), |base|))
  }

  /** The first entry from i on equal to c, or the end. */
  function FirstEqual(pool: Pool, c: Constant, i: nat): (r: nat)
    requires i <= |pool|
    ensures i <= r <= |pool| && (r < |pool| ==> pool[r] == c)
    ensures forall k :: i <= k < r ==> pool[k] != c
    decreases |pool| - i
  {
    if i == |pool| || pool[i] == c then i else FirstEqual(pool, c, i + 1)
  }

  /** Reuses an identical entry, or appends one. */
  function Intern(pool: Pool, c: Constant): Result<Interned>
    requires !c.Unusable?
  {
    var found := if |pool| <= 1 then |pool| else FirstEqual(pool, c, 1);
    if found < |pool| && found < 0x1_0000 then Success(Interned(pool, found)) else Append(pool, c)
  }

  function InternUtf8(pool: Pool, text: string): Result<Interned> {
    if |text| > MAX_COUNT then Failure(LIMIT_EXCEEDED) else Intern(pool, Utf8(text))
  }

  function InternClass(pool: Pool, name: string): Result<Interned> {
    var n :- InternUtf8(pool, name);
    Intern(n.pool, Named(CLASS, n.index))
  }

  function InternNameAndType(pool: Pool, name: string, descriptor: string): Result<Interned> {
    var n :- InternUtf8(pool, name);
    var d :- InternUtf8(n.pool, descriptor);
    Intern(d.pool, NameAndType(n.index, d.index))
  }

  function InternMethodref(pool: Pool, classIndex: u2, name: string, descriptor: string): Result<Interned> {
    var member :- InternNameAndType(pool, name, descriptor);
    Intern(member.pool, Ref(METHODREF, classIndex, member.index))
  }

  /** A pool as the parser leaves it: headed by an unusable entry and countable. */
  predicate PoolValid(pool: Pool) {
    1 <= |pool| <= MAX_COUNT && pool[0] == Unusable
  }

  /** Interning never changes an entry, and its index answers with the entry. */
  lemma InternKeeps(pool: Pool, c: Constant)
    requires PoolValid(pool) && !c.Unusable? && Intern(pool, c).Success?
    ensures var r := Intern(pool, c).value;
      && pool <= r.pool && PoolValid(r.pool)
      && At(r.pool, r.index) == Some(c)
      && forall i :: |pool| <= i < |r.pool| ==> r.pool[i] == c || r.pool[i] == Unusable
  {
  }

  lemma InternUtf8Keeps(pool: Pool, text: string)
    requires PoolValid(pool) && InternUtf8(pool, text).Success?
    ensures var r := InternUtf8(pool, text).value;
      && pool <= r.pool && PoolValid(r.pool) && TextAt(r.pool, r.index) == Some(text)
      && forall i :: |pool| <= i < |r.pool| ==> r.pool[i] == Utf8(text)
  {
    InternKeeps(pool, Utf8(text));
  }

  /** The name of a class entry. */
  function ClassName(pool: Pool, index: int): Option<string> {
    match At(pool, index)
    case Some(Named(tag, nameIndex)) => if tag == CLASS then TextAt(pool, nameIndex) else None
    case _ => None
  }

  datatype Member = Member(name: string, descriptor: string)

  /** The name and descriptor of a NameAndType entry. */
  function MemberAt(pool: Pool, index: int): Option<Member> {
    match At(pool, index)
    case Some(NameAndType(n, d)) =>
      (match (TextAt(pool, n), TextAt(pool, d))
       case (Some(name), Some(descriptor)) => Some(Member(name, descriptor))
       case _ => None)
    case _ => None
  }

  lemma TextSurvives(pool: Pool, more: Pool, index: int)
    requires pool <= more && TextAt(pool, index).Some?
    ensures TextAt(more, index) == TextAt(pool, index)
  {
    PrefixKeepsAt(pool, more, index);
  }

  lemma InternClassKeeps(pool: Pool, name: string)
    requires PoolValid(pool) && InternClass(pool, name).Success?
    ensures var r := InternClass(pool, name).value;
      && pool <= r.pool && PoolValid(r.pool) && ClassName(r.pool, r.index) == Some(name)
      && forall i :: |pool| <= i < |r.pool| ==> r.pool[i].Utf8? || (r.pool[i].Named? && r.pool[i].tag == CLASS) || r.pool[i].Unusable?
  {
    hide Intern;
    var n := InternUtf8(pool, name).value;
    InternUtf8Keeps(pool, name);
    InternKeeps(n.pool, Named(CLASS, n.index));
    TextSurvives(n.pool, InternClass(pool, name).value.pool, n.index);
  }

  lemma InternNameAndTypeKeeps(pool: Pool, name: string, descriptor: string)
    requires PoolValid(pool) && InternNameAndType(pool, name, descriptor).Success?
    ensures var r := InternNameAndType(pool, name, descriptor).value;
      && pool <= r.pool && PoolValid(r.pool) && MemberAt(r.pool, r.index) == Some(Member(name, descriptor))
      && forall i :: |pool| <= i < |r.pool| ==> r.pool[i].Utf8? || r.pool[i].NameAndType? || r.pool[i].Unusable?
  {
    hide Intern;
    var n := InternUtf8(pool, name).value;
    InternUtf8Keeps(pool, name);
    var d := InternUtf8(n.pool, descriptor).value;
    InternUtf8Keeps(n.pool, descriptor);
    InternKeeps(d.pool, NameAndType(n.index, d.index));
    var r := InternNameAndType(pool, name, descriptor).value;
    TextSurvives(n.pool, d.pool, n.index);
    TextSurvives(d.pool, r.pool, n.index);
    TextSurvives(d.pool, r.pool, d.index);
  }
}
