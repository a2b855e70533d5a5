/** The class file format (sections 4.1 to 4.7 of the JVMS): what its bytes are
    and how they are read, with attributes kept as they come. */
module ClassFileCodec {
  import opened Bytes
  import opened Status
  import opened References
  import opened ConstantPool

  const MAGIC: u4 := 0xCAFE_BABE
  const MIN_VERSION := 45

  datatype MemberEntry = MemberEntry(access: u2, nameIndex: u2, descriptorIndex: u2, attributes: seq<Attribute>)

  datatype ClassFile = ClassFile(
    minor: u2,
    major: u2,
    pool: Pool,
    access: u2,
    thisClass: u2,
    superClass: u2,
    interfaces: seq<u2>,
    fields: seq<MemberEntry>,
    methods: seq<MemberEntry>,
    attributes: seq<Attribute>)

  // ----- text -----

  predicate ByteText(text: string) {
    forall i :: 0 <= i < |text| ==> text[i] < 256 as char
  }

  function TextBytes(text: string): (r: seq<u1>)
    requires ByteText(text)
    ensures |r| == |text|
  {
    seq(|text|, i requires 0 <= i < |text| => text[i] as int)
  }

  function BytesText(bytes: seq<u1>): (r: string)
    ensures |r| == |bytes| && ByteText(r) && TextBytes(r) == bytes
  {
    var r := seq(|bytes|, i requires 0 <= i < |bytes| => bytes[i] as char);
    assert TextBytes(r) == bytes;
    r
  }

  // ----- pool entries -----

  /** An entry with a tag its shape allows. */
  predicate EntryValid(c: Constant) {
    match c
    case Unusable => true
    case Utf8(text) => ByteText(text) && |text| < 0x1_0000
    case Number(tag, bytes) => (tag == 3 || tag == 4) && |bytes| == 4
    case WideNumber(tag, bytes) => (tag == 5 || tag == 6) && |bytes| == 8
    case Named(tag, _) => tag == 7 || tag == 19 || tag == 20
    case Ref(tag, _, _) => 9 <= tag <= 11
    case DynamicRef(tag, _, _) => tag == 17 || tag == 18
    case _ => true
  }

  function EntryBytes(c: Constant): seq<u1>
    requires EntryValid(c)
  {
    match c
    case Unusable => []
    case Utf8(text) => [1] + U2Bytes(|text|) + TextBytes(text)
    case Number(tag, bytes) => [tag] + bytes
    case WideNumber(tag, bytes) => [tag] + bytes
    case Named(tag, name) => [tag] + U2Bytes(name)
    case StringOf(index) => [8] + U2Bytes(index)
    case Ref(tag, owner, member) => [tag] + U2Bytes(owner) + U2Bytes(member)
    case NameAndType(name, descriptor) => [12] + U2Bytes(name) + U2Bytes(descriptor)
    case MethodHandle(kind, index) => [15] + [kind] + U2Bytes(index)
    case MethodTypeOf(descriptor) => [16] + U2Bytes(descriptor)
    case DynamicRef(tag, bootstrap, member) => [tag] + U2Bytes(bootstrap) + U2Bytes(member)
  }

  predicate PoolWritable(pool: Pool) {
    forall i :: 0 <= i < |pool| ==> EntryValid(pool[i])
  }

  /** Entries i and up; an empty slot leaves no bytes. */
  function PoolBytes(pool: Pool, i: nat): seq<u1>
    requires PoolWritable(pool)
    decreases |pool| - i
  {
    if i >= |pool| then [] else EntryBytes(pool[i]) + PoolBytes(pool, i + 1)
  }

  /** The two indices of an entry that has two. */
  function ReadPair(c: Cursor): (r: Read<(u2, u2)>)
    requires c.Valid()
    ensures r.rest.Valid() && r.rest.data == c.data && (r.rest.ok ==> c.ok)
  {
    var a := ReadU2(c);
    var b := ReadU2(a.rest);
    Read((a.value, b.value), b.rest)
  }

  function ReadEntry(c: Cursor): (r: Result<Read<Constant>>)
    requires c.Valid()
    ensures r.Success? ==> r.value.rest.Valid() && r.value.rest.data == c.data && r.value.rest.ok && c.ok
    ensures r.Success? ==> EntryValid(r.value.value) && !r.value.value.Unusable?
  {
    var tag := ReadU1(c);
    var t := tag.value;
    if t == 1 then
      var length := ReadU2(tag.rest);
      var text := ReadBytes(length.rest, length.value);
      Finished(Utf8(BytesText(text.value)), text.rest)
    else if t == 3 || t == 4 then
      var bytes := ReadBytes(tag.rest, 4);
      if bytes.rest.ok then Finished(Number(t, bytes.value), bytes.rest) else Failure(TRUNCATED)
    else if t == 5 || t == 6 then
      var bytes := ReadBytes(tag.rest, 8);
      if bytes.rest.ok then Finished(WideNumber(t, bytes.value), bytes.rest) else Failure(TRUNCATED)
    else if t == 7 || t == 19 || t == 20 then var i := ReadU2(tag.rest); Finished(Named(t, i.value), i.rest)
    else if t == 8 then var i := ReadU2(tag.rest); Finished(StringOf(i.value), i.rest)
    else if 9 <= t <= 11 then var p := ReadPair(tag.rest); Finished(Ref(t, p.value.0, p.value.1), p.rest)
    else if t == 12 then var p := ReadPair(tag.rest); Finished(NameAndType(p.value.0, p.value.1), p.rest)
    else if t == 15 then
      var kind := ReadU1(tag.rest);
      var i := ReadU2(kind.rest);
      Finished(MethodHandle(kind.value, i.value), i.rest)
    else if t == 16 then var i := ReadU2(tag.rest); Finished(MethodTypeOf(i.value), i.rest)
    else if t == 17 || t == 18 then var p := ReadPair(tag.rest); Finished(DynamicRef(t, p.value.0, p.value.1), p.rest)
    else Failure(if tag.rest.ok then CONSTANT_TAG else TRUNCATED)
  }

  function Finished(c: Constant, rest: Cursor): Result<Read<Constant>> {
    if rest.ok then Success(Read(c, rest)) else Failure(TRUNCATED)
  }

  /** Entries until the pool has count of them. A Long or a Double takes the slot
      behind it as well, which therefore has to exist. */
  function ReadEntries(c: Cursor, pool: Pool, count: nat): (r: Result<Read<Pool>>)
    requires c.Valid() && c.ok && |pool| <= count
    ensures r.Success? ==> r.value.rest.Valid() && r.value.rest.data == c.data && r.value.rest.ok && |r.value.value| == count
    decreases count - |pool|
  {
    if |pool| == count then Success(Read(pool, c))
    else
      var entry :- ReadEntry(c);
      if !entry.value.WideNumber? then ReadEntries(entry.rest, pool + [entry.value], count)
      else if |pool| + 1 >= count then Failure(CONSTANT_INDEX)
      else ReadEntries(entry.rest, pool + [entry.value, Unusable], count)
  }

  function ReadPool(c: Cursor): (r: Result<Read<Pool>>)
    requires c.Valid()
    ensures r.Success? ==> r.value.rest.Valid() && r.value.rest.data == c.data && r.value.rest.ok
  {
    var count := ReadU2(c);
    if !count.rest.ok then Failure(TRUNCATED)
    else if count.value < 1 then Failure(CONSTANT_INDEX)
    else ReadEntries(count.rest, [Unusable], count.value)
  }

  // ----- attributes, members, interfaces -----

  predicate AttributeWritable(a: Attribute) {
    |a.info| < 0x1_0000_0000
  }

  function AttributeBytes(a: Attribute): seq<u1>
    requires AttributeWritable(a)
  {
    U2Bytes(a.nameIndex) + U4Bytes(|a.info|) + a.info
  }

  predicate AttributesWritable(s: seq<Attribute>) {
    forall i :: 0 <= i < |s| ==> AttributeWritable(s[i])
  }

  function AttributeRunBytes(s: seq<Attribute>): seq<u1>
    requires AttributesWritable(s)
    decreases |s|
  {
    if s == [] then [] else AttributeRunBytes(s[..|s| - 1]) + AttributeBytes(s[|s| - 1])
  }

  function AttributesBytes(s: seq<Attribute>): seq<u1>
    requires AttributesWritable(s) && |s| < 0x1_0000
  {
    U2Bytes(|s|) + AttributeRunBytes(s)
  }

  function ReadAttribute(c: Cursor): (r: Result<Read<Attribute>>)
    requires c.Valid()
    ensures r.Success? ==> r.value.rest.Valid() && r.value.rest.data == c.data && r.value.rest.ok
    ensures r.Success? ==> AttributeWritable(r.value.value)
  {
    var name := ReadU2(c);
    var length := ReadU4(name.rest);
    var info := ReadBytes(length.rest, length.value);
    if info.rest.ok then Success(Read(Attribute(name.value, info.value), info.rest)) else Failure(TRUNCATED)
  }

  function ReadAttributeRun(c: Cursor, n: nat): (r: Result<Read<seq<Attribute>>>)
    requires c.Valid() && c.ok
    ensures r.Success? ==> r.value.rest.Valid() && r.value.rest.data == c.data && r.value.rest.ok
    ensures r.Success? ==> |r.value.value| == n && AttributesWritable(r.value.value)
    decreases n
  {
    if n == 0 then Success(Read([], c))
    else
      var front :- ReadAttributeRun(c, n - 1);
      var last :- ReadAttribute(front.rest);
      Success(Read(front.value + [last.value], last.rest))
  }

  function ReadAttributes(c: Cursor): (r: Result<Read<seq<Attribute>>>)
    requires c.Valid()
    ensures r.Success? ==> r.value.rest.Valid() && r.value.rest.data == c.data && r.value.rest.ok
    ensures r.Success? ==> |r.value.value| < 0x1_0000 && AttributesWritable(r.value.value)
  {
    var count := ReadU2(c);
    if count.rest.ok then ReadAttributeRun(count.rest, count.value) else Failure(TRUNCATED)
  }

  predicate MemberWritable(m: MemberEntry) {
    |m.attributes| < 0x1_0000 && AttributesWritable(m.attributes)
  }

  function MemberBytes(m: MemberEntry): seq<u1>
    requires MemberWritable(m)
  {
    U2Bytes(m.access) + U2Bytes(m.nameIndex) + U2Bytes(m.descriptorIndex) + AttributesBytes(m.attributes)
  }

  predicate MembersWritable(s: seq<MemberEntry>) {
    forall i :: 0 <= i < |s| ==> MemberWritable(s[i])
  }

  function MemberRunBytes(s: seq<MemberEntry>): seq<u1>
    requires MembersWritable(s)
    decreases |s|
  {
    if s == [] then [] else MemberRunBytes(s[..|s| - 1]) + MemberBytes(s[|s| - 1])
  }

  function MembersBytes(s: seq<MemberEntry>): seq<u1>
    requires MembersWritable(s) && |s| < 0x1_0000
  {
    U2Bytes(|s|) + MemberRunBytes(s)
  }

  function ReadMember(c: Cursor): (r: Result<Read<MemberEntry>>)
    requires c.Valid()
    ensures r.Success? ==> r.value.rest.Valid() && r.value.rest.data == c.data && r.value.rest.ok
    ensures r.Success? ==> MemberWritable(r.value.value)
  {
    var access := ReadU2(c);
    var names := ReadPair(access.rest);
    if !names.rest.ok then Failure(TRUNCATED)
    else
      var attributes :- ReadAttributes(names.rest);
      Success(Read(MemberEntry(access.value, names.value.0, names.value.1, attributes.value), attributes.rest))
  }

  function ReadMemberRun(c: Cursor, n: nat): (r: Result<Read<seq<MemberEntry>>>)
    requires c.Valid() && c.ok
    ensures r.Success? ==> r.value.rest.Valid() && r.value.rest.data == c.data && r.value.rest.ok
    ensures r.Success? ==> |r.value.value| == n && MembersWritable(r.value.value)
    decreases n
  {
    if n == 0 then Success(Read([], c))
    else
      var front :- ReadMemberRun(c, n - 1);
      var last :- ReadMember(front.rest);
      Success(Read(front.value + [last.value], last.rest))
  }

  function ReadMembers(c: Cursor): (r: Result<Read<seq<MemberEntry>>>)
    requires c.Valid()
    ensures r.Success? ==> r.value.rest.Valid() && r.value.rest.data == c.data && r.value.rest.ok
    ensures r.Success? ==> |r.value.value| < 0x1_0000 && MembersWritable(r.value.value)
  {
    var count := ReadU2(c);
    if count.rest.ok then ReadMemberRun(count.rest, count.value) else Failure(TRUNCATED)
  }

  function IndexBytes(s: seq<u2>): seq<u1>
    decreases |s|
  {
    if s == [] then [] else IndexBytes(s[..|s| - 1]) + U2Bytes(s[|s| - 1])
  }

  function ReadIndices(c: Cursor, n: nat): (r: Read<seq<u2>>)
    requires c.Valid()
    ensures r.rest.Valid() && r.rest.data == c.data && (r.rest.ok ==> c.ok) && |r.value| == n
    decreases n
  {
    if n == 0 then Read([], c)
    else
      var front := ReadIndices(c, n - 1);
      var last := ReadU2(front.rest);
      Read(front.value + [last.value], last.rest)
  }

  function ReadInterfaces(c: Cursor): (r: Result<Read<seq<u2>>>)
    requires c.Valid()
    ensures r.Success? ==> r.value.rest.Valid() && r.value.rest.data == c.data && r.value.rest.ok && |r.value.value| < 0x1_0000
  {
    var count := ReadU2(c);
    var all := ReadIndices(count.rest, count.value);
    if count.rest.ok && all.rest.ok then Success(all) else Failure(TRUNCATED)
  }

  // ----- the whole file -----

  predicate Writable(f: ClassFile) {
    && 1 <= |f.pool| < 0x1_0000 && PoolWritable(f.pool)
    && |f.interfaces| < 0x1_0000
    && |f.fields| < 0x1_0000 && MembersWritable(f.fields)
    && |f.methods| < 0x1_0000 && MembersWritable(f.methods)
    && |f.attributes| < 0x1_0000 && AttributesWritable(f.attributes)
  }

  function HeadBytes(f: ClassFile): seq<u1>
    requires Writable(f)
  {
    U4Bytes(MAGIC) + (U2Bytes(f.minor) + (U2Bytes(f.major) + (U2Bytes(|f.pool|) + PoolBytes(f.pool, 1))))
  }

  function TailBytes(f: ClassFile): seq<u1>
    requires Writable(f)
  {
    (U2Bytes(f.access) + (U2Bytes(f.thisClass) + U2Bytes(f.superClass)))
    + ((U2Bytes(|f.interfaces|) + IndexBytes(f.interfaces))
       + (MembersBytes(f.fields) + (MembersBytes(f.methods) + AttributesBytes(f.attributes))))
  }

  function Serialize(f: ClassFile): seq<u1>
    requires Writable(f)
  {
    HeadBytes(f) + TailBytes(f)
  }

  datatype Header = Header(minor: u2, major: u2, pool: Pool)

  function ReadHead(c: Cursor): (r: Result<Read<Header>>)
    requires c.Valid()
    ensures r.Success? ==> r.value.rest.Valid() && r.value.rest.data == c.data && r.value.rest.ok
  {
    var magic := ReadU4(c);
    if magic.value != MAGIC then Failure(if magic.rest.ok then Status.MAGIC else TRUNCATED)
    else
      var version := ReadPair(magic.rest);
      if !version.rest.ok then Failure(TRUNCATED)
      else if version.value.1 < MIN_VERSION then Failure(VERSION)
      else
        var pool :- ReadPool(version.rest);
        Success(Read(Header(version.value.0, version.value.1, pool.value), pool.rest))
  }

  function Parse(data: seq<u1>): Result<ClassFile> {
    var head :- ReadHead(Cursor(data, 0, true));
    var access := ReadU2(head.rest);
    var names := ReadPair(access.rest);
    if !names.rest.ok then Failure(TRUNCATED)
    else
      var interfaces :- ReadInterfaces(names.rest);
      var fields :- ReadMembers(interfaces.rest);
      var methods :- ReadMembers(fields.rest);
      var attributes :- ReadAttributes(methods.rest);
      if !attributes.rest.Exhausted() then Failure(TRAILING_BYTES)
      else Success(ClassFile(head.value.minor, head.value.major, head.value.pool, access.value, names.value.0, names.value.1,
                             interfaces.value, fields.value, methods.value, attributes.value))
  }
}
