/** The class file parser and writer as they run: one cursor over the input, one
    buffer for the output. */
module ClassFileStreams {
  import opened Bytes
  import opened Status
  import opened References
  import opened ConstantPool
  import opened ClassFileCodec

  // ----- parsing -----

  method ParseEntry(c: ByteCursor) returns (r: Result<Constant>)
    requires c.Valid()
    modifies c
    ensures c.Valid()
    ensures var spec := ReadEntry(old(c.View()));
      if r.Success? then spec == Success(Read(r.value, c.View())) else spec == Failure(r.status)
  {
    hide ReadU1, ReadU2, ReadBytes, BytesText;
    var tag := c.U1();
    var entry := Unusable;
    if tag == 1 {
      var length := c.U2();
      var text := c.Bytes(length);
      entry := Utf8(BytesText(text));
    } else if tag == 3 || tag == 4 {
      var bytes := c.Bytes(4);
      entry := Number(tag, bytes);
    } else if tag == 5 || tag == 6 {
      var bytes := c.Bytes(8);
      entry := WideNumber(tag, bytes);
    } else if tag == 7 || tag == 19 || tag == 20 {
      var index := c.U2();
      entry := Named(tag, index);
    } else if tag == 8 {
      var index := c.U2();
      entry := StringOf(index);
    } else if 9 <= tag <= 11 {
      var a := c.U2();
      var b := c.U2();
      entry := Ref(tag, a, b);
    } else if tag == 12 {
      var a := c.U2();
      var b := c.U2();
      entry := NameAndType(a, b);
    } else if tag == 15 {
      var kind := c.U1();
      var index := c.U2();
      entry := MethodHandle(kind, index);
    } else if tag == 16 {
      var index := c.U2();
      entry := MethodTypeOf(index);
    } else if tag == 17 || tag == 18 {
      var a := c.U2();
      var b := c.U2();
      entry := DynamicRef(tag, a, b);
    } else {
      return Failure(if c.ok then CONSTANT_TAG else TRUNCATED);
    }
    if !c.ok {
      return Failure(TRUNCATED);
    }
    return Success(entry);
  }

  method ParsePool(c: ByteCursor) returns (r: Result<Pool>)
    requires c.Valid()
    modifies c
    ensures c.Valid()
    ensures var spec := ReadPool(old(c.View()));
      if r.Success? then spec == Success(Read(r.value, c.View())) else spec == Failure(r.status)
  {
    hide ReadEntry, ReadU2;
    var count := c.U2();
    if !c.ok {
      return Failure(TRUNCATED);
    }
    if count < 1 {
      return Failure(CONSTANT_INDEX);
    }
    var pool := [Unusable];
    ghost var start := c.View();
    while |pool| < count
      invariant c.Valid() && c.ok && |pool| <= count
      invariant ReadEntries(c.View(), pool, count) == ReadEntries(start, [Unusable], count)
      decreases count - |pool|
    {
      var entry := ParseEntry(c);
      if entry.Failure? {
        return Failure(entry.status);
      }
      if entry.value.WideNumber? {
        if |pool| + 1 >= count {
          return Failure(CONSTANT_INDEX);
        }
        pool := pool + [entry.value, Unusable];
      } else {
        pool := pool + [entry.value];
      }
    }
    return Success(pool);
  }

  method ParseAttributes(c: ByteCursor) returns (r: Result<seq<Attribute>>)
    requires c.Valid()
    modifies c
    ensures c.Valid()
    ensures var spec := ReadAttributes(old(c.View()));
      if r.Success? then spec == Success(Read(r.value, c.View())) else spec == Failure(r.status)
  {
    hide ReadU2, ReadU4, ReadBytes;
    var count := c.U2();
    if !c.ok {
      return Failure(TRUNCATED);
    }
    var list: seq<Attribute> := [];
    ghost var start := c.View();
    for i := 0 to count
      invariant c.Valid() && c.ok && ReadAttributeRun(start, i) == Success(Read(list, c.View()))
    {
      var name := c.U2();
      var length := c.U4();
      var info := c.Bytes(length);
      if !c.ok {
        AttributesStayRefused(start, i + 1, count);
        return Failure(TRUNCATED);
      }
      list := list + [Attribute(name, info)];
    }
    return Success(list);
  }

  lemma {:induction false} AttributesStayRefused(c: Cursor, i: nat, n: nat)
    requires c.Valid() && c.ok && i <= n && ReadAttributeRun(c, i).Failure?
    ensures ReadAttributeRun(c, n) == Failure(ReadAttributeRun(c, i).status)
    decreases n
  {
    hide ReadAttribute;
    if i < n {
      AttributesStayRefused(c, i, n - 1);
    }
  }

  method ParseMember(c: ByteCursor) returns (r: Result<MemberEntry>)
    requires c.Valid()
    modifies c
    ensures c.Valid()
    ensures var spec := ReadMember(old(c.View()));
      if r.Success? then spec == Success(Read(r.value, c.View())) else spec == Failure(r.status)
  {
    hide ReadU2, ReadAttributes;
    var access := c.U2();
    var name := c.U2();
    var descriptor := c.U2();
    if !c.ok {
      return Failure(TRUNCATED);
    }
    var attributes := ParseAttributes(c);
    if attributes.Failure? {
      return Failure(attributes.status);
    }
    return Success(MemberEntry(access, name, descriptor, attributes.value));
  }

  method ParseMembers(c: ByteCursor) returns (r: Result<seq<MemberEntry>>)
    requires c.Valid()
    modifies c
    ensures c.Valid()
    ensures var spec := ReadMembers(old(c.View()));
      if r.Success? then spec == Success(Read(r.value, c.View())) else spec == Failure(r.status)
  {
    hide ReadU2, ReadMember;
    var count := c.U2();
    if !c.ok {
      return Failure(TRUNCATED);
    }
    var list: seq<MemberEntry> := [];
    ghost var start := c.View();
    for i := 0 to count
      invariant c.Valid() && c.ok && ReadMemberRun(start, i) == Success(Read(list, c.View()))
    {
      var entry := ParseMember(c);
      if entry.Failure? {
        MembersStayRefused(start, i + 1, count);
        return Failure(entry.status);
      }
      list := list + [entry.value];
    }
    return Success(list);
  }

  lemma {:induction false} MembersStayRefused(c: Cursor, i: nat, n: nat)
    requires c.Valid() && c.ok && i <= n && ReadMemberRun(c, i).Failure?
    ensures ReadMemberRun(c, n) == Failure(ReadMemberRun(c, i).status)
    decreases n
  {
    hide ReadMember;
    if i < n {
      MembersStayRefused(c, i, n - 1);
    }
  }

  method ParseInterfaces(c: ByteCursor) returns (r: Result<seq<u2>>)
    requires c.Valid()
    modifies c
    ensures c.Valid()
    ensures var spec := ReadInterfaces(old(c.View()));
      if r.Success? then spec == Success(Read(r.value, c.View())) else spec == Failure(r.status)
  {
    hide ReadU2;
    var count := c.U2();
    if !c.ok {
      return Failure(TRUNCATED);
    }
    var list: seq<u2> := [];
    ghost var start := c.View();
    for i := 0 to count
      invariant c.Valid() && ReadIndices(start, i) == Read(list, c.View())
    {
      var index := c.U2();
      list := list + [index];
    }
    if !c.ok {
      return Failure(TRUNCATED);
    }
    return Success(list);
  }

  method ParseHead(c: ByteCursor) returns (r: Result<Header>)
    requires c.Valid()
    modifies c
    ensures c.Valid()
    ensures var spec := ReadHead(old(c.View()));
      if r.Success? then spec == Success(Read(r.value, c.View())) else spec == Failure(r.status)
  {
    hide ReadU2, ReadU4, ReadPool;
    var magic := c.U4();
    if magic != ClassFileCodec.MAGIC {
      return Failure(if c.ok then Status.MAGIC else TRUNCATED);
    }
    var minor := c.U2();
    var major := c.U2();
    if !c.ok {
      return Failure(TRUNCATED);
    }
    if major < MIN_VERSION {
      return Failure(VERSION);
    }
    var pool := ParsePool(c);
    if pool.Failure? {
      return Failure(pool.status);
    }
    return Success(Header(minor, major, pool.value));
  }

  method ParseClassFile(data: seq<u1>) returns (r: Result<ClassFile>)
    ensures r == Parse(data)
  {
    hide ReadHead, ReadU2, ReadInterfaces, ReadMembers, ReadAttributes;
    var c := new ByteCursor(data);
    var head := ParseHead(c);
    if head.Failure? {
      return Failure(head.status);
    }
    var access := c.U2();
    var thisClass := c.U2();
    var superClass := c.U2();
    if !c.ok {
      return Failure(TRUNCATED);
    }
    var interfaces := ParseInterfaces(c);
    if interfaces.Failure? {
      return Failure(interfaces.status);
    }
    var fields := ParseMembers(c);
    if fields.Failure? {
      return Failure(fields.status);
    }
    var methods := ParseMembers(c);
    if methods.Failure? {
      return Failure(methods.status);
    }
    var attributes := ParseAttributes(c);
    if attributes.Failure? {
      return Failure(attributes.status);
    }
    if c.pos != |data| {
      return Failure(TRAILING_BYTES);
    }
    return Success(ClassFile(head.value.minor, head.value.major, head.value.pool, access, thisClass, superClass,
                             interfaces.value, fields.value, methods.value, attributes.value));
  }

  // ----- writing -----

  method WriteIndex(b: ByteBuffer, tag: u1, index: u2)
    modifies b
    ensures b.data == old(b.data) + ([tag] + U2Bytes(index))
  {
    hide U2Bytes;
    b.U1(tag);
    b.U2(index);
  }

  method WritePair(b: ByteBuffer, tag: u1, first: u2, second: u2)
    modifies b
    ensures b.data == old(b.data) + ([tag] + U2Bytes(first) + U2Bytes(second))
  {
    hide U2Bytes;
    b.U1(tag);
    b.U2(first);
    b.U2(second);
  }

  method WriteNumber(b: ByteBuffer, tag: u1, bytes: seq<u1>)
    modifies b
    ensures b.data == old(b.data) + ([tag] + bytes)
  {
    b.U1(tag);
    b.Bytes(bytes);
  }

  method WriteText(b: ByteBuffer, text: string)
    requires ByteText(text) && |text| < 0x1_0000
    modifies b
    ensures b.data == old(b.data) + ([1] + U2Bytes(|text|) + TextBytes(text))
  {
    hide U2Bytes, TextBytes, ByteText;
    b.U1(1);
    b.U2(|text|);
    b.Bytes(TextBytes(text));
  }

  method WriteHandle(b: ByteBuffer, kind: u1, index: u2)
    modifies b
    ensures b.data == old(b.data) + ([15] + [kind] + U2Bytes(index))
  {
    hide U2Bytes;
    b.U1(15);
    b.U1(kind);
    b.U2(index);
  }

  method WriteEntry(b: ByteBuffer, entry: Constant)
    requires EntryValid(entry) && !entry.Unusable?
    modifies b
    ensures b.data == old(b.data) + EntryBytes(entry)
  {
    hide U2Bytes, ByteText, TextBytes;
    match entry
    case Utf8(text) => WriteText(b, text);
    case Number(tag, bytes) => WriteNumber(b, tag, bytes);
    case WideNumber(tag, bytes) => WriteNumber(b, tag, bytes);
    case Named(tag, index) => WriteIndex(b, tag, index);
    case StringOf(index) => WriteIndex(b, 8, index);
    case Ref(tag, owner, member) => WritePair(b, tag, owner, member);
    case NameAndType(name, descriptor) => WritePair(b, 12, name, descriptor);
    case MethodHandle(kind, index) => WriteHandle(b, kind, index);
    case MethodTypeOf(descriptor) => WriteIndex(b, 16, descriptor);
    case DynamicRef(tag, bootstrap, member) => WritePair(b, tag, bootstrap, member);
  }

  method WritePool(b: ByteBuffer, pool: Pool)
    requires 1 <= |pool| < 0x1_0000 && PoolWritable(pool)
    modifies b
    ensures b.data == old(b.data) + (U2Bytes(|pool|) + PoolBytes(pool, 1))
  {
    hide EntryBytes, U2Bytes, EntryValid;
    NoBytes();
    b.U2(|pool|);
    ghost var head := b.data;
    for i := 1 to |pool|
      invariant b.data + PoolBytes(pool, i) == head + PoolBytes(pool, 1)
    {
      if !pool[i].Unusable? {
        WriteEntry(b, pool[i]);
      }
    }
    assert PoolBytes(pool, |pool|) == [];
    assert b.data + [] == b.data && head == old(b.data) + U2Bytes(|pool|);
  }

  lemma NoBytes()
    ensures EntryValid(Unusable) && EntryBytes(Unusable) == []
  {
  }

  method WriteAttributes(b: ByteBuffer, s: seq<Attribute>)
    requires AttributesWritable(s) && |s| < 0x1_0000
    modifies b
    ensures b.data == old(b.data) + AttributesBytes(s)
  {
    hide U2Bytes, U4Bytes;
    b.U2(|s|);
    ghost var head := b.data;
    for i := 0 to |s|
      invariant b.data == head + AttributeRunBytes(s[..i])
    {
      assert s[..i + 1][..i] == s[..i];
      ghost var before := b.data;
      b.U2(s[i].nameIndex);
      b.U4(|s[i].info|);
      b.Bytes(s[i].info);
      assert b.data == before + AttributeBytes(s[i]);
    }
    assert s[..|s|] == s;
  }

  method WriteMembers(b: ByteBuffer, s: seq<MemberEntry>)
    requires MembersWritable(s) && |s| < 0x1_0000
    modifies b
    ensures b.data == old(b.data) + MembersBytes(s)
  {
    hide U2Bytes, AttributesBytes;
    b.U2(|s|);
    ghost var head := b.data;
    for i := 0 to |s|
      invariant b.data == head + MemberRunBytes(s[..i])
    {
      assert s[..i + 1][..i] == s[..i];
      ghost var before := b.data;
      b.U2(s[i].access);
      b.U2(s[i].nameIndex);
      b.U2(s[i].descriptorIndex);
      WriteAttributes(b, s[i].attributes);
      assert b.data == before + MemberBytes(s[i]);
    }
    assert s[..|s|] == s;
  }

  method WriteIndices(b: ByteBuffer, s: seq<u2>)
    modifies b
    ensures b.data == old(b.data) + IndexBytes(s)
  {
    hide U2Bytes;
    for i := 0 to |s|
      invariant b.data == old(b.data) + IndexBytes(s[..i])
    {
      assert s[..i + 1][..i] == s[..i];
      b.U2(s[i]);
    }
    assert s[..|s|] == s;
  }

  method SerializeClassFile(f: ClassFile) returns (bytes: seq<u1>)
    requires Writable(f)
    ensures bytes == Serialize(f)
  {
    hide U2Bytes, U4Bytes, PoolBytes, IndexBytes, MembersBytes, AttributesBytes;
    var b := new ByteBuffer();
    b.U4(ClassFileCodec.MAGIC);
    b.U2(f.minor);
    b.U2(f.major);
    WritePool(b, f.pool);
    assert b.data == HeadBytes(f);
    b.U2(f.access);
    b.U2(f.thisClass);
    b.U2(f.superClass);
    b.U2(|f.interfaces|);
    WriteIndices(b, f.interfaces);
    WriteMembers(b, f.fields);
    WriteMembers(b, f.methods);
    WriteAttributes(b, f.attributes);
    return b.data;
  }
}
