/** A well-formed class file that was serialized parses to itself. */
module ClassFileWritten {
  import opened Bytes
  import opened Status
  import opened References
  import opened ConstantPool
  import opened ClassFileCodec

  function Here(data: seq<u1>, p: nat): Cursor {
    Cursor(data, p, true)
  }

  lemma Split(data: seq<u1>, p: nat, a: seq<u1>, b: seq<u1>)
    requires Stands(data, p, a + b)
    ensures Stands(data, p, a) && Stands(data, p + |a|, b) && p + |a| + |b| <= |data|
  {
    StandsConcat(data, p, a, b);
  }

  lemma Inside(data: seq<u1>, p: nat, w: seq<u1>)
    requires Stands(data, p, w)
    ensures p + |w| <= |data|
  {
  }

  lemma PairWritten(data: seq<u1>, p: nat, a: u2, b: u2)
    requires Stands(data, p, U2Bytes(a) + U2Bytes(b))
    ensures Here(data, p).Valid() && ReadPair(Here(data, p)) == Read((a, b), Here(data, p + 4))
  {
    hide Stands, U2Bytes;
    Split(data, p, U2Bytes(a), U2Bytes(b));
    StandingU2IsRead(data, p, a);
    StandingU2IsRead(data, p + 2, b);
  }

  lemma TextBack(text: string)
    requires ByteText(text)
    ensures BytesText(TextBytes(text)) == text
  {
  }

  lemma TaggedPair(data: seq<u1>, p: nat, tag: u1, a: u2, b: u2)
    requires Stands(data, p, [tag] + U2Bytes(a) + U2Bytes(b))
    ensures Here(data, p).Valid() && ReadU1(Here(data, p)) == Read(tag, Here(data, p + 1))
    ensures Here(data, p + 1).Valid() && ReadPair(Here(data, p + 1)) == Read((a, b), Here(data, p + 5))
  {
    hide Stands, U2Bytes;
    assert [tag] + U2Bytes(a) + U2Bytes(b) == [tag] + (U2Bytes(a) + U2Bytes(b));
    Split(data, p, [tag], U2Bytes(a) + U2Bytes(b));
    StandingU1IsRead(data, p, tag);
    PairWritten(data, p + 1, a, b);
  }

  lemma TaggedIndex(data: seq<u1>, p: nat, tag: u1, a: u2)
    requires Stands(data, p, [tag] + U2Bytes(a))
    ensures Here(data, p).Valid() && ReadU1(Here(data, p)) == Read(tag, Here(data, p + 1))
    ensures Here(data, p + 1).Valid() && ReadU2(Here(data, p + 1)) == Read(a, Here(data, p + 3))
  {
    hide Stands, U2Bytes;
    Split(data, p, [tag], U2Bytes(a));
    StandingU1IsRead(data, p, tag);
    StandingU2IsRead(data, p + 1, a);
  }

  lemma TaggedBytes(data: seq<u1>, p: nat, tag: u1, bytes: seq<u1>)
    requires Stands(data, p, [tag] + bytes)
    ensures Here(data, p).Valid() && ReadU1(Here(data, p)) == Read(tag, Here(data, p + 1))
    ensures Here(data, p + 1).Valid() && ReadBytes(Here(data, p + 1), |bytes|) == Read(bytes, Here(data, p + 1 + |bytes|))
  {
    hide Stands;
    Split(data, p, [tag], bytes);
    StandingU1IsRead(data, p, tag);
    StandingBytesAreRead(data, p + 1, bytes);
  }

  lemma TextWritten(data: seq<u1>, p: nat, text: string)
    requires ByteText(text) && |text| < 0x1_0000 && Stands(data, p, EntryBytes(Utf8(text)))
    ensures Here(data, p).Valid()
    ensures ReadEntry(Here(data, p)) == Success(Read(Utf8(text), Here(data, p + |EntryBytes(Utf8(text))|)))
  {
    hide Stands, U2Bytes, ByteText, BytesText;
    assert EntryBytes(Utf8(text)) == [1] + U2Bytes(|text|) + TextBytes(text);
    Split(data, p, [1] + U2Bytes(|text|), TextBytes(text));
    TaggedIndex(data, p, 1, |text|);
    StandingBytesAreRead(data, p + 3, TextBytes(text));
    TextBack(text);
  }

  lemma HandleWritten(data: seq<u1>, p: nat, kind: u1, index: u2)
    requires Stands(data, p, [15] + [kind] + U2Bytes(index))
    ensures Here(data, p).Valid()
    ensures ReadEntry(Here(data, p)) == Success(Read(MethodHandle(kind, index), Here(data, p + 4)))
  {
    hide Stands, U2Bytes;
    Split(data, p, [15] + [kind], U2Bytes(index));
    Split(data, p, [15], [kind]);
    StandingU1IsRead(data, p, 15);
    StandingU1IsRead(data, p + 1, kind);
    StandingU2IsRead(data, p + 2, index);
  }

  lemma EntryWritten(data: seq<u1>, p: nat, c: Constant)
    requires EntryValid(c) && !c.Unusable? && Stands(data, p, EntryBytes(c))
    ensures Here(data, p).Valid()
    ensures ReadEntry(Here(data, p)) == Success(Read(c, Here(data, p + |EntryBytes(c)|)))
  {
    hide Stands, U2Bytes, ByteText, BytesText, ReadU1, ReadU2, ReadBytes, ReadPair;
    match c
    case Utf8(text) => TextWritten(data, p, text);
    case Number(tag, bytes) => TaggedBytes(data, p, tag, bytes);
    case WideNumber(tag, bytes) => TaggedBytes(data, p, tag, bytes);
    case Named(tag, index) => TaggedIndex(data, p, tag, index);
    case StringOf(index) => TaggedIndex(data, p, 8, index);
    case MethodTypeOf(index) => TaggedIndex(data, p, 16, index);
    case MethodHandle(kind, index) => HandleWritten(data, p, kind, index);
    case Ref(tag, a, b) => TaggedPair(data, p, tag, a, b);
    case NameAndType(a, b) => TaggedPair(data, p, 12, a, b);
    case DynamicRef(tag, a, b) => TaggedPair(data, p, tag, a, b);
  }

  /** Exactly the slot at 0 and those behind a Long or a Double are empty. */
  predicate PoolShaped(pool: Pool) {
    && |pool| >= 1 && pool[0] == Unusable && !pool[|pool| - 1].WideNumber?
    && forall i :: 1 <= i < |pool| ==> (pool[i].Unusable? <==> pool[i - 1].WideNumber?)
  }

  lemma {:induction false} EntriesWritten(data: seq<u1>, p: nat, pool: Pool, i: nat)
    requires PoolWritable(pool) && PoolShaped(pool) && 1 <= i <= |pool| && !pool[i - 1].WideNumber?
    requires Stands(data, p, PoolBytes(pool, i))
    ensures Here(data, p).Valid()
    ensures ReadEntries(Here(data, p), pool[..i], |pool|) == Success(Read(pool, Here(data, p + |PoolBytes(pool, i)|)))
    decreases |pool| - i
  {
    hide EntryBytes, ReadEntry, EntryValid, Stands;
    Inside(data, p, PoolBytes(pool, i));
    if i == |pool| {
      assert pool[..i] == pool;
    } else {
      var e := pool[i];
      assert !e.Unusable?;
      Split(data, p, EntryBytes(e), PoolBytes(pool, i + 1));
      EntryWritten(data, p, e);
      var q := p + |EntryBytes(e)|;
      if e.WideNumber? {
        assert pool[i + 1] == Unusable;
        EmptyBytes();
        assert PoolBytes(pool, i + 1) == PoolBytes(pool, i + 2);
        EntriesWritten(data, q, pool, i + 2);
        assert pool[..i + 2] == pool[..i] + [e, Unusable];
      } else {
        EntriesWritten(data, q, pool, i + 1);
        assert pool[..i + 1] == pool[..i] + [e];
      }
    }
  }

  lemma EmptyBytes()
    ensures EntryValid(Unusable) && EntryBytes(Unusable) == []
  {
  }

  lemma PoolWritten(data: seq<u1>, p: nat, pool: Pool)
    requires 1 <= |pool| < 0x1_0000 && PoolWritable(pool) && PoolShaped(pool)
    requires Stands(data, p, U2Bytes(|pool|) + PoolBytes(pool, 1))
    ensures Here(data, p).Valid()
    ensures ReadPool(Here(data, p)) == Success(Read(pool, Here(data, p + 2 + |PoolBytes(pool, 1)|)))
  {
    hide Stands, U2Bytes, PoolBytes, ReadEntries;
    Split(data, p, U2Bytes(|pool|), PoolBytes(pool, 1));
    StandingU2IsRead(data, p, |pool|);
    EntriesWritten(data, p + 2, pool, 1);
    assert pool[..1] == [Unusable];
  }

  lemma AttributeWritten(data: seq<u1>, p: nat, a: Attribute)
    requires AttributeWritable(a) && Stands(data, p, AttributeBytes(a))
    ensures Here(data, p).Valid()
    ensures ReadAttribute(Here(data, p)) == Success(Read(a, Here(data, p + |AttributeBytes(a)|)))
  {
    hide Stands, U2Bytes, U4Bytes;
    Split(data, p, U2Bytes(a.nameIndex) + U4Bytes(|a.info|), a.info);
    Split(data, p, U2Bytes(a.nameIndex), U4Bytes(|a.info|));
    StandingU2IsRead(data, p, a.nameIndex);
    StandingU4IsRead(data, p + 2, |a.info|);
    StandingBytesAreRead(data, p + 6, a.info);
  }

  lemma {:induction false} AttributeRunWritten(data: seq<u1>, p: nat, s: seq<Attribute>)
    requires AttributesWritable(s) && Stands(data, p, AttributeRunBytes(s))
    ensures Here(data, p).Valid()
    ensures ReadAttributeRun(Here(data, p), |s|) == Success(Read(s, Here(data, p + |AttributeRunBytes(s)|)))
    decreases |s|
  {
    hide ReadAttribute, AttributeBytes, AttributeWritable, Stands;
    Inside(data, p, AttributeRunBytes(s));
    if s != [] {
      var n := |s| - 1;
      var front, last := s[..n], s[n];
      assert s == front + [last];
      Split(data, p, AttributeRunBytes(front), AttributeBytes(last));
      AttributeRunWritten(data, p, front);
      AttributeWritten(data, p + |AttributeRunBytes(front)|, last);
    }
  }

  lemma AttributesWritten(data: seq<u1>, p: nat, s: seq<Attribute>)
    requires AttributesWritable(s) && |s| < 0x1_0000 && Stands(data, p, AttributesBytes(s))
    ensures Here(data, p).Valid()
    ensures ReadAttributes(Here(data, p)) == Success(Read(s, Here(data, p + |AttributesBytes(s)|)))
  {
    hide Stands, U2Bytes, AttributeRunBytes, ReadAttributeRun;
    Split(data, p, U2Bytes(|s|), AttributeRunBytes(s));
    StandingU2IsRead(data, p, |s|);
    AttributeRunWritten(data, p + 2, s);
  }

  lemma MemberWritten(data: seq<u1>, p: nat, m: MemberEntry)
    requires MemberWritable(m) && Stands(data, p, MemberBytes(m))
    ensures Here(data, p).Valid()
    ensures ReadMember(Here(data, p)) == Success(Read(m, Here(data, p + |MemberBytes(m)|)))
  {
    hide Stands, U2Bytes, AttributesBytes, ReadAttributes, ReadPair;
    var pair := U2Bytes(m.nameIndex) + U2Bytes(m.descriptorIndex);
    assert MemberBytes(m) == U2Bytes(m.access) + (pair + AttributesBytes(m.attributes));
    Split(data, p, U2Bytes(m.access), pair + AttributesBytes(m.attributes));
    Split(data, p + 2, pair, AttributesBytes(m.attributes));
    StandingU2IsRead(data, p, m.access);
    PairWritten(data, p + 2, m.nameIndex, m.descriptorIndex);
    AttributesWritten(data, p + 6, m.attributes);
  }

  lemma {:induction false} MemberRunWritten(data: seq<u1>, p: nat, s: seq<MemberEntry>)
    requires MembersWritable(s) && Stands(data, p, MemberRunBytes(s))
    ensures Here(data, p).Valid()
    ensures ReadMemberRun(Here(data, p), |s|) == Success(Read(s, Here(data, p + |MemberRunBytes(s)|)))
    decreases |s|
  {
    hide ReadMember, MemberBytes, MemberWritable, Stands;
    Inside(data, p, MemberRunBytes(s));
    if s != [] {
      var n := |s| - 1;
      var front, last := s[..n], s[n];
      assert s == front + [last];
      Split(data, p, MemberRunBytes(front), MemberBytes(last));
      MemberRunWritten(data, p, front);
      MemberWritten(data, p + |MemberRunBytes(front)|, last);
    }
  }

  lemma MembersWritten(data: seq<u1>, p: nat, s: seq<MemberEntry>)
    requires MembersWritable(s) && |s| < 0x1_0000 && Stands(data, p, MembersBytes(s))
    ensures Here(data, p).Valid()
    ensures ReadMembers(Here(data, p)) == Success(Read(s, Here(data, p + |MembersBytes(s)|)))
  {
    hide Stands, U2Bytes, MemberRunBytes, ReadMemberRun;
    Split(data, p, U2Bytes(|s|), MemberRunBytes(s));
    StandingU2IsRead(data, p, |s|);
    MemberRunWritten(data, p + 2, s);
  }

  lemma {:induction false} IndicesWritten(data: seq<u1>, p: nat, s: seq<u2>)
    requires Stands(data, p, IndexBytes(s))
    ensures Here(data, p).Valid() && ReadIndices(Here(data, p), |s|) == Read(s, Here(data, p + |IndexBytes(s)|))
    decreases |s|
  {
    hide U2Bytes, ReadU2, Stands;
    Inside(data, p, IndexBytes(s));
    if s != [] {
      var n := |s| - 1;
      var front, last := s[..n], s[n];
      assert s == front + [last];
      Split(data, p, IndexBytes(front), U2Bytes(last));
      IndicesWritten(data, p, front);
      StandingU2IsRead(data, p + |IndexBytes(front)|, last);
    }
  }

  lemma InterfacesWritten(data: seq<u1>, p: nat, s: seq<u2>)
    requires |s| < 0x1_0000 && Stands(data, p, U2Bytes(|s|) + IndexBytes(s))
    ensures Here(data, p).Valid()
    ensures ReadInterfaces(Here(data, p)) == Success(Read(s, Here(data, p + 2 + |IndexBytes(s)|)))
  {
    hide Stands, U2Bytes, IndexBytes, ReadIndices;
    Split(data, p, U2Bytes(|s|), IndexBytes(s));
    StandingU2IsRead(data, p, |s|);
    IndicesWritten(data, p + 2, s);
  }

  lemma HeadWritten(data: seq<u1>, f: ClassFile)
    requires Writable(f) && PoolShaped(f.pool) && f.major >= MIN_VERSION && Stands(data, 0, HeadBytes(f))
    ensures ReadHead(Here(data, 0)) == Success(Read(Header(f.minor, f.major, f.pool), Here(data, |HeadBytes(f)|)))
  {
    hide Stands, U2Bytes, U4Bytes, PoolBytes, ReadPool, ReadPair, PoolShaped;
    var pool := U2Bytes(|f.pool|) + PoolBytes(f.pool, 1);
    var pair := U2Bytes(f.minor) + U2Bytes(f.major);
    assert HeadBytes(f) == U4Bytes(ClassFileCodec.MAGIC) + (pair + pool);
    Split(data, 0, U4Bytes(ClassFileCodec.MAGIC), pair + pool);
    Split(data, 4, pair, pool);
    StandingU4IsRead(data, 0, ClassFileCodec.MAGIC);
    PairWritten(data, 4, f.minor, f.major);
    PoolWritten(data, 8, f.pool);
  }

  /** What a parsed tree looks like, and one built by hand must. */
  predicate WellFormed(f: ClassFile) {
    Writable(f) && PoolShaped(f.pool) && f.major >= MIN_VERSION
  }

  /** Parsing what was serialized gives back the tree. */
  lemma ParseOfSerialize(f: ClassFile)
    requires WellFormed(f)
    ensures Parse(Serialize(f)) == Success(f)
  {
    hide Stands, U2Bytes, U4Bytes, HeadBytes, IndexBytes, MembersBytes, AttributesBytes, PoolShaped;
    hide ReadHead, ReadPair, ReadInterfaces, ReadMembers, ReadAttributes, ReadU2;
    var data := Serialize(f);
    Whole(data);
    var h := |HeadBytes(f)|;
    Split(data, 0, HeadBytes(f), TailBytes(f));
    HeadWritten(data, f);
    var three := U2Bytes(f.thisClass) + U2Bytes(f.superClass);
    var list := U2Bytes(|f.interfaces|) + IndexBytes(f.interfaces);
    var rest := MembersBytes(f.methods) + AttributesBytes(f.attributes);
    Split(data, h, U2Bytes(f.access) + three, list + (MembersBytes(f.fields) + rest));
    Split(data, h, U2Bytes(f.access), three);
    StandingU2IsRead(data, h, f.access);
    PairWritten(data, h + 2, f.thisClass, f.superClass);
    var i := h + 6;
    Split(data, i, list, MembersBytes(f.fields) + rest);
    InterfacesWritten(data, i, f.interfaces);
    var j := i + |list|;
    Split(data, j, MembersBytes(f.fields), rest);
    MembersWritten(data, j, f.fields);
    var k := j + |MembersBytes(f.fields)|;
    Split(data, k, MembersBytes(f.methods), AttributesBytes(f.attributes));
    MembersWritten(data, k, f.methods);
    AttributesWritten(data, k + |MembersBytes(f.methods)|, f.attributes);
  }

  lemma Whole(data: seq<u1>)
    ensures Stands(data, 0, data)
  {
  }
}
