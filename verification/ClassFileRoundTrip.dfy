/** Parsing and serializing a class file undo each other, byte for byte. */
module ClassFileRoundTrip {
  import opened Bytes
  import opened Status
  import opened References
  import opened ConstantPool
  import opened ClassFileCodec

  /** Reading from c gave a value whose bytes stand there, and went behind it. */
  predicate Found(c: Cursor, bytes: seq<u1>, rest: Cursor) {
    Stands(c.data, c.pos, bytes) && rest == Cursor(c.data, c.pos + |bytes|, true) && c.ok
  }

  lemma FoundThen(c: Cursor, a: seq<u1>, mid: Cursor, b: seq<u1>, rest: Cursor)
    requires Found(c, a, mid) && Found(mid, b, rest)
    ensures Found(c, a + b, rest)
  {
    StandsConcat(c.data, c.pos, a, b);
  }

  lemma FoundNothing(c: Cursor)
    requires c.Valid() && c.ok
    ensures Found(c, [], c)
  {
    StandsEmpty(c.data, c.pos);
  }

  lemma FoundU1(c: Cursor)
    requires c.Valid() && ReadU1(c).rest.ok
    ensures Found(c, [ReadU1(c).value], ReadU1(c).rest)
  {
    ReadFindsU1(c);
  }

  lemma FoundU2(c: Cursor)
    requires c.Valid() && ReadU2(c).rest.ok
    ensures Found(c, U2Bytes(ReadU2(c).value), ReadU2(c).rest)
  {
    ReadFindsU2(c);
  }

  lemma FoundU4(c: Cursor)
    requires c.Valid() && ReadU4(c).rest.ok
    ensures Found(c, U4Bytes(ReadU4(c).value), ReadU4(c).rest)
  {
    ReadFindsU4(c);
  }

  lemma FoundBytes(c: Cursor, n: nat)
    requires c.Valid() && ReadBytes(c, n).rest.ok
    ensures Found(c, ReadBytes(c, n).value, ReadBytes(c, n).rest)
  {
    ReadFindsBytes(c, n);
  }

  lemma FoundPair(c: Cursor)
    requires c.Valid() && ReadPair(c).rest.ok
    ensures Found(c, U2Bytes(ReadPair(c).value.0) + U2Bytes(ReadPair(c).value.1), ReadPair(c).rest)
  {
    hide Found, ReadU2;
    var a := ReadU2(c);
    FoundU2(c);
    FoundU2(a.rest);
    FoundThen(c, U2Bytes(a.value), a.rest, U2Bytes(ReadU2(a.rest).value), ReadU2(a.rest).rest);
  }

  // ----- serializing what was parsed -----

  lemma EntryParsed(c: Cursor)
    requires c.Valid() && ReadEntry(c).Success?
    ensures Found(c, EntryBytes(ReadEntry(c).value.value), ReadEntry(c).value.rest)
  {
    hide Found, ReadU1, ReadU2, ReadBytes, U2Bytes, ReadPair, BytesText, TextBytes, ByteText;
    var tag := ReadU1(c);
    var r := ReadEntry(c).value;
    FoundU1(c);
    match r.value
    case Utf8(text) =>
      var length := ReadU2(tag.rest);
      FoundU2(tag.rest);
      FoundBytes(length.rest, length.value);
      FoundThen(c, [1], tag.rest, U2Bytes(length.value), length.rest);
      FoundThen(c, [1] + U2Bytes(length.value), length.rest, TextBytes(text), r.rest);
    case Number(t, bytes) =>
      FoundBytes(tag.rest, 4);
      FoundThen(c, [t], tag.rest, bytes, r.rest);
    case WideNumber(t, bytes) =>
      FoundBytes(tag.rest, 8);
      FoundThen(c, [t], tag.rest, bytes, r.rest);
    case MethodHandle(kind, index) =>
      FoundU1(tag.rest);
      FoundU2(ReadU1(tag.rest).rest);
      FoundThen(c, [15], tag.rest, [kind], ReadU1(tag.rest).rest);
      FoundThen(c, [15] + [kind], ReadU1(tag.rest).rest, U2Bytes(index), r.rest);
    case Named(t, index) => FoundU2(tag.rest); FoundThen(c, [t], tag.rest, U2Bytes(index), r.rest);
    case StringOf(index) => FoundU2(tag.rest); FoundThen(c, [8], tag.rest, U2Bytes(index), r.rest);
    case MethodTypeOf(index) => FoundU2(tag.rest); FoundThen(c, [16], tag.rest, U2Bytes(index), r.rest);
    case Ref(t, a, b) => PairBehind(c, tag.rest, t);
    case NameAndType(a, b) => PairBehind(c, tag.rest, 12);
    case DynamicRef(t, a, b) => PairBehind(c, tag.rest, t);
  }

  lemma PairBehind(c: Cursor, mid: Cursor, tag: u1)
    requires Found(c, [tag], mid) && mid.Valid() && ReadPair(mid).rest.ok
    ensures var p := ReadPair(mid); Found(c, [tag] + U2Bytes(p.value.0) + U2Bytes(p.value.1), p.rest)
  {
    hide Found, ReadPair, U2Bytes;
    var p := ReadPair(mid);
    FoundPair(mid);
    FoundThen(c, [tag], mid, U2Bytes(p.value.0) + U2Bytes(p.value.1), p.rest);
    assert [tag] + U2Bytes(p.value.0) + U2Bytes(p.value.1) == [tag] + (U2Bytes(p.value.0) + U2Bytes(p.value.1));
  }

  lemma {:induction false} EntriesParsed(c: Cursor, pool: Pool, count: nat)
    requires c.Valid() && c.ok && |pool| <= count && PoolWritable(pool) && ReadEntries(c, pool, count).Success?
    ensures var r := ReadEntries(c, pool, count).value;
      && pool <= r.value && PoolWritable(r.value) && Found(c, PoolBytes(r.value, |pool|), r.rest)
    decreases count - |pool|
  {
    hide Found, ReadEntry, EntryBytes, EntryValid;
    var r := ReadEntries(c, pool, count).value;
    if |pool| == count {
      FoundNothing(c);
    } else {
      var entry := ReadEntry(c).value;
      EntryParsed(c);
      UnusableIsValid();
      if entry.value.WideNumber? {
        EntriesParsed(entry.rest, pool + [entry.value, Unusable], count);
        assert r.value[|pool|] == entry.value && r.value[|pool| + 1] == Unusable;
        EmptySlot(r.value, |pool| + 1);
      } else {
        EntriesParsed(entry.rest, pool + [entry.value], count);
        assert r.value[|pool|] == entry.value;
      }
      FoundThen(c, EntryBytes(entry.value), entry.rest, PoolBytes(r.value, |pool| + 1), r.rest);
    }
  }

  lemma UnusableIsValid()
    ensures EntryValid(Unusable)
  {
  }

  lemma EmptySlot(pool: Pool, i: nat)
    requires PoolWritable(pool) && i < |pool| && pool[i] == Unusable
    ensures PoolBytes(pool, i) == PoolBytes(pool, i + 1)
  {
  }

  lemma PoolParsed(c: Cursor)
    requires c.Valid() && ReadPool(c).Success?
    ensures var r := ReadPool(c).value;
      && 1 <= |r.value| < 0x1_0000 && PoolWritable(r.value) && r.value[0] == Unusable
      && Found(c, U2Bytes(|r.value|) + PoolBytes(r.value, 1), r.rest)
  {
    hide Found, ReadEntries, ReadU2, U2Bytes;
    var count := ReadU2(c);
    var r := ReadPool(c).value;
    UnusableIsValid();
    FoundU2(c);
    EntriesParsed(count.rest, [Unusable], count.value);
    FoundThen(c, U2Bytes(count.value), count.rest, PoolBytes(r.value, 1), r.rest);
  }

  lemma AttributeParsed(c: Cursor)
    requires c.Valid() && ReadAttribute(c).Success?
    ensures Found(c, AttributeBytes(ReadAttribute(c).value.value), ReadAttribute(c).value.rest)
  {
    hide Found, ReadU2, ReadU4, ReadBytes, U2Bytes, U4Bytes;
    var name := ReadU2(c);
    var length := ReadU4(name.rest);
    FoundU2(c);
    FoundU4(name.rest);
    FoundBytes(length.rest, length.value);
    var r := ReadAttribute(c).value;
    FoundThen(c, U2Bytes(name.value), name.rest, U4Bytes(length.value), length.rest);
    FoundThen(c, U2Bytes(name.value) + U4Bytes(length.value), length.rest, r.value.info, r.rest);
  }

  lemma {:induction false} AttributeRunParsed(c: Cursor, n: nat)
    requires c.Valid() && c.ok && ReadAttributeRun(c, n).Success?
    ensures Found(c, AttributeRunBytes(ReadAttributeRun(c, n).value.value), ReadAttributeRun(c, n).value.rest)
    decreases n
  {
    hide Found, ReadAttribute, AttributeBytes, AttributeWritable;
    if n == 0 {
      FoundNothing(c);
    } else {
      var front := ReadAttributeRun(c, n - 1).value;
      var r := ReadAttributeRun(c, n).value;
      AttributeRunParsed(c, n - 1);
      AttributeParsed(front.rest);
      assert r.value[..n - 1] == front.value;
      FoundThen(c, AttributeRunBytes(front.value), front.rest, AttributeBytes(r.value[n - 1]), r.rest);
    }
  }

  lemma AttributesParsed(c: Cursor)
    requires c.Valid() && ReadAttributes(c).Success?
    ensures Found(c, AttributesBytes(ReadAttributes(c).value.value), ReadAttributes(c).value.rest)
  {
    hide Found, ReadU2, ReadAttributeRun, AttributeRunBytes, U2Bytes;
    var count := ReadU2(c);
    FoundU2(c);
    AttributeRunParsed(count.rest, count.value);
    var r := ReadAttributes(c).value;
    FoundThen(c, U2Bytes(count.value), count.rest, AttributeRunBytes(r.value), r.rest);
  }

  lemma MemberParsed(c: Cursor)
    requires c.Valid() && ReadMember(c).Success?
    ensures Found(c, MemberBytes(ReadMember(c).value.value), ReadMember(c).value.rest)
  {
    hide Found, ReadU2, ReadPair, ReadAttributes, AttributesBytes, U2Bytes;
    var access := ReadU2(c);
    var names := ReadPair(access.rest);
    FoundU2(c);
    FoundPair(access.rest);
    AttributesParsed(names.rest);
    var r := ReadMember(c).value;
    var m := r.value;
    var pair := U2Bytes(m.nameIndex) + U2Bytes(m.descriptorIndex);
    FoundThen(c, U2Bytes(m.access), access.rest, pair, names.rest);
    FoundThen(c, U2Bytes(m.access) + pair, names.rest, AttributesBytes(m.attributes), r.rest);
    assert U2Bytes(m.access) + pair == U2Bytes(m.access) + U2Bytes(m.nameIndex) + U2Bytes(m.descriptorIndex);
  }

  lemma {:induction false} MemberRunParsed(c: Cursor, n: nat)
    requires c.Valid() && c.ok && ReadMemberRun(c, n).Success?
    ensures Found(c, MemberRunBytes(ReadMemberRun(c, n).value.value), ReadMemberRun(c, n).value.rest)
    decreases n
  {
    hide Found, ReadMember, MemberBytes, MemberWritable;
    if n == 0 {
      FoundNothing(c);
    } else {
      var front := ReadMemberRun(c, n - 1).value;
      var r := ReadMemberRun(c, n).value;
      MemberRunParsed(c, n - 1);
      MemberParsed(front.rest);
      assert r.value[..n - 1] == front.value;
      FoundThen(c, MemberRunBytes(front.value), front.rest, MemberBytes(r.value[n - 1]), r.rest);
    }
  }

  lemma MembersParsed(c: Cursor)
    requires c.Valid() && ReadMembers(c).Success?
    ensures Found(c, MembersBytes(ReadMembers(c).value.value), ReadMembers(c).value.rest)
  {
    hide Found, ReadU2, ReadMemberRun, MemberRunBytes, U2Bytes;
    var count := ReadU2(c);
    FoundU2(c);
    MemberRunParsed(count.rest, count.value);
    var r := ReadMembers(c).value;
    FoundThen(c, U2Bytes(count.value), count.rest, MemberRunBytes(r.value), r.rest);
  }

  lemma {:induction false} IndicesParsed(c: Cursor, n: nat)
    requires c.Valid() && ReadIndices(c, n).rest.ok
    ensures Found(c, IndexBytes(ReadIndices(c, n).value), ReadIndices(c, n).rest)
    decreases n
  {
    hide Found, ReadU2, U2Bytes;
    if n == 0 {
      FoundNothing(c);
    } else {
      var front := ReadIndices(c, n - 1);
      var r := ReadIndices(c, n);
      StillOk(front.rest);
      IndicesParsed(c, n - 1);
      FoundU2(front.rest);
      assert r.value[..n - 1] == front.value;
      FoundThen(c, IndexBytes(front.value), front.rest, U2Bytes(r.value[n - 1]), r.rest);
    }
  }

  lemma StillOk(c: Cursor)
    requires c.Valid() && ReadU2(c).rest.ok
    ensures c.ok
  {
  }

  lemma InterfacesParsed(c: Cursor)
    requires c.Valid() && ReadInterfaces(c).Success?
    ensures var r := ReadInterfaces(c).value; Found(c, U2Bytes(|r.value|) + IndexBytes(r.value), r.rest)
  {
    hide Found, ReadU2, ReadIndices, IndexBytes, U2Bytes;
    var count := ReadU2(c);
    FoundU2(c);
    IndicesParsed(count.rest, count.value);
    var r := ReadInterfaces(c).value;
    FoundThen(c, U2Bytes(count.value), count.rest, IndexBytes(r.value), r.rest);
  }

  lemma HeadParsed(c: Cursor)
    requires c.Valid() && ReadHead(c).Success?
    ensures var r := ReadHead(c).value; var h := r.value;
      && 1 <= |h.pool| < 0x1_0000 && PoolWritable(h.pool) && h.major >= MIN_VERSION && h.pool[0] == Unusable
      && Found(c, U4Bytes(ClassFileCodec.MAGIC)
                  + (U2Bytes(h.minor) + (U2Bytes(h.major) + (U2Bytes(|h.pool|) + PoolBytes(h.pool, 1)))), r.rest)
  {
    hide Found, ReadU4, ReadPair, ReadPool, U2Bytes, U4Bytes, PoolBytes;
    var magic := ReadU4(c);
    var version := ReadPair(magic.rest);
    MagicRead(c);
    FoundU4(c);
    FoundPair(magic.rest);
    PoolParsed(version.rest);
    var r := ReadHead(c).value;
    var h := r.value;
    var pool := U2Bytes(|h.pool|) + PoolBytes(h.pool, 1);
    var pair := U2Bytes(h.minor) + U2Bytes(h.major);
    FoundThen(magic.rest, pair, version.rest, pool, r.rest);
    FoundThen(c, U4Bytes(magic.value), magic.rest, pair + pool, r.rest);
    assert pair + pool == U2Bytes(h.minor) + (U2Bytes(h.major) + pool);
  }

  lemma MagicRead(c: Cursor)
    requires c.Valid() && ReadU4(c).value == ClassFileCodec.MAGIC
    ensures ReadU4(c).rest.ok
  {
  }

  /** Serializing what was parsed gives back the bytes it was parsed from. */
  lemma SerializeOfParse(data: seq<u1>)
    requires Parse(data).Success?
    ensures Writable(Parse(data).value) && Serialize(Parse(data).value) == data
  {
    hide Found, ReadHead, ReadU2, ReadPair, ReadInterfaces, ReadMembers, ReadAttributes;
    hide U2Bytes, U4Bytes, PoolBytes, IndexBytes, MembersBytes, AttributesBytes;
    var f := Parse(data).value;
    var c := Cursor(data, 0, true);
    var head := ReadHead(c).value;
    var access := ReadU2(head.rest);
    var names := ReadPair(access.rest);
    HeadParsed(c);
    AccessOk(access.rest);
    FoundU2(head.rest);
    FoundPair(access.rest);
    InterfacesParsed(names.rest);
    var interfaces := ReadInterfaces(names.rest).value;
    MembersParsed(interfaces.rest);
    var fields := ReadMembers(interfaces.rest).value;
    MembersParsed(fields.rest);
    var methods := ReadMembers(fields.rest).value;
    AttributesParsed(methods.rest);
    var attributes := ReadAttributes(methods.rest).value;
    var three := U2Bytes(f.thisClass) + U2Bytes(f.superClass);
    var list := U2Bytes(|f.interfaces|) + IndexBytes(f.interfaces);
    FoundThen(head.rest, U2Bytes(f.access), access.rest, three, names.rest);
    FoundThen(fields.rest, MembersBytes(f.methods), methods.rest, AttributesBytes(f.attributes), attributes.rest);
    var rest := MembersBytes(f.methods) + AttributesBytes(f.attributes);
    FoundThen(interfaces.rest, MembersBytes(f.fields), fields.rest, rest, attributes.rest);
    FoundThen(names.rest, list, interfaces.rest, MembersBytes(f.fields) + rest, attributes.rest);
    FoundThen(head.rest, U2Bytes(f.access) + three, names.rest, list + (MembersBytes(f.fields) + rest), attributes.rest);
    FoundThen(c, HeadBytes(f), head.rest, TailBytes(f), attributes.rest);
    FoundWhole(data, Serialize(f), attributes.rest);
  }

  lemma AccessOk(c: Cursor)
    requires c.Valid() && ReadPair(c).rest.ok
    ensures c.ok
  {
  }

  lemma FoundWhole(data: seq<u1>, bytes: seq<u1>, rest: Cursor)
    requires Found(Cursor(data, 0, true), bytes, rest) && rest.Exhausted()
    ensures bytes == data
  {
    assert data[0..|bytes|] == data;
  }
}
