/** What a class file says, read off its bytes (sections 4.1, 4.4, 4.5 and 4.7 of
    the JVMS), and that parsing reads just that. */
module ClassFileMeaning {
  import opened Bytes
  import opened BigEndian
  import opened Status
  import opened References
  import opened ConstantPool
  import opened ClassFileCodec
  import opened CodeMeaning

  // ----- the constant pool -----

  predicate TextStands(d: seq<u1>, p: nat, text: string) {
    p + |text| <= |d| && forall i :: 0 <= i < |text| ==> text[i] as int == d[p + i]
  }

  /** The entry whose bytes are those from p up to end, by its tag. */
  predicate EntryStands(d: seq<u1>, p: nat, c: Constant, end: nat) {
    && p < end <= |d|
    && var tag := d[p] as int;
    if tag == 1 then                                     // Utf8: length, bytes
      p + 3 <= end && c.Utf8? && |c.text| == Unsigned2(d, p + 1) && end == p + 3 + |c.text| && TextStands(d, p + 3, c.text)
    else if tag == 3 || tag == 4 then                    // Integer, Float: four bytes
      end == p + 5 && c == Number(tag, d[p + 1..p + 5])
    else if tag == 5 || tag == 6 then                    // Long, Double: eight bytes
      end == p + 9 && c == WideNumber(tag, d[p + 1..p + 9])
    else if tag == 7 || tag == 19 || tag == 20 then      // Class, Module, Package: name_index
      end == p + 3 && c == Named(tag, Unsigned2(d, p + 1))
    else if tag == 8 then                                // String: string_index
      end == p + 3 && c == StringOf(Unsigned2(d, p + 1))
    else if tag == 9 || tag == 10 || tag == 11 then      // references: class_index, name_and_type_index
      end == p + 5 && c == Ref(tag, Unsigned2(d, p + 1), Unsigned2(d, p + 3))
    else if tag == 12 then                               // NameAndType: name_index, descriptor_index
      end == p + 5 && c == NameAndType(Unsigned2(d, p + 1), Unsigned2(d, p + 3))
    else if tag == 15 then                               // MethodHandle: reference_kind, reference_index
      end == p + 4 && c == MethodHandle(d[p + 1], Unsigned2(d, p + 2))
    else if tag == 16 then                               // MethodType: descriptor_index
      end == p + 3 && c == MethodTypeOf(Unsigned2(d, p + 1))
    else                                                 // Dynamic, InvokeDynamic: bootstrap_method_attr_index, name_and_type_index
      (tag == 17 || tag == 18) && end == p + 5 && c == DynamicRef(tag, Unsigned2(d, p + 1), Unsigned2(d, p + 3))
  }

  /** Entry k stands from ends[k] up to ends[k + 1]; the slot behind a Long or a
      Double, and no other from 1 on, is empty. */
  predicate PoolStands(d: seq<u1>, pool: Pool, from: nat, ends: seq<nat>)
    requires 1 <= from <= |pool|
  {
    && |ends| == |pool| + 1 && ends[|pool|] <= |d|
    && forall k :: from <= k < |pool| ==> SlotStands(d, pool, k, ends[k], ends[k + 1])
  }

  predicate SlotStands(d: seq<u1>, pool: Pool, k: nat, p: nat, end: nat)
    requires 1 <= k < |pool|
  {
    if pool[k - 1].WideNumber? then pool[k] == Unusable && end == p
    else EntryStands(d, p, pool[k], end)
  }

  lemma TextRead(d: seq<u1>, p: nat, n: nat)
    requires p + n <= |d|
    ensures TextStands(d, p, BytesText(d[p..p + n]))
  {
    var text := BytesText(d[p..p + n]);
    forall i | 0 <= i < |text| ensures text[i] as int == d[p + i] {
      assert TextBytes(text)[i] == d[p..p + n][i];
    }
  }

  lemma PairRead(c: Cursor)
    requires c.Valid() && ReadPair(c).rest.ok
    ensures c.ok && c.pos + 4 <= |c.data| && ReadPair(c).rest == Cursor(c.data, c.pos + 4, true)
    ensures ReadPair(c).value == (Unsigned2(c.data, c.pos), Unsigned2(c.data, c.pos + 2))
  {
    hide ReadU2, Unsigned2;
    var a := ReadU2(c);
    WasOk(a.rest);
    WasOk(c);
    Read2(c);
    Read2(a.rest);
  }

  /** What reading an entry comes to. */
  predicate EntryIsRead(c: Cursor)
    requires c.Valid() && ReadEntry(c).Success?
  {
    var r := ReadEntry(c).value;
    EntryStands(c.data, c.pos, r.value, r.rest.pos) && r.rest == Cursor(c.data, r.rest.pos, true) && c.ok
  }

  lemma PlainEntryRead(c: Cursor)
    requires c.Valid() && ReadEntry(c).Success?
    requires var e := ReadEntry(c).value.value; e.Utf8? || e.Number? || e.WideNumber?
    ensures EntryIsRead(c)
  {
    hide ReadU1, ReadU2, ReadBytes, ReadPair, Unsigned2, BytesText, TextStands;
    var tag := ReadU1(c);
    match ReadEntry(c).value.value
    case Utf8(text) =>
      var length := ReadU2(tag.rest);
      ReadSlice(length.rest, length.value);
      WasOk(tag.rest);
      WasOk(c);
      Read1(c);
      Read2(tag.rest);
      TextRead(c.data, c.pos + 3, length.value);
    case Number(_, _) => ReadSlice(tag.rest, 4); Read1(c);
    case WideNumber(_, _) => ReadSlice(tag.rest, 8); Read1(c);
  }

  lemma IndexEntryRead(c: Cursor)
    requires c.Valid() && ReadEntry(c).Success?
    requires var e := ReadEntry(c).value.value; e.MethodHandle? || e.Named? || e.StringOf? || e.MethodTypeOf?
    ensures EntryIsRead(c)
  {
    hide ReadU1, ReadU2, ReadBytes, ReadPair, Unsigned2, BytesText, TextStands;
    var tag := ReadU1(c);
    WasOk(c);
    match ReadEntry(c).value.value
    case MethodHandle(_, _) =>
      var kind := ReadU1(tag.rest);
      WasOk(kind.rest);
      WasOk(tag.rest);
      Read1(c);
      Read1(tag.rest);
      Read2(kind.rest);
    case Named(_, _) => WasOk(tag.rest); Read1(c); Read2(tag.rest);
    case StringOf(_) => WasOk(tag.rest); Read1(c); Read2(tag.rest);
    case MethodTypeOf(_) => WasOk(tag.rest); Read1(c); Read2(tag.rest);
  }

  lemma PairEntryRead(c: Cursor)
    requires c.Valid() && ReadEntry(c).Success?
    requires var e := ReadEntry(c).value.value; e.Ref? || e.NameAndType? || e.DynamicRef?
    ensures EntryIsRead(c)
  {
    hide ReadU1, ReadU2, ReadBytes, ReadPair, Unsigned2, BytesText, TextStands;
    PairRead(ReadU1(c).rest);
    Read1(c);
  }

  /** Every entry is read as its tag says. */
  lemma EntryRead(c: Cursor)
    requires c.Valid() && ReadEntry(c).Success?
    ensures var r := ReadEntry(c).value;
      && EntryStands(c.data, c.pos, r.value, r.rest.pos) && r.rest == Cursor(c.data, r.rest.pos, true) && c.ok
      && !r.value.Unusable?
  {
    hide ReadEntry, EntryStands;
    var e := ReadEntry(c).value.value;
    if e.Utf8? || e.Number? || e.WideNumber? {
      PlainEntryRead(c);
    } else if e.Ref? || e.NameAndType? || e.DynamicRef? {
      PairEntryRead(c);
    } else {
      IndexEntryRead(c);
    }
  }

  /** The entries from the cursor on. */
  lemma {:induction false} EntriesRead(c: Cursor, pool: Pool, count: nat) returns (ends: seq<nat>)
    requires c.Valid() && c.ok && 1 <= |pool| <= count && !pool[|pool| - 1].WideNumber? && ReadEntries(c, pool, count).Success?
    ensures var r := ReadEntries(c, pool, count).value;
      && pool <= r.value && |r.value| == count && PoolStands(c.data, r.value, |pool|, ends)
      && ends[|pool|] == c.pos && r.rest == Cursor(c.data, ends[count], true)
    decreases count - |pool|
  {
    hide ReadEntry, EntryStands;
    var r := ReadEntries(c, pool, count).value;
    var n := |pool|;
    if n == count {
      ends := seq(n, i => 0) + [c.pos];
    } else {
      var entry := ReadEntry(c).value;
      EntryRead(c);
      if entry.value.WideNumber? {
        var next := pool + [entry.value, Unusable];
        ends := EntriesRead(entry.rest, next, count);
        assert r.value[n] == next[n] && r.value[n + 1] == next[n + 1] && r.value[n - 1] == next[n - 1];
        ends := ends[n := c.pos][n + 1 := entry.rest.pos];
      } else {
        var next := pool + [entry.value];
        ends := EntriesRead(entry.rest, next, count);
        assert r.value[n] == next[n] && r.value[n - 1] == next[n - 1];
        ends := ends[n := c.pos];
      }
    }
  }

  // ----- members -----

  /** access_flags, name_index, descriptor_index, attributes_count, attributes. */
  ghost predicate MemberStands(d: seq<u1>, p: nat, m: MemberEntry, end: nat) {
    && p + 8 <= end <= |d|
    && m.access == Unsigned2(d, p) && m.nameIndex == Unsigned2(d, p + 2) && m.descriptorIndex == Unsigned2(d, p + 4)
    && |m.attributes| == Unsigned2(d, p + 6)
    && exists ends :: AttributesStand(d, p + 8, m.attributes, ends) && ends[|m.attributes|] == end
  }

  ghost predicate MembersStand(d: seq<u1>, p: nat, s: seq<MemberEntry>, ends: seq<nat>) {
    && |ends| == |s| + 1 && ends[0] == p
    && forall k :: 0 <= k < |s| ==> MemberStands(d, ends[k], s[k], ends[k + 1])
  }

  lemma AttributesRead(c: Cursor) returns (ends: seq<nat>)
    requires c.Valid() && ReadAttributes(c).Success?
    ensures var r := ReadAttributes(c).value;
      && c.ok && c.pos + 2 <= |c.data| && |r.value| == Unsigned2(c.data, c.pos)
      && AttributesStand(c.data, c.pos + 2, r.value, ends) && |ends| == |r.value| + 1
      && r.rest == Cursor(c.data, ends[|r.value|], true) && c.pos + 2 <= ends[|r.value|] <= |c.data|
  {
    hide ReadU2, ReadAttributeRun, AttributesStand, Unsigned2;
    var count := ReadU2(c);
    WasOk(c);
    Read2(c);
    ends := AttributeRunRead(count.rest, count.value);
    RunEnds(c.data, c.pos + 2, ReadAttributes(c).value.value, ends);
    EndsGrow(c.data, c.pos + 2, ReadAttributes(c).value.value, ends, |ends| - 1);
  }

  lemma {:induction false} EndsGrow(d: seq<u1>, p: nat, s: seq<Attribute>, ends: seq<nat>, n: nat)
    requires AttributesStand(d, p, s, ends) && n < |ends|
    ensures p <= ends[n]
    decreases n
  {
    if n > 0 {
      EndsGrow(d, p, s, ends, n - 1);
      assert AttributeStands(d, ends[n - 1], s[n - 1], ends[n - 1 + 1]);
    }
  }

  lemma MemberRead(c: Cursor)
    requires c.Valid() && ReadMember(c).Success?
    ensures var r := ReadMember(c).value;
      MemberStands(c.data, c.pos, r.value, r.rest.pos) && r.rest == Cursor(c.data, r.rest.pos, true) && c.ok
  {
    hide ReadU2, ReadPair, ReadAttributes, AttributesStand, Unsigned2;
    var access := ReadU2(c);
    var names := ReadPair(access.rest);
    PairRead(access.rest);
    WasOk(c);
    Read2(c);
    var ends := AttributesRead(names.rest);
  }

  lemma {:induction false} MemberRunRead(c: Cursor, n: nat) returns (ends: seq<nat>)
    requires c.Valid() && c.ok && ReadMemberRun(c, n).Success?
    ensures var r := ReadMemberRun(c, n).value;
      && MembersStand(c.data, c.pos, r.value, ends) && |ends| == n + 1 && r.rest == Cursor(c.data, ends[n], true)
    decreases n
  {
    hide ReadMember, MemberStands;
    if n == 0 {
      ends := [c.pos];
    } else {
      var front, r := ReadMemberRun(c, n - 1).value, ReadMemberRun(c, n).value;
      var before := MemberRunRead(c, n - 1);
      MemberRead(front.rest);
      ends := before + [r.rest.pos];
      forall k | 0 <= k < n ensures MemberStands(c.data, ends[k], r.value[k], ends[k + 1]) {
        if k < n - 1 {
          assert ends[k] == before[k] && ends[k + 1] == before[k + 1] && r.value[k] == front.value[k];
        }
      }
    }
  }

  lemma MembersRead(c: Cursor) returns (ends: seq<nat>)
    requires c.Valid() && ReadMembers(c).Success?
    ensures var r := ReadMembers(c).value;
      && c.ok && c.pos + 2 <= |c.data| && |r.value| == Unsigned2(c.data, c.pos)
      && MembersStand(c.data, c.pos + 2, r.value, ends) && |ends| == |r.value| + 1
      && r.rest == Cursor(c.data, ends[|r.value|], true)
  {
    hide ReadU2, ReadMemberRun, MembersStand, Unsigned2;
    var count := ReadU2(c);
    WasOk(c);
    Read2(c);
    ends := MemberRunRead(count.rest, count.value);
  }

  predicate IndicesStand(d: seq<u1>, p: nat, s: seq<u2>) {
    p + 2 * |s| <= |d| && forall k :: 0 <= k < |s| ==> s[k] == Unsigned2(d, p + 2 * k)
  }

  lemma {:induction false} IndicesRead(c: Cursor, n: nat)
    requires c.Valid() && ReadIndices(c, n).rest.ok
    ensures IndicesStand(c.data, c.pos, ReadIndices(c, n).value)
    ensures c.ok && ReadIndices(c, n).rest == Cursor(c.data, c.pos + 2 * n, true)
    decreases n
  {
    hide ReadU2, Unsigned2;
    if n > 0 {
      var front := ReadIndices(c, n - 1);
      WasOk(front.rest);
      IndicesRead(c, n - 1);
      Read2(front.rest);
    }
  }

  // ----- the whole file -----

  /** Magic, versions and the pool: ends[|pool|] is where they end. */
  predicate HeadStands(d: seq<u1>, minor: u2, major: u2, pool: Pool, ends: seq<nat>) {
    && |d| >= 10 && d[0] == 0xCA && d[1] == 0xFE && d[2] == 0xBA && d[3] == 0xBE
    && minor == Unsigned2(d, 4) && major == Unsigned2(d, 6) && major >= 45
    && 1 <= |pool| == Unsigned2(d, 8) && pool[0] == Unusable
    && PoolStands(d, pool, 1, ends) && ends[1] == 10
  }

  /** access_flags, this_class, super_class, interfaces, fields, methods, attributes,
      each list behind its count. */
  ghost predicate TailStands(d: seq<u1>, p: nat, f: ClassFile) {
    && p + 8 <= |d|
    && f.access == Unsigned2(d, p) && f.thisClass == Unsigned2(d, p + 2) && f.superClass == Unsigned2(d, p + 4)
    && |f.interfaces| == Unsigned2(d, p + 6) && IndicesStand(d, p + 8, f.interfaces)
    && ListsFollow(d, p + 8 + 2 * |f.interfaces|, f)
  }

  ghost predicate ListsFollow(d: seq<u1>, p: nat, f: ClassFile) {
    exists fields, methods, attributes :: ListsStand(d, p, f, fields, methods, attributes)
  }

  ghost predicate ListsStand(d: seq<u1>, p: nat, f: ClassFile, fields: seq<nat>, methods: seq<nat>, attributes: seq<nat>) {
    && p + 2 <= |d| && |f.fields| == Unsigned2(d, p) && MembersStand(d, p + 2, f.fields, fields)
    && |fields| == |f.fields| + 1
    && var m := fields[|f.fields|];
    && m + 2 <= |d| && |f.methods| == Unsigned2(d, m) && MembersStand(d, m + 2, f.methods, methods)
    && |methods| == |f.methods| + 1
    && var a := methods[|f.methods|];
    && a + 2 <= |d| && |f.attributes| == Unsigned2(d, a) && AttributesStand(d, a + 2, f.attributes, attributes)
    && |attributes| == |f.attributes| + 1 && attributes[|f.attributes|] == |d|
  }

  lemma HeadRead(d: seq<u1>) returns (ends: seq<nat>)
    requires ReadHead(Cursor(d, 0, true)).Success?
    ensures var r := ReadHead(Cursor(d, 0, true)).value;
      && HeadStands(d, r.value.minor, r.value.major, r.value.pool, ends) && |ends| == |r.value.pool| + 1
      && r.rest == Cursor(d, ends[|r.value.pool|], true)
  {
    hide ReadU4, ReadU2, ReadPair, ReadEntries, PoolStands, Unsigned2;
    var start := Cursor(d, 0, true);
    var magic := ReadU4(start);
    var version := ReadPair(magic.rest);
    MagicIsRead(start);
    PairRead(magic.rest);
    var count := ReadU2(version.rest);
    Read2(version.rest);
    ends := EntriesRead(count.rest, [Unusable], count.value);
    var pool := ReadHead(start).value.value.pool;
    assert pool[0] == [Unusable][0];
    PoolEnds(d, pool, ends);
  }

  lemma PoolEnds(d: seq<u1>, pool: Pool, ends: seq<nat>)
    requires 1 <= |pool| && PoolStands(d, pool, 1, ends)
    ensures |ends| == |pool| + 1
  {
    hide SlotStands;
  }

  lemma MagicIsRead(c: Cursor)
    requires c.Valid() && c.pos == 0 && ReadU4(c).value == ClassFileCodec.MAGIC
    ensures |c.data| >= 4 && c.data[0] == 0xCA && c.data[1] == 0xFE && c.data[2] == 0xBA && c.data[3] == 0xBE
    ensures ReadU4(c).rest == Cursor(c.data, 4, true)
  {
  }

  /** An accepted class file is parsed to what its bytes say: head and pool, and
      from where the pool ends the rest, to the last byte. */
  lemma ParseMeans(d: seq<u1>)
    requires Parse(d).Success?
    ensures var f := Parse(d).value;
      exists ends :: HeadStands(d, f.minor, f.major, f.pool, ends) && TailStands(d, ends[|f.pool|], f)
  {
    hide ReadHead, ReadU2, ReadPair, ReadInterfaces, ReadMembers, ReadAttributes, HeadStands, Unsigned2, MembersStand, AttributesStand, IndicesStand;
    var f := Parse(d).value;
    var head := ReadHead(Cursor(d, 0, true)).value;
    var ends := HeadRead(d);
    var access := ReadU2(head.rest);
    var names := ReadPair(access.rest);
    PairRead(access.rest);
    Read2(head.rest);
    var interfaces := ReadInterfaces(names.rest).value;
    InterfacesRead(names.rest);
    var fields := MembersRead(interfaces.rest);
    var afterFields := ReadMembers(interfaces.rest).value.rest;
    var methods := MembersRead(afterFields);
    var attributes := AttributesRead(ReadMembers(afterFields).value.rest);
    var p := ends[|f.pool|];
    assert ListsStand(d, p + 8 + 2 * |f.interfaces|, f, fields, methods, attributes);
    assert TailStands(d, p, f);
  }

  lemma InterfacesRead(c: Cursor)
    requires c.Valid() && ReadInterfaces(c).Success?
    ensures var r := ReadInterfaces(c).value;
      && c.ok && c.pos + 2 <= |c.data| && |r.value| == Unsigned2(c.data, c.pos) && IndicesStand(c.data, c.pos + 2, r.value)
      && r.rest == Cursor(c.data, c.pos + 2 + 2 * |r.value|, true)
  {
    hide ReadU2, ReadIndices, Unsigned2, IndicesStand;
    var count := ReadU2(c);
    WasOk(c);
    Read2(c);
    IndicesRead(count.rest, count.value);
  }
}
