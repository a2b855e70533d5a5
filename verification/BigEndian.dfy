/** Numbers as the class file format stores them, highest byte first, written out
    byte by byte (section 4 of the JVMS), and that the cursor reads just those. */
module BigEndian {
  import opened Bytes

  function Unsigned2(d: seq<u1>, p: nat): int
    requires p + 2 <= |d|
  {
    256 * d[p] as int + d[p + 1] as int
  }

  function Signed1(d: seq<u1>, p: nat): int
    requires p + 1 <= |d|
  {
    if d[p] < 128 then d[p] as int else d[p] as int - 256
  }

  function Signed2(d: seq<u1>, p: nat): int
    requires p + 2 <= |d|
  {
    if d[p] < 128 then Unsigned2(d, p) else Unsigned2(d, p) - 65536
  }

  function Unsigned4(d: seq<u1>, p: nat): int
    requires p + 4 <= |d|
  {
    65536 * Unsigned2(d, p) + Unsigned2(d, p + 2)
  }

  function Signed4(d: seq<u1>, p: nat): int
    requires p + 4 <= |d|
  {
    if d[p] < 128 then Unsigned4(d, p) else Unsigned4(d, p) - 4294967296
  }

  lemma Read1(c: Cursor)
    requires c.Valid() && ReadU1(c).rest.ok
    ensures var r := ReadU1(c);
      && c.pos + 1 <= |c.data| && r.rest == Cursor(c.data, c.pos + 1, true) && r.value == c.data[c.pos]
      && AsI1(r.value) == Signed1(c.data, c.pos)
  {
  }

  lemma Read2(c: Cursor)
    requires c.Valid() && ReadU2(c).rest.ok
    ensures var r := ReadU2(c);
      && c.pos + 2 <= |c.data| && r.rest == Cursor(c.data, c.pos + 2, true) && r.value == Unsigned2(c.data, c.pos)
      && AsI2(r.value) == Signed2(c.data, c.pos)
  {
  }

  lemma Read4(c: Cursor)
    requires c.Valid() && ReadU4(c).rest.ok
    ensures var r := ReadU4(c);
      && c.pos + 4 <= |c.data| && r.rest == Cursor(c.data, c.pos + 4, true)
      && r.value == Unsigned4(c.data, c.pos) && AsI4(r.value) == Signed4(c.data, c.pos)
  {
  }

  lemma ReadSlice(c: Cursor, n: nat)
    requires c.Valid() && ReadBytes(c, n).rest.ok
    ensures var r := ReadBytes(c, n);
      && c.pos + n <= |c.data| && r.rest == Cursor(c.data, c.pos + n, true) && r.value == c.data[c.pos..c.pos + n] && c.ok
  {
  }

  lemma WasOk(c: Cursor)
    requires c.Valid()
    ensures ReadU1(c).rest.ok || ReadU2(c).rest.ok || ReadU4(c).rest.ok ==> c.ok
  {
  }

  /** What is written says the same when it is read so. */
  lemma WrittenHighFirst(v: u2, w: u4)
    ensures Unsigned2(U2Bytes(v), 0) == v && Unsigned4(U4Bytes(w), 0) == w
  {
  }
}
