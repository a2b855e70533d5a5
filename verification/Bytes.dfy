/** The byte layer every codec rests on: the unsigned widths of the class file
    format, big endian encoding, a reader that latches on the first short read,
    and a growing writer. */
module Bytes {

  type u1 = x: int | 0 <= x < 0x100
  type u2 = x: int | 0 <= x < 0x1_0000
  type u4 = x: int | 0 <= x < 0x1_0000_0000
  type i4 = x: int | -0x8000_0000 <= x < 0x8000_0000

  // ----- C conversions between widths -----

  /** A cast to u1, u2 or u4 keeps the low bits, also of a negative value. */
  function ToU1(v: int): u1 { v % 0x100 }
  function ToU2(v: int): u2 { v % 0x1_0000 }
  function ToU4(v: int): u4 { v % 0x1_0000_0000 }

  /** Reading an unsigned value back as two's complement. */
  function AsI1(v: u1): int { if v < 0x80 then v else v - 0x100 }
  function AsI2(v: u2): int { if v < 0x8000 then v else v - 0x1_0000 }
  function AsI4(v: u4): i4 { if v < 0x8000_0000 then v else v - 0x1_0000_0000 }

  lemma CastI1(d: int)
    requires FitsI1(d)
    ensures AsI1(ToU1(d)) == d
  {
  }

  lemma CastI2(d: int)
    requires FitsI2(d)
    ensures AsI2(ToU2(d)) == d
  {
  }

  lemma CastI4(d: int)
    requires FitsI4(d)
    ensures AsI4(ToU4(d)) == d
  {
  }

  lemma CastU1(v: u1)
    ensures ToU1(AsI1(v)) == v && FitsI1(AsI1(v))
  {
  }

  lemma CastU2(v: u2)
    ensures ToU2(AsI2(v)) == v && FitsI2(AsI2(v))
  {
  }

  lemma CastU4(v: u4)
    ensures ToU4(AsI4(v)) == v && FitsI4(AsI4(v))
  {
  }

  predicate FitsI1(v: int) { -0x80 <= v < 0x80 }
  predicate FitsI2(v: int) { -0x8000 <= v < 0x8000 }
  predicate FitsI4(v: int) { -0x8000_0000 <= v < 0x8000_0000 }

  // ----- big endian encoding -----

  function U2Bytes(v: u2): (s: seq<u1>)
    ensures |s| == 2
  {
    [v / 0x100, v % 0x100]
  }

  function U4Bytes(v: u4): (s: seq<u1>)
    ensures |s| == 4
  {
    U2Bytes(v / 0x1_0000) + U2Bytes(v % 0x1_0000)
  }

  function U2At(s: seq<u1>, p: nat): u2
    requires p + 2 <= |s|
  {
    (s[p] as int) * 0x100 + s[p + 1]
  }

  function U4At(s: seq<u1>, p: nat): u4
    requires p + 4 <= |s|
  {
    (U2At(s, p) as int) * 0x1_0000 + U2At(s, p + 2)
  }

  // ----- the latching reader, as a value -----

  /** A read past the end clears ok and leaves pos alone; from then on every
      read yields zero. */
  datatype Cursor = Cursor(data: seq<u1>, pos: nat, ok: bool) {
    predicate Valid() { pos <= |data| }
    predicate Has(n: nat) { ok && pos + n <= |data| }
    predicate Exhausted() { pos == |data| }
    function Remaining(): nat
      requires Valid()
    {
      if ok then |data| - pos else 0
    }
  }

  datatype Read<+T> = Read(value: T, rest: Cursor)

  function ReadU1(c: Cursor): (r: Read<u1>)
    requires c.Valid()
    ensures r.rest.Valid() && r.rest.data == c.data
    ensures r.rest.ok <==> c.Has(1)
    ensures r.rest.pos == (if c.Has(1) then c.pos + 1 else c.pos)
  {
    if c.Has(1) then Read(c.data[c.pos], c.(pos := c.pos + 1)) else Read(0, c.(ok := false))
  }

  function ReadU2(c: Cursor): (r: Read<u2>)
    requires c.Valid()
    ensures r.rest.Valid() && r.rest.data == c.data
    ensures r.rest.ok <==> c.Has(2)
    ensures r.rest.pos == (if c.Has(2) then c.pos + 2 else c.pos)
  {
    if c.Has(2) then Read(U2At(c.data, c.pos), c.(pos := c.pos + 2)) else Read(0, c.(ok := false))
  }

  function ReadU4(c: Cursor): (r: Read<u4>)
    requires c.Valid()
    ensures r.rest.Valid() && r.rest.data == c.data
    ensures r.rest.ok <==> c.Has(4)
    ensures r.rest.pos == (if c.Has(4) then c.pos + 4 else c.pos)
  {
    if c.Has(4) then Read(U4At(c.data, c.pos), c.(pos := c.pos + 4)) else Read(0, c.(ok := false))
  }

  function ReadBytes(c: Cursor, n: nat): (r: Read<seq<u1>>)
    requires c.Valid()
    ensures r.rest.Valid() && r.rest.data == c.data
    ensures r.rest.ok <==> c.Has(n)
    ensures r.rest.pos == (if c.Has(n) then c.pos + n else c.pos)
    ensures r.rest.ok ==> |r.value| == n
  {
    if c.Has(n) then Read(c.data[c.pos..c.pos + n], c.(pos := c.pos + n)) else Read([], c.(ok := false))
  }

  // ----- the reader and the writer as the objects the codecs update -----

  class ByteCursor {
    const data: seq<u1>
    var pos: nat
    var ok: bool

    ghost predicate Valid()
      reads this
    {
      pos <= |data|
    }

    function View(): Cursor
      reads this
    {
      Cursor(data, pos, ok)
    }

    constructor (bytes: seq<u1>)
      ensures Valid() && View() == Cursor(bytes, 0, true)
    {
      data := bytes;
      pos := 0;
      ok := true;
    }

    /** Latches ok off when fewer than n bytes are left. */
    method Need(n: nat) returns (enough: bool)
      requires Valid()
      modifies this`ok
      ensures Valid() && enough == old(View()).Has(n)
      ensures ok == enough
    {
      if !ok {
        return false;
      }
      if |data| - pos < n {
        ok := false;
        return false;
      }
      return true;
    }

    method U1() returns (v: u1)
      requires Valid()
      modifies this
      ensures Valid() && Read(v, View()) == ReadU1(old(View()))
    {
      var enough := Need(1);
      if !enough {
        return 0;
      }
      v := data[pos];
      pos := pos + 1;
    }

    method U2() returns (v: u2)
      requires Valid()
      modifies this
      ensures Valid() && Read(v, View()) == ReadU2(old(View()))
    {
      var enough := Need(2);
      if !enough {
        return 0;
      }
      var high: int := data[pos];
      v := high * 0x100 + data[pos + 1];
      pos := pos + 2;
    }

    method U4() returns (v: u4)
      requires Valid()
      modifies this
      ensures Valid() && Read(v, View()) == ReadU4(old(View()))
    {
      var enough := Need(4);
      if !enough {
        return 0;
      }
      var b0: int, b1: int, b2: int := data[pos], data[pos + 1], data[pos + 2];
      v := b0 * 0x100_0000 + b1 * 0x1_0000 + b2 * 0x100 + data[pos + 3];
      pos := pos + 4;
    }

    method Bytes(n: nat) returns (v: seq<u1>)
      requires Valid()
      modifies this
      ensures Valid() && Read(v, View()) == ReadBytes(old(View()), n)
    {
      var enough := Need(n);
      if !enough {
        return [];
      }
      v := data[pos..pos + n];
      pos := pos + n;
    }
  }

  class ByteBuffer {
    var data: seq<u1>

    constructor ()
      ensures data == []
    {
      data := [];
    }

    method U1(v: u1)
      modifies this
      ensures data == old(data) + [v]
    {
      data := data + [v];
    }

    method U2(v: u2)
      modifies this
      ensures data == old(data) + U2Bytes(v)
    {
      data := data + [v / 0x100] + [v % 0x100];
    }

    method U4(v: u4)
      modifies this
      ensures data == old(data) + U4Bytes(v)
    {
      var high, low := v / 0x1_0000, v % 0x1_0000;
      data := data + [high / 0x100] + [high % 0x100] + [low / 0x100] + [low % 0x100];
    }

    method Bytes(v: seq<u1>)
      modifies this
      ensures data == old(data) + v
    {
      data := data + v;
    }
  }

  // ----- what was written is what is read, and the other way round -----

  lemma U2BytesOfU2At(s: seq<u1>, p: nat)
    requires p + 2 <= |s|
    ensures U2Bytes(U2At(s, p)) == s[p..p + 2]
  {
  }

  lemma U4BytesOfU4At(s: seq<u1>, p: nat)
    requires p + 4 <= |s|
    ensures U4Bytes(U4At(s, p)) == s[p..p + 4]
  {
    U2BytesOfU2At(s, p);
    U2BytesOfU2At(s, p + 2);
    assert U4At(s, p) / 0x1_0000 == U2At(s, p) && U4At(s, p) % 0x1_0000 == U2At(s, p + 2);
    assert s[p..p + 4] == s[p..p + 2] + s[p + 2..p + 4];
  }

  /** The text w stands in data at position p. */
  predicate Stands(data: seq<u1>, p: nat, w: seq<u1>) {
    p + |w| <= |data| && data[p..p + |w|] == w
  }

  lemma StandsConcat(data: seq<u1>, p: nat, v: seq<u1>, w: seq<u1>)
    ensures Stands(data, p, v + w) <==> Stands(data, p, v) && Stands(data, p + |v|, w)
  {
    if p + |v + w| <= |data| {
      assert data[p..p + |v + w|] == data[p..p + |v|] + data[p + |v|..p + |v| + |w|];
      if Stands(data, p, v + w) {
        assert data[p..p + |v|] == (v + w)[..|v|] == v;
        assert data[p + |v|..p + |v| + |w|] == (v + w)[|v|..] == w;
      }
    }
  }

  lemma StandsEmpty(data: seq<u1>, p: nat)
    ensures Stands(data, p, []) <==> p <= |data|
  {
  }

  // A successful read finds the encoding of its value standing at the cursor,
  // and an encoding standing at the cursor is read back.

  lemma ReadFindsU1(c: Cursor)
    requires c.Valid() && ReadU1(c).rest.ok
    ensures Stands(c.data, c.pos, [ReadU1(c).value])
  {
  }

  lemma ReadFindsU2(c: Cursor)
    requires c.Valid() && ReadU2(c).rest.ok
    ensures Stands(c.data, c.pos, U2Bytes(ReadU2(c).value))
  {
    U2BytesOfU2At(c.data, c.pos);
  }

  lemma ReadFindsU4(c: Cursor)
    requires c.Valid() && ReadU4(c).rest.ok
    ensures Stands(c.data, c.pos, U4Bytes(ReadU4(c).value))
  {
    hide U4Bytes;
    U4BytesOfU4At(c.data, c.pos);
  }

  lemma ReadFindsBytes(c: Cursor, n: nat)
    requires c.Valid() && ReadBytes(c, n).rest.ok
    ensures Stands(c.data, c.pos, ReadBytes(c, n).value)
  {
  }

  lemma StandingU1IsRead(data: seq<u1>, p: nat, v: u1)
    requires Stands(data, p, [v])
    ensures ReadU1(Cursor(data, p, true)) == Read(v, Cursor(data, p + 1, true))
  {
    assert data[p] == data[p..p + 1][0];
  }

  lemma StandingU2IsRead(data: seq<u1>, p: nat, v: u2)
    requires Stands(data, p, U2Bytes(v))
    ensures ReadU2(Cursor(data, p, true)) == Read(v, Cursor(data, p + 2, true))
  {
    assert data[p] == data[p..p + 2][0] && data[p + 1] == data[p..p + 2][1];
  }

  lemma StandingU4IsRead(data: seq<u1>, p: nat, v: u4)
    requires Stands(data, p, U4Bytes(v))
    ensures ReadU4(Cursor(data, p, true)) == Read(v, Cursor(data, p + 4, true))
  {
    StandsConcat(data, p, U2Bytes(v / 0x1_0000), U2Bytes(v % 0x1_0000));
    StandingU2IsRead(data, p, v / 0x1_0000);
    StandingU2IsRead(data, p + 2, v % 0x1_0000);
    assert v == v / 0x1_0000 * 0x1_0000 + v % 0x1_0000;
    hide Stands, U2Bytes, U4Bytes, U2At;
  }

  lemma StandingBytesAreRead(data: seq<u1>, p: nat, v: seq<u1>)
    requires Stands(data, p, v)
    ensures ReadBytes(Cursor(data, p, true), |v|) == Read(v, Cursor(data, p + |v|, true))
  {
  }
}
