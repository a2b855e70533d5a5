/** A Code attribute that was parsed is written back, except that a count the
    payload ended before is written where there was none. */
module CodeParsed {
  import opened Bytes
  import opened Status
  import opened References
  import opened ClassFileCodec
  import opened ClassFileRoundTrip
  import opened CodeStore

  // ----- what a payload says of itself -----

  function CodeEnd(p: seq<u1>): nat
    requires |p| >= 8
  {
    8 + U4At(p, 4)
  }

  /** The payload goes on far enough to hold its exception count. */
  predicate ExceptionCountThere(p: seq<u1>) {
    |p| >= 8 && CodeEnd(p) + 2 <= |p|
  }

  function ExceptionsEnd(p: seq<u1>): nat
    requires ExceptionCountThere(p)
  {
    CodeEnd(p) + 2 + 8 * U2At(p, CodeEnd(p))
  }

  /** And far enough to hold its attribute count. */
  predicate CountsThere(p: seq<u1>) {
    ExceptionCountThere(p) && ExceptionsEnd(p) + 2 <= |p|
  }

  /** The bytes of the counts the payload lacks. */
  function Lacking(p: seq<u1>): seq<u1> {
    if CountsThere(p) then [] else if ExceptionCountThere(p) then [0, 0] else [0, 0, 0, 0]
  }

  // ----- the parts -----

  lemma ExceptionParsed(c: Cursor)
    requires c.Valid() && ReadException(c).rest.ok
    ensures Found(c, ExceptionBytes(ReadException(c).value), ReadException(c).rest)
  {
    hide Found, ReadPair, U2Bytes;
    var range := ReadPair(c);
    var handler := ReadPair(range.rest);
    AccessOk(range.rest);
    FoundPair(c);
    FoundPair(range.rest);
    FoundThen(c, U2Bytes(range.value.0) + U2Bytes(range.value.1), range.rest,
              U2Bytes(handler.value.0) + U2Bytes(handler.value.1), handler.rest);
  }

  lemma {:induction false} ExceptionsParsed(c: Cursor, n: nat)
    requires c.Valid() && c.ok && ReadExceptions(c, n).Success?
    ensures var r := ReadExceptions(c, n).value;
      Found(c, ExceptionsBytes(r.value), r.rest) && r.rest.pos == c.pos + 8 * n && r.rest.ok
    decreases n
  {
    hide Found, ReadException, ExceptionBytes;
    if n == 0 {
      FoundNothing(c);
    } else {
      var front := ReadExceptions(c, n - 1).value;
      var r := ReadExceptions(c, n).value;
      ExceptionsParsed(c, n - 1);
      ExceptionParsed(front.rest);
      assert r.value[..n - 1] == front.value;
      FoundThen(c, ExceptionsBytes(front.value), front.rest, ExceptionBytes(r.value[n - 1]), r.rest);
      EightFurther(front.rest, ExceptionBytes(r.value[n - 1]), r.rest);
    }
  }

  lemma EightFurther(c: Cursor, bytes: seq<u1>, rest: Cursor)
    requires Found(c, bytes, rest)
    ensures rest.pos == c.pos + |bytes| && rest.ok
  {
  }

  /** Everything up to the exception count. */
  lemma FrontParsed(p: seq<u1>)
    requires ParseCode(p).Success?
    ensures var c := ParseCode(p).value; var rest := ReadBytes(Cursor(p, 8, true), |c.code|).rest;
      && |p| >= 8 && |c.code| == U4At(p, 4)
      && Found(Cursor(p, 0, true), (U2Bytes(c.maxStack) + U2Bytes(c.maxLocals)) + (U4Bytes(|c.code|) + c.code), rest)
      && rest == Cursor(p, CodeEnd(p), true) && rest.Valid()
  {
    hide Found, U2Bytes, U4Bytes, ReadPair, ReadExceptions, ReadNested;
    var start := Cursor(p, 0, true);
    var maxes := ReadPair(start);
    var length := ReadU4(maxes.rest);
    var code := ReadBytes(length.rest, length.value);
    PairEnds(start);
    assert length.rest == Cursor(p, 8, true);
    FoundPair(start);
    FoundU4(maxes.rest);
    FoundBytes(length.rest, length.value);
    FoundThen(maxes.rest, U4Bytes(length.value), length.rest, code.value, code.rest);
    FoundThen(start, U2Bytes(maxes.value.0) + U2Bytes(maxes.value.1), maxes.rest, U4Bytes(length.value) + code.value, code.rest);
  }

  lemma PairEnds(c: Cursor)
    requires c.Valid()
    ensures ReadPair(c).rest.ok ==> ReadPair(c).rest == Cursor(c.data, c.pos + 4, true)
  {
  }

  lemma ReadCount(p: seq<u1>, at: nat)
    requires at <= |p|
    ensures var count := ReadU2(Cursor(p, at, true));
      if at + 2 <= |p| then count == Read(U2At(p, at), Cursor(p, at + 2, true)) else count == Read(0, Cursor(p, at, false))
  {
  }

  lemma NothingRead(c: Cursor)
    requires c.Valid() && !c.ok
    ensures ReadExceptions(c, 0) == Success(Read([], c)) && ReadNested(c) == Success(Read([], c))
  {
  }

  lemma NestedParsed(c: Cursor)
    requires c.Valid() && c.ok && ReadNested(c).Success?
    ensures var r := ReadNested(c).value;
      && AttributesWritable(r.value) && |r.value| < 0x1_0000
      && (c.Has(2) ==> Found(c, AttributesBytes(r.value), r.rest))
      && (!c.Has(2) ==> r.value == [] && r.rest.pos == c.pos)
  {
    hide Found, AttributesBytes, AttributeWritable;
    if c.Has(2) {
      assert ReadNested(c) == ReadAttributes(c);
      AttributesParsed(c);
    }
  }

  lemma NoneAsBytes()
    ensures AttributesBytes([]) == [0, 0] && ExceptionsBytes([]) == [] && U2Bytes(0) == [0, 0]
  {
  }

  // ----- the whole -----

  /** What was read behind the code, up to the end of the payload. */
  lemma BackParsed(p: seq<u1>)
    requires ParseCode(p).Success? && |p| >= 8 && CodeEnd(p) <= |p|
    requires ReadBytes(Cursor(p, 8, true), U4At(p, 4)).rest == Cursor(p, CodeEnd(p), true)
    ensures var c := ParseCode(p).value;
      var count := ReadU2(Cursor(p, CodeEnd(p), true));
      var exceptions := ReadExceptions(count.rest, count.value);
      && exceptions.Success? && exceptions.value.value == c.exceptions && |c.exceptions| == count.value
      && ReadNested(exceptions.value.rest).Success?
      && ReadNested(exceptions.value.rest).value.value == c.attributes
      && ReadNested(exceptions.value.rest).value.rest.pos == |p|
  {
    hide ReadExceptions, ReadNested;
    assert ReadPair(Cursor(p, 0, true)).rest == Cursor(p, 4, true);
    assert ReadU4(Cursor(p, 4, true)) == Read(U4At(p, 4), Cursor(p, 8, true));
  }

  lemma TablesParsed(p: seq<u1>)
    requires ParseCode(p).Success? && |p| >= 8 && CodeEnd(p) <= |p|
    requires ReadBytes(Cursor(p, 8, true), U4At(p, 4)).rest == Cursor(p, CodeEnd(p), true)
    ensures var c := ParseCode(p).value;
      && |c.exceptions| < 0x1_0000 && |c.attributes| < 0x1_0000 && AttributesWritable(c.attributes)
      && (U2Bytes(|c.exceptions|) + ExceptionsBytes(c.exceptions)) + AttributesBytes(c.attributes)
         == p[CodeEnd(p)..] + Lacking(p)
  {
    hide Found, U2Bytes, ReadU2, ReadExceptions, ReadNested, ExceptionsBytes, AttributesBytes, ParseCode, AttributeWritable;
    var c := ParseCode(p).value;
    var at := Cursor(p, CodeEnd(p), true);
    var count := ReadU2(at);
    BackParsed(p);
    ReadCount(p, CodeEnd(p));
    NoneAsBytes();
    var rest := ReadExceptions(count.rest, count.value).value.rest;
    if ExceptionCountThere(p) {
      FoundU2(at);
      ExceptionsParsed(count.rest, count.value);
      NestedParsed(rest);
      var table := U2Bytes(|c.exceptions|) + ExceptionsBytes(c.exceptions);
      FoundThen(at, U2Bytes(count.value), count.rest, ExceptionsBytes(c.exceptions), rest);
      if CountsThere(p) {
        FoundThen(at, table, rest, AttributesBytes(c.attributes), ReadNested(rest).value.rest);
        FoundRest(at, table + AttributesBytes(c.attributes), ReadNested(rest).value.rest);
      } else {
        FoundRest(at, table, rest);
      }
    } else {
      NothingRead(count.rest);
    }
  }

  lemma FoundRest(c: Cursor, bytes: seq<u1>, rest: Cursor)
    requires Found(c, bytes, rest) && rest.pos == |c.data|
    ensures bytes == c.data[c.pos..]
  {
  }

  /** A payload that is accepted is written back with the counts it lacked, so it
      comes back byte for byte exactly if it lacked none. */
  lemma CodeOfParse(p: seq<u1>)
    requires ParseCode(p).Success?
    ensures CodeWritable(ParseCode(p).value)
    ensures CodeBytes(ParseCode(p).value) == p + Lacking(p)
    ensures CodeBytes(ParseCode(p).value) == p <==> CountsThere(p)
  {
    hide Found, U2Bytes, U4Bytes, ExceptionsBytes, AttributesBytes, ParseCode, AttributeWritable, CountsThere, ExceptionCountThere;
    var c := ParseCode(p).value;
    FrontParsed(p);
    TablesParsed(p);
    var front := (U2Bytes(c.maxStack) + U2Bytes(c.maxLocals)) + (U4Bytes(|c.code|) + c.code);
    var tables := (U2Bytes(|c.exceptions|) + ExceptionsBytes(c.exceptions)) + AttributesBytes(c.attributes);
    FoundFront(p, front, Cursor(p, CodeEnd(p), true));
    assert CodeBytes(c) == front + tables;
    assert p == p[..CodeEnd(p)] + p[CodeEnd(p)..];
  }

  lemma FoundFront(p: seq<u1>, bytes: seq<u1>, rest: Cursor)
    requires Found(Cursor(p, 0, true), bytes, rest) && rest.Valid()
    ensures bytes == p[..rest.pos]
  {
  }

  /** A payload that ends before its exception
      count is accepted, and is written back four bytes longer. */
  lemma CutPayloadIsAccepted()
    ensures var cut := [0, 1, 0, 1, 0, 0, 0, 1, 177]; var c := CodeAttribute(1, 1, [177], [], []);
      ParseCode(cut) == Success(c) && CodeWritable(c) && |CodeBytes(c)| == 13
  {
    var cut: seq<u1> := [0, 1, 0, 1, 0, 0, 0, 1, 177];
    assert cut[8..9] == [177];
    assert ReadPair(Cursor(cut, 0, true)) == Read((1, 1), Cursor(cut, 4, true));
    assert ReadU4(Cursor(cut, 4, true)) == Read(1, Cursor(cut, 8, true));
    assert ReadBytes(Cursor(cut, 8, true), 1) == Read([177], Cursor(cut, 9, true));
  }

}
