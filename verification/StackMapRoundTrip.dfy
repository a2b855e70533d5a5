/** A StackMapTable that was read is written back byte for byte, and one that
    was written is read back as it was. */
module StackMapRoundTrip {
  import opened Bytes
  import opened Status
  import opened References
  import opened Insertion
  import opened StackMapCodec

  // ----- what was read stands where it was read -----

  lemma TypeParsed(c: Cursor)
    requires c.Valid() && ReadType(c).rest.ok
    ensures Stands(c.data, c.pos, TypeBytes(ReadType(c).value))
    ensures ReadType(c).rest.pos == c.pos + |TypeBytes(ReadType(c).value)|
  {
    hide Stands, U2Bytes;
    var tag := ReadU1(c);
    ReadFindsU1(c);
    if tag.value == OBJECT || tag.value == UNINITIALIZED {
      ReadFindsU2(tag.rest);
      SmallU2(ReadU2(tag.rest).value);
      StandsConcat(c.data, c.pos, [tag.value], U2Bytes(ReadU2(tag.rest).value));
    } else {
      assert [tag.value] + [] == [tag.value];
    }
  }

  lemma SmallU2(v: u2)
    ensures ToU2(v) == v
  {
  }

  lemma {:induction false} TypesParsed(c: Cursor, n: nat)
    requires c.Valid() && ReadTypes(c, n).rest.ok
    ensures Stands(c.data, c.pos, TypesBytes(ReadTypes(c, n).value))
    ensures ReadTypes(c, n).rest.pos == c.pos + |TypesBytes(ReadTypes(c, n).value)|
    decreases n
  {
    hide Stands, TypeBytes, ReadType;
    if n == 0 {
      StandsEmpty(c.data, c.pos);
    } else {
      var front := ReadTypes(c, n - 1);
      TypesParsed(c, n - 1);
      TypeParsed(front.rest);
      var types := ReadTypes(c, n).value;
      assert types[..|types| - 1] == front.value;
      StandsConcat(c.data, c.pos, TypesBytes(front.value), TypeBytes(ReadType(front.rest).value));
    }
  }

  /** The tag and the delta behind it. */
  function HeadBytes(tag: u1, delta: u2): seq<u1> {
    if tag <= 127 then [tag] else [tag] + U2Bytes(delta)
  }

  lemma HeadParsed(c: Cursor)
    requires c.Valid()
    requires var tag := ReadU1(c); ReadDelta(tag.value, tag.rest).rest.ok
    ensures var tag := ReadU1(c); var delta := ReadDelta(tag.value, tag.rest);
      && Stands(c.data, c.pos, HeadBytes(tag.value, delta.value))
      && delta.rest.pos == c.pos + |HeadBytes(tag.value, delta.value)| && delta.rest.ok && c.ok
  {
    hide Stands, U2Bytes;
    var tag := ReadU1(c);
    ReadFindsU1(c);
    if tag.value > 127 {
      ReadFindsU2(tag.rest);
      StandsConcat(c.data, c.pos, [tag.value], U2Bytes(ReadU2(tag.rest).value));
    }
  }

  /** Writing a frame just read starts with the bytes it was read from. */
  lemma HeadWritten(tag: u1, delta: u2, f: Frame)
    requires KindOfTag(tag).Some? && f.kind == KindOfTag(tag).value && f.rawTag == tag && Writable(f)
    requires tag <= 63 ==> delta == tag
    requires 63 < tag <= 127 ==> delta == tag - 64
    requires f.kind == CHOP ==> f.chop == ToU2(251 - tag as int)
    requires f.kind == APPEND ==> |f.locals| == tag as int - 251
    ensures FrameBytes(f, delta) == HeadBytes(tag, delta) +
      match f.kind
      case SAME => []
      case SAME_LOCALS_1_STACK_ITEM => TypesBytes(f.stack[..1])
      case CHOP => []
      case APPEND => TypesBytes(f.locals)
      case FULL => U2Bytes(|f.locals|) + (TypesBytes(f.locals) + (U2Bytes(|f.stack|) + TypesBytes(f.stack)))
  {
    hide U2Bytes, TypesBytes;
  }

  lemma FullParsed(c: Cursor)
    requires c.Valid()
    requires var n := ReadU2(c); var locals := ReadTypes(n.rest, n.value);
             var k := ReadU2(locals.rest); ReadTypes(k.rest, k.value).rest.ok
    ensures var n := ReadU2(c); var locals := ReadTypes(n.rest, n.value);
            var k := ReadU2(locals.rest); var stack := ReadTypes(k.rest, k.value);
            var bytes := U2Bytes(n.value) + (TypesBytes(locals.value) + (U2Bytes(k.value) + TypesBytes(stack.value)));
      Stands(c.data, c.pos, bytes) && stack.rest.pos == c.pos + |bytes| && c.ok
  {
    hide Stands, U2Bytes, TypesBytes, ReadTypes;
    var n := ReadU2(c);
    var locals := ReadTypes(n.rest, n.value);
    var k := ReadU2(locals.rest);
    var stack := ReadTypes(k.rest, k.value);
    ReadFindsU2(c);
    TypesParsed(n.rest, n.value);
    ReadFindsU2(locals.rest);
    TypesParsed(k.rest, k.value);
    StandsConcat(c.data, locals.rest.pos, U2Bytes(k.value), TypesBytes(stack.value));
    StandsConcat(c.data, n.rest.pos, TypesBytes(locals.value), U2Bytes(k.value) + TypesBytes(stack.value));
    StandsConcat(c.data, c.pos, U2Bytes(n.value), TypesBytes(locals.value) + (U2Bytes(k.value) + TypesBytes(stack.value)));
  }

  lemma FrameParsed(c: Cursor, previous: int)
    requires c.Valid() && ReadFrame(c, previous).Some? && ReadFrame(c, previous).value.rest.ok
    ensures var r := ReadFrame(c, previous).value; var delta := Delta(r.value, previous);
      && Writable(r.value) && 0 <= delta <= 0xFFFF
      && Stands(c.data, c.pos, FrameBytes(r.value, delta)) && r.rest.pos == c.pos + |FrameBytes(r.value, delta)|
  {
    hide Stands, U2Bytes, TypesBytes, ReadTypes, FrameBytes;
    var tag := ReadU1(c);
    var delta := ReadDelta(tag.value, tag.rest);
    var r := ReadFrame(c, previous).value;
    HeadParsed(c);
    HeadWritten(tag.value, delta.value, r.value);
    var head := HeadBytes(tag.value, delta.value);
    hide HeadBytes, ReadU1, ReadU2, ReadDelta;
    match r.value.kind
    case SAME => assert head + [] == head;
    case CHOP => assert head + [] == head;
    case SAME_LOCALS_1_STACK_ITEM =>
      TypesParsed(delta.rest, 1);
      assert r.value.stack[..1] == r.value.stack;
      StandsConcat(c.data, c.pos, head, TypesBytes(r.value.stack));
    case APPEND =>
      TypesParsed(delta.rest, |r.value.locals|);
      StandsConcat(c.data, c.pos, head, TypesBytes(r.value.locals));
    case FULL =>
      FullParsed(delta.rest);
      var f := r.value;
      StandsConcat(c.data, c.pos, head, U2Bytes(|f.locals|) + (TypesBytes(f.locals) + (U2Bytes(|f.stack|) + TypesBytes(f.stack))));
  }

  predicate AllWritable(frames: seq<Frame>) {
    forall k :: 0 <= k < |frames| ==> Writable(frames[k])
  }

  lemma {:induction false} PrefixBytes(frames: seq<Frame>, more: seq<Frame>, i: nat)
    requires i <= |frames| && frames <= more && AllWritable(frames) && AllWritable(more)
    ensures FramesBytes(frames, i) == FramesBytes(more, i)
    decreases i
  {
    hide FrameBytes, Writable;
    if i > 0 {
      PrefixBytes(frames, more, i - 1);
    }
  }

  lemma {:induction false} FramesParsed(c: Cursor, n: nat)
    requires c.Valid() && c.ok && ReadFrames(c, n).Some?
    ensures var r := ReadFrames(c, n).value;
      && r.rest.ok && AllWritable(r.value) && FramesBytes(r.value, n).Some?
      && Stands(c.data, c.pos, FramesBytes(r.value, n).value) && r.rest.pos == c.pos + |FramesBytes(r.value, n).value|
    decreases n
  {
    hide Stands, FrameBytes, ReadFrame, Writable;
    if n == 0 {
      StandsEmpty(c.data, c.pos);
    } else {
      var front := ReadFrames(c, n - 1).value;
      FramesParsed(c, n - 1);
      var previous := OffsetBefore(front.value, n - 1);
      FrameParsed(front.rest, previous);
      var last := ReadFrame(front.rest, previous).value;
      var frames := front.value + [last.value];
      assert AllWritable(frames);
      PrefixBytes(front.value, frames, n - 1);
      assert OffsetBefore(frames, n - 1) == previous;
      StandsConcat(c.data, c.pos, FramesBytes(frames, n - 1).value, FrameBytes(last.value, Delta(last.value, previous)));
    }
  }

  /** Writing back what was read gives the payload it was read from. */
  lemma WriteOfParse(payload: seq<u1>)
    requires Parse(payload).Success?
    ensures var frames := Parse(payload).value;
      |frames| < 0x1_0000 && AllWritable(frames) && Write(frames) == Success(payload)
  {
    hide Stands, ReadFrames, FramesBytes, U2Bytes, Writable;
    var c := Cursor(payload, 0, true);
    var count := ReadU2(c);
    ReadFindsU2(c);
    FramesParsed(count.rest, count.value);
    var frames := Parse(payload).value;
    var bytes := FramesBytes(frames, |frames|).value;
    StandsConcat(payload, 0, U2Bytes(|frames|), bytes);
    WholeStands(payload, U2Bytes(|frames|) + bytes);
  }

  lemma WholeStands(data: seq<u1>, w: seq<u1>)
    requires Stands(data, 0, w) && |w| == |data|
    ensures data == w
  {
    assert data[0..|w|] == data;
  }

  // ----- what was written is read back -----

  predicate TidyType(t: VerificationType) {
    if t.tag == OBJECT then t.offset == 0
    else if t.tag == UNINITIALIZED then t.poolIndex == 0 && 0 <= t.offset < 0x1_0000
    else t.poolIndex == 0 && t.offset == 0
  }

  predicate TidyTypes(types: seq<VerificationType>) {
    forall i :: 0 <= i < |types| ==> TidyType(types[i])
  }

  /** A frame with just the parts its kind has. */
  predicate Tidy(f: Frame) {
    && TidyTypes(f.locals) && TidyTypes(f.stack) && |f.locals| < 0x1_0000 && |f.stack| < 0x1_0000
    && match f.kind
       case SAME => f.locals == [] && f.stack == [] && f.chop == 0
       case SAME_LOCALS_1_STACK_ITEM => f.locals == [] && |f.stack| == 1 && f.chop == 0
       case CHOP => f.locals == [] && f.stack == [] && 1 <= f.chop <= 3
       case APPEND => 1 <= |f.locals| <= 3 && f.stack == [] && f.chop == 0
       case FULL => f.chop == 0
  }

  /** The tag a frame is written with. */
  function TagOf(f: Frame, delta: int): u1 {
    match f.kind
    case SAME => if f.rawTag <= 63 && 0 <= delta <= 63 then delta else 251
    case SAME_LOCALS_1_STACK_ITEM => if f.rawTag <= 127 && 0 <= delta <= 63 then 64 + delta else 247
    case CHOP => ToU1(251 - f.chop)
    case APPEND => ToU1(251 + |f.locals|)
    case FULL => 255
  }

  lemma TypeWritten(data: seq<u1>, p: nat, t: VerificationType)
    requires TidyType(t) && Stands(data, p, TypeBytes(t))
    ensures ReadType(Cursor(data, p, true)) == Read(t, Cursor(data, p + |TypeBytes(t)|, true))
  {
    hide Stands, U2Bytes;
    if t.tag == OBJECT {
      StandsConcat(data, p, [t.tag], U2Bytes(t.poolIndex));
      StandingU1IsRead(data, p, t.tag);
      StandingU2IsRead(data, p + 1, t.poolIndex);
    } else if t.tag == UNINITIALIZED {
      SmallU2(t.offset);
      StandsConcat(data, p, [t.tag], U2Bytes(t.offset));
      StandingU1IsRead(data, p, t.tag);
      StandingU2IsRead(data, p + 1, t.offset);
    } else {
      assert TypeBytes(t) == [t.tag];
      StandingU1IsRead(data, p, t.tag);
    }
  }

  lemma {:induction false} TypesWritten(data: seq<u1>, p: nat, types: seq<VerificationType>)
    requires TidyTypes(types) && Stands(data, p, TypesBytes(types))
    ensures ReadTypes(Cursor(data, p, true), |types|) == Read(types, Cursor(data, p + |TypesBytes(types)|, true))
    decreases |types|
  {
    hide TypeBytes, ReadType, TidyType;
    if types == [] {
      StandsFits(data, p);
    } else {
      var n := |types| - 1;
      StandsConcat(data, p, TypesBytes(types[..n]), TypeBytes(types[n]));
      hide Stands;
      TypesWritten(data, p, types[..n]);
      TypeWritten(data, p + |TypesBytes(types[..n])|, types[n]);
      assert types == types[..n] + [types[n]];
    }
  }

  lemma StandsFits(data: seq<u1>, p: nat)
    requires Stands(data, p, [])
    ensures p <= |data|
  {
  }

  lemma TidyIsWritable(f: Frame)
    requires Tidy(f)
    ensures Writable(f)
  {
  }

  lemma FrameHead(f: Frame, delta: u2)
    requires Tidy(f)
    ensures Writable(f)
    ensures var tag := TagOf(f, delta);
      && KindOfTag(tag) == Some(f.kind)
      && (tag <= 63 ==> delta == tag) && (63 < tag <= 127 ==> delta == tag - 64)
      && (f.kind == CHOP ==> f.chop == ToU2(251 - tag as int)) && (f.kind == APPEND ==> |f.locals| == tag as int - 251)
      && FrameBytes(f, delta) == FrameBytes(f.(rawTag := tag), delta)
  {
    hide U2Bytes, TypesBytes, TidyTypes;
  }

  lemma HeadRead(data: seq<u1>, p: nat, tag: u1, delta: u2)
    requires Stands(data, p, HeadBytes(tag, delta))
    requires tag <= 63 ==> delta == tag
    requires 63 < tag <= 127 ==> delta == tag - 64
    ensures ReadU1(Cursor(data, p, true)) == Read(tag, Cursor(data, p + 1, true))
    ensures ReadDelta(tag, Cursor(data, p + 1, true)) == Read(delta, Cursor(data, p + |HeadBytes(tag, delta)|, true))
  {
    hide U2Bytes;
    if tag > 127 {
      StandsConcat(data, p, [tag], U2Bytes(delta));
      StandingU2IsRead(data, p + 1, delta);
    }
    StandingU1IsRead(data, p, tag);
  }

  lemma FullRead(data: seq<u1>, p: nat, f: Frame)
    requires |f.locals| < 0x1_0000 && |f.stack| < 0x1_0000 && TidyTypes(f.locals) && TidyTypes(f.stack)
    requires Stands(data, p, U2Bytes(|f.locals|) + (TypesBytes(f.locals) + (U2Bytes(|f.stack|) + TypesBytes(f.stack))))
    ensures var n := ReadU2(Cursor(data, p, true));
      && n == Read(|f.locals|, Cursor(data, p + 2, true))
      && var locals := ReadTypes(n.rest, n.value); var q := p + 2 + |TypesBytes(f.locals)|;
      && locals == Read(f.locals, Cursor(data, q, true))
      && var k := ReadU2(locals.rest);
      && k == Read(|f.stack|, Cursor(data, q + 2, true))
      && ReadTypes(k.rest, k.value) == Read(f.stack, Cursor(data, q + 2 + |TypesBytes(f.stack)|, true))
  {
    hide Stands, U2Bytes, TypesBytes, TidyTypes, ReadTypes;
    var rest := U2Bytes(|f.stack|) + TypesBytes(f.stack);
    StandsConcat(data, p, U2Bytes(|f.locals|), TypesBytes(f.locals) + rest);
    StandsConcat(data, p + 2, TypesBytes(f.locals), rest);
    var q := p + 2 + |TypesBytes(f.locals)|;
    StandsConcat(data, q, U2Bytes(|f.stack|), TypesBytes(f.stack));
    StandingU2IsRead(data, p, |f.locals|);
    TypesWritten(data, p + 2, f.locals);
    StandingU2IsRead(data, q, |f.stack|);
    TypesWritten(data, q + 2, f.stack);
  }

  lemma FrameWritten(data: seq<u1>, p: nat, f: Frame, previous: int)
    requires Tidy(f) && 0 <= Delta(f, previous) <= 0xFFFF && Writable(f)
    requires Stands(data, p, FrameBytes(f, Delta(f, previous)))
    ensures var delta := Delta(f, previous);
      ReadFrame(Cursor(data, p, true), previous)
      == Some(Read(f.(rawTag := TagOf(f, delta)), Cursor(data, p + |FrameBytes(f, delta)|, true)))
  {
    hide Stands, U2Bytes, TypesBytes, ReadTypes, FrameBytes, TidyTypes;
    var delta := Delta(f, previous);
    var tag := TagOf(f, delta);
    FrameHead(f, delta);
    var g := f.(rawTag := tag);
    HeadWritten(tag, delta, g);
    var head := HeadBytes(tag, delta);
    hide TagOf, ReadU1, ReadU2, ReadDelta;
    match f.kind
    case SAME =>
      assert head + [] == head;
      HeadRead(data, p, tag, delta);
    case CHOP =>
      assert head + [] == head;
      HeadRead(data, p, tag, delta);
    case SAME_LOCALS_1_STACK_ITEM =>
      assert f.stack[..1] == f.stack;
      StandsConcat(data, p, head, TypesBytes(f.stack));
      HeadRead(data, p, tag, delta);
      TypesWritten(data, p + |head|, f.stack);
    case APPEND =>
      StandsConcat(data, p, head, TypesBytes(f.locals));
      HeadRead(data, p, tag, delta);
      TypesWritten(data, p + |head|, f.locals);
    case FULL =>
      StandsConcat(data, p, head, U2Bytes(|f.locals|) + (TypesBytes(f.locals) + (U2Bytes(|f.stack|) + TypesBytes(f.stack))));
      HeadRead(data, p, tag, delta);
      FullRead(data, p + |head|, f);
  }

  predicate AllTidy(frames: seq<Frame>) {
    forall k :: 0 <= k < |frames| ==> Tidy(frames[k])
  }

  /** The frames with the tags they were written with. */
  function Retagged(frames: seq<Frame>): (r: seq<Frame>)
    ensures |r| == |frames|
    ensures forall k :: 0 <= k < |r| ==> r[k] == frames[k].(rawTag := r[k].rawTag)
  {
    seq(|frames|, k requires 0 <= k < |frames| =>
      frames[k].(rawTag := TagOf(frames[k], Delta(frames[k], OffsetBefore(frames, k)))))
  }

  lemma AllTidyWritable(frames: seq<Frame>)
    requires AllTidy(frames)
    ensures AllWritable(frames)
  {
    hide Tidy, Writable;
    forall k | 0 <= k < |frames| ensures Writable(frames[k]) {
      TidyIsWritable(frames[k]);
    }
  }

  lemma {:induction false} FramesWritten(data: seq<u1>, p: nat, frames: seq<Frame>, n: nat)
    requires n <= |frames| && AllTidy(frames) && AllWritable(frames) && FramesBytes(frames, n).Some?
    requires Stands(data, p, FramesBytes(frames, n).value)
    ensures ReadFrames(Cursor(data, p, true), n)
         == Some(Read(Retagged(frames)[..n], Cursor(data, p + |FramesBytes(frames, n).value|, true)))
    decreases n
  {
    hide FrameBytes, ReadFrame, Writable, Tidy, TagOf, Retagged, Stands;
    var all := Retagged(frames);
    if n == 0 {
      StandsFits(data, p);
      assert all[..0] == [];
    } else {
      var front := FramesBytes(frames, n - 1).value;
      var f, previous := frames[n - 1], OffsetBefore(frames, n - 1);
      StandsConcat(data, p, front, FrameBytes(f, Delta(f, previous)));
      FramesWritten(data, p, frames, n - 1);
      FrameWritten(data, p + |front|, f, previous);
      RetaggedAt(frames, n - 1);
      SameOffsetBefore(frames, n - 1);
      assert all[..n] == all[..n - 1] + [all[n - 1]];
    }
  }

  lemma RetaggedAt(frames: seq<Frame>, k: nat)
    requires k < |frames|
    ensures Retagged(frames)[k] == frames[k].(rawTag := TagOf(frames[k], Delta(frames[k], OffsetBefore(frames, k))))
  {
  }

  lemma SameOffsetBefore(frames: seq<Frame>, k: nat)
    requires k < |frames|
    ensures OffsetBefore(Retagged(frames)[..k], k) == OffsetBefore(frames, k)
  {
    hide TagOf;
  }

  /** Reading back what was written gives the same frames, up to the choice
      between a compact and a long form. */
  lemma ParseOfWrite(frames: seq<Frame>)
    requires |frames| < 0x1_0000 && AllTidy(frames) && AllWritable(frames) && Write(frames).Success?
    ensures Parse(Write(frames).value) == Success(Retagged(frames))
  {
    hide Stands, ReadFrames, FramesBytes, U2Bytes, Writable, Tidy;
    var bytes := FramesBytes(frames, |frames|).value;
    var payload := Write(frames).value;
    StandsItself(payload);
    StandsConcat(payload, 0, U2Bytes(|frames|), bytes);
    StandingU2IsRead(payload, 0, |frames|);
    FramesWritten(payload, 2, frames, |frames|);
    assert Retagged(frames)[..|frames|] == Retagged(frames);
  }

  lemma StandsItself(data: seq<u1>)
    ensures Stands(data, 0, data)
  {
  }

  /** An increasing table always can be written: no delta is negative or too
      large as long as the code is legal. */
  lemma {:induction false} IncreasingIsWritten(frames: seq<Frame>, i: nat)
    requires i <= |frames| && AllWritable(frames) && FramesIncrease(frames)
    requires forall k :: 0 <= k < |frames| ==> 0 <= frames[k].offset <= 0xFFFF
    ensures FramesBytes(frames, i).Some?
    decreases i
  {
    hide FrameBytes, Writable;
    if i > 0 {
      IncreasingIsWritten(frames, i - 1);
    }
  }
}
