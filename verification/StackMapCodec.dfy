/** The StackMapTable attribute (section 4.7.4 of the JVMS): its bytes, and that
    reading and writing them undo each other. */
module StackMapCodec {
  import opened Bytes
  import opened Status
  import opened References
  import opened Insertion

  // ----- writing -----

  function TypeBytes(t: VerificationType): seq<u1> {
    [t.tag] + (if t.tag == OBJECT then U2Bytes(t.poolIndex)
               else if t.tag == UNINITIALIZED then U2Bytes(ToU2(t.offset)) else [])
  }

  function TypesBytes(types: seq<VerificationType>): seq<u1>
    decreases |types|
  {
    if types == [] then [] else TypesBytes(types[..|types| - 1]) + TypeBytes(types[|types| - 1])
  }

  /** How far behind its predecessor a frame stands; the first one's predecessor
      is taken to be at -1. */
  function Delta(f: Frame, previous: int): int {
    f.offset - previous - 1
  }

  predicate Writable(f: Frame) {
    && (f.kind == SAME_LOCALS_1_STACK_ITEM ==> |f.stack| > 0)
    && |f.locals| < 0x1_0000 && |f.stack| < 0x1_0000
  }

  /** The compact form is kept while it can hold the delta. */
  function FrameBytes(f: Frame, delta: u2): seq<u1>
    requires Writable(f)
  {
    match f.kind
    case SAME => if f.rawTag <= 63 && delta <= 63 then [ToU1(delta)] else [251] + U2Bytes(delta)
    case SAME_LOCALS_1_STACK_ITEM =>
      (if f.rawTag <= 127 && delta <= 63 then [ToU1(64 + delta)] else [247] + U2Bytes(delta)) + TypesBytes(f.stack[..1])
    case CHOP => [ToU1(251 - f.chop)] + U2Bytes(delta)
    case APPEND => [ToU1(251 + |f.locals|)] + U2Bytes(delta) + TypesBytes(f.locals)
    case FULL =>
      [255] + U2Bytes(delta) + U2Bytes(|f.locals|) + TypesBytes(f.locals) + U2Bytes(|f.stack|) + TypesBytes(f.stack)
  }

  function OffsetBefore(frames: seq<Frame>, i: nat): int
    requires i <= |frames|
  {
    if i == 0 then -1 else frames[i - 1].offset
  }

  /** The first i frames, or nothing if a delta does not fit. */
  function FramesBytes(frames: seq<Frame>, i: nat): Option<seq<u1>>
    requires i <= |frames| && forall k :: 0 <= k < |frames| ==> Writable(frames[k])
  {
    if i == 0 then Some([])
    else
      var delta := Delta(frames[i - 1], OffsetBefore(frames, i - 1));
      match FramesBytes(frames, i - 1)
      case None => None
      case Some(bytes) => if 0 <= delta <= 0xFFFF then Some(bytes + FrameBytes(frames[i - 1], delta)) else None
  }

  function Write(frames: seq<Frame>): Result<seq<u1>>
    requires |frames| < 0x1_0000 && forall k :: 0 <= k < |frames| ==> Writable(frames[k])
  {
    match FramesBytes(frames, |frames|)
    case None => Failure(LIMIT_EXCEEDED)
    case Some(bytes) => Success(U2Bytes(|frames|) + bytes)
  }

  // ----- reading -----

  function ReadType(c: Cursor): (r: Read<VerificationType>)
    requires c.Valid()
    ensures r.rest.Valid() && r.rest.data == c.data && (r.rest.ok ==> c.ok)
  {
    var tag := ReadU1(c);
    if tag.value == OBJECT then var index := ReadU2(tag.rest); Read(VerificationType(OBJECT, index.value, 0), index.rest)
    else if tag.value == UNINITIALIZED then
      var offset := ReadU2(tag.rest); Read(VerificationType(UNINITIALIZED, 0, offset.value), offset.rest)
    else Read(VerificationType(tag.value, 0, 0), tag.rest)
  }

  function ReadTypes(c: Cursor, n: nat): (r: Read<seq<VerificationType>>)
    requires c.Valid()
    ensures r.rest.Valid() && r.rest.data == c.data && (r.rest.ok ==> c.ok) && |r.value| == n
    decreases n
  {
    if n == 0 then Read([], c)
    else
      var front := ReadTypes(c, n - 1);
      var last := ReadType(front.rest);
      Read(front.value + [last.value], last.rest)
  }

  /** Tags 128 to 246 are reserved. */
  function KindOfTag(tag: u1): Option<FrameKind> {
    if tag <= 63 || tag == 251 then Some(SAME)
    else if tag <= 127 || tag == 247 then Some(SAME_LOCALS_1_STACK_ITEM)
    else if tag < 247 then None
    else if tag <= 250 then Some(CHOP)
    else if tag <= 254 then Some(APPEND)
    else Some(FULL)
  }

  function ReadDelta(tag: u1, c: Cursor): (r: Read<u2>)
    requires c.Valid()
    ensures r.rest.Valid() && r.rest.data == c.data && (r.rest.ok ==> c.ok)
  {
    if tag <= 63 then Read(tag, c) else if tag <= 127 then Read(tag - 64, c) else ReadU2(c)
  }

  /** A frame; a cursor that has run out is left for the caller to notice. */
  function ReadFrame(c: Cursor, previous: int): (r: Option<Read<Frame>>)
    requires c.Valid()
    ensures r.Some? ==> r.value.rest.Valid() && r.value.rest.data == c.data && (r.value.rest.ok ==> c.ok)
  {
    var tag := ReadU1(c);
    match KindOfTag(tag.value)
    case None => None
    case Some(kind) =>
      var delta := ReadDelta(tag.value, tag.rest);
      var offset := previous + delta.value + 1;
      match kind
      case SAME => Some(Read(Frame(tag.value, SAME, offset, 0, [], []), delta.rest))
      case SAME_LOCALS_1_STACK_ITEM =>
        var stack := ReadTypes(delta.rest, 1);
        Some(Read(Frame(tag.value, kind, offset, 0, [], stack.value), stack.rest))
      case CHOP => Some(Read(Frame(tag.value, CHOP, offset, ToU2(251 - tag.value as int), [], []), delta.rest))
      case APPEND =>
        var locals := ReadTypes(delta.rest, if tag.value >= 251 then tag.value - 251 else 0);
        Some(Read(Frame(tag.value, APPEND, offset, 0, locals.value, []), locals.rest))
      case FULL =>
        var nLocals := ReadU2(delta.rest);
        var locals := ReadTypes(nLocals.rest, nLocals.value);
        var nStack := ReadU2(locals.rest);
        var stack := ReadTypes(nStack.rest, nStack.value);
        Some(Read(Frame(tag.value, FULL, offset, 0, locals.value, stack.value), stack.rest))
  }

  /** n frames; nothing if one is reserved or cut short. */
  function ReadFrames(c: Cursor, n: nat): (r: Option<Read<seq<Frame>>>)
    requires c.Valid()
    ensures r.Some? ==> r.value.rest.Valid() && r.value.rest.data == c.data && (r.value.rest.ok ==> c.ok) && |r.value.value| == n
    decreases n
  {
    if n == 0 then Some(Read([], c))
    else match ReadFrames(c, n - 1)
         case None => None
         case Some(front) =>
           match ReadFrame(front.rest, OffsetBefore(front.value, n - 1))
           case None => None
           case Some(last) => if last.rest.ok then Some(Read(front.value + [last.value], last.rest)) else None
  }

  function Parse(payload: seq<u1>): Result<seq<Frame>> {
    var count := ReadU2(Cursor(payload, 0, true));
    if !count.rest.ok then Failure(TRUNCATED)
    else match ReadFrames(count.rest, count.value)
         case None => Failure(TRUNCATED)
         case Some(frames) => if frames.rest.Exhausted() then Success(frames.value) else Failure(TRAILING_BYTES)
  }

  // ----- as they run -----

  method ReadTypeRun(c: ByteCursor, n: nat) returns (types: seq<VerificationType>, ok: bool)
    requires c.Valid()
    modifies c
    ensures c.Valid() && (!ok ==> !ReadTypes(old(c.View()), n).rest.ok)
    ensures ok ==> Read(types, c.View()) == ReadTypes(old(c.View()), n)
  {
    hide ReadU1, ReadU2;
    types := [];
    for i := 0 to n
      invariant c.Valid() && Read(types, c.View()) == ReadTypes(old(c.View()), i)
    {
      var tag := c.U1();
      var t := VerificationType(tag, 0, 0);
      if tag == OBJECT {
        var index := c.U2();
        t := t.(poolIndex := index);
      } else if tag == UNINITIALIZED {
        var offset := c.U2();
        t := t.(offset := offset);
      }
      types := types + [t];
      if !c.ok {
        TypesStayShort(old(c.View()), i + 1, n);
        return types, false;
      }
    }
    return types, true;
  }

  lemma {:induction false} TypesStayShort(c: Cursor, i: nat, n: nat)
    requires c.Valid() && i <= n && !ReadTypes(c, i).rest.ok
    ensures !ReadTypes(c, n).rest.ok
    decreases n
  {
    if i < n {
      TypesStayShort(c, i, n - 1);
    }
  }

  /** One frame as the parser reads it; a short read is reported as such. */
  method ParseFrame(c: ByteCursor, previous: int) returns (ok: bool, frame: Frame)
    requires c.Valid()
    modifies c
    ensures c.Valid()
    ensures ok <==> ReadFrame(old(c.View()), previous).Some? && ReadFrame(old(c.View()), previous).value.rest.ok
    ensures ok ==> ReadFrame(old(c.View()), previous) == Some(Read(frame, c.View()))
  {
    hide ReadU1, ReadU2, ReadTypes;
    var tag := c.U1();
    frame := Frame(tag, SAME, 0, 0, [], []);
    var delta := 0;
    if tag <= 63 {
      delta := tag;
    } else if tag <= 127 {
      frame, delta := frame.(kind := SAME_LOCALS_1_STACK_ITEM), tag - 64;
    } else if tag == 247 {
      frame := frame.(kind := SAME_LOCALS_1_STACK_ITEM);
      delta := c.U2();
    } else if 248 <= tag <= 250 {
      frame := frame.(kind := CHOP, chop := ToU2(251 - tag as int));
      delta := c.U2();
    } else if tag == 251 {
      delta := c.U2();
    } else if 252 <= tag <= 254 {
      frame := frame.(kind := APPEND);
      delta := c.U2();
    } else if tag == 255 {
      frame := frame.(kind := FULL);
      delta := c.U2();
    } else {
      return false, frame;
    }
    frame := frame.(offset := previous + delta + 1);
    var types, read := [], true;
    match frame.kind {
    case SAME_LOCALS_1_STACK_ITEM =>
      types, read := ReadTypeRun(c, 1);
      frame := frame.(stack := types);
    case APPEND =>
      types, read := ReadTypeRun(c, tag - 251);
      frame := frame.(locals := types);
    case FULL =>
      var n := c.U2();
      types, read := ReadTypeRun(c, n);
      frame := frame.(locals := types);
      if read {
        n := c.U2();
        types, read := ReadTypeRun(c, n);
        frame := frame.(stack := types);
      }
    case _ =>
    }
    ok := read && c.ok;
  }

  method ParseTable(payload: seq<u1>) returns (r: Result<seq<Frame>>)
    ensures r == Parse(payload)
  {
    hide ReadFrame, ReadU2;
    var c := new ByteCursor(payload);
    var count := c.U2();
    if !c.ok {
      return Failure(TRUNCATED);
    }
    ghost var start := c.View();
    var frames: seq<Frame>, previous := [], -1;
    for i := 0 to count
      invariant c.Valid() && c.data == payload && ReadFrames(start, i) == Some(Read(frames, c.View()))
      invariant previous == OffsetBefore(frames, i)
    {
      var ok, frame := ParseFrame(c, previous);
      if !ok {
        FramesStayShort(start, i + 1, count);
        return Failure(TRUNCATED);
      }
      frames, previous := frames + [frame], frame.offset;
    }
    if c.pos != |payload| {
      return Failure(TRAILING_BYTES);
    }
    return Success(frames);
  }

  lemma {:induction false} FramesStayShort(c: Cursor, i: nat, n: nat)
    requires c.Valid() && i <= n && ReadFrames(c, i).None?
    ensures ReadFrames(c, n).None?
    decreases n
  {
    hide ReadFrame;
    if i < n {
      FramesStayShort(c, i, n - 1);
    }
  }

  method WriteTypes(b: ByteBuffer, types: seq<VerificationType>)
    modifies b
    ensures b.data == old(b.data) + TypesBytes(types)
  {
    hide U2Bytes, ToU2;
    for i := 0 to |types|
      invariant b.data == old(b.data) + TypesBytes(types[..i])
    {
      assert types[..i + 1][..i] == types[..i];
      ghost var before := b.data;
      b.U1(types[i].tag);
      if types[i].tag == OBJECT {
        b.U2(types[i].poolIndex);
      } else if types[i].tag == UNINITIALIZED {
        b.U2(ToU2(types[i].offset));
      }
      assert b.data == before + TypeBytes(types[i]);
    }
    assert types[..|types|] == types;
  }

  method WriteFrame(b: ByteBuffer, f: Frame, delta: u2)
    requires Writable(f)
    modifies b
    ensures b.data == old(b.data) + FrameBytes(f, delta)
  {
    hide TypesBytes, U2Bytes;
    match f.kind
    case SAME =>
      if f.rawTag <= 63 && delta <= 63 {
        b.U1(ToU1(delta));
      } else {
        b.U1(251);
        b.U2(delta);
      }
    case SAME_LOCALS_1_STACK_ITEM =>
      if f.rawTag <= 127 && delta <= 63 {
        b.U1(ToU1(64 + delta));
      } else {
        b.U1(247);
        b.U2(delta);
      }
      WriteTypes(b, f.stack[..1]);
    case CHOP =>
      b.U1(ToU1(251 - f.chop as int));
      b.U2(delta);
    case APPEND =>
      b.U1(ToU1(251 + |f.locals|));
      b.U2(delta);
      WriteTypes(b, f.locals);
    case FULL =>
      b.U1(255);
      b.U2(delta);
      b.U2(|f.locals|);
      WriteTypes(b, f.locals);
      b.U2(|f.stack|);
      WriteTypes(b, f.stack);
  }

  method WriteTable(frames: seq<Frame>) returns (r: Result<seq<u1>>)
    requires |frames| < 0x1_0000 && forall k :: 0 <= k < |frames| ==> Writable(frames[k])
    ensures r == Write(frames)
  {
    hide FrameBytes, Writable;
    var b := new ByteBuffer();
    b.U2(|frames|);
    var previous := -1;
    ghost var head := b.data;
    assert head == U2Bytes(|frames|);
    for i := 0 to |frames|
      invariant FramesBytes(frames, i).Some? && b.data == head + FramesBytes(frames, i).value
      invariant previous == OffsetBefore(frames, i)
    {
      var delta := frames[i].offset - previous - 1;
      previous := frames[i].offset;
      if delta < 0 || delta > 0xFFFF {
        BytesStayRefused(frames, i + 1, |frames|);
        return Failure(LIMIT_EXCEEDED);
      }
      WriteFrame(b, frames[i], delta);
    }
    return Success(b.data);
  }

  lemma {:induction false} BytesStayRefused(frames: seq<Frame>, i: nat, n: nat)
    requires i <= n <= |frames| && (forall k :: 0 <= k < |frames| ==> Writable(frames[k])) && FramesBytes(frames, i).None?
    ensures FramesBytes(frames, n).None?
    decreases n
  {
    if i < n {
      BytesStayRefused(frames, i, n - 1);
    }
  }
}
