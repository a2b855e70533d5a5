/** What a StackMapTable says, read off its bytes (section 4.7.4 of the JVMS), and
    that parsing reads just that. */
module StackMapMeaning {
  import opened Bytes
  import opened BigEndian
  import opened Status
  import opened References
  import opened StackMapCodec

  // ----- types -----

  /** Object and Uninitialized are followed by two bytes. */
  function TypeSize(t: VerificationType): nat {
    if t.tag == 7 || t.tag == 8 then 3 else 1
  }

  function TypesSize(types: seq<VerificationType>): nat {
    if types == [] then 0 else TypesSize(types[..|types| - 1]) + TypeSize(types[|types| - 1])
  }

  predicate TypeStands(d: seq<u1>, p: nat, t: VerificationType) {
    && p < |d| && t.tag == d[p]
    && if d[p] == 7 then p + 3 <= |d| && t == VerificationType(7, Unsigned2(d, p + 1), 0)      // Object: class index
       else if d[p] == 8 then p + 3 <= |d| && t == VerificationType(8, 0, Unsigned2(d, p + 1)) // Uninitialized: offset
       else t == VerificationType(d[p], 0, 0)
  }

  predicate TypesStand(d: seq<u1>, p: nat, types: seq<VerificationType>) {
    forall k :: 0 <= k < |types| ==> TypeStands(d, p + TypesSize(types[..k]), types[k])
  }

  // ----- frames -----

  /** The frame whose bytes are those from p up to end; previous is the offset of
      the one before it, or -1. */
  predicate FrameStands(d: seq<u1>, p: nat, previous: int, f: Frame, end: nat) {
    && p < |d| && f.rawTag == d[p]
    && var t := d[p] as int;
    if t <= 63 then                                      // same_frame
      end == p + 1 && f == Frame(t, SAME, previous + t + 1, 0, [], [])
    else if t <= 127 then                                // same_locals_1_stack_item_frame
      && |f.stack| == 1 && end == p + 1 + TypesSize(f.stack) && TypesStand(d, p + 1, f.stack)
      && f == Frame(t, SAME_LOCALS_1_STACK_ITEM, previous + t - 64 + 1, 0, [], f.stack)
    else if t == 247 then                                // same_locals_1_stack_item_frame_extended
      && p + 3 <= |d| && |f.stack| == 1 && end == p + 3 + TypesSize(f.stack) && TypesStand(d, p + 3, f.stack)
      && f == Frame(t, SAME_LOCALS_1_STACK_ITEM, previous + Unsigned2(d, p + 1) + 1, 0, [], f.stack)
    else if 248 <= t <= 250 then                         // chop_frame: 251 - t locals are gone
      p + 3 <= |d| && end == p + 3 && f == Frame(t, CHOP, previous + Unsigned2(d, p + 1) + 1, 251 - t, [], [])
    else if t == 251 then                                // same_frame_extended
      p + 3 <= |d| && end == p + 3 && f == Frame(t, SAME, previous + Unsigned2(d, p + 1) + 1, 0, [], [])
    else if 252 <= t <= 254 then                         // append_frame: t - 251 more locals
      && p + 3 <= |d| && |f.locals| == t - 251 && end == p + 3 + TypesSize(f.locals) && TypesStand(d, p + 3, f.locals)
      && f == Frame(t, APPEND, previous + Unsigned2(d, p + 1) + 1, 0, f.locals, [])
    else                                                 // full_frame; 128 to 246 are reserved
      && t == 255 && p + 5 <= |d|
      && |f.locals| == Unsigned2(d, p + 3) && TypesStand(d, p + 5, f.locals)
      && var q := p + 5 + TypesSize(f.locals);
      && q + 2 <= |d| && |f.stack| == Unsigned2(d, q) && TypesStand(d, q + 2, f.stack)
      && end == q + 2 + TypesSize(f.stack)
      && f == Frame(t, FULL, previous + Unsigned2(d, p + 1) + 1, 0, f.locals, f.stack)
  }

  /** ends[k] is where frame k starts and ends[k + 1] where it ends. */
  predicate FramesStand(d: seq<u1>, frames: seq<Frame>, ends: seq<nat>) {
    |ends| == |frames| + 1 && ends[0] == 2
    && forall k :: 0 <= k < |frames| ==>
         FrameStands(d, ends[k], if k == 0 then -1 else frames[k - 1].offset, frames[k], ends[k + 1])
  }

  // ----- reading -----

  lemma TypeRead(c: Cursor)
    requires c.Valid() && ReadType(c).rest.ok
    ensures var r := ReadType(c);
      && TypeStands(c.data, c.pos, r.value) && r.rest == Cursor(c.data, c.pos + TypeSize(r.value), true) && c.ok
  {
    hide ReadU1, ReadU2, Unsigned2;
    var tag := ReadU1(c);
    WasOk(tag.rest);
    WasOk(c);
    Read1(c);
    if tag.value == 7 || tag.value == 8 {
      Read2(tag.rest);
    }
  }

  lemma {:induction false} TypesRead(c: Cursor, n: nat)
    requires c.Valid() && ReadTypes(c, n).rest.ok
    ensures var r := ReadTypes(c, n);
      && TypesStand(c.data, c.pos, r.value) && r.rest == Cursor(c.data, c.pos + TypesSize(r.value), true) && c.ok
    decreases n
  {
    hide ReadType, TypeStands, TypeSize;
    if n > 0 {
      var front := ReadTypes(c, n - 1);
      var r := ReadTypes(c, n);
      TypesRead(c, n - 1);
      TypeRead(front.rest);
      var last := ReadType(front.rest).value;
      assert r.value == front.value + [last];
      hide ReadTypes;
      TypesJoin(c.data, c.pos, front.value, last);
    }
  }

  lemma TypesJoin(d: seq<u1>, p: nat, front: seq<VerificationType>, last: VerificationType)
    requires TypesStand(d, p, front) && TypeStands(d, p + TypesSize(front), last)
    ensures TypesStand(d, p, front + [last]) && TypesSize(front + [last]) == TypesSize(front) + TypeSize(last)
  {
    hide TypeStands, TypeSize;
    var n, all := |front|, front + [last];
    assert all[..n] == front;
    SizeOfPrefixes(front, last);
    hide TypesSize;
    forall k | 0 <= k <= n ensures TypeStands(d, p + TypesSize(all[..k]), all[k]) {
      assert k < n ==> all[k] == front[k];
    }
  }

  lemma SizeOfPrefixes(front: seq<VerificationType>, last: VerificationType)
    ensures forall k :: 0 <= k <= |front| ==> (front + [last])[..k] == front[..k]
    ensures front[..|front|] == front && TypesSize(front + [last]) == TypesSize(front) + TypeSize(last)
  {
    hide TypeSize;
    assert (front + [last])[..|front|] == front;
  }

  lemma DeltaRead(tag: u1, c: Cursor)
    requires c.Valid() && ReadDelta(tag, c).rest.ok
    ensures c.ok && ReadDelta(tag, c).rest.data == c.data
    ensures tag <= 63 ==> ReadDelta(tag, c) == Read(tag, c)
    ensures 64 <= tag <= 127 ==> ReadDelta(tag, c) == Read(tag - 64, c)
    ensures 128 <= tag ==> c.pos + 2 <= |c.data| && ReadDelta(tag, c) == Read(Unsigned2(c.data, c.pos), Cursor(c.data, c.pos + 2, true))
  {
    hide ReadU2, Unsigned2;
    if 128 <= tag {
      WasOk(c);
      Read2(c);
    }
  }

  lemma FullRead(tag: u1, c: Cursor)
    requires c.Valid() && c.ok
    requires var nLocals := ReadU2(c); var locals := ReadTypes(nLocals.rest, nLocals.value);
      var nStack := ReadU2(locals.rest); ReadTypes(nStack.rest, nStack.value).rest.ok
    ensures var nLocals := ReadU2(c); var locals := ReadTypes(nLocals.rest, nLocals.value);
      var nStack := ReadU2(locals.rest); var stack := ReadTypes(nStack.rest, nStack.value);
      && c.pos + 2 <= |c.data| && |locals.value| == Unsigned2(c.data, c.pos) && TypesStand(c.data, c.pos + 2, locals.value)
      && var q := c.pos + 2 + TypesSize(locals.value);
      && q + 2 <= |c.data| && |stack.value| == Unsigned2(c.data, q) && TypesStand(c.data, q + 2, stack.value)
      && stack.rest == Cursor(c.data, q + 2 + TypesSize(stack.value), true)
  {
    hide ReadU2, Unsigned2, ReadTypes, TypesStand, TypesSize;
    var nLocals := ReadU2(c);
    var locals := ReadTypes(nLocals.rest, nLocals.value);
    var nStack := ReadU2(locals.rest);
    TypesRead(nStack.rest, nStack.value);
    WasOk(locals.rest);
    Read2(locals.rest);
    TypesRead(nLocals.rest, nLocals.value);
    Read2(c);
  }

  /** A frame is read as its tag says. */
  lemma FrameRead(c: Cursor, previous: int)
    requires c.Valid() && ReadFrame(c, previous).Some? && ReadFrame(c, previous).value.rest.ok
    ensures var r := ReadFrame(c, previous).value;
      && r.rest == Cursor(c.data, r.rest.pos, true) && FrameStands(c.data, c.pos, previous, r.value, r.rest.pos)
  {
    hide ReadU1, ReadU2, Unsigned2, ReadTypes, TypesStand, ReadDelta;
    var tag := ReadU1(c);
    var r := ReadFrame(c, previous).value;
    var delta := ReadDelta(tag.value, tag.rest);
    match r.value.kind
    case SAME_LOCALS_1_STACK_ITEM =>
      TypesRead(delta.rest, 1);
      TagRead(c);
    case APPEND =>
      TypesRead(delta.rest, if tag.value >= 251 then tag.value - 251 else 0);
      TagRead(c);
    case FULL =>
      FullOk(delta.rest);
      FullRead(tag.value, delta.rest);
      TagRead(c);
    case _ =>
      TagRead(c);
  }

  lemma FullOk(c: Cursor)
    requires c.Valid()
    requires var nLocals := ReadU2(c); var locals := ReadTypes(nLocals.rest, nLocals.value);
      var nStack := ReadU2(locals.rest); ReadTypes(nStack.rest, nStack.value).rest.ok
    ensures c.ok
  {
    hide ReadTypes;
  }

  lemma TagRead(c: Cursor)
    requires c.Valid() && ReadDelta(ReadU1(c).value, ReadU1(c).rest).rest.ok
    ensures var tag := ReadU1(c);
      && c.pos < |c.data| && tag.value == c.data[c.pos] && tag.rest == Cursor(c.data, c.pos + 1, true)
    ensures var tag := ReadU1(c).value; var delta := ReadDelta(tag, ReadU1(c).rest);
      && (tag <= 63 ==> delta == Read(tag, ReadU1(c).rest))
      && (64 <= tag <= 127 ==> delta == Read(tag - 64, ReadU1(c).rest))
      && (128 <= tag ==> c.pos + 3 <= |c.data| && delta == Read(Unsigned2(c.data, c.pos + 1), Cursor(c.data, c.pos + 3, true)))
  {
    hide ReadDelta, Unsigned2;
    DeltaRead(ReadU1(c).value, ReadU1(c).rest);
    Read1(c);
  }

  lemma {:induction false} FramesRead(c: Cursor, n: nat) returns (ends: seq<nat>)
    requires c.Valid() && c.pos == 2 && c.ok && ReadFrames(c, n).Some?
    ensures FramesStand(c.data, ReadFrames(c, n).value.value, ends)
    ensures ReadFrames(c, n).value.rest == Cursor(c.data, ends[n], true)
    decreases n
  {
    hide ReadFrame, FrameStands;
    if n == 0 {
      ends := [2];
    } else {
      var front := ReadFrames(c, n - 1).value;
      var frames := ReadFrames(c, n).value.value;
      var before := FramesRead(c, n - 1);
      FrameRead(front.rest, OffsetBefore(front.value, n - 1));
      ends := before + [ReadFrames(c, n).value.rest.pos];
      forall k | 0 <= k < n
        ensures FrameStands(c.data, ends[k], if k == 0 then -1 else frames[k - 1].offset, frames[k], ends[k + 1])
      {
        if k < n - 1 {
          assert frames[k] == front.value[k] && (k > 0 ==> frames[k - 1] == front.value[k - 1]);
          assert ends[k] == before[k] && ends[k + 1] == before[k + 1];
        }
      }
    }
  }

  /** An accepted payload is parsed to the frames its bytes are, from the count to the
      last byte. */
  lemma ParseMeans(payload: seq<u1>)
    requires Parse(payload).Success?
    ensures |payload| >= 2 && |Parse(payload).value| == Unsigned2(payload, 0)
    ensures exists ends :: FramesStand(payload, Parse(payload).value, ends) && ends[|Parse(payload).value|] == |payload|
  {
    hide ReadU2, ReadFrames, FramesStand, Unsigned2;
    var count := ReadU2(Cursor(payload, 0, true));
    Read2(Cursor(payload, 0, true));
    var ends := FramesRead(count.rest, count.value);
    EndsLength(payload, Parse(payload).value, ends);
  }

  lemma EndsLength(d: seq<u1>, frames: seq<Frame>, ends: seq<nat>)
    requires FramesStand(d, frames, ends)
    ensures |ends| == |frames| + 1
  {
    hide FrameStands;
  }
}
