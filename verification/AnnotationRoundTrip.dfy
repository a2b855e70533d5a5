/** Offsets written back into a type annotation attribute are found again where
    they were, and nothing else in it has changed. */
module AnnotationRoundTrip {
  import opened Bytes
  import opened Status
  import opened Instructions
  import opened References
  import opened AnnotationFlush
  import opened TypeAnnotations

  // ----- data that differs only inside the recorded values -----

  predicate Recorded(refs: seq<AnnotationRef>, i: int) {
    exists k :: 0 <= k < |refs| && refs[k].payloadOffset <= i < refs[k].payloadOffset + Width(refs[k])
  }

  /** d and e agree from lo to hi, but for the recorded values. */
  predicate Alike(d: seq<u1>, e: seq<u1>, lo: int, hi: int, refs: seq<AnnotationRef>) {
    |d| == |e| && forall i :: 0 <= i < |d| && lo <= i < hi && !Recorded(refs, i) ==> d[i] == e[i]
  }

  /** All recorded values lie between lo and hi, one behind the other. */
  predicate Within(refs: seq<AnnotationRef>, lo: int, hi: int) {
    && (forall k :: 0 <= k < |refs| ==> lo <= refs[k].payloadOffset && refs[k].payloadOffset + Width(refs[k]) <= hi)
    && (forall j, k :: 0 <= j < k < |refs| ==> refs[j].payloadOffset + Width(refs[j]) <= refs[k].payloadOffset)
  }

  lemma RecordedSplit(a: seq<AnnotationRef>, b: seq<AnnotationRef>, i: int)
    ensures Recorded(a + b, i) <==> Recorded(a, i) || Recorded(b, i)
  {
    assert forall k :: 0 <= k < |a| ==> (a + b)[k] == a[k];
    assert forall k :: 0 <= k < |b| ==> (a + b)[|a| + k] == b[k];
  }

  lemma AlikeFront(d: seq<u1>, e: seq<u1>, lo: int, mid: int, hi: int, a: seq<AnnotationRef>, b: seq<AnnotationRef>)
    requires Alike(d, e, lo, hi, a + b) && Within(b, mid, hi) && mid <= hi
    ensures Alike(d, e, lo, mid, a)
  {
    forall i | 0 <= i < |d| && lo <= i < mid && !Recorded(a, i) ensures d[i] == e[i] {
      RecordedSplit(a, b, i);
    }
  }

  lemma AlikeBack(d: seq<u1>, e: seq<u1>, lo: int, mid: int, hi: int, a: seq<AnnotationRef>, b: seq<AnnotationRef>)
    requires Alike(d, e, lo, hi, a + b) && Within(a, lo, mid) && lo <= mid
    ensures Alike(d, e, mid, hi, b)
  {
    forall i | 0 <= i < |d| && mid <= i < hi && !Recorded(b, i) ensures d[i] == e[i] {
      RecordedSplit(a, b, i);
    }
  }

  lemma WithinJoins(a: seq<AnnotationRef>, b: seq<AnnotationRef>, lo: int, mid: int, hi: int)
    requires Within(a, lo, mid) && Within(b, mid, hi) && lo <= mid <= hi
    ensures Within(a + b, lo, hi)
  {
  }

  predicate Same(d: seq<u1>, e: seq<u1>, lo: int, hi: int) {
    Alike(d, e, lo, hi, [])
  }

  lemma SameAt(d: seq<u1>, e: seq<u1>, lo: int, hi: int, i: nat)
    requires Same(d, e, lo, hi) && i < |d| && lo <= i < hi
    ensures d[i] == e[i]
  {
    assert !Recorded([], i);
  }

  lemma SamePart(d: seq<u1>, e: seq<u1>, lo: int, hi: int, from: int, to: int)
    requires Same(d, e, lo, hi) && lo <= from && to <= hi
    ensures Same(d, e, from, to)
  {
  }

  // ----- the walk depends on nothing else -----

  /** The same place in other data. */
  function In(c: Cursor, e: seq<u1>): Cursor {
    c.(data := e)
  }

  lemma U1In(c: Cursor, e: seq<u1>)
    requires c.Valid() && ReadU1(c).rest.ok && Same(c.data, e, c.pos, ReadU1(c).rest.pos)
    ensures In(c, e).Valid() && ReadU1(In(c, e)) == Read(ReadU1(c).value, In(ReadU1(c).rest, e))
  {
    SameAt(c.data, e, c.pos, c.pos + 1, c.pos);
  }

  lemma U2In(c: Cursor, e: seq<u1>)
    requires c.Valid() && ReadU2(c).rest.ok && Same(c.data, e, c.pos, ReadU2(c).rest.pos)
    ensures In(c, e).Valid() && ReadU2(In(c, e)) == Read(ReadU2(c).value, In(ReadU2(c).rest, e))
  {
    SameAt(c.data, e, c.pos, c.pos + 2, c.pos);
    SameAt(c.data, e, c.pos, c.pos + 2, c.pos + 1);
  }

  /** How far a read gets does not depend on what it reads. */
  lemma ReachIn(c: Cursor, e: seq<u1>, n: nat)
    requires c.Valid() && |e| == |c.data|
    ensures In(c, e).Valid() && ReadU2(In(c, e)).rest == In(ReadU2(c).rest, e)
    ensures ReadBytes(In(c, e), n).rest == In(ReadBytes(c, n).rest, e)
  {
  }

  lemma {:induction false} ElementIn(c: Cursor, depth: nat, e: seq<u1>)
    requires c.Valid() && depth <= MAX_DEPTH + 1 && SkipElement(c, depth).Some?
    requires Same(c.data, e, c.pos, SkipElement(c, depth).value.pos)
    ensures In(c, e).Valid() && SkipElement(In(c, e), depth) == Some(In(SkipElement(c, depth).value, e))
    decreases MAX_DEPTH + 1 - depth, 1, 0
  {
    hide ReadU1, ReadU2, Same, SkipAnnotation, SkipValues;
    var r := SkipElement(c, depth).value;
    var tag := ReadU1(c);
    SamePart(c.data, e, c.pos, r.pos, c.pos, tag.rest.pos);
    SamePart(c.data, e, c.pos, r.pos, tag.rest.pos, r.pos);
    U1In(c, e);
    var letter := tag.value as char;
    SameSize(c.data, e, c.pos, r.pos);
    ReachIn(tag.rest, e, 0);
    if letter == 'e' {
      ReachIn(ReadU2(tag.rest).rest, e, 0);
    } else if letter == '@' {
      AnnotationIn(tag.rest, depth + 1, e);
    } else if letter == '[' {
      var n := ReadU2(tag.rest);
      SamePart(c.data, e, tag.rest.pos, r.pos, tag.rest.pos, n.rest.pos);
      SamePart(c.data, e, tag.rest.pos, r.pos, n.rest.pos, r.pos);
      U2In(tag.rest, e);
      ValuesIn(n.rest, n.value, depth, e);
    }
  }

  lemma SameSize(d: seq<u1>, e: seq<u1>, lo: int, hi: int)
    requires Same(d, e, lo, hi)
    ensures |d| == |e|
  {
  }

  lemma {:induction false} ValuesIn(c: Cursor, n: nat, depth: nat, e: seq<u1>)
    requires c.Valid() && c.ok && depth <= MAX_DEPTH && SkipValues(c, n, depth).Some?
    requires Same(c.data, e, c.pos, SkipValues(c, n, depth).value.pos)
    ensures In(c, e).Valid() && SkipValues(In(c, e), n, depth) == Some(In(SkipValues(c, n, depth).value, e))
    decreases MAX_DEPTH + 1 - depth, 0, n
  {
    hide Same, SkipElement;
    var r := SkipValues(c, n, depth).value;
    SameSize(c.data, e, c.pos, r.pos);
    if n > 0 {
      var front := SkipValues(c, n - 1, depth).value;
      SamePart(c.data, e, c.pos, r.pos, c.pos, front.pos);
      SamePart(c.data, e, c.pos, r.pos, front.pos, r.pos);
      ValuesIn(c, n - 1, depth, e);
      ElementIn(front, depth + 1, e);
    }
  }

  lemma {:induction false} AnnotationIn(c: Cursor, depth: nat, e: seq<u1>)
    requires c.Valid() && depth <= MAX_DEPTH + 1 && SkipAnnotation(c, depth).Some?
    requires Same(c.data, e, c.pos, SkipAnnotation(c, depth).value.pos)
    ensures In(c, e).Valid() && SkipAnnotation(In(c, e), depth) == Some(In(SkipAnnotation(c, depth).value, e))
    decreases MAX_DEPTH + 1 - depth, 1, 0
  {
    hide ReadU2, Same, SkipPairs;
    var r := SkipAnnotation(c, depth).value;
    var first := ReadU2(c);
    var pairs := ReadU2(first.rest);
    SameSize(c.data, e, c.pos, r.pos);
    SamePart(c.data, e, c.pos, r.pos, c.pos, first.rest.pos);
    SamePart(c.data, e, c.pos, r.pos, first.rest.pos, pairs.rest.pos);
    SamePart(c.data, e, c.pos, r.pos, pairs.rest.pos, r.pos);
    U2In(c, e);
    U2In(first.rest, e);
    PairsIn(pairs.rest, pairs.value, depth, e);
  }

  lemma {:induction false} PairsIn(c: Cursor, n: nat, depth: nat, e: seq<u1>)
    requires c.Valid() && c.ok && depth <= MAX_DEPTH && SkipPairs(c, n, depth).Some?
    requires Same(c.data, e, c.pos, SkipPairs(c, n, depth).value.pos)
    ensures In(c, e).Valid() && SkipPairs(In(c, e), n, depth) == Some(In(SkipPairs(c, n, depth).value, e))
    decreases MAX_DEPTH + 1 - depth, 0, n
  {
    hide Same, SkipElement, ReadU2;
    var r := SkipPairs(c, n, depth).value;
    SameSize(c.data, e, c.pos, r.pos);
    if n > 0 {
      var front := SkipPairs(c, n - 1, depth).value;
      var name := ReadU2(front);
      SamePart(c.data, e, c.pos, r.pos, c.pos, front.pos);
      SamePart(c.data, e, c.pos, r.pos, front.pos, name.rest.pos);
      SamePart(c.data, e, c.pos, r.pos, name.rest.pos, r.pos);
      PairsIn(c, n - 1, depth, e);
      ReachIn(front, e, 0);
      ElementIn(name.rest, depth + 1, e);
    }
  }

  // ----- the values are read again -----

  function RereadOne(ref: AnnotationRef, e: seq<u1>): AnnotationRef {
    if ref.payloadOffset + Width(ref) > |e| then ref
    else if ref.kind == INSTRUCTION then ref.(start := U2At(e, ref.payloadOffset))
    else ref.(start := U2At(e, ref.payloadOffset), end := U2At(e, ref.payloadOffset) as int + U2At(e, ref.payloadOffset + 2) as int)
  }

  /** The same records, with the values that stand in e. */
  function Reread(refs: seq<AnnotationRef>, e: seq<u1>): (r: seq<AnnotationRef>)
    ensures |r| == |refs|
  {
    seq(|refs|, k requires 0 <= k < |refs| => RereadOne(refs[k], e))
  }

  lemma RereadConcat(a: seq<AnnotationRef>, b: seq<AnnotationRef>, e: seq<u1>)
    ensures Reread(a + b, e) == Reread(a, e) + Reread(b, e)
  {
  }

  lemma AlikeSize(d: seq<u1>, e: seq<u1>, lo: int, hi: int, refs: seq<AnnotationRef>)
    requires Alike(d, e, lo, hi, refs)
    ensures |d| == |e|
  {
  }

  lemma {:induction false} SpansIn(c: Cursor, n: nat, attribute: nat, have: nat, e: seq<u1>)
    requires c.Valid() && c.ok && |e| == |c.data| && ReadSpans(c, n, attribute, have).Success?
    ensures var r := ReadSpans(c, n, attribute, have).value;
      && Within(r.refs, c.pos, r.rest.pos) && In(c, e).Valid()
      && ReadSpans(In(c, e), n, attribute, have) == Success(Collected(In(r.rest, e), Reread(r.refs, e)))
    decreases n
  {
    hide ReadU2, Within, Reread, RereadOne;
    if n == 0 {
      NothingWithin(c.pos);
      RereadNothing(e);
    } else {
      var front := ReadSpans(c, n - 1, attribute, have).value;
      SpansIn(c, n - 1, attribute, have, e);
      ThreeReads(front.rest);
      OneSpan(front.rest, e, attribute);
      var r := ReadSpans(c, n, attribute, have).value;
      var last := r.refs[|front.refs|];
      assert r.refs == front.refs + [last];
      RereadConcat(front.refs, [last], e);
      RereadSingle(last, e);
      SingleWithin(last, front.rest.pos, r.rest.pos);
      WithinJoins(front.refs, [last], c.pos, front.rest.pos, r.rest.pos);
    }
  }

  lemma ThreeReads(c: Cursor)
    requires c.Valid() && ReadU2(ReadU2(ReadU2(c).rest).rest).rest.ok
    ensures c.pos + 6 <= |c.data| && ReadU2(ReadU2(ReadU2(c).rest).rest).rest.pos == c.pos + 6
  {
  }

  lemma RereadSingle(ref: AnnotationRef, e: seq<u1>)
    ensures Reread([ref], e) == [RereadOne(ref, e)]
  {
  }

  lemma SingleWithin(ref: AnnotationRef, lo: int, hi: int)
    requires lo <= ref.payloadOffset && ref.payloadOffset + Width(ref) <= hi
    ensures Within([ref], lo, hi)
  {
  }

  lemma OneSpan(c: Cursor, e: seq<u1>, attribute: nat)
    requires c.Valid() && c.ok && |e| == |c.data| && c.pos + 6 <= |c.data|
    ensures var start, start' := ReadU2(c), ReadU2(In(c, e));
      var length, length' := ReadU2(start.rest), ReadU2(start'.rest);
      var ref := AnnotationRef(attribute, c.pos, SPAN, start.value, start.value + length.value as int);
      && RereadOne(ref, e) == AnnotationRef(attribute, c.pos, SPAN, start'.value, start'.value + length'.value as int)
      && In(c, e).Valid() && ReadU2(length'.rest).rest == In(ReadU2(length.rest).rest, e)
  {
  }

  lemma InstructionIn(c: Cursor, extra: nat, attribute: nat, have: nat, e: seq<u1>)
    requires c.Valid() && c.ok && |e| == |c.data| && ReadInstruction(c, extra, attribute, have).Success?
    ensures var r := ReadInstruction(c, extra, attribute, have).value;
      && Within(r.refs, c.pos, r.rest.pos) && In(c, e).Valid()
      && ReadInstruction(In(c, e), extra, attribute, have) == Success(Collected(In(r.rest, e), Reread(r.refs, e)))
  {
    var value := ReadU2(c);
    ReachIn(c, e, 0);
    ReachIn(value.rest, e, extra);
    var ref := AnnotationRef(attribute, c.pos, INSTRUCTION, value.value, 0);
    RereadSingle(ref, e);
    SingleWithin(ref, c.pos, ReadBytes(value.rest, extra).rest.pos);
    hide Reread, Within;
  }

  lemma TargetIn(c: Cursor, target: u1, attribute: nat, have: nat, e: seq<u1>)
    requires c.Valid() && c.ok && ReadTarget(c, target, attribute, have).Success?
    requires var r := ReadTarget(c, target, attribute, have).value; Alike(c.data, e, c.pos, r.rest.pos, r.refs)
    ensures var r := ReadTarget(c, target, attribute, have).value;
      && Within(r.refs, c.pos, r.rest.pos) && In(c, e).Valid()
      && ReadTarget(In(c, e), target, attribute, have) == Success(Collected(In(r.rest, e), Reread(r.refs, e)))
  {
    hide ReadSpans, ReadInstruction, Reread;
    var r := ReadTarget(c, target, attribute, have).value;
    AlikeSize(c.data, e, c.pos, r.rest.pos, r.refs);
    RereadNothing(e);
    if target in {0x40, 0x41} {
      var n := ReadU2(c);
      SpansIn(n.rest, n.value, attribute, have, e);
      assert [] + r.refs == r.refs;
      AlikeFront(c.data, e, c.pos, n.rest.pos, r.rest.pos, [], r.refs);
      U2In(c, e);
    } else if 0x43 <= target <= 0x46 {
      InstructionIn(c, 0, attribute, have, e);
    } else if 0x47 <= target <= 0x4B {
      InstructionIn(c, 1, attribute, have, e);
    } else {
      ReachIn(c, e, if target in {0x00, 0x01, 0x16} then 1 else if target in {0x13, 0x14, 0x15} then 0 else 2);
    }
  }

  lemma RereadNothing(e: seq<u1>)
    ensures Reread([], e) == []
  {
  }

  /** Where the values of a target lie. */
  lemma TargetWithin(c: Cursor, target: u1, attribute: nat, have: nat)
    requires c.Valid() && c.ok && ReadTarget(c, target, attribute, have).Success?
    ensures var r := ReadTarget(c, target, attribute, have).value; Within(r.refs, c.pos, r.rest.pos)
  {
    hide ReadTarget, Reread;
    TargetIn(c, target, attribute, have, c.data);
  }

  lemma OneWithin(c: Cursor, attribute: nat, have: nat)
    requires c.Valid() && c.ok && ReadOne(c, attribute, have).Success?
    ensures var r := ReadOne(c, attribute, have).value; Within(r.refs, c.pos, r.rest.pos)
  {
    hide ReadTarget, SkipAnnotation;
    var target := ReadU1(c);
    TargetWithin(target.rest, target.value, attribute, have);
  }

  lemma OneIn(c: Cursor, attribute: nat, have: nat, e: seq<u1>)
    requires c.Valid() && c.ok && ReadOne(c, attribute, have).Success?
    requires var r := ReadOne(c, attribute, have).value; Alike(c.data, e, c.pos, r.rest.pos, r.refs)
    ensures var r := ReadOne(c, attribute, have).value;
      && In(c, e).Valid()
      && ReadOne(In(c, e), attribute, have) == Success(Collected(In(r.rest, e), Reread(r.refs, e)))
  {
    hide ReadTarget, SkipAnnotation, Reread, Alike, Within, ReadU1, ReadBytes;
    var r := ReadOne(c, attribute, have).value;
    var target := ReadU1(c);
    var found := ReadTarget(target.rest, target.value, attribute, have).value;
    var steps := ReadU1(found.rest);
    var path := ReadBytes(steps.rest, 2 * steps.value as int).rest;
    AlikeSize(c.data, e, c.pos, r.rest.pos, r.refs);
    OneRegions(c, attribute, have, e);
    U1In(c, e);
    TargetIn(target.rest, target.value, attribute, have, e);
    U1In(found.rest, e);
    ReachIn(steps.rest, e, 2 * steps.value as int);
    AnnotationIn(path, 0, e);
  }

  lemma OneRegions(c: Cursor, attribute: nat, have: nat, e: seq<u1>)
    requires c.Valid() && c.ok && ReadOne(c, attribute, have).Success?
    requires var r := ReadOne(c, attribute, have).value; Alike(c.data, e, c.pos, r.rest.pos, r.refs)
    ensures var r := ReadOne(c, attribute, have).value; var target := ReadU1(c);
      var found := ReadTarget(target.rest, target.value, attribute, have).value; var steps := ReadU1(found.rest);
      var path := ReadBytes(steps.rest, 2 * steps.value as int).rest;
      && Same(c.data, e, c.pos, target.rest.pos)
      && Alike(c.data, e, target.rest.pos, found.rest.pos, found.refs)
      && Same(c.data, e, found.rest.pos, steps.rest.pos) && Same(c.data, e, path.pos, r.rest.pos)
  {
    hide ReadTarget, SkipAnnotation;
    var r := ReadOne(c, attribute, have).value;
    var target := ReadU1(c);
    var found := ReadTarget(target.rest, target.value, attribute, have).value;
    var steps := ReadU1(found.rest);
    TargetWithin(target.rest, target.value, attribute, have);
    assert [] + r.refs == r.refs && r.refs + [] == r.refs;
    AlikeFront(c.data, e, c.pos, target.rest.pos, r.rest.pos, [], r.refs);
    AlikeBack(c.data, e, c.pos, found.rest.pos, r.rest.pos, r.refs, []);
    hide ReadBytes, ReadU1;
    AlikePart(c.data, e, c.pos, r.rest.pos, target.rest.pos, found.rest.pos, r.refs);
  }

  lemma AlikePart(d: seq<u1>, e: seq<u1>, lo: int, hi: int, from: int, to: int, refs: seq<AnnotationRef>)
    requires Alike(d, e, lo, hi, refs) && lo <= from && to <= hi
    ensures Alike(d, e, from, to, refs)
  {
  }

  lemma {:induction false} AllIn(c: Cursor, n: nat, attribute: nat, have: nat, e: seq<u1>)
    requires c.Valid() && c.ok && ReadAll(c, n, attribute, have).Success?
    ensures var r := ReadAll(c, n, attribute, have).value;
      && Within(r.refs, c.pos, r.rest.pos)
      && (Alike(c.data, e, c.pos, r.rest.pos, r.refs) ==>
            In(c, e).Valid()
            && ReadAll(In(c, e), n, attribute, have) == Success(Collected(In(r.rest, e), Reread(r.refs, e))))
    decreases n
  {
    hide ReadOne, Reread, Alike, Within;
    if n == 0 {
      NothingWithin(c.pos);
      RereadNothing(e);
      if Alike(c.data, e, c.pos, c.pos, []) {
        AlikeSize(c.data, e, c.pos, c.pos, []);
      }
    } else {
      var front := ReadAll(c, n - 1, attribute, have).value;
      var last := ReadOne(front.rest, attribute, have + |front.refs|).value;
      AllIn(c, n - 1, attribute, have, e);
      OneWithin(front.rest, attribute, have + |front.refs|);
      WithinJoins(front.refs, last.refs, c.pos, front.rest.pos, last.rest.pos);
      if Alike(c.data, e, c.pos, last.rest.pos, front.refs + last.refs) {
        AlikeFront(c.data, e, c.pos, front.rest.pos, last.rest.pos, front.refs, last.refs);
        AlikeBack(c.data, e, c.pos, front.rest.pos, last.rest.pos, front.refs, last.refs);
        OneIn(front.rest, attribute, have + |front.refs|, e);
        RereadConcat(front.refs, last.refs, e);
      }
    }
  }

  lemma NothingWithin(p: int)
    ensures Within([], p, p)
  {
  }

  /** The recorded values are inside the payload and apart from each other, and
      a payload that differs only in them is collected alike, with the values it
      now holds. */
  lemma CollectAgain(payload: seq<u1>, attribute: nat, have: nat, changed: seq<u1>)
    requires Collect(payload, attribute, have).Success?
    ensures var refs := Collect(payload, attribute, have).value;
      && Within(refs, 0, |payload|)
      && (Alike(payload, changed, 0, |payload|, refs) ==> Collect(changed, attribute, have) == Success(Reread(refs, changed)))
  {
    hide ReadAll, Reread, Alike, Within, ReadU2;
    var c := Cursor(payload, 0, true);
    var count := ReadU2(c);
    AllIn(count.rest, count.value, attribute, have, changed);
    var refs := Collect(payload, attribute, have).value;
    assert Within([] + refs, 0, |payload|) by {
      NothingBefore(count.rest.pos);
      WithinJoins([], refs, 0, count.rest.pos, |payload|);
    }
    assert [] + refs == refs;
    if Alike(payload, changed, 0, |payload|, refs) {
      AlikeSize(payload, changed, 0, |payload|, refs);
      AlikeFront(payload, changed, 0, count.rest.pos, |payload|, [], refs);
      AlikePart(payload, changed, 0, |payload|, count.rest.pos, |payload|, refs);
      U2In(c, changed);
    }
  }

  lemma NothingBefore(p: int)
    requires 0 <= p
    ensures Within([], 0, p)
  {
  }

  // ----- writing -----

  predicate InRange(ref: AnnotationRef) {
    && 0 <= ref.start <= MAX_CODE_LENGTH
    && if ref.kind == SPAN then ref.start <= ref.end <= MAX_CODE_LENGTH else ref.end == 0
  }

  /** The payload once the value of ref has been written. */
  function Written(info: seq<u1>, ref: AnnotationRef): (r: seq<u1>)
    requires InRange(ref) && ref.payloadOffset + Width(ref) <= |info|
    ensures |r| == |info|
  {
    var started := Patch(info, ref.payloadOffset, ref.start);
    if ref.kind == SPAN then Patch(started, ref.payloadOffset + 2, ref.end - ref.start) else started
  }

  lemma FlushOne(ref: AnnotationRef, others: seq<Attribute>)
    requires ref.attribute < |others| && InRange(ref) && ref.payloadOffset + Width(ref) <= |others[ref.attribute].info|
    ensures FlushRef(ref, others)
         == Flushed(others[ref.attribute := others[ref.attribute].(info := Written(others[ref.attribute].info, ref))], OK)
  {
    hide Patch;
  }

  lemma WrittenIsRead(info: seq<u1>, ref: AnnotationRef)
    requires InRange(ref) && ref.payloadOffset + Width(ref) <= |info|
    ensures RereadOne(ref, Written(info, ref)) == ref
    ensures forall i :: 0 <= i < |info| && !(ref.payloadOffset <= i < ref.payloadOffset + Width(ref)) ==>
      Written(info, ref)[i] == info[i]
  {
  }

  /** Values that stand apart from all recorded ones are not disturbed. */
  lemma RereadUndisturbed(ref: AnnotationRef, d: seq<u1>, e: seq<u1>, refs: seq<AnnotationRef>)
    requires Alike(d, e, 0, |d|, refs) && ref.payloadOffset + Width(ref) <= |d|
    requires forall k :: 0 <= k < |refs| ==> ref.payloadOffset + Width(ref) <= refs[k].payloadOffset
    ensures RereadOne(ref, e) == RereadOne(ref, d)
  {
    forall i | ref.payloadOffset <= i < ref.payloadOffset + Width(ref) ensures d[i] == e[i] {
      assert !Recorded(refs, i);
    }
  }

  predicate Placed(refs: seq<AnnotationRef>, attribute: nat) {
    forall k :: 0 <= k < |refs| ==> refs[k].attribute == attribute && InRange(refs[k])
  }

  lemma {:induction false} FlushWrites(refs: seq<AnnotationRef>, i: nat, others: seq<Attribute>, attribute: nat)
    requires i <= |refs| && Placed(refs, attribute) && attribute < |others| && Within(refs[i..], 0, |others[attribute].info|)
    ensures var f := FlushFrom(refs, i, others); var info := others[attribute].info;
      && f.status == OK
      && var info' := f.others[attribute].info;
      && f.others == others[attribute := others[attribute].(info := info')]
      && Alike(info, info', 0, |info|, refs[i..])
      && forall k :: i <= k < |refs| ==> RereadOne(refs[k], info') == refs[k]
    decreases |refs| - i
  {
    hide FlushRef, RereadOne, InRange, Width;
    var info := others[attribute].info;
    if i < |refs| {
      var ref, rest := refs[i], refs[i + 1..];
      assert refs[i..] == [ref] + rest && refs[i..][0] == ref;
      FlushOne(ref, others);
      WrittenIsRead(info, ref);
      var mid := Written(info, ref);
      var next := others[attribute := others[attribute].(info := mid)];
      RestWithin(ref, rest, |info|);
      FlushWrites(refs, i + 1, next, attribute);
      var f := FlushFrom(refs, i, others);
      var info' := f.others[attribute].info;
      RereadUndisturbed(ref, mid, info', rest);
      AlikeTwice(info, mid, info', ref, rest);
      assert f.others == others[attribute := others[attribute].(info := info')];
    }
  }

  lemma RestWithin(ref: AnnotationRef, rest: seq<AnnotationRef>, n: nat)
    requires Within([ref] + rest, 0, n)
    ensures Within(rest, 0, n) && ref.payloadOffset + Width(ref) <= n
    ensures forall k :: 0 <= k < |rest| ==> ref.payloadOffset + Width(ref) <= rest[k].payloadOffset
  {
    var all := [ref] + rest;
    assert all[0] == ref;
    assert forall k :: 0 <= k < |rest| ==> rest[k] == all[k + 1];
  }

  lemma AlikeTwice(d: seq<u1>, mid: seq<u1>, e: seq<u1>, ref: AnnotationRef, rest: seq<AnnotationRef>)
    requires |d| == |mid| && Alike(mid, e, 0, |mid|, rest)
    requires forall i :: 0 <= i < |d| && !(ref.payloadOffset <= i < ref.payloadOffset + Width(ref)) ==> mid[i] == d[i]
    ensures Alike(d, e, 0, |d|, [ref] + rest)
  {
    forall i | 0 <= i < |d| && !Recorded([ref] + rest, i) ensures d[i] == e[i] {
      RecordedSplit([ref], rest, i);
      assert [ref][0] == ref;
    }
  }

  /** The same record with another value. */
  predicate SameRecord(a: AnnotationRef, b: AnnotationRef) {
    a.attribute == b.attribute && a.payloadOffset == b.payloadOffset && a.kind == b.kind
  }

  predicate SameRecords(a: seq<AnnotationRef>, b: seq<AnnotationRef>) {
    |a| == |b| && forall k :: 0 <= k < |a| ==> SameRecord(a[k], b[k])
  }

  /** As the walk records it. */
  predicate Fresh(ref: AnnotationRef, attribute: nat) {
    ref.attribute == attribute && (ref.kind == INSTRUCTION ==> ref.end == 0)
  }

  lemma {:induction false} CollectedPlace(c: Cursor, n: nat, attribute: nat, have: nat)
    requires c.Valid() && c.ok && ReadAll(c, n, attribute, have).Success?
    ensures forall k :: 0 <= k < |ReadAll(c, n, attribute, have).value.refs| ==>
      Fresh(ReadAll(c, n, attribute, have).value.refs[k], attribute)
    decreases n
  {
    hide ReadU1, ReadU2, SkipAnnotation, ReadTarget;
    if n > 0 {
      CollectedPlace(c, n - 1, attribute, have);
      var front := ReadAll(c, n - 1, attribute, have).value;
      var target := ReadU1(front.rest);
      TargetPlace(target.rest, target.value, attribute, have + |front.refs|);
    }
  }

  lemma TargetPlace(c: Cursor, target: u1, attribute: nat, have: nat)
    requires c.Valid() && c.ok && ReadTarget(c, target, attribute, have).Success?
    ensures forall k :: 0 <= k < |ReadTarget(c, target, attribute, have).value.refs| ==>
      Fresh(ReadTarget(c, target, attribute, have).value.refs[k], attribute)
  {
    hide ReadSpans;
    if target in {0x40, 0x41} {
      SpansPlace(ReadU2(c).rest, ReadU2(c).value, attribute, have);
    }
  }

  lemma {:induction false} SpansPlace(c: Cursor, n: nat, attribute: nat, have: nat)
    requires c.Valid() && c.ok && ReadSpans(c, n, attribute, have).Success?
    ensures forall k :: 0 <= k < |ReadSpans(c, n, attribute, have).value.refs| ==>
      Fresh(ReadSpans(c, n, attribute, have).value.refs[k], attribute)
    decreases n
  {
    hide ReadU2;
    if n > 0 {
      SpansPlace(c, n - 1, attribute, have);
    }
  }

  /** Whatever in-range values are written back for what was collected: they are
      found again, at the same places; no other byte of the attribute and no
      other attribute has changed. */
  lemma FlushThenCollect(others: seq<Attribute>, attribute: nat, have: nat, moved: seq<AnnotationRef>)
    requires attribute < |others| && Collect(others[attribute].info, attribute, have).Success?
    requires var refs := Collect(others[attribute].info, attribute, have).value;
      SameRecords(refs, moved) && forall k :: 0 <= k < |moved| ==> InRange(moved[k])
    ensures var f := FlushFrom(moved, 0, others); var info := others[attribute].info;
      && f.status == OK && f.others == others[attribute := f.others[attribute]]
      && Alike(info, f.others[attribute].info, 0, |info|, moved)
      && Collect(f.others[attribute].info, attribute, have) == Success(moved)
  {
    hide Collect, FlushFrom, InRange, Reread, RereadOne, Alike, Width;
    var info := others[attribute].info;
    var refs := Collect(info, attribute, have).value;
    AttributeOf(info, attribute, have);
    CollectAgain(info, attribute, have, info);
    MovedWithin(refs, moved, |info|);
    assert moved[0..] == moved;
    FlushWrites(moved, 0, others, attribute);
    var info' := FlushFrom(moved, 0, others).others[attribute].info;
    SameRanges(info, info', refs, moved);
    CollectAgain(info, attribute, have, info');
    RereadIsMoved(refs, moved, info');
  }

  lemma AttributeOf(info: seq<u1>, attribute: nat, have: nat)
    requires Collect(info, attribute, have).Success?
    ensures forall k :: 0 <= k < |Collect(info, attribute, have).value| ==> Fresh(Collect(info, attribute, have).value[k], attribute)
  {
    hide ReadAll;
    var count := ReadU2(Cursor(info, 0, true));
    CollectedPlace(count.rest, count.value, attribute, have);
  }

  lemma MovedWithin(refs: seq<AnnotationRef>, moved: seq<AnnotationRef>, n: nat)
    requires Within(refs, 0, n) && SameRecords(refs, moved)
    ensures Within(moved, 0, n)
  {
    forall k | 0 <= k < |moved| ensures Width(moved[k]) == Width(refs[k]) && moved[k].payloadOffset == refs[k].payloadOffset {
      assert SameRecord(refs[k], moved[k]);
    }
  }

  lemma SameRanges(d: seq<u1>, e: seq<u1>, refs: seq<AnnotationRef>, moved: seq<AnnotationRef>)
    requires Alike(d, e, 0, |d|, moved) && SameRecords(refs, moved)
    ensures Alike(d, e, 0, |d|, refs)
  {
    forall i | 0 <= i < |d| && !Recorded(refs, i) ensures d[i] == e[i] {
      forall k | 0 <= k < |moved| ensures !(moved[k].payloadOffset <= i < moved[k].payloadOffset + Width(moved[k])) {
        assert SameRecord(refs[k], moved[k]);
        assert !(refs[k].payloadOffset <= i < refs[k].payloadOffset + Width(refs[k]));
      }
      assert !Recorded(moved, i);
    }
  }

  lemma RereadIsMoved(refs: seq<AnnotationRef>, moved: seq<AnnotationRef>, e: seq<u1>)
    requires SameRecords(refs, moved) && Within(moved, 0, |e|)
    requires forall k :: 0 <= k < |moved| ==> InRange(moved[k]) && RereadOne(moved[k], e) == moved[k]
    requires forall k :: 0 <= k < |refs| ==> refs[k].kind == INSTRUCTION ==> refs[k].end == 0
    ensures Reread(refs, e) == moved
  {
    forall k | 0 <= k < |refs| ensures RereadOne(refs[k], e) == moved[k] {
      assert SameRecord(refs[k], moved[k]);
    }
  }
}
