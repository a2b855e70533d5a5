/** The frame a guarded call adds: the state a method starts in, read off its
    descriptor, and what it does to the frames behind it. */
module EntryFrame {
  import opened Bytes
  import opened Status
  import opened Instructions
  import opened References
  import opened Insertion
  import opened Descriptors
  import opened ConstantPool

  const INTEGER: u1 := 1
  const FLOAT: u1 := 2
  const DOUBLE: u1 := 3
  const LONG: u1 := 4

  // ----- verification types by what they name -----

  datatype TypeView = Simple(tag: u1) | ObjectOf(name: string) | Created(offset: int) | Dangling

  function View(pool: Pool, t: VerificationType): TypeView {
    if t.tag == OBJECT then
      match ClassName(pool, t.poolIndex)
      case Some(name) => ObjectOf(name)
      case None => Dangling
    else if t.tag == UNINITIALIZED then Created(t.offset)
    else Simple(t.tag)
  }

  function Views(pool: Pool, types: seq<VerificationType>): (r: seq<TypeView>)
    ensures |r| == |types|
  {
    seq(|types|, i requires 0 <= i < |types| => View(pool, types[i]))
  }

  lemma ViewKept(pool: Pool, more: Pool, t: VerificationType)
    requires pool <= more && View(pool, t) != Dangling
    ensures View(more, t) == View(pool, t)
  {
    hide TextAt;
    if t.tag == OBJECT {
      PrefixKeepsAt(pool, more, t.poolIndex);
      TextSurvives(pool, more, At(pool, t.poolIndex).value.nameIndex);
    }
  }

  predicate Sound(pool: Pool, types: seq<VerificationType>) {
    forall i :: 0 <= i < |types| ==> View(pool, types[i]) != Dangling
  }

  lemma ViewsKept(pool: Pool, more: Pool, types: seq<VerificationType>)
    requires pool <= more && Sound(pool, types)
    ensures Views(more, types) == Views(pool, types) && Sound(more, types)
  {
    hide View;
    forall i | 0 <= i < |types| ensures View(more, types[i]) == View(pool, types[i]) {
      ViewKept(pool, more, types[i]);
    }
  }

  // ----- the state a method starts in -----

  /** The verification type of a parameter (section 4.10.1.6 of the JVMS). */
  function EntryType(t: FieldType): TypeView {
    match t
    case Reference(name) => ObjectOf(name)
    case ArrayOf(_) => ObjectOf(Render(t))
    case Primitive(letter) =>
      Simple(if letter == 'J' then LONG else if letter == 'F' then FLOAT else if letter == 'D' then DOUBLE else INTEGER)
  }

  /** By the tags of section 4.7.4 of the JVMS: Integer 1, Float 2, Double 3, Long 4. */
  lemma EntryTags(letter: char)
    requires IsPrimitive(letter)
    ensures EntryType(Primitive(letter)) == Simple(match letter case 'F' => 2 case 'D' => 3 case 'J' => 4 case _ => 1)
  {
  }

  /** And Object is 7, Uninitialized 8. */
  lemma ObjectTags(pool: Pool, t: VerificationType)
    ensures View(pool, t) == match t.tag
      case 7 => (match ClassName(pool, t.poolIndex) case Some(name) => ObjectOf(name) case None => Dangling)
      case 8 => Created(t.offset)
      case _ => Simple(t.tag)
  {
  }

  function EntryTypes(types: seq<FieldType>): (r: seq<TypeView>)
    ensures |r| == |types|
  {
    seq(|types|, i requires 0 <= i < |types| => EntryType(types[i]))
  }

  /** The locals of a method that is no constructor, as it is entered. */
  function EntryLocals(m: MethodType, thisName: string, isStatic: bool): seq<TypeView> {
    (if isStatic then [] else [ObjectOf(thisName)]) + EntryTypes(m.parameters)
  }

  // ----- building the frame -----

  datatype OneType = OneType(next: nat, pool: Pool, t: VerificationType)
  datatype Built = Built(pool: Pool, types: seq<VerificationType>)

  function PrimitiveTag(letter: char): Option<u1> {
    if letter == 'J' then Some(LONG)
    else if letter == 'F' then Some(FLOAT)
    else if letter == 'D' then Some(DOUBLE)
    else if letter in {'B', 'C', 'S', 'Z', 'I'} then Some(INTEGER)
    else None
  }

  /** The type that starts at i: classes and arrays are interned by name. */
  function BuildOne(pool: Pool, s: string, i: nat): (r: Result<OneType>)
    requires i < |s|
    ensures r.Success? ==> i < r.value.next <= |s|
  {
    var j := SkipArray(s, i);
    if j == |s| then Failure(UNSUPPORTED)
    else
      var end := if s[j] == 'L' then Find(s, ';', j + 1) else j;
      if end == |s| then Failure(UNSUPPORTED)
      else if j > i || s[j] == 'L' then
        var name := if j > i then s[i..end + 1] else s[i + 1..end];
        if |name| >= 512 then Failure(UNSUPPORTED)
        else
          var c :- InternClass(pool, name);
          Success(OneType(end + 1, c.pool, VerificationType(OBJECT, c.index, 0)))
      else if PrimitiveTag(s[j]).None? then Failure(UNSUPPORTED)
      else Success(OneType(j + 1, pool, VerificationType(PrimitiveTag(s[j]).value, 0, 0)))
  }

  function BuildFrom(pool: Pool, s: string, i: nat, count: nat): Result<Built>
    requires i <= |s|
    decreases |s| - i
  {
    if i == |s| then Failure(UNSUPPORTED)
    else if s[i] == ')' then Success(Built(pool, []))
    else if count == 256 then Failure(UNSUPPORTED)
    else
      var one :- BuildOne(pool, s, i);
      var rest :- BuildFrom(one.pool, s, one.next, count + 1);
      Success(Built(rest.pool, [one.t] + rest.types))
  }

  lemma {:induction false} SkipReads(s: string, i: nat, t: FieldType)
    requires ValidType(t) && ReadsAt(s, i, Render(t)) && i < |s|
    ensures var j := SkipArray(s, i);
      && j < |s| && (t.ArrayOf? <==> j > i) && s[j] != '['
      && (s[j] == 'L' ==> Find(s, ';', j + 1) + 1 == i + |Render(t)|)
      && (s[j] != 'L' ==> j + 1 == i + |Render(t)|)
    decreases t
  {
    hide ReadsAt, Find;
    ReadsInside(s, i, Render(t));
    ReadsFirst(s, i, Render(t));
    match t
    case Primitive(letter) =>
    case Reference(name) =>
      assert Render(t) == ['L'] + (name + [';']);
      ReadsConcat(s, i, ['L'], name + [';']);
      ReadsInside(s, i + 1, name + [';']);
      FindReads(s, i + 1, name);
    case ArrayOf(element) =>
      ReadsConcat(s, i, ['['], Render(element));
      ReadsInside(s, i + 1, Render(element));
      SkipReads(s, i + 1, element);
  }

  lemma ReadsSlice(s: string, i: nat, t: string, lo: nat, hi: nat)
    requires ReadsAt(s, i, t) && lo <= hi <= |t|
    ensures s[i + lo..i + hi] == t[lo..hi]
  {
    var a, b := s[i + lo..i + hi], t[lo..hi];
    forall k | 0 <= k < hi - lo ensures a[k] == b[k] {
      assert s[i..i + |t|][lo + k] == t[lo + k];
    }
  }

  lemma BuildOneReads(pool: Pool, s: string, i: nat, t: FieldType)
    requires PoolValid(pool) && ValidType(t) && ReadsAt(s, i, Render(t)) && i < |s| && BuildOne(pool, s, i).Success?
    ensures var r := BuildOne(pool, s, i).value;
      && r.next == i + |Render(t)| && pool <= r.pool && PoolValid(r.pool) && View(r.pool, r.t) == EntryType(t)
  {
    hide InternClass, ReadsAt, SkipArray, Find, ClassName;
    ReadsInside(s, i, Render(t));
    ReadsFirst(s, i, Render(t));
    SkipReads(s, i, t);
    match t
    case Primitive(letter) =>
    case Reference(name) =>
      ReadsSlice(s, i, Render(t), 1, 1 + |name|);
      assert Render(t)[1..1 + |name|] == name;
      InternClassKeeps(pool, name);
    case ArrayOf(_) =>
      ReadsSlice(s, i, Render(t), 0, |Render(t)|);
      assert Render(t)[0..|Render(t)|] == Render(t);
      InternClassKeeps(pool, Render(t));
  }

  lemma {:induction false} BuildReads(pool: Pool, s: string, i: nat, types: seq<FieldType>, count: nat)
    requires forall k :: 0 <= k < |types| ==> ValidType(types[k])
    requires PoolValid(pool) && i <= |s| && ReadsAt(s, i, RenderAll(types) + [')']) && BuildFrom(pool, s, i, count).Success?
    ensures var r := BuildFrom(pool, s, i, count).value;
      pool <= r.pool && PoolValid(r.pool) && Views(r.pool, r.types) == EntryTypes(types)
    decreases |types|
  {
    hide ReadsAt, ValidType, Render, BuildOne, View, EntryType, PoolValid;
    ReadsInside(s, i, RenderAll(types) + [')']);
    if types == [] {
      assert RenderAll(types) + [')'] == [')'];
      ReadsFirst(s, i, [')']);
    } else {
      assert RenderAll(types) + [')'] == Render(types[0]) + (RenderAll(types[1..]) + [')']);
      ReadsConcat(s, i, Render(types[0]), RenderAll(types[1..]) + [')']);
      ReadsFirst(s, i, Render(types[0]));
      ReadsInside(s, i, Render(types[0]));
      TypeIsNotClosing(types[0]);
      BuildOneReads(pool, s, i, types[0]);
      var one := BuildOne(pool, s, i).value;
      BuildReads(one.pool, s, one.next, types[1..], count + 1);
      var r := BuildFrom(pool, s, i, count).value;
      EntryIsNamed(types[0]);
      ViewKept(one.pool, r.pool, one.t);
      var v := Views(r.pool, r.types);
      assert v[1..] == EntryTypes(types[1..]) by {
        assert r.types[1..] == BuildFrom(one.pool, s, one.next, count + 1).value.types;
        assert v[1..] == Views(r.pool, r.types[1..]);
      }
      assert EntryTypes(types)[1..] == EntryTypes(types[1..]);
      assert v == [v[0]] + v[1..] && EntryTypes(types) == [EntryTypes(types)[0]] + EntryTypes(types)[1..];
    }
  }

  lemma EntryIsNamed(t: FieldType)
    ensures EntryType(t) != Dangling
  {
  }

  method BuildEntryFrame(pool: Pool, thisClass: u2, s: string, isStatic: bool, offset: int)
    returns (status: Status, pool': Pool, frame: Frame)
    requires |s| > 0
    ensures var count := if isStatic then 0 else 1; var built := BuildFrom(pool, s, 1, count);
      && (status == OK <==> built.Success?)
      && (status == OK ==>
            pool' == built.value.pool
            && frame == Frame(255, FULL, offset, 0,
                 (if isStatic then [] else [VerificationType(OBJECT, thisClass, 0)]) + built.value.types, []))
  {
    hide BuildOne;
    var locals: seq<VerificationType> := if isStatic then [] else [VerificationType(OBJECT, thisClass, 0)];
    ghost var first := locals;
    pool', frame := pool, Frame(255, FULL, offset, 0, [], []);
    var i := 1;
    Nothing(BuildFrom(pool, s, 1, |first|));
    assert locals[|first|..] == [];
    while i < |s| && s[i] != ')'
      invariant 1 <= i <= |s| && first <= locals
      invariant Joined(locals[|first|..], BuildFrom(pool', s, i, |locals|)) == BuildFrom(pool, s, 1, |first|)
      decreases |s| - i
    {
      if |locals| == 256 {
        return UNSUPPORTED, pool', frame;
      }
      var one := BuildOne(pool', s, i);
      if one.Failure? {
        BuildFails(pool', s, i);
        return one.status, pool', frame;
      }
      JoinedOnce(locals[|first|..], one.value.t, BuildFrom(one.value.pool, s, one.value.next, |locals| + 1));
      assert (locals + [one.value.t])[|first|..] == locals[|first|..] + [one.value.t];
      locals, pool', i := locals + [one.value.t], one.value.pool, one.value.next;
    }
    if i == |s| {
      return UNSUPPORTED, pool', frame;
    }
    assert locals == first + locals[|first|..] && locals[|first|..] + [] == locals[|first|..];
    return OK, pool', frame.(locals := locals);
  }

  lemma BuildFails(pool: Pool, s: string, i: nat)
    requires i < |s| && BuildOne(pool, s, i).Failure?
    ensures BuildOne(pool, s, i).status != OK
  {
  }

  function Joined(front: seq<VerificationType>, rest: Result<Built>): Result<Built> {
    match rest
    case Failure(status) => Failure(status)
    case Success(b) => Success(Built(b.pool, front + b.types))
  }

  lemma Nothing(rest: Result<Built>)
    ensures Joined([], rest) == rest
  {
    if rest.Success? {
      assert [] + rest.value.types == rest.value.types;
    }
  }

  lemma JoinedOnce(front: seq<VerificationType>, t: VerificationType, rest: Result<Built>)
    ensures Joined(front, Joined([t], rest)) == Joined(front + [t], rest)
  {
    if rest.Success? {
      assert front + ([t] + rest.value.types) == front + [t] + rest.value.types;
    }
  }

  /** The frame built from a valid descriptor says what the method starts with. */
  lemma EntryFrameIsEntry(pool: Pool, thisClass: u2, thisName: string, m: MethodType, isStatic: bool)
    requires PoolValid(pool) && ValidMethod(m) && ClassName(pool, thisClass) == Some(thisName)
    requires BuildFrom(pool, RenderMethod(m), 1, if isStatic then 0 else 1).Success?
    ensures var r := BuildFrom(pool, RenderMethod(m), 1, if isStatic then 0 else 1).value;
      && pool <= r.pool
      && Views(r.pool, (if isStatic then [] else [VerificationType(OBJECT, thisClass, 0)]) + r.types)
         == EntryLocals(m, thisName, isStatic)
  {
    hide ReadsAt, BuildFrom, RenderAll, Render, EntryType, ClassName, ValidType;
    var s := RenderMethod(m);
    var tail := if m.result == [] then ['V'] else Render(m.result[0]);
    var all := RenderAll(m.parameters);
    assert s == ['('] + (all + [')']) + tail;
    ReadsWhole(s);
    ReadsConcat(s, 0, ['('] + (all + [')']), tail);
    ReadsConcat(s, 0, ['('], all + [')']);
    BuildReads(pool, s, 1, m.parameters, if isStatic then 0 else 1);
    var r := BuildFrom(pool, s, 1, if isStatic then 0 else 1).value;
    var this_ := VerificationType(OBJECT, thisClass, 0);
    ViewKept(pool, r.pool, this_);
    if !isStatic {
      assert Views(r.pool, [this_] + r.types) == [View(r.pool, this_)] + Views(r.pool, r.types);
    } else {
      assert [] + r.types == r.types && [] + EntryTypes(m.parameters) == EntryTypes(m.parameters);
    }
  }

  // ----- what a table of frames says -----

  /** A frame with nothing left to its predecessors. */
  datatype Typed = Typed(offset: int, locals: seq<TypeView>, stack: seq<TypeView>)

  /** The locals a frame states, given those of the frame before it. */
  function NextLocals(pool: Pool, locals: seq<TypeView>, f: Frame): seq<TypeView> {
    match f.kind
    case SAME => locals
    case SAME_LOCALS_1_STACK_ITEM => locals
    case CHOP => if f.chop as int <= |locals| then locals[..|locals| - f.chop as int] else []
    case APPEND => locals + Views(pool, f.locals)
    case FULL => Views(pool, f.locals)
  }

  function Decode(pool: Pool, locals: seq<TypeView>, frames: seq<Frame>): (r: seq<Typed>)
    ensures |r| == |frames|
    decreases |frames|
  {
    if frames == [] then []
    else
      var now := NextLocals(pool, locals, frames[0]);
      [Typed(frames[0].offset, now, Views(pool, frames[0].stack))] + Decode(pool, now, frames[1..])
  }

  function MoveView(m: RefMap, v: TypeView): TypeView {
    if v.Created? then Created(MapIdentity(m, v.offset)) else v
  }

  function MoveViews(m: RefMap, views: seq<TypeView>): (r: seq<TypeView>)
    ensures |r| == |views|
  {
    seq(|views|, i requires 0 <= i < |views| => MoveView(m, views[i]))
  }

  function MoveTyped(m: RefMap, s: seq<Typed>): (r: seq<Typed>)
    ensures |r| == |s|
  {
    seq(|s|, i requires 0 <= i < |s| => Typed(MapPosition(m, s[i].offset), MoveViews(m, s[i].locals), MoveViews(m, s[i].stack)))
  }

  lemma ViewsMove(pool: Pool, more: Pool, m: RefMap, types: seq<VerificationType>)
    requires pool <= more && Sound(pool, types)
    ensures Views(more, MapTypes(m, types)) == MoveViews(m, Views(pool, types))
  {
    hide MapIdentity;
    forall i | 0 <= i < |types| ensures View(more, MapType(m, types[i])) == MoveView(m, View(pool, types[i])) {
      ViewKept(pool, more, types[i]);
    }
  }

  predicate FrameSound(pool: Pool, f: Frame) {
    Sound(pool, f.locals) && Sound(pool, f.stack)
  }

  lemma NextLocalsMove(pool: Pool, more: Pool, m: RefMap, locals: seq<TypeView>, f: Frame)
    requires pool <= more && FrameSound(pool, f)
    ensures NextLocals(more, MoveViews(m, locals), MapFrame(m, f)) == MoveViews(m, NextLocals(pool, locals, f))
  {
    hide Views, MoveView, Sound, MapPosition;
    ViewsMove(pool, more, m, f.locals);
    if f.kind == APPEND {
      assert MoveViews(m, locals + Views(pool, f.locals)) == MoveViews(m, locals) + MoveViews(m, Views(pool, f.locals));
    }
  }

  /** Frames that have moved with their code still say what they said. */
  lemma {:induction false} DecodeMoved(pool: Pool, more: Pool, m: RefMap, locals: seq<TypeView>, frames: seq<Frame>)
    requires pool <= more && forall i :: 0 <= i < |frames| ==> FrameSound(pool, frames[i])
    ensures Decode(more, MoveViews(m, locals), MapFrames(m, frames)) == MoveTyped(m, Decode(pool, locals, frames))
    decreases |frames|
  {
    hide NextLocals, FrameSound, MoveViews, MapPosition, Views;
    if frames != [] {
      var f, moved := frames[0], MapFrames(m, frames);
      var now := NextLocals(pool, locals, f);
      NextLocalsMove(pool, more, m, locals, f);
      DecodeMoved(pool, more, m, now, frames[1..]);
      assert moved[1..] == MapFrames(m, frames[1..]);
      StackMoves(pool, more, m, f);
      var here := Typed(f.offset, now, Views(pool, f.stack));
      assert MoveTyped(m, [here] + Decode(pool, now, frames[1..])) == MoveTyped(m, [here]) + MoveTyped(m, Decode(pool, now, frames[1..]));
    }
  }

  lemma StackMoves(pool: Pool, more: Pool, m: RefMap, f: Frame)
    requires pool <= more && FrameSound(pool, f)
    ensures Views(more, MapFrame(m, f).stack) == MoveViews(m, Views(pool, f.stack))
  {
    hide Views, MoveViews;
    ViewsMove(pool, more, m, f.stack);
  }

  predicate NothingCreated(views: seq<TypeView>) {
    forall i :: 0 <= i < |views| ==> !views[i].Created?
  }

  lemma EntryHasNothingCreated(m: MethodType, thisName: string, isStatic: bool, move: RefMap)
    ensures MoveViews(move, EntryLocals(m, thisName, isStatic)) == EntryLocals(m, thisName, isStatic)
  {
  }

  /** A frame for the state the method starts in, put before all the others,
      leaves each of them with the meaning it had. */
  lemma EntryFrameKeepsOthers(pool: Pool, more: Pool, move: RefMap, entry: Frame, frames: seq<Frame>,
                              m: MethodType, thisName: string, isStatic: bool)
    requires pool <= more && forall i :: 0 <= i < |frames| ==> FrameSound(pool, frames[i])
    requires entry.kind == FULL && entry.stack == [] && Views(more, entry.locals) == EntryLocals(m, thisName, isStatic)
    ensures var locals := EntryLocals(m, thisName, isStatic);
      Decode(more, locals, [entry] + MapFrames(move, frames))
      == [Typed(entry.offset, locals, [])] + MoveTyped(move, Decode(pool, locals, frames))
  {
    hide FrameSound, MoveViews, Views, EntryLocals, MapFrame;
    var locals := EntryLocals(m, thisName, isStatic);
    EntryHasNothingCreated(m, thisName, isStatic, move);
    DecodeMoved(pool, more, move, locals, frames);
    var all := [entry] + MapFrames(move, frames);
    assert all[1..] == MapFrames(move, frames);
    assert Views(more, []) == [];
  }

  /** The next frame says the same from either locals. */
  predicate Agrees(pool: Pool, a: seq<TypeView>, b: seq<TypeView>, frames: seq<Frame>) {
    frames != [] ==> NextLocals(pool, a, frames[0]) == NextLocals(pool, b, frames[0])
  }

  lemma MovedAlike(m: RefMap, a: seq<TypeView>, b: seq<TypeView>)
    requires NothingCreated(a)
    ensures MoveViews(m, a) == MoveViews(m, b) <==> a == b
  {
    hide MapIdentity;
    if MoveViews(m, a) == MoveViews(m, b) {
      forall i | 0 <= i < |a| ensures |a| == |b| && a[i] == b[i] {
        assert |a| == |MoveViews(m, a)| == |MoveViews(m, b)| == |b|;
        assert MoveViews(m, a)[i] == MoveViews(m, b)[i];
      }
    }
  }

  lemma ViewsConcat(m: RefMap, a: seq<TypeView>, b: seq<TypeView>)
    ensures MoveViews(m, a + b) == MoveViews(m, a) + MoveViews(m, b)
  {
    hide MoveView;
  }

  /** Nothing is confused by the move that was told apart before it. */
  lemma NextMovedAlike(pool: Pool, m: RefMap, a: seq<TypeView>, b: seq<TypeView>, f: Frame)
    requires NothingCreated(a)
    ensures MoveViews(m, NextLocals(pool, a, f)) == MoveViews(m, NextLocals(pool, b, f))
       <==> NextLocals(pool, a, f) == NextLocals(pool, b, f)
  {
    hide MoveViews;
    if f.kind == APPEND {
      var v := Views(pool, f.locals);
      hide Views;
      ViewsConcat(m, a, v);
      ViewsConcat(m, b, v);
      MovedAlike(m, a, b);
      SameFront(MoveViews(m, a), MoveViews(m, b), MoveViews(m, v));
      SameFront(a, b, v);
    } else if f.kind != FULL {
      MovedAlike(m, NextLocals(pool, a, f), NextLocals(pool, b, f));
    }
  }

  lemma SameFront(a: seq<TypeView>, b: seq<TypeView>, c: seq<TypeView>)
    ensures a + c == b + c <==> a == b
  {
    if a + c == b + c {
      assert |a| == |b|;
      assert (a + c)[..|a|] == a && (b + c)[..|a|] == b;
    }
  }

  lemma {:induction false} TypedAlike(pool: Pool, m: RefMap, a: seq<TypeView>, b: seq<TypeView>, frames: seq<Frame>)
    requires NothingCreated(a)
    ensures MoveTyped(m, Decode(pool, a, frames)) == MoveTyped(m, Decode(pool, b, frames)) <==> Agrees(pool, a, b, frames)
  {
    hide NextLocals, Views, MoveViews, MapPosition, NothingCreated;
    if frames != [] {
      var f := frames[0];
      NextMovedAlike(pool, m, a, b, f);
      var x, y := MoveTyped(m, Decode(pool, a, frames)), MoveTyped(m, Decode(pool, b, frames));
      assert x[0].locals == MoveViews(m, NextLocals(pool, a, f)) && y[0].locals == MoveViews(m, NextLocals(pool, b, f));
    }
  }

  lemma EntryIsNotCreated(m: MethodType, thisName: string, isStatic: bool)
    ensures NothingCreated(EntryLocals(m, thisName, isStatic))
  {
  }

  /** Behind a frame at the start, it leaves the rest with the meaning it had
      exactly if the first of the rest cannot tell which of the two came before. */
  lemma EntryFrameBetween(pool: Pool, more: Pool, move: RefMap, entry: Frame, frames: seq<Frame>,
                          m: MethodType, thisName: string, isStatic: bool)
    requires pool <= more && |frames| > 0 && forall i :: 0 <= i < |frames| ==> FrameSound(pool, frames[i])
    requires entry.kind == FULL && entry.stack == [] && Views(more, entry.locals) == EntryLocals(m, thisName, isStatic)
    ensures var locals := EntryLocals(m, thisName, isStatic); var moved := MapFrames(move, frames);
      var was, now := MoveTyped(move, Decode(pool, locals, frames)), Decode(more, locals, [moved[0], entry] + moved[1..]);
      && |now| == |was| + 1 && |was| > 0
      && now[0] == was[0] && now[1] == Typed(entry.offset, locals, [])
      && (now[2..] == was[1..] <==> Agrees(pool, locals, NextLocals(pool, locals, frames[0]), frames[1..]))
  {
    hide FrameSound, MoveViews, Views, EntryLocals, MapFrame, Agrees, NothingCreated, NextLocals, MapPosition;
    var locals := EntryLocals(m, thisName, isStatic);
    var moved, rest := MapFrames(move, frames), MapFrames(move, frames[1..]);
    var all := [moved[0], entry] + moved[1..];
    assert moved[0] == MapFrame(move, frames[0]) && moved[1..] == rest && all[1..][1..] == rest;
    hide MapFrames, MoveTyped, Decode;
    EntryHasNothingCreated(m, thisName, isStatic, move);
    EntryIsNotCreated(m, thisName, isStatic);
    StartMoves(pool, more, move, locals, frames[0]);
    EntryAnyway(more, NextLocals(more, locals, moved[0]), entry);
    assert Views(more, []) == [] by { NoViews(more); }
    DecodeMoved(pool, more, move, locals, frames[1..]);
    DecodeTail(pool, move, locals, frames);
    TypedAlike(pool, move, locals, NextLocals(pool, locals, frames[0]), frames[1..]);
    DecodeTwo(more, locals, all);
  }

  lemma NoViews(pool: Pool)
    ensures Views(pool, []) == []
  {
  }

  lemma EntryAnyway(pool: Pool, locals: seq<TypeView>, entry: Frame)
    requires entry.kind == FULL
    ensures NextLocals(pool, locals, entry) == Views(pool, entry.locals)
  {
  }

  lemma StartMoves(pool: Pool, more: Pool, m: RefMap, locals: seq<TypeView>, f: Frame)
    requires pool <= more && FrameSound(pool, f) && MoveViews(m, locals) == locals
    ensures NextLocals(more, locals, MapFrame(m, f)) == MoveViews(m, NextLocals(pool, locals, f))
    ensures Views(more, MapFrame(m, f).stack) == MoveViews(m, Views(pool, f.stack))
    ensures MapFrame(m, f).offset == MapPosition(m, f.offset)
  {
    hide Views, MoveViews, NextLocals, MapPosition;
    NextLocalsMove(pool, more, m, locals, f);
    StackMoves(pool, more, m, f);
  }

  lemma DecodeTwo(pool: Pool, locals: seq<TypeView>, frames: seq<Frame>)
    requires |frames| >= 2
    ensures var a := NextLocals(pool, locals, frames[0]); var b := NextLocals(pool, a, frames[1]); var r := Decode(pool, locals, frames);
      && r == [Typed(frames[0].offset, a, Views(pool, frames[0].stack)), Typed(frames[1].offset, b, Views(pool, frames[1].stack))]
              + Decode(pool, b, frames[1..][1..])
  {
    hide NextLocals, Views;
  }

  lemma DecodeTail(pool: Pool, m: RefMap, locals: seq<TypeView>, frames: seq<Frame>)
    requires |frames| > 0
    ensures var r := MoveTyped(m, Decode(pool, locals, frames)); var a := NextLocals(pool, locals, frames[0]);
      && |r| > 0
      && r[0] == Typed(MapPosition(m, frames[0].offset), MoveViews(m, a), MoveViews(m, Views(pool, frames[0].stack)))
      && r[1..] == MoveTyped(m, Decode(pool, a, frames[1..]))
  {
    hide NextLocals, Views, MoveViews, MapPosition;
  }

  // ----- putting a frame into the table -----

  /** Keeps the table sorted; a place already described is left alone. */
  method InsertFrame(frames: seq<Frame>, frame: Frame) returns (status: Status, after: seq<Frame>, taken: bool)
    ensures |frames| == MAX_COUNT <==> status == LIMIT_EXCEEDED
    ensures status == OK || status == LIMIT_EXCEEDED
    ensures !taken ==> after == frames
    ensures FramesIncrease(frames) ==>
      (taken <==> status == OK && forall i :: 0 <= i < |frames| ==> frames[i].offset != frame.offset)
    ensures taken && FramesIncrease(frames) ==> FramesIncrease(after)
    ensures taken ==> exists k :: 0 <= k <= |frames| && after == frames[..k] + [frame] + frames[k..]
    ensures taken && (forall i :: 0 <= i < |frames| ==> frame.offset < frames[i].offset) ==> after == [frame] + frames
  {
    if |frames| == MAX_COUNT {
      return LIMIT_EXCEEDED, frames, false;
    }
    var at := 0;
    while at < |frames| && frames[at].offset < frame.offset
      invariant at <= |frames| && forall i :: 0 <= i < at ==> frames[i].offset < frame.offset
    {
      at := at + 1;
    }
    if at < |frames| && frames[at].offset == frame.offset {
      return OK, frames, false;
    }
    after := frames[..at] + [frame] + frames[at..];
    return OK, after, true;
  }
}
