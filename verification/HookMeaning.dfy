/** What the registry's calls come to, told by the fields of the entries alone. */
module HookMeaning {
  import opened Bytes
  import opened Status
  import opened Instructions
  import opened References
  import opened CodeEditor
  import opened Insertion
  import opened Simulation
  import opened Rebuild
  import opened Weaving
  import opened HookedClasses
  import opened TiedInserts
  import opened Partition
  import opened Registry
  import opened HookRegistry
  import opened HookRuns

  // ----- what an uninstall takes -----

  /** By method: every entry of it. By insert: those put at this offset of this method
      with this callback. */
  predicate Named(p: Pattern, entry: HookEntry) {
    match p
    case OfMethod(id) => entry.id == id
    case OfInsert(id, offset, callback) =>
      entry.kind == INSERT_CALL && entry.id == id && entry.offset == offset && entry.callback == callback
  }

  predicate Increasing(places: seq<nat>) {
    forall i, j :: 0 <= i < j < |places| ==> places[i] < places[j]
  }

  /** What an uninstall leaves are the entries it does not name, each once and in the
      order they had: places says where in the list they stood. */
  lemma {:induction false} LeftInPlace(hooks: seq<HookEntry>, p: Pattern) returns (places: seq<nat>)
    ensures InPlace(hooks, p, Kept(hooks, p), places)
    decreases |hooks|
  {
    hide InPlace, Named, Partition.Matches;
    if hooks == [] {
      places := [];
      NothingInPlace(p);
    } else {
      var n := |hooks| - 1;
      var before := LeftInPlace(hooks[..n], p);
      NamedMatches(p, hooks[n]);
      assert hooks == hooks[..n] + [hooks[n]];
      OneMoreInPlace(hooks[..n], hooks[n], p, Kept(hooks[..n], p), before);
      places := if Named(p, hooks[n]) then before else before + [n];
      assert Kept(hooks[..n], p) + [] == Kept(hooks[..n], p);
    }
  }

  predicate InPlace(hooks: seq<HookEntry>, p: Pattern, left: seq<HookEntry>, places: seq<nat>) {
    && |places| == |left| && Increasing(places)
    && (forall k :: 0 <= k < |places| ==> places[k] < |hooks| && left[k] == hooks[places[k]])
    && (forall i :: 0 <= i < |hooks| ==> (i in places <==> !Named(p, hooks[i])))
  }

  lemma NamedMatches(p: Pattern, entry: HookEntry)
    ensures Named(p, entry) <==> Partition.Matches(p, entry)
  {
  }

  lemma NothingInPlace(p: Pattern)
    ensures InPlace([], p, [], [])
  {
  }

  lemma OneMoreInPlace(hooks: seq<HookEntry>, last: HookEntry, p: Pattern, left: seq<HookEntry>, places: seq<nat>)
    requires InPlace(hooks, p, left, places)
    ensures if Named(p, last) then InPlace(hooks + [last], p, left, places)
            else InPlace(hooks + [last], p, left + [last], places + [|hooks|])
  {
    hide Named;
    var all, n := hooks + [last], |hooks|;
    assert forall i :: 0 <= i < n ==> all[i] == hooks[i];
    assert n !in places;
  }

  // ----- what stands in the way of an install -----

  /** Another entry of the same method stands in the way unless both are inserts. */
  lemma ConflictIs(classes: seq<HookedClass>, id: MethodId, kind: HookKind)
    ensures Conflicts(classes, id, kind) <==>
      exists i, j :: 0 <= i < |classes| && 0 <= j < |classes[i].hooks| && classes[i].hooks[j].id == id
                     && !(kind == INSERT_CALL && classes[i].hooks[j].kind == INSERT_CALL)
  {
    if i, j :| 0 <= i < |classes| && 0 <= j < |classes[i].hooks| && classes[i].hooks[j].id == id
               && !(kind == INSERT_CALL && classes[i].hooks[j].kind == INSERT_CALL) {
      assert ConflictsWith(classes[i].hooks[j], id, kind);
    }
  }

  // ----- what runs -----

  /** The calls in front of the instruction at an offset: those of the entries that
      insert there into this method, the last one listed first. */
  function CalledAt(hooks: seq<HookEntry>, key: MethodKey, offset: int): seq<Instruction> {
    if hooks == [] then []
    else
      var first := hooks[0];
      CalledAt(hooks[1..], key, offset)
      + (if first.kind == INSERT_CALL && first.name == key.0 && first.signature == key.1 && first.offset == offset
         then Operations(first.block) else [])
  }

  /** The body from instruction i on, each instruction behind the calls at its offset. */
  function WovenBody(code: seq<Instruction>, i: nat, hooks: seq<HookEntry>, key: MethodKey): seq<Instruction>
    requires i <= |code|
    decreases |code| - i
  {
    CalledAt(hooks, key, OffsetOf(code, i))
    + (if i == |code| then [] else [Operation(code[i])] + WovenBody(code, i + 1, hooks, key))
  }

  lemma {:induction false} CallsJoin(a: seq<InsertHook>, b: seq<InsertHook>, offset: int)
    ensures CallsAt(a + b, offset) == CallsAt(b, offset) + CallsAt(a, offset)
    decreases |a|
  {
    hide Operations;
    if a == [] {
      assert a + b == b;
    } else {
      assert (a + b)[0] == a[0] && (a + b)[1..] == a[1..] + b;
      CallsJoin(a[1..], b, offset);
    }
  }

  lemma {:induction false} CallsAreCalled(hooks: seq<HookEntry>, key: MethodKey, offset: int)
    ensures CallsAt(ForMethod(Inserts(hooks), key), offset) == CalledAt(hooks, key, offset)
    decreases |hooks|
  {
    hide Operations;
    if hooks != [] {
      var first, rest := hooks[0], hooks[1..];
      assert hooks == [first] + rest;
      InsertsFirst(first, rest);
      CallsAreCalled(rest, key, offset);
      if first.kind == INSERT_CALL {
        var one := [AsInsert(first)];
        ForMethodConcat(one, Inserts(rest), key);
        CallsJoin(ForMethod(one, key), ForMethod(Inserts(rest), key), offset);
        OneCall(first, key, offset);
      } else {
        assert [] + Inserts(rest) == Inserts(rest);
      }
    }
  }

  lemma OneCall(first: HookEntry, key: MethodKey, offset: int)
    ensures CallsAt(ForMethod([AsInsert(first)], key), offset)
         == if first.name == key.0 && first.signature == key.1 && first.offset == offset then Operations(first.block) else []
  {
    hide Operations;
    assert [AsInsert(first)][1..] == [];
  }

  lemma {:induction false} WovenIs(code: seq<Instruction>, i: nat, hooks: seq<HookEntry>, key: MethodKey)
    requires i <= |code|
    ensures Woven(code, i, ForMethod(Inserts(hooks), key)) == WovenBody(code, i, hooks, key)
    decreases |code| - i
  {
    hide CallsAt, CalledAt, ForMethod, Inserts, Operation, OffsetOf;
    CallsAreCalled(hooks, key, OffsetOf(code, i));
    if i < |code| {
      WovenIs(code, i + 1, hooks, key);
    }
  }

  /** In a class kept in order, a method that is not replaced runs its original body
      with, in front of the instruction at each offset, the calls of the entries
      registered for that offset of that method. */
  lemma RunningBodyIs(w: World, classes: seq<HookedClass>, serial: nat, k: ClassId, key: MethodKey)
    requires Shaped(w, classes, serial) && InOrder(w, classes, k)
    requires key in w.originals[k].bodies
    requires forall i :: 0 <= i < |HooksOf(classes, k)| ==>
      !(HooksOf(classes, k)[i].kind == MAKE_NATIVE && HooksOf(classes, k)[i].name == key.0 && HooksOf(classes, k)[i].signature == key.1)
    ensures key in w.vm[k].bodies
    ensures Operations(w.vm[k].bodies[key].code) == WovenBody(w.originals[k].bodies[key].code, 0, HooksOf(classes, k), key)
  {
    hide Shaped, HooksOf, OrderTracks, Woven, WovenBody, Operations, Inserts, ForMethod;
    RunningBody(w, classes, serial, k, key);
    WovenIs(w.originals[k].bodies[key].code, 0, HooksOf(classes, k), key);
  }
}
