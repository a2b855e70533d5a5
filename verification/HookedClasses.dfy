/** What a class looks like under a list of hooks: replacements make methods
    native and keep their bodies under another name, inserts weave calls into
    the bodies that are left. */
module HookedClasses {
  import opened Bytes
  import opened Status
  import opened Instructions
  import opened References
  import opened CodeEditor
  import opened Insertion
  import opened Simulation
  import opened Rebuild
  import opened Weaving

  type MethodId = nat

  datatype HookKind = MAKE_NATIVE | INSERT_CALL

  datatype HookEntry = HookEntry(
    id: MethodId,
    kind: HookKind,
    name: string,
    signature: string,
    offset: u4,
    callback: nat,
    added: string,
    block: seq<Instruction>)

  /** The methods of a class: those with a body, and those without. */
  datatype Definition = Definition(interface: bool, bodies: map<MethodKey, Editor>, natives: set<MethodKey>)

  predicate Declares(d: Definition, key: MethodKey) {
    key in d.bodies || key in d.natives
  }

  // ----- the transforms -----

  /** The method becomes native and its body moves to the added name. */
  function MakeNative(d: Definition, entry: HookEntry): Option<Definition> {
    var key, copy := (entry.name, entry.signature), (entry.added, entry.signature);
    if d.interface || Declares(d, copy) || key !in d.bodies || entry.name == "<init>" || entry.name == "<clinit>" then None
    else Some(d.(bodies := (d.bodies - {key})[copy := d.bodies[key]], natives := d.natives + {key}))
  }

  function MakeNatives(d: Definition, hooks: seq<HookEntry>): Option<Definition>
    decreases |hooks|
  {
    if hooks == [] then Some(d)
    else match MakeNatives(d, hooks[..|hooks| - 1])
         case None => None
         case Some(next) =>
           var last := hooks[|hooks| - 1];
           if last.kind == INSERT_CALL then Some(next) else MakeNative(next, last)
  }

  /** The callback is declared and a call to it put into the body. */
  function InsertInto(d: Definition, hook: InsertHook): Option<Definition> {
    var key, added := (hook.name, hook.signature), (hook.added, "()V");
    if d.interface || Declares(d, added) || key !in d.bodies || hook.name == "<clinit>" then None
    else match InsertCall(d.bodies[key], hook)
         case None => None
         case Some(next) => Some(d.(bodies := d.bodies[key := next], natives := d.natives + {added}))
  }

  function InsertsInto(d: Definition, hooks: seq<InsertHook>): Option<Definition>
    decreases |hooks|
  {
    if hooks == [] then Some(d)
    else match InsertInto(d, hooks[0])
         case None => None
         case Some(next) => InsertsInto(next, hooks[1..])
  }

  function AsInsert(entry: HookEntry): InsertHook {
    InsertHook(entry.name, entry.signature, entry.offset, entry.added, entry.block)
  }

  /** The inserts among the hooks, in list order. */
  function Inserts(hooks: seq<HookEntry>): seq<InsertHook>
    decreases |hooks|
  {
    if hooks == [] then []
    else Inserts(hooks[..|hooks| - 1])
         + (if hooks[|hooks| - 1].kind == INSERT_CALL then [AsInsert(hooks[|hooks| - 1])] else [])
  }

  function Transformed(original: Definition, hooks: seq<HookEntry>, sorted: seq<InsertHook>): Option<Definition> {
    match MakeNatives(original, hooks)
    case None => None
    case Some(d) => InsertsInto(d, sorted)
  }

  /** d is what a rebuild of original under hooks gives. */
  ghost predicate Rebuilt(original: Definition, hooks: seq<HookEntry>, d: Definition) {
    if hooks == [] then d == original
    else exists sorted :: RebuiltBy(original, hooks, sorted, d)
  }

  ghost predicate RebuiltBy(original: Definition, hooks: seq<HookEntry>, sorted: seq<InsertHook>, d: Definition) {
    Sorted(sorted) && StablySame(sorted, Inserts(hooks)) && Transformed(original, hooks, sorted) == Some(d)
  }

  // ----- what each method becomes -----

  predicate IsHooked(hooks: seq<HookEntry>, key: MethodKey, kind: HookKind) {
    exists i :: 0 <= i < |hooks| && (hooks[i].name, hooks[i].signature) == key && hooks[i].kind == kind
  }

  lemma {:induction false} InsertsAreWoven(d: Definition, hooks: seq<InsertHook>)
    requires InsertsInto(d, hooks).Some?
    ensures ApplyInserts(d.bodies, hooks) == Some(InsertsInto(d, hooks).value.bodies)
    ensures d.natives <= InsertsInto(d, hooks).value.natives
    decreases |hooks|
  {
    hide InsertCall;
    if hooks != [] {
      InsertsAreWoven(InsertInto(d, hooks[0]).value, hooks[1..]);
    }
  }

  /** A method no replacement names or adds keeps its body. */
  lemma {:induction false} NativesSpare(d: Definition, hooks: seq<HookEntry>, key: MethodKey)
    requires MakeNatives(d, hooks).Some? && key in d.bodies && !IsHooked(hooks, key, MAKE_NATIVE)
    ensures key in MakeNatives(d, hooks).value.bodies && MakeNatives(d, hooks).value.bodies[key] == d.bodies[key]
    decreases |hooks|
  {
    if hooks != [] {
      var n := |hooks| - 1;
      assert !IsHooked(hooks[..n], key, MAKE_NATIVE);
      NativesSpare(d, hooks[..n], key);
      assert (hooks[n].name, hooks[n].signature) == key && hooks[n].kind == MAKE_NATIVE ==> IsHooked(hooks, key, MAKE_NATIVE);
    }
  }

  lemma {:induction false} NativesGrow(d: Definition, hooks: seq<HookEntry>)
    requires MakeNatives(d, hooks).Some?
    ensures d.natives <= MakeNatives(d, hooks).value.natives
    decreases |hooks|
  {
    if hooks != [] {
      NativesGrow(d, hooks[..|hooks| - 1]);
    }
  }

  /** A replaced method is native and its body has moved to the added name. */
  lemma {:induction false} NativesReplace(d: Definition, hooks: seq<HookEntry>, i: nat)
    requires MakeNatives(d, hooks).Some? && i < |hooks| && hooks[i].kind == MAKE_NATIVE
    requires (hooks[i].name, hooks[i].signature) in d.bodies
    requires forall j :: 0 <= j < |hooks| && j != i && hooks[j].kind == MAKE_NATIVE ==>
               (hooks[j].name, hooks[j].signature) != (hooks[i].name, hooks[i].signature)
               && (hooks[j].name, hooks[j].signature) != (hooks[i].added, hooks[i].signature)
    ensures var r := MakeNatives(d, hooks).value; var copy := (hooks[i].added, hooks[i].signature);
      && (hooks[i].name, hooks[i].signature) in r.natives
      && copy in r.bodies && r.bodies[copy] == d.bodies[(hooks[i].name, hooks[i].signature)]
    decreases |hooks|
  {
    var n := |hooks| - 1;
    if i == n {
      assert !IsHooked(hooks[..n], (hooks[i].name, hooks[i].signature), MAKE_NATIVE);
      NativesSpare(d, hooks[..n], (hooks[i].name, hooks[i].signature));
    } else {
      NativesReplace(d, hooks[..n], i);
    }
  }

  lemma {:induction false} InsertsForMethod(hooks: seq<HookEntry>, key: MethodKey)
    requires !IsHooked(hooks, key, INSERT_CALL)
    ensures ForMethod(Inserts(hooks), key) == []
    decreases |hooks|
  {
    if hooks != [] {
      var n := |hooks| - 1;
      assert !IsHooked(hooks[..n], key, INSERT_CALL);
      InsertsForMethod(hooks[..n], key);
      if hooks[n].kind == INSERT_CALL {
        assert (hooks[n].name, hooks[n].signature) != key;
        var last := [AsInsert(hooks[n])];
        ForMethodConcat(Inserts(hooks[..n]), last, key);
        assert last[1..] == [] && ForMethod(last, key) == [];
      } else {
        assert Inserts(hooks) == Inserts(hooks[..n]);
      }
    }
  }

  lemma {:induction false} ForMethodConcat(a: seq<InsertHook>, b: seq<InsertHook>, key: MethodKey)
    ensures ForMethod(a + b, key) == ForMethod(a, key) + ForMethod(b, key)
  {
    if a == [] {
      assert a + b == b;
    } else {
      ForMethodConcat(a[1..], b, key);
      assert (a + b)[1..] == a[1..] + b;
    }
  }

  ghost predicate Buildable(original: Definition, hooks: seq<HookEntry>) {
    && (forall k :: k in original.bodies ==> Consistent(original.bodies[k]))
    && (forall i :: 0 <= i < |hooks| && hooks[i].kind == INSERT_CALL ==> Callback(hooks[i].block))
  }

  lemma {:induction false} NativesKeepConsistent(d: Definition, hooks: seq<HookEntry>)
    requires MakeNatives(d, hooks).Some? && forall k :: k in d.bodies ==> Consistent(d.bodies[k])
    ensures forall k :: k in MakeNatives(d, hooks).value.bodies ==> Consistent(MakeNatives(d, hooks).value.bodies[k])
    decreases |hooks|
  {
    hide Consistent;
    if hooks != [] {
      NativesKeepConsistent(d, hooks[..|hooks| - 1]);
    }
  }

  lemma {:induction false} InsertsAreCallbacks(hooks: seq<HookEntry>)
    requires forall i :: 0 <= i < |hooks| && hooks[i].kind == INSERT_CALL ==> Callback(hooks[i].block)
    ensures Callbacks(Inserts(hooks))
    decreases |hooks|
  {
    hide Callback;
    if hooks != [] {
      InsertsAreCallbacks(hooks[..|hooks| - 1]);
    }
  }

  lemma {:induction false} InAtPlace(hooks: seq<InsertHook>, i: nat)
    requires i < |hooks|
    ensures hooks[i] in AtPlace(hooks, hooks[i])
  {
    var n := |hooks| - 1;
    if i < n {
      InAtPlace(hooks[..n], i);
    }
  }

  lemma {:induction false} AtPlaceIsIn(hooks: seq<InsertHook>, key: InsertHook, x: InsertHook)
    requires x in AtPlace(hooks, key)
    ensures x in hooks
  {
    if hooks != [] && x in AtPlace(hooks[..|hooks| - 1], key) {
      AtPlaceIsIn(hooks[..|hooks| - 1], key, x);
    }
  }

  lemma SortedAreCallbacks(sorted: seq<InsertHook>, hooks: seq<InsertHook>)
    requires StablySame(sorted, hooks) && Callbacks(hooks)
    ensures Callbacks(sorted)
  {
    hide Callback, AtPlace;
    forall i | 0 <= i < |sorted| ensures Callback(sorted[i].block) {
      InAtPlace(sorted, i);
      assert AtPlace(sorted, sorted[i]) == AtPlace(hooks, sorted[i]);
      AtPlaceIsIn(hooks, sorted[i], sorted[i]);
    }
  }

  /** Under any list of hooks, a method that is not replaced has the original
      body with the callbacks of its inserts woven in (the original operations
      alone when it has none). */
  lemma RebuiltMethod(original: Definition, hooks: seq<HookEntry>, d: Definition, key: MethodKey)
    requires Rebuilt(original, hooks, d) && Buildable(original, hooks)
    requires key in original.bodies && !IsHooked(hooks, key, MAKE_NATIVE)
    ensures key in d.bodies
    ensures Operations(d.bodies[key].code) == Woven(original.bodies[key].code, 0, ForMethod(Inserts(hooks), key))
  {
    hide Consistent, Woven, Operations, Callbacks, Callback, Sorted, InsertsInto, MakeNatives, ApplyInserts, StablySame;
    if hooks == [] {
      OperationsAlone(original.bodies[key]);
    } else {
      var sorted :| RebuiltBy(original, hooks, sorted, d);
      var natives := MakeNatives(original, hooks).value;
      NativesSpare(original, hooks, key);
      NativesKeepConsistent(original, hooks);
      InsertsAreCallbacks(hooks);
      SortedAreCallbacks(sorted, Inserts(hooks));
      InsertsAreWoven(natives, sorted);
      RebuildWeaves(natives.bodies, Inserts(hooks), sorted, key);
    }
  }

  /** The same for any list of inserts that has the ties of the hooks. */
  lemma RebuiltMethodAs(original: Definition, hooks: seq<HookEntry>, list: seq<InsertHook>, d: Definition, key: MethodKey)
    requires Rebuilt(original, hooks, d) && Buildable(original, hooks) && StablySame(Inserts(hooks), list)
    requires key in original.bodies && !IsHooked(hooks, key, MAKE_NATIVE)
    ensures key in d.bodies
    ensures Operations(d.bodies[key].code) == Woven(original.bodies[key].code, 0, ForMethod(list, key))
  {
    hide Consistent, Woven, Operations, Callbacks, Callback, Sorted, InsertsInto, MakeNatives, ApplyInserts, AtPlace;
    if hooks == [] {
      assert list == [];
      OperationsAlone(original.bodies[key]);
    } else {
      var sorted :| RebuiltBy(original, hooks, sorted, d);
      assert StablySame(sorted, list) && StablySame(list, Inserts(hooks));
      var natives := MakeNatives(original, hooks).value;
      NativesSpare(original, hooks, key);
      NativesKeepConsistent(original, hooks);
      InsertsAreCallbacks(hooks);
      SortedAreCallbacks(list, Inserts(hooks));
      SortedAreCallbacks(sorted, Inserts(hooks));
      InsertsAreWoven(natives, sorted);
      RebuildWeaves(natives.bodies, list, sorted, key);
    }
  }

  lemma OperationsAlone(e: Editor)
    requires Consistent(e)
    ensures Operations(e.code) == Woven(e.code, 0, [])
  {
    hide Consistent, Woven, Operations;
    InsertsWeave(e, []);
  }

  /** A replaced method is native, and its body lives on under the added name. */
  lemma RebuiltReplacement(original: Definition, hooks: seq<HookEntry>, d: Definition, i: nat)
    requires Rebuilt(original, hooks, d) && i < |hooks| && hooks[i].kind == MAKE_NATIVE
    requires (hooks[i].name, hooks[i].signature) in original.bodies
    requires forall j :: 0 <= j < |hooks| && j != i && hooks[j].kind == MAKE_NATIVE ==>
               (hooks[j].name, hooks[j].signature) != (hooks[i].name, hooks[i].signature)
    requires forall j :: 0 <= j < |hooks| ==>
               (hooks[j].name, hooks[j].signature) != (hooks[i].added, hooks[i].signature)
    ensures var copy := (hooks[i].added, hooks[i].signature);
      && (hooks[i].name, hooks[i].signature) in d.natives
      && copy in d.bodies && d.bodies[copy] == original.bodies[(hooks[i].name, hooks[i].signature)]
  {
    hide Sorted, InsertsInto, MakeNatives, ApplyInserts, StablySame;
    var sorted :| RebuiltBy(original, hooks, sorted, d);
    var natives := MakeNatives(original, hooks).value;
    var copy := (hooks[i].added, hooks[i].signature);
    NativesReplace(original, hooks, i);
    InsertsAreWoven(natives, sorted);
    MethodsAreIndependent(natives.bodies, sorted, copy);
    InsertsForMethod(hooks, copy);
    SortedHasNoMore(sorted, Inserts(hooks), copy);
  }

  lemma SortedHasNoMore(sorted: seq<InsertHook>, hooks: seq<InsertHook>, key: MethodKey)
    requires StablySame(sorted, hooks) && ForMethod(hooks, key) == []
    ensures ForMethod(sorted, key) == []
  {
    hide AtPlace;
    if ForMethod(sorted, key) != [] {
      InForMethod(sorted, key, 0);
      var x := ForMethod(sorted, key)[0];
      var i :| 0 <= i < |sorted| && sorted[i] == x;
      InAtPlace(sorted, i);
      AtPlaceIsIn(hooks, x, x);
      NamedIsListed(hooks, key, x);
    }
  }

  lemma {:induction false} NamedIsListed(hooks: seq<InsertHook>, key: MethodKey, x: InsertHook)
    requires x in hooks && (x.name, x.signature) == key
    ensures ForMethod(hooks, key) != []
  {
    if hooks[0] != x {
      NamedIsListed(hooks[1..], key, x);
    }
  }
}
