/** The registry in operation: install, uninstall, shut down. Whether the VM takes
    a redefinition, and whether it then binds the natives it declares, is not up to
    the registry and comes in as a flag and a predicate. */
module HookRegistry {
  import opened Bytes
  import opened Status
  import opened Instructions
  import opened References
  import opened Insertion
  import opened Rebuild
  import opened Weaving
  import opened HookedClasses
  import opened TiedInserts
  import opened Partition
  import opened Registry

  // ----- building a definition -----

  method MakeReplacements(original: Definition, hooks: seq<HookEntry>) returns (r: Option<Definition>)
    ensures r == MakeNatives(original, hooks)
  {
    hide MakeNative;
    var d := original;
    for i := 0 to |hooks|
      invariant MakeNatives(original, hooks[..i]) == Some(d)
    {
      assert hooks[..i + 1][..i] == hooks[..i];
      if hooks[i].kind == INSERT_CALL {
        continue;
      }
      var next := MakeNative(d, hooks[i]);
      if next.None? {
        NativesStayRefused(original, hooks, i + 1);
        return None;
      }
      d := next.value;
    }
    assert hooks[..|hooks|] == hooks;
    return Some(d);
  }

  lemma {:induction false} NativesStayRefused(original: Definition, hooks: seq<HookEntry>, i: nat)
    requires i <= |hooks| && MakeNatives(original, hooks[..i]).None?
    ensures MakeNatives(original, hooks).None?
    decreases |hooks|
  {
    if i == |hooks| {
      assert hooks[..i] == hooks;
    } else {
      assert hooks[..|hooks| - 1][..i] == hooks[..i];
      NativesStayRefused(original, hooks[..|hooks| - 1], i);
    }
  }

  method GatherInserts(hooks: seq<HookEntry>) returns (inserts: seq<InsertHook>)
    ensures inserts == Inserts(hooks)
  {
    inserts := [];
    for i := 0 to |hooks|
      invariant inserts == Inserts(hooks[..i])
    {
      assert hooks[..i + 1][..i] == hooks[..i];
      if hooks[i].kind == INSERT_CALL {
        inserts := inserts + [AsInsert(hooks[i])];
      }
    }
    assert hooks[..|hooks|] == hooks;
  }

  method ApplyAll(d: Definition, sorted: seq<InsertHook>) returns (r: Option<Definition>)
    ensures r == InsertsInto(d, sorted)
  {
    hide InsertInto;
    var now := d;
    for i := 0 to |sorted|
      invariant InsertsInto(now, sorted[i..]) == InsertsInto(d, sorted)
    {
      assert sorted[i..][1..] == sorted[i + 1..];
      var next := InsertInto(now, sorted[i]);
      if next.None? {
        return None;
      }
      now := next.value;
    }
    return Some(now);
  }

  /** The definition under a list of hooks, from the original alone; none if there
      is no such definition. */
  method Build(original: Definition, hooks: seq<HookEntry>) returns (r: Option<Definition>)
    ensures r.Some? ==> Rebuilt(original, hooks, r.value)
    ensures r.None? ==> !RebuildExists(original, hooks)
  {
    hide Sorted, StablySame, MakeNatives, InsertsInto;
    if |hooks| == 0 {
      return Some(original);
    }
    var natives := MakeReplacements(original, hooks);
    var inserts := GatherInserts(hooks);
    var sorted := new InsertHook[|inserts|](i requires 0 <= i < |inserts| => inserts[i]);
    assert sorted[..] == inserts;
    SortInserts(sorted);
    if natives.None? {
      NoRebuild(original, hooks, sorted[..]);
      return None;
    }
    r := ApplyAll(natives.value, sorted[..]);
    if r.Some? {
      assert RebuiltBy(original, hooks, sorted[..], r.value);
    } else {
      NoRebuild(original, hooks, sorted[..]);
    }
  }

  // ----- what an attempt comes to -----

  /** What the VM says to one attempt: whether it takes the definition, and which
      entries it then binds. */
  datatype Answers = Answers(accepted: bool, binds: HookEntry -> bool)

  predicate AllBound(binds: HookEntry -> bool, hooks: seq<HookEntry>) {
    forall j :: 0 <= j < |hooks| ==> binds(hooks[j])
  }

  ghost function Attempt(original: Definition, hooks: seq<HookEntry>, answers: Answers): HookStatus {
    if !RebuildExists(original, hooks) then TRANSFORM_FAILED
    else if !answers.accepted then JVMTI_FAILED
    else if !AllBound(answers.binds, hooks) then JNI_FAILED
    else HOOK_OK
  }

  /** The VM has the new definition, though perhaps not all of its natives. */
  predicate Taken(status: HookStatus) {
    status == HOOK_OK || status == JNI_FAILED
  }

  lemma RestoreAttempt(original: Definition, answers: Answers)
    ensures Attempt(original, [], answers) == if answers.accepted then HOOK_OK else JVMTI_FAILED
  {
    NothingTracked(original, original);
    assert Rebuilt(original, [], original);
  }

  /** After a refused install the old hooks are handed to the VM once more, if there
      are any. */
  ghost predicate Recovers(original: Definition, hooks: seq<HookEntry>, again: Answers) {
    hooks != [] && Taken(Attempt(original, hooks, again))
  }

  // ----- how lists change -----

  /** One entry more, at the end of one class's list. */
  ghost predicate Added(before: seq<HookedClass>, after: seq<HookedClass>, klass: ClassId, entry: HookEntry) {
    forall k :: HooksOf(after, k) == HooksOf(before, k) + (if k == klass then [entry] else [])
  }

  ghost predicate Removed(before: seq<HookedClass>, after: seq<HookedClass>, klass: ClassId, p: Pattern) {
    forall k :: HooksOf(after, k) == if k == klass then Kept(HooksOf(before, k), p) else HooksOf(before, k)
  }

  /** The entries of one class as the partition left them. */
  ghost predicate Rearranged(before: seq<HookedClass>, after: seq<HookedClass>, klass: ClassId, p: Pattern) {
    forall k :: HooksOf(after, k) ==
      if k == klass then Arranged(HooksOf(before, k), p, |HooksOf(before, k)|) else HooksOf(before, k)
  }

  predicate OnlyChanges(before: map<ClassId, Definition>, after: map<ClassId, Definition>, klass: ClassId) {
    before.Keys == after.Keys && forall k :: k in before && k != klass ==> after[k] == before[k]
  }

  predicate Hooked(hooks: seq<HookEntry>, id: MethodId) {
    exists j :: 0 <= j < |hooks| && hooks[j].id == id
  }

  /** Some registered entry matches. */
  predicate Removable(classes: seq<HookedClass>, p: Pattern) {
    exists i, j :: 0 <= i < |classes| && 0 <= j < |classes[i].hooks| && Matches(p, classes[i].hooks[j])
  }

  lemma ExtendedHooks(classes: seq<HookedClass>, i: nat, entry: HookEntry)
    requires DistinctClasses(classes) && i < |classes|
    ensures Added(classes, classes[i := HookedClass(classes[i].klass, classes[i].hooks + [entry])], classes[i].klass, entry)
  {
    hide HooksOf, DistinctClasses;
    HooksOfAt(classes, i);
    var c := HookedClass(classes[i].klass, classes[i].hooks + [entry]);
    forall k ensures HooksOf(classes[i := c], k) == HooksOf(classes, k) + (if k == c.klass then [entry] else []) {
      ReplacedHooks(classes, i, c, k);
    }
  }

  lemma BegunHooks(classes: seq<HookedClass>, klass: ClassId, entry: HookEntry)
    requires !Registered(classes, klass)
    ensures HooksOf(classes, klass) == []
    ensures Added(classes, classes + [HookedClass(klass, [entry])], klass, entry)
  {
    hide HooksOf, Registered;
    var c := HookedClass(klass, [entry]);
    HooksOfNone(classes, klass);
    forall k ensures HooksOf(classes + [c], k) == HooksOf(classes, k) + (if k == klass then [entry] else []) {
      AppendedHooks(classes, c, k);
    }
  }

  lemma RemovedHooks(classes: seq<HookedClass>, i: nat, p: Pattern)
    requires DistinctClasses(classes) && i < |classes|
    ensures var kept := Kept(classes[i].hooks, p);
      var after := if kept == [] then classes[..i] + classes[i + 1..] else classes[i := HookedClass(classes[i].klass, kept)];
      Removed(classes, after, classes[i].klass, p)
  {
    hide HooksOf, DistinctClasses, Kept;
    HooksOfAt(classes, i);
    var kept := Kept(classes[i].hooks, p);
    var after := if kept == [] then classes[..i] + classes[i + 1..] else classes[i := HookedClass(classes[i].klass, kept)];
    forall k ensures HooksOf(after, k) == if k == classes[i].klass then Kept(HooksOf(classes, k), p) else HooksOf(classes, k) {
      if kept == [] {
        DroppedHooks(classes, i, k);
      } else {
        ReplacedHooks(classes, i, HookedClass(classes[i].klass, kept), k);
      }
    }
  }

  lemma RearrangedHooks(classes: seq<HookedClass>, i: nat, p: Pattern)
    requires DistinctClasses(classes) && i < |classes|
    ensures var hooks := Arranged(classes[i].hooks, p, |classes[i].hooks|);
      Rearranged(classes, classes[i := HookedClass(classes[i].klass, hooks)], classes[i].klass, p)
  {
    hide HooksOf, DistinctClasses, Arranged;
    HooksOfAt(classes, i);
    var c := HookedClass(classes[i].klass, Arranged(classes[i].hooks, p, |classes[i].hooks|));
    forall k ensures HooksOf(classes[i := c], k) ==
      if k == classes[i].klass then Arranged(HooksOf(classes, k), p, |HooksOf(classes, k)|) else HooksOf(classes, k) {
      ReplacedHooks(classes, i, c, k);
    }
  }

  // ----- what the VM runs afterwards -----

  /** An install on one class, seen from any class: it is tracked afterwards exactly
      if it was and the VM was not left with what it could not bind. */
  lemma AfterInstall(w: World, w': World, before: seq<HookedClass>, after: seq<HookedClass>, serial: nat, klass: ClassId,
                     entry: HookEntry, status: HookStatus, again: Answers, k: ClassId)
    requires Shaped(w, before, serial) && klass in w.originals && k in w.originals
    requires w'.originals == w.originals && OnlyChanges(w.vm, w'.vm, klass)
    requires if status == HOOK_OK then InStep(w', after, klass) && Added(before, after, klass, entry) else after == before
    requires status != HOOK_OK ==> InstallRefused(w, w', after, klass, entry, status, again)
    ensures Tracked(w', after, k) <==> InstallTracks(w, before, klass, status, again, k, Tracked(w, before, k))
    ensures InOrder(w', after, k) <==> InstallTracks(w, before, klass, status, again, k, InOrder(w, before, k))
  {
    hide Tracked, InOrder, InStep, Rebuilt, HooksOf, Shaped, Fit, Attempt;
    ShapedOriginal(w, before, serial, klass);
    ShapedOriginal(w, before, serial, k);
    if k != klass {
      Untouched(w, w', before, after, k);
    } else if status == HOOK_OK || Recovers(w.originals[klass], HooksOf(before, klass), again) {
      InStepIsInOrder(w', after, klass);
    } else if status == JNI_FAILED {
      NotTracked(w', after, klass, HooksOf(before, klass) + [entry]);
    } else {
      Untouched(w, w', before, after, k);
    }
  }

  /** The VM after a refused install: the old hooks once more, or else the hooks it
      could not bind, or else what it had. */
  ghost predicate InstallRefused(w: World, w': World, classes: seq<HookedClass>, klass: ClassId, entry: HookEntry,
                                 status: HookStatus, again: Answers)
    requires klass in w.originals
  {
    if Recovers(w.originals[klass], HooksOf(classes, klass), again) then InStep(w', classes, klass)
    else if status == JNI_FAILED then
      klass in w'.vm && Rebuilt(w.originals[klass], HooksOf(classes, klass) + [entry], w'.vm[klass])
    else w'.vm == w.vm
  }

  ghost predicate InstallTracks(w: World, before: seq<HookedClass>, klass: ClassId, status: HookStatus, again: Answers,
                                k: ClassId, was: bool)
    requires klass in w.originals
  {
    if k != klass then was
    else status == HOOK_OK || Recovers(w.originals[klass], HooksOf(before, klass), again) || (status != JNI_FAILED && was)
  }

  /** Running a rebuild under a list of another length is not running the list. */
  lemma NotTracked(w: World, classes: seq<HookedClass>, klass: ClassId, hooks: seq<HookEntry>)
    requires klass in w.originals && klass in w.vm && Proper(w.originals[klass])
    requires Rebuilt(w.originals[klass], hooks, w.vm[klass]) && |hooks| != |HooksOf(classes, klass)|
    ensures !Tracked(w, classes, klass) && !InOrder(w, classes, klass)
  {
    hide Rebuilt, HooksOf, Tracks, InOrder, Proper;
    WrongCount(w.originals[klass], HooksOf(classes, klass), hooks, w.vm[klass]);
    if InOrder(w, classes, klass) {
      InOrderIsTracked(w, classes, klass);
    }
  }

  /** The VM after a refused uninstall: what it had, or the rest it could not bind. */
  ghost predicate UninstallRefused(w: World, w': World, before: seq<HookedClass>, klass: ClassId, p: Pattern, status: HookStatus)
    requires klass in w.originals
  {
    if status == JNI_FAILED then
      && klass in w'.vm && Rebuilt(w.originals[klass], Kept(HooksOf(before, klass), p), w'.vm[klass])
      && |Kept(HooksOf(before, klass), p)| < |HooksOf(before, klass)|
    else w'.vm == w.vm
  }

  /** A refused uninstall keeps the order in which the class's inserts are applied
      if the VM was not left with the rest and the swaps exchanged no tie. */
  predicate OrderSurvives(before: seq<HookedClass>, klass: ClassId, p: Pattern, status: HookStatus, k: ClassId) {
    k == klass && status != HOOK_OK ==> status != JNI_FAILED && !ExchangesTies(HooksOf(before, k), p)
  }

  /** An uninstall on one class, seen from any class. */
  lemma AfterUninstall(w: World, w': World, before: seq<HookedClass>, after: seq<HookedClass>, serial: nat, klass: ClassId,
                       p: Pattern, status: HookStatus, k: ClassId)
    requires Shaped(w, before, serial) && klass in w.originals && k in w.originals
    requires w'.originals == w.originals && OnlyChanges(w.vm, w'.vm, klass)
    requires if status == HOOK_OK then InStep(w', after, klass) && Removed(before, after, klass, p)
             else Rearranged(before, after, klass, p) && UninstallRefused(w, w', before, klass, p, status)
    ensures Tracked(w', after, k) <==>
      if k != klass then Tracked(w, before, k) else status == HOOK_OK || (status != JNI_FAILED && Tracked(w, before, k))
    ensures k != klass ==> (InOrder(w', after, k) <==> InOrder(w, before, k))
    ensures k == klass && status == HOOK_OK ==> InOrder(w', after, k)
    ensures k == klass && InOrder(w, before, k) && status != JNI_FAILED && !ExchangesTies(HooksOf(before, klass), p)
      ==> InOrder(w', after, k)
  {
    hide Tracked, InOrder, InStep, Rebuilt, HooksOf, Shaped, Fit, Kept, Arranged, ExchangesTies;
    ShapedOriginal(w, before, serial, klass);
    ShapedOriginal(w, before, serial, k);
    if k != klass {
      Untouched(w, w', before, after, k);
    } else if status == HOOK_OK {
      InStepIsInOrder(w', after, klass);
    } else {
      ArrangedWhole(HooksOf(before, klass), p);
      if status == JNI_FAILED {
        assert |multiset(HooksOf(after, klass))| == |multiset(HooksOf(before, klass))|;
        NotTracked(w', after, klass, Kept(HooksOf(before, klass), p));
      } else {
        ReorderedTracks(w, w', before, after, klass, p);
        if InOrder(w, before, k) && !ExchangesTies(HooksOf(before, klass), p) {
          ReorderedInOrder(w, w', before, after, serial, klass, p);
        }
      }
    }
  }

  lemma ReorderedTracks(w: World, w': World, before: seq<HookedClass>, after: seq<HookedClass>, klass: ClassId, p: Pattern)
    requires w'.originals == w.originals && w'.vm == w.vm && klass in w.originals
    requires multiset(HooksOf(after, klass)) == multiset(HooksOf(before, klass))
    ensures Tracked(w', after, klass) <==> Tracked(w, before, klass)
  {
    hide Rebuilt, HooksOf;
  }

  lemma ReorderedInOrder(w: World, w': World, before: seq<HookedClass>, after: seq<HookedClass>, serial: nat, klass: ClassId, p: Pattern)
    requires Shaped(w, before, serial) && InOrder(w, before, klass)
    requires w'.originals == w.originals && w'.vm == w.vm
    requires var hooks := HooksOf(before, klass); HooksOf(after, klass) == Arranged(hooks, p, |hooks|) && !ExchangesTies(hooks, p)
    ensures InOrder(w', after, klass)
  {
    hide Rebuilt, HooksOf, Shaped, Arranged, Inserts, AtPlace, Exclusive, EntryFit, Distinct, Exchanged;
    var hooks := HooksOf(before, klass);
    ShapedOriginal(w, before, serial, klass);
    FitIsDistinct(hooks);
    ArrangedWhole(hooks, p);
    SameInserts(hooks, Arranged(hooks, p, |hooks|));
    StableIffNotExchanged(Inserts(hooks), Inserts(Arranged(hooks, p, |hooks|)));
    var applied :| multiset(applied) == multiset(hooks) && StablySame(Inserts(applied), Inserts(hooks))
                && Rebuilt(w.originals[klass], applied, w.vm[klass]);
    assert StablySame(Inserts(applied), Inserts(HooksOf(after, klass)));
  }

  // ----- the registry as it is updated -----

  class Hooks {
    const info: map<MethodId, MethodInfo>
    const originals: map<ClassId, Definition>
    var vm: map<ClassId, Definition>
    var classes: seq<HookedClass>
    var serial: nat
    var initialized: bool

    function View(): World
      reads this
    {
      World(info, originals, vm)
    }

    predicate Valid()
      reads this
    {
      Shaped(View(), classes, serial)
    }

    constructor (methods: map<MethodId, MethodInfo>, definitions: map<ClassId, Definition>)
      requires AllProper(definitions)
      ensures Valid() && initialized && info == methods && originals == definitions
      ensures vm == definitions && classes == [] && AllInOrder(View(), classes) && Sound(View(), classes)
    {
      info, originals := methods, definitions;
      vm, classes, serial, initialized := definitions, [], 0, true;
      new;
      forall k | k in originals ensures InOrder(View(), classes, k) && Tracked(View(), classes, k) {
        NothingTracked(originals[k], vm[k]);
        InStepIsInOrder(View(), classes, k);
      }
    }

    /** Binds every native, also after one that is refused. */
    method BindAll(binds: HookEntry -> bool, hooks: seq<HookEntry>) returns (all: bool)
      ensures all == AllBound(binds, hooks)
    {
      all := true;
      for i := 0 to |hooks|
        invariant all == AllBound(binds, hooks[..i])
      {
        assert forall j :: 0 <= j < i ==> hooks[..i + 1][j] == hooks[..i][j];
        if !binds(hooks[i]) {
          assert hooks[..i + 1][i] == hooks[i];
          all := false;
        }
      }
      assert hooks[..|hooks|] == hooks;
    }

    /** Rebuilds a class from its original, asks the VM to take it, and binds its
        natives. A native that is refused is reported when the VM already has the
        definition. */
    method Reapply(klass: ClassId, hooks: seq<HookEntry>, answers: Answers) returns (status: HookStatus)
      requires klass in originals && vm.Keys == originals.Keys
      modifies this`vm
      ensures OnlyChanges(old(vm), vm, klass)
      ensures status == Attempt(originals[klass], hooks, answers)
      ensures if Taken(status) then Rebuilt(originals[klass], hooks, vm[klass]) else vm == old(vm)
    {
      hide Rebuilt;
      var definition := Build(originals[klass], hooks);
      if definition.None? {
        return TRANSFORM_FAILED;
      }
      if !answers.accepted {
        return JVMTI_FAILED;
      }
      vm := vm[klass := definition.value];
      var bound := BindAll(answers.binds, hooks);
      return if bound then HOOK_OK else JNI_FAILED;
    }

    method FindClass(klass: ClassId) returns (i: nat)
      ensures i <= |classes| && (i < |classes| ==> classes[i].klass == klass)
      ensures i == |classes| ==> !Registered(classes, klass)
    {
      i := 0;
      while i < |classes| && classes[i].klass != klass
        invariant i <= |classes| && forall k :: 0 <= k < i ==> classes[k].klass != klass
      {
        i := i + 1;
      }
    }

    method MethodConflicts(id: MethodId, kind: HookKind) returns (r: bool)
      ensures r == Conflicts(classes, id, kind)
    {
      for i := 0 to |classes|
        invariant forall a, b :: 0 <= a < i && 0 <= b < |classes[a].hooks| ==> !ConflictsWith(classes[a].hooks[b], id, kind)
      {
        for j := 0 to |classes[i].hooks|
          invariant forall b :: 0 <= b < j ==> !ConflictsWith(classes[i].hooks[b], id, kind)
        {
          var entry := classes[i].hooks[j];
          if entry.id == id && (kind == MAKE_NATIVE || entry.kind == MAKE_NATIVE) {
            assert ConflictsWith(classes[i].hooks[j], id, kind);
            return true;
          }
        }
      }
      return false;
    }

    /** Adds an entry to a class that already has hooks. */
    method Extend(i: nat, entry: HookEntry, answers: Answers, again: Answers) returns (status: HookStatus)
      requires Valid() && i < |classes|
      requires Fit(info, serial, classes[i].klass, classes[i].hooks + [entry])
      modifies this`vm, this`classes
      ensures Valid() && OnlyChanges(old(vm), vm, old(classes)[i].klass)
      ensures old(classes)[i].klass in originals
      ensures status == Attempt(originals[old(classes)[i].klass], old(classes)[i].hooks + [entry], answers)
      ensures if status == HOOK_OK
        then InStep(View(), classes, old(classes)[i].klass) && Added(old(classes), classes, old(classes)[i].klass, entry)
        else classes == old(classes) && InstallRefused(old(View()), View(), classes, old(classes)[i].klass, entry, status, again)
    {
      hide Fit, Rebuilt, Added, ClassShaped, Attempt, AllProper, HooksOf, Shaped;
      ghost var w, before := View(), classes;
      ShapedAt(w, classes, serial, i);
      ShapedParts(w, classes, serial);
      var klass := classes[i].klass;
      var hooks := classes[i].hooks + [entry];
      classes := classes[i := HookedClass(klass, hooks)];
      status := Reapply(klass, hooks, answers);
      if status != HOOK_OK {
        classes := classes[i := HookedClass(klass, hooks[..|hooks| - 1])];
        assert hooks[..|hooks| - 1] == before[i].hooks;
        assert classes == before;
        var second := Reapply(klass, classes[i].hooks, again);
        ShapeIgnoresVM(w, vm, classes, serial);
        return;
      }
      ExtendedHooks(before, i, entry);
      AddedAt(before, classes, klass, entry);
      ShapedReplaced(w, before, serial, i, hooks);
      ShapeIgnoresVM(w, vm, classes, serial);
    }

    /** The first entry of a class. A refusal drops the class, whatever the VM has
        been given by then. */
    method Begin(klass: ClassId, entry: HookEntry, answers: Answers) returns (status: HookStatus)
      requires Valid() && klass in originals && !Registered(classes, klass)
      requires Fit(info, serial, klass, [entry])
      modifies this`vm, this`classes
      ensures Valid() && OnlyChanges(old(vm), vm, klass)
      ensures HooksOf(old(classes), klass) == []
      ensures status == Attempt(originals[klass], [entry], answers)
      ensures if status == HOOK_OK then InStep(View(), classes, klass) && Added(old(classes), classes, klass, entry)
        else classes == old(classes) && (if status == JNI_FAILED then Rebuilt(originals[klass], [entry], vm[klass]) else vm == old(vm))
    {
      hide Fit, Rebuilt, Added, ClassShaped, Attempt, AllProper, HooksOf, Shaped, Registered;
      ghost var w, before := View(), classes;
      ShapedParts(w, classes, serial);
      BegunHooks(before, klass, entry);
      classes := classes + [HookedClass(klass, [entry])];
      status := Reapply(klass, [entry], answers);
      if status != HOOK_OK {
        classes := classes[..|classes| - 1];
        assert classes == before;
        ShapeIgnoresVM(w, vm, classes, serial);
        return;
      }
      AddedAt(before, classes, klass, entry);
      assert [] + [entry] == [entry];
      ShapedAppended(w, before, serial, klass, [entry]);
      ShapeIgnoresVM(w, vm, classes, serial);
    }

    /** The calls that get as far as the VM. */
    predicate Tried(id: MethodId, kind: HookKind, callback: nat)
      reads this
    {
      && id != 0 && callback != 0 && initialized && !Conflicts(classes, id, kind)
      && id in info && info[id].klass in originals
    }

    /** Installs one hook. Whatever goes wrong, the lists are as they were. The class
        runs what the registry says, unless the VM took the new definition, a native
        could not be bound, and the class had no hooks to hand to the VM instead, or
        the VM did not take them. */
    method Install(id: MethodId, kind: HookKind, offset: u4, callback: nat, block: seq<Instruction>,
                   answers: Answers, again: Answers) returns (status: HookStatus)
      requires Valid() && (kind == INSERT_CALL ==> Callback(block))
      modifies this`vm, this`classes, this`serial
      ensures Valid()
      ensures id == 0 || callback == 0 ==> status == TRANSFORM_FAILED
      ensures id != 0 && callback != 0 && !initialized ==> status == NOT_INITIALIZED
      ensures status == ALREADY_HOOKED <==> id != 0 && callback != 0 && initialized && Conflicts(old(classes), id, kind)
      ensures status == JNI_FAILED ==> old(Tried(id, kind, callback))
      ensures !old(Tried(id, kind, callback)) ==> status != HOOK_OK && vm == old(vm) && classes == old(classes)
      ensures old(Tried(id, kind, callback)) ==>
        var klass := info[id].klass; var entry := NewEntry(info[id], old(serial), id, kind, offset, callback, block);
        && status == Attempt(originals[klass], HooksOf(old(classes), klass) + [entry], answers)
        && OnlyChanges(old(vm), vm, klass)
        && (if status == HOOK_OK then InStep(View(), classes, klass) && Added(old(classes), classes, klass, entry)
            else classes == old(classes) && InstallRefused(old(View()), View(), classes, klass, entry, status, again))
      ensures old(Tried(id, kind, callback)) ==> forall k :: k in originals ==>
        && (Tracked(View(), classes, k)
            <==> InstallTracks(old(View()), old(classes), info[id].klass, status, again, k, Tracked(old(View()), old(classes), k)))
        && (InOrder(View(), classes, k)
            <==> InstallTracks(old(View()), old(classes), info[id].klass, status, again, k, InOrder(old(View()), old(classes), k)))
      ensures old(Tried(id, kind, callback)) && Sound(old(View()), old(classes)) ==>
        (Sound(View(), classes)
         <==> status != JNI_FAILED || Recovers(originals[info[id].klass], HooksOf(old(classes), info[id].klass), again))
    {
      hide Added, InStep, Conflicts, Attempt, HooksOf, Fit, Shaped, InstallRefused, Tracked, InOrder, InstallTracks, Rebuilt, Callback, Recovers, OnlyChanges, Sound;
      if id == 0 || callback == 0 {
        return TRANSFORM_FAILED;
      }
      if !initialized {
        return NOT_INITIALIZED;
      }
      var conflict := MethodConflicts(id, kind);
      if conflict {
        return ALREADY_HOOKED;
      }
      if id !in info {
        return JVMTI_FAILED;
      }
      ghost var w, before, number := View(), classes, serial;
      var entry := NewEntry(info[id], serial, id, kind, offset, callback, block);
      if kind == INSERT_CALL {
        serial := serial + 1;
      }
      ShapedLater(w, classes, number, serial);
      var klass := info[id].klass;
      if klass !in originals {
        return CLASS_NOT_CACHED;
      }
      NewEntryFits(w, classes, number, info[id], id, kind, offset, callback, block);
      AttemptIsNot(originals[klass], HooksOf(before, klass) + [entry], answers);
      var i := FindClass(klass);
      if i < |classes| {
        ShapedAt(w, classes, number, i);
        status := Extend(i, entry, answers, again);
      } else {
        NoHooks(classes, klass);
        assert [] + [entry] == [entry];
        status := Begin(klass, entry, answers);
        ShapedParts(View(), classes, serial);
        BegunRefused(w, View(), classes, klass, entry, status, again);
      }
      InstallSeen(w, View(), before, classes, number, klass, entry, status, again);
    }

    method FindHooked(id: MethodId) returns (i: nat)
      ensures i <= |classes| && (i < |classes| ==> Hooked(classes[i].hooks, id))
      ensures i == |classes| ==> forall j :: 0 <= j < |classes| ==> !Hooked(classes[j].hooks, id)
    {
      i := 0;
      while i < |classes|
        invariant i <= |classes| && forall j :: 0 <= j < i ==> !Hooked(classes[j].hooks, id)
      {
        for j := 0 to |classes[i].hooks|
          invariant forall k :: 0 <= k < j ==> classes[i].hooks[k].id != id
        {
          if classes[i].hooks[j].id == id {
            return;
          }
        }
        i := i + 1;
      }
    }

    method IsInstalled(id: MethodId) returns (r: bool)
      ensures r == (initialized && exists i :: 0 <= i < |classes| && Hooked(classes[i].hooks, id))
    {
      if !initialized {
        return false;
      }
      var i := FindHooked(id);
      return i < |classes|;
    }

    /** Takes the entries matching p out of the class at i. */
    method Remove(i: nat, p: Pattern, answers: Answers) returns (status: HookStatus)
      requires Valid() && i < |classes|
      modifies this`vm, this`classes
      ensures Valid() && OnlyChanges(old(vm), vm, old(classes)[i].klass) && old(classes)[i].klass in originals
      ensures if |Kept(old(classes)[i].hooks, p)| == |old(classes)[i].hooks|
        then status == NOT_HOOKED && classes == old(classes) && vm == old(vm)
        else
          && status == Attempt(originals[old(classes)[i].klass], Kept(old(classes)[i].hooks, p), answers)
          && (if status == HOOK_OK
              then InStep(View(), classes, old(classes)[i].klass) && Removed(old(classes), classes, old(classes)[i].klass, p)
              else (Rearranged(old(classes), classes, old(classes)[i].klass, p)
                    && UninstallRefused(old(View()), View(), old(classes), old(classes)[i].klass, p, status)))
    {
      hide Fit, Rebuilt, Removed, Rearranged, ClassShaped, Attempt, AllProper, HooksOf, Shaped, Kept, Arranged;
      ghost var w, before := View(), classes;
      ShapedAt(w, classes, serial, i);
      ShapedParts(w, classes, serial);
      var klass, hooks := classes[i].klass, classes[i].hooks;
      var moved, kept := MoveAside(hooks, p);
      if kept == |hooks| {
        return NOT_HOOKED;
      }
      status := Reapply(klass, moved[..kept], answers);
      if status != HOOK_OK {
        classes := classes[i := HookedClass(klass, moved)];
        RearrangedHooks(before, i, p);
        FitReordered(info, serial, klass, hooks, moved);
        ShapedReplaced(w, before, serial, i, moved);
        ShapeIgnoresVM(w, vm, classes, serial);
        return;
      }
      RemovedHooks(before, i, p);
      if kept == 0 {
        classes := classes[..i] + classes[i + 1..];
        ShapedDropped(w, before, serial, i);
      } else {
        classes := classes[i := HookedClass(klass, moved[..kept])];
        FitKept(info, serial, klass, hooks, p);
        ShapedReplaced(w, before, serial, i, moved[..kept]);
      }
      RemovedAt(before, classes, klass, p);
      ShapeIgnoresVM(w, vm, classes, serial);
    }

    /** Removes every entry matching p. A refusal keeps them all, in the order the
        partition left them in; if a native could not be bound the VM runs the rest
        while the registry still has all. */
    method Uninstall(p: Pattern, answers: Answers) returns (status: HookStatus)
      requires Valid()
      modifies this`vm, this`classes
      ensures Valid()
      ensures status == NOT_INITIALIZED <==> !initialized
      ensures status == NOT_HOOKED <==> initialized && !Removable(old(classes), p)
      ensures status in {NOT_INITIALIZED, NOT_HOOKED} ==> vm == old(vm) && classes == old(classes)
      ensures status !in {NOT_INITIALIZED, NOT_HOOKED} ==>
        && p.id in info && info[p.id].klass in originals
        && var klass := info[p.id].klass;
        && status == Attempt(originals[klass], Kept(HooksOf(old(classes), klass), p), answers)
        && OnlyChanges(old(vm), vm, klass)
        && (if status == HOOK_OK then InStep(View(), classes, klass) && Removed(old(classes), classes, klass, p)
            else (Rearranged(old(classes), classes, klass, p)
                  && UninstallRefused(old(View()), View(), old(classes), klass, p, status)))
      ensures status !in {NOT_INITIALIZED, NOT_HOOKED} ==> forall k :: k in originals ==>
        && (Tracked(View(), classes, k) <==>
              if k == info[p.id].klass then status == HOOK_OK || (status != JNI_FAILED && Tracked(old(View()), old(classes), k))
              else Tracked(old(View()), old(classes), k))
        && (InOrder(old(View()), old(classes), k) && OrderSurvives(old(classes), info[p.id].klass, p, status, k)
            ==> InOrder(View(), classes, k))
        && (k == info[p.id].klass && status == HOOK_OK ==> InOrder(View(), classes, k))
      ensures status !in {NOT_INITIALIZED, NOT_HOOKED} && Sound(old(View()), old(classes)) ==>
        (Sound(View(), classes) <==> status != JNI_FAILED)
    {
      hide Removed, Rearranged, InStep, Removable, Hooked, Kept, Attempt, Fit, Shaped, HooksOf, Rebuilt, Tracked, InOrder, ExchangesTies, UninstallRefused, OnlyChanges, Sound;
      if !initialized {
        return NOT_INITIALIZED;
      }
      var i := FindHooked(p.id);
      if i == |classes| {
        NothingRemovable(classes, p);
        return NOT_HOOKED;
      }
      ghost var w, before := View(), classes;
      OnlyOwnerIsRemovable(w, classes, serial, i, p);
      ShapedAt(w, classes, serial, i);
      status := Remove(i, p, answers);
      AttemptIsNot(originals[before[i].klass], Kept(before[i].hooks, p), answers);
      if status != NOT_HOOKED {
        forall k | k in originals
          ensures (Tracked(View(), classes, k) <==>
              if k == info[p.id].klass then status == HOOK_OK || (status != JNI_FAILED && Tracked(w, before, k)) else Tracked(w, before, k))
            && (InOrder(w, before, k) && OrderSurvives(before, info[p.id].klass, p, status, k) ==> InOrder(View(), classes, k))
            && (k == info[p.id].klass && status == HOOK_OK ==> InOrder(View(), classes, k))
        {
          AfterUninstall(w, View(), before, classes, serial, before[i].klass, p, status, k);
        }
        SoundAfterUninstall(w, View(), before, classes, info[p.id].klass, status);
      }
    }

    /** Restores every hooked class, last registered first. Every class the VM
        takes back runs its original again; the others run what they ran. */
    method Shutdown(accepts: ClassId -> bool) returns (status: HookStatus)
      requires Valid()
      modifies this
      ensures Valid() && !initialized
      ensures !old(initialized) ==> status == HOOK_OK && vm == old(vm)
      ensures old(initialized) ==>
        && classes == []
        && (status == HOOK_OK <==> forall i :: 0 <= i < |old(classes)| ==> accepts(old(classes)[i].klass))
        && (status == HOOK_OK && Sound(old(View()), old(classes)) ==> vm == originals)
        && AfterShutdown(originals, old(vm), vm, old(classes), accepts)
    {
      hide Shaped, AfterShutdown, Sound;
      if !initialized {
        return HOOK_OK;
      }
      initialized := false;
      AllAreKnown(View(), classes, serial);
      ghost var w, all := View(), classes;
      status := RestoreAll(accepts);
      NothingShaped(w, vm, all, serial);
      if Sound(w, all) {
        AllRestored(w, all, vm, accepts);
      }
    }

    method RestoreAll(accepts: ClassId -> bool) returns (status: HookStatus)
      requires vm.Keys == originals.Keys && AllKnown(originals, classes)
      modifies this`vm, this`classes
      ensures vm.Keys == originals.Keys && classes == []
      ensures status == HOOK_OK <==> forall i :: 0 <= i < |old(classes)| ==> accepts(old(classes)[i].klass)
      ensures AfterShutdown(originals, old(vm), vm, old(classes), accepts)
    {
      hide AfterShutdown, Rebuilt, Attempt;
      status := HOOK_OK;
      ghost var before, all := vm, classes;
      NothingOffered(originals, vm, accepts);
      assert all[|classes|..] == [];
      while |classes| > 0
        invariant vm.Keys == originals.Keys
        invariant classes <= all && AfterShutdown(originals, before, vm, all[|classes|..], accepts)
        invariant status == HOOK_OK <==> forall i :: |classes| <= i < |all| ==> accepts(all[i].klass)
        decreases |classes|
      {
        var last := |classes| - 1;
        var klass := classes[last].klass;
        ghost var now := vm;
        var answers := Answers(accepts(klass), _ => true);
        RestoreAttempt(originals[klass], answers);
        var restored := Reapply(klass, [], answers);
        NothingTracked(originals[klass], vm[klass]);
        if restored != HOOK_OK && status == HOOK_OK {
          status := restored;
        }
        Exchange(now, vm, klass);
        ShutdownOne(originals, before, now, all, last, accepts);
        classes := classes[..last];
      }
      assert all[0..] == all;
    }
  }

  // ----- facts the methods use -----

  lemma InstallSeen(w: World, w': World, before: seq<HookedClass>, after: seq<HookedClass>, serial: nat, klass: ClassId,
                    entry: HookEntry, status: HookStatus, again: Answers)
    requires Shaped(w, before, serial) && klass in w.originals
    requires w'.originals == w.originals && OnlyChanges(w.vm, w'.vm, klass)
    requires if status == HOOK_OK then InStep(w', after, klass) && Added(before, after, klass, entry) else after == before
    requires status != HOOK_OK ==> InstallRefused(w, w', after, klass, entry, status, again)
    ensures forall k :: k in w.originals ==>
      && (Tracked(w', after, k) <==> InstallTracks(w, before, klass, status, again, k, Tracked(w, before, k)))
      && (InOrder(w', after, k) <==> InstallTracks(w, before, klass, status, again, k, InOrder(w, before, k)))
    ensures Sound(w, before) ==>
      (Sound(w', after) <==> status != JNI_FAILED || Recovers(w.originals[klass], HooksOf(before, klass), again))
  {
    hide Shaped, InStep, Added, OnlyChanges, InstallRefused, Tracked, InOrder, InstallTracks, Sound, Recovers, HooksOf;
    forall k | k in w.originals
      ensures (Tracked(w', after, k) <==> InstallTracks(w, before, klass, status, again, k, Tracked(w, before, k)))
           && (InOrder(w', after, k) <==> InstallTracks(w, before, klass, status, again, k, InOrder(w, before, k)))
    {
      AfterInstall(w, w', before, after, serial, klass, entry, status, again, k);
    }
    SoundAfterInstall(w, w', before, after, klass, status, again);
  }

  lemma SoundAfterInstall(w: World, w': World, before: seq<HookedClass>, after: seq<HookedClass>, klass: ClassId,
                          status: HookStatus, again: Answers)
    requires klass in w.originals && w'.originals == w.originals
    requires forall k :: k in w.originals ==>
      (Tracked(w', after, k) <==> InstallTracks(w, before, klass, status, again, k, Tracked(w, before, k)))
    ensures Sound(w, before) ==>
      (Sound(w', after) <==> status != JNI_FAILED || Recovers(w.originals[klass], HooksOf(before, klass), again))
  {
    hide Tracked, Recovers, HooksOf;
  }

  lemma SoundAfterUninstall(w: World, w': World, before: seq<HookedClass>, after: seq<HookedClass>, klass: ClassId, status: HookStatus)
    requires klass in w.originals && w'.originals == w.originals
    requires forall k :: k in w.originals ==>
      (Tracked(w', after, k) <==>
        if k == klass then status == HOOK_OK || (status != JNI_FAILED && Tracked(w, before, k)) else Tracked(w, before, k))
    ensures Sound(w, before) ==> (Sound(w', after) <==> status != JNI_FAILED)
  {
    hide Tracked, HooksOf;
  }

  lemma Exchange(before: map<ClassId, Definition>, after: map<ClassId, Definition>, klass: ClassId)
    requires OnlyChanges(before, after, klass) && klass in before
    ensures after == before[klass := after[klass]]
  {
  }

  lemma ShapedParts(w: World, classes: seq<HookedClass>, serial: nat)
    requires Shaped(w, classes, serial)
    ensures w.vm.Keys == w.originals.Keys && DistinctClasses(classes)
  {
    hide AllProper, ClassShaped;
  }

  lemma NothingShaped(w: World, vm: map<ClassId, Definition>, classes: seq<HookedClass>, serial: nat)
    requires Shaped(w, classes, serial) && vm.Keys == w.originals.Keys
    ensures Shaped(World(w.info, w.originals, vm), [], serial)
  {
    hide AllProper, Fit;
  }

  lemma AddedAt(before: seq<HookedClass>, after: seq<HookedClass>, klass: ClassId, entry: HookEntry)
    requires Added(before, after, klass, entry)
    ensures HooksOf(after, klass) == HooksOf(before, klass) + [entry]
  {
    hide HooksOf;
  }

  lemma RemovedAt(before: seq<HookedClass>, after: seq<HookedClass>, klass: ClassId, p: Pattern)
    requires Removed(before, after, klass, p)
    ensures HooksOf(after, klass) == Kept(HooksOf(before, klass), p)
  {
    hide HooksOf, Kept;
  }

  lemma NoHooks(classes: seq<HookedClass>, klass: ClassId)
    requires !Registered(classes, klass)
    ensures HooksOf(classes, klass) == []
  {
    HooksOfNone(classes, klass);
  }

  lemma AttemptIsNot(original: Definition, hooks: seq<HookEntry>, answers: Answers)
    ensures Attempt(original, hooks, answers) in {HOOK_OK, TRANSFORM_FAILED, JVMTI_FAILED, JNI_FAILED}
  {
    hide RebuildExists;
  }

  lemma BegunRefused(w: World, w': World, classes: seq<HookedClass>, klass: ClassId, entry: HookEntry, status: HookStatus, again: Answers)
    requires klass in w.originals && klass in w'.vm
    requires status != HOOK_OK ==> HooksOf(classes, klass) == []
    requires status != HOOK_OK ==>
      if status == JNI_FAILED then Rebuilt(w.originals[klass], [entry], w'.vm[klass]) else w'.vm == w.vm
    ensures status != HOOK_OK ==> InstallRefused(w, w', classes, klass, entry, status, again)
  {
    hide Rebuilt, HooksOf, Attempt;
    assert [] + [entry] == [entry];
  }

  lemma NewEntryFits(w: World, classes: seq<HookedClass>, serial: nat, m: MethodInfo, id: MethodId, kind: HookKind,
                     offset: u4, callback: nat, block: seq<Instruction>)
    requires Shaped(w, classes, serial) && id in w.info && w.info[id] == m && m.klass in w.originals
    requires !Conflicts(classes, id, kind) && (kind == INSERT_CALL ==> Callback(block))
    ensures Fit(w.info, if kind == INSERT_CALL then serial + 1 else serial, m.klass,
                HooksOf(classes, m.klass) + [NewEntry(m, serial, id, kind, offset, callback, block)])
  {
    hide Shaped, Fit, Callback, InsertName;
    var entry := NewEntry(m, serial, id, kind, offset, callback, block);
    ShapedOriginal(w, classes, serial, m.klass);
    var hooks := HooksOf(classes, m.klass);
    forall j | 0 <= j < |hooks| ensures !ConflictsWith(hooks[j], entry.id, entry.kind) {
      NoConflictIn(classes, m.klass, id, kind, j);
    }
    FitExtended(w.info, serial, m.klass, hooks, entry);
  }

  lemma {:induction false} NoConflictIn(classes: seq<HookedClass>, klass: ClassId, id: MethodId, kind: HookKind, j: nat)
    requires !Conflicts(classes, id, kind) && j < |HooksOf(classes, klass)|
    ensures !ConflictsWith(HooksOf(classes, klass)[j], id, kind)
    decreases |classes|
  {
    hide ConflictsWith;
    if classes[0].klass == klass {
      assert classes[0].hooks[j] == HooksOf(classes, klass)[j];
    } else {
      forall a, b | 0 <= a < |classes[1..]| && 0 <= b < |classes[1..][a].hooks|
        ensures !ConflictsWith(classes[1..][a].hooks[b], id, kind)
      {
        assert classes[1..][a] == classes[a + 1];
      }
      NoConflictIn(classes[1..], klass, id, kind, j);
    }
  }

  lemma NothingRemovable(classes: seq<HookedClass>, p: Pattern)
    requires forall j :: 0 <= j < |classes| ==> !Hooked(classes[j].hooks, p.id)
    ensures !Removable(classes, p)
  {
  }

  /** A method's hooks all sit in one class, so looking there is enough. */
  lemma OnlyOwnerIsRemovable(w: World, classes: seq<HookedClass>, serial: nat, i: nat, p: Pattern)
    requires Shaped(w, classes, serial) && i < |classes| && Hooked(classes[i].hooks, p.id)
    ensures Removable(classes, p) <==> |Kept(classes[i].hooks, p)| != |classes[i].hooks|
    ensures p.id in w.info && w.info[p.id].klass == classes[i].klass
  {
    hide AllProper, Callback, Numbered, Exclusive, Kept;
    KeptAll(classes[i].hooks, p);
    var j0 :| 0 <= j0 < |classes[i].hooks| && classes[i].hooks[j0].id == p.id;
    assert ClassShaped(w, serial, classes[i]) && EntryFit(w.info, serial, classes[i].klass, classes[i].hooks[j0]);
    forall a, j | 0 <= a < |classes| && 0 <= j < |classes[a].hooks| && Matches(p, classes[a].hooks[j]) ensures a == i {
      assert ClassShaped(w, serial, classes[a]) && EntryFit(w.info, serial, classes[a].klass, classes[a].hooks[j]);
    }
  }

  // ----- shutting down -----

  /** Once the listed classes have been offered their originals. */
  ghost predicate AfterShutdown(originals: map<ClassId, Definition>, before: map<ClassId, Definition>,
                                after: map<ClassId, Definition>, offered: seq<HookedClass>, accepts: ClassId -> bool) {
    && before.Keys == after.Keys == originals.Keys
    && forall k :: k in originals ==>
         after[k] == if Registered(offered, k) && accepts(k) then originals[k] else before[k]
  }

  predicate AllKnown(originals: map<ClassId, Definition>, classes: seq<HookedClass>) {
    forall i :: 0 <= i < |classes| ==> classes[i].klass in originals
  }

  lemma AllAreKnown(w: World, classes: seq<HookedClass>, serial: nat)
    requires Shaped(w, classes, serial)
    ensures AllKnown(w.originals, classes) && w.vm.Keys == w.originals.Keys
  {
    hide Fit, AllProper;
    forall i | 0 <= i < |classes| ensures classes[i].klass in w.originals {
      assert ClassShaped(w, serial, classes[i]);
    }
  }

  lemma ShutdownOne(originals: map<ClassId, Definition>, before: map<ClassId, Definition>, now: map<ClassId, Definition>,
                    all: seq<HookedClass>, last: nat, accepts: ClassId -> bool)
    requires last < |all| && all[last].klass in originals
    requires AfterShutdown(originals, before, now, all[last + 1..], accepts)
    ensures var klass := all[last].klass;
      AfterShutdown(originals, before, if accepts(klass) then now[klass := originals[klass]] else now, all[last..], accepts)
  {
    assert all[last..] == [all[last]] + all[last + 1..];
    forall k ensures Registered(all[last..], k) <==> k == all[last].klass || Registered(all[last + 1..], k) {
      RegisteredInFront(all[last], all[last + 1..], k);
    }
  }

  lemma NothingOffered(originals: map<ClassId, Definition>, vm: map<ClassId, Definition>, accepts: ClassId -> bool)
    requires vm.Keys == originals.Keys
    ensures AfterShutdown(originals, vm, vm, [], accepts)
  {
  }

  lemma AllRestored(w: World, all: seq<HookedClass>, after: map<ClassId, Definition>, accepts: ClassId -> bool)
    requires Sound(w, all) && AfterShutdown(w.originals, w.vm, after, all, accepts)
    ensures (forall i :: 0 <= i < |all| ==> accepts(all[i].klass)) ==> after == w.originals
  {
    hide Tracks, HooksOf;
    if forall i :: 0 <= i < |all| ==> accepts(all[i].klass) {
      forall k | k in w.originals ensures after[k] == w.originals[k] {
        if !Registered(all, k) {
          NoHooks(all, k);
          assert Tracked(w, all, k);
          NothingTracked(w.originals[k], w.vm[k]);
        }
      }
    }
  }

  lemma RegisteredInFront(c: HookedClass, classes: seq<HookedClass>, k: ClassId)
    ensures Registered([c] + classes, k) <==> k == c.klass || Registered(classes, k)
  {
    assert ([c] + classes)[0] == c;
    if Registered(classes, k) {
      var j :| 0 <= j < |classes| && classes[j].klass == k;
      assert ([c] + classes)[j + 1].klass == k;
    }
  }
}
