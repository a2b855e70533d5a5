/** Any number of calls in any order, whatever the VM answers. */
module HookRuns {
  import opened Bytes
  import opened Status
  import opened Instructions
  import opened References
  import opened CodeEditor
  import opened Insertion
  import opened Simulation
  import opened Rebuild
  import opened Weaving
  import opened HookedClasses
  import opened TiedInserts
  import opened Partition
  import opened Registry
  import opened HookRegistry

  datatype Event =
    | InstallHook(id: MethodId, kind: HookKind, offset: u4, callback: nat, block: seq<Instruction>, answers: Answers, again: Answers)
    | UninstallHooks(pattern: Pattern, answers: Answers)

  function IdOf(event: Event): MethodId {
    match event
    case InstallHook(id, _, _, _, _, _, _) => id
    case UninstallHooks(p, _) => p.id
  }

  predicate Concerns(info: map<MethodId, MethodInfo>, event: Event, k: ClassId) {
    IdOf(event) in info && info[IdOf(event)].klass == k
  }

  predicate WellMade(event: Event) {
    event.InstallHook? && event.kind == INSERT_CALL ==> Callback(event.block)
  }

  /** The entry an install adds, field by field. */
  predicate AsAsked(m: MethodInfo, event: Event, entry: HookEntry)
    requires event.InstallHook?
  {
    && entry.id == event.id && entry.kind == event.kind && entry.name == m.name && entry.signature == m.signature
    && entry.offset == event.offset && entry.callback == event.callback && entry.block == event.block
    && (event.kind == MAKE_NATIVE ==> entry.added == m.name + "$jni2hook")
  }

  /** What a call and its status say of the lists. */
  ghost predicate Follows(info: map<MethodId, MethodInfo>, event: Event, status: HookStatus,
                          before: seq<HookedClass>, after: seq<HookedClass>) {
    match event
    case InstallHook(id, _, _, _, _, _, _) =>
      if status == HOOK_OK then
        id in info && exists entry :: AsAsked(info[id], event, entry) && Added(before, after, info[id].klass, entry)
      else after == before
    case UninstallHooks(p, _) =>
      if status == NOT_INITIALIZED || status == NOT_HOOKED then after == before
      else
        && p.id in info
        && (if status == HOOK_OK then Removed(before, after, info[p.id].klass, p)
            else Rearranged(before, after, info[p.id].klass, p))
  }

  /** A refused uninstall that left two tied inserts of class k exchanged. */
  predicate Upsets(event: Event, status: HookStatus, before: seq<HookedClass>, k: ClassId) {
    event.UninstallHooks? && status !in {HOOK_OK, NOT_INITIALIZED, NOT_HOOKED} && ExchangesTies(HooksOf(before, k), event.pattern)
  }

  /** One call. For the class it concerns: a success sets things right whatever was
      wrong before, and natives that were not bound are the one thing that can set
      them wrong. */
  method Handle(h: Hooks, event: Event) returns (status: HookStatus)
    requires h.Valid() && h.initialized && WellMade(event)
    modifies h
    ensures h.Valid() && h.initialized && Follows(h.info, event, status, old(h.classes), h.classes)
    ensures forall k :: k in h.originals ==>
      && (Concerns(h.info, event, k) && status == HOOK_OK ==> Tracked(h.View(), h.classes, k) && InOrder(h.View(), h.classes, k))
      && (Tracked(old(h.View()), old(h.classes), k) && !(Concerns(h.info, event, k) && status == JNI_FAILED)
          ==> Tracked(h.View(), h.classes, k))
      && (InOrder(old(h.View()), old(h.classes), k)
            && !(Concerns(h.info, event, k) && (status == JNI_FAILED || Upsets(event, status, old(h.classes), k)))
          ==> InOrder(h.View(), h.classes, k))
  {
    hide Shaped, Tracked, InOrder, Added, Removed, Rearranged, Attempt, HooksOf, Recovers, Conflicts, Removable, ExchangesTies, InstallRefused, UninstallRefused, Callback, OnlyChanges, InStep;
    match event
    case InstallHook(id, kind, offset, callback, block, answers, again) =>
      ghost var entry := if id in h.info then NewEntry(h.info[id], h.serial, id, kind, offset, callback, block)
                         else HookEntry(0, kind, "", "", 0, 0, "", []);
      status := h.Install(id, kind, offset, callback, block, answers, again);
      assert status == HOOK_OK ==> AsAsked(h.info[id], event, entry);
    case UninstallHooks(p, answers) =>
      status := h.Uninstall(p, answers);
  }

  /** Whether class k is in order after n calls: the last of them that concerned it
      and went through set it right, and none since left it with unbound natives. */
  predicate StaysTracked(info: map<MethodId, MethodInfo>, events: seq<Event>, statuses: seq<HookStatus>, n: nat, k: ClassId, was: bool)
    requires n <= |events| == |statuses|
  {
    if n == 0 then was
    else if !Concerns(info, events[n - 1], k) then StaysTracked(info, events, statuses, n - 1, k, was)
    else statuses[n - 1] == HOOK_OK || (statuses[n - 1] != JNI_FAILED && StaysTracked(info, events, statuses, n - 1, k, was))
  }

  /** And none since exchanged a tie. */
  predicate StaysInOrder(info: map<MethodId, MethodInfo>, events: seq<Event>, statuses: seq<HookStatus>,
                         lists: seq<seq<HookedClass>>, n: nat, k: ClassId, was: bool)
    requires n <= |events| == |statuses| && n <= |lists|
  {
    if n == 0 then was
    else if !Concerns(info, events[n - 1], k) then StaysInOrder(info, events, statuses, lists, n - 1, k, was)
    else
      || statuses[n - 1] == HOOK_OK
      || (statuses[n - 1] != JNI_FAILED && !Upsets(events[n - 1], statuses[n - 1], lists[n - 1], k)
          && StaysInOrder(info, events, statuses, lists, n - 1, k, was))
  }

  /** Any number of calls. lists are the registered classes before each call and
      after the last. */
  method Serve(h: Hooks, events: seq<Event>) returns (statuses: seq<HookStatus>, ghost lists: seq<seq<HookedClass>>)
    requires h.Valid() && h.initialized && forall i :: 0 <= i < |events| ==> WellMade(events[i])
    modifies h
    ensures h.Valid() && h.initialized
    ensures |statuses| == |events| && |lists| == |events| + 1 && lists[0] == old(h.classes) && lists[|events|] == h.classes
    ensures forall i, j :: 0 <= i < |events| && j == i + 1 ==> Follows(h.info, events[i], statuses[i], lists[i], lists[j])
    ensures forall k :: k in h.originals ==>
      && (StaysTracked(h.info, events, statuses, |events|, k, Tracked(old(h.View()), old(h.classes), k))
          ==> Tracked(h.View(), h.classes, k))
      && (StaysInOrder(h.info, events, statuses, lists, |events|, k, InOrder(old(h.View()), old(h.classes), k))
          ==> InOrder(h.View(), h.classes, k))
  {
    hide Shaped, Tracked, InOrder, Follows, HooksOf, Concerns, Upsets, WellMade;
    statuses, lists := [], [h.classes];
    ghost var w, before := h.View(), h.classes;
    for n := 0 to |events|
      invariant h.Valid() && h.initialized
      invariant |statuses| == n && |lists| == n + 1 && lists[0] == before && lists[n] == h.classes
      invariant forall i, j :: 0 <= i < n && j == i + 1 ==> Follows(h.info, events[i], statuses[i], lists[i], lists[j])
      invariant forall k :: k in h.originals ==>
        && (StaysTracked(h.info, events[..n], statuses, n, k, Tracked(w, before, k)) ==> Tracked(h.View(), h.classes, k))
        && (StaysInOrder(h.info, events[..n], statuses, lists, n, k, InOrder(w, before, k)) ==> InOrder(h.View(), h.classes, k))
    {
      ghost var now, seen, trace := h.View(), statuses, lists;
      var status := Handle(h, events[n]);
      statuses, lists := statuses + [status], lists + [h.classes];
      forall k | k in h.originals
        ensures StaysTracked(h.info, events[..n + 1], statuses, n + 1, k, Tracked(w, before, k)) ==> Tracked(h.View(), h.classes, k)
        ensures StaysInOrder(h.info, events[..n + 1], statuses, lists, n + 1, k, InOrder(w, before, k)) ==> InOrder(h.View(), h.classes, k)
      {
        TrackedPrefix(h.info, events[..n], seen, events[..n + 1], statuses, n, k, Tracked(w, before, k));
        InOrderPrefix(h.info, events[..n], seen, trace, events[..n + 1], statuses, lists, n, k, InOrder(w, before, k));
      }
    }
    assert events[..|events|] == events;
  }

  lemma {:induction false} TrackedPrefix(info: map<MethodId, MethodInfo>, a: seq<Event>, s: seq<HookStatus>,
                                         b: seq<Event>, t: seq<HookStatus>, n: nat, k: ClassId, was: bool)
    requires |a| == |s| && |b| == |t| && a <= b && s <= t && n <= |a|
    ensures StaysTracked(info, a, s, n, k, was) == StaysTracked(info, b, t, n, k, was)
    decreases n
  {
    hide Concerns;
    if n > 0 {
      TrackedPrefix(info, a, s, b, t, n - 1, k, was);
    }
  }

  lemma {:induction false} InOrderPrefix(info: map<MethodId, MethodInfo>, a: seq<Event>, s: seq<HookStatus>, x: seq<seq<HookedClass>>,
                                         b: seq<Event>, t: seq<HookStatus>, y: seq<seq<HookedClass>>, n: nat, k: ClassId, was: bool)
    requires |a| == |s| && |b| == |t| && a <= b && s <= t && x <= y && n <= |a| && n <= |x|
    ensures StaysInOrder(info, a, s, x, n, k, was) == StaysInOrder(info, b, t, y, n, k, was)
    decreases n
  {
    hide Concerns, Upsets;
    if n > 0 {
      InOrderPrefix(info, a, s, x, b, t, y, n - 1, k, was);
    }
  }

  /** As long as every native is bound, nothing the VM refuses does any harm. */
  lemma {:induction false} BoundIsTracked(info: map<MethodId, MethodInfo>, events: seq<Event>, statuses: seq<HookStatus>, n: nat, k: ClassId)
    requires n <= |events| == |statuses| && JNI_FAILED !in statuses[..n]
    ensures StaysTracked(info, events, statuses, n, k, true)
    decreases n
  {
    hide Concerns;
    if n > 0 {
      assert statuses[..n] == statuses[..n - 1] + [statuses[n - 1]];
      BoundIsTracked(info, events, statuses, n - 1, k);
    }
  }

  // ----- what a method runs -----

  lemma ListIsBuildable(w: World, classes: seq<HookedClass>, serial: nat, k: ClassId, applied: seq<HookEntry>)
    requires Shaped(w, classes, serial) && k in w.originals && multiset(applied) == multiset(HooksOf(classes, k))
    ensures Buildable(w.originals[k], applied)
  {
    hide Shaped, HooksOf, Consistent, Callback, Exclusive, OwnedEntry, Numbered;
    ShapedOriginal(w, classes, serial, k);
    var hooks := HooksOf(classes, k);
    forall i | 0 <= i < |applied| && applied[i].kind == INSERT_CALL ensures Callback(applied[i].block) {
      assert applied[i] in multiset(applied);
      var j :| 0 <= j < |hooks| && hooks[j] == applied[i];
      assert EntryFit(w.info, serial, k, hooks[j]);
    }
  }

  lemma SameReplacements(a: seq<HookEntry>, b: seq<HookEntry>, key: MethodKey)
    requires multiset(a) == multiset(b) && !IsHooked(a, key, MAKE_NATIVE)
    ensures !IsHooked(b, key, MAKE_NATIVE)
  {
    forall j | 0 <= j < |b| ensures !((b[j].name, b[j].signature) == key && b[j].kind == MAKE_NATIVE) {
      assert b[j] in multiset(b);
      var i :| 0 <= i < |a| && a[i] == b[j];
    }
  }

  /** In every class the VM keeps in order, a method that is not replaced runs its
      original body with the callbacks of its registered inserts woven in. */
  lemma RunningBody(w: World, classes: seq<HookedClass>, serial: nat, k: ClassId, key: MethodKey)
    requires Shaped(w, classes, serial) && InOrder(w, classes, k)
    requires key in w.originals[k].bodies && !IsHooked(HooksOf(classes, k), key, MAKE_NATIVE)
    ensures key in w.vm[k].bodies
    ensures Operations(w.vm[k].bodies[key].code)
         == Woven(w.originals[k].bodies[key].code, 0, ForMethod(Inserts(HooksOf(classes, k)), key))
  {
    hide Shaped, HooksOf, Rebuilt, Woven, Operations, Buildable, Inserts, ForMethod, StablySame, IsHooked;
    var hooks := HooksOf(classes, k);
    var applied :| multiset(applied) == multiset(hooks) && StablySame(Inserts(applied), Inserts(hooks))
                && Rebuilt(w.originals[k], applied, w.vm[k]);
    ListIsBuildable(w, classes, serial, k, applied);
    SameReplacements(hooks, applied, key);
    RebuiltMethodAs(w.originals[k], applied, Inserts(hooks), w.vm[k], key);
  }

  /** In every class the VM keeps track of, the same, with tied callbacks perhaps in
      another order. */
  lemma RunningBodyTracked(w: World, classes: seq<HookedClass>, serial: nat, k: ClassId, key: MethodKey)
    requires Shaped(w, classes, serial) && Tracked(w, classes, k)
    requires key in w.originals[k].bodies && !IsHooked(HooksOf(classes, k), key, MAKE_NATIVE)
    ensures key in w.vm[k].bodies
    ensures exists applied ::
      && multiset(applied) == multiset(HooksOf(classes, k))
      && Operations(w.vm[k].bodies[key].code) == Woven(w.originals[k].bodies[key].code, 0, ForMethod(Inserts(applied), key))
  {
    hide Shaped, HooksOf, Rebuilt, Woven, Operations, Buildable, Inserts, ForMethod, IsHooked;
    var hooks := HooksOf(classes, k);
    var applied :| multiset(applied) == multiset(hooks) && Rebuilt(w.originals[k], applied, w.vm[k]);
    ListIsBuildable(w, classes, serial, k, applied);
    SameReplacements(hooks, applied, key);
    RebuiltMethod(w.originals[k], applied, w.vm[k], key);
  }
}
