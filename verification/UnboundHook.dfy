/** A run that leaves a class the registry has forgotten with hooked code: the
    first hook of a class, taken by the VM, whose native it then does not bind. */
module UnboundHook {
  import opened Rebuild
  import opened Status
  import opened Insertion
  import opened Weaving
  import opened HookedClasses
  import opened Partition
  import opened Registry
  import opened HookRegistry
  import Witnesses

  const KEY: MethodKey := ("m", "()V")

  /** One class with one method that returns. */
  const ORIGINAL := Definition(false, map[KEY := Witnesses.BODY], {})

  const INFO := MethodInfo(7, "m", "()V")

  lemma OriginalIsProper()
    ensures AllProper(map[7 := ORIGINAL])
  {
    Witnesses.BodyIsConsistent();
  }

  lemma ReplacementExists(entry: HookEntry)
    requires entry.kind == MAKE_NATIVE && entry.name == "m" && entry.signature == "()V" && entry.added == "m$jni2hook"
    ensures RebuildExists(ORIGINAL, [entry])
  {
    assert [entry][..0] == [];
    var copy := (entry.added, entry.signature);
    assert |entry.added| != |"m"|;
    assert copy != KEY && !Declares(ORIGINAL, copy);
    var d := MakeNative(ORIGINAL, entry).value;
    assert MakeNatives(ORIGINAL, [entry]) == Some(d);
    assert Inserts([entry]) == [];
    assert RebuiltBy(ORIGINAL, [entry], [], d);
    assert Rebuilt(ORIGINAL, [entry], d);
  }

  /** The hook is reported as failed and no class is registered, but the VM does not
      run the original. */
  method FirstHookUnbound() returns (h: Hooks, status: HookStatus)
    ensures status == JNI_FAILED && h.Valid() && h.classes == []
    ensures h.originals == map[7 := ORIGINAL] && h.vm.Keys == {7} && h.vm[7] != ORIGINAL
    ensures !Sound(h.View(), h.classes)
  {
    hide Rebuilt, Attempt, Conflicts, Shaped, Added, Tracks, HooksOf;
    OriginalIsProper();
    h := new Hooks(map[1 := INFO], map[7 := ORIGINAL]);
    ghost var entry := NewEntry(INFO, 0, 1, MAKE_NATIVE, 0, 1, []);
    assert entry.added == "m$jni2hook";
    ReplacementExists(entry);
    NoHooks(h.classes, 7);
    assert [] + [entry] == [entry];
    UnboundAttempt(entry);
    assert !Conflicts(h.classes, 1, MAKE_NATIVE) by { NoConflict(); }
    status := h.Install(1, MAKE_NATIVE, 0, 1, [], Answers(true, _ => false), Answers(true, _ => true));
    ShapedParts(h.View(), h.classes, h.serial);
    assert !Recovers(ORIGINAL, [], Answers(true, _ => true));
    WrongCount(ORIGINAL, [], [entry], h.vm[7]);
    NothingTracked(ORIGINAL, h.vm[7]);
    assert !Tracked(h.View(), h.classes, 7);
  }

  lemma NoConflict()
    ensures !Conflicts([], 1, MAKE_NATIVE)
  {
  }

  lemma UnboundAttempt(entry: HookEntry)
    requires RebuildExists(ORIGINAL, [entry])
    ensures Attempt(ORIGINAL, [entry], Answers(true, _ => false)) == JNI_FAILED
  {
    hide RebuildExists;
    var binds: HookEntry -> bool := _ => false;
    assert !binds([entry][0]);
  }
}
