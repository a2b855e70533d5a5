/** The hook registry: which classes are hooked and how, and what the VM is to run
    because of it. */
module Registry {
  import opened Bytes
  import opened Status
  import opened Instructions
  import opened References
  import opened CodeEditor
  import opened Insertion
  import opened Rebuild
  import opened Weaving
  import opened HookedClasses
  import opened TiedInserts
  import opened Partition

  type ClassId = nat

  /** What the VM knows about a method id. */
  datatype MethodInfo = MethodInfo(klass: ClassId, name: string, signature: string)

  datatype HookedClass = HookedClass(klass: ClassId, hooks: seq<HookEntry>)

  datatype HookStatus =
    HOOK_OK | NOT_INITIALIZED | JVMTI_FAILED | JNI_FAILED | CLASS_NOT_CACHED | TRANSFORM_FAILED | ALREADY_HOOKED | NOT_HOOKED

  const COPY_SUFFIX := "$jni2hook"
  const INSERT_PREFIX := "$jni2hook$"

  function Decimal(n: nat): (r: string)
    ensures |r| > 0 && (|r| == 1 <==> n < 10)
  {
    (if n < 10 then "" else Decimal(n / 10)) + [(n % 10 + '0' as int) as char]
  }

  lemma {:induction false} DecimalsDiffer(a: nat, b: nat)
    requires Decimal(a) == Decimal(b)
    ensures a == b
    decreases a
  {
    var s, t := Decimal(a), Decimal(b);
    assert s[|s| - 1] == t[|t| - 1];
    if a >= 10 && b >= 10 {
      assert s[..|s| - 1] == Decimal(a / 10) && t[..|t| - 1] == Decimal(b / 10);
      DecimalsDiffer(a / 10, b / 10);
    }
  }

  function InsertName(n: nat): string { INSERT_PREFIX + Decimal(n) }

  lemma NamesDiffer(a: nat, b: nat)
    requires InsertName(a) == InsertName(b)
    ensures a == b
  {
    assert InsertName(a)[|INSERT_PREFIX|..] == Decimal(a) && InsertName(b)[|INSERT_PREFIX|..] == Decimal(b);
    DecimalsDiffer(a, b);
  }

  // ----- what holds of the lists -----

  /** A method carries one replacement or any number of inserts, and no two
      inserts add a method of the same name. */
  predicate Compatible(a: HookEntry, b: HookEntry) {
    && (a.id == b.id ==> a.kind == INSERT_CALL && b.kind == INSERT_CALL)
    && (a.kind == INSERT_CALL && b.kind == INSERT_CALL ==> a.added != b.added)
  }

  predicate Exclusive(hooks: seq<HookEntry>) {
    forall i, j :: 0 <= i < j < |hooks| ==> Compatible(hooks[i], hooks[j])
  }

  predicate OwnedEntry(info: map<MethodId, MethodInfo>, klass: ClassId, entry: HookEntry) {
    entry.id in info && info[entry.id] == MethodInfo(klass, entry.name, entry.signature)
  }

  /** Named by one of the numbers given out so far. */
  predicate Numbered(added: string, serial: nat) {
    exists n :: 0 <= n < serial && added == InsertName(n)
  }

  predicate EntryFit(info: map<MethodId, MethodInfo>, serial: nat, klass: ClassId, entry: HookEntry) {
    && OwnedEntry(info, klass, entry)
    && (entry.kind == INSERT_CALL ==> Callback(entry.block) && Numbered(entry.added, serial))
  }

  /** A list of hooks a class may have. */
  predicate Fit(info: map<MethodId, MethodInfo>, serial: nat, klass: ClassId, hooks: seq<HookEntry>) {
    Exclusive(hooks) && forall j :: 0 <= j < |hooks| ==> EntryFit(info, serial, klass, hooks[j])
  }

  lemma FitEmpty(info: map<MethodId, MethodInfo>, serial: nat, klass: ClassId)
    ensures Fit(info, serial, klass, [])
  {
  }

  lemma NumberedLater(added: string, serial: nat, later: nat)
    requires Numbered(added, serial) && serial <= later
    ensures Numbered(added, later)
  {
    hide InsertName;
  }

  lemma FitLater(info: map<MethodId, MethodInfo>, serial: nat, later: nat, klass: ClassId, hooks: seq<HookEntry>)
    requires Fit(info, serial, klass, hooks) && serial <= later
    ensures Fit(info, later, klass, hooks)
  {
    hide Exclusive, Callback, Numbered, OwnedEntry;
    forall j | 0 <= j < |hooks| ensures EntryFit(info, later, klass, hooks[j]) {
      assert EntryFit(info, serial, klass, hooks[j]);
      if hooks[j].kind == INSERT_CALL {
        NumberedLater(hooks[j].added, serial, later);
      }
    }
  }

  /** The number is new, so the name is. */
  lemma FreshName(added: string, serial: nat)
    requires Numbered(added, serial)
    ensures added != InsertName(serial)
  {
    hide InsertName;
    var n :| 0 <= n < serial && added == InsertName(n);
    if added == InsertName(serial) {
      NamesDiffer(n, serial);
    }
  }

  lemma FitExtended(info: map<MethodId, MethodInfo>, serial: nat, klass: ClassId, hooks: seq<HookEntry>, entry: HookEntry)
    requires Fit(info, serial, klass, hooks) && OwnedEntry(info, klass, entry)
    requires forall j :: 0 <= j < |hooks| ==> !ConflictsWith(hooks[j], entry.id, entry.kind)
    requires entry.kind == INSERT_CALL ==> Callback(entry.block) && entry.added == InsertName(serial)
    ensures Fit(info, if entry.kind == INSERT_CALL then serial + 1 else serial, klass, hooks + [entry])
  {
    hide Callback, InsertName, OwnedEntry, Numbered;
    var next := if entry.kind == INSERT_CALL then serial + 1 else serial;
    FitLater(info, serial, next, klass, hooks);
    var all := hooks + [entry];
    forall j | 0 <= j < |hooks| ensures Compatible(hooks[j], entry) {
      assert EntryFit(info, serial, klass, hooks[j]);
      if entry.kind == INSERT_CALL && hooks[j].kind == INSERT_CALL {
        FreshName(hooks[j].added, serial);
      }
    }
    hide Compatible;
    assert entry.kind == INSERT_CALL ==> Numbered(entry.added, next) by {
      JustNumbered(serial);
    }
  }

  lemma JustNumbered(serial: nat)
    ensures Numbered(InsertName(serial), serial + 1)
  {
    hide InsertName;
  }

  lemma {:induction false} KeptExclusive(hooks: seq<HookEntry>, p: Pattern)
    requires Exclusive(hooks)
    ensures Exclusive(Kept(hooks, p))
  {
    hide Matches, Compatible;
    if hooks != [] {
      var n := |hooks| - 1;
      var before := Kept(hooks[..n], p);
      KeptExclusive(hooks[..n], p);
      forall j | 0 <= j < |before| ensures Compatible(before[j], hooks[n]) {
        KeptMembers(hooks[..n], p, before[j]);
        var i :| 0 <= i < n && hooks[..n][i] == before[j];
      }
    }
  }

  lemma FitKept(info: map<MethodId, MethodInfo>, serial: nat, klass: ClassId, hooks: seq<HookEntry>, p: Pattern)
    requires Fit(info, serial, klass, hooks)
    ensures Fit(info, serial, klass, Kept(hooks, p))
  {
    hide EntryFit, Compatible, Matches, Exclusive;
    KeptExclusive(hooks, p);
    var kept := Kept(hooks, p);
    forall j | 0 <= j < |kept| ensures EntryFit(info, serial, klass, kept[j]) {
      KeptMembers(hooks, p, kept[j]);
      var i :| 0 <= i < |hooks| && hooks[i] == kept[j];
    }
  }

  /** Any order of the same entries is as fit. */
  lemma FitReordered(info: map<MethodId, MethodInfo>, serial: nat, klass: ClassId, a: seq<HookEntry>, b: seq<HookEntry>)
    requires Fit(info, serial, klass, a) && multiset(a) == multiset(b)
    ensures Fit(info, serial, klass, b)
  {
    hide EntryFit, Compatible;
    forall j | 0 <= j < |b| ensures EntryFit(info, serial, klass, b[j]) {
      assert b[j] in multiset(b);
      var i :| 0 <= i < |a| && a[i] == b[j];
    }
    forall i, j | 0 <= i < j < |b| ensures Compatible(b[i], b[j]) {
      TwoPlaces(a, b, i, j);
    }
  }

  lemma CompatibleBothWays(a: HookEntry, b: HookEntry)
    ensures Compatible(a, b) <==> Compatible(b, a)
    ensures !Compatible(a, a)
  {
  }

  lemma TwoPlaces(a: seq<HookEntry>, b: seq<HookEntry>, i: nat, j: nat)
    requires multiset(a) == multiset(b) && Exclusive(a) && i < j < |b|
    ensures Compatible(b[i], b[j])
  {
    hide Compatible;
    var x, y := b[i], b[j];
    assert x in multiset(b) && y in multiset(b);
    var p :| 0 <= p < |a| && a[p] == x;
    CompatibleBothWays(x, y);
    if x == y {
      TwiceIn(b, i, j);
      forall q | 0 <= q < |a| && q != p ensures a[q] != x {
        CompatibleBothWays(a[q], x);
      }
      OnceIn(a, p);
    } else {
      var q :| 0 <= q < |a| && a[q] == y;
    }
  }

  lemma TwiceIn(s: seq<HookEntry>, i: nat, j: nat)
    requires i < j < |s| && s[i] == s[j]
    ensures multiset(s)[s[i]] >= 2
  {
    assert s == s[..j] + [s[j]] + s[j + 1..];
    assert s[i] in s[..j];
  }

  lemma OnceIn(s: seq<HookEntry>, p: nat)
    requires p < |s| && forall q :: 0 <= q < |s| && q != p ==> s[q] != s[p]
    ensures multiset(s)[s[p]] == 1
  {
    assert s == s[..p] + [s[p]] + s[p + 1..];
    assert s[p] !in s[..p] && s[p] !in s[p + 1..];
  }

  /** The inserts of a fit list are all different, so ties can be told apart. */
  lemma {:induction false} FitIsDistinct(hooks: seq<HookEntry>)
    requires Exclusive(hooks)
    ensures Distinct(Inserts(hooks))
    decreases |hooks|
  {
    if hooks != [] {
      var n := |hooks| - 1;
      FitIsDistinct(hooks[..n]);
      var before := Inserts(hooks[..n]);
      if hooks[n].kind == INSERT_CALL {
        forall i | 0 <= i < |before| ensures before[i] != AsInsert(hooks[n]) {
          var k := InsertComesFrom(hooks[..n], i);
          assert Compatible(hooks[k], hooks[n]);
        }
      } else {
        assert Inserts(hooks) == before;
      }
    }
  }

  lemma {:induction false} InsertComesFrom(hooks: seq<HookEntry>, i: nat) returns (k: nat)
    requires i < |Inserts(hooks)|
    ensures k < |hooks| && hooks[k].kind == INSERT_CALL && AsInsert(hooks[k]) == Inserts(hooks)[i]
    decreases |hooks|
  {
    var n := |hooks| - 1;
    if i < |Inserts(hooks[..n])| {
      k := InsertComesFrom(hooks[..n], i);
    } else {
      k := n;
    }
  }

  // ----- the registry -----

  predicate Registered(classes: seq<HookedClass>, klass: ClassId) {
    exists i :: 0 <= i < |classes| && classes[i].klass == klass
  }

  predicate DistinctClasses(classes: seq<HookedClass>) {
    forall i, j :: 0 <= i < j < |classes| ==> classes[i].klass != classes[j].klass
  }

  datatype World = World(
    info: map<MethodId, MethodInfo>,
    originals: map<ClassId, Definition>,
    vm: map<ClassId, Definition>)

  /** Legal code, and no method both with and without a body. */
  predicate Proper(d: Definition) {
    forall key :: key in d.bodies ==> Consistent(d.bodies[key]) && key !in d.natives
  }

  predicate AllProper(originals: map<ClassId, Definition>) {
    forall k :: k in originals ==> Proper(originals[k])
  }

  predicate ClassShaped(w: World, serial: nat, c: HookedClass) {
    c.klass in w.originals && c.hooks != [] && Fit(w.info, serial, c.klass, c.hooks)
  }

  /** What holds of the registry whatever the VM does. */
  predicate Shaped(w: World, classes: seq<HookedClass>, serial: nat) {
    && w.vm.Keys == w.originals.Keys && AllProper(w.originals)
    && DistinctClasses(classes)
    && forall i :: 0 <= i < |classes| ==> ClassShaped(w, serial, classes[i])
  }

  /** The hooks registered for a class. */
  function HooksOf(classes: seq<HookedClass>, klass: ClassId): seq<HookEntry> {
    if classes == [] then []
    else if classes[0].klass == klass then classes[0].hooks
    else HooksOf(classes[1..], klass)
  }

  lemma {:induction false} HooksOfAt(classes: seq<HookedClass>, i: nat)
    requires DistinctClasses(classes) && i < |classes|
    ensures HooksOf(classes, classes[i].klass) == classes[i].hooks
  {
    if i > 0 {
      HooksOfAt(classes[1..], i - 1);
    }
  }

  lemma {:induction false} HooksOfNone(classes: seq<HookedClass>, klass: ClassId)
    requires !Registered(classes, klass)
    ensures HooksOf(classes, klass) == []
  {
    if classes != [] {
      assert classes[0].klass != klass;
      forall i | 0 <= i < |classes[1..]| ensures classes[1..][i].klass != klass {
        assert classes[1..][i] == classes[i + 1];
      }
      HooksOfNone(classes[1..], klass);
    }
  }

  lemma {:induction false} HooksOfConcat(a: seq<HookedClass>, b: seq<HookedClass>, klass: ClassId)
    ensures HooksOf(a + b, klass) == if Registered(a, klass) then HooksOf(a, klass) else HooksOf(b, klass)
  {
    if a == [] {
      assert a + b == b;
    } else {
      assert (a + b)[1..] == a[1..] + b;
      if a[0].klass != klass {
        HooksOfConcat(a[1..], b, klass);
        if Registered(a, klass) {
          var i :| 0 <= i < |a| && a[i].klass == klass;
          assert a[1..][i - 1].klass == klass;
        }
      }
    }
  }

  lemma AppendedHooks(classes: seq<HookedClass>, c: HookedClass, k: ClassId)
    requires !Registered(classes, c.klass)
    ensures HooksOf(classes + [c], k) == if k == c.klass then c.hooks else HooksOf(classes, k)
  {
    HooksOfConcat(classes, [c], k);
    assert [c][1..] == [];
    if !Registered(classes, k) {
      HooksOfNone(classes, k);
    }
  }

  lemma {:induction false} ReplacedHooks(classes: seq<HookedClass>, i: nat, c: HookedClass, k: ClassId)
    requires DistinctClasses(classes) && i < |classes| && c.klass == classes[i].klass
    ensures HooksOf(classes[i := c], k) == if k == c.klass then c.hooks else HooksOf(classes, k)
  {
    if i == 0 {
      assert classes[i := c][1..] == classes[1..];
    } else {
      assert classes[i := c][1..] == classes[1..][i - 1 := c];
      ReplacedHooks(classes[1..], i - 1, c, k);
    }
  }

  lemma {:induction false} DroppedHooks(classes: seq<HookedClass>, i: nat, k: ClassId)
    requires DistinctClasses(classes) && i < |classes|
    ensures HooksOf(classes[..i] + classes[i + 1..], k) == if k == classes[i].klass then [] else HooksOf(classes, k)
  {
    var left := classes[..i] + classes[i + 1..];
    if i == 0 {
      assert left == classes[1..];
      if k == classes[0].klass {
        HooksOfNone(left, k);
      }
    } else {
      assert left[1..] == classes[1..][..i - 1] + classes[1..][i..];
      DroppedHooks(classes[1..], i - 1, k);
    }
  }

  // ----- shapes that are kept -----

  lemma ShapeIgnoresVM(w: World, vm: map<ClassId, Definition>, classes: seq<HookedClass>, serial: nat)
    requires Shaped(w, classes, serial) && vm.Keys == w.originals.Keys
    ensures Shaped(w.(vm := vm), classes, serial)
  {
    hide Fit, AllProper;
    forall i | 0 <= i < |classes| ensures ClassShaped(w.(vm := vm), serial, classes[i]) {
      assert ClassShaped(w, serial, classes[i]);
    }
  }

  lemma ShapedLater(w: World, classes: seq<HookedClass>, serial: nat, later: nat)
    requires Shaped(w, classes, serial) && serial <= later
    ensures Shaped(w, classes, later)
  {
    hide Fit, AllProper;
    forall i | 0 <= i < |classes| ensures ClassShaped(w, later, classes[i]) {
      assert ClassShaped(w, serial, classes[i]);
      FitLater(w.info, serial, later, classes[i].klass, classes[i].hooks);
    }
  }

  lemma ShapedAt(w: World, classes: seq<HookedClass>, serial: nat, i: nat)
    requires Shaped(w, classes, serial) && i < |classes|
    ensures classes[i].klass in w.originals && classes[i].hooks != []
    ensures Fit(w.info, serial, classes[i].klass, classes[i].hooks) && Proper(w.originals[classes[i].klass])
    ensures HooksOf(classes, classes[i].klass) == classes[i].hooks
  {
    hide Fit, Proper;
    assert ClassShaped(w, serial, classes[i]);
    HooksOfAt(classes, i);
  }

  lemma ShapedReplaced(w: World, classes: seq<HookedClass>, serial: nat, i: nat, hooks: seq<HookEntry>)
    requires Shaped(w, classes, serial) && i < |classes| && hooks != [] && Fit(w.info, serial, classes[i].klass, hooks)
    ensures Shaped(w, classes[i := HookedClass(classes[i].klass, hooks)], serial)
  {
    hide Fit, AllProper;
    var after := classes[i := HookedClass(classes[i].klass, hooks)];
    assert ClassShaped(w, serial, classes[i]);
    forall j | 0 <= j < |after| ensures ClassShaped(w, serial, after[j]) {
      assert j != i ==> ClassShaped(w, serial, classes[j]);
    }
  }

  lemma ShapedAppended(w: World, classes: seq<HookedClass>, serial: nat, klass: ClassId, hooks: seq<HookEntry>)
    requires Shaped(w, classes, serial) && !Registered(classes, klass) && klass in w.originals
    requires hooks != [] && Fit(w.info, serial, klass, hooks)
    ensures Shaped(w, classes + [HookedClass(klass, hooks)], serial)
  {
    hide Fit, AllProper;
    var after := classes + [HookedClass(klass, hooks)];
    forall j | 0 <= j < |after| ensures ClassShaped(w, serial, after[j]) {
      assert j < |classes| ==> ClassShaped(w, serial, classes[j]);
    }
  }

  lemma ShapedDropped(w: World, classes: seq<HookedClass>, serial: nat, i: nat)
    requires Shaped(w, classes, serial) && i < |classes|
    ensures Shaped(w, classes[..i] + classes[i + 1..], serial)
  {
    hide ClassShaped, AllProper;
    var after := classes[..i] + classes[i + 1..];
    forall j | 0 <= j < |after| ensures ClassShaped(w, serial, after[j]) {
      assert after[j] == classes[if j < i then j else j + 1];
    }
    forall p, q | 0 <= p < q < |after| ensures after[p].klass != after[q].klass {
      assert after[p] == classes[if p < i then p else p + 1] && after[q] == classes[if q < i then q else q + 1];
    }
  }

  lemma ShapedOriginal(w: World, classes: seq<HookedClass>, serial: nat, klass: ClassId)
    requires Shaped(w, classes, serial) && klass in w.originals
    ensures klass in w.vm && Proper(w.originals[klass]) && Fit(w.info, serial, klass, HooksOf(classes, klass))
  {
    hide Fit, Proper;
    if Registered(classes, klass) {
      var i :| 0 <= i < |classes| && classes[i].klass == klass;
      ShapedAt(w, classes, serial, i);
    } else {
      HooksOfNone(classes, klass);
      FitEmpty(w.info, serial, klass);
    }
  }

  // ----- what the VM is to run -----

  /** d is the rebuild under the listed hooks, perhaps in another order. */
  ghost predicate Tracks(original: Definition, hooks: seq<HookEntry>, d: Definition) {
    exists applied :: multiset(applied) == multiset(hooks) && Rebuilt(original, applied, d)
  }

  /** The VM runs the rebuild of the class under its hooks; under none, the original. */
  ghost predicate Tracked(w: World, classes: seq<HookedClass>, k: ClassId) {
    k in w.originals && k in w.vm && Tracks(w.originals[k], HooksOf(classes, k), w.vm[k])
  }

  ghost predicate Sound(w: World, classes: seq<HookedClass>) {
    forall k :: k in w.originals ==> Tracked(w, classes, k)
  }

  /** Exactly the rebuild under the listed hooks, in the listed order. */
  ghost predicate InStep(w: World, classes: seq<HookedClass>, k: ClassId) {
    k in w.originals && k in w.vm && Rebuilt(w.originals[k], HooksOf(classes, k), w.vm[k])
  }

  /** The rebuild under the listed hooks in an order that applies the inserts just
      as the listed order does. */
  ghost predicate InOrder(w: World, classes: seq<HookedClass>, k: ClassId) {
    k in w.originals && k in w.vm && OrderTracks(w.originals[k], HooksOf(classes, k), w.vm[k])
  }

  ghost predicate OrderTracks(original: Definition, hooks: seq<HookEntry>, d: Definition) {
    exists applied :: multiset(applied) == multiset(hooks) && StablySame(Inserts(applied), Inserts(hooks))
                   && Rebuilt(original, applied, d)
  }

  ghost predicate AllInOrder(w: World, classes: seq<HookedClass>) {
    forall k :: k in w.originals ==> InOrder(w, classes, k)
  }

  lemma InStepIsInOrder(w: World, classes: seq<HookedClass>, k: ClassId)
    requires InStep(w, classes, k)
    ensures InOrder(w, classes, k) && Tracked(w, classes, k)
  {
    hide Rebuilt, HooksOf, AtPlace, Inserts;
    assert StablySame(Inserts(HooksOf(classes, k)), Inserts(HooksOf(classes, k)));
  }

  lemma InOrderIsTracked(w: World, classes: seq<HookedClass>, k: ClassId)
    requires InOrder(w, classes, k)
    ensures Tracked(w, classes, k)
  {
    hide Rebuilt, HooksOf, StablySame, Inserts;
  }

  lemma NothingTracked(original: Definition, d: Definition)
    ensures Tracks(original, [], d) <==> d == original
    ensures Rebuilt(original, [], d) <==> d == original
  {
    if Tracks(original, [], d) {
      var applied :| multiset(applied) == multiset([]) && Rebuilt(original, applied, d);
      assert |multiset(applied)| == 0;
    }
    if d == original {
      var applied: seq<HookEntry> := [];
      assert Rebuilt(original, applied, d);
    }
  }

  /** A class neither whose hooks nor whose definition changes is as it was. */
  lemma Untouched(w: World, w': World, before: seq<HookedClass>, after: seq<HookedClass>, k: ClassId)
    requires w'.originals == w.originals && HooksOf(after, k) == HooksOf(before, k)
    requires k in w.vm && k in w'.vm && w'.vm[k] == w.vm[k]
    ensures Tracked(w', after, k) <==> Tracked(w, before, k)
    ensures InOrder(w', after, k) <==> InOrder(w, before, k)
    ensures InStep(w', after, k) <==> InStep(w, before, k)
  {
    hide Tracks, OrderTracks, Rebuilt;
  }

  // ----- what a definition tells of its hooks -----

  lemma {:induction false} NativesCounted(d: Definition, hooks: seq<HookEntry>)
    requires Apart(d) && MakeNatives(d, hooks).Some?
    ensures var r := MakeNatives(d, hooks).value; Apart(r) && |r.natives| + |Inserts(hooks)| == |d.natives| + |hooks|
    decreases |hooks|
  {
    hide MakeNative, Apart;
    if hooks != [] {
      var n := |hooks| - 1;
      NativesCounted(d, hooks[..n]);
      if hooks[n].kind != INSERT_CALL {
        OneMoreNative(MakeNatives(d, hooks[..n]).value, hooks[n]);
      }
    }
  }

  predicate Apart(d: Definition) {
    forall key :: key in d.bodies ==> key !in d.natives
  }

  lemma OneMoreNative(d: Definition, entry: HookEntry)
    requires Apart(d) && MakeNative(d, entry).Some?
    ensures Apart(MakeNative(d, entry).value) && |MakeNative(d, entry).value.natives| == |d.natives| + 1
  {
  }

  lemma OneMoreInsert(d: Definition, hook: InsertHook)
    requires Apart(d) && InsertInto(d, hook).Some?
    ensures Apart(InsertInto(d, hook).value) && |InsertInto(d, hook).value.natives| == |d.natives| + 1
  {
    hide InsertCall;
  }

  lemma {:induction false} InsertsCounted(d: Definition, sorted: seq<InsertHook>)
    requires Apart(d) && InsertsInto(d, sorted).Some?
    ensures |InsertsInto(d, sorted).value.natives| == |d.natives| + |sorted|
    decreases |sorted|
  {
    hide InsertInto, Apart;
    if sorted != [] {
      OneMoreInsert(d, sorted[0]);
      InsertsCounted(InsertInto(d, sorted[0]).value, sorted[1..]);
    }
  }

  /** Every hook leaves one more method without a body. */
  lemma HooksCounted(original: Definition, hooks: seq<HookEntry>, d: Definition)
    requires Proper(original) && Rebuilt(original, hooks, d)
    ensures |d.natives| == |original.natives| + |hooks|
  {
    hide MakeNatives, InsertsInto, Sorted, Consistent;
    if hooks != [] {
      var sorted :| RebuiltBy(original, hooks, sorted, d);
      NativesCounted(original, hooks);
      hide Apart;
      InsertsCounted(MakeNatives(original, hooks).value, sorted);
    }
  }

  /** So a rebuild under more or fewer hooks is not the one the registry stands for. */
  lemma WrongCount(original: Definition, listed: seq<HookEntry>, hooks: seq<HookEntry>, d: Definition)
    requires Proper(original) && Rebuilt(original, hooks, d) && |listed| != |hooks|
    ensures !Tracks(original, listed, d)
  {
    hide Rebuilt, Proper;
    HooksCounted(original, hooks, d);
    forall applied | multiset(applied) == multiset(listed) && Rebuilt(original, applied, d) ensures false {
      assert |multiset(applied)| == |multiset(listed)|;
      HooksCounted(original, applied, d);
    }
  }

  ghost predicate RebuildExists(original: Definition, hooks: seq<HookEntry>) {
    exists d :: Rebuilt(original, hooks, d)
  }

  /** One sorted list decides: if it cannot be applied, nothing is a rebuild. */
  lemma NoRebuild(original: Definition, hooks: seq<HookEntry>, sorted: seq<InsertHook>)
    requires hooks != [] && Sorted(sorted) && StablySame(sorted, Inserts(hooks))
    requires Transformed(original, hooks, sorted) == None
    ensures !RebuildExists(original, hooks)
  {
    hide Sorted, Transformed, AtPlace, Inserts;
    forall d | Rebuilt(original, hooks, d) ensures false {
      var other :| RebuiltBy(original, hooks, other, d);
      assert StablySame(other, sorted);
      SortedIsUnique(other, sorted);
    }
  }

  // ----- installing -----

  predicate Conflicts(classes: seq<HookedClass>, id: MethodId, kind: HookKind) {
    exists i, j :: 0 <= i < |classes| && 0 <= j < |classes[i].hooks| && ConflictsWith(classes[i].hooks[j], id, kind)
  }

  predicate ConflictsWith(entry: HookEntry, id: MethodId, kind: HookKind) {
    entry.id == id && (kind == MAKE_NATIVE || entry.kind == MAKE_NATIVE)
  }

  function NewEntry(m: MethodInfo, serial: nat, id: MethodId, kind: HookKind, offset: u4, callback: nat, block: seq<Instruction>): HookEntry {
    var added := if kind == MAKE_NATIVE then m.name + COPY_SUFFIX else InsertName(serial);
    HookEntry(id, kind, m.name, m.signature, offset, callback, added, block)
  }
}
