/** Rebuilding a method from its cached original under a list of inserts: they
    are sorted by descending offset and applied one after the other, each to the
    method the one before it left. */
module Rebuild {
  import opened Bytes
  import opened Status
  import opened Instructions
  import opened References
  import opened CodeEditor
  import opened Insertion
  import opened Simulation

  /** One insert hook: the method it names, where it goes, and the native method
      and the call to it that it adds. */
  datatype InsertHook = InsertHook(name: string, signature: string, offset: u4, added: string, block: seq<Instruction>)

  // ----- the order inserts are applied in -----

  /** strcmp on byte strings: negative, zero or positive. */
  function Strcmp(a: string, b: string): int {
    if a == "" && b == "" then 0
    else if a == "" then -1
    else if b == "" then 1
    else if a[0] != b[0] then a[0] as int - b[0] as int
    else Strcmp(a[1..], b[1..])
  }

  /** By method, and within a method the larger offset first. */
  function Compare(left: InsertHook, right: InsertHook): int {
    var byName := Strcmp(left.name, right.name);
    if byName != 0 then byName
    else
      var bySignature := Strcmp(left.signature, right.signature);
      if bySignature != 0 then bySignature
      else if left.offset > right.offset then -1
      else if left.offset < right.offset then 1
      else 0
  }

  lemma {:induction false} StrcmpEqual(a: string, b: string)
    ensures Strcmp(a, b) == 0 <==> a == b
  {
    if a != "" && b != "" && a[0] == b[0] {
      StrcmpEqual(a[1..], b[1..]);
      assert a == [a[0]] + a[1..] && b == [b[0]] + b[1..];
    }
  }

  lemma {:induction false} StrcmpAntisymmetric(a: string, b: string)
    ensures Strcmp(a, b) < 0 <==> Strcmp(b, a) > 0
  {
    if a != "" && b != "" && a[0] == b[0] {
      StrcmpAntisymmetric(a[1..], b[1..]);
    }
  }

  lemma {:induction false} StrcmpTransitive(a: string, b: string, c: string)
    requires Strcmp(a, b) <= 0 && Strcmp(b, c) <= 0
    ensures Strcmp(a, c) <= 0
    ensures Strcmp(a, b) < 0 || Strcmp(b, c) < 0 ==> Strcmp(a, c) < 0
  {
    if a != "" && b != "" && c != "" && a[0] == b[0] == c[0] {
      StrcmpTransitive(a[1..], b[1..], c[1..]);
    }
  }

  lemma CompareIsOrder(a: InsertHook, b: InsertHook, c: InsertHook)
    ensures Compare(a, b) < 0 <==> Compare(b, a) > 0
    ensures Compare(a, b) == 0 <==> a.name == b.name && a.signature == b.signature && a.offset == b.offset
    ensures Compare(a, b) <= 0 && Compare(b, c) <= 0 ==> Compare(a, c) <= 0
  {
    hide Strcmp;
    StrcmpEqual(a.name, b.name);
    StrcmpEqual(b.name, c.name);
    StrcmpEqual(a.name, c.name);
    StrcmpEqual(a.signature, b.signature);
    StrcmpEqual(b.signature, c.signature);
    StrcmpEqual(a.signature, c.signature);
    StrcmpAntisymmetric(a.name, b.name);
    StrcmpAntisymmetric(b.name, a.name);
    StrcmpAntisymmetric(a.signature, b.signature);
    StrcmpAntisymmetric(b.signature, a.signature);
    if Strcmp(a.name, b.name) <= 0 && Strcmp(b.name, c.name) <= 0 {
      StrcmpTransitive(a.name, b.name, c.name);
    }
    if Strcmp(a.signature, b.signature) <= 0 && Strcmp(b.signature, c.signature) <= 0 {
      StrcmpTransitive(a.signature, b.signature, c.signature);
    }
  }

  predicate Sorted(hooks: seq<InsertHook>) {
    forall i, j :: 0 <= i < j < |hooks| ==> Compare(hooks[i], hooks[j]) <= 0
  }

  predicate SamePlace(a: InsertHook, b: InsertHook) {
    a.name == b.name && a.signature == b.signature && a.offset == b.offset
  }

  /** The hooks at key's place, in list order. */
  function AtPlace(hooks: seq<InsertHook>, key: InsertHook): seq<InsertHook> {
    if hooks == [] then []
    else AtPlace(hooks[..|hooks| - 1], key)
         + (if SamePlace(hooks[|hooks| - 1], key) then [hooks[|hooks| - 1]] else [])
  }

  /** The same hooks, and hooks at one place in the order they were given. */
  ghost predicate StablySame(a: seq<InsertHook>, b: seq<InsertHook>) {
    |a| == |b| && forall key :: AtPlace(a, key) == AtPlace(b, key)
  }

  lemma {:induction false} AtPlaceConcat(a: seq<InsertHook>, b: seq<InsertHook>, key: InsertHook)
    ensures AtPlace(a + b, key) == AtPlace(a, key) + AtPlace(b, key)
  {
    if b == [] {
      assert a + b == a;
    } else {
      var n := |b| - 1;
      AtPlaceConcat(a, b[..n], key);
      assert (a + b)[..|a + b| - 1] == a + b[..n];
    }
  }

  /** Moving x in front of entries that all sit elsewhere keeps every place. */
  lemma {:induction false} AtPlaceMove(front: seq<InsertHook>, over: seq<InsertHook>, x: InsertHook, key: InsertHook)
    requires forall i :: 0 <= i < |over| ==> !SamePlace(over[i], x)
    ensures AtPlace(front + over + [x], key) == AtPlace(front + [x] + over, key)
  {
    AtPlaceConcat(front + over, [x], key);
    AtPlaceConcat(front, over, key);
    AtPlaceConcat(front + [x], over, key);
    AtPlaceConcat(front, [x], key);
    if SamePlace(x, key) {
      NothingAtPlace(over, key);
    }
  }

  lemma {:induction false} NothingAtPlace(hooks: seq<InsertHook>, key: InsertHook)
    requires forall i :: 0 <= i < |hooks| ==> !SamePlace(hooks[i], key)
    ensures AtPlace(hooks, key) == []
  {
    if hooks != [] {
      NothingAtPlace(hooks[..|hooks| - 1], key);
    }
  }

  /** Insertion of the entry at i into the sorted part before it. */
  method SortIn(hooks: array<InsertHook>, i: nat)
    requires 0 < i < hooks.Length && Sorted(hooks[..i])
    modifies hooks
    ensures Sorted(hooks[..i + 1]) && hooks[i + 1..] == old(hooks[i + 1..])
    ensures StablySame(hooks[..i + 1], old(hooks[..i + 1]))
  {
    var entry := hooks[i];
    ghost var before := hooks[..];
    var j := i;
    hide Compare, StablySame, Sorted, AtPlace;
    assert before[..i] == hooks[..i] && before[..i + 1] == hooks[..i + 1];
    while j > 0 && Compare(entry, hooks[j - 1]) < 0
      invariant 0 <= j <= i
      invariant forall k :: 0 <= k < hooks.Length && (k < j || k > i) ==> hooks[k] == before[k]
      invariant forall k :: j < k <= i ==> hooks[k] == before[k - 1]
      invariant forall k :: j < k <= i ==> Compare(entry, hooks[k]) < 0
    {
      hooks[j] := hooks[j - 1];
      j := j - 1;
    }
    hooks[j] := entry;
    SortedAfterInsert(before, hooks[..], i, j);
    StableAfterInsert(before, hooks[..], i, j);
    assert hooks[..][..i + 1] == hooks[..i + 1];
    assert hooks[i + 1..] == before[i + 1..];
  }

  lemma StableAfterInsert(before: seq<InsertHook>, after: seq<InsertHook>, i: nat, j: nat)
    requires j <= i < |before| == |after|
    requires forall k :: 0 <= k < j ==> after[k] == before[k]
    requires forall k :: j < k <= i ==> after[k] == before[k - 1] && Compare(before[i], after[k]) < 0
    requires after[j] == before[i]
    ensures StablySame(after[..i + 1], before[..i + 1])
  {
    hide Compare, AtPlace;
    var entry := before[i];
    var over := before[j..i];
    assert after[..i + 1] == before[..j] + [entry] + over;
    assert before[..i + 1] == before[..j] + over + [entry];
    forall k | 0 <= k < |over| ensures !SamePlace(over[k], entry) {
      assert over[k] == after[j + k + 1];
      CompareIsOrder(entry, over[k], entry);
    }
    var a, b := after[..i + 1], before[..i + 1];
    forall key ensures AtPlace(a, key) == AtPlace(b, key) {
      AtPlaceMove(before[..j], over, entry, key);
    }
  }

  lemma SortedAfterInsert(before: seq<InsertHook>, after: seq<InsertHook>, i: nat, j: nat)
    requires j <= i < |before| == |after| && Sorted(before[..i])
    requires forall k :: 0 <= k < j ==> after[k] == before[k]
    requires forall k :: j < k <= i ==> after[k] == before[k - 1] && Compare(before[i], after[k]) < 0
    requires after[j] == before[i]
    requires j > 0 ==> Compare(before[i], before[j - 1]) >= 0
    ensures Sorted(after[..i + 1])
  {
    hide Compare;
    forall p, q | 0 <= p < q < i + 1 ensures Compare(after[p], after[q]) <= 0 {
      if p != j && q != j {
        var p0, q0 := if p < j then p else p - 1, if q < j then q else q - 1;
        assert before[..i][p0] == after[p] && before[..i][q0] == after[q];
      } else if q == j {
        assert p <= j - 1;
        assert before[..i][p] == after[p] && before[..i][j - 1] == before[j - 1];
        CompareIsOrder(before[i], before[j - 1], before[j - 1]);
        CompareIsOrder(before[j - 1], before[i], before[i]);
        if p < j - 1 {
          CompareIsOrder(after[p], before[j - 1], before[i]);
        }
      }
    }
  }

  /** The stable insertion sort the rebuild runs over its inserts. */
  method SortInserts(hooks: array<InsertHook>)
    modifies hooks
    ensures Sorted(hooks[..]) && StablySame(hooks[..], old(hooks[..]))
  {
    ghost var before := hooks[..];
    if hooks.Length == 0 {
      return;
    }
    for i := 1 to hooks.Length
      invariant Sorted(hooks[..i])
      invariant hooks[i..] == before[i..]
      invariant StablySame(hooks[..i], before[..i])
    {
      ghost var at := hooks[..i];
      assert hooks[..i + 1] == at + [before[i]];
      assert before[..i + 1] == before[..i] + [before[i]];
      forall key ensures AtPlace(at + [before[i]], key) == AtPlace(before[..i + 1], key) {
        AtPlaceConcat(at, [before[i]], key);
        AtPlaceConcat(before[..i], [before[i]], key);
      }
      SortIn(hooks, i);
    }
    assert hooks[..hooks.Length] == hooks[..] && before[..hooks.Length] == before;
  }
}
