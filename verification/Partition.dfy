/** How an uninstall sets entries aside: in place, by swaps, which keeps the order
    of the others but not of those set aside. */
module Partition {
  import opened Bytes
  import opened Rebuild
  import opened HookedClasses
  import opened TiedInserts

  /** What an uninstall asks for. */
  datatype Pattern = OfMethod(id: MethodId) | OfInsert(id: MethodId, offset: u4, callback: nat)

  predicate Matches(p: Pattern, entry: HookEntry) {
    match p
    case OfMethod(id) => entry.id == id
    case OfInsert(id, offset, callback) =>
      entry.kind == INSERT_CALL && entry.id == id && entry.offset == offset && entry.callback == callback
  }

  function Kept(hooks: seq<HookEntry>, p: Pattern): (r: seq<HookEntry>)
    ensures |r| <= |hooks|
  {
    if hooks == [] then []
    else Kept(hooks[..|hooks| - 1], p) + (if Matches(p, hooks[|hooks| - 1]) then [] else [hooks[|hooks| - 1]])
  }

  /** The array after the partition has looked at its first i entries. */
  function Arranged(hooks: seq<HookEntry>, p: Pattern, i: nat): (r: seq<HookEntry>)
    requires i <= |hooks|
    ensures |r| == |hooks|
  {
    if i == 0 then hooks
    else
      var before, kept := Arranged(hooks, p, i - 1), |Kept(hooks[..i - 1], p)|;
      if Matches(p, before[i - 1]) then before
      else before[kept := before[i - 1]][i - 1 := before[kept]]
  }

  /** After i entries: those kept come first, in order; those moved aside match;
      the rest is as it was; nothing is lost. */
  lemma {:induction false} ArrangedParts(hooks: seq<HookEntry>, p: Pattern, i: nat)
    requires i <= |hooks|
    ensures var r, kept := Arranged(hooks, p, i), |Kept(hooks[..i], p)|;
      && kept <= i && r[..kept] == Kept(hooks[..i], p) && r[i..] == hooks[i..]
      && (forall k :: kept <= k < i ==> Matches(p, r[k]))
      && multiset(r) == multiset(hooks)
  {
    hide Matches;
    if i > 0 {
      ArrangedParts(hooks, p, i - 1);
      assert hooks[..i][..i - 1] == hooks[..i - 1];
      var before, kept := Arranged(hooks, p, i - 1), |Kept(hooks[..i - 1], p)|;
      assert before[i - 1] == before[i - 1..][0] == hooks[i - 1];
      assert before[i..] == before[i - 1..][1..] && hooks[i..] == hooks[i - 1..][1..];
      if !Matches(p, before[i - 1]) {
        SwapParts(before, kept, i - 1);
        SwapIsPermutation(before, kept, i - 1);
      }
    }
  }

  lemma SwapParts(s: seq<HookEntry>, i: nat, j: nat)
    requires i <= j < |s|
    ensures var r := s[i := s[j]][j := s[i]];
      && r[..i + 1] == s[..i] + [s[j]] && r[j + 1..] == s[j + 1..]
      && (forall k :: i < k < j ==> r[k] == s[k]) && (i < j ==> r[j] == s[i])
  {
  }

  lemma SwapIsPermutation(s: seq<HookEntry>, i: nat, j: nat)
    requires i <= j < |s|
    ensures multiset(s[i := s[j]][j := s[i]]) == multiset(s)
  {
  }

  /** Moves the matching entries behind the others, in place. */
  method Partition(hooks: array<HookEntry>, p: Pattern) returns (kept: nat)
    modifies hooks
    ensures hooks[..] == Arranged(old(hooks[..]), p, hooks.Length)
    ensures kept == |Kept(old(hooks[..]), p)|
  {
    hide Matches;
    kept := 0;
    ghost var before := hooks[..];
    for i := 0 to hooks.Length
      invariant hooks[..] == Arranged(before, p, i) && kept == |Kept(before[..i], p)| <= i
    {
      assert before[..i + 1][..i] == before[..i];
      ArrangedParts(before, p, i);
      assert before[i] == before[i..][0] == hooks[i];
      ghost var now := hooks[..];
      if Matches(p, hooks[i]) {
        continue;
      }
      if kept != i {
        var moved := hooks[kept];
        hooks[kept] := hooks[i];
        hooks[i] := moved;
      }
      assert hooks[..] == now[kept := now[i]][i := now[kept]];
      kept := kept + 1;
    }
    assert before[..hooks.Length] == before;
  }

  // ----- what the swaps leave -----

  /** The entries set aside. A later entry that stays is swapped with the first of
      them, which thereby becomes the last. */
  function Aside(hooks: seq<HookEntry>, p: Pattern): (r: seq<HookEntry>)
    ensures |r| + |Kept(hooks, p)| == |hooks|
    decreases |hooks|
  {
    if hooks == [] then []
    else
      var before, last := Aside(hooks[..|hooks| - 1], p), hooks[|hooks| - 1];
      if Matches(p, last) then before + [last]
      else if before == [] then []
      else before[1..] + [before[0]]
  }

  /** The partition in one expression. */
  lemma {:induction false} ArrangedIs(hooks: seq<HookEntry>, p: Pattern, i: nat)
    requires i <= |hooks|
    ensures Arranged(hooks, p, i) == Kept(hooks[..i], p) + Aside(hooks[..i], p) + hooks[i..]
  {
    hide Matches;
    if i > 0 {
      ArrangedIs(hooks, p, i - 1);
      var front, x, rest := hooks[..i - 1], hooks[i - 1], hooks[i..];
      assert hooks[..i][..i - 1] == front && hooks[..i][i - 1] == x;
      assert hooks[i - 1..] == [x] + rest;
      var kept, aside := Kept(front, p), Aside(front, p);
      var before := Arranged(hooks, p, i - 1);
      assert before == kept + aside + [x] + rest;
      if !Matches(p, x) {
        SwapEnds(kept, aside, x, rest);
      }
    }
  }

  lemma SwapEnds(kept: seq<HookEntry>, aside: seq<HookEntry>, x: HookEntry, rest: seq<HookEntry>)
    ensures var s := kept + aside + [x] + rest; var k, i := |kept|, |kept| + |aside|;
      s[k := s[i]][i := s[k]] == kept + [x] + (if aside == [] then [] else aside[1..] + [aside[0]]) + rest
  {
  }

  lemma {:induction false} AsideMatches(hooks: seq<HookEntry>, p: Pattern)
    ensures forall k :: 0 <= k < |Aside(hooks, p)| ==> Matches(p, Aside(hooks, p)[k])
    decreases |hooks|
  {
    hide Matches;
    if hooks != [] {
      AsideMatches(hooks[..|hooks| - 1], p);
    }
  }

  lemma KeptDoesNotMatch(hooks: seq<HookEntry>, p: Pattern)
    ensures forall k :: 0 <= k < |Kept(hooks, p)| ==> !Matches(p, Kept(hooks, p)[k])
  {
    hide Matches, Kept;
    forall k | 0 <= k < |Kept(hooks, p)| ensures !Matches(p, Kept(hooks, p)[k]) {
      KeptMembers(hooks, p, Kept(hooks, p)[k]);
    }
  }

  /** What matches stands behind everything that does not. */
  predicate MatchesLast(hooks: seq<HookEntry>, p: Pattern) {
    forall i, j :: 0 <= i < j < |hooks| && Matches(p, hooks[i]) ==> Matches(p, hooks[j])
  }

  lemma {:induction false} AlreadyApart(hooks: seq<HookEntry>, p: Pattern)
    requires MatchesLast(hooks, p)
    ensures Kept(hooks, p) + Aside(hooks, p) == hooks
    decreases |hooks|
  {
    hide Matches;
    if hooks != [] {
      var n := |hooks| - 1;
      assert hooks == hooks[..n] + [hooks[n]];
      AlreadyApart(hooks[..n], p);
      if !Matches(p, hooks[n]) {
        KeptAll(hooks[..n], p);
      }
    }
  }

  /** The partition leaves a list as it was if and only if what matches already
      stood last. */
  lemma ArrangedSame(hooks: seq<HookEntry>, p: Pattern)
    ensures Arranged(hooks, p, |hooks|) == hooks <==> MatchesLast(hooks, p)
  {
    hide Matches, Kept, Aside, Arranged;
    ArrangedIs(hooks, p, |hooks|);
    assert hooks[..|hooks|] == hooks && hooks[|hooks|..] == [];
    var kept, aside := Kept(hooks, p), Aside(hooks, p);
    if MatchesLast(hooks, p) {
      AlreadyApart(hooks, p);
    }
    if kept + aside == hooks {
      KeptDoesNotMatch(hooks, p);
      AsideMatches(hooks, p);
    }
  }

  lemma {:induction false} KeptMembers(hooks: seq<HookEntry>, p: Pattern, x: HookEntry)
    ensures x in Kept(hooks, p) <==> x in hooks && !Matches(p, x)
  {
    hide Matches;
    if hooks != [] {
      KeptMembers(hooks[..|hooks| - 1], p, x);
      assert hooks == hooks[..|hooks| - 1] + [hooks[|hooks| - 1]];
    }
  }

  lemma {:induction false} KeptAll(hooks: seq<HookEntry>, p: Pattern)
    ensures |Kept(hooks, p)| == |hooks| <==> forall j :: 0 <= j < |hooks| ==> !Matches(p, hooks[j])
    ensures |Kept(hooks, p)| == |hooks| ==> Kept(hooks, p) == hooks
  {
    hide Matches;
    if hooks != [] {
      KeptAll(hooks[..|hooks| - 1], p);
      assert hooks == hooks[..|hooks| - 1] + [hooks[|hooks| - 1]];
    }
  }

  lemma ArrangedWhole(hooks: seq<HookEntry>, p: Pattern)
    ensures var r, kept := Arranged(hooks, p, |hooks|), |Kept(hooks, p)|;
      && kept <= |hooks| && r[..kept] == Kept(hooks, p) && multiset(r) == multiset(hooks) && Kept(r, p) == Kept(hooks, p)
  {
    ArrangedParts(hooks, p, |hooks|);
    assert hooks[..|hooks|] == hooks;
    var r, kept := Arranged(hooks, p, |hooks|), |Kept(hooks, p)|;
    assert r == r[..kept] + r[kept..];
    KeptConcat(r[..kept], r[kept..], p);
    KeptTwice(hooks, p);
    NoneKept(r[kept..], p);
  }

  lemma {:induction false} KeptConcat(a: seq<HookEntry>, b: seq<HookEntry>, p: Pattern)
    ensures Kept(a + b, p) == Kept(a, p) + Kept(b, p)
  {
    hide Matches;
    if b == [] {
      assert a + b == a;
    } else {
      assert (a + b)[..|a + b| - 1] == a + b[..|b| - 1];
      KeptConcat(a, b[..|b| - 1], p);
    }
  }

  lemma {:induction false} KeptTwice(hooks: seq<HookEntry>, p: Pattern)
    ensures Kept(Kept(hooks, p), p) == Kept(hooks, p)
  {
    forall j | 0 <= j < |Kept(hooks, p)| ensures !Matches(p, Kept(hooks, p)[j]) {
      KeptMembers(hooks, p, Kept(hooks, p)[j]);
    }
    KeptAll(Kept(hooks, p), p);
  }

  lemma {:induction false} NoneKept(hooks: seq<HookEntry>, p: Pattern)
    requires forall j :: 0 <= j < |hooks| ==> Matches(p, hooks[j])
    ensures Kept(hooks, p) == []
  {
    if hooks != [] {
      NoneKept(hooks[..|hooks| - 1], p);
    }
  }

  /** The entries with those matching p behind the others. */
  method MoveAside(hooks: seq<HookEntry>, p: Pattern) returns (moved: seq<HookEntry>, kept: nat)
    ensures kept == |Kept(hooks, p)| <= |moved| == |hooks| && moved[..kept] == Kept(hooks, p)
    ensures moved == Arranged(hooks, p, |hooks|)
    ensures multiset(moved) == multiset(hooks) && Kept(moved, p) == Kept(hooks, p)
  {
    hide Kept;
    var entries := new HookEntry[|hooks|](j requires 0 <= j < |hooks| => hooks[j]);
    assert entries[..] == hooks;
    kept := Partition(entries, p);
    moved := entries[..];
    ArrangedWhole(hooks, p);
  }

  // ----- the order a later rebuild applies -----

  /** The entries an uninstall of p would leave in another order, were it refused,
      include two inserts that the comparison ties. */
  predicate ExchangesTies(hooks: seq<HookEntry>, p: Pattern) {
    Exchanged(Inserts(hooks), Inserts(Arranged(hooks, p, |hooks|)))
  }

  lemma {:induction false} InsertsConcat(a: seq<HookEntry>, b: seq<HookEntry>)
    ensures Inserts(a + b) == Inserts(a) + Inserts(b)
    decreases |b|
  {
    if b == [] {
      assert a + b == a;
    } else {
      assert (a + b)[..|a + b| - 1] == a + b[..|b| - 1];
      InsertsConcat(a, b[..|b| - 1]);
    }
  }

  lemma InsertsFirst(x: HookEntry, rest: seq<HookEntry>)
    ensures Inserts([x] + rest) == (if x.kind == INSERT_CALL then [AsInsert(x)] else []) + Inserts(rest)
  {
    InsertsConcat([x], rest);
    assert [x][..0] == [];
  }

  lemma {:induction false} InsertsWithout(hooks: seq<HookEntry>, i: nat)
    requires i < |hooks|
    ensures multiset(Inserts(hooks))
         == multiset(Inserts(hooks[..i] + hooks[i + 1..])) + (if hooks[i].kind == INSERT_CALL then multiset{AsInsert(hooks[i])} else multiset{})
  {
    var front, rest := hooks[..i], hooks[i + 1..];
    assert hooks == front + ([hooks[i]] + rest);
    InsertsConcat(front, [hooks[i]] + rest);
    InsertsFirst(hooks[i], rest);
    InsertsConcat(front, rest);
  }

  /** The same entries have the same inserts. */
  lemma {:induction false} SameInserts(a: seq<HookEntry>, b: seq<HookEntry>)
    requires multiset(a) == multiset(b)
    ensures multiset(Inserts(a)) == multiset(Inserts(b))
    decreases |a|
  {
    hide Inserts;
    if a != [] {
      var i := PlaceOf(b, a[0]) by {
        assert a[0] in multiset(a);
      }
      WithoutOne(a, 0);
      WithoutOne(b, i);
      SameInserts(a[..0] + a[0 + 1..], b[..i] + b[i + 1..]);
      InsertsWithout(b, i);
      InsertsWithout(a, 0);
    } else {
      assert |multiset(b)| == 0;
      assert b == [];
    }
  }

  lemma PlaceOf(s: seq<HookEntry>, x: HookEntry) returns (i: nat)
    requires x in multiset(s)
    ensures i < |s| && s[i] == x
  {
    i :| 0 <= i < |s| && s[i] == x;
  }

  lemma WithoutOne(s: seq<HookEntry>, i: nat)
    requires i < |s|
    ensures multiset(s[..i] + s[i + 1..]) == multiset(s) - multiset{s[i]}
  {
    assert s == s[..i] + [s[i]] + s[i + 1..];
  }

  /** After a refused uninstall, every later rebuild applies its inserts in the
      order the rebuilds before it did, if and only if the swaps exchanged no tie. */
  lemma RefusedOrder(hooks: seq<HookEntry>, p: Pattern, s: seq<InsertHook>, t: seq<InsertHook>)
    requires Distinct(Inserts(hooks))
    requires Sorted(s) && StablySame(s, Inserts(hooks))
    requires Sorted(t) && StablySame(t, Inserts(Arranged(hooks, p, |hooks|)))
    ensures s == t <==> !ExchangesTies(hooks, p)
  {
    hide Distinct, Exchanged, StablySame, Sorted, Arranged, Inserts;
    ArrangedWhole(hooks, p);
    SameInserts(hooks, Arranged(hooks, p, |hooks|));
    SameOrderApplied(Inserts(hooks), Inserts(Arranged(hooks, p, |hooks|)), s, t);
  }

  /** Taking two out of four: they come back with the second in front of the first. */
  lemma PartitionReorders(a: HookEntry, b: HookEntry, c: HookEntry, d: HookEntry, p: Pattern)
    requires Matches(p, a) && !Matches(p, b) && Matches(p, c) && !Matches(p, d)
    ensures Arranged([a, b, c, d], p, 4) == [b, d, c, a]
  {
    hide Matches;
    var s := [a, b, c, d];
    assert s[..1] == [a] && s[..2] == [a, b] && s[..3] == [a, b, c];
    assert [a][..0] == [] && [a, b][..1] == [a] && [a, b, c][..2] == [a, b];
    assert Kept([a], p) == [] && Kept([a, b], p) == [b] && Kept([a, b, c], p) == [b];
    assert Arranged(s, p, 1) == s;
    assert Arranged(s, p, 2) == [b, a, c, d];
    assert Arranged(s, p, 3) == [b, a, c, d];
  }

  /** The least there is: of two tied inserts, the one put in first is to go and may
      not. */
  lemma TwoTiesExchanged(a: HookEntry, b: HookEntry, p: Pattern)
    requires a.kind == INSERT_CALL && b.kind == INSERT_CALL && Compare(AsInsert(a), AsInsert(b)) == 0
    requires Matches(p, a) && !Matches(p, b)
    ensures ExchangesTies([a, b], p)
  {
    TwoArranged(a, b, p);
    InsertsOfTwo(a, b);
    InsertsOfTwo(b, a);
    hide Matches, Compare, Inserts, Arranged;
    var s, t := [AsInsert(a), AsInsert(b)], [AsInsert(b), AsInsert(a)];
    assert t[0] == s[1] && t[1] == s[0];
    assert Before(t, s[1], s[0]);
  }

  lemma TwoArranged(a: HookEntry, b: HookEntry, p: Pattern)
    requires Matches(p, a) && !Matches(p, b)
    ensures Arranged([a, b], p, 2) == [b, a]
  {
    hide Matches;
    var s := [a, b];
    assert s[..0] == [] && s[..1] == [a] && [a][..0] == [];
    assert Kept([a], p) == [];
    assert Arranged(s, p, 1) == s;
  }

  lemma InsertsOfTwo(a: HookEntry, b: HookEntry)
    requires a.kind == INSERT_CALL && b.kind == INSERT_CALL
    ensures Inserts([a, b]) == [AsInsert(a), AsInsert(b)]
  {
    assert [a, b][..1] == [a] && [a][..0] == [];
    assert Inserts([a]) == [AsInsert(a)];
  }
}
