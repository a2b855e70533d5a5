/** The order the rebuild applies inserts in is decided by the list alone, and two
    lists decide on the same order exactly if they agree on every tie. */
module TiedInserts {
  import opened Rebuild

  predicate Before(s: seq<InsertHook>, a: InsertHook, b: InsertHook) {
    exists i, j :: 0 <= i < j < |s| && s[i] == a && s[j] == b
  }

  /** Some two inserts that the comparison ties have changed places. */
  predicate Exchanged(s: seq<InsertHook>, t: seq<InsertHook>) {
    exists i, j :: 0 <= i < j < |s| && Compare(s[i], s[j]) == 0 && Before(t, s[j], s[i])
  }

  predicate Distinct(s: seq<InsertHook>) {
    forall i, j :: 0 <= i < j < |s| ==> s[i] != s[j]
  }

  // ----- one place at a time -----

  lemma AtPlaceFirst(x: InsertHook, rest: seq<InsertHook>, key: InsertHook)
    ensures AtPlace([x] + rest, key) == (if SamePlace(x, key) then [x] else []) + AtPlace(rest, key)
  {
    AtPlaceConcat([x], rest, key);
    assert [x][..0] == [];
  }

  lemma {:induction false} AtPlaceBefore(s: seq<InsertHook>, key: InsertHook, a: InsertHook, b: InsertHook)
    ensures Before(AtPlace(s, key), a, b) <==> Before(s, a, b) && SamePlace(a, key) && SamePlace(b, key)
    decreases |s|
  {
    hide SamePlace;
    if s != [] {
      var rest := s[1..];
      assert s == [s[0]] + rest;
      AtPlaceFirst(s[0], rest, key);
      AtPlaceBefore(rest, key, a, b);
      BeforeFirst(s[0], rest, a, b);
      BeforeFirst(s[0], AtPlace(rest, key), a, b);
      AtPlaceMembers(rest, key, b);
      assert [] + AtPlace(rest, key) == AtPlace(rest, key);
    }
  }

  lemma BeforeFirst(x: InsertHook, rest: seq<InsertHook>, a: InsertHook, b: InsertHook)
    ensures Before([x] + rest, a, b) <==> (x == a && b in rest) || Before(rest, a, b)
  {
    var s := [x] + rest;
    if x == a && b in rest {
      var j :| 0 <= j < |rest| && rest[j] == b;
      assert s[0] == a && s[j + 1] == b;
    }
    if Before(rest, a, b) {
      var i, j :| 0 <= i < j < |rest| && rest[i] == a && rest[j] == b;
      assert s[i + 1] == a && s[j + 1] == b;
    }
    if Before(s, a, b) && x != a {
      var i, j :| 0 <= i < j < |s| && s[i] == a && s[j] == b;
      assert rest[i - 1] == a && rest[j - 1] == b;
    }
  }

  lemma {:induction false} AtPlaceMembers(s: seq<InsertHook>, key: InsertHook, x: InsertHook)
    ensures x in AtPlace(s, key) <==> x in s && SamePlace(x, key)
    decreases |s|
  {
    hide SamePlace;
    if s != [] {
      assert s == [s[0]] + s[1..];
      AtPlaceFirst(s[0], s[1..], key);
      AtPlaceMembers(s[1..], key, x);
    }
  }

  lemma {:induction false} AtPlaceCount(s: seq<InsertHook>, key: InsertHook, x: InsertHook)
    ensures multiset(AtPlace(s, key))[x] == if SamePlace(x, key) then multiset(s)[x] else 0
    decreases |s|
  {
    hide SamePlace;
    if s != [] {
      assert s == [s[0]] + s[1..];
      AtPlaceFirst(s[0], s[1..], key);
      AtPlaceCount(s[1..], key, x);
    }
  }

  // ----- lists that differ -----

  /** Two orders of the same entries differ in some pair. */
  lemma {:induction false} SomePairDiffers(s: seq<InsertHook>, t: seq<InsertHook>) returns (a: InsertHook, b: InsertHook)
    requires multiset(s) == multiset(t) && s != t
    ensures Before(s, a, b) && Before(t, b, a)
    decreases |s|
  {
    assert |s| == |t| by { assert |multiset(s)| == |multiset(t)|; }
    assert s == [s[0]] + s[1..] && t == [t[0]] + t[1..];
    if s[0] == t[0] {
      assert multiset(s[1..]) == multiset(s) - multiset{s[0]} == multiset(t[1..]);
      a, b := SomePairDiffers(s[1..], t[1..]);
      BeforeFirst(s[0], s[1..], a, b);
      BeforeFirst(t[0], t[1..], b, a);
    } else {
      a, b := s[0], t[0];
      assert b in multiset(s) && a in multiset(t);
      BeforeFirst(s[0], s[1..], a, b);
      BeforeFirst(t[0], t[1..], b, a);
    }
  }

  lemma NotBothWays(s: seq<InsertHook>, a: InsertHook, b: InsertHook)
    requires Distinct(s) && Before(s, a, b)
    ensures !Before(s, b, a)
  {
  }

  lemma PlacesShareElements(s: seq<InsertHook>, t: seq<InsertHook>, key: InsertHook)
    requires multiset(s) == multiset(t)
    ensures multiset(AtPlace(s, key)) == multiset(AtPlace(t, key))
  {
    hide AtPlace, SamePlace;
    forall x ensures multiset(AtPlace(s, key))[x] == multiset(AtPlace(t, key))[x] {
      AtPlaceCount(s, key, x);
      AtPlaceCount(t, key, x);
    }
  }

  lemma TieIsPlace(a: InsertHook, b: InsertHook)
    ensures Compare(a, b) == 0 <==> SamePlace(a, b)
  {
    hide Compare;
    CompareIsOrder(a, b, b);
  }

  /** The same inserts in another order agree at every place if and only if no two
      that are tied have changed places. */
  lemma StableIffNotExchanged(s: seq<InsertHook>, t: seq<InsertHook>)
    requires multiset(s) == multiset(t) && Distinct(s)
    ensures StablySame(s, t) <==> !Exchanged(s, t)
  {
    hide AtPlace, Compare, Distinct;
    assert |s| == |t| by { assert |multiset(s)| == |multiset(t)|; }
    if StablySame(s, t) && Exchanged(s, t) {
      var i, j :| 0 <= i < j < |s| && Compare(s[i], s[j]) == 0 && Before(t, s[j], s[i]);
      var a, b := s[i], s[j];
      TieIsPlace(a, b);
      AtPlaceBefore(t, a, b, a);
      assert AtPlace(s, a) == AtPlace(t, a);
      AtPlaceBefore(s, a, b, a);
      assert Before(s, a, b);
      NotBothWays(s, a, b);
    }
    if !Exchanged(s, t) {
      forall key ensures AtPlace(s, key) == AtPlace(t, key) {
        PlacesAgree(s, t, key);
      }
    }
  }

  lemma PlacesAgree(s: seq<InsertHook>, t: seq<InsertHook>, key: InsertHook)
    requires multiset(s) == multiset(t) && !Exchanged(s, t)
    ensures AtPlace(s, key) == AtPlace(t, key)
  {
    hide AtPlace, Compare;
    PlacesShareElements(s, t, key);
    if AtPlace(s, key) != AtPlace(t, key) {
      var a, b := SomePairDiffers(AtPlace(s, key), AtPlace(t, key));
      AtPlaceBefore(s, key, a, b);
      AtPlaceBefore(t, key, b, a);
      TieIsPlace(a, b);
    }
  }

  // ----- the sorted list -----

  lemma FirstIsLeast(s: seq<InsertHook>, t: seq<InsertHook>)
    requires Sorted(s) && Sorted(t) && |s| > 0 && |t| > 0 && AtPlace(s, s[0]) == AtPlace(t, s[0])
    ensures Compare(t[0], s[0]) <= 0
  {
    hide Compare, AtPlace;
    AtPlaceMembers(s, s[0], s[0]);
    assert SamePlace(s[0], s[0]) && s[0] in AtPlace(t, s[0]);
    var x := s[0];
    AtPlaceMembers(t, s[0], x);
    var k :| 0 <= k < |t| && t[k] == x;
    TieIsPlace(x, x);
  }

  /** A sorted list with the inserts at each place in a given order is the only one. */
  lemma {:induction false} SortedIsUnique(s: seq<InsertHook>, t: seq<InsertHook>)
    requires Sorted(s) && Sorted(t) && StablySame(s, t)
    ensures s == t
    decreases |s|
  {
    hide Compare, AtPlace;
    if s != [] {
      FirstIsLeast(s, t);
      FirstIsLeast(t, s);
      CompareIsOrder(s[0], t[0], s[0]);
      var x, y := s[1..], t[1..];
      assert s == [s[0]] + x && t == [t[0]] + y;
      AtPlaceFirst(s[0], x, s[0]);
      AtPlaceFirst(t[0], y, s[0]);
      assert AtPlace(s, s[0])[0] == s[0] && AtPlace(t, s[0])[0] == t[0];
      forall key ensures AtPlace(x, key) == AtPlace(y, key) {
        AtPlaceFirst(s[0], x, key);
        AtPlaceFirst(t[0], y, key);
        assert AtPlace(s, key) == AtPlace(t, key);
        if SamePlace(s[0], key) {
          assert AtPlace(s, key)[1..] == AtPlace(x, key) && AtPlace(t, key)[1..] == AtPlace(y, key);
        } else {
          assert [] + AtPlace(x, key) == AtPlace(x, key) && [] + AtPlace(y, key) == AtPlace(y, key);
        }
      }
      SortedTail(s);
      SortedTail(t);
      SortedIsUnique(x, y);
    }
  }

  lemma SortedTail(s: seq<InsertHook>)
    requires Sorted(s) && s != []
    ensures Sorted(s[1..])
  {
    hide Compare;
  }

  /** Two lists of the same inserts are applied in the same order if and only if
      no tie has been exchanged between them. */
  lemma SameOrderApplied(hooks: seq<InsertHook>, others: seq<InsertHook>, s: seq<InsertHook>, t: seq<InsertHook>)
    requires multiset(hooks) == multiset(others) && Distinct(hooks)
    requires Sorted(s) && StablySame(s, hooks) && Sorted(t) && StablySame(t, others)
    ensures s == t <==> !Exchanged(hooks, others)
  {
    hide AtPlace, Exchanged, Sorted, Distinct;
    StableIffNotExchanged(hooks, others);
    if !Exchanged(hooks, others) {
      SortedIsUnique(s, t);
    }
    if s == t {
      forall key ensures AtPlace(hooks, key) == AtPlace(others, key) {
        assert AtPlace(s, key) == AtPlace(hooks, key) && AtPlace(t, key) == AtPlace(others, key);
      }
    }
  }
}
