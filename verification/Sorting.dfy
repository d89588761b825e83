/** Stable sorting by a total preorder, as Go's sort package promises it. */
module Sorting {

  ghost predicate TotalPreorder<T(!new)>(le: (T, T) -> bool) {
    (forall x, y :: le(x, y) || le(y, x)) && (forall x, y, z :: le(x, y) && le(y, z) ==> le(x, z))
  }

  predicate Sorted<T>(s: seq<T>, le: (T, T) -> bool) {
    forall i, j :: 0 <= i < j < |s| ==> le(s[i], s[j])
  }

  /** Puts x behind everything that is not greater. */
  function Place<T>(s: seq<T>, x: T, le: (T, T) -> bool): (r: seq<T>)
    ensures |r| == |s| + 1
  {
    if s == [] || le(s[|s| - 1], x) then s + [x] else Place(s[..|s| - 1], x, le) + [s[|s| - 1]]
  }

  function Sort<T>(s: seq<T>, le: (T, T) -> bool): (r: seq<T>)
    ensures |r| == |s|
  {
    if s == [] then [] else Place(Sort(s[..|s| - 1], le), s[|s| - 1], le)
  }

  function IfAlike<T>(x: T, y: T, le: (T, T) -> bool): seq<T> { if le(x, y) && le(y, x) then [x] else [] }

  /** The elements equivalent to y, in order. */
  function Alike<T>(s: seq<T>, y: T, le: (T, T) -> bool): seq<T> {
    if s == [] then [] else Alike(s[..|s| - 1], y, le) + IfAlike(s[|s| - 1], y, le)
  }

  lemma {:induction false} AlikeSnoc<T>(s: seq<T>, x: T, y: T, le: (T, T) -> bool)
    ensures Alike(s + [x], y, le) == Alike(s, y, le) + IfAlike(x, y, le)
  {
    assert (s + [x])[..|s|] == s;
  }

  /** Elements that are not alike are not both alike y, so swapping them does not show among those. */
  lemma SwapUnlike<T(!new)>(x: T, z: T, y: T, le: (T, T) -> bool)
    requires TotalPreorder(le) && !le(z, x)
    ensures le(x, z) && (IfAlike(x, y, le) == [] || IfAlike(z, y, le) == [])
  {
    assert le(z, y) && le(y, x) ==> le(z, x);
  }

  lemma {:induction false} PlaceKeeps<T>(s: seq<T>, x: T, le: (T, T) -> bool)
    ensures multiset(Place(s, x, le)) == multiset(s) + multiset{x}
  {
    if s != [] && !le(s[|s| - 1], x) {
      assert s == s[..|s| - 1] + [s[|s| - 1]];
      PlaceKeeps(s[..|s| - 1], x, le);
    }
  }

  lemma {:induction false} PlacedIn<T>(s: seq<T>, x: T, le: (T, T) -> bool)
    ensures forall y :: y in Place(s, x, le) ==> y == x || y in s
  {
    PlaceKeeps(s, x, le);
    forall y | y in Place(s, x, le) ensures y == x || y in s { assert y in multiset(Place(s, x, le)); }
  }

  lemma SortedSnoc<T>(s: seq<T>, x: T, le: (T, T) -> bool)
    requires Sorted(s, le) && forall y :: y in s ==> le(y, x)
    ensures Sorted(s + [x], le)
  {
  }

  lemma {:induction false} PlaceSorted<T(!new)>(s: seq<T>, x: T, le: (T, T) -> bool)
    requires TotalPreorder(le) && Sorted(s, le)
    ensures Sorted(Place(s, x, le), le)
  {
    if s == [] {
    } else if le(s[|s| - 1], x) {
      forall y | y in s ensures le(y, x) {
        var i :| 0 <= i < |s| && s[i] == y;
        assert i < |s| - 1 ==> le(s[i], s[|s| - 1]);
      }
      SortedSnoc(s, x, le);
    } else {
      var init, last := s[..|s| - 1], s[|s| - 1];
      assert Sorted(init, le) && forall y :: y in init ==> le(y, last);
      PlaceSorted(init, x, le);
      PlacedIn(init, x, le);
      SwapUnlike(x, last, x, le);
      SortedSnoc(Place(init, x, le), last, le);
    }
  }

  lemma {:induction false} PlaceAlike<T(!new)>(s: seq<T>, x: T, le: (T, T) -> bool, y: T)
    requires TotalPreorder(le)
    ensures Alike(Place(s, x, le), y, le) == Alike(s, y, le) + IfAlike(x, y, le)
  {
    if s == [] || le(s[|s| - 1], x) {
      AlikeSnoc(s, x, y, le);
    } else {
      var init, last := s[..|s| - 1], s[|s| - 1];
      PlaceAlike(init, x, le, y);
      SwapUnlike(x, last, y, le);
      AlikeSnoc(Place(init, x, le), last, y, le);
      hide TotalPreorder;
      hide IfAlike;
      var a, b, c := Alike(init, y, le), IfAlike(x, y, le), IfAlike(last, y, le);
      assert a + b + c == a + c + b;
    }
  }

  lemma {:induction false} SortIsSorted<T(!new)>(s: seq<T>, le: (T, T) -> bool)
    requires TotalPreorder(le)
    ensures Sorted(Sort(s, le), le) && multiset(Sort(s, le)) == multiset(s)
  {
    if s != [] {
      var init, last := s[..|s| - 1], s[|s| - 1];
      SortIsSorted(init, le);
      PlaceSorted(Sort(init, le), last, le);
      PlaceKeeps(Sort(init, le), last, le);
      assert s == init + [last];
    }
  }

  /** Alike elements keep their order. */
  lemma {:induction false} SortIsStable<T(!new)>(s: seq<T>, le: (T, T) -> bool, y: T)
    requires TotalPreorder(le)
    ensures Alike(Sort(s, le), y, le) == Alike(s, y, le)
  {
    if s != [] {
      var init, last := s[..|s| - 1], s[|s| - 1];
      SortIsStable(init, le, y);
      PlaceAlike(Sort(init, le), last, le, y);
    }
  }

  /** Sorting what is sorted changes nothing. */
  lemma {:induction false} SortOfSorted<T>(s: seq<T>, le: (T, T) -> bool)
    requires Sorted(s, le)
    ensures Sort(s, le) == s
  {
    if s != [] {
      var init := s[..|s| - 1];
      SortOfSorted(init, le);
      assert s == init + [s[|s| - 1]];
    }
  }
}
