/** The library's stable sort, for a given order. */
module Sorting {

  function Insert<X>(x: X, sorted: seq<X>, before: (X, X) -> bool): (r: seq<X>)
    ensures |r| == |sorted| + 1
  {
    if sorted == [] || before(x, sorted[0]) then [x] + sorted else [sorted[0]] + Insert(x, sorted[1..], before)
  }

  function Sort<X>(s: seq<X>, before: (X, X) -> bool): (r: seq<X>)
    ensures |r| == |s|
  {
    if s == [] then [] else Insert(s[|s| - 1], Sort(s[..|s| - 1], before), before)
  }

  lemma {:induction false} InsertContents<X>(x: X, s: seq<X>, before: (X, X) -> bool)
    ensures multiset(Insert(x, s, before)) == multiset(s) + multiset{x}
  {
    if s != [] {
      InsertContents(x, s[1..], before);
      assert s == [s[0]] + s[1..];
    }
  }

  lemma {:induction false} InsertMembers<X>(x: X, s: seq<X>, before: (X, X) -> bool)
    ensures forall y :: y in Insert(x, s, before) <==> y == x || y in s
  {
    if s != [] {
      InsertMembers(x, s[1..], before);
    }
  }

  lemma {:induction false} SortContents<X>(s: seq<X>, before: (X, X) -> bool)
    ensures multiset(Sort(s, before)) == multiset(s)
  {
    if s != [] {
      var init, x := s[..|s| - 1], s[|s| - 1];
      SortContents(init, before);
      InsertContents(x, Sort(init, before), before);
      assert s == init + [x];
    }
  }

  lemma {:induction false} SortMembers<X>(s: seq<X>, before: (X, X) -> bool)
    ensures forall y :: y in Sort(s, before) <==> y in s
  {
    if s != [] {
      var init, x := s[..|s| - 1], s[|s| - 1];
      SortMembers(init, before);
      InsertMembers(x, Sort(init, before), before);
      assert s == init + [x];
    }
  }

  /** No element comes before one in front of it. */
  predicate Ordered<X(!new)>(s: seq<X>, before: (X, X) -> bool) {
    forall i, j :: 0 <= i < j < |s| ==> !before(s[j], s[i])
  }

  ghost predicate IsWeakOrder<X(!new)>(before: (X, X) -> bool) {
    && (forall x, y :: before(x, y) ==> !before(y, x))
    && (forall x, y, z :: !before(y, x) && !before(z, y) ==> !before(z, x))
  }

  lemma {:induction false} InsertOrdered<X(!new)>(x: X, s: seq<X>, before: (X, X) -> bool)
    requires IsWeakOrder(before) && Ordered(s, before)
    ensures Ordered(Insert(x, s, before), before)
  {
    if s != [] && !before(x, s[0]) {
      var t := Insert(x, s[1..], before);
      InsertOrdered(x, s[1..], before);
      InsertMembers(x, s[1..], before);
      assert forall k :: 0 <= k < |t| ==> t[k] in t;
      assert forall k :: 0 <= k < |t| ==> !before(t[k], s[0]);
    } else if s != [] {
      assert forall k :: 0 <= k < |s| ==> !before(s[k], s[0]);
      assert forall k :: 0 <= k < |s| ==> !before(s[k], x);
    }
  }

  lemma {:induction false} SortOrdered<X(!new)>(s: seq<X>, before: (X, X) -> bool)
    requires IsWeakOrder(before)
    ensures Ordered(Sort(s, before), before)
  {
    if s != [] {
      var init := s[..|s| - 1];
      SortOrdered(init, before);
      InsertOrdered(s[|s| - 1], Sort(init, before), before);
    }
  }

  predicate Apart<X>(s: seq<X>, differ: (X, X) -> bool) {
    forall i, j :: 0 <= i < j < |s| ==> differ(s[i], s[j])
  }

  lemma {:induction false} InsertApart<X(!new)>(x: X, s: seq<X>, before: (X, X) -> bool, differ: (X, X) -> bool)
    requires forall a, b :: differ(a, b) ==> differ(b, a)
    requires Apart(s, differ) && forall y :: y in s ==> differ(x, y)
    ensures Apart(Insert(x, s, before), differ)
  {
    if s != [] && !before(x, s[0]) {
      var t := Insert(x, s[1..], before);
      InsertApart(x, s[1..], before, differ);
      InsertMembers(x, s[1..], before);
      assert forall k :: 0 <= k < |t| ==> t[k] in t;
      assert s[0] in s;
    }
  }

  /** Sorting keeps elements apart that are pairwise apart. */
  lemma {:induction false} SortApart<X(!new)>(s: seq<X>, before: (X, X) -> bool, differ: (X, X) -> bool)
    requires forall a, b :: differ(a, b) ==> differ(b, a)
    requires Apart(s, differ)
    ensures Apart(Sort(s, before), differ)
  {
    if s != [] {
      var init, x := s[..|s| - 1], s[|s| - 1];
      SortApart(init, before, differ);
      SortMembers(init, before);
      forall y | y in init
        ensures differ(x, y)
      {
        var i :| 0 <= i < |init| && init[i] == y;
        assert differ(s[i], s[|s| - 1]);
      }
      InsertApart(x, Sort(init, before), before, differ);
    }
  }
}
