/** The run an element of a sequence belongs to, for a given relation between neighbours. */
module Runs {

  /** How many elements in front of number `i` belong to its run. */
  function Back<X>(s: seq<X>, same: (X, X) -> bool, i: nat): (n: nat)
    requires i < |s|
    ensures n <= i
  {
    if i > 0 && same(s[i], s[i - 1]) then 1 + Back(s, same, i - 1) else 0
  }

  /** How many elements behind number `i` belong to its run. */
  function Ahead<X>(s: seq<X>, same: (X, X) -> bool, i: nat): (n: nat)
    requires i < |s|
    ensures i + n < |s|
    decreases |s| - i
  {
    if i + 1 < |s| && same(s[i], s[i + 1]) then 1 + Ahead(s, same, i + 1) else 0
  }

  lemma {:induction false} BackInRun<X>(s: seq<X>, same: (X, X) -> bool, n: nat, i: nat)
    requires i < n <= |s| && forall k :: 0 < k < n ==> same(s[k], s[k - 1])
    ensures Back(s, same, i) == i
  {
    if i > 0 {
      BackInRun(s, same, n, i - 1);
    }
  }

  lemma {:induction false} AheadInRun<X>(s: seq<X>, same: (X, X) -> bool, n: nat, i: nat)
    requires i < n <= |s| && forall k :: 0 <= k < n - 1 ==> same(s[k], s[k + 1])
    requires n < |s| ==> !same(s[n - 1], s[n])
    ensures Ahead(s, same, i) == n - 1 - i
    decreases n - i
  {
    if i + 1 < n {
      AheadInRun(s, same, n, i + 1);
    }
  }

  /** Behind a place where two runs meet a sequence looks like its rest alone. */
  lemma {:induction false} BackBehind<X>(s: seq<X>, same: (X, X) -> bool, n: nat, i: nat)
    requires 0 < n <= i < |s| && !same(s[n], s[n - 1])
    ensures Back(s, same, i) == Back(s[n..], same, i - n)
    decreases i
  {
    if i > n {
      BackBehind(s, same, n, i - 1);
    }
  }

  lemma {:induction false} AheadBehind<X>(s: seq<X>, same: (X, X) -> bool, n: nat, i: nat)
    requires n <= i < |s|
    ensures Ahead(s, same, i) == Ahead(s[n..], same, i - n)
    decreases |s| - i
  {
    if i + 1 < |s| {
      AheadBehind(s, same, n, i + 1);
    }
  }

  /** `same` relates the members of one run both ways and all with each other. */
  ghost predicate IsRunRelation<X(!new)>(same: (X, X) -> bool) {
    && (forall x, y :: same(x, y) ==> same(y, x))
    && (forall x, y, z :: same(x, y) && same(y, z) ==> same(x, z))
  }

  /** The last element of the run around number `i`. */
  lemma {:induction false} RunLast<X(!new)>(s: seq<X>, same: (X, X) -> bool, i: nat) returns (e: nat)
    requires i < |s| && IsRunRelation(same)
    ensures i <= e < |s| && e == i + Ahead(s, same, i)
    ensures Ahead(s, same, e) == 0 && Back(s, same, e) == Back(s, same, i) + (e - i)
    ensures e == i || same(s[i], s[e])
    decreases |s| - i
  {
    if i + 1 < |s| && same(s[i], s[i + 1]) {
      assert same(s[i + 1], s[i]);
      e := RunLast(s, same, i + 1);
    } else {
      e := i;
    }
  }

  /** The last element but one of the run around number `i`, if that is not the last. */
  lemma {:induction false} RunLastButOne<X(!new)>(s: seq<X>, same: (X, X) -> bool, i: nat) returns (e: nat)
    requires i < |s| && IsRunRelation(same) && Ahead(s, same, i) > 0
    ensures i <= e < |s| && Ahead(s, same, e) == 1
    ensures Back(s, same, e) + 2 == Back(s, same, i) + 1 + Ahead(s, same, i)
    ensures e == i || same(s[i], s[e])
    decreases |s| - i
  {
    e := i;
    if Ahead(s, same, i + 1) > 0 {
      assert same(s[i + 1], s[i]);
      e := RunLastButOne(s, same, i + 1);
    }
  }

  // ----- Runs of what is left when some elements are dropped

  /** How many kept elements in front of number `i` belong to its run; a dropped one ends the run. */
  function BackKept<X>(s: seq<X>, kept: seq<bool>, same: (X, X) -> bool, i: nat): (n: nat)
    requires i < |s| == |kept|
    ensures n <= i
  {
    if i > 0 && kept[i - 1] && same(s[i], s[i - 1]) then 1 + BackKept(s, kept, same, i - 1) else 0
  }

  function AheadKept<X>(s: seq<X>, kept: seq<bool>, same: (X, X) -> bool, i: nat): (n: nat)
    requires i < |s| == |kept|
    ensures i + n < |s|
    decreases |s| - i
  {
    if i + 1 < |s| && kept[i + 1] && same(s[i], s[i + 1]) then 1 + AheadKept(s, kept, same, i + 1) else 0
  }

  /**
   * `out` holds the kept elements of `s`, element `i` at `place[i]`, and for each stretch of dropped ones a
   * filler that belongs to no run.
   */
  ghost predicate Thinned<X(!new)>(s: seq<X>, kept: seq<bool>, out: seq<X>, place: seq<nat>, same: (X, X) -> bool) {
    && |kept| == |s| && |place| == |s|
    && (forall i :: 0 <= i < |s| ==> place[i] < |out|)
    && (forall i :: 0 <= i < |s| && kept[i] ==> out[place[i]] == s[i])
    && (forall i, x :: 0 <= i < |s| && !kept[i] ==> !same(x, out[place[i]]))
    && (forall i :: 0 <= i < |s| && i == 0 ==> place[i] == 0)
    && (forall i :: 0 <= i < |s| && i == |s| - 1 ==> place[i] == |out| - 1)
    && (forall i, j :: 0 <= i && j == i + 1 < |s| ==>
          place[j] == place[i] + 1 || (place[j] == place[i] && !kept[i] && !kept[j]))
  }

  lemma {:induction false} BackThinned<X(!new)>(s: seq<X>, kept: seq<bool>, out: seq<X>, place: seq<nat>,
                                                same: (X, X) -> bool, i: nat)
    requires Thinned(s, kept, out, place, same) && i < |s| && kept[i]
    ensures Back(out, same, place[i]) == BackKept(s, kept, same, i)
  {
    if i > 0 {
      assert place[i] == place[i - 1] + 1;
      if kept[i - 1] {
        BackThinned(s, kept, out, place, same, i - 1);
      }
    }
  }

  lemma {:induction false} AheadThinned<X(!new)>(s: seq<X>, kept: seq<bool>, out: seq<X>, place: seq<nat>,
                                                 same: (X, X) -> bool, i: nat)
    requires Thinned(s, kept, out, place, same) && i < |s| && kept[i]
    ensures Ahead(out, same, place[i]) == AheadKept(s, kept, same, i)
    decreases |s| - i
  {
    if i + 1 < |s| {
      assert place[i + 1] == place[i] + 1;
      if kept[i + 1] {
        AheadThinned(s, kept, out, place, same, i + 1);
      }
    }
  }

  /** When nothing that belongs to a run is dropped, runs are as they were. */
  lemma {:induction false} BackAllKept<X(!new)>(s: seq<X>, kept: seq<bool>, same: (X, X) -> bool, i: nat)
    requires i < |s| == |kept| && forall j, x :: 0 <= j < |s| && !kept[j] ==> !same(x, s[j])
    ensures BackKept(s, kept, same, i) == Back(s, same, i)
  {
    if i > 0 {
      BackAllKept(s, kept, same, i - 1);
    }
  }

  lemma {:induction false} AheadAllKept<X(!new)>(s: seq<X>, kept: seq<bool>, same: (X, X) -> bool, i: nat)
    requires i < |s| == |kept| && forall j, x :: 0 <= j < |s| && !kept[j] ==> !same(x, s[j])
    ensures AheadKept(s, kept, same, i) == Ahead(s, same, i)
    decreases |s| - i
  {
    if i + 1 < |s| {
      AheadAllKept(s, kept, same, i + 1);
    }
  }
}
