/** Where the lines of a text stand in its folded form: the kept ones in order, and markers for the rest. */
module FoldingPlaces {
  import opened Folding
  import opened FoldingTails

  /** The number of the item that stands for line `i`: the line itself, or the gap it is counted in. */
  function PlaceIn(items: seq<Item>, i: nat): nat {
    if items == [] then 0
    else if i < |Original(items[0])| then 0
    else 1 + PlaceIn(items[1..], i - |Original(items[0])|)
  }

  /** Gaps stand for something. */
  predicate GapsFull(items: seq<Item>) {
    forall k :: 0 <= k < |items| ==> Original(items[k]) != []
  }

  lemma {:induction false} FlagsCover(items: seq<Item>)
    ensures |Flags(items)| == |Source(items)|
  {
    if items != [] {
      FlagsCover(items[1..]);
    }
  }

  /** The item at the place of a line is that line, or a gap if the line is lost. */
  lemma {:induction false} ItemAtPlace(items: seq<Item>, i: nat)
    requires i < |Source(items)|
    ensures PlaceIn(items, i) < |items|
    ensures if SetAt(Flags(items), i) then items[PlaceIn(items, i)] == Line(Source(items)[i])
            else items[PlaceIn(items, i)].Gap?
  {
    var n := |Original(items[0])|;
    if i >= n {
      FlagsCover(items[1..]);
      ItemAtPlace(items[1..], i - n);
      FlagBehind(FlagsOf(items[0]), Flags(items[1..]), i);
      assert Source(items)[i] == Source(items[1..])[i - n];
    } else {
      assert Flags(items)[i] == FlagsOf(items[0])[i];
    }
  }

  /** From one line to the next the place moves on by one, or stays inside a gap. */
  lemma {:induction false} NextPlace(items: seq<Item>, i: nat)
    requires GapsFull(items) && i + 1 < |Source(items)|
    ensures var here, next := PlaceIn(items, i), PlaceIn(items, i + 1);
            next == here + 1 || (next == here && !SetAt(Flags(items), i) && !SetAt(Flags(items), i + 1))
  {
    var n := |Original(items[0])|;
    FlagsCover(items[1..]);
    if i >= n {
      NextPlace(items[1..], i - n);
    } else if i + 1 == n {
      FirstPlace(items[1..]);
    }
  }

  lemma FirstPlace(items: seq<Item>)
    requires GapsFull(items)
    ensures PlaceIn(items, 0) == 0
  {
  }

  lemma {:induction false} LastPlace(items: seq<Item>)
    requires GapsFull(items) && items != []
    ensures Source(items) != [] && PlaceIn(items, |Source(items)| - 1) == |items| - 1
  {
    assert Original(items[0]) != [];
    if |items| > 1 {
      LastPlace(items[1..]);
    }
  }

  /** The lines' places reach from the first item to the last. */
  lemma PlacesSpan(items: seq<Item>, lines: seq<string>)
    requires GapsFull(items) && lines == Source(items) && lines != []
    ensures PlaceIn(items, 0) == 0 && PlaceIn(items, |lines| - 1) == |items| - 1
  {
    FirstPlace(items);
    LastPlace(items);
  }

  lemma {:induction false} PlacesGrow(items: seq<Item>, i: nat, j: nat)
    requires GapsFull(items) && i < j < |Source(items)|
    ensures PlaceIn(items, i) <= PlaceIn(items, j)
    ensures SetAt(Flags(items), i) || SetAt(Flags(items), j) ==> PlaceIn(items, i) < PlaceIn(items, j)
    decreases j - i
  {
    NextPlace(items, i);
    if i + 1 < j {
      PlacesGrow(items, i + 1, j);
      if !SetAt(Flags(items), i) && PlaceIn(items, i + 1) == PlaceIn(items, i) {
        assert SetAt(Flags(items), j) ==> PlaceIn(items, i + 1) < PlaceIn(items, j);
      }
    }
  }

  /** Every item is the place of some lines: those from `i` on, as many as it stands for. */
  lemma {:induction false} LineAt(items: seq<Item>, p: nat) returns (i: nat)
    requires GapsFull(items) && p < |items|
    ensures i + |Original(items[p])| <= |Source(items)|
    ensures forall k: nat :: k < |Source(items)| ==>
              (PlaceIn(items, k) == p <==> i <= k < i + |Original(items[p])|)
  {
    var n := |Original(items[0])|;
    assert Original(items[0]) != [];
    if p == 0 {
      i := 0;
    } else {
      i := LineAt(items[1..], p - 1);
      forall k: nat | n <= k < |Source(items)|
        ensures PlaceIn(items, k) == 1 + PlaceIn(items[1..], k - n)
      {
      }
      i := i + n;
    }
  }

  // ----- The items of a folded text

  lemma SplitFull(run: seq<string>, n: nat, m: nat)
    requires n < m <= |run|
    ensures GapsFull(Split(run, n, m))
  {
    assert forall k :: 0 <= k < |Split(run, n, m)| ==>
                         k == n || Split(run, n, m)[k].Line? by {
      assert |Kept(run[..n])| == n;
    }
  }

  lemma BlockFull(rule: Rule, lines: seq<string>)
    requires lines != []
    ensures GapsFull(Block(rule, lines))
  {
    if Begins(rule, lines[0]) {
      var run := lines[..BlockLength(rule, lines)];
      match rule
      case Repeated => if |run| > 1 { SplitFull(run, 1, |run|); }
      case Stack => if |run| > STACK_KEEP_LEADING + 2 { SplitFull(run, STACK_KEEP_LEADING, |run| - 1); }
      case Table => if |run| > TABLE_KEEP_ROWS + 2 { SplitFull(run, TABLE_KEEP_ROWS + 2, |run|); }
    }
  }

  lemma {:induction false} ItemsFull(rule: Rule, lines: seq<string>)
    ensures GapsFull(Items(rule, lines))
    decreases |lines|
  {
    if lines != [] {
      BlockFull(rule, lines);
      ItemsFull(rule, lines[BlockLength(rule, lines)..]);
    }
  }

  /** Where line `i` stands in the folded text. */
  function Place(rule: Rule, lines: seq<string>, i: nat): nat { PlaceIn(Items(rule, lines), i) }

  /** A marker of the rule for some lost lines. */
  ghost predicate IsMarker(rule: Rule, line: string) { exists n: nat :: n > 0 && line == Marker(rule, n) }

  /** The `n` lines from `i` on are exactly those that stand at `p`. */
  predicate StandAt(rule: Rule, lines: seq<string>, i: nat, n: nat, p: nat) {
    i + n <= |lines| && forall k: nat :: k < |lines| ==> (Place(rule, lines, k) == p <==> i <= k < i + n)
  }

  /** The line at `p` is a marker that counts the lines standing there, all of them lost. */
  ghost predicate CountsItsLines(rule: Rule, lines: seq<string>, p: nat)
    requires p < |Folded(rule, lines)|
  {
    exists i: nat, n: nat ::
      && n > 0 && StandAt(rule, lines, i, n, p) && Folded(rule, lines)[p] == Marker(rule, n)
      && forall k :: i <= k < i + n ==> !IsKept(rule, lines, k)
  }

  /** The line at a line's place: itself if it is kept, and else the marker it is counted in. */
  lemma LineAtPlace(rule: Rule, lines: seq<string>, i: nat)
    requires i < |lines|
    ensures Place(rule, lines, i) < |Folded(rule, lines)|
    ensures IsKept(rule, lines, i) ==> Folded(rule, lines)[Place(rule, lines, i)] == lines[i]
    ensures !IsKept(rule, lines, i) ==>
              IsMarker(rule, Folded(rule, lines)[Place(rule, lines, i)])
  {
    var items := Items(rule, lines);
    FoldLosesOnlyItsKind(rule, lines);
    ItemsFull(rule, lines);
    ItemAtPlace(items, i);
    var item := items[PlaceIn(items, i)];
    if item.Gap? {
      assert Original(item) != [];
      assert |item.lost| > 0 && Folded(rule, lines)[Place(rule, lines, i)] == Marker(rule, |item.lost|);
    }
  }

  lemma PlacesInOrder(rule: Rule, lines: seq<string>, i: nat, j: nat)
    requires i < j < |lines| && (IsKept(rule, lines, i) || IsKept(rule, lines, j))
    ensures Place(rule, lines, i) < Place(rule, lines, j)
  {
    FoldLosesOnlyItsKind(rule, lines);
    ItemsFull(rule, lines);
    PlacesGrow(Items(rule, lines), i, j);
  }

  predicate KeptAt(rule: Rule, lines: seq<string>, i: nat, p: nat) {
    i < |lines| && IsKept(rule, lines, i) && Place(rule, lines, i) == p
  }

  lemma FoldedLineIsKeptOrMarker(rule: Rule, lines: seq<string>, p: nat)
    requires p < |Folded(rule, lines)|
    ensures (exists i: nat :: KeptAt(rule, lines, i, p)) || CountsItsLines(rule, lines, p)
  {
    FoldLosesOnlyItsKind(rule, lines);
    ItemsFull(rule, lines);
    var items := Items(rule, lines);
    var i := LineAt(items, p);
    var n := |Original(items[p])|;
    assert Original(items[p]) != [];
    assert StandAt(rule, lines, i, n, p);
    forall k: nat | i <= k < i + n
      ensures IsKept(rule, lines, k) <==> items[p].Line?
    {
      ItemAtPlace(items, k);
    }
    if items[p].Line? {
      assert KeptAt(rule, lines, i, p);
    } else {
      assert Folded(rule, lines)[p] == Marker(rule, n);
    }
  }

  /**
   * The kept lines, in their order, are exactly the lines of the folded text that are not its markers: each
   * kept line stands at its place, later ones behind earlier ones, and every other line of the folded text
   * is a marker that counts the lost lines it stands for.
   */
  lemma FoldedShowsKept(rule: Rule, lines: seq<string>)
    ensures forall i: nat, p: nat :: KeptAt(rule, lines, i, p) ==>
              p < |Folded(rule, lines)| && Folded(rule, lines)[p] == lines[i]
    ensures forall i: nat, j: nat, p: nat, q: nat ::
              KeptAt(rule, lines, i, p) && KeptAt(rule, lines, j, q) && i < j ==> p < q
    ensures forall p :: 0 <= p < |Folded(rule, lines)| ==>
              (exists i: nat :: KeptAt(rule, lines, i, p)) || CountsItsLines(rule, lines, p)
  {
    forall i: nat, p: nat | KeptAt(rule, lines, i, p)
      ensures p < |Folded(rule, lines)| && Folded(rule, lines)[p] == lines[i]
    {
      LineAtPlace(rule, lines, i);
    }
    forall i: nat, j: nat, p: nat, q: nat | KeptAt(rule, lines, i, p) && KeptAt(rule, lines, j, q) && i < j
      ensures p < q
    {
      PlacesInOrder(rule, lines, i, j);
    }
    forall p | 0 <= p < |Folded(rule, lines)|
      ensures (exists i: nat :: KeptAt(rule, lines, i, p)) || CountsItsLines(rule, lines, p)
    {
      FoldedLineIsKeptOrMarker(rule, lines, p);
    }
  }
}
