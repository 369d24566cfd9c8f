/**
 * What is left of a text when the preprocessor's three folds are applied one behind the other (preprocess in
 * piscis-kernel/src/agent/rule_preprocess.rs): for every line, and so for the first and the last non-empty
 * ones, in terms of the text alone.
 */
module FoldingThree {
  import opened Folding
  import opened FoldingPlaces
  import opened FoldingTails
  import opened Runs
  import T = Text

  function FirstText(lines: seq<string>): seq<string> { Folded(Repeated, lines) }

  function SecondText(lines: seq<string>): seq<string> { Folded(Stack, FirstText(lines)) }

  function ThirdText(lines: seq<string>): seq<string> { Folded(Table, SecondText(lines)) }

  function FirstPlaceOf(lines: seq<string>, i: nat): nat { Place(Repeated, lines, i) }

  function SecondPlaceOf(lines: seq<string>, i: nat): nat { Place(Stack, FirstText(lines), FirstPlaceOf(lines, i)) }

  function ThirdPlaceOf(lines: seq<string>, i: nat): nat { Place(Table, SecondText(lines), SecondPlaceOf(lines, i)) }

  /** Line `i` is kept by each fold, at its place in the text the fold is given. */
  predicate Survives(lines: seq<string>, i: nat) {
    && IsKept(Repeated, lines, i)
    && IsKept(Stack, FirstText(lines), FirstPlaceOf(lines, i))
    && IsKept(Table, SecondText(lines), SecondPlaceOf(lines, i))
  }

  lemma KeptStands(rule: Rule, lines: seq<string>, i: nat)
    requires i < |lines| && IsKept(rule, lines, i)
    ensures Place(rule, lines, i) < |Folded(rule, lines)| && Folded(rule, lines)[Place(rule, lines, i)] == lines[i]
  {
    LineAtPlace(rule, lines, i);
  }

  /** A line that survives stands in the last text, and those that do keep their order. */
  lemma SurvivorsAreShown(lines: seq<string>, i: nat)
    requires i < |lines| && Survives(lines, i)
    ensures ThirdPlaceOf(lines, i) < |ThirdText(lines)| && ThirdText(lines)[ThirdPlaceOf(lines, i)] == lines[i]
    ensures forall j: nat :: i < j < |lines| && Survives(lines, j) ==> ThirdPlaceOf(lines, i) < ThirdPlaceOf(lines, j)
  {
    KeptStands(Repeated, lines, i);
    KeptStands(Stack, FirstText(lines), FirstPlaceOf(lines, i));
    KeptStands(Table, SecondText(lines), SecondPlaceOf(lines, i));
    forall j: nat | i < j < |lines| && Survives(lines, j)
      ensures ThirdPlaceOf(lines, i) < ThirdPlaceOf(lines, j)
    {
      SurvivorsKeepOrder(lines, i, j);
    }
  }

  lemma SurvivorsKeepOrder(lines: seq<string>, i: nat, j: nat)
    requires i < j < |lines| && Survives(lines, i) && Survives(lines, j)
    ensures ThirdPlaceOf(lines, i) < ThirdPlaceOf(lines, j)
  {
    KeptStands(Repeated, lines, j);
    PlacesInOrder(Repeated, lines, i, j);
    KeptStands(Stack, FirstText(lines), FirstPlaceOf(lines, j));
    PlacesInOrder(Stack, FirstText(lines), FirstPlaceOf(lines, i), FirstPlaceOf(lines, j));
    KeptStands(Table, SecondText(lines), SecondPlaceOf(lines, j));
    PlacesInOrder(Table, SecondText(lines), SecondPlaceOf(lines, i), SecondPlaceOf(lines, j));
  }

  // ----- Runs in the text a fold leaves

  function KeptFlags(rule: Rule, lines: seq<string>): seq<bool> { 
    seq(|lines|, i requires 0 <= i < |lines| => IsKept(rule, lines, i))
  }

  function Places(rule: Rule, lines: seq<string>): seq<nat> { 
    seq(|lines|, i requires 0 <= i < |lines| => Place(rule, lines, i))
  }

  /** No marker of the first rule is a line of the second one's kind. */
  ghost predicate MarkersApart(rule: Rule, next: Rule) {
    !next.Repeated? && forall n: nat :: !Begins(next, Marker(rule, n))
  }

  lemma MarkersAreApart(rule: Rule, next: Rule)
    requires !rule.Table? && !next.Repeated?
    ensures MarkersApart(rule, next)
  {
    forall n: nat
      ensures !Begins(next, Marker(rule, n))
    {
      MarkerIsOther(rule, n);
    }
  }

  lemma MarkerIsOther(rule: Rule, n: nat)
    requires !rule.Table?
    ensures !IsStackFrame(Marker(rule, n)) && !IsTableRow(Marker(rule, n))
  {
    MarkerStart(rule, n);
    KindOfStart(Marker(rule, n));
  }

  /** How lines of the two kinds begin. */
  lemma KindOfStart(line: string)
    ensures IsStackFrame(line) ==> T.TrimStart(line) != "" && T.TrimStart(line)[0] !in {'|', '\U{2026}'}
    ensures IsTableRow(line) ==> T.TrimStart(line) != "" && T.TrimStart(line)[0] == '|'
  {
    var t := T.TrimStart(line);
    assert |t| >= 6 ==> t[..6][0] == t[0];
    assert |t| >= 3 ==> t[..3][0] == t[0];
    TrimEndIsPrefix(t);
  }

  lemma {:induction false} TrimEndIsPrefix(s: string)
    ensures T.TrimEnd(s) <= s
  {
    if s != "" && T.IsSpace(s[|s| - 1]) {
      TrimEndIsPrefix(s[..|s| - 1]);
    }
  }

  /** What stands for a lost line belongs to no run of the next fold. */
  lemma FillersJoinNothing(rule: Rule, next: Rule, lines: seq<string>, i: nat, line: string)
    requires MarkersApart(rule, next) && i < |lines| && !IsKept(rule, lines, i)
    ensures Place(rule, lines, i) < |Folded(rule, lines)|
    ensures !Same(next, line, Folded(rule, lines)[Place(rule, lines, i)])
  {
    LineAtPlace(rule, lines, i);
  }

  lemma PlaceMovesOn(rule: Rule, lines: seq<string>, i: nat)
    requires i + 1 < |lines|
    ensures var here, behind := Place(rule, lines, i), Place(rule, lines, i + 1);
            behind == here + 1 || (behind == here && !IsKept(rule, lines, i) && !IsKept(rule, lines, i + 1))
  {
    FoldLosesOnlyItsKind(rule, lines);
    ItemsFull(rule, lines);
    NextPlace(Items(rule, lines), i);
  }

  lemma PlacesBeginAndEnd(rule: Rule, lines: seq<string>)
    requires lines != []
    ensures Place(rule, lines, 0) == 0 && Place(rule, lines, |lines| - 1) == |Folded(rule, lines)| - 1
  {
    FoldLosesOnlyItsKind(rule, lines);
    ItemsFull(rule, lines);
    PlacesSpan(Items(rule, lines), lines);
  }

  lemma FoldThins(rule: Rule, next: Rule, lines: seq<string>)
    requires MarkersApart(rule, next)
    ensures Thinned(lines, KeptFlags(rule, lines), Folded(rule, lines), Places(rule, lines), SameFor(next))
  {
    var same := SameFor(next);
    forall i | 0 <= i < |lines|
      ensures Place(rule, lines, i) < |Folded(rule, lines)|
      ensures IsKept(rule, lines, i) ==> Folded(rule, lines)[Place(rule, lines, i)] == lines[i]
    {
      LineAtPlace(rule, lines, i);
    }
    forall i, line | 0 <= i < |lines| && !IsKept(rule, lines, i)
      ensures !same(line, Folded(rule, lines)[Places(rule, lines)[i]])
    {
      FillersJoinNothing(rule, next, lines, i, line);
    }
    forall i, j | 0 <= i && j == i + 1 < |lines|
      ensures var here, behind := Place(rule, lines, i), Place(rule, lines, j);
              behind == here + 1 || (behind == here && !IsKept(rule, lines, i) && !IsKept(rule, lines, j))
    {
      PlaceMovesOn(rule, lines, i);
    }
    if lines != [] {
      PlacesBeginAndEnd(rule, lines);
    }
  }

  /** Line `i` lies in the part that `rule` folds of its run, where the dropped lines end a run. */
  predicate IsLostAmong(rule: Rule, lines: seq<string>, kept: seq<bool>, i: nat)
    requires i < |lines| == |kept|
  {
    var k := BackKept(lines, kept, SameFor(rule), i);
    var n := k + 1 + AheadKept(lines, kept, SameFor(rule), i);
    Begins(rule, lines[i]) && Folds(rule, lines[i], n) && Cut(rule, n, k)
  }

  /** Whether the next fold keeps a line that the one before it kept. */
  lemma KeptNextIff(rule: Rule, next: Rule, lines: seq<string>, i: nat)
    requires MarkersApart(rule, next) && i < |lines| && IsKept(rule, lines, i)
    ensures Place(rule, lines, i) < |Folded(rule, lines)|
    ensures IsKept(next, Folded(rule, lines), Place(rule, lines, i)) <==>
            !IsLostAmong(next, lines, KeptFlags(rule, lines), i)
  {
    KeptStands(rule, lines, i);
    FoldThins(rule, next, lines);
    LineIsKeptIff(next, Folded(rule, lines), Place(rule, lines, i));
    BackThinned(lines, KeptFlags(rule, lines), Folded(rule, lines), Places(rule, lines), SameFor(next), i);
    AheadThinned(lines, KeptFlags(rule, lines), Folded(rule, lines), Places(rule, lines), SameFor(next), i);
  }

  /** Folding frames drops no table row, so the runs of rows are those of the text before it. */
  lemma RowsOutlastFrames(lines: seq<string>, i: nat)
    requires i < |lines| && IsKept(Stack, lines, i)
    ensures IsLostAmong(Table, lines, KeptFlags(Stack, lines), i) <==> IsLost(Table, lines, i)
  {
    forall j, x | 0 <= j < |lines| && !IsKept(Stack, lines, j)
      ensures !Same(Table, x, lines[j])
    {
      LineIsKeptIff(Stack, lines, j);
      KindOfStart(lines[j]);
    }
    BackAllKept(lines, KeptFlags(Stack, lines), SameFor(Table), i);
    AheadAllKept(lines, KeptFlags(Stack, lines), SameFor(Table), i);
  }

  /** The lines lost to the first fold, or to one of the others in what the first one leaves. */
  predicate LostByThree(lines: seq<string>, i: nat)
    requires i < |lines|
  {
    || IsLost(Repeated, lines, i)
    || IsLostAmong(Stack, lines, KeptFlags(Repeated, lines), i)
    || IsLostAmong(Table, lines, KeptFlags(Repeated, lines), i)
  }

  /**
   * For every text and line: the three folds together keep the line if and only if it is not among the
   * repetitions that are folded, and, of the frames or rows that stand together once those are gone, not
   * among the ones that are folded.
   */
  lemma SurvivesIff(lines: seq<string>, i: nat)
    requires i < |lines|
    ensures Survives(lines, i) <==> !LostByThree(lines, i)
  {
    MarkersAreApart(Repeated, Stack);
    LineIsKeptIff(Repeated, lines, i);
    if IsKept(Repeated, lines, i) {
      KeptNextIff(Repeated, Stack, lines, i);
      if IsKept(Stack, FirstText(lines), FirstPlaceOf(lines, i)) {
        RowsStayTogether(lines, i);
      }
    }
  }

  lemma RowsStayTogether(lines: seq<string>, i: nat)
    requires i < |lines| && IsKept(Repeated, lines, i) && FirstPlaceOf(lines, i) < |FirstText(lines)|
    requires IsKept(Stack, FirstText(lines), FirstPlaceOf(lines, i))
    ensures IsKept(Table, SecondText(lines), SecondPlaceOf(lines, i)) <==>
            !IsLostAmong(Table, lines, KeptFlags(Repeated, lines), i)
  {
    var first, j := FirstText(lines), FirstPlaceOf(lines, i);
    MarkersAreApart(Stack, Table);
    MarkersAreApart(Repeated, Table);
    KeptNextIff(Stack, Table, first, j);
    RowsOutlastFrames(first, j);
    LineIsKeptIff(Table, first, j);
    KeptNextIff(Repeated, Table, lines, i);
  }

  // ----- The two promises

  lemma BlankIsOfNoKind(rule: Rule, a: string, b: string)
    requires !rule.Repeated? && Same(rule, a, b)
    ensures !T.IsBlank(b)
  {
    BlankIsNoRow(b);
  }

  /** The first non-empty line of every text survives all three folds. */
  lemma FirstNonEmptySurvives(lines: seq<string>, i: nat)
    requires i < |lines| && !T.IsBlank(lines[i]) && forall k :: 0 <= k < i ==> T.IsBlank(lines[k])
    ensures Survives(lines, i)
  {
    FirstNonEmptyIsKept(Repeated, lines, i);
    LineIsKeptIff(Repeated, lines, i);
    if i > 0 && Same(Stack, lines[i], lines[i - 1]) { BlankIsOfNoKind(Stack, lines[i], lines[i - 1]); }
    if i > 0 && Same(Table, lines[i], lines[i - 1]) { BlankIsOfNoKind(Table, lines[i], lines[i - 1]); }
    assert BackKept(lines, KeptFlags(Repeated, lines), SameFor(Stack), i) == 0;
    assert BackKept(lines, KeptFlags(Repeated, lines), SameFor(Table), i) == 0;
    SurvivesIff(lines, i);
  }

  /** The last three non-empty lines survive if and only if none of them is lost as told above. */
  lemma LastThreeSurviveIff(lines: seq<string>)
    ensures (forall i: nat :: InTail(lines, i) ==> Survives(lines, i)) <==>
            (forall i: nat :: InTail(lines, i) ==> !LostByThree(lines, i))
  {
    forall i: nat | InTail(lines, i)
      ensures Survives(lines, i) <==> !LostByThree(lines, i)
    {
      SurvivesIff(lines, i);
    }
  }
}
