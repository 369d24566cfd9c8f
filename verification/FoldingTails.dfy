/**
 * Exactly which lines the folds of piscis-kernel/src/agent/rule_preprocess.rs keep: for every line of every
 * text, and from that for the first and the last non-empty lines its documentation promises to keep.
 */
module FoldingTails {
  import opened Common
  import opened Folding
  import opened FoldingPromises
  import opened Runs
  import T = Text

  // ----- Which lines a folded text keeps

  function Flags(items: seq<Item>): seq<bool> {
    if items == [] then []
    else FlagsOf(items[0]) + Flags(items[1..])
  }

  function FlagsOf(item: Item): seq<bool> {
    if item.Line? then [true] else seq(|item.lost|, _ => false)
  }

  /** Line `i` of the text is shown in the folded text, not counted in a marker. */
  predicate IsKept(rule: Rule, lines: seq<string>, i: nat) {
    SetAt(Flags(Items(rule, lines)), i)
  }

  predicate SetAt(flags: seq<bool>, i: nat) { i < |flags| && flags[i] }

  // ----- The run around a line

  /** Two lines that can stand in one run. */
  predicate Same(rule: Rule, a: string, b: string) {
    Begins(rule, a) && Joins(rule, a, b)
  }

  function SameFor(rule: Rule): (string, string) -> bool { (a, b) => Same(rule, a, b) }

  function Before(rule: Rule, lines: seq<string>, i: nat): nat
    requires i < |lines|
  {
    Back(lines, SameFor(rule), i)
  }

  function After(rule: Rule, lines: seq<string>, i: nat): nat
    requires i < |lines|
  {
    Ahead(lines, SameFor(rule), i)
  }

  /** A run of `n` lines like `line` is folded. */
  predicate Folds(rule: Rule, line: string, n: nat) {
    match rule
    case Repeated => n >= RLE_MIN_RUN && !LooksLikeError(line)
    case Stack => n > STACK_KEEP_LEADING + 2
    case Table => n > TABLE_KEEP_ROWS + 2
  }

  /** In a folded run of `n` lines, number `k` is counted in the marker. */
  predicate Cut(rule: Rule, n: nat, k: nat) {
    match rule
    case Repeated => 1 <= k
    case Stack => STACK_KEEP_LEADING <= k < n - 1
    case Table => TABLE_KEEP_ROWS + 2 <= k
  }

  /** What a caller can see in the text: line `i` lies in the part of its run that the rule folds. */
  predicate IsLost(rule: Rule, lines: seq<string>, i: nat)
    requires i < |lines|
  {
    var k := Before(rule, lines, i);
    var n := k + 1 + After(rule, lines, i);
    Begins(rule, lines[i]) && Folds(rule, lines[i], n) && Cut(rule, n, k)
  }

  // ----- The two agree

  lemma {:induction false} FlagsConcat(a: seq<Item>, b: seq<Item>)
    ensures Flags(a + b) == Flags(a) + Flags(b)
  {
    if a == [] {
      assert a + b == b;
    } else {
      FlagsConcat(a[1..], b);
      assert (a + b)[0] == a[0] && (a + b)[1..] == a[1..] + b;
      Assoc(FlagsOf(a[0]), Flags(a[1..]), Flags(b));
    }
  }

  lemma {:induction false} FlagsOfKept(lines: seq<string>)
    ensures Flags(Kept(lines)) == seq(|lines|, _ => true)
  {
    if lines != [] {
      FlagsOfKept(lines[1..]);
      assert Kept(lines)[1..] == Kept(lines[1..]);
    }
  }

  lemma FlagsOfSplit(run: seq<string>, n: nat, m: nat)
    requires n <= m <= |run|
    ensures |Flags(Split(run, n, m))| == |run|
    ensures forall k :: 0 <= k < |run| ==> Flags(Split(run, n, m))[k] == !(n <= k < m)
  {
    var head, gap, tail := Kept(run[..n]), [Gap(run[n..m])], Kept(run[m..]);
    FlagsConcat(head, gap);
    FlagsConcat(head + gap, tail);
    FlagsOfKept(run[..n]);
    FlagsOfKept(run[m..]);
    assert gap[1..] == [];
    assert Flags(gap) == FlagsOf(gap[0]);
  }

  lemma FlagsOfShrunk(rule: Rule, run: seq<string>)
    requires run != []
    ensures |Flags(Shrunk(rule, run))| == |run|
    ensures forall k :: 0 <= k < |run| ==>
              Flags(Shrunk(rule, run))[k] == !(Folds(rule, run[0], |run|) && Cut(rule, |run|, k))
  {
    FlagsOfKept(run);
    if Folds(rule, run[0], |run|) {
      var n := match rule case Repeated => 1 case Stack => STACK_KEEP_LEADING case Table => TABLE_KEEP_ROWS + 2;
      FlagsOfSplit(run, n, if rule.Stack? then |run| - 1 else |run|);
    }
  }

  /** Lines of one run are alike: which of them the run is named by does not matter. */
  lemma Alike(rule: Rule, a: string, b: string)
    requires Begins(rule, a) && Joins(rule, a, b)
    ensures Begins(rule, b) && (forall x :: Joins(rule, a, x) == Joins(rule, b, x))
    ensures Joins(rule, b, a) && (rule.Repeated? ==> LooksLikeError(a) == LooksLikeError(b))
  {
    ErrorIgnoresTrailingSpace(a);
    ErrorIgnoresTrailingSpace(b);
  }

  lemma SameInRun(rule: Rule, first: string, a: string, b: string)
    requires Begins(rule, first) && Joins(rule, first, a)
    ensures Same(rule, a, b) == Joins(rule, first, b)
  {
    Alike(rule, first, a);
  }

  /** Inside the first run of a text. */
  lemma AroundFirstRun(rule: Rule, lines: seq<string>, n: nat, i: nat)
    requires i < n <= |lines| && Begins(rule, lines[0])
    requires forall k :: 0 <= k < n ==> Joins(rule, lines[0], lines[k])
    requires n < |lines| ==> !Joins(rule, lines[0], lines[n])
    ensures Before(rule, lines, i) == i && After(rule, lines, i) == n - 1 - i
  {
    forall k | 0 <= k < n
      ensures k > 0 ==> Same(rule, lines[k], lines[k - 1])
      ensures k + 1 < |lines| ==> Same(rule, lines[k], lines[k + 1]) == (k + 1 < n)
    {
      if k > 0 { SameInRun(rule, lines[0], lines[k], lines[k - 1]); }
      if k + 1 < |lines| { SameInRun(rule, lines[0], lines[k], lines[k + 1]); }
    }
    BackInRun(lines, SameFor(rule), n, i);
    AheadInRun(lines, SameFor(rule), n, i);
  }

  /** Behind the first block a text looks like the rest alone. */
  lemma LostBehind(rule: Rule, lines: seq<string>, n: nat, i: nat)
    requires 0 < n <= i < |lines| && !Same(rule, lines[n], lines[n - 1])
    ensures IsLost(rule, lines, i) <==> IsLost(rule, lines[n..], i - n)
  {
    BackBehind(lines, SameFor(rule), n, i);
    AheadBehind(lines, SameFor(rule), n, i);
  }

  lemma FlagsOfBlock(rule: Rule, lines: seq<string>, i: nat)
    requires lines != [] && i < BlockLength(rule, lines)
    ensures |Flags(Block(rule, lines))| == BlockLength(rule, lines)
    ensures Flags(Block(rule, lines))[i] == !IsLost(rule, lines, i)
  {
    var n := BlockLength(rule, lines);
    BlockIsMaximal(rule, lines);
    if Begins(rule, lines[0]) {
      AroundFirstRun(rule, lines, n, i);
      FlagsOfShrunk(rule, lines[..n]);
      Alike(rule, lines[0], lines[i]);
    } else {
      assert [Line(lines[0])][1..] == [];
    }
  }

  lemma BlocksDoNotJoin(rule: Rule, lines: seq<string>)
    requires lines != [] && BlockLength(rule, lines) < |lines|
    ensures var n := BlockLength(rule, lines);
            !Same(rule, lines[n], lines[n - 1])
  {
    var n := BlockLength(rule, lines);
    BlockIsMaximal(rule, lines);
    if Begins(rule, lines[0]) {
      Alike(rule, lines[0], lines[n - 1]);
    }
  }

  /** The flags of a text are those of its first block and those of the rest. */
  lemma FlagsStep(rule: Rule, lines: seq<string>)
    requires lines != []
    ensures Flags(Items(rule, lines)) ==
            Flags(Block(rule, lines)) + Flags(Items(rule, lines[BlockLength(rule, lines)..]))
    ensures |Flags(Block(rule, lines))| == BlockLength(rule, lines)
  {
    FlagsConcat(Block(rule, lines), Items(rule, lines[BlockLength(rule, lines)..]));
    FlagsOfBlock(rule, lines, 0);
  }

  lemma KeptInBlock(rule: Rule, lines: seq<string>, i: nat)
    requires lines != [] && i < BlockLength(rule, lines)
    ensures IsKept(rule, lines, i) <==> !IsLost(rule, lines, i)
  {
    FlagsStep(rule, lines);
    FlagsOfBlock(rule, lines, i);
  }

  lemma KeptBehind(rule: Rule, lines: seq<string>, n: nat, i: nat)
    requires lines != [] && n == BlockLength(rule, lines) && n <= i
    ensures IsKept(rule, lines, i) <==> IsKept(rule, lines[n..], i - n)
  {
    var block, rest := Flags(Block(rule, lines)), Flags(Items(rule, lines[n..]));
    assert Flags(Items(rule, lines)) == block + rest && |block| == n by {
      FlagsStep(rule, lines);
    }
    FlagBehind(block, rest, i);
  }

  lemma FlagBehind(a: seq<bool>, b: seq<bool>, i: nat)
    requires |a| <= i
    ensures SetAt(a + b, i) == SetAt(b, i - |a|)
  {
  }

  /**
   * For every rule, text and line: the folded text keeps the line if and only if it does not lie in the part
   * of its run that the rule folds.
   */
  lemma {:induction false} LineIsKeptIff(rule: Rule, lines: seq<string>, i: nat)
    requires i < |lines|
    ensures IsKept(rule, lines, i) <==> !IsLost(rule, lines, i)
    decreases |lines|
  {
    var n := BlockLength(rule, lines);
    if i < n {
      KeptInBlock(rule, lines, i);
    } else {
      LineIsKeptIff(rule, lines[n..], i - n);
      KeptBehind(rule, lines, n, i);
      BlocksDoNotJoin(rule, lines);
      LostBehind(rule, lines, n, i);
    }
  }

  // ----- Blank lines

  lemma {:induction false} TrimEndBlank(s: string)
    ensures T.IsBlank(s) <==> T.TrimEnd(s) == ""
  {
    if s != "" && T.IsSpace(s[|s| - 1]) {
      TrimEndBlank(s[..|s| - 1]);
      assert s == s[..|s| - 1] + [s[|s| - 1]];
    }
  }

  lemma {:induction false} TrimStartBlank(s: string)
    requires T.IsBlank(s)
    ensures T.TrimStart(s) == ""
  {
    if s != "" {
      TrimStartBlank(s[1..]);
    }
  }

  /** Lines of one run are all blank or all not; only equal lines can be blank. */
  lemma RunsAreBlankTogether(rule: Rule, a: string, b: string)
    requires Same(rule, a, b)
    ensures T.IsBlank(a) == T.IsBlank(b)
    ensures T.IsBlank(a) ==> rule.Repeated?
  {
    TrimEndBlank(a);
    TrimEndBlank(b);
    BlankIsNoRow(a);
    BlankIsNoRow(b);
  }

  lemma BlankIsNoRow(line: string)
    ensures T.IsBlank(line) ==> !IsTableRow(line) && !IsStackFrame(line)
  {
    if T.IsBlank(line) {
      TrimStartBlank(line);
    }
  }

  // ----- The first non-empty line

  /** Every fold keeps the first non-empty line of every text. */
  lemma FirstNonEmptyIsKept(rule: Rule, lines: seq<string>, i: nat)
    requires i < |lines| && !T.IsBlank(lines[i]) && forall k :: 0 <= k < i ==> T.IsBlank(lines[k])
    ensures IsKept(rule, lines, i)
  {
    LineIsKeptIff(rule, lines, i);
    if i > 0 && Same(rule, lines[i], lines[i - 1]) {
      RunsAreBlankTogether(rule, lines[i], lines[i - 1]);
      assert false;
    }
  }

  // ----- The last three non-empty lines

  function NonEmpty(lines: seq<string>): nat {
    if lines == [] then 0 else (if T.IsBlank(lines[0]) then 0 else 1) + NonEmpty(lines[1..])
  }

  const KEPT_AT_END: nat := 3

  /** Line `i` is among the last three non-empty lines. */
  predicate InTail(lines: seq<string>, i: nat) {
    i < |lines| && !T.IsBlank(lines[i]) && NonEmpty(lines[i + 1..]) < KEPT_AT_END
  }

  /** The last three non-empty lines are all kept. */
  ghost predicate TailSurvives(rule: Rule, lines: seq<string>) {
    forall i: nat :: InTail(lines, i) ==> IsKept(rule, lines, i)
  }

  /** A run long enough to fold ends with line `i`. */
  predicate FoldedRunEnds(rule: Rule, lines: seq<string>, i: nat) {
    && i < |lines| && Begins(rule, lines[i]) && After(rule, lines, i) == 0
    && Folds(rule, lines[i], Before(rule, lines, i) + 1)
  }

  lemma {:induction false} NonEmptyShrinks(lines: seq<string>, i: nat, j: nat)
    requires i <= j <= |lines|
    ensures NonEmpty(lines[j..]) <= NonEmpty(lines[i..])
    decreases j - i
  {
    if i < j {
      NonEmptyShrinks(lines, i + 1, j);
      assert lines[i..][1..] == lines[i + 1..];
    }
  }

  lemma SameIsRunRelation(rule: Rule)
    ensures IsRunRelation(SameFor(rule))
  {
    var same := SameFor(rule);
    forall a, b | same(a, b)
      ensures same(b, a) && forall c :: same(b, c) ==> same(a, c)
    {
      Alike(rule, a, b);
    }
  }

  /** A lost line of the tail belongs to a folded run whose last line is in the tail as well. */
  lemma LostTailEndsRun(rule: Rule, lines: seq<string>, i: nat) returns (e: nat)
    requires !rule.Stack? && InTail(lines, i) && IsLost(rule, lines, i)
    ensures FoldedRunEnds(rule, lines, e) && InTail(lines, e)
  {
    SameIsRunRelation(rule);
    e := RunLast(lines, SameFor(rule), i);
    if e > i {
      TailGoesOn(rule, lines, i, e);
    }
  }

  lemma TailGoesOn(rule: Rule, lines: seq<string>, i: nat, e: nat)
    requires InTail(lines, i) && i <= e < |lines| && Same(rule, lines[i], lines[e])
    ensures InTail(lines, e) && Begins(rule, lines[e])
    ensures forall n :: Folds(rule, lines[i], n) == Folds(rule, lines[e], n)
  {
    Alike(rule, lines[i], lines[e]);
    RunsAreBlankTogether(rule, lines[i], lines[e]);
    NonEmptyShrinks(lines, i + 1, e + 1);
  }

  /**
   * The last three non-empty lines survive the folding of repeated lines, and of table rows, if and only if
   * no run of non-empty lines long enough to fold is followed by fewer than three non-empty lines.
   */
  lemma TailSurvivesIff(rule: Rule, lines: seq<string>)
    requires !rule.Stack?
    ensures TailSurvives(rule, lines) <==> forall i: nat :: FoldedRunEnds(rule, lines, i) ==> !InTail(lines, i)
  {
    forall i: nat | FoldedRunEnds(rule, lines, i)
      ensures !IsKept(rule, lines, i)
    {
      LineIsKeptIff(rule, lines, i);
    }
    forall i: nat | InTail(lines, i) && !IsKept(rule, lines, i)
      ensures exists e: nat :: FoldedRunEnds(rule, lines, e) && InTail(lines, e)
    {
      LineIsKeptIff(rule, lines, i);
      var e := LostTailEndsRun(rule, lines, i);
    }
  }

  /** Line `i` is the last frame but one of a run of stack frames long enough to fold. */
  predicate FoldedFramesEndBehind(lines: seq<string>, i: nat) {
    && i < |lines| && IsStackFrame(lines[i]) && After(Stack, lines, i) == 1
    && Folds(Stack, lines[i], Before(Stack, lines, i) + 2)
  }

  lemma LostFrameNearsEnd(lines: seq<string>, i: nat) returns (e: nat)
    requires InTail(lines, i) && IsLost(Stack, lines, i)
    ensures FoldedFramesEndBehind(lines, e) && InTail(lines, e)
  {
    SameIsRunRelation(Stack);
    e := RunLastButOne(lines, SameFor(Stack), i);
    if e > i {
      TailGoesOn(Stack, lines, i, e);
    }
  }

  /**
   * The last three non-empty lines survive the folding of stack frames, which keeps a run's last frame, if
   * and only if no run long enough to fold has its last frame but one among them.
   */
  lemma StackTailSurvivesIff(lines: seq<string>)
    ensures TailSurvives(Stack, lines) <==> forall i: nat :: FoldedFramesEndBehind(lines, i) ==> !InTail(lines, i)
  {
    forall i: nat | FoldedFramesEndBehind(lines, i)
      ensures !IsKept(Stack, lines, i)
    {
      LineIsKeptIff(Stack, lines, i);
    }
    forall i: nat | InTail(lines, i) && !IsKept(Stack, lines, i)
      ensures exists e: nat :: FoldedFramesEndBehind(lines, e) && InTail(lines, e)
    {
      LineIsKeptIff(Stack, lines, i);
      var e := LostFrameNearsEnd(lines, i);
    }
  }

  /**
   * A text that ends in three equal lines, or in eight table rows, loses its last line; one that ends in a
   * folded run of stack frames loses its last line but one.
   */
  lemma TailLostAtEnd(rule: Rule, line: string, n: nat)
    requires Begins(rule, line) && !T.IsBlank(line) && Folds(rule, line, n)
    ensures !TailSurvives(rule, Copies(line, n))
  {
    var lines := Copies(line, n);
    if rule.Stack? {
      AroundFirstRun(rule, lines, n, n - 2);
      assert lines[n - 1..] == [line] && [line][1..] == [];
      assert FoldedFramesEndBehind(lines, n - 2) && InTail(lines, n - 2);
      StackTailSurvivesIff(lines);
    } else {
      AroundFirstRun(rule, lines, n, n - 1);
      assert lines[n..] == [];
      assert FoldedRunEnds(rule, lines, n - 1) && InTail(lines, n - 1);
      TailSurvivesIff(rule, lines);
    }
  }
}
