/** Folding of low-entropy lines (piscis-kernel/src/agent/rule_preprocess.rs), on the lines of a text. */
module Folding {
  import opened Common
  import T = Text

  const RLE_MIN_RUN: nat := 3
  const STACK_KEEP_LEADING: nat := 4
  const TABLE_KEEP_ROWS: nat := 5

  // ----- Classifying lines

  function Find(s: string, p: string): (r: Option<nat>)
    ensures r.Some? ==> r.value <= |s| && T.StartsWith(s[r.value..], p)
  {
    if T.StartsWith(s, p) then Some(0)
    else if s == "" then None
    else
      var r := Find(s[1..], p);
      if r.Some? then Some(r.value + 1) else None
  }

  predicate IsDigit(c: char) { '0' <= c <= '9' }

  predicate AllDigits(s: string) { forall i :: 0 <= i < |s| ==> IsDigit(s[i]) }

  const ERROR_PREFIXES: seq<string> := ["error", "err:", "err ", "panic", "fatal", "failed", "exception", "traceback"]

  predicate LooksLikeError(line: string) {
    var t := T.LowerAscii(T.Trim(line));
    exists k :: 0 <= k < |ERROR_PREFIXES| && T.StartsWith(t, ERROR_PREFIXES[k])
  }

  predicate IsStackFrame(line: string) {
    var t := T.TrimStart(line);
    || (T.StartsWith(t, "File \"") && Find(t, ", line ").Some?)
    || (T.StartsWith(t, "at ") && (Find(t, "::").Some? || Find(t, "(").Some?))
    || (T.StartsWith(t, "at ") && (Find(t, ":").Some? || Find(t, "(").Some?))
    || (t != "" && IsDigit(t[0]) && (var idx := Find(t, ": "); idx.Some? && AllDigits(t[..idx.value])))
  }

  function Bars(s: string): nat {
    if s == "" then 0 else (if s[0] == '|' then 1 else 0) + Bars(s[1..])
  }

  predicate IsTableRow(line: string) {
    var t := T.Trim(line);
    t != "" && t[0] == '|' && t[|t| - 1] == '|' && Bars(t) >= 2
  }

  // ----- The three rules

  datatype Rule = Repeated | Stack | Table

  const REPEATED_PREFIX := "\U{2026} <repeated \U{D7}"

  function Marker(rule: Rule, n: nat): string {
    match rule
    case Repeated => REPEATED_PREFIX + T.Decimal(n) + ">"
    case Stack => "\U{2026} <" + T.Decimal(n) + " inner frames folded>"
    case Table => "| \U{2026} <" + T.Decimal(n) + " rows folded> |"
  }

  /** Whether a run can begin with `first`. */
  predicate Begins(rule: Rule, first: string) {
    match rule
    case Repeated => true
    case Stack => IsStackFrame(first)
    case Table => IsTableRow(first)
  }

  /** Whether `line` continues a run that began with `first`. */
  predicate Joins(rule: Rule, first: string, line: string) {
    match rule
    case Repeated => T.TrimEnd(line) == T.TrimEnd(first)
    case Stack => IsStackFrame(line)
    case Table => IsTableRow(line)
  }

  function RunLength(rule: Rule, first: string, lines: seq<string>): (n: nat)
    ensures n <= |lines|
    ensures forall i :: 0 <= i < n ==> Joins(rule, first, lines[i])
    ensures n < |lines| ==> !Joins(rule, first, lines[n])
  {
    if lines == [] || !Joins(rule, first, lines[0]) then 0 else 1 + RunLength(rule, first, lines[1..])
  }

  /** A folded text: lines kept as they are and gaps that stand for the lines lost. */
  datatype Item = Line(text: string) | Gap(lost: seq<string>)

  function Kept(lines: seq<string>): seq<Item> {
    seq(|lines|, i requires 0 <= i < |lines| => Line(lines[i]))
  }

  /** The lines from `n` up to `m` become a gap. */
  function Split(run: seq<string>, n: nat, m: nat): seq<Item>
    requires n <= m <= |run|
  {
    Kept(run[..n]) + [Gap(run[n..m])] + Kept(run[m..])
  }

  function Shrunk(rule: Rule, run: seq<string>): seq<Item>
    requires run != []
  {
    match rule
    case Repeated =>
      if |run| >= RLE_MIN_RUN && !LooksLikeError(run[0]) then Split(run, 1, |run|) else Kept(run)
    case Stack =>
      if |run| <= STACK_KEEP_LEADING + 2 then Kept(run) else Split(run, STACK_KEEP_LEADING, |run| - 1)
    case Table =>
      if |run| <= TABLE_KEEP_ROWS + 2 then Kept(run) else Split(run, TABLE_KEEP_ROWS + 2, |run|)
  }

  /** The length of the block a text begins with: a maximal run, or one line outside any. */
  function BlockLength(rule: Rule, lines: seq<string>): (n: nat)
    requires lines != []
    ensures 1 <= n <= |lines|
  {
    if Begins(rule, lines[0]) then 1 + RunLength(rule, lines[0], lines[1..]) else 1
  }

  function Block(rule: Rule, lines: seq<string>): seq<Item>
    requires lines != []
  {
    if Begins(rule, lines[0]) then Shrunk(rule, lines[..BlockLength(rule, lines)]) else [Line(lines[0])]
  }

  function Items(rule: Rule, lines: seq<string>): seq<Item>
    decreases |lines|
  {
    if lines == [] then [] else Block(rule, lines) + Items(rule, lines[BlockLength(rule, lines)..])
  }

  function Shown(rule: Rule, item: Item): string { if item.Line? then item.text else Marker(rule, |item.lost|) }

  function Render(rule: Rule, items: seq<Item>): seq<string> {
    seq(|items|, i requires 0 <= i < |items| => Shown(rule, items[i]))
  }

  function Folded(rule: Rule, lines: seq<string>): seq<string> { Render(rule, Items(rule, lines)) }

  function Original(item: Item): seq<string> { if item.Line? then [item.text] else item.lost }

  /** The text a folded text stands for. */
  function Source(items: seq<Item>): seq<string> {
    if items == [] then []
    else Original(items[0]) + Source(items[1..])
  }

  // ----- The loops

  lemma RenderConcat(rule: Rule, a: seq<Item>, b: seq<Item>)
    ensures Render(rule, a + b) == Render(rule, a) + Render(rule, b)
  {
  }

  lemma FoldedStep(rule: Rule, lines: seq<string>)
    requires lines != []
    ensures Folded(rule, lines) == Render(rule, Block(rule, lines)) + Folded(rule, lines[BlockLength(rule, lines)..])
  {
    RenderConcat(rule, Block(rule, lines), Items(rule, lines[BlockLength(rule, lines)..]));
  }

  function FoldedRest(rule: Rule, lines: seq<string>, i: nat): seq<string>
    requires i <= |lines|
  {
    Folded(rule, lines[i..])
  }

  lemma FoldedEnds(rule: Rule, lines: seq<string>)
    ensures FoldedRest(rule, lines, 0) == Folded(rule, lines) && FoldedRest(rule, lines, |lines|) == []
  {
    assert lines[0..] == lines && lines[|lines|..] == [];
  }

  lemma FoldedFrom(rule: Rule, out: seq<string>, lines: seq<string>, i: nat, next: nat, piece: seq<string>)
    requires i < |lines| && next == i + BlockLength(rule, lines[i..]) && piece == Render(rule, Block(rule, lines[i..]))
    ensures out + FoldedRest(rule, lines, i) == (out + piece) + FoldedRest(rule, lines, next)
  {
    var rest := lines[i..];
    FoldedStep(rule, rest);
    assert rest[BlockLength(rule, rest)..] == lines[next..];
    Assoc(out, Render(rule, Block(rule, rest)), Folded(rule, lines[next..]));
  }

  lemma RenderKept(rule: Rule, lines: seq<string>)
    ensures Render(rule, Kept(lines)) == lines
  {
  }

  lemma RenderSplit(rule: Rule, run: seq<string>, n: nat, m: nat)
    requires n <= m <= |run|
    ensures Render(rule, Split(run, n, m)) == run[..n] + [Marker(rule, m - n)] + run[m..]
  {
    RenderKept(rule, run[..n]);
    RenderKept(rule, run[m..]);
  }

  lemma {:induction false} RunLengthIs(rule: Rule, first: string, lines: seq<string>, n: nat)
    requires n <= |lines| && (forall i :: 0 <= i < n ==> Joins(rule, first, lines[i]))
    requires n < |lines| ==> !Joins(rule, first, lines[n])
    ensures RunLength(rule, first, lines) == n
  {
  }

  /** The walk to the end of the run that begins at line `i`. */
  method RunEnd(rule: Rule, lines: seq<string>, i: nat) returns (runEnd: nat)
    requires i < |lines| && Begins(rule, lines[i])
    ensures runEnd == i + BlockLength(rule, lines[i..])
  {
    runEnd := i + 1;
    ghost var more := lines[i..][1..];
    while runEnd < |lines| && Joins(rule, lines[i], lines[runEnd])
      invariant i < runEnd <= |lines|
      invariant forall k :: 0 <= k < runEnd - i - 1 ==> Joins(rule, lines[i], more[k])
    {
      assert more[runEnd - i - 1] == lines[runEnd];
      runEnd := runEnd + 1;
    }
    assert runEnd < |lines| ==> more[runEnd - i - 1] == lines[runEnd];
    RunLengthIs(rule, lines[i], more, runEnd - i - 1);
  }

  /** What is written for one run. */
  method FoldRun(rule: Rule, run: seq<string>) returns (piece: seq<string>)
    requires run != []
    ensures piece == Render(rule, Shrunk(rule, run))
  {
    match rule
    case Repeated => piece := FoldRepeat(run);
    case Stack => piece := FoldFrames(run);
    case Table => piece := FoldRows(run);
  }

  method FoldRepeat(run: seq<string>) returns (piece: seq<string>)
    requires run != []
    ensures piece == Render(Repeated, Shrunk(Repeated, run))
  {
    if |run| >= RLE_MIN_RUN && !LooksLikeError(run[0]) {
      RenderSplit(Repeated, run, 1, |run|);
      piece := [run[0], Marker(Repeated, |run| - 1)];
    } else {
      RenderKept(Repeated, run);
      piece := run;
    }
  }

  method FoldFrames(run: seq<string>) returns (piece: seq<string>)
    requires run != []
    ensures piece == Render(Stack, Shrunk(Stack, run))
  {
    if |run| <= STACK_KEEP_LEADING + 2 {
      RenderKept(Stack, run);
      piece := run;
    } else {
      RenderSplit(Stack, run, STACK_KEEP_LEADING, |run| - 1);
      piece := run[..STACK_KEEP_LEADING] + [Marker(Stack, |run| - STACK_KEEP_LEADING - 1)] + [run[|run| - 1]];
    }
  }

  method FoldRows(run: seq<string>) returns (piece: seq<string>)
    requires run != []
    ensures piece == Render(Table, Shrunk(Table, run))
  {
    if |run| <= TABLE_KEEP_ROWS + 2 {
      RenderKept(Table, run);
      piece := run;
    } else {
      RenderSplit(Table, run, TABLE_KEEP_ROWS + 2, |run|);
      piece := run[..2 + TABLE_KEEP_ROWS] + [Marker(Table, |run| - 2 - TABLE_KEEP_ROWS)];
    }
  }

  /** The block that begins at line `i`: what is written for it and where the next one begins. */
  method FoldBlock(rule: Rule, lines: seq<string>, i: nat) returns (piece: seq<string>, next: nat)
    requires i < |lines|
    ensures next == i + BlockLength(rule, lines[i..])
    ensures piece == Render(rule, Block(rule, lines[i..]))
  {
    if Begins(rule, lines[i]) {
      next := RunEnd(rule, lines, i);
      RunAt(rule, lines, i, next);
      piece := FoldRun(rule, lines[i..next]);
    } else {
      LineAlone(rule, lines, i);
      piece, next := [lines[i]], i + 1;
    }
  }

  lemma RunAt(rule: Rule, lines: seq<string>, i: nat, next: nat)
    requires i < |lines| && Begins(rule, lines[i]) && next == i + BlockLength(rule, lines[i..])
    ensures Block(rule, lines[i..]) == Shrunk(rule, lines[i..next])
  {
    assert lines[i..next] == lines[i..][..next - i];
  }

  lemma LineAlone(rule: Rule, lines: seq<string>, i: nat)
    requires i < |lines| && !Begins(rule, lines[i])
    ensures BlockLength(rule, lines[i..]) == 1 && Render(rule, Block(rule, lines[i..])) == [lines[i]]
  {
  }

  /** The loop of each of the three rules. */
  method FoldBlocks(rule: Rule, lines: seq<string>) returns (out: seq<string>)
    ensures out == Folded(rule, lines)
  {
    out := [];
    var i := 0;
    ghost var all := Folded(rule, lines);
    FoldedEnds(rule, lines);
    while i < |lines|
      invariant 0 <= i <= |lines|
      invariant out + FoldedRest(rule, lines, i) == all
    {
      var piece, next := FoldBlock(rule, lines, i);
      FoldedFrom(rule, out, lines, i, next, piece);
      out := out + piece;
      i := next;
    }
  }

  method FoldRepeatedLines(lines: seq<string>) returns (out: seq<string>)
    ensures out == Folded(Repeated, lines)
  {
    if |lines| < RLE_MIN_RUN {
      FewLinesStay(Repeated, lines);
      return lines;
    }
    out := FoldBlocks(Repeated, lines);
  }

  method FoldStackFrames(lines: seq<string>) returns (out: seq<string>)
    ensures out == Folded(Stack, lines)
  {
    out := FoldBlocks(Stack, lines);
  }

  method FoldTableRows(lines: seq<string>) returns (out: seq<string>)
    ensures out == Folded(Table, lines)
  {
    if |lines| < TABLE_KEEP_ROWS + 3 {
      FewLinesStay(Table, lines);
      return lines;
    }
    out := FoldBlocks(Table, lines);
  }

  /** The early exits change nothing: too few lines leave no run long enough to fold. */
  lemma {:induction false} FewLinesStay(rule: Rule, lines: seq<string>)
    requires |lines| < LeastFolded(rule)
    ensures Folded(rule, lines) == lines
    decreases |lines|
  {
    if lines != [] {
      var n := BlockLength(rule, lines);
      FewLinesStay(rule, lines[n..]);
      ShortBlockStays(rule, lines);
    }
  }

  /** The length of the shortest run a rule folds. */
  function LeastFolded(rule: Rule): nat {
    match rule
    case Repeated => RLE_MIN_RUN
    case Stack => STACK_KEEP_LEADING + 3
    case Table => TABLE_KEEP_ROWS + 3
  }

  lemma ShortBlockStays(rule: Rule, lines: seq<string>)
    requires 0 < |lines| < LeastFolded(rule)
    ensures var n := BlockLength(rule, lines);
            Folded(rule, lines[n..]) == lines[n..] ==> Folded(rule, lines) == lines
  {
    FoldedStep(rule, lines);
    ShortBlockIsKept(rule, lines);
    Halves(lines, BlockLength(rule, lines));
  }

  lemma ShortBlockIsKept(rule: Rule, lines: seq<string>)
    requires 0 < |lines| < LeastFolded(rule)
    ensures Render(rule, Block(rule, lines)) == lines[..BlockLength(rule, lines)]
  {
    var run := lines[..BlockLength(rule, lines)];
    RenderKept(rule, run);
    if Begins(rule, lines[0]) {
      assert Shrunk(rule, run) == Kept(run);
    }
  }

  // ----- What a fold loses

  lemma {:induction false} SourceConcat(a: seq<Item>, b: seq<Item>)
    ensures Source(a + b) == Source(a) + Source(b)
  {
    if a == [] {
      assert a + b == b;
    } else {
      SourceConcat(a[1..], b);
      assert (a + b)[0] == a[0] && (a + b)[1..] == a[1..] + b;
      Assoc(Original(a[0]), Source(a[1..]), Source(b));
    }
  }

  lemma {:induction false} SourceKept(lines: seq<string>)
    ensures Source(Kept(lines)) == lines
  {
    if lines != [] {
      SourceKept(lines[1..]);
      assert Kept(lines)[1..] == Kept(lines[1..]);
    }
  }

  /** A head that is kept, a gap and a tail that is kept. */
  lemma SourceSplit(run: seq<string>, n: nat, m: nat)
    requires n <= m <= |run|
    ensures Source(Split(run, n, m)) == run
  {
    SourceKept(run[..n]);
    SourceKept(run[m..]);
    SourceOfOne(Gap(run[n..m]));
    SourceOfParts(Kept(run[..n]), [Gap(run[n..m])], Kept(run[m..]));
    Thirds(run, n, m);
  }

  lemma SourceOfParts(a: seq<Item>, b: seq<Item>, c: seq<Item>)
    ensures Source(a + b + c) == Source(a) + Source(b) + Source(c)
  {
    SourceConcat(a, b);
    SourceConcat(a + b, c);
  }

  lemma Thirds(lines: seq<string>, n: nat, m: nat)
    requires n <= m <= |lines|
    ensures lines[..n] + lines[n..m] + lines[m..] == lines
  {
  }

  lemma SourceOfOne(item: Item)
    ensures Source([item]) == Original(item)
  {
    assert [item][1..] == [];
  }

  lemma SourceShrunk(rule: Rule, run: seq<string>)
    requires run != []
    ensures Source(Shrunk(rule, run)) == run
  {
    SourceKept(run);
    if rule.Repeated? {
      SourceSplit(run, 1, |run|);
    } else if rule.Stack? && |run| > STACK_KEEP_LEADING {
      SourceSplit(run, STACK_KEEP_LEADING, |run| - 1);
    } else if rule.Table? && |run| > TABLE_KEEP_ROWS + 2 {
      SourceSplit(run, TABLE_KEEP_ROWS + 2, |run|);
    }
  }

  /** What the gaps of a fold may stand for: lines of the rule's own kind, none of them an error. */
  predicate Foldable(rule: Rule, lost: seq<string>) {
    forall i :: 0 <= i < |lost| ==>
      && !LooksLikeError(lost[i])
      && (rule.Repeated? ==> T.TrimEnd(lost[i]) == T.TrimEnd(lost[0]))
      && (rule.Stack? ==> IsStackFrame(lost[i]))
      && (rule.Table? ==> IsTableRow(lost[i]))
  }

  predicate GapsFoldable(rule: Rule, items: seq<Item>) {
    forall i :: 0 <= i < |items| && items[i].Gap? ==> Foldable(rule, items[i].lost)
  }

  lemma {:induction false} ItemsCover(rule: Rule, lines: seq<string>)
    ensures Source(Items(rule, lines)) == lines
    decreases |lines|
  {
    if lines != [] {
      var n := BlockLength(rule, lines);
      ItemsCover(rule, lines[n..]);
      SourceConcat(Block(rule, lines), Items(rule, lines[n..]));
      BlockSource(rule, lines);
      Halves(lines, n);
    }
  }

  lemma Halves(lines: seq<string>, n: nat)
    requires n <= |lines|
    ensures lines[..n] + lines[n..] == lines
  {
  }

  lemma BlockSource(rule: Rule, lines: seq<string>)
    requires lines != []
    ensures Source(Block(rule, lines)) == lines[..BlockLength(rule, lines)]
  {
    if Begins(rule, lines[0]) {
      SourceShrunk(rule, lines[..BlockLength(rule, lines)]);
    } else {
      SourceOfOne(Line(lines[0]));
    }
  }

  lemma {:induction false} ItemsFoldable(rule: Rule, lines: seq<string>)
    ensures GapsFoldable(rule, Items(rule, lines))
    decreases |lines|
  {
    if lines != [] {
      ItemsFoldable(rule, lines[BlockLength(rule, lines)..]);
      BlockIsFoldable(rule, lines);
    }
  }

  /** Every line of the input is kept or counted in a marker, and only lines of the rule's kind are lost. */
  lemma FoldLosesOnlyItsKind(rule: Rule, lines: seq<string>)
    ensures Source(Items(rule, lines)) == lines
    ensures GapsFoldable(rule, Items(rule, lines))
  {
    ItemsCover(rule, lines);
    ItemsFoldable(rule, lines);
  }

  lemma BlockIsFoldable(rule: Rule, lines: seq<string>)
    requires lines != []
    ensures GapsFoldable(rule, Block(rule, lines))
  {
    var n := BlockLength(rule, lines);
    var run := lines[..n];
    if Begins(rule, lines[0]) {
      forall i | 0 <= i < n
        ensures Joins(rule, lines[0], run[i])
      {
        if i > 0 { assert run[i] == lines[1..][i - 1]; }
      }
      RunIsUniform(rule, run);
    }
  }

  lemma RunIsUniform(rule: Rule, run: seq<string>)
    requires run != [] && Begins(rule, run[0]) && forall i :: 0 <= i < |run| ==> Joins(rule, run[0], run[i])
    ensures GapsFoldable(rule, Shrunk(rule, run))
  {
    KeptHasNoGap(rule, run);
    if rule.Repeated? {
      if |run| >= RLE_MIN_RUN && !LooksLikeError(run[0]) { PartIsFoldable(rule, run, 1, |run|); }
    } else {
      KindIsUniform(rule, run);
    }
  }

  lemma KindIsUniform(rule: Rule, run: seq<string>)
    requires run != [] && Begins(rule, run[0]) && forall i :: 0 <= i < |run| ==> Joins(rule, run[0], run[i])
    requires !rule.Repeated?
    ensures GapsFoldable(rule, Shrunk(rule, run))
  {
    KeptHasNoGap(rule, run);
    if rule.Stack? && |run| > STACK_KEEP_LEADING + 2 {
      PartIsFoldable(rule, run, STACK_KEEP_LEADING, |run| - 1);
    } else if rule.Table? && |run| > TABLE_KEEP_ROWS + 2 {
      PartIsFoldable(rule, run, TABLE_KEEP_ROWS + 2, |run|);
    }
  }

  lemma KeptHasNoGap(rule: Rule, lines: seq<string>)
    ensures GapsFoldable(rule, Kept(lines))
  {
    assert forall i :: 0 <= i < |Kept(lines)| ==> Kept(lines)[i].Line?;
  }

  lemma PartIsFoldable(rule: Rule, run: seq<string>, n: nat, m: nat)
    requires n <= m <= |run| && run != [] && Begins(rule, run[0])
    requires forall i :: 0 <= i < |run| ==> Joins(rule, run[0], run[i])
    requires rule.Repeated? ==> !LooksLikeError(run[0])
    ensures GapsFoldable(rule, Split(run, n, m))
  {
    var lost := run[n..m];
    assert forall i :: 0 <= i < |lost| ==> Joins(rule, run[0], lost[i]);
    forall i | 0 <= i < |lost|
      ensures !LooksLikeError(lost[i])
    {
      MemberIsNoError(rule, run[0], lost[i]);
    }
    assert Foldable(rule, lost);
  }

  lemma MemberIsNoError(rule: Rule, first: string, line: string)
    requires Joins(rule, first, line) && (rule.Repeated? ==> !LooksLikeError(first))
    ensures !LooksLikeError(line)
  {
    ErrorIgnoresTrailingSpace(line);
    ErrorIgnoresTrailingSpace(first);
    ErrorsAreNotFolded(line);
  }

  lemma {:induction false} TrimsCommute(s: string)
    ensures T.TrimEnd(T.TrimStart(s)) == T.TrimStart(T.TrimEnd(s))
  {
    if s != "" && T.IsSpace(s[0]) {
      TrimsCommute(s[1..]);
      TrimEndCons(s);
    } else if s != "" {
      TrimEndKeepsFirst(s);
    }
  }

  lemma {:induction false} TrimEndKeepsFirst(s: string)
    requires s != "" && !T.IsSpace(s[0])
    ensures T.TrimEnd(s) != "" && T.TrimEnd(s)[0] == s[0]
  {
    if T.IsSpace(s[|s| - 1]) {
      TrimEndKeepsFirst(s[..|s| - 1]);
    }
  }

  lemma {:induction false} TrimEndCons(s: string)
    requires s != "" && T.IsSpace(s[0])
    ensures T.TrimEnd(s) == if T.TrimEnd(s[1..]) == "" then "" else [s[0]] + T.TrimEnd(s[1..])
  {
    if |s| == 1 {
      assert s[..0] == "" && s[1..] == "";
    } else if T.IsSpace(s[|s| - 1]) {
      TrimEndCons(s[..|s| - 1]);
      assert s[..|s| - 1][1..] == s[1..][..|s[1..]| - 1];
    }
  }

  lemma {:induction false} TrimEndTwice(s: string)
    ensures T.TrimEnd(T.TrimEnd(s)) == T.TrimEnd(s)
  {
    if s != "" && T.IsSpace(s[|s| - 1]) {
      TrimEndTwice(s[..|s| - 1]);
    }
  }

  lemma ErrorIgnoresTrailingSpace(line: string)
    ensures LooksLikeError(line) <==> LooksLikeError(T.TrimEnd(line))
  {
    TrimsCommute(line);
    TrimsCommute(T.TrimEnd(line));
    TrimEndTwice(line);
  }

  /** How a line that looks like an error can begin. */
  lemma ErrorStart(line: string)
    requires LooksLikeError(line)
    ensures var t := T.TrimStart(line);
            |t| >= 2 && (T.LowerChar(t[0]) in "ept" || (T.LowerChar(t[0]) == 'f' && T.LowerChar(t[1]) == 'a'))
    ensures T.Trim(line) != "" && T.Trim(line)[0] == T.TrimStart(line)[0]
  {
    var s := T.Trim(line);
    var t := T.LowerAscii(s);
    var k :| 0 <= k < |ERROR_PREFIXES| && T.StartsWith(t, ERROR_PREFIXES[k]);
    var p := ERROR_PREFIXES[k];
    PrefixStart(k);
    assert p[0] == t[0] && p[1] == t[1];
    TrimEndIsPrefix(T.TrimStart(line));
  }

  lemma PrefixStart(k: nat)
    requires k < |ERROR_PREFIXES|
    ensures var p := ERROR_PREFIXES[k];
            |p| >= 2 && (p[0] in "ept" || (p[0] == 'f' && p[1] == 'a'))
  {
  }

  lemma {:induction false} TrimEndIsPrefix(s: string)
    ensures T.TrimEnd(s) <= s
  {
    if s != "" && T.IsSpace(s[|s| - 1]) {
      TrimEndIsPrefix(s[..|s| - 1]);
    }
  }

  lemma ErrorsAreNotFolded(line: string)
    ensures LooksLikeError(line) ==> !IsStackFrame(line) && !IsTableRow(line)
  {
    if LooksLikeError(line) {
      ErrorStart(line);
      var t := T.TrimStart(line);
      assert |t| >= 6 ==> t[..6][0] == t[0] && t[..6][1] == t[1];
      assert |t| >= 3 ==> t[..3][0] == t[0];
    }
  }

  lemma MarkerStart(rule: Rule, n: nat)
    ensures T.TrimStart(Marker(rule, n)) == Marker(rule, n)
    ensures Marker(rule, n)[0] == if rule.Table? then '|' else '\U{2026}'
  {
  }

  lemma MarkersAreNotErrors(rule: Rule, n: nat)
    ensures !LooksLikeError(Marker(rule, n))
  {
    MarkerStart(rule, n);
    if LooksLikeError(Marker(rule, n)) {
      ErrorStart(Marker(rule, n));
      assert false;
    }
  }

  // ----- Error lines survive

  function ErrorIn(line: string): seq<string> { if LooksLikeError(line) then [line] else [] }

  function Errors(lines: seq<string>): seq<string> { FlatMap(lines, ErrorIn) }

  lemma ErrorsOfOne(line: string)
    ensures Errors([line]) == ErrorIn(line)
  {
    assert [line][1..] == [] && FlatMap([], ErrorIn) == [];
    assert Errors([line]) == ErrorIn(line) + FlatMap([line][1..], ErrorIn);
  }

  lemma ErrorsConcat(a: seq<string>, b: seq<string>)
    ensures Errors(a + b) == Errors(a) + Errors(b)
  {
    FlatMapConcat(a, b, ErrorIn);
  }

  lemma {:induction false} NoErrors(lines: seq<string>)
    requires forall i :: 0 <= i < |lines| ==> !LooksLikeError(lines[i])
    ensures Errors(lines) == []
  {
    if lines != [] {
      NoErrors(lines[1..]);
    }
  }

  lemma {:induction false} RenderKeepsErrors(rule: Rule, items: seq<Item>)
    requires GapsFoldable(rule, items)
    ensures Errors(Render(rule, items)) == Errors(Source(items))
  {
    if items != [] {
      RenderKeepsErrors(rule, items[1..]);
      RenderFirst(rule, items);
      ErrorsConcat([Shown(rule, items[0])], Render(rule, items[1..]));
      ErrorsOfOne(Shown(rule, items[0]));
      ErrorsConcat(Original(items[0]), Source(items[1..]));
      ItemKeepsErrors(rule, items[0]);
    }
  }

  lemma RenderFirst(rule: Rule, items: seq<Item>)
    requires items != []
    ensures Render(rule, items) == [Shown(rule, items[0])] + Render(rule, items[1..])
  {
  }

  lemma ItemKeepsErrors(rule: Rule, item: Item)
    requires item.Gap? ==> Foldable(rule, item.lost)
    ensures Errors(Original(item)) == ErrorIn(Shown(rule, item))
  {
    if item.Line? {
      ErrorsOfOne(item.text);
    } else {
      MarkersAreNotErrors(rule, |item.lost|);
      NoErrors(item.lost);
    }
  }

  /** No fold loses, adds or reorders a line that looks like an error. */
  lemma FoldKeepsErrors(rule: Rule, lines: seq<string>)
    ensures Errors(Folded(rule, lines)) == Errors(lines)
  {
    FoldLosesOnlyItsKind(rule, lines);
    RenderKeepsErrors(rule, Items(rule, lines));
  }

  /** Nor do the three folds in the order the preprocessor applies them. */
  lemma ThreeFoldsKeepErrors(lines: seq<string>)
    ensures Errors(Folded(Table, Folded(Stack, Folded(Repeated, lines)))) == Errors(lines)
  {
    FoldKeepsErrors(Repeated, lines);
    FoldKeepsErrors(Stack, Folded(Repeated, lines));
    FoldKeepsErrors(Table, Folded(Stack, Folded(Repeated, lines)));
  }

  // ----- Repeated lines can be unfolded

  function Value(digits: string): nat
    requires AllDigits(digits)
  {
    if digits == "" then 0 else 10 * Value(digits[..|digits| - 1]) + (digits[|digits| - 1] - '0') as nat
  }

  lemma {:induction false} DecimalRoundTrip(n: nat)
    ensures T.Decimal(n) != "" && AllDigits(T.Decimal(n)) && Value(T.Decimal(n)) == n
  {
    if n >= 10 {
      DecimalRoundTrip(n / 10);
      assert T.Decimal(n)[..|T.Decimal(n)| - 1] == T.Decimal(n / 10);
    } else {
      assert T.Decimal(n)[..0] == "";
    }
  }

  /** The count a repetition marker carries; None for any other line. */
  function MarkerCount(line: string): Option<nat> {
    var p := |REPEATED_PREFIX|;
    if T.StartsWith(line, REPEATED_PREFIX) && |line| > p && line[|line| - 1] == '>' && AllDigits(line[p..|line| - 1])
    then Some(Value(line[p..|line| - 1]))
    else None
  }

  lemma MarkerIsRead(n: nat)
    ensures MarkerCount(Marker(Repeated, n)) == Some(n)
  {
    DecimalRoundTrip(n);
    var line, p := Marker(Repeated, n), |REPEATED_PREFIX|;
    assert line[..p] == REPEATED_PREFIX && line[p..|line| - 1] == T.Decimal(n);
  }

  function Copies(line: string, n: nat): seq<string> { seq(n, _ => line) }

  function Unfolded(lines: seq<string>): seq<string>
    decreases |lines|
  {
    if lines == [] then []
    else if |lines| > 1 && MarkerCount(lines[1]).Some? then
      Copies(lines[0], MarkerCount(lines[1]).value + 1) + Unfolded(lines[2..])
    else [lines[0]] + Unfolded(lines[1..])
  }

  predicate NoMarkers(lines: seq<string>) {
    forall i :: 0 <= i < |lines| ==> MarkerCount(lines[i]).None?
  }

  /** The lines up to trailing whitespace. */
  function Trimmed(lines: seq<string>): seq<string> {
    seq(|lines|, i requires 0 <= i < |lines| => T.TrimEnd(lines[i]))
  }

  lemma PlainLineStays(line: string, rest: seq<string>)
    requires rest != [] ==> MarkerCount(rest[0]).None?
    ensures Unfolded([line] + rest) == [line] + Unfolded(rest)
  {
    assert ([line] + rest)[1..] == rest;
  }

  lemma MarkedLineRepeats(line: string, n: nat, rest: seq<string>)
    ensures Unfolded([line, Marker(Repeated, n)] + rest) == Copies(line, n + 1) + Unfolded(rest)
  {
    MarkerIsRead(n);
    assert ([line, Marker(Repeated, n)] + rest)[2..] == rest;
  }

  lemma {:induction false} PlainStays(lines: seq<string>, rest: seq<string>)
    requires NoMarkers(lines) && (rest != [] ==> MarkerCount(rest[0]).None?)
    ensures Unfolded(lines + rest) == lines + Unfolded(rest)
  {
    if lines == [] {
      assert lines + rest == rest;
    } else {
      PlainStays(lines[1..], rest);
      PlainLineStays(lines[0], lines[1..] + rest);
      assert lines + rest == [lines[0]] + (lines[1..] + rest);
    }
  }

  lemma FirstIsKept(rule: Rule, lines: seq<string>)
    requires lines != []
    ensures Folded(rule, lines) != [] && Folded(rule, lines)[0] == lines[0]
  {
    FoldedStep(rule, lines);
    var run := lines[..BlockLength(rule, lines)];
    assert Block(rule, lines)[0] == Line(lines[0]);
  }

  /** One block unfolds to its own lines, up to trailing whitespace. */
  lemma BlockUnfolds(lines: seq<string>, rest: seq<string>)
    requires lines != [] && NoMarkers(lines) && (rest != [] ==> MarkerCount(rest[0]).None?)
    ensures var n := BlockLength(Repeated, lines);
            Trimmed(Unfolded(Render(Repeated, Block(Repeated, lines)) + rest))
                == Trimmed(lines[..n]) + Trimmed(Unfolded(rest))
  {
    var n := BlockLength(Repeated, lines);
    if n >= RLE_MIN_RUN && !LooksLikeError(lines[..n][0]) {
      FoldedBlockUnfolds(lines, rest);
    } else {
      RenderKept(Repeated, lines[..n]);
      PlainStays(lines[..n], rest);
      TrimmedConcat(lines[..n], Unfolded(rest));
    }
  }

  lemma FoldedBlockUnfolds(lines: seq<string>, rest: seq<string>)
    requires lines != [] && BlockLength(Repeated, lines) >= RLE_MIN_RUN
             && !LooksLikeError(lines[..BlockLength(Repeated, lines)][0])
    ensures var n := BlockLength(Repeated, lines);
            Trimmed(Unfolded(Render(Repeated, Block(Repeated, lines)) + rest))
                == Trimmed(lines[..n]) + Trimmed(Unfolded(rest))
  {
    var n := BlockLength(Repeated, lines);
    RenderSplit(Repeated, lines[..n], 1, n);
    var marker := Marker(Repeated, n - 1);
    assert lines[..n][..1] + [marker] + lines[..n][n..] == [lines[0], marker];
    MarkedLineRepeats(lines[0], n - 1, rest);
    TrimmedConcat(Copies(lines[0], n), Unfolded(rest));
    CopiesMatch(lines);
  }

  lemma CopiesMatch(lines: seq<string>)
    requires lines != []
    ensures var n := BlockLength(Repeated, lines);
            Trimmed(Copies(lines[0], n)) == Trimmed(lines[..n])
  {
    var n := BlockLength(Repeated, lines);
    assert forall i :: 1 <= i < n ==> lines[..n][i] == lines[1..][i - 1];
  }

  /**
   * When no line of a text looks like a marker, unfolding its folded form returns the text, up to trailing
   * whitespace.
   */
  lemma {:induction false} RepeatsUnfold(lines: seq<string>)
    requires NoMarkers(lines)
    ensures Trimmed(Unfolded(Folded(Repeated, lines))) == Trimmed(lines)
    decreases |lines|
  {
    if lines != [] {
      var n := BlockLength(Repeated, lines);
      RepeatsUnfold(lines[n..]);
      TailStartsPlain(lines[n..]);
      FoldedStep(Repeated, lines);
      BlockUnfolds(lines, Folded(Repeated, lines[n..]));
      TrimmedSplit(lines, n);
    }
  }

  lemma TrimmedSplit(lines: seq<string>, n: nat)
    requires n <= |lines|
    ensures Trimmed(lines[..n]) + Trimmed(lines[n..]) == Trimmed(lines)
  {
    assert lines == lines[..n] + lines[n..];
  }

  lemma TailStartsPlain(lines: seq<string>)
    requires NoMarkers(lines)
    ensures Folded(Repeated, lines) != [] ==> MarkerCount(Folded(Repeated, lines)[0]).None?
  {
    if lines != [] {
      FirstIsKept(Repeated, lines);
    }
  }

  lemma TrimmedConcat(a: seq<string>, b: seq<string>)
    ensures Trimmed(a + b) == Trimmed(a) + Trimmed(b)
  {
  }

  // ----- Folding stack frames twice

  lemma MarkerIsNoFrame(n: nat)
    ensures !IsStackFrame(Marker(Stack, n))
  {
    MarkerStart(Stack, n);
    var t := Marker(Stack, n);
    assert |t| >= 6 ==> t[..6][0] == t[0];
    assert |t| >= 3 ==> t[..3][0] == t[0];
  }

  /** A run of frames short enough stays as it is when no frame follows it. */
  lemma ShortRunStays(run: seq<string>, rest: seq<string>)
    requires 0 < |run| <= STACK_KEEP_LEADING + 2 && (forall i :: 0 <= i < |run| ==> IsStackFrame(run[i]))
    requires rest != [] ==> !IsStackFrame(rest[0])
    ensures Folded(Stack, run + rest) == run + Folded(Stack, rest)
  {
    var lines := run + rest;
    assert forall i :: 0 <= i < |run| - 1 ==> lines[1..][i] == run[i + 1];
    RunLengthIs(Stack, lines[0], lines[1..], |run| - 1);
    FoldedStep(Stack, lines);
    assert lines[..|run|] == run && lines[|run|..] == rest;
    RenderKept(Stack, run);
  }

  lemma OtherLineStays(line: string, rest: seq<string>)
    requires !IsStackFrame(line)
    ensures Folded(Stack, [line] + rest) == [line] + Folded(Stack, rest)
  {
    FoldedStep(Stack, [line] + rest);
    assert ([line] + rest)[1..] == rest;
  }

  lemma FoldedRunStays(run: seq<string>, rest: seq<string>)
    requires run != [] && (forall i :: 0 <= i < |run| ==> IsStackFrame(run[i]))
    requires rest != [] ==> !IsStackFrame(rest[0])
    ensures Folded(Stack, Render(Stack, Shrunk(Stack, run)) + rest)
            == Render(Stack, Shrunk(Stack, run)) + Folded(Stack, rest)
  {
    if |run| <= STACK_KEEP_LEADING + 2 {
      RenderKept(Stack, run);
      ShortRunStays(run, rest);
    } else {
      var n, m := STACK_KEEP_LEADING, |run| - 1;
      RenderSplit(Stack, run, n, m);
      MarkerIsNoFrame(m - n);
      GapStays(run[..n], Marker(Stack, m - n), run[m..], rest);
    }
  }

  lemma GapStays(head: seq<string>, marker: string, last: seq<string>, rest: seq<string>)
    requires 0 < |head| <= STACK_KEEP_LEADING && 0 < |last| <= STACK_KEEP_LEADING
    requires (forall i :: 0 <= i < |head| ==> IsStackFrame(head[i]))
             && (forall i :: 0 <= i < |last| ==> IsStackFrame(last[i]))
    requires !IsStackFrame(marker) && (rest != [] ==> !IsStackFrame(rest[0]))
    ensures var out := head + [marker] + last;
            Folded(Stack, out + rest) == out + Folded(Stack, rest)
  {
    var after := [marker] + (last + rest);
    LastStays(marker, last, rest);
    ShortRunStays(head, after);
    Regroup(head, [marker], last, rest);
    Regroup(head, [marker], last, Folded(Stack, rest));
  }

  lemma LastStays(marker: string, last: seq<string>, rest: seq<string>)
    requires 0 < |last| <= STACK_KEEP_LEADING && (forall i :: 0 <= i < |last| ==> IsStackFrame(last[i]))
    requires !IsStackFrame(marker) && (rest != [] ==> !IsStackFrame(rest[0]))
    ensures Folded(Stack, [marker] + (last + rest)) == [marker] + (last + Folded(Stack, rest))
  {
    ShortRunStays(last, rest);
    OtherLineStays(marker, last + rest);
  }

  /** Folding stack frames is idempotent, for every text. */
  lemma {:induction false} StackFoldIsIdempotent(lines: seq<string>)
    ensures Folded(Stack, Folded(Stack, lines)) == Folded(Stack, lines)
    decreases |lines|
  {
    if lines != [] {
      var n := BlockLength(Stack, lines);
      StackFoldIsIdempotent(lines[n..]);
      FoldedStep(Stack, lines);
      if IsStackFrame(lines[0]) {
        RunEnds(lines);
        FoldedRunStays(lines[..n], Folded(Stack, lines[n..]));
      } else {
        OtherLineStays(lines[0], Folded(Stack, lines[1..]));
      }
    }
  }

  lemma RunEnds(lines: seq<string>)
    requires lines != [] && IsStackFrame(lines[0])
    ensures var n := BlockLength(Stack, lines);
            && (forall i :: 0 <= i < n ==> IsStackFrame(lines[..n][i]))
            && (Folded(Stack, lines[n..]) != [] ==> !IsStackFrame(Folded(Stack, lines[n..])[0]))
  {
    var n := BlockLength(Stack, lines);
    assert forall i :: 1 <= i < n ==> lines[..n][i] == lines[1..][i - 1];
    if lines[n..] != [] {
      FirstIsKept(Stack, lines[n..]);
      assert lines[n] == lines[1..][n - 1];
    }
  }
}
