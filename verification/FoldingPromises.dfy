/**
 * What the preprocessor's documentation promises of each fold (piscis-kernel/src/agent/rule_preprocess.rs),
 * and exactly when the folds keep it: idempotence, and survival of the first and the last lines.
 */
module FoldingPromises {
  import opened Common
  import opened Folding
  import T = Text

  // ----- Folding a maximal run

  /** A run that nothing continues is folded by itself. */
  lemma RunFolds(rule: Rule, run: seq<string>, rest: seq<string>)
    requires run != [] && Begins(rule, run[0]) && (forall i :: 0 <= i < |run| ==> Joins(rule, run[0], run[i]))
    requires rest != [] ==> !Joins(rule, run[0], rest[0])
    ensures Folded(rule, run + rest) == Render(rule, Shrunk(rule, run)) + Folded(rule, rest)
  {
    var lines := run + rest;
    assert forall i :: 0 <= i < |run| - 1 ==> lines[1..][i] == run[i + 1];
    RunLengthIs(rule, lines[0], lines[1..], |run| - 1);
    FoldedStep(rule, lines);
    assert lines[..|run|] == run && lines[|run|..] == rest;
  }

  lemma OtherFolds(rule: Rule, line: string, rest: seq<string>)
    requires !Begins(rule, line)
    ensures Folded(rule, [line] + rest) == [line] + Folded(rule, rest)
  {
    FoldedStep(rule, [line] + rest);
    assert ([line] + rest)[1..] == rest;
  }

  /** The first block of a text is a maximal run of its first line, or that line alone. */
  lemma BlockIsMaximal(rule: Rule, lines: seq<string>)
    requires lines != []
    ensures var n := BlockLength(rule, lines);
            if Begins(rule, lines[0]) then
              && (forall i :: 0 <= i < n ==> Joins(rule, lines[0], lines[i]))
              && (n < |lines| ==> !Joins(rule, lines[0], lines[n]))
            else n == 1
  {
    var n := BlockLength(rule, lines);
    if Begins(rule, lines[0]) {
      assert forall i :: 1 <= i < n ==> lines[i] == lines[1..][i - 1];
      assert n < |lines| ==> lines[n] == lines[1..][n - 1];
    }
  }

  // ----- Markers

  lemma MarkerIsInjective(rule: Rule, a: nat, b: nat)
    requires Marker(rule, a) == Marker(rule, b)
    ensures a == b
  {
    DecimalRoundTrip(a);
    DecimalRoundTrip(b);
    var x, y := T.Decimal(a), T.Decimal(b);
    var p := Prefix(rule);
    assert |x| == |y|;
    assert Marker(rule, a)[|p|..|p| + |x|] == x;
    assert Marker(rule, b)[|p|..|p| + |y|] == y;
  }

  function Prefix(rule: Rule): string {
    match rule
    case Repeated => REPEATED_PREFIX
    case Stack => "\U{2026} <"
    case Table => "| \U{2026} <"
  }

  lemma {:induction false} BarAtEnd(s: string)
    requires s != "" && s[|s| - 1] == '|'
    ensures Bars(s) >= 1
  {
    if |s| > 1 {
      BarAtEnd(s[1..]);
    }
  }

  /** The marker of a folded table is itself a table row. */
  lemma MarkerIsRow(n: nat)
    ensures IsTableRow(Marker(Table, n))
  {
    var m := Marker(Table, n);
    MarkerStart(Table, n);
    assert m[|m| - 1] == '|' && T.TrimEnd(m) == m;
    BarAtEnd(m[1..]);
  }

  // ----- Folding table rows twice

  const TOO_MANY_ROWS: nat := TABLE_KEEP_ROWS + 4

  /** `n` consecutive table rows begin at line `i`. */
  predicate RowsAt(lines: seq<string>, i: nat, n: nat) {
    i + n <= |lines| && forall k :: i <= k < i + n ==> IsTableRow(lines[k])
  }

  /** Every run of table rows has at most `most` lines. */
  predicate RunsWithin(lines: seq<string>, most: nat)
    decreases |lines|
  {
    lines != [] ==>
      && (IsTableRow(lines[0]) ==> BlockLength(Table, lines) <= most)
      && RunsWithin(lines[BlockLength(Table, lines)..], most)
  }

  lemma RowsBehind(lines: seq<string>, n: nat, i: nat, many: nat)
    requires n <= |lines|
    ensures RowsAt(lines[n..], i, many) <==> RowsAt(lines, n + i, many)
  {
    var rest := lines[n..];
    if RowsAt(rest, i, many) {
      assert forall k :: n + i <= k < n + i + many ==> lines[k] == rest[k - n];
    }
    if RowsAt(lines, n + i, many) {
      assert forall k :: i <= k < i + many ==> rest[k] == lines[n + k];
    }
  }

  /** Too many rows lie in the first run, or behind it. */
  lemma RowsInFrontOrBehind(lines: seq<string>, most: nat, i: nat)
    requires lines != [] && RowsAt(lines, i, most + 1)
    ensures var n := BlockLength(Table, lines);
            (IsTableRow(lines[0]) && n > most) || (i >= n && RowsAt(lines[n..], i - n, most + 1))
  {
    var n := BlockLength(Table, lines);
    BlockIsMaximal(Table, lines);
    if i < n {
      assert IsTableRow(lines[i]);
    } else {
      RowsBehind(lines, n, i - n, most + 1);
    }
  }

  lemma {:induction false} RunsWithinIff(lines: seq<string>, most: nat, tooMany: nat)
    requires tooMany == most + 1
    ensures RunsWithin(lines, most) <==> forall i: nat :: !RowsAt(lines, i, tooMany)
    decreases |lines|
  {
    if lines != [] {
      var n := BlockLength(Table, lines);
      BlockIsMaximal(Table, lines);
      RunsWithinIff(lines[n..], most, tooMany);
      assert IsTableRow(lines[0]) && n > most ==> RowsAt(lines, 0, tooMany);
      forall i: nat
        ensures RowsAt(lines[n..], i, tooMany) ==> RowsAt(lines, n + i, tooMany)
      {
        RowsBehind(lines, n, i, tooMany);
      }
      forall i: nat | RowsAt(lines, i, tooMany)
        ensures (IsTableRow(lines[0]) && n > most) || (i >= n && RowsAt(lines[n..], i - n, tooMany))
      {
        RowsInFrontOrBehind(lines, most, i);
      }
    }
  }

  lemma ShrunkRows(run: seq<string>)
    requires run != [] && forall i :: 0 <= i < |run| ==> IsTableRow(run[i])
    ensures var out := Render(Table, Shrunk(Table, run));
            && out != [] && |out| == Min(|run|, TABLE_KEEP_ROWS + 3)
            && (forall i :: 0 <= i < |out| ==> IsTableRow(out[i]))
            && (|run| <= TABLE_KEEP_ROWS + 2 ==> out == run)
            && (|run| > TABLE_KEEP_ROWS + 2 ==>
                  out == run[..TABLE_KEEP_ROWS + 2] + [Marker(Table, |run| - (TABLE_KEEP_ROWS + 2))])
  {
    RenderKept(Table, run);
    var n := TABLE_KEEP_ROWS + 2;
    if |run| > n {
      RenderSplit(Table, run, n, |run|);
      MarkerIsRow(|run| - n);
    }
  }

  /** A folded run of rows folds to itself unless its marker counts more than one row. */
  lemma ShrunkTwice(run: seq<string>)
    requires run != [] && forall i :: 0 <= i < |run| ==> IsTableRow(run[i])
    ensures var out := Render(Table, Shrunk(Table, run));
            out != [] && |Render(Table, Shrunk(Table, out))| == |out| &&
            (Render(Table, Shrunk(Table, out)) == out <==> |run| <= TABLE_KEEP_ROWS + 3)
  {
    var n := TABLE_KEEP_ROWS + 2;
    ShrunkRows(run);
    var out := Render(Table, Shrunk(Table, run));
    ShrunkRows(out);
    if |run| > n {
      var again := Render(Table, Shrunk(Table, out));
      assert out[..n] == run[..n];
      assert again[n] == Marker(Table, 1) && out[n] == Marker(Table, |run| - n);
      if |run| - n > 1 && again == out {
        MarkerIsInjective(Table, 1, |run| - n);
      }
    }
  }

  lemma {:induction false} TableFoldTwice(lines: seq<string>)
    ensures Folded(Table, Folded(Table, lines)) == Folded(Table, lines) <==> RunsWithin(lines, TABLE_KEEP_ROWS + 3)
    ensures |Folded(Table, Folded(Table, lines))| == |Folded(Table, lines)|
    decreases |lines|
  {
    if lines != [] {
      var n := BlockLength(Table, lines);
      var rest := Folded(Table, lines[n..]);
      TableFoldTwice(lines[n..]);
      FoldedStep(Table, lines);
      BlockIsMaximal(Table, lines);
      if n < |lines| {
        FirstIsKept(Table, lines[n..]);
      }
      if IsTableRow(lines[0]) {
        RunFoldsTwice(lines[..n], rest);
      } else {
        OtherFolds(Table, lines[0], rest);
        PartsEqual([lines[0]], [lines[0]], Folded(Table, rest), rest);
      }
    }
  }

  /** Folding a folded run again, with whatever no row begins behind it. */
  lemma RunFoldsTwice(run: seq<string>, rest: seq<string>)
    requires run != [] && (forall i :: 0 <= i < |run| ==> IsTableRow(run[i]))
    requires rest != [] ==> !IsTableRow(rest[0])
    requires |Folded(Table, rest)| == |rest|
    ensures var out := Render(Table, Shrunk(Table, run));
            && |Folded(Table, out + rest)| == |out + rest|
            && (Folded(Table, out + rest) == out + rest <==>
                |run| <= TABLE_KEEP_ROWS + 3 && Folded(Table, rest) == rest)
  {
    ShrunkRows(run);
    ShrunkTwice(run);
    var out := Render(Table, Shrunk(Table, run));
    RunFolds(Table, out, rest);
    PartsEqual(Render(Table, Shrunk(Table, out)), out, Folded(Table, rest), rest);
  }

  lemma PartsEqual(a: seq<string>, b: seq<string>, c: seq<string>, d: seq<string>)
    requires |a| == |b|
    ensures a + c == b + d <==> a == b && c == d
  {
    if a + c == b + d {
      assert (a + c)[..|a|] == a && (b + d)[..|b|] == b && (a + c)[|a|..] == c && (b + d)[|b|..] == d;
    }
  }

  /**
   * Folding table rows twice is folding once if and only if no more than eight table rows follow one
   * another: beyond that the second fold counts the first one's marker as a row.
   */
  lemma TableFoldIsIdempotentIff(lines: seq<string>)
    ensures Folded(Table, Folded(Table, lines)) == Folded(Table, lines) <==>
            forall i: nat :: !RowsAt(lines, i, TOO_MANY_ROWS)
  {
    TableFoldTwice(lines);
    RunsWithinIff(lines, TABLE_KEEP_ROWS + 3, TOO_MANY_ROWS);
  }

  /** Nine table rows: the second fold turns "2 rows folded" into "1 rows folded". */
  lemma NineRowsFoldTwice(row: string)
    requires IsTableRow(row)
    ensures var lines := Copies(row, 9);
            && Folded(Table, lines) == Copies(row, 7) + [Marker(Table, 2)]
            && Folded(Table, Folded(Table, lines)) == Copies(row, 7) + [Marker(Table, 1)]
            && Folded(Table, Folded(Table, lines)) != Folded(Table, lines)
  {
    var lines := Copies(row, 9);
    FoldsRows(lines);
    assert lines[..7] == Copies(row, 7);
    FoldsEightRows(row);
    TableFoldIsIdempotentIff(lines);
    assert RowsAt(lines, 0, TOO_MANY_ROWS);
  }

  lemma FoldsEightRows(row: string)
    requires IsTableRow(row)
    ensures Folded(Table, Copies(row, 7) + [Marker(Table, 2)]) == Copies(row, 7) + [Marker(Table, 1)]
  {
    MarkerIsRow(2);
    FoldsLast(Copies(row, 7), Marker(Table, 2));
  }

  lemma FoldsLast(rows: seq<string>, last: string)
    requires |rows| == TABLE_KEEP_ROWS + 2 && IsTableRow(last) && forall i :: 0 <= i < |rows| ==> IsTableRow(rows[i])
    ensures Folded(Table, rows + [last]) == rows + [Marker(Table, 1)]
  {
    FoldsRows(rows + [last]);
    assert (rows + [last])[..7] == rows;
  }

  lemma FoldsRows(lines: seq<string>)
    requires |lines| > TABLE_KEEP_ROWS + 2 && forall i :: 0 <= i < |lines| ==> IsTableRow(lines[i])
    ensures Folded(Table, lines) == lines[..7] + [Marker(Table, |lines| - 7)]
  {
    ShrunkRows(lines);
    RunFolds(Table, lines, []);
    assert lines + [] == lines;
  }

  // ----- Folding repeated lines twice

  /** Three lines from `k` on are equal up to trailing whitespace and no error: a fold would shorten them. */
  predicate TripleAt(lines: seq<string>, k: nat) {
    && k + 2 < |lines| && !LooksLikeError(lines[k])
    && T.TrimEnd(lines[k + 1]) == T.TrimEnd(lines[k]) && T.TrimEnd(lines[k + 2]) == T.TrimEnd(lines[k])
  }

  predicate HasTriple(lines: seq<string>) {
    lines != [] && (TripleAt(lines, 0) || HasTriple(lines[1..]))
  }

  predicate FoldsRepeat(line: string, n: nat) { n >= RLE_MIN_RUN && !LooksLikeError(line) }

  /** A text is left alone exactly when it has no triple. */
  lemma {:induction false} RepeatedFixedIff(lines: seq<string>)
    ensures |Folded(Repeated, lines)| <= |lines|
    ensures Folded(Repeated, lines) == lines <==> !HasTriple(lines)
    ensures HasTriple(lines) ==> |Folded(Repeated, lines)| < |lines|
    decreases |lines|
  {
    if lines != [] {
      var n := BlockLength(Repeated, lines);
      var run, rest := lines[..n], lines[n..];
      BlockIsMaximal(Repeated, lines);
      RepeatedFixedIff(rest);
      RepeatedStep(lines);
      TripleInBlock(lines);
      Halves(lines, n);
      if !FoldsRepeat(lines[0], n) {
        PartsEqual(run, run, Folded(Repeated, rest), rest);
      }
    }
  }

  /** What one run of equal lines becomes. */
  lemma RepeatedStep(lines: seq<string>)
    requires lines != []
    ensures var n := BlockLength(Repeated, lines);
            Folded(Repeated, lines) ==
            (if FoldsRepeat(lines[0], n) then [lines[0], Marker(Repeated, n - 1)] else lines[..n]) +
            Folded(Repeated, lines[n..])
  {
    FoldedStep(Repeated, lines);
    ShrunkRepeat(lines[..BlockLength(Repeated, lines)]);
  }

  /** A text has a triple if its first run is long enough to fold or the rest has one. */
  lemma TripleInBlock(lines: seq<string>)
    requires lines != []
    ensures var n := BlockLength(Repeated, lines);
            HasTriple(lines) <==> FoldsRepeat(lines[0], n) || HasTriple(lines[n..])
  {
    var n := BlockLength(Repeated, lines);
    BlockIsMaximal(Repeated, lines);
    TripleBehind(lines, n);
  }

  lemma {:induction false} TripleBehind(lines: seq<string>, n: nat)
    requires 1 <= n <= |lines|
    requires forall i :: 0 <= i < n ==> Joins(Repeated, lines[0], lines[i])
    requires n < |lines| ==> !Joins(Repeated, lines[0], lines[n])
    ensures HasTriple(lines) <==> FoldsRepeat(lines[0], n) || HasTriple(lines[n..])
    decreases n
  {
    if n > 1 {
      var tail := lines[1..];
      assert forall i :: 0 <= i < n - 1 ==> tail[i] == lines[i + 1];
      TripleBehind(tail, n - 1);
      assert tail[n - 1..] == lines[n..];
      ErrorIgnoresTrailingSpace(lines[0]);
      ErrorIgnoresTrailingSpace(lines[1]);
    }
  }

  /** A folded run is followed by just two copies of its own marker, or by as many as it had lines. */
  predicate Echoes(lines: seq<string>)
    requires lines != []
  {
    var n := BlockLength(Repeated, lines);
    && FoldsRepeat(lines[0], n) && n < |lines|
    && T.TrimEnd(lines[n]) == Marker(Repeated, n - 1)
    && (BlockLength(Repeated, lines[n..]) == 2 || BlockLength(Repeated, lines[n..]) == n)
  }

  /** Some run of the text echoes. */
  predicate HasEcho(lines: seq<string>)
    decreases |lines|
  {
    lines != [] && (Echoes(lines) || HasEcho(lines[BlockLength(Repeated, lines)..]))
  }

  lemma MarkerEndsPlain(n: nat)
    ensures T.TrimEnd(Marker(Repeated, n)) == Marker(Repeated, n)
    ensures !LooksLikeError(Marker(Repeated, n))
  {
    var m := Marker(Repeated, n);
    assert m[|m| - 1] == '>';
    MarkersAreNotErrors(Repeated, n);
  }

  /** The second line of a folded text. */
  lemma SecondFolded(rest: seq<string>)
    requires rest != []
    ensures var z, k := Folded(Repeated, rest), BlockLength(Repeated, rest);
            && z != [] && z[0] == rest[0]
            && (FoldsRepeat(rest[0], k) ==> |z| >= 2 && z[1] == Marker(Repeated, k - 1))
            && (!FoldsRepeat(rest[0], k) ==> (|z| >= 2 <==> |rest| >= 2) && (|z| >= 2 ==> z[1] == rest[1]))
  {
    var k := BlockLength(Repeated, rest);
    RepeatedStep(rest);
    if k == 1 && |rest| > 1 {
      FirstIsKept(Repeated, rest[1..]);
    }
  }

  /** How the folded rest begins behind a marker that counts `c` lines. */
  lemma MarkerMeetsRest(rest: seq<string>, c: nat)
    requires rest != [] && c >= 2
    ensures var z, m := Folded(Repeated, rest), Marker(Repeated, c);
            var k := BlockLength(Repeated, rest);
            (|z| >= 2 && T.TrimEnd(z[0]) == m && T.TrimEnd(z[1]) == m) <==>
            (T.TrimEnd(rest[0]) == m && (k == 2 || k == c + 1))
  {
    var k := BlockLength(Repeated, rest);
    BlockIsMaximal(Repeated, rest);
    SecondFolded(rest);
    MarkerEndsPlain(c);
    MarkerEndsPlain(k - 1);
    ErrorIgnoresTrailingSpace(rest[0]);
    SameMarkerIff(k - 1, c);
  }

  lemma SameMarkerIff(a: nat, b: nat)
    ensures Marker(Repeated, a) == Marker(Repeated, b) <==> a == b
  {
    if Marker(Repeated, a) == Marker(Repeated, b) {
      MarkerIsInjective(Repeated, a, b);
    }
  }

  lemma TripleBeyond(a: string, b: string, z: seq<string>)
    requires !TripleAt([a, b] + z, 0)
    ensures HasTriple([a, b] + z) <==> TripleAt([b] + z, 0) || HasTriple(z)
  {
    assert ([a, b] + z)[1..] == [b] + z && ([b] + z)[1..] == z;
  }

  /** The folded text has a triple exactly where a folded run echoes. */
  lemma {:induction false} EchoMakesTriple(lines: seq<string>)
    ensures HasTriple(Folded(Repeated, lines)) <==> HasEcho(lines)
    decreases |lines|
  {
    if lines != [] {
      var n := BlockLength(Repeated, lines);
      var rest := lines[n..];
      var z := Folded(Repeated, rest);
      EchoMakesTriple(rest);
      RepeatedStep(lines);
      BlockIsMaximal(Repeated, lines);
      if rest != [] {
        FirstIsKept(Repeated, rest);
      }
      if FoldsRepeat(lines[0], n) {
        FoldedRunMeets(lines);
      } else {
        PlainRunMeets(lines[..n], z);
      }
    }
  }

  /** A folded run's marker begins a triple with what follows exactly when the run echoes. */
  lemma EchoIsTripleBehind(lines: seq<string>)
    requires lines != [] && FoldsRepeat(lines[0], BlockLength(Repeated, lines))
    ensures var n := BlockLength(Repeated, lines);
            TripleAt([Marker(Repeated, n - 1)] + Folded(Repeated, lines[n..]), 0) <==> Echoes(lines)
  {
    var n := BlockLength(Repeated, lines);
    MarkerEndsPlain(n - 1);
    TripleBegins(Marker(Repeated, n - 1), Folded(Repeated, lines[n..]));
    if n < |lines| {
      MarkerMeetsRest(lines[n..], n - 1);
    }
  }

  lemma TripleBegins(m: string, z: seq<string>)
    requires T.TrimEnd(m) == m && !LooksLikeError(m)
    ensures TripleAt([m] + z, 0) <==> |z| >= 2 && T.TrimEnd(z[0]) == m && T.TrimEnd(z[1]) == m
  {
    var lines := [m] + z;
    assert |z| >= 2 ==> lines[1] == z[0] && lines[2] == z[1];
  }

  lemma FoldedRunMeets(lines: seq<string>)
    requires lines != [] && FoldsRepeat(lines[0], BlockLength(Repeated, lines))
    ensures var n := BlockLength(Repeated, lines);
            var z := Folded(Repeated, lines[n..]);
            HasTriple([lines[0], Marker(Repeated, n - 1)] + z) <==> Echoes(lines) || HasTriple(z)
  {
    var n := BlockLength(Repeated, lines);
    var m, z := Marker(Repeated, n - 1), Folded(Repeated, lines[n..]);
    BlockIsMaximal(Repeated, lines);
    MarkerEndsPlain(n - 1);
    if n < |lines| {
      FirstIsKept(Repeated, lines[n..]);
    }
    EchoIsTripleBehind(lines);
    TripleBeyond(lines[0], m, z);
  }

  lemma PlainRunMeets(run: seq<string>, z: seq<string>)
    requires run != [] && !FoldsRepeat(run[0], |run|)
    requires forall i :: 0 <= i < |run| ==> Joins(Repeated, run[0], run[i])
    requires z != [] ==> !Joins(Repeated, run[0], z[0])
    ensures HasTriple(run + z) <==> HasTriple(z)
  {
    var lines := run + z;
    TripleBehind(lines, |run|);
    assert lines[|run|..] == z;
  }

  /**
   * Folding repeated lines twice is folding once if and only if no folded run is followed by exactly two
   * copies of its own marker, or by exactly as many copies as it had lines itself.
   */
  lemma RepeatFoldIsIdempotentIff(lines: seq<string>)
    ensures Folded(Repeated, Folded(Repeated, lines)) == Folded(Repeated, lines) <==> !HasEcho(lines)
  {
    EchoMakesTriple(lines);
    RepeatedFixedIff(Folded(Repeated, lines));
  }

  /** In particular when no line is a marker up to trailing whitespace. */
  lemma {:induction false} WithoutMarkersNoEcho(lines: seq<string>)
    requires NoMarkers(Trimmed(lines))
    ensures !HasEcho(lines)
    decreases |lines|
  {
    if lines != [] {
      var n := BlockLength(Repeated, lines);
      assert Trimmed(lines[n..]) == Trimmed(lines)[n..];
      WithoutMarkersNoEcho(lines[n..]);
      if n < |lines| {
        MarkerIsRead(n - 1);
        assert Trimmed(lines)[n] == T.TrimEnd(lines[n]);
      }
    }
  }

  /** Three equal lines and two copies of their marker: the second fold folds the marker with its copies. */
  lemma EchoedMarkerFoldsTwice(line: string)
    requires !LooksLikeError(line) && T.TrimEnd(line) != Marker(Repeated, 2)
    ensures var m := Marker(Repeated, 2);
            var lines := [line, line, line, m, m];
            && Folded(Repeated, lines) == [line, m, m, m]
            && Folded(Repeated, Folded(Repeated, lines)) == [line, m, m]
  {
    MarkerEndsPlain(2);
    EchoFolds(line, Marker(Repeated, 2));
    EchoFoldsAgain(line, Marker(Repeated, 2));
  }

  lemma EchoFolds(line: string, m: string)
    requires !LooksLikeError(line) && T.TrimEnd(line) != T.TrimEnd(m)
    ensures Folded(Repeated, [line, line, line, m, m]) == [line, Marker(Repeated, 2), m, m]
  {
    RepeatedParts([line, line, line], [m, m]);
    FewLinesStay(Repeated, [m, m]);
    assert [line, line, line] + [m, m] == [line, line, line, m, m];
  }

  lemma EchoFoldsAgain(line: string, m: string)
    requires !LooksLikeError(m) && T.TrimEnd(line) != T.TrimEnd(m)
    ensures Folded(Repeated, [line, m, m, m]) == [line, m, Marker(Repeated, 2)]
  {
    RepeatedParts([line], [m, m, m]);
    RepeatedParts([m, m, m], []);
    assert [line] + [m, m, m] == [line, m, m, m] && [m, m, m] + [] == [m, m, m];
  }

  lemma RepeatedParts(run: seq<string>, rest: seq<string>)
    requires run != [] && forall i :: 0 <= i < |run| ==> Joins(Repeated, run[0], run[i])
    requires rest != [] ==> !Joins(Repeated, run[0], rest[0])
    ensures Folded(Repeated, run + rest) ==
            (if FoldsRepeat(run[0], |run|) then [run[0], Marker(Repeated, |run| - 1)] else run) + Folded(Repeated, rest)
  {
    RunFolds(Repeated, run, rest);
    ShrunkRepeat(run);
  }

  lemma ShrunkRepeat(run: seq<string>)
    requires run != []
    ensures Render(Repeated, Shrunk(Repeated, run)) ==
            if FoldsRepeat(run[0], |run|) then [run[0], Marker(Repeated, |run| - 1)] else run
  {
    RenderKept(Repeated, run);
    RenderSplit(Repeated, run, 1, |run|);
    assert run[..1] + [Marker(Repeated, |run| - 1)] + run[|run|..] == [run[0], Marker(Repeated, |run| - 1)];
  }
}
