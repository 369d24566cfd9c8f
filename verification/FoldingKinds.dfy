/**
 * Which lines the folds of piscis-kernel/src/agent/rule_preprocess.rs take for errors, stack frames and
 * table rows.
 */
module FoldingKinds {
  import opened Common
  import opened Folding
  import T = Text

  // ----- Trimming

  lemma {:induction false} TrimStartOf(space: string, text: string)
    requires T.IsBlank(space) && text != "" && !T.IsSpace(text[0])
    ensures T.TrimStart(space + text) == text
  {
    if space == "" {
      assert space + text == text;
    } else {
      assert (space + text)[1..] == space[1..] + text;
      TrimStartOf(space[1..], text);
    }
  }

  lemma TrimOf(space: string, text: string)
    requires T.IsBlank(space) && text != "" && !T.IsSpace(text[0]) && !T.IsSpace(text[|text| - 1])
    ensures T.Trim(space + text) == text
  {
    TrimStartOf(space, text);
  }

  // ----- Errors

  /** What an error line begins with, in any letter case. */
  predicate IsErrorWord(w: string) {
    || w == "error" || w == "err:" || w == "err " || w == "panic" || w == "fatal"
    || w == "failed" || w == "exception" || w == "traceback"
  }

  /** A line that begins with such a word, behind white space or not, looks like an error. */
  lemma ErrorLineIsSeen(space: string, word: string, rest: string)
    requires IsErrorWord(T.LowerAscii(word)) && T.IsBlank(space) && rest != "" && !T.IsSpace(rest[|rest| - 1])
    ensures LooksLikeError(space + (word + rest))
  {
    var text := word + rest;
    WordBegins(word);
    TrimOf(space, text);
    var lower := T.LowerAscii(text);
    assert lower[..|word|] == T.LowerAscii(word);
    WordIsListed(T.LowerAscii(word));
  }

  lemma WordBegins(word: string)
    requires IsErrorWord(T.LowerAscii(word))
    ensures word != "" && !T.IsSpace(word[0])
  {
    assert T.LowerAscii(word)[0] == T.LowerChar(word[0]);
  }

  lemma WordIsListed(w: string)
    requires IsErrorWord(w)
    ensures exists k :: 0 <= k < |ERROR_PREFIXES| && ERROR_PREFIXES[k] == w
  {
    assert ERROR_PREFIXES[0] == "error" && ERROR_PREFIXES[1] == "err:" && ERROR_PREFIXES[2] == "err ";
    assert ERROR_PREFIXES[3] == "panic" && ERROR_PREFIXES[4] == "fatal" && ERROR_PREFIXES[5] == "failed";
    assert ERROR_PREFIXES[6] == "exception" && ERROR_PREFIXES[7] == "traceback";
  }

  // ----- Table rows

  lemma {:induction false} BarsAtEnds(s: string)
    requires s != "" && s[|s| - 1] == '|'
    ensures Bars(s) >= 1
  {
    if |s| > 1 {
      BarsAtEnds(s[1..]);
    }
  }

  /** A line is a table row if and only if its trimmed text has a bar at both ends. */
  lemma TableRowIff(line: string)
    ensures IsTableRow(line) <==> var t := T.Trim(line); |t| >= 2 && t[0] == '|' && t[|t| - 1] == '|'
  {
    var t := T.Trim(line);
    if |t| >= 2 && t[|t| - 1] == '|' {
      assert t[1..][|t| - 2] == t[|t| - 1];
      BarsAtEnds(t[1..]);
    } else if |t| == 1 {
      assert t[1..] == "" && Bars(t[1..]) == 0;
    }
  }

  // ----- Stack frames

  lemma {:induction false} FindFinds(front: string, p: string, back: string)
    ensures Find(front + (p + back), p).Some? && Find(front + (p + back), p).value <= |front|
  {
    var s := front + (p + back);
    if front == "" {
      assert s == p + back && s[..|p|] == p;
    } else {
      assert s[1..] == front[1..] + (p + back);
      FindFinds(front[1..], p, back);
    }
  }

  /** A line of a trace that names its place: "at" and a colon or an opening parenthesis behind it. */
  lemma AtLineIsFrame(space: string, front: string, mark: string, back: string)
    requires T.IsBlank(space) && (mark == ":" || mark == "(")
    ensures IsStackFrame(space + (("at " + front) + (mark + back)))
  {
    var text := ("at " + front) + (mark + back);
    assert text[0] == 'a' && text[..3] == "at ";
    TrimStartOf(space, text);
    FindFinds("at " + front, mark, back);
  }

  /** A line of a trace that names a file and a line. */
  lemma FileLineIsFrame(space: string, front: string, back: string)
    requires T.IsBlank(space)
    ensures IsStackFrame(space + (("File \"" + front) + (", line " + back)))
  {
    var text := ("File \"" + front) + (", line " + back);
    assert text[0] == 'F' && text[..6] == "File \"";
    TrimStartOf(space, text);
    FindFinds("File \"" + front, ", line ", back);
  }

  /** A numbered line of a trace. */
  lemma NumberedLineIsFrame(space: string, digits: string, back: string)
    requires T.IsBlank(space) && digits != "" && AllDigits(digits)
    ensures IsStackFrame(space + (digits + (": " + back)))
  {
    var text := digits + (": " + back);
    assert text[0] == digits[0];
    TrimStartOf(space, text);
    FindFinds(digits, ": ", back);
    var i := Find(text, ": ").value;
    assert text[..i] == digits[..i];
  }
}
