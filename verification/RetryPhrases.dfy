/**
 * Which failures count as retryable (is_retryable_tool_failure in
 * piscis-kernel/src/agent/message_utils.rs): those whose text holds one of its phrases, in any letter case.
 */
module RetryPhrases {
  import opened Collapse
  import T = Text

  /** The phrases that suffice by themselves. */
  predicate IsPhrase(p: string) {
    || p == "missing field" || p == "missing required" || p == "invalid type" || p == "invalid value"
    || p == "unknown field" || p == "unknown variant" || p == "did not match any variant"
    || p == "additional properties are not allowed" || p == "schema \U{4E0D}\U{5339}\U{914D}"
  }

  lemma {:induction false} LowerConcat(a: string, b: string)
    ensures T.LowerUnicode(a + b) == T.LowerUnicode(a) + T.LowerUnicode(b)
  {
    if a == "" {
      assert a + b == b;
    } else {
      assert (a + b)[1..] == a[1..] + b;
      LowerConcat(a[1..], b);
    }
  }

  /** What stands in a text, however it is written in letter case, stands in its lower case. */
  lemma WrittenIsContained(front: string, written: string, back: string)
    ensures Contains(T.LowerUnicode(front + written + back), T.LowerUnicode(written))
  {
    LowerConcat(front + written, back);
    LowerConcat(front, written);
    var f, w, b := T.LowerUnicode(front), T.LowerUnicode(written), T.LowerUnicode(back);
    var all := f + w + b;
    assert all[|f|..|f| + |w|] == w;
    assert PartAt(all, |f|, w);
  }

  /** Every failure whose text holds such a phrase, in any letter case, is retryable. */
  lemma PhraseIsRetryable(front: string, written: string, back: string)
    requires IsPhrase(T.LowerUnicode(written))
    ensures IsRetryable(front + written + back)
  {
    WrittenIsContained(front, written, back);
  }

  /** So is one that holds both parts of the complaint about an unknown tool, and one marked for correction. */
  lemma UnknownToolIsRetryable(front: string, tool: string, between: string, missing: string, back: string)
    requires T.LowerUnicode(tool) == "tool '" && T.LowerUnicode(missing) == "does not exist. available tools:"
    ensures IsRetryable(front + tool + (between + missing + back))
  {
    var text := front + tool + (between + missing + back);
    WrittenIsContained(front, tool, between + missing + back);
    WrittenIsContained(front + tool + between, missing, back);
    assert text == (front + tool + between) + missing + back;
  }

  lemma MarkedIsRetryable(front: string, back: string)
    ensures IsRetryable(front + "[schema_correction tool=" + back)
  {
    var mark := "[schema_correction tool=";
    var text := front + mark + back;
    assert text[|front|..|front| + |mark|] == mark;
    assert PartAt(text, |front|, mark);
  }

  /** A text in which none of the phrases stands is not retryable; in particular no text of three characters. */
  lemma ShortIsNotRetryable(text: string)
    requires |T.LowerUnicode(text)| <= 3 && |text| <= 3
    ensures !IsRetryable(text)
  {
  }
}
