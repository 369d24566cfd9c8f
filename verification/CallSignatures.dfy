/**
 * When two calls have the same signature (tool_call_signature in piscis-kernel/src/agent/message_utils.rs):
 * exactly when they call the same tool with the same input, since JSON text has no two colons in a row
 * outside its strings.
 */
module CallSignatures {
  import opened Common
  import opened MessageLog
  import opened Collapse

  // ----- What every JSON text is, seen by its quotes, backslashes and colons

  /** Outside a string, behind a colon or not; inside one, behind a backslash or not; or no JSON text. */
  datatype Place = Outside(colon: bool) | Inside(escaped: bool) | Broken

  function Pass(p: Place, c: char): Place {
    match p
    case Outside(colon) =>
      if c == '"' then Inside(false)
      else if c == '\\' || (c == ':' && colon) then Broken
      else Outside(c == ':')
    case Inside(escaped) =>
      if escaped then Inside(false) else if c == '\\' then Inside(true) else if c == '"' then Outside(false) else p
    case Broken => Broken
  }

  function PassAll(p: Place, text: string): Place
    decreases |text|
  {
    if text == "" then p else PassAll(Pass(p, text[0]), text[1..])
  }

  /**
   * Strings are closed, and outside them there is no backslash, no colon in front and no two colons in a
   * row, as in every JSON text.
   */
  predicate IsJsonLike(text: string) { PassAll(Outside(true), text).Outside? }

  lemma {:induction false} PassAllConcat(p: Place, a: string, b: string)
    ensures PassAll(p, a + b) == PassAll(PassAll(p, a), b)
    decreases |a|
  {
    if a == "" {
      assert a + b == b;
    } else {
      assert (a + b)[1..] == a[1..] + b;
      PassAllConcat(Pass(p, a[0]), a[1..], b);
    }
  }

  lemma {:induction false} StaysBroken(text: string)
    ensures PassAll(Broken, text) == Broken
  {
    if text != "" {
      StaysBroken(text[1..]);
    }
  }

  /** A text that is whole outside a string is not whole inside one. */
  lemma {:induction false} NotBothWays(text: string, colon: bool)
    ensures !(PassAll(Outside(colon), text).Outside? && PassAll(Inside(false), text).Outside?)
    decreases |text|
  {
    if text != "" {
      var c := text[0];
      if c == '"' {
        NotBothWays(text[1..], false);
      } else if c == '\\' || (c == ':' && colon) {
        StaysBroken(text[1..]);
      } else {
        NotBothWays(text[1..], c == ':');
      }
    }
  }

  /** Behind two colons a whole text can only stand inside a string, and then it is not whole by itself. */
  lemma NotBehindColons(front: string, text: string)
    requires IsJsonLike(text)
    ensures !IsJsonLike(front + "::" + text)
  {
    var p := PassAll(Outside(true), front);
    PassAllConcat(Outside(true), front, "::");
    PassAllConcat(Outside(true), front + "::", text);
    assert "::"[1..] == ":" && ":"[1..] == "";
    assert PassAll(p, "::") == Pass(Pass(p, ':'), ':');
    if p.Inside? {
      NotBothWays(text, true);
    } else {
      StaysBroken(text);
    }
  }

  // ----- Signatures

  function InputOf(text: string): Input { Input(text, None) }

  /** The signature looks at the input's text only. */
  lemma SignatureOfText(name: string, input: Input)
    ensures Signature(name, input) == Signature(name, InputOf(input.text))
  {
  }

  lemma LongerNameDiffers(n1: string, t1: string, n2: string, t2: string)
    requires IsJsonLike(t1) && IsJsonLike(t2) && |n1| < |n2|
    ensures Signature(n1, InputOf(t1)) != Signature(n2, InputOf(t2))
  {
    var s1, s2 := n1 + "::" + t1, n2 + "::" + t2;
    if s1 == s2 {
      var k := |n1| + 2;
      assert s1[k..] == t1;
      if |n2| < k {
        assert s2[k] == ':' && t1[0] == s1[k];
        StaysBroken(t1[1..]);
      } else {
        assert s2[k..] == n2[k..] + "::" + t2;
        NotBehindColons(n2[k..], t2);
      }
    }
  }

  /** Whatever the tools are called: same signature if and only if same tool and same input text. */
  lemma SignatureIff(n1: string, t1: string, n2: string, t2: string)
    requires IsJsonLike(t1) && IsJsonLike(t2)
    ensures Signature(n1, InputOf(t1)) == Signature(n2, InputOf(t2)) <==> n1 == n2 && t1 == t2
  {
    if |n1| < |n2| {
      LongerNameDiffers(n1, t1, n2, t2);
    } else if |n2| < |n1| {
      LongerNameDiffers(n2, t2, n1, t1);
    } else if Signature(n1, InputOf(t1)) == Signature(n2, InputOf(t2)) {
      var s1, s2 := n1 + "::" + t1, n2 + "::" + t2;
      assert s1[..|n1|] == n1 && s2[..|n1|] == n2;
      assert s1[|n1| + 2..] == t1 && s2[|n1| + 2..] == t2;
    }
  }
}
