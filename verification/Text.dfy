/** Characters and strings as the Rust library sees them. */
module Text {

  /** Unicode White_Space. */
  predicate IsSpace(c: char) {
    || '\t' <= c <= '\r' || c == ' ' || c == '\U{85}' || c == '\U{A0}' || c == '\U{1680}'
    || '\U{2000}' <= c <= '\U{200A}' || c == '\U{2028}' || c == '\U{2029}' || c == '\U{202F}' || c == '\U{205F}'
       || c == '\U{3000}'
  }

  predicate IsBlank(s: string) {
    forall i :: 0 <= i < |s| ==> IsSpace(s[i])
  }

  function TrimStart(s: string): string {
    if s == "" || !IsSpace(s[0]) then s else TrimStart(s[1..])
  }

  function TrimEnd(s: string): string {
    if s == "" || !IsSpace(s[|s| - 1]) then s else TrimEnd(s[..|s| - 1])
  }

  function Trim(s: string): string { TrimEnd(TrimStart(s)) }

  predicate StartsWith(s: string, p: string) { |p| <= |s| && s[..|p|] == p }

  function LowerChar(c: char): char { if 'A' <= c <= 'Z' then c - 'A' + 'a' else c }

  function LowerAscii(s: string): string { seq(|s|, i requires 0 <= i < |s| => LowerChar(s[i])) }

  /**
   * Unicode lower case, but for letters outside ASCII that stay outside ASCII: of all others only the Kelvin
   * sign and the dotted capital I have an ASCII letter in their lower case.
   */
  function LowerUnicode(s: string): string {
    if s == "" then ""
    else
      (if s[0] == '\U{212A}' then "k" else if s[0] == '\U{130}' then "i\U{307}" else [LowerChar(s[0])])
      + LowerUnicode(s[1..])
  }

  function Digit(n: nat): char
    requires n < 10
  {
    '0' + n as char
  }

  function Decimal(n: nat): string {
    if n < 10 then [Digit(n)] else Decimal(n / 10) + [Digit(n % 10)]
  }
}
