/** UTF-8 as section 4 of RFC 3629 defines it. */
module Utf8Text {
  import opened Common

  predicate IsContinuation(b: u8) { 0x80 <= b < 0xC0 }

  /** The number of bytes of the character a byte begins; 0 if none begins with it. */
  function Width(b: u8): nat {
    if b < 0x80 then 1
    else if 0xC2 <= b < 0xE0 then 2
    else if 0xE0 <= b < 0xF0 then 3
    else if 0xF0 <= b < 0xF5 then 4
    else 0
  }

  /** The second byte excludes overlong forms, surrogates and code points beyond U+10FFFF. */
  predicate SecondFits(lead: u8, second: u8) {
    && (lead == 0xE0 ==> second >= 0xA0)
    && (lead == 0xED ==> second < 0xA0)
    && (lead == 0xF0 ==> second >= 0x90)
    && (lead == 0xF4 ==> second < 0x90)
  }

  predicate IsChar(c: Bytes) {
    && |c| > 0 && Width(c[0]) == |c|
    && (forall i :: 1 <= i < |c| ==> IsContinuation(c[i]))
    && (|c| > 1 ==> SecondFits(c[0], c[1]))
  }

  predicate IsUtf8(s: Bytes) {
    s == [] || (var w := Width(s[0]); 0 < w <= |s| && IsChar(s[..w]) && IsUtf8(s[w..]))
  }

  lemma {:induction false} ConcatIsUtf8(a: Bytes, b: Bytes)
    requires IsUtf8(a) && IsUtf8(b)
    ensures IsUtf8(a + b)
  {
    if a == [] {
      assert a + b == b;
    } else {
      var w := Width(a[0]);
      assert (a + b)[..w] == a[..w] && (a + b)[w..] == a[w..] + b;
      ConcatIsUtf8(a[w..], b);
    }
  }

  lemma {:induction false} AsciiIsUtf8(s: Bytes)
    requires forall i :: 0 <= i < |s| ==> s[i] < 0x80
    ensures IsUtf8(s)
  {
    if s != [] {
      AsciiIsUtf8(s[1..]);
    }
  }

  /** A text may be cut wherever a continuation byte does not follow. */
  lemma {:induction false} CutIsUtf8(s: Bytes, p: nat)
    requires IsUtf8(s) && p <= |s| && (p < |s| ==> !IsContinuation(s[p]))
    ensures IsUtf8(s[..p]) && IsUtf8(s[p..])
  {
    if p > 0 {
      var w := Width(s[0]);
      assert forall i :: 1 <= i < w ==> s[..w][i] == s[i];
      assert p >= w;
      CutIsUtf8(s[w..], p - w);
      assert s[..p][..w] == s[..w] && s[..p][w..] == s[w..][..p - w] && s[p..] == s[w..][p - w..];
    }
  }

  /** A character runs from its lead byte to the next byte that does not continue it. */
  lemma CharExtent(s: Bytes, p: nat)
    requires IsUtf8(s) && p < |s| && !IsContinuation(s[p])
    ensures var w := Width(s[p]);
            && 0 < w && p + w <= |s|
            && (forall i :: p < i < p + w ==> IsContinuation(s[i]))
            && (p + w < |s| ==> !IsContinuation(s[p + w]))
  {
    CutIsUtf8(s, p);
    var rest, w := s[p..], Width(s[p]);
    assert forall i :: 1 <= i < w ==> rest[..w][i] == s[p + i];
    assert forall i :: p < i < p + w ==> s[i] == rest[..w][i - p];
    if p + w < |s| {
      assert rest[w..][0] == s[p + w];
    }
  }

  /** Every continuation byte has its lead byte at most three places before it. */
  lemma {:induction false} LeadIsNear(s: Bytes, p: nat) returns (back: nat)
    requires IsUtf8(s) && p < |s| && IsContinuation(s[p])
    ensures 1 <= back <= 3 && back <= p
    ensures !IsContinuation(s[p - back]) && back < Width(s[p - back])
    ensures forall i :: p - back < i <= p ==> IsContinuation(s[i])
  {
    var w := Width(s[0]);
    assert forall i :: 1 <= i < w ==> s[..w][i] == s[i];
    if p < w {
      back := p;
    } else {
      back := LeadIsNear(s[w..], p - w);
      assert forall i :: w <= i < |s| ==> s[i] == s[w..][i - w];
    }
  }
}
