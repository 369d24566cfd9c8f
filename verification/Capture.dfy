/** Head-and-tail capture of a process's output (spawn_capture_shared in piscis-kernel/src/proc_windows_sandbox.rs). */
module Capture {
  import opened Common
  import opened Utf8Text
  import T = Text
  import S = Stream

  // ----- Cutting at characters

  /** How many bytes the last character of `s` needs, by its lead byte; 0 for a byte that begins none. */
  function Need(b: u8): nat {
    if 0xC0 <= b < 0xE0 then 2 else if 0xE0 <= b < 0xF0 then 3 else if 0xF0 <= b < 0xF8 then 4 else 0
  }

  function TrimFrom(s: Bytes, back: nat): (n: nat)
    requires 1 <= back
    ensures |s| - 3 <= n <= |s|
    decreases 4 - back
  {
    if back > Min(3, |s|) then |s|
    else
      var b := s[|s| - back];
      if IsContinuation(b) then TrimFrom(s, back + 1)
      else if Need(b) > back then |s| - back
      else |s|
  }

  /** The length left when a character cut off at the end is removed. */
  method TrimPartialUtf8Tail(s: Bytes) returns (n: nat)
    ensures n == TrimFrom(s, 1)
  {
    var back := 1;
    while back <= Min(3, |s|)
      invariant 1 <= back
      invariant TrimFrom(s, 1) == TrimFrom(s, back)
    {
      var b := s[|s| - back];
      if !IsContinuation(b) {
        return if Need(b) > back then |s| - back else |s|;
      }
      back := back + 1;
    }
    n := |s|;
  }

  /** The leading continuation bytes, three at most. */
  function LeadingContinuations(s: Bytes, most: nat): (n: nat)
    ensures n <= |s| && n <= most
    ensures forall i :: 0 <= i < n ==> IsContinuation(s[i])
    ensures n < |s| && n < most ==> !IsContinuation(s[n])
  {
    if most == 0 || s == [] || !IsContinuation(s[0]) then 0 else 1 + LeadingContinuations(s[1..], most - 1)
  }

  function Ascii(s: string): Bytes
    requires forall i :: 0 <= i < |s| ==> s[i] < '\U{80}'
  {
    seq(|s|, i requires 0 <= i < |s| => s[i] as u8)
  }

  lemma {:induction false} DecimalIsAscii(n: nat)
    ensures forall i :: 0 <= i < |T.Decimal(n)| ==> '0' <= T.Decimal(n)[i] <= '9'
  {
    if n >= 10 {
      DecimalIsAscii(n / 10);
    }
  }

  /** U+2026, the ellipsis. */
  const ELLIPSIS: Bytes := [0xE2, 0x80, 0xA6]

  function Marker(skipped: nat): Bytes {
    DecimalIsAscii(skipped);
    [10] + ELLIPSIS + Ascii(" [" + T.Decimal(skipped) + " bytes not captured] ") + ELLIPSIS + [10]
  }

  // ----- What is captured, as a function of the whole output

  function HeadLimit(limit: nat): (n: nat)
    ensures n + TailLimit(limit) == limit && n <= TailLimit(limit) + 1
  {
    limit - limit / 2
  }

  function TailLimit(limit: nat): nat { limit / 2 }

  function HeadLength(s: Bytes, limit: nat): nat
    requires |s| > limit
  {
    TrimFrom(s[..HeadLimit(limit)], 1)
  }

  /** Where the kept tail begins in the output. */
  function TailStart(s: Bytes, limit: nat): nat
    requires |s| > limit
  {
    var tail := s[|s| - TailLimit(limit)..];
    |s| - TailLimit(limit) + LeadingContinuations(tail, 3)
  }

  function Captured(s: Bytes, limit: nat): Bytes {
    if |s| <= limit then s
    else if TailLimit(limit) == 0 then s[..HeadLimit(limit)]
    else
      var h, t := HeadLength(s, limit), TailStart(s, limit);
      s[..h] + Marker(t - h) + s[t..]
  }

  /** The output a reader sees: reads up to the first empty one. */
  function Output(chunks: seq<Bytes>): Bytes
    decreases |chunks|
  {
    if chunks == [] || chunks[0] == [] then [] else chunks[0] + Output(chunks[1..])
  }

  lemma OutputFrom(chunks: seq<Bytes>, i: nat, seen: Bytes)
    requires i < |chunks| && chunks[i] != []
    ensures seen + Output(chunks[i..]) == (seen + chunks[i]) + Output(chunks[i + 1..])
  {
    assert chunks[i..][1..] == chunks[i + 1..];
  }

  // ----- The capture loop

  method CaptureReads(chunks: seq<Bytes>, limit: nat, shared: S.SharedStream?, logOk: bool)
    returns (captured: Bytes, total: nat)
    requires shared != null ==> shared.Valid()
    modifies shared
    ensures captured == Captured(Output(chunks), limit)
    ensures total == |Output(chunks)|
    ensures shared != null ==> shared.Valid() && shared.history == old(shared.history) + Output(chunks)
  {
    var tail: Bytes := [];
    captured, total := [], 0;
    ghost var seen: Bytes := [];
    var i := 0;
    assert chunks[0..] == chunks && seen + Output(chunks) == Output(chunks);
    while i < |chunks| && chunks[i] != []
      invariant 0 <= i <= |chunks|
      invariant Output(chunks) == seen + Output(chunks[i..])
      invariant total == |seen|
      invariant Holds(seen, captured, tail, limit)
      invariant shared != null ==> shared.Valid() && shared.history == old(shared.history) + seen
      decreases |chunks| - i
    {
      var chunk := chunks[i];
      total := total + |chunk|;
      if shared != null {
        shared.Append(chunk, logOk);
      }
      captured, tail := Feed(seen, captured, tail, chunk, limit);
      OutputFrom(chunks, i, seen);
      seen := seen + chunk;
      i := i + 1;
    }
    assert Output(chunks[i..]) == [] && Output(chunks) == seen;
    captured := Finish(seen, captured, tail, total, limit);
  }

  /** The head holds the first of the output seen so far, the tail the last of the rest. */
  ghost predicate Holds(seen: Bytes, head: Bytes, tail: Bytes, limit: nat) {
    head == seen[..Min(|seen|, HeadLimit(limit))] && tail == Newest(seen[|head|..], TailLimit(limit))
  }

  /** One read: the head takes what still fits, the tail keeps the last of the rest. */
  method Feed(ghost seen: Bytes, head: Bytes, tail: Bytes, chunk: Bytes, limit: nat)
    returns (head': Bytes, tail': Bytes)
    requires Holds(seen, head, tail, limit)
    ensures Holds(seen + chunk, head', tail', limit)
  {
    var headLimit, tailLimit := HeadLimit(limit), TailLimit(limit);
    ghost var n := |head|;
    var toHead := Min(Max(headLimit - |head|, 0), |chunk|);
    Fed(seen, chunk, n, toHead, headLimit, tailLimit);
    head' := head + chunk[..toHead];
    assert head' == (seen + chunk)[..n + toHead] && |head'| == n + toHead;
    tail' := KeepTail(tail, chunk[toHead..], tailLimit);
    assert tail' == Newest((seen + chunk)[n + toHead..], tailLimit);
  }

  /** Bytes beyond the head go into the tail, if there is to be one, and push out the oldest. */
  method KeepTail(tail: Bytes, more: Bytes, tailLimit: nat) returns (tail': Bytes)
    requires |tail| <= tailLimit
    ensures tail' == Newest(tail + more, tailLimit)
  {
    if tailLimit > 0 {
      tail' := tail + more;
      var excess := Max(|tail'| - tailLimit, 0);
      tail' := tail'[excess..];
    } else {
      tail' := tail;
      assert Newest(tail + more, 0) == [];
    }
  }

  lemma Fed(seen: Bytes, chunk: Bytes, n: nat, m: nat, headLimit: nat, tailLimit: nat)
    requires n == Min(|seen|, headLimit) && m == Min(headLimit - n, |chunk|)
    ensures n + m == Min(|seen + chunk|, headLimit)
    ensures seen[..n] + chunk[..m] == (seen + chunk)[..n + m]
    ensures Newest(Newest(seen[n..], tailLimit) + chunk[m..], tailLimit)
            == Newest((seen + chunk)[n + m..], tailLimit)
  {
    FedHead(seen, chunk, n, m);
    FedTail(seen, chunk, n, m, tailLimit);
  }

  lemma FedHead(seen: Bytes, chunk: Bytes, n: nat, m: nat)
    requires n <= |seen| && m <= |chunk| && (n == |seen| || m == 0)
    ensures seen[..n] + chunk[..m] == (seen + chunk)[..n + m]
  {
  }

  lemma FedTail(seen: Bytes, chunk: Bytes, n: nat, m: nat, tailLimit: nat)
    requires n <= |seen| && m <= |chunk| && (n == |seen| || m == 0)
    ensures Newest(Newest(seen[n..], tailLimit) + chunk[m..], tailLimit)
            == Newest((seen + chunk)[n + m..], tailLimit)
  {
    S.LastAppend(seen[n..], chunk[m..], tailLimit);
    assert (seen + chunk)[n + m..] == seen[n..] + chunk[m..];
  }

  /** What is done once the output has ended. */
  method Finish(ghost s: Bytes, head: Bytes, tail: Bytes, total: nat, limit: nat) returns (captured: Bytes)
    requires total == |s| && Holds(s, head, tail, limit)
    ensures captured == Captured(s, limit)
  {
    captured := head;
    if total <= limit {
      WholeIsHeld(s, head, tail, limit);
      captured := captured + tail;
    } else {
      PartsAreHeld(s, head, tail, limit);
      if TailLimit(limit) > 0 {
        captured := Join(s, head, tail, total, limit);
      }
    }
  }

  lemma WholeIsHeld(s: Bytes, head: Bytes, tail: Bytes, limit: nat)
    requires Holds(s, head, tail, limit) && |s| <= limit
    ensures head + tail == s
  {
    assert s == s[..|head|] + s[|head|..];
  }

  lemma PartsAreHeld(s: Bytes, head: Bytes, tail: Bytes, limit: nat)
    requires Holds(s, head, tail, limit) && |s| > limit
    ensures head == s[..HeadLimit(limit)] && tail == s[|s| - TailLimit(limit)..]
  {
  }

  /** The head and the tail, each cut at a character, with a note of how much is missing between them. */
  method Join(ghost s: Bytes, head: Bytes, tail: Bytes, total: nat, limit: nat) returns (captured: Bytes)
    requires total == |s| > limit && TailLimit(limit) > 0
    requires head == s[..HeadLimit(limit)] && tail == s[|s| - TailLimit(limit)..]
    ensures captured == s[..HeadLength(s, limit)] + Marker(TailStart(s, limit) - HeadLength(s, limit))
            + s[TailStart(s, limit)..]
  {
    var headLength := TrimPartialUtf8Tail(head);
    var start := LeadingContinuations(tail, 3);
    var keptTail := tail[start..];
    var skipped := total - headLength - |keptTail|;
    assert keptTail == s[TailStart(s, limit)..] && head[..headLength] == s[..headLength];
    captured := head[..headLength] + Marker(skipped) + keptTail;
  }

  // ----- What the captured output means

  /** Two ways of reading the same output capture the same bytes. */
  method CaptureTwice(a: seq<Bytes>, b: seq<Bytes>, limit: nat) returns (x: Bytes, y: Bytes)
    requires Output(a) == Output(b)
    ensures x == y
  {
    var n, m;
    x, n := CaptureReads(a, limit, null, true);
    y, m := CaptureReads(b, limit, null, true);
  }

  /**
   * Beyond the limit the output is split in three, and the count reported is what is missing between the
   * parts. Limits of no byte and one byte have no tail: the head alone is left, cut anywhere, and nothing
   * reports the rest.
   */
  lemma CaptureAccountsForEveryByte(s: Bytes, limit: nat)
    requires |s| > limit
    ensures limit < 2 ==> Captured(s, limit) == s[..limit]
    ensures limit >= 2 ==>
              var h, t := HeadLength(s, limit), TailStart(s, limit);
              && h <= t <= |s| && Captured(s, limit) == s[..h] + Marker(t - h) + s[t..]
              && h + (t - h) + |s[t..]| == |s|
              && HeadLimit(limit) - 3 <= h <= HeadLimit(limit)
              && TailLimit(limit) - 3 <= |s[t..]| <= TailLimit(limit)
              && t - h >= |s| - limit > 0
  {
  }

  /** The kept head of a text ends at a character. */
  lemma HeadIsUtf8(s: Bytes, n: nat)
    requires IsUtf8(s) && n <= |s|
    ensures IsUtf8(s[..TrimFrom(s[..n], 1)])
  {
    var head := s[..n];
    if n < |s| && IsContinuation(s[n]) {
      var back := LeadIsNear(s, n);
      assert forall i :: n - back <= i < n ==> head[i] == s[i];
      TrimAtLead(head, back);
      CutIsUtf8(s, n - back);
    } else {
      CutIsUtf8(s, n);
      if n > 0 {
        WholeIsKept(head, 1);
      }
    }
  }

  lemma TrimAtLead(head: Bytes, back: nat)
    requires 1 <= back <= 3 && back <= |head|
    requires forall i :: |head| - back < i < |head| ==> IsContinuation(head[i])
    requires !IsContinuation(head[|head| - back]) && back < Width(head[|head| - back])
    ensures TrimFrom(head, 1) == |head| - back
  {
    assert Need(head[|head| - back]) == Width(head[|head| - back]);
    assert TrimFrom(head, back) == |head| - back;
    if back >= 2 {
      assert IsContinuation(head[|head| - 1]);
      assert TrimFrom(head, 1) == TrimFrom(head, 2);
      assert back == 3 ==> IsContinuation(head[|head| - 2]) && TrimFrom(head, 2) == TrimFrom(head, 3);
    }
  }

  lemma {:induction false} WholeIsKept(head: Bytes, back: nat)
    requires IsUtf8(head) && 1 <= back <= 4
    requires forall i :: |head| - back < i < |head| ==> 0 <= i ==> IsContinuation(head[i])
    ensures TrimFrom(head, back) == |head|
    decreases 4 - back
  {
    if back <= Min(3, |head|) {
      if IsContinuation(head[|head| - back]) {
        WholeIsKept(head, back + 1);
      } else {
        CharExtent(head, |head| - back);
        NeedIsWidth(head[|head| - back]);
      }
    }
  }

  lemma NeedIsWidth(b: u8)
    requires Width(b) > 0
    ensures Need(b) == if b < 0x80 then 0 else Width(b)
  {
  }

  lemma TailFromIsUtf8(s: Bytes, p: nat, q: nat)
    requires IsUtf8(s) && p <= |s| && q == p + LeadingContinuations(s[p..], 3)
    ensures IsUtf8(s[q..])
  {
    TailIsUtf8(s, p);
  }

  /** The kept tail of a text begins at a character. */
  lemma TailIsUtf8(s: Bytes, p: nat)
    requires IsUtf8(s) && p <= |s|
    ensures IsUtf8(s[p + LeadingContinuations(s[p..], 3)..])
  {
    var n := LeadingContinuations(s[p..], 3);
    LeadingRun(s, p, n);
    RunIsShort(s, p, n);
    CutIsUtf8(s, p + n);
  }

  lemma LeadingRun(s: Bytes, p: nat, n: nat)
    requires p <= |s| && n == LeadingContinuations(s[p..], 3)
    ensures n <= 3 && p + n <= |s| && forall i :: p <= i < p + n ==> IsContinuation(s[i])
    ensures n < 3 && p + n < |s| ==> !IsContinuation(s[p + n])
  {
    assert forall i :: p <= i < |s| ==> s[i] == s[p..][i - p];
  }

  /** Three continuation bytes in a row are followed by the next character. */
  lemma RunIsShort(s: Bytes, p: nat, n: nat)
    requires IsUtf8(s) && p + n <= |s| && n <= 3
    requires n < 3 && p + n < |s| ==> !IsContinuation(s[p + n])
    requires forall i :: p <= i < p + n ==> IsContinuation(s[i])
    ensures p + n < |s| ==> !IsContinuation(s[p + n])
  {
    if p + n < |s| && IsContinuation(s[p + n]) {
      var back := LeadIsNear(s, p + n);
      assert false;
    }
  }

  lemma MarkerIsUtf8(n: nat)
    ensures IsUtf8(Marker(n))
  {
    DecimalIsAscii(n);
    var words := Ascii(" [" + T.Decimal(n) + " bytes not captured] ");
    AsciiIsUtf8([10]);
    AsciiIsUtf8(words);
    assert ELLIPSIS[3..] == [] && ELLIPSIS[..3] == ELLIPSIS && IsUtf8(ELLIPSIS);
    ConcatIsUtf8([10], ELLIPSIS);
    ConcatIsUtf8([10] + ELLIPSIS, words);
    ConcatIsUtf8([10] + ELLIPSIS + words, ELLIPSIS);
    ConcatIsUtf8([10] + ELLIPSIS + words + ELLIPSIS, [10]);
  }

  /**
   * What is captured of a UTF-8 text is a UTF-8 text, except that a limit of one byte leaves half a
   * character of any longer text that begins outside ASCII.
   */
  lemma CaptureKeepsUtf8Iff(s: Bytes, limit: nat)
    requires IsUtf8(s)
    ensures IsUtf8(Captured(s, limit)) <==> !(limit == 1 && |s| > 1 && s[0] >= 0x80)
  {
    if |s| > limit && limit >= 2 {
      SplitIsUtf8(s, limit);
    } else if |s| > limit && limit == 1 {
      assert s[..1][..1] == s[..1] && s[..1][1..] == [];
    }
  }

  lemma SplitIsUtf8(s: Bytes, limit: nat)
    requires IsUtf8(s) && |s| > limit && limit >= 2
    ensures IsUtf8(Captured(s, limit))
  {
    CaptureAccountsForEveryByte(s, limit);
    HeadPartIsUtf8(s, limit);
    TailPartIsUtf8(s, limit);
    JoinIsUtf8(s[..HeadLength(s, limit)], TailStart(s, limit) - HeadLength(s, limit), s[TailStart(s, limit)..]);
  }

  lemma HeadPartIsUtf8(s: Bytes, limit: nat)
    requires IsUtf8(s) && |s| > limit
    ensures IsUtf8(s[..HeadLength(s, limit)])
  {
    HeadIsUtf8(s, HeadLimit(limit));
  }

  lemma TailPartIsUtf8(s: Bytes, limit: nat)
    requires IsUtf8(s) && |s| > limit
    ensures IsUtf8(s[TailStart(s, limit)..])
  {
    TailFromIsUtf8(s, |s| - TailLimit(limit), TailStart(s, limit));
  }

  lemma JoinIsUtf8(head: Bytes, skipped: nat, tail: Bytes)
    requires IsUtf8(head) && IsUtf8(tail)
    ensures IsUtf8(head + Marker(skipped) + tail)
  {
    MarkerIsUtf8(skipped);
    ConcatIsUtf8(head, Marker(skipped));
    ConcatIsUtf8(head + Marker(skipped), tail);
  }
}
