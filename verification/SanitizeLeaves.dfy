/**
 * Exactly which calls and which results sanitising leaves, and in which order
 * (piscis-kernel/src/agent/message_utils.rs).
 */
module SanitizeLeaves {
  import opened Common
  import opened Ids
  import opened MessageLog
  import opened Sanitize
  import opened SanitizeMixed
  import opened SanitizeTwice
  import opened Supersede

  /** The calls of each assistant message that the run behind it answers, and all others. */
  function CallsLeft(msgs: seq<Message>): seq<Id> {
    if msgs == [] then []
    else
      var m, rest := msgs[0], msgs[1..];
      (if m.role == "assistant" then Only(Calls(m), Answered(rest)) else Calls(m)) + CallsLeft(rest)
  }

  /** A caller with a call that is not answered, or with one it makes twice. */
  predicate IsBroken(m: Message, rest: seq<Message>) {
    m.role == "assistant" && Calls(m) != [] && !(Distinct(Calls(m)) && Elems(Calls(m)) <= Answered(rest))
  }

  /** Behind a broken caller the results of its own calls, up to the end of the run, and all others. */
  function ResultsLeft(msgs: seq<Message>): seq<Id>
    decreases |msgs|
  {
    if msgs == [] then []
    else
      var m, rest := msgs[0], msgs[1..];
      if IsBroken(m, rest) then Only(AllResults(rest[..RunLength(rest)]), Elems(Calls(m))) + ResultsLeft(Behind(rest))
      else Results(m) + ResultsLeft(rest)
  }

  // ----- Selecting ids

  lemma {:induction false} OnlyConcat(a: seq<Id>, b: seq<Id>, keep: set<Id>)
    ensures Only(a + b, keep) == Only(a, keep) + Only(b, keep)
  {
    if a == [] {
      assert a + b == b;
    } else {
      assert (a + b)[1..] == a[1..] + b;
      OnlyConcat(a[1..], b, keep);
    }
  }

  lemma {:induction false} OnlyAgree(s: seq<Id>, a: set<Id>, b: set<Id>)
    requires forall x :: x in s ==> (x in a <==> x in b)
    ensures Only(s, a) == Only(s, b)
  {
    if s != [] {
      assert s[0] in s;
      OnlyAgree(s[1..], a, b);
    }
  }

  lemma {:induction false} OnlyAll(s: seq<Id>, keep: set<Id>)
    requires Elems(s) <= keep
    ensures Only(s, keep) == s
  {
    if s != [] {
      assert s[0] in Elems(s) && Elems(s[1..]) <= Elems(s);
      OnlyAll(s[1..], keep);
      assert s == [s[0]] + s[1..];
    }
  }

  lemma IdsFront(m: Message, rest: seq<Message>)
    ensures AllCalls([m] + rest) == Calls(m) + AllCalls(rest)
    ensures AllResults([m] + rest) == Results(m) + AllResults(rest)
    ensures IsEmpty(m) ==> AllCalls([m] + rest) == AllCalls(rest) && AllResults([m] + rest) == AllResults(rest)
  {
    assert ([m] + rest)[1..] == rest;
  }

  lemma {:induction false} WithoutEmptyKeepsIds(msgs: seq<Message>)
    ensures AllCalls(WithoutEmpty(msgs)) == AllCalls(msgs) && AllResults(WithoutEmpty(msgs)) == AllResults(msgs)
  {
    if msgs != [] {
      WithoutEmptyKeepsIds(msgs[1..]);
      assert msgs == [msgs[0]] + msgs[1..];
      IdsFront(msgs[0], WithoutEmpty(msgs[1..]));
      IdsFront(msgs[0], msgs[1..]);
    }
  }

  // ----- A stripped run

  lemma {:induction false} StripRunCalls(msgs: seq<Message>, keep: set<Id>)
    requires CarriersNotAssistant(msgs)
    ensures CallsLeft(StripRun(msgs, keep)) == CallsLeft(msgs)
  {
    if msgs != [] && IsCarrier(msgs[0]) {
      assert msgs == [msgs[0]] + msgs[1..] && msgs[0] in msgs;
      StripRunHead(msgs, keep);
      KeepResultsShape(msgs[0].content.blocks, keep);
      StripRunCalls(msgs[1..], keep);
    }
  }

  /** The results of a run, one carrier at a time. */
  lemma RunResultsFront(msgs: seq<Message>)
    requires msgs != [] && IsCarrier(msgs[0])
    ensures AllResults(msgs[..RunLength(msgs)]) == Results(msgs[0]) + AllResults(msgs[1..][..RunLength(msgs[1..])])
    ensures Behind(msgs) == Behind(msgs[1..])
  {
    var rest := msgs[1..];
    assert msgs[..RunLength(msgs)] == [msgs[0]] + rest[..RunLength(rest)];
    IdsFront(msgs[0], rest[..RunLength(rest)]);
  }

  lemma StripRunResultsFront(msgs: seq<Message>, keep: set<Id>)
    requires CarriersNotAssistant(msgs) && msgs != [] && IsCarrier(msgs[0])
    ensures ResultsLeft(StripRun(msgs, keep)) == Only(Results(msgs[0]), keep) + ResultsLeft(StripRun(msgs[1..], keep))
  {
    assert msgs[0] in msgs;
    StripRunHead(msgs, keep);
    KeepResultsShape(msgs[0].content.blocks, keep);
  }

  lemma {:induction false} StripRunResults(msgs: seq<Message>, keep: set<Id>)
    requires CarriersNotAssistant(msgs)
    ensures ResultsLeft(StripRun(msgs, keep)) ==
            Only(AllResults(msgs[..RunLength(msgs)]), keep) + ResultsLeft(Behind(msgs))
  {
    if msgs != [] && IsCarrier(msgs[0]) {
      var rest := msgs[1..];
      assert msgs == [msgs[0]] + rest;
      StripRunResults(rest, keep);
      StripRunResultsFront(msgs, keep);
      RunResultsFront(msgs);
      OnlyConcat(Results(msgs[0]), AllResults(rest[..RunLength(rest)]), keep);
      Assoc(Only(Results(msgs[0]), keep), Only(AllResults(rest[..RunLength(rest)]), keep), ResultsLeft(Behind(rest)));
    } else {
      assert msgs[..RunLength(msgs)] == [] && Behind(msgs) == msgs;
      assert [] + ResultsLeft(msgs) == ResultsLeft(msgs);
    }
  }

  lemma {:induction false} RunAnswers(msgs: seq<Message>)
    ensures Elems(AllResults(msgs[..RunLength(msgs)])) == Answered(msgs)
  {
    if msgs != [] && IsCarrier(msgs[0]) {
      RunAnswers(msgs[1..]);
      assert msgs[..RunLength(msgs)] == [msgs[0]] + msgs[1..][..RunLength(msgs[1..])];
      IdsFront(msgs[0], msgs[1..][..RunLength(msgs[1..])]);
    } else {
      assert msgs[..RunLength(msgs)] == [];
    }
  }

  // ----- The theorem

  lemma {:induction false} WalkCalls(msgs: seq<Message>)
    requires CarriersNotAssistant(msgs)
    ensures AllCalls(Walk(msgs)) == CallsLeft(msgs)
    decreases |msgs|
  {
    if msgs != [] {
      var m, rest := msgs[0], msgs[1..];
      assert msgs == [m] + rest;
      NeedsStripIff(m, rest);
      if !NeedsStrip(m, rest) {
        WalkCalls(rest);
        IdsFront(m, Walk(rest));
        if m.role == "assistant" && Calls(m) != [] {
          OnlyAll(Calls(m), Answered(rest));
        }
      } else {
        var keep := Retained(m, rest);
        StripRunSettled(rest, keep);
        WalkCalls(StripRun(rest, keep));
        StripRunCalls(rest, keep);
        IdsFront(StrippedCaller(m, rest), Walk(StripRun(rest, keep)));
        StrippedCallerKeeps(m, rest);
        OnlyAgree(Calls(m), keep, Answered(rest));
      }
    }
  }

  lemma {:induction false} WalkResults(msgs: seq<Message>)
    requires CarriersNotAssistant(msgs)
    ensures AllResults(Walk(msgs)) == ResultsLeft(msgs)
    decreases |msgs|
  {
    if msgs != [] {
      var m, rest := msgs[0], msgs[1..];
      assert msgs == [m] + rest;
      NeedsStripIff(m, rest);
      if !NeedsStrip(m, rest) {
        WalkResults(rest);
        IdsFront(m, Walk(rest));
      } else {
        var keep := Retained(m, rest);
        StripRunSettled(rest, keep);
        WalkResults(StripRun(rest, keep));
        StripRunResults(rest, keep);
        RunAnswers(rest);
        OnlyAgree(AllResults(rest[..RunLength(rest)]), keep, Elems(Calls(m)));
        StrippedCallerHasNoResults(m, rest);
        IdsFront(StrippedCaller(m, rest), Walk(StripRun(rest, keep)));
      }
    }
  }

  lemma StrippedCallerHasNoResults(m: Message, rest: seq<Message>)
    requires NeedsStrip(m, rest) && !IsCarrier(m)
    ensures Results(StrippedCaller(m, rest)) == []
  {
    CarrierHasResults(m);
    KeepCallsShape(BlocksOf(m), Retained(m, rest));
  }

  /**
   * For every log whose carriers are not assistant messages: the calls left are those of each assistant
   * message that are answered in the run right behind it, and the results left are all but those in the run
   * of a broken caller that answer none of its calls; both in their order.
   */
  lemma SanitizedLeaves(msgs: seq<Message>)
    requires CarriersNotAssistant(msgs)
    ensures AllCalls(Sanitized(msgs)) == CallsLeft(msgs) && AllResults(Sanitized(msgs)) == ResultsLeft(msgs)
  {
    WalkCalls(msgs);
    WalkResults(msgs);
    WithoutEmptyKeepsIds(Walk(msgs));
  }
}
