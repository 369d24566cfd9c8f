/**
 * Exactly when sanitising a log twice is sanitising it once.
 *
 * Removing blank messages and emptied callers can join a run of carriers to a caller in front of it, and a
 * mixed carrier that loses its results cuts a run in two. The next pass looks again at a caller that keeps an
 * id twice, or that is left with a call its run no longer answers.
 */
module SanitizeTwice {
  import opened Common
  import opened Ids
  import opened MessageLog
  import opened Sanitize
  import opened SanitizeMixed

  /** What follows the run of carriers at the head of a log. */
  function Behind(msgs: seq<Message>): (r: seq<Message>)
    ensures |r| <= |msgs|
  {
    msgs[RunLength(msgs)..]
  }

  /** A caller none of whose calls is answered, and that holds nothing else. */
  predicate Vanishes(m: Message, rest: seq<Message>) {
    NeedsStrip(m, rest) && IsEmpty(StrippedCaller(m, rest))
  }

  /**
   * The ids answered by the carriers the head of a log is joined to: those at its head, and those behind
   * blank messages and vanishing callers, whose own runs vanish with them unless a mixed carrier stays.
   */
  function Joined(msgs: seq<Message>): set<Id>
    decreases |msgs|, 0
  {
    if msgs == [] then {}
    else
      var m, rest := msgs[0], msgs[1..];
      if IsCarrier(m) then Elems(Results(m)) + Joined(rest)
      else if IsEmpty(m) then Joined(rest)
      else if Vanishes(m, rest) then JoinedKeeping(rest, {})
      else {}
  }

  /** The same once the run at the head is stripped of what is not in `keep`. */
  function JoinedKeeping(msgs: seq<Message>, keep: set<Id>): set<Id>
    decreases |msgs|, 1
  {
    if msgs == [] || !IsCarrier(msgs[0]) then Joined(msgs)
    else
      var hit := Elems(Results(msgs[0])) * keep;
      if hit == {} && Mixed(msgs[0]) then {} else hit + JoinedKeeping(msgs[1..], keep)
  }

  /** A caller that keeps some call twice. */
  predicate KeepsRepeated(m: Message, rest: seq<Message>) {
    NeedsStrip(m, rest) && !Distinct(Only(Calls(m), Retained(m, rest)))
  }

  /**
   * The check a caller can make before sanitising: the run left to a stripped caller answers the calls the
   * caller keeps and, if it keeps one of them twice, answers nothing else.
   */
  predicate StaysSettled(msgs: seq<Message>) {
    msgs != [] ==>
      && LeftSettled(msgs[0], msgs[1..])
      && StaysSettled(msgs[1..])
  }

  predicate LeftSettled(m: Message, rest: seq<Message>) {
    NeedsStrip(m, rest) ==>
      && Retained(m, rest) <= JoinedKeeping(rest, Retained(m, rest))
      && (KeepsRepeated(m, rest) ==> JoinedKeeping(rest, Retained(m, rest)) <= Retained(m, rest))
  }

  // ----- Stripping a run and what is joined to it

  lemma {:induction false} JoinedContainsAnswered(msgs: seq<Message>)
    ensures Answered(msgs) <= Joined(msgs)
  {
    if msgs != [] && IsCarrier(msgs[0]) {
      JoinedContainsAnswered(msgs[1..]);
    }
  }

  /** The head of a stripped run: a carrier that keeps results, nothing, or a message that cuts the run. */
  lemma JoinedStripHead(msgs: seq<Message>, keep: set<Id>)
    requires CarriersNotAssistant(msgs) && msgs != [] && IsCarrier(msgs[0])
    ensures var hit := Elems(Results(msgs[0])) * keep;
            Joined(StripRun(msgs, keep)) ==
            if hit == {} && Mixed(msgs[0]) then {} else hit + Joined(StripRun(msgs[1..], keep))
  {
    assert msgs[0] in msgs;
    StripRunHead(msgs, keep);
    StrippedCarrier(msgs[0], keep);
  }

  lemma {:induction false} JoinedStripRun(msgs: seq<Message>, keep: set<Id>)
    requires CarriersNotAssistant(msgs)
    ensures Joined(StripRun(msgs, keep)) == JoinedKeeping(msgs, keep)
  {
    if msgs != [] && IsCarrier(msgs[0]) {
      assert msgs == [msgs[0]] + msgs[1..];
      JoinedStripRun(msgs[1..], keep);
      JoinedStripHead(msgs, keep);
    }
  }

  lemma {:induction false} StripRunSettled(msgs: seq<Message>, keep: set<Id>)
    requires CarriersNotAssistant(msgs)
    ensures CarriersNotAssistant(StripRun(msgs, keep))
    ensures StaysSettled(StripRun(msgs, keep)) == StaysSettled(msgs)
  {
    if msgs != [] && IsCarrier(msgs[0]) {
      assert msgs == [msgs[0]] + msgs[1..];
      StripRunHead(msgs, keep);
      StripRunSettled(msgs[1..], keep);
    }
  }

  // ----- What sanitising leaves at the head of a log

  /** The caller a stripped message becomes. */
  lemma StrippedCallerKeeps(m: Message, rest: seq<Message>)
    requires NeedsStrip(m, rest)
    ensures var m' := StrippedCaller(m, rest);
            && Calls(m') == Only(Calls(m), Retained(m, rest))
            && Elems(Calls(m')) == Retained(m, rest)
            && (IsEmpty(m') ==> Retained(m, rest) == {} && Only(Calls(m), Retained(m, rest)) == [])
  {
    KeepCallsShape(BlocksOf(m), Retained(m, rest));
    OnlyElems(Calls(m), Retained(m, rest));
  }

  lemma SanitizedStripped(m: Message, rest: seq<Message>)
    requires NeedsStrip(m, rest)
    ensures var m', rest' := StrippedCaller(m, rest), StripRun(rest, Retained(m, rest));
            if IsEmpty(m') then Sanitized([m] + rest) == Sanitized(rest')
            else Sanitized([m] + rest) == [m'] + Sanitized(rest') && Sanitized([m] + rest)[1..] == Sanitized(rest')
  {
    var m', rest' := StrippedCaller(m, rest), StripRun(rest, Retained(m, rest));
    assert ([m] + rest)[1..] == rest;
    assert ([m'] + Walk(rest'))[1..] == Walk(rest');
  }

  lemma SanitizedUnstripped(msgs: seq<Message>)
    requires msgs != [] && !NeedsStrip(msgs[0], msgs[1..])
    ensures IsEmpty(msgs[0]) ==> Sanitized(msgs) == Sanitized(msgs[1..])
    ensures !IsEmpty(msgs[0]) ==>
              Sanitized(msgs) == [msgs[0]] + Sanitized(msgs[1..]) && Sanitized(msgs)[1..] == Sanitized(msgs[1..])
  {
    assert Walk(msgs)[1..] == Walk(msgs[1..]);
  }

  lemma CallerStays(m: Message, rest: seq<Message>)
    requires NeedsStrip(m, rest) && !IsCarrier(m)
    ensures !IsEmpty(m) && !IsCarrier(StrippedCaller(m, rest))
  {
    CarrierHasResults(m);
    CarrierHasResults(StrippedCaller(m, rest));
    KeepCallsShape(BlocksOf(m), Retained(m, rest));
  }

  /** The joined ids are what the head of the sanitised log answers. */
  lemma {:induction false} JoinedIsAnswered(msgs: seq<Message>)
    requires CarriersNotAssistant(msgs)
    ensures Joined(msgs) == Answered(Sanitized(msgs))
    decreases |msgs|
  {
    if msgs != [] {
      var m, rest := msgs[0], msgs[1..];
      assert msgs == [m] + rest;
      assert CarriersNotAssistant(rest);
      if !NeedsStrip(m, rest) {
        JoinedIsAnswered(rest);
        SanitizedUnstripped(msgs);
      } else {
        SanitizedStripped(m, rest);
        StrippedCallerKeeps(m, rest);
        CallerStays(m, rest);
        StripRunSettled(rest, Retained(m, rest));
        JoinedStripRun(rest, Retained(m, rest));
        JoinedIsAnswered(StripRun(rest, Retained(m, rest)));
      }
    }
  }

  // ----- The theorem

  lemma {:induction false} SettledIff(msgs: seq<Message>)
    requires CarriersNotAssistant(msgs)
    ensures Settled(Sanitized(msgs)) <==> StaysSettled(msgs)
    decreases |msgs|
  {
    if msgs != [] {
      var m, rest := msgs[0], msgs[1..];
      assert msgs == [m] + rest;
      assert CarriersNotAssistant(rest);
      if !NeedsStrip(m, rest) {
        SettledIff(rest);
        SanitizedUnstripped(msgs);
        NeedsStripIff(m, rest);
        JoinedIsAnswered(rest);
        JoinedContainsAnswered(rest);
      } else {
        StrippedSettledIff(m, rest);
        StripRunSettled(rest, Retained(m, rest));
        SettledIff(StripRun(rest, Retained(m, rest)));
      }
    }
  }

  /** A stripped caller is settled in the result if and only if the run left to it fits what it keeps. */
  lemma StrippedSettledIff(m: Message, rest: seq<Message>)
    requires CarriersNotAssistant(rest) && NeedsStrip(m, rest)
    ensures Settled(Sanitized([m] + rest)) <==>
            Settled(Sanitized(StripRun(rest, Retained(m, rest)))) && LeftSettled(m, rest)
  {
    var keep := Retained(m, rest);
    SanitizedStripped(m, rest);
    StrippedCallerKeeps(m, rest);
    StripRunSettled(rest, keep);
    JoinedIsAnswered(StripRun(rest, keep));
    JoinedStripRun(rest, keep);
  }

  lemma {:induction false} NothingBlank(msgs: seq<Message>)
    ensures NoneEmpty(WithoutEmpty(msgs))
  {
    if msgs != [] {
      NothingBlank(msgs[1..]);
    }
  }

  /**
   * For every log whose carriers are not assistant messages, mixed or not: sanitising twice is sanitising
   * once if and only if the run left to each stripped caller answers the calls the caller keeps and, if it
   * keeps one of them twice, nothing else.
   */
  lemma SanitizedTwiceIff(msgs: seq<Message>)
    requires CarriersNotAssistant(msgs)
    ensures Sanitized(Sanitized(msgs)) == Sanitized(msgs) <==> StaysSettled(msgs)
  {
    SettledIff(msgs);
    NothingBlank(Walk(msgs));
    SanitizedIsIdentityIff(Sanitized(msgs));
  }

  // ----- Pure carriers: nothing cuts a run, so only what gets joined to it matters

  predicate JoinsHarmlessly(msgs: seq<Message>) {
    msgs != [] ==>
      && (KeepsRepeated(msgs[0], msgs[1..]) ==> Joined(Behind(msgs[1..])) <= Retained(msgs[0], msgs[1..]))
      && JoinsHarmlessly(msgs[1..])
  }

  lemma {:induction false} JoinedKeepingPure(msgs: seq<Message>, keep: set<Id>)
    requires PureCarriers(msgs)
    ensures JoinedKeeping(msgs, keep) == Answered(msgs) * keep + Joined(Behind(msgs))
  {
    if msgs != [] && IsCarrier(msgs[0]) {
      assert msgs == [msgs[0]] + msgs[1..];
      assert PureCarrier(msgs[0]);
      JoinedKeepingPure(msgs[1..], keep);
      assert msgs[1..][RunLength(msgs[1..])..] == msgs[RunLength(msgs)..];
    } else {
      assert Behind(msgs) == msgs;
      assert Answered(msgs) == {};
    }
  }

  lemma {:induction false} StaysSettledPure(msgs: seq<Message>)
    requires PureCarriers(msgs)
    ensures StaysSettled(msgs) <==> JoinsHarmlessly(msgs)
  {
    if msgs != [] {
      var m, rest := msgs[0], msgs[1..];
      assert msgs == [m] + rest;
      StaysSettledPure(rest);
      JoinedKeepingPure(rest, Retained(m, rest));
      assert Retained(m, rest) <= Answered(rest) * Retained(m, rest);
    }
  }

  /**
   * With pure carriers: if and only if the carriers joined to the run of a caller that keeps a call twice
   * answer nothing beyond what that caller keeps.
   */
  lemma PureSanitizedTwiceIff(msgs: seq<Message>)
    requires PureCarriers(msgs)
    ensures Sanitized(Sanitized(msgs)) == Sanitized(msgs) <==> JoinsHarmlessly(msgs)
  {
    assert CarriersNotAssistant(msgs) by { assert forall m :: m in msgs ==> PureCarrier(m); }
    StaysSettledPure(msgs);
    SanitizedTwiceIff(msgs);
  }
}
