/**
 * Exactly when sanitising keeps its promise on logs whose carriers may mix results with other blocks.
 *
 * A mixed carrier that answers no kept call loses its results but stays in the log, so it cuts the run in
 * two; the calls answered only behind it are left without an answer.
 */
module SanitizeMixed {
  import opened Common
  import opened Ids
  import opened MessageLog
  import opened Sanitize

  predicate CarriersNotAssistant(msgs: seq<Message>) {
    forall m :: m in msgs && IsCarrier(m) ==> m.role != "assistant"
  }

  predicate Mixed(m: Message) {
    IsCarrier(m) && exists b :: b in m.content.blocks && !b.ToolResult?
  }

  /**
   * Reading the run in order, every call in `need` is answered before any mixed carrier that answers no call in
   * `keep`.
   */
  predicate Reaches(run: seq<Message>, keep: set<Id>, need: set<Id>) {
    need == {} ||
    (run != [] && IsCarrier(run[0]) &&
     var hit := Elems(Results(run[0])) * keep;
     !(hit == {} && Mixed(run[0])) && Reaches(run[1..], keep, need - hit))
  }

  /** The check a caller can make before sanitising. */
  predicate Unbroken(msgs: seq<Message>) {
    msgs != [] ==>
      && (NeedsStrip(msgs[0], msgs[1..]) ==>
            Reaches(msgs[1..], Retained(msgs[0], msgs[1..]), Retained(msgs[0], msgs[1..])))
      && Unbroken(msgs[1..])
  }

  lemma StrippedCarrier(m: Message, keep: set<Id>)
    requires IsCarrier(m)
    ensures var b := KeepResults(m.content.blocks, keep);
            var m' := m.(content := Blocks(b));
            && Elems(Results(m')) == Elems(Results(m)) * keep
            && (IsCarrier(m') <==> Elems(Results(m)) * keep != {})
            && (b == [] <==> Elems(Results(m)) * keep == {} && !Mixed(m))
  {
    var b := KeepResults(m.content.blocks, keep);
    var m' := m.(content := Blocks(b));
    KeepResultsIds(m.content.blocks, keep);
    KeepResultsKeepsOthers(m.content.blocks, keep);
    CarrierHasResults(m');
    assert Results(m') != [] ==> Results(m')[0] in Elems(Results(m'));
    if b != [] && !Mixed(m) {
      assert b[0] in m.content.blocks;
      assert IsCarrier(m') by { assert b[0].ToolResult? && b[0] in b; }
    }
  }

  lemma {:induction false} KeepResultsKeepsOthers(blocks: seq<Block>, keep: set<Id>)
    ensures forall b :: b in blocks && !b.ToolResult? ==> b in KeepResults(blocks, keep)
  {
    if blocks != [] {
      KeepResultsKeepsOthers(blocks[1..], keep);
      assert blocks == [blocks[0]] + blocks[1..];
    }
  }

  lemma StripRunHead(msgs: seq<Message>, keep: set<Id>)
    requires msgs != [] && IsCarrier(msgs[0])
    ensures var b := KeepResults(msgs[0].content.blocks, keep);
            var m' := msgs[0].(content := Blocks(b));
            && (b == [] ==> StripRun(msgs, keep) == StripRun(msgs[1..], keep))
            && (b != [] ==> StripRun(msgs, keep) == [m'] + StripRun(msgs[1..], keep)
                            && StripRun(msgs, keep)[1..] == StripRun(msgs[1..], keep))
  {
  }

  /** Reaching the needed answers is the same as their surviving the strip. */
  lemma {:induction false} ReachesIff(msgs: seq<Message>, keep: set<Id>, need: set<Id>)
    requires need <= keep
    ensures Reaches(msgs, keep, need) <==> need <= Answered(StripRun(msgs, keep))
  {
    if msgs != [] && IsCarrier(msgs[0]) {
      var hit := Elems(Results(msgs[0])) * keep;
      StripRunHead(msgs, keep);
      StrippedCarrier(msgs[0], keep);
      ReachesIff(msgs[1..], keep, need - hit);
    }
  }

  /** What is left for the walk behind a stripped run is as unbroken as before. */
  lemma {:induction false} StripRunUnbroken(msgs: seq<Message>, keep: set<Id>)
    requires CarriersNotAssistant(msgs)
    ensures CarriersNotAssistant(StripRun(msgs, keep))
    ensures Unbroken(StripRun(msgs, keep)) == Unbroken(msgs)
  {
    if msgs != [] && IsCarrier(msgs[0]) {
      assert msgs == [msgs[0]] + msgs[1..];
      StripRunHead(msgs, keep);
      StripRunUnbroken(msgs[1..], keep);
    }
  }

  /** Answers at the head of a log survive the rest of the pass. */
  lemma {:induction false} AnswersSurvive(msgs: seq<Message>)
    requires CarriersNotAssistant(msgs)
    ensures Answered(msgs) <= Answered(Sanitized(msgs))
  {
    if msgs != [] && IsCarrier(msgs[0]) {
      assert msgs == [msgs[0]] + msgs[1..];
      AnswersSurvive(msgs[1..]);
      SanitizedCons(msgs);
    }
  }

  lemma SanitizedCons(msgs: seq<Message>)
    requires msgs != [] && !NeedsStrip(msgs[0], msgs[1..]) && !IsEmpty(msgs[0])
    ensures Sanitized(msgs) == [msgs[0]] + Sanitized(msgs[1..]) && Sanitized(msgs)[1..] == Sanitized(msgs[1..])
  {
    assert Walk(msgs)[1..] == Walk(msgs[1..]);
  }

  /** A cut run stays cut: nothing later in the pass joins it up again. */
  lemma {:induction false} CutRunStaysCut(msgs: seq<Message>, keep: set<Id>, need: set<Id>)
    requires CarriersNotAssistant(msgs)
    requires need <= keep * Answered(msgs) && !Reaches(msgs, keep, need)
    ensures Answered(Sanitized(StripRun(msgs, keep))) == Answered(StripRun(msgs, keep))
  {
    var m := msgs[0];
    var hit := Elems(Results(m)) * keep;
    var b := KeepResults(m.content.blocks, keep);
    assert msgs == [m] + msgs[1..];
    StripRunHead(msgs, keep);
    StrippedCarrier(m, keep);
    if b != [] {
      SanitizedCons(StripRun(msgs, keep));
    }
    if !(hit == {} && Mixed(m)) {
      CutRunStaysCut(msgs[1..], keep, need - hit);
    }
  }

  /** For logs whose carriers are not assistant messages: every call ends up answered if and only if no run is cut. */
  lemma {:induction false} SanitizedIsAnsweredIff(msgs: seq<Message>)
    requires CarriersNotAssistant(msgs)
    ensures AllAnswered(Sanitized(msgs)) <==> Unbroken(msgs)
    decreases |msgs|
  {
    if msgs != [] {
      var m, rest := msgs[0], msgs[1..];
      assert msgs == [m] + rest;
      NeedsStripIff(m, rest);
      if !NeedsStrip(m, rest) {
        SanitizedIsAnsweredIff(rest);
        AnswersSurvive(rest);
        assert Walk(msgs)[1..] == Walk(rest);
        if !IsEmpty(m) {
          SanitizedCons(msgs);
        }
      } else {
        StripCase(m, rest);
        SanitizedIsAnsweredIff(StripRun(rest, Retained(m, rest)));
      }
    }
  }

  lemma StripCase(m: Message, rest: seq<Message>)
    requires CarriersNotAssistant(rest) && NeedsStrip(m, rest)
    ensures var keep := Retained(m, rest);
            var rest' := StripRun(rest, keep);
            && CarriersNotAssistant(rest')
            && Unbroken(rest') == Unbroken(rest)
            && (AllAnswered(Sanitized([m] + rest)) <==> Reaches(rest, keep, keep) && AllAnswered(Sanitized(rest')))
  {
    var keep := Retained(m, rest);
    var m', rest' := StrippedCaller(m, rest), StripRun(rest, keep);
    assert ([m] + rest)[1..] == rest;
    StripRunUnbroken(rest, keep);
    KeepCallsIds(BlocksOf(m), keep);
    ReachesIff(rest, keep, keep);
    AnswersSurvive(rest');
    if IsEmpty(m') {
      assert Elems(CallsOf([])) == {};
    } else {
      assert ([m'] + Walk(rest'))[1..] == Walk(rest');
      assert Sanitized([m] + rest) == [m'] + Sanitized(rest');
      assert Sanitized([m] + rest)[1..] == Sanitized(rest');
      if !Reaches(rest, keep, keep) {
        CutRunStaysCut(rest, keep, keep);
      }
    }
  }

  // ----- The three ways the unrestricted promise fails

  function Ask(id: Id): Block { ToolUse(id, "shell", Input("{}", None)) }

  function Answer(id: Id): Block { ToolResult(id, "ok", false) }

  const CALLER := Message("assistant", Blocks([Ask("a"), Ask("b")]))
  const NOTE := Message("user", Blocks([TextBlock("note"), Answer("x")]))

  lemma CallerIds()
    ensures Calls(CALLER) == ["a", "b"] && Elems(Calls(CALLER)) == {"a", "b"} && Distinct(Calls(CALLER))
    ensures Elems(Results(NOTE)) == {"x"} && Elems(Results(REPLY)) == {"a"}
    ensures IsCarrier(NOTE) && Mixed(NOTE) && IsCarrier(REPLY) && !IsCarrier(CALLER)
  {
    assert CALLER.content.blocks[1..] == [Ask("b")] && [Ask("b")][1..] == [];
    assert NOTE.content.blocks[1..] == [Answer("x")] && [Answer("x")][1..] == [];
    assert Results(NOTE) == ["x"];
    assert NOTE.content.blocks[1] in NOTE.content.blocks && NOTE.content.blocks[0] in NOTE.content.blocks;
    assert Elems(["a", "b"]) == {"a", "b"};
    RepeaterIds();
  }

  /** A mixed carrier cuts the run: call "a" was answered, and is not any more. */
  lemma MixedCarrierBreaksPairing()
    ensures CarriersNotAssistant([CALLER, NOTE, REPLY]) && !AllAnswered(Sanitized([CALLER, NOTE, REPLY]))
  {
    CallerIds();
    var log, rest := [CALLER, NOTE, REPLY], [NOTE, REPLY];
    assert log[1..] == rest && rest[1..] == [REPLY] && [REPLY][1..] == [];
    assert Answered([REPLY]) == {"a"};
    assert Answered(rest) == {"x", "a"};
    assert Retained(CALLER, rest) == {"a"};
    assert NeedsStrip(CALLER, rest);
    assert Elems(Results(NOTE)) * {"a"} == {};
    assert !Reaches(rest, {"a"}, {"a"});
    assert !Unbroken(log);
    SanitizedIsAnsweredIff(log);
  }

  const REPEATER := Message("assistant", Blocks([Ask("a"), Ask("a")]))
  const REPLY := Message("user", Blocks([Answer("a")]))
  const ORPHAN := Message("user", Blocks([Answer("x")]))

  lemma RepeaterIds()
    ensures Calls(REPEATER) == ["a", "a"] && Elems(Calls(REPEATER)) == {"a"} && !Distinct(Calls(REPEATER))
    ensures Elems(Results(REPLY)) == {"a"} && Elems(Results(ORPHAN)) == {"x"}
    ensures IsCarrier(REPLY) && IsCarrier(ORPHAN)
  {
    assert REPEATER.content.blocks[1..] == [Ask("a")] && [Ask("a")][1..] == [];
    assert REPLY.content.blocks[1..] == [] && ORPHAN.content.blocks[1..] == [];
    assert REPLY.content.blocks[0] in REPLY.content.blocks && ORPHAN.content.blocks[0] in ORPHAN.content.blocks;
    assert Calls(REPEATER)[0] == Calls(REPEATER)[1];
    assert Results(REPLY) == ["a"] && Results(ORPHAN) == ["x"];
  }

  lemma BlankBetweenRunsIsDropped(blank: Message)
    requires blank.role == "user" && blank.content == Prose("")
    ensures Sanitized([REPEATER, REPLY, blank, ORPHAN]) == [REPEATER, REPLY, ORPHAN]
  {
    RepeaterIds();
    var log := [REPEATER, REPLY, blank, ORPHAN];
    assert log[1..] == [REPLY, blank, ORPHAN] && log[1..][1..] == [blank, ORPHAN];
    assert [blank, ORPHAN][1..] == [ORPHAN] && [ORPHAN][1..] == [];
    assert Answered(log[1..]) == {"a"};
    assert Settled([ORPHAN]) && Settled([blank, ORPHAN]);
    assert Settled(log[1..][1..]);
    assert Settled(log[1..]);
    assert Settled(log);
    WalkWeight(log);
    assert IsEmpty(blank);
    assert WithoutEmpty([ORPHAN]) == [ORPHAN] && WithoutEmpty([blank, ORPHAN]) == [ORPHAN];
    assert WithoutEmpty(log[1..]) == [REPLY, ORPHAN];
  }

  /** Idempotence fails when ids repeat and a blank message separates two runs: the joined run is stripped next time. */
  lemma RepeatedIdsBreakIdempotence(blank: Message)
    requires blank.role == "user" && blank.content == Prose("")
    ensures var log := [REPEATER, REPLY, blank, ORPHAN];
            PureCarriers(log) && Sanitized(Sanitized(log)) != Sanitized(log)
  {
    RepeaterIds();
    BlankBetweenRunsIsDropped(blank);
    var out := [REPEATER, REPLY, ORPHAN];
    assert out[1..] == [REPLY, ORPHAN] && out[1..][1..] == [ORPHAN];
    assert "x" in Answered([ORPHAN]);
    assert "x" in Answered(out[1..]) && "x" !in Elems(Calls(REPEATER));
    assert !Settled(out);
    SanitizedIsIdentityIff(out);
  }
}
