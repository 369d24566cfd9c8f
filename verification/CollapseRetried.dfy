/**
 * A failure that was retried successfully at once and stays all the same.
 *
 * Only the last success of a signature counts, so a repetition of the call behind a user turn hides the
 * retry in front of it.
 */
module CollapseRetried {
  import opened Common
  import opened Ids
  import opened MessageLog
  import opened Supersede
  import opened Collapse
  import opened CollapseExact
  import T = Text

  function Made(id: Id): Message {
    Message("assistant", Blocks([ToolUse(id, "shell", Input("{}", None))]))
  }

  function Came(id: Id, isError: bool): Message {
    Message("user", Blocks([ToolResult(id, if isError then "no" else "ok", isError)]))
  }

  const TURN := Message("user", Prose("again"))

  /** A call that fails, its retry, a user turn, and the same call once more. */
  const LOG := [Made("a"), Came("a", true), Made("b"), Came("b", false), TURN, Made("c"), Came("c", false)]

  lemma MadeIds(id: Id)
    ensures Calls(Made(id)) == [id] && Results(Made(id)) == [] && !IsCarrier(Made(id))
  {
    var b := ToolUse(id, "shell", Input("{}", None));
    BlocksCons(b, []);
    assert [b] + [] == BlocksOf(Made(id));
    assert [id] + [] == [id];
  }

  lemma CameIds(id: Id, isError: bool)
    ensures Calls(Came(id, isError)) == [] && Results(Came(id, isError)) == [id] && IsCarrier(Came(id, isError))
    ensures PureCarrier(Came(id, isError))
  {
    var b := Came(id, isError).content.blocks[0];
    BlocksCons(b, []);
    assert [b] + [] == BlocksOf(Came(id, isError));
    assert [id] + [] == [id];
    assert b in Came(id, isError).content.blocks;
  }

  lemma CallerPairs(m: Message, id: Id, rest: seq<Message>)
    requires m.role == "assistant" && !IsCarrier(m) && Calls(m) == [id] && Paired(rest, {id})
    ensures Paired([m] + rest, {}) && AllCalls([m] + rest) == [id] + AllCalls(rest)
  {
    assert ([m] + rest)[1..] == rest;
    assert Elems([id]) == {id};
  }

  lemma CarrierPairs(m: Message, id: Id, rest: seq<Message>)
    requires IsCarrier(m) && PureCarrier(m) && Calls(m) == [] && Results(m) == [id] && Paired(rest, {})
    ensures Paired([m] + rest, {id}) && AllCalls([m] + rest) == AllCalls(rest)
  {
    assert ([m] + rest)[1..] == rest;
    assert Elems([id]) == {id} && {id} - {id} == {};
    assert [] + AllCalls(rest) == AllCalls(rest);
  }

  /** An exchange in front of a paired log leaves it paired. */
  lemma ExchangePairs(id: Id, isError: bool, rest: seq<Message>)
    requires Paired(rest, {})
    ensures Paired([Made(id)] + ([Came(id, isError)] + rest), {})
    ensures AllCalls([Made(id)] + ([Came(id, isError)] + rest)) == [id] + AllCalls(rest)
  {
    MadeIds(id);
    CameIds(id, isError);
    CarrierPairs(Came(id, isError), id, rest);
    CallerPairs(Made(id), id, [Came(id, isError)] + rest);
  }

  lemma TurnPairs(rest: seq<Message>)
    requires Paired(rest, {})
    ensures Paired([TURN] + rest, {}) && AllCalls([TURN] + rest) == AllCalls(rest)
  {
    assert ([TURN] + rest)[1..] == rest;
    assert Elems(Calls(TURN)) == {} && [] + AllCalls(rest) == AllCalls(rest);
  }

  lemma LogIsPaired()
    ensures Paired(LOG, {}) && AllCalls(LOG) == ["a", "b", "c"]
  {
    var repeated := [Made("c")] + ([Came("c", false)] + []);
    var retried := [Made("b")] + ([Came("b", false)] + ([TURN] + repeated));
    RetryIsPaired(repeated);
    ExchangePairs("a", true, retried);
    LogIs();
  }

  lemma RetryIsPaired(repeated: seq<Message>)
    requires repeated == [Made("c")] + ([Came("c", false)] + [])
    ensures var retried := [Made("b")] + ([Came("b", false)] + ([TURN] + repeated));
            Paired(retried, {}) && AllCalls(retried) == ["b", "c"]
  {
    ExchangePairs("c", false, []);
    TurnPairs(repeated);
    ExchangePairs("b", false, [TURN] + repeated);
  }

  lemma LogIs()
    ensures LOG == [Made("a")] + ([Came("a", true)] + ([Made("b")] + ([Came("b", false)] +
                     ([TURN] + ([Made("c")] + ([Came("c", false)] + []))))))
  {
  }

  lemma SucceededAt(at: nat, id: Id)
    requires (at == 2 && id == "b") || (at == 5 && id == "c")
    ensures Succeeded(LOG, Call(at, Signature("shell", Input("{}", None)), "shell"))
  {
    var use := ToolUse(id, "shell", Input("{}", None));
    var result := Came(id, false).content.blocks[0];
    assert use in BlocksOf(LOG[at]);
    assert result in BlocksOf(LOG[at + 1]) && LOG[at + 1] in LOG;
    assert CalledAt(LOG, Call(at, Signature("shell", Input("{}", None)), "shell"), id);
    assert HasResult(LOG, id, false);
  }

  /** Calls of the log all share one signature, and none stands behind the last. */
  lemma CallsOfLog(c: Call, id: Id)
    requires CalledAt(LOG, c, id)
    ensures c.signature == Signature("shell", Input("{}", None)) && c.at <= 5 && (id == "a" ==> c.at == 0)
  {
  }

  /** The failed call was retried successfully right behind it, and is not dropped. */
  lemma RetriedFailureStays()
    ensures Paired(LOG, {}) && Distinct(AllCalls(LOG)) && !IsRetryable("no")
    ensures FailedAs(LOG, "a", Call(0, Signature("shell", Input("{}", None)), "shell"), "no")
    ensures Succeeded(LOG, Call(2, Signature("shell", Input("{}", None)), "shell")) && !RealUserTurnBetween(LOG, 0, 2)
    ensures "a" !in SupersededIds(LOG, IsRetryable)
  {
    NoIsNotRetryable();
    FailureStays(IsRetryable);
  }

  lemma NoIsNotRetryable()
    ensures !IsRetryable("no")
  {
    assert T.LowerUnicode("no") == "no" by { assert "no"[1..] == "o" && "o"[1..] == ""; }
  }

  lemma FailureStays(retry: string -> bool)
    requires !retry("no")
    ensures Paired(LOG, {}) && Distinct(AllCalls(LOG))
    ensures FailedAs(LOG, "a", Call(0, Signature("shell", Input("{}", None)), "shell"), "no")
    ensures Succeeded(LOG, Call(2, Signature("shell", Input("{}", None)), "shell")) && !RealUserTurnBetween(LOG, 0, 2)
    ensures "a" !in SupersededIds(LOG, retry)
  {
    LogIsPaired();
    DroppedIff(LOG, "a", retry);
    SucceededAt(2, "b");
    SucceededAt(5, "c");
    FailureOfLog();
    forall failed, ok, content | FailedAs(LOG, "a", failed, content)
      ensures !Supersedes(LOG, failed, ok, content, retry)
    {
      NothingSupersedes(failed, ok, content, retry);
    }
  }

  lemma FailureOfLog()
    ensures FailedAs(LOG, "a", Call(0, Signature("shell", Input("{}", None)), "shell"), "no")
    ensures !RealUserTurnBetween(LOG, 0, 2)
  {
    CameIds("a", true);
    assert ToolUse("a", "shell", Input("{}", None)) in BlocksOf(LOG[0]);
    assert Came("a", true).content.blocks[0] in BlocksOf(LOG[1]) && LOG[1] in LOG;
    assert CalledAt(LOG, Call(0, Signature("shell", Input("{}", None)), "shell"), "a");
  }

  lemma NothingSupersedes(failed: Call, ok: Call, content: string, retry: string -> bool)
    requires !retry("no") && FailedAs(LOG, "a", failed, content)
    ensures !Supersedes(LOG, failed, ok, content, retry)
  {
    CallsOfLog(failed, "a");
    SucceededAt(5, "c");
    assert content == "no";
    if Succeeded(LOG, ok) && IsLastSuccess(LOG, ok) {
      var id :| CalledAt(LOG, ok, id) && HasResult(LOG, id, false);
      CallsOfLog(ok, id);
      assert ok.at == 5;
      assert LOG[4] == TURN && RealUserTurnBetween(LOG, 0, 5);
    }
  }
}
