/**
 * What collapsing does, told by the tools and inputs of the calls instead of their signatures
 * (collapse_superseded_tool_failures in piscis-kernel/src/agent/message_utils.rs).
 */
module CollapseInputs {
  import opened Common
  import opened Ids
  import opened MessageLog
  import opened Supersede
  import opened Collapse
  import opened CollapseExact
  import opened CallSignatures
  import opened CollapseRetried

  /** A call as it was made: in which message, of which tool, with which input. */
  datatype Use = Use(at: nat, name: string, text: string)

  predicate UsedAt(msgs: seq<Message>, u: Use, id: Id) {
    u.at < |msgs| && exists b :: b in BlocksOf(msgs[u.at]) && b.ToolUse? && b.id == id &&
                                 b.name == u.name && b.input.text == u.text
  }

  /** Every call's input is JSON text. */
  predicate JsonInputsOnly(msgs: seq<Message>) {
    forall m, b :: m in msgs && b in BlocksOf(m) && b.ToolUse? ==> IsJsonLike(b.input.text)
  }

  /** How the collapse records a call. */
  function Recorded(u: Use): Call { Call(u.at, Signature(u.name, InputOf(u.text)), u.name) }

  predicate SameCall(a: Use, b: Use) { a.name == b.name && a.text == b.text }

  lemma UseIsRecorded(msgs: seq<Message>, u: Use, id: Id)
    requires UsedAt(msgs, u, id)
    ensures CalledAt(msgs, Recorded(u), id)
  {
    var b :| b in BlocksOf(msgs[u.at]) && b.ToolUse? && b.id == id && b.name == u.name && b.input.text == u.text;
    SignatureOfText(b.name, b.input);
  }

  lemma RecordIsUse(msgs: seq<Message>, c: Call, id: Id) returns (u: Use)
    requires CalledAt(msgs, c, id)
    ensures UsedAt(msgs, u, id) && Recorded(u) == c
  {
    var b :| b in BlocksOf(msgs[c.at]) && b.ToolUse? && b.id == id && c.tool == b.name
        && c.signature == Signature(b.name, b.input);
    u := Use(c.at, b.name, b.input.text);
    SignatureOfText(b.name, b.input);
  }

  lemma UseIsJson(msgs: seq<Message>, u: Use, id: Id)
    requires JsonInputsOnly(msgs) && UsedAt(msgs, u, id)
    ensures IsJsonLike(u.text)
  {
    assert msgs[u.at] in msgs;
  }

  /** Calls are recorded with one signature exactly when they are calls of one tool with one input. */
  lemma SameSignatureIff(msgs: seq<Message>, a: Use, i: Id, b: Use, j: Id)
    requires JsonInputsOnly(msgs) && UsedAt(msgs, a, i) && UsedAt(msgs, b, j)
    ensures Recorded(a).signature == Recorded(b).signature <==> SameCall(a, b)
  {
    UseIsJson(msgs, a, i);
    UseIsJson(msgs, b, j);
    SignatureIff(a.name, a.text, b.name, b.text);
  }

  /** Between the two messages the user says something: a message of the user's that brings no result. */
  predicate UserSpeaks(msgs: seq<Message>, i: nat, j: nat) {
    exists k :: i < k < j && k < |msgs| && msgs[k].role == "user" &&
                (msgs[k].content.Prose? || forall b :: b in msgs[k].content.blocks ==> !b.ToolResult?)
  }

  // ----- Justification

  ghost predicate UseSucceeded(msgs: seq<Message>, u: Use) {
    exists id :: UsedAt(msgs, u, id) && HasResult(msgs, id, false)
  }

  ghost predicate UseFailed(msgs: seq<Message>, id: Id, u: Use, content: string) {
    UsedAt(msgs, u, id) && exists m, b ::
        m in msgs && b in BlocksOf(m) && b.ToolResult? && b.isError && b.toolUseId == id && b.content == content
  }

  /** A later success of the same tool with the same input, or of the same tool soon after a retryable failure. */
  predicate UseRedundant(msgs: seq<Message>, failed: Use, ok: Use, content: string, retry: string -> bool) {
    && failed.at < ok.at
    && !UserSpeaks(msgs, failed.at, ok.at)
    && ok.name == failed.name
    && (ok.text == failed.text || (retry(content) && ok.at - failed.at <= 6))
  }

  ghost predicate UseJustified(msgs: seq<Message>, id: Id, retry: string -> bool) {
    exists failed, ok, content ::
      UseFailed(msgs, id, failed, content) && UseSucceeded(msgs, ok) && UseRedundant(msgs, failed, ok, content, retry)
  }

  lemma SuccessIsUse(msgs: seq<Message>, c: Call) returns (u: Use, id: Id)
    requires Succeeded(msgs, c)
    ensures UsedAt(msgs, u, id) && HasResult(msgs, id, false) && Recorded(u) == c
  {
    id :| CalledAt(msgs, c, id) && HasResult(msgs, id, false);
    u := RecordIsUse(msgs, c, id);
  }

  lemma UserSpeaksIff(msgs: seq<Message>, i: nat, j: nat)
    ensures UserSpeaks(msgs, i, j) <==> RealUserTurnBetween(msgs, i, j)
  {
  }

  lemma RedundantIsUse(msgs: seq<Message>, id: Id, failed: Call, ok: Call, content: string, retry: string -> bool)
    requires JsonInputsOnly(msgs) && FailedAs(msgs, id, failed, content)
    requires Succeeded(msgs, ok) && Redundant(msgs, failed, ok, content, retry)
    ensures UseJustified(msgs, id, retry)
  {
    var u := RecordIsUse(msgs, failed, id);
    var v, j := SuccessIsUse(msgs, ok);
    SameSignatureIff(msgs, v, j, u, id);
    UserSpeaksIff(msgs, u.at, v.at);
    assert UseFailed(msgs, id, u, content) && UseSucceeded(msgs, v) && UseRedundant(msgs, u, v, content, retry);
  }

  /**
   * On every log with JSON inputs: an id is dropped only if its call failed and a later call of the same
   * tool succeeded, with the same input, or within six messages when the failure was retryable, and the user
   * says nothing between the two.
   */
  lemma EveryDropIsJustifiedByInput(msgs: seq<Message>, id: Id, retry: string -> bool)
    requires JsonInputsOnly(msgs) && id in SupersededIds(msgs, retry)
    ensures UseJustified(msgs, id, retry)
  {
    EveryDropIsJustified(msgs, id, retry);
    var failed, ok, m, b :| && CalledAt(msgs, failed, id)
                            && m in msgs && b in BlocksOf(m) && b.ToolResult? && b.isError && b.toolUseId == id
                            && Succeeded(msgs, ok) && Redundant(msgs, failed, ok, b.content, retry);
    assert FailedAs(msgs, id, failed, b.content);
    RedundantIsUse(msgs, id, failed, ok, b.content, retry);
  }

  // ----- Exactly which failures go

  /** No successful call of the same tool with the same input is later than `ok`. */
  ghost predicate IsLastUse(msgs: seq<Message>, ok: Use) {
    UseSucceeded(msgs, ok) && forall u :: UseSucceeded(msgs, u) && SameCall(u, ok) ==> u.at <= ok.at
  }

  ghost predicate UseSupersedes(msgs: seq<Message>, failed: Use, ok: Use, content: string, retry: string -> bool) {
    && failed.at < ok.at
    && !UserSpeaks(msgs, failed.at, ok.at)
    && ((SameCall(ok, failed) && IsLastUse(msgs, ok)) ||
        (ok.name == failed.name && UseSucceeded(msgs, ok) && retry(content) && ok.at - failed.at <= 6))
  }

  ghost predicate HasSupersededUse(msgs: seq<Message>, id: Id, retry: string -> bool) {
    exists failed, ok, content ::
      UseFailed(msgs, id, failed, content) && UseSupersedes(msgs, failed, ok, content, retry)
  }

  lemma SucceededIff(msgs: seq<Message>, u: Use)
    ensures UseSucceeded(msgs, u) ==> Succeeded(msgs, Recorded(u))
  {
    if UseSucceeded(msgs, u) {
      var id :| UsedAt(msgs, u, id) && HasResult(msgs, id, false);
      UseIsRecorded(msgs, u, id);
    }
  }

  lemma LastUseIff(msgs: seq<Message>, ok: Use, id: Id)
    requires JsonInputsOnly(msgs) && UsedAt(msgs, ok, id) && HasResult(msgs, id, false)
    ensures IsLastUse(msgs, ok) <==> IsLastSuccess(msgs, Recorded(ok))
  {
    SucceededIff(msgs, ok);
    if IsLastUse(msgs, ok) {
      forall c | Succeeded(msgs, c) && c.signature == Recorded(ok).signature
        ensures c.at <= ok.at
      {
        var u, j := SuccessIsUse(msgs, c);
        SameSignatureIff(msgs, u, j, ok, id);
        assert UseSucceeded(msgs, u);
      }
    }
    if IsLastSuccess(msgs, Recorded(ok)) {
      forall u | UseSucceeded(msgs, u) && SameCall(u, ok)
        ensures u.at <= ok.at
      {
        SucceededIff(msgs, u);
        var j :| UsedAt(msgs, u, j) && HasResult(msgs, j, false);
        SameSignatureIff(msgs, u, j, ok, id);
      }
    }
  }

  lemma SupersedesIsUse(msgs: seq<Message>, id: Id, failed: Call, ok: Call, content: string, retry: string -> bool)
    requires JsonInputsOnly(msgs) && FailedAs(msgs, id, failed, content)
    requires Supersedes(msgs, failed, ok, content, retry)
    ensures HasSupersededUse(msgs, id, retry)
  {
    var u := RecordIsUse(msgs, failed, id);
    var v, j := SuccessIsUse(msgs, ok);
    SameSignatureIff(msgs, v, j, u, id);
    LastUseIff(msgs, v, j);
    UserSpeaksIff(msgs, u.at, v.at);
    assert UseSucceeded(msgs, v);
    assert UseFailed(msgs, id, u, content) && UseSupersedes(msgs, u, v, content, retry);
  }

  lemma UseSupersedesIs(msgs: seq<Message>, id: Id, failed: Use, ok: Use, content: string, retry: string -> bool)
    requires JsonInputsOnly(msgs) && UseFailed(msgs, id, failed, content)
    requires UseSupersedes(msgs, failed, ok, content, retry)
    ensures HasSupersededFailure(msgs, id, retry)
  {
    var j :| UsedAt(msgs, ok, j) && HasResult(msgs, j, false);
    UseIsRecorded(msgs, failed, id);
    SucceededIff(msgs, ok);
    SameSignatureIff(msgs, ok, j, failed, id);
    LastUseIff(msgs, ok, j);
    UserSpeaksIff(msgs, failed.at, ok.at);
    assert FailedAs(msgs, id, Recorded(failed), content);
    assert Supersedes(msgs, Recorded(failed), Recorded(ok), content, retry);
  }

  /**
   * On a paired log with unique call ids and JSON inputs an exchange is dropped if and only if its call
   * failed and either the last success of the same tool with the same input, or, if the failure was
   * retryable, some success of the same tool within six messages, comes later without a word of the user's between.
   */
  lemma DroppedByInputIff(msgs: seq<Message>, id: Id, retry: string -> bool)
    requires Paired(msgs, {}) && Distinct(AllCalls(msgs)) && JsonInputsOnly(msgs)
    ensures id in SupersededIds(msgs, retry) <==> HasSupersededUse(msgs, id, retry)
  {
    DroppedIff(msgs, id, retry);
    if HasSupersededFailure(msgs, id, retry) {
      var failed, ok, content :| FailedAs(msgs, id, failed, content) && Supersedes(msgs, failed, ok, content, retry);
      SupersedesIsUse(msgs, id, failed, ok, content, retry);
    }
    if HasSupersededUse(msgs, id, retry) {
      var failed, ok, content :| UseFailed(msgs, id, failed, content)
          && UseSupersedes(msgs, failed, ok, content, retry);
      UseSupersedesIs(msgs, id, failed, ok, content, retry);
    }
  }

  // ----- The simplest logs: a call that fails and another of the same tool that succeeds

  /** A call that fails and a call of the same tool, with another input or the same, that succeeds. */
  function OtherInputLog(tool: string, t1: string, t2: string, content: string): seq<Message> {
    [Message("assistant", Blocks([ToolUse("a", tool, InputOf(t1))])),
     Message("user", Blocks([ToolResult("a", content, true)])),
     Message("assistant", Blocks([ToolUse("b", tool, InputOf(t2))])),
     Message("user", Blocks([ToolResult("b", "ok", false)]))]
  }

  lemma OtherInputUses(tool: string, t1: string, t2: string, content: string, u: Use, id: Id)
    requires UsedAt(OtherInputLog(tool, t1, t2, content), u, id)
    ensures (id == "a" && u == Use(0, tool, t1)) || (id == "b" && u == Use(2, tool, t2))
  {
  }

  lemma OtherInputFailure(tool: string, t1: string, t2: string, content: string, id: Id, u: Use, c: string)
    requires UseFailed(OtherInputLog(tool, t1, t2, content), id, u, c)
    ensures id == "a" && c == content
  {
  }

  lemma OtherInputIsJson(tool: string, t1: string, t2: string, content: string)
    requires IsJsonLike(t1) && IsJsonLike(t2)
    ensures JsonInputsOnly(OtherInputLog(tool, t1, t2, content))
  {
  }

  lemma OtherInputStays(tool: string, t1: string, t2: string, content: string, retry: string -> bool)
    requires IsJsonLike(t1) && IsJsonLike(t2) && t1 != t2 && !retry(content)
    ensures "a" !in SupersededIds(OtherInputLog(tool, t1, t2, content), retry)
  {
    var log := OtherInputLog(tool, t1, t2, content);
    OtherInputIsJson(tool, t1, t2, content);
    if "a" in SupersededIds(log, retry) {
      EveryDropIsJustifiedByInput(log, "a", retry);
      var failed, ok, c :| UseFailed(log, "a", failed, c) && UseSucceeded(log, ok) &&
                           UseRedundant(log, failed, ok, c, retry);
      OtherInputUses(tool, t1, t2, content, failed, "a");
      OtherInputFailure(tool, t1, t2, content, "a", failed, c);
      var j :| UsedAt(log, ok, j) && HasResult(log, j, false);
      OtherInputUses(tool, t1, t2, content, ok, j);
    }
  }

  lemma OneCall(id: Id, tool: string, text: string)
    ensures var m := Message("assistant", Blocks([ToolUse(id, tool, InputOf(text))]));
            Calls(m) == [id] && !IsCarrier(m)
  {
    var b := ToolUse(id, tool, InputOf(text));
    BlocksCons(b, []);
    assert [b] + [] == [b] && [id] + [] == [id];
  }

  lemma OneResult(id: Id, content: string, isError: bool)
    ensures var m := Message("user", Blocks([ToolResult(id, content, isError)]));
            Results(m) == [id] && Calls(m) == [] && IsCarrier(m) && PureCarrier(m)
  {
    var b := ToolResult(id, content, isError);
    BlocksCons(b, []);
    assert [b] + [] == [b] && [id] + [] == [id] && b in [b];
  }

  lemma OtherInputIsPaired(tool: string, t1: string, t2: string, content: string)
    ensures var log := OtherInputLog(tool, t1, t2, content);
            Paired(log, {}) && AllCalls(log) == ["a", "b"]
  {
    var log := OtherInputLog(tool, t1, t2, content);
    var last := [log[3]] + [];
    var second := [log[2]] + last;
    OneCall("a", tool, t1);
    OneCall("b", tool, t2);
    OneResult("a", content, true);
    OneResult("b", "ok", false);
    CarrierPairs(log[3], "b", []);
    CallerPairs(log[2], "b", last);
    CarrierPairs(log[1], "a", second);
    CallerPairs(log[0], "a", [log[1]] + second);
    assert log == [log[0]] + ([log[1]] + second);
  }

  lemma SameInputWitness(tool: string, text: string, content: string)
    ensures var log := OtherInputLog(tool, text, text, content);
            var failed, ok := Use(0, tool, text), Use(2, tool, text);
            && UseFailed(log, "a", failed, content) && UseSucceeded(log, ok) && !UserSpeaks(log, 0, 2)
  {
    var log := OtherInputLog(tool, text, text, content);
    assert ToolUse("a", tool, InputOf(text)) in BlocksOf(log[0]);
    assert ToolUse("b", tool, InputOf(text)) in BlocksOf(log[2]);
    assert ToolResult("a", content, true) in BlocksOf(log[1]) && log[1] in log;
    assert ToolResult("b", "ok", false) in BlocksOf(log[3]) && log[3] in log;
    assert UsedAt(log, Use(2, tool, text), "b") && HasResult(log, "b", false);
  }

  /** With the same input the failure is dropped, whatever it says. */
  lemma SameInputGoes(tool: string, text: string, content: string, retry: string -> bool)
    requires IsJsonLike(text)
    ensures "a" in SupersededIds(OtherInputLog(tool, text, text, content), retry)
  {
    var log := OtherInputLog(tool, text, text, content);
    var failed, ok := Use(0, tool, text), Use(2, tool, text);
    OtherInputIsJson(tool, text, text, content);
    OtherInputIsPaired(tool, text, text, content);
    SameInputWitness(tool, text, content);
    forall u | UseSucceeded(log, u)
      ensures u.at <= 2
    {
      NothingBehind(tool, text, content, u);
    }
    assert IsLastUse(log, ok) && UseSupersedes(log, failed, ok, content, retry);
    DroppedByInputIff(log, "a", retry);
  }

  lemma NothingBehind(tool: string, text: string, content: string, u: Use)
    requires UseSucceeded(OtherInputLog(tool, text, text, content), u)
    ensures u.at <= 2
  {
    var log := OtherInputLog(tool, text, text, content);
    var id :| UsedAt(log, u, id) && HasResult(log, id, false);
    OtherInputUses(tool, text, text, content, u, id);
  }
}
