/** Exactly which exchanges collapse_superseded_tool_failures drops from a paired log. */
module CollapseExact {
  import opened Common
  import opened Ids
  import opened MessageLog
  import opened Supersede
  import opened Collapse

  // ----- A call id belongs to one call

  lemma {:induction false} SameCallInMessage(blocks: seq<Block>, b: Block, b': Block)
    requires Distinct(CallsOf(blocks))
    requires b in blocks && b.ToolUse? && b' in blocks && b'.ToolUse? && b.id == b'.id
    ensures b == b'
  {
    var c, rest := blocks[0], blocks[1..];
    assert blocks == [c] + rest;
    CallIds(rest);
    var own := if c.ToolUse? then [c.id] else [];
    ConcatSplit(own, CallsOf(rest));
    assert c.ToolUse? ==> c.id in Elems(own) && c.id !in Elems(CallsOf(rest));
    assert forall x :: x in rest && x.ToolUse? ==> x.id in Elems(CallsOf(rest));
    if b in rest && b' in rest {
      SameCallInMessage(rest, b, b');
    }
  }

  lemma {:induction false} CallIsListed(msgs: seq<Message>, i: nat, b: Block)
    requires i < |msgs| && b in BlocksOf(msgs[i]) && b.ToolUse?
    ensures b.id in Elems(AllCalls(msgs))
  {
    if i == 0 {
      CallIds(BlocksOf(msgs[0]));
    } else {
      CallIsListed(msgs[1..], i - 1, b);
    }
  }

  lemma {:induction false} SameCall(msgs: seq<Message>, i: nat, b: Block, i': nat, b': Block)
    requires Distinct(AllCalls(msgs)) && i <= i' < |msgs|
    requires b in BlocksOf(msgs[i]) && b.ToolUse? && b' in BlocksOf(msgs[i']) && b'.ToolUse? && b.id == b'.id
    ensures i == i' && b == b'
  {
    ConcatSplit(Calls(msgs[0]), AllCalls(msgs[1..]));
    if i > 0 {
      SameCall(msgs[1..], i - 1, b, i' - 1, b');
    } else {
      CallIds(BlocksOf(msgs[0]));
      assert b.id in Elems(Calls(msgs[0]));
      if i' > 0 {
        CallIsListed(msgs[1..], i' - 1, b');
        assert false;
      }
      SameCallInMessage(BlocksOf(msgs[0]), b, b');
    }
  }

  lemma CallIsUnique(msgs: seq<Message>, id: Id, c: Call, c': Call)
    requires Distinct(AllCalls(msgs)) && CalledAt(msgs, c, id) && CalledAt(msgs, c', id)
    ensures c == c'
  {
    var b :| b in BlocksOf(msgs[c.at]) && b.ToolUse? && b.id == id && c.tool == b.name
        && c.signature == Signature(b.name, b.input);
    var b' :| b' in BlocksOf(msgs[c'.at]) && b'.ToolUse? && b'.id == id && c'.tool == b'.name
        && c'.signature == Signature(b'.name, b'.input);
    if c.at <= c'.at {
      SameCall(msgs, c.at, b, c'.at, b');
    } else {
      SameCall(msgs, c'.at, b', c.at, b);
    }
  }

  // ----- The tables miss nothing

  lemma {:induction false} AddCallsKeys(table: map<Id, Call>, blocks: seq<Block>, at: nat)
    ensures forall id :: id in AddCalls(table, blocks, at) <==>
            id in table || exists b :: b in blocks && b.ToolUse? && b.id == id
  {
    if blocks != [] {
      var init, last := blocks[..|blocks| - 1], blocks[|blocks| - 1];
      AddCallsKeys(table, init, at);
      assert blocks == init + [last];
      assert last in blocks;
      assert forall b :: b in blocks <==> b in init || b == last;
    }
  }

  lemma {:induction false} CallTableKeys(msgs: seq<Message>, i: nat, b: Block)
    requires i < |msgs| && b in BlocksOf(msgs[i]) && b.ToolUse?
    ensures b.id in CallTable(msgs)
  {
    var k := |msgs| - 1;
    AddCallsKeys(CallTable(msgs[..k]), BlocksOf(msgs[k]), k);
    if i < k {
      CallTableKeys(msgs[..k], i, b);
    }
  }

  lemma CallTableComplete(msgs: seq<Message>, c: Call, id: Id)
    requires Distinct(AllCalls(msgs)) && CalledAt(msgs, c, id)
    ensures id in CallTable(msgs) && CallTable(msgs)[id] == c
  {
    var b :| b in BlocksOf(msgs[c.at]) && b.ToolUse? && b.id == id && c.tool == b.name
        && c.signature == Signature(b.name, b.input);
    CallTableKeys(msgs, c.at, b);
    CallTableSound(msgs);
    CallIsUnique(msgs, id, c, CallTable(msgs)[id]);
  }

  /** In a paired log a result comes behind its call. */
  lemma {:induction false} ResultFollowsCall(msgs: seq<Message>, due: set<Id>, j: nat, r: Block)
    returns (i: nat, b: Block)
    requires Paired(msgs, due) && j < |msgs| && r in BlocksOf(msgs[j]) && r.ToolResult? && r.toolUseId !in due
    ensures i < j && b in BlocksOf(msgs[i]) && b.ToolUse? && b.id == r.toolUseId
  {
    var m := msgs[0];
    CallIds(BlocksOf(m));
    ResultIds(BlocksOf(m));
    assert j == 0 ==> r.toolUseId in Elems(Results(m)) && IsCarrier(m);
    if !IsCarrier(m) && r.toolUseId in Elems(Calls(m)) {
      i := 0;
      b :| b in BlocksOf(m) && b.ToolUse? && b.id == r.toolUseId;
    } else {
      var due' := if IsCarrier(m) then due - Elems(Results(m)) else Elems(Calls(m));
      i, b := ResultFollowsCall(msgs[1..], due', j - 1, r);
      i := i + 1;
    }
  }

  lemma {:induction false} SuccessesInComplete(table: map<Id, Call>, blocks: seq<Block>, r: Block)
    requires r in blocks && r.ToolResult? && !r.isError && r.toolUseId in table
    ensures table[r.toolUseId] in SuccessesIn(table, blocks)
  {
    var init, last := blocks[..|blocks| - 1], blocks[|blocks| - 1];
    assert blocks == init + [last];
    if r in init {
      SuccessesInComplete(table, init, r);
    } else {
      assert r == last;
    }
  }

  lemma {:induction false} SuccessesGrow(msgs: seq<Message>, seen: seq<Message>, c: Call)
    requires seen <= msgs && c in Successes(seen)
    ensures c in Successes(msgs)
    decreases |msgs|
  {
    if |seen| < |msgs| {
      var init := msgs[..|msgs| - 1];
      SuccessesGrow(init, seen, c);
    } else {
      assert seen == msgs;
    }
  }

  lemma SeenUpTo(msgs: seq<Message>, j: nat) returns (seen: seq<Message>)
    requires j < |msgs|
    ensures seen <= msgs && |seen| == j + 1
  {
    seen := msgs[..j + 1];
  }

  lemma SuccessesComplete(msgs: seq<Message>, c: Call)
    requires Paired(msgs, {}) && Distinct(AllCalls(msgs)) && Succeeded(msgs, c)
    ensures c in Successes(msgs)
  {
    var id :| CalledAt(msgs, c, id) && HasResult(msgs, id, false);
    var j, r := ResultPlace(msgs, id);
    var seen := SeenUpTo(msgs, j);
    ResultIsCounted(msgs, seen, c, r);
    SuccessesGrow(msgs, seen, c);
  }

  lemma ResultPlace(msgs: seq<Message>, id: Id) returns (j: nat, r: Block)
    requires HasResult(msgs, id, false)
    ensures j < |msgs| && r in BlocksOf(msgs[j]) && r.ToolResult? && r.toolUseId == id && !r.isError
  {
    var m, b :| m in msgs && b in BlocksOf(m) && b.ToolResult? && b.toolUseId == id && b.isError == false;
    r := b;
    j :| 0 <= j < |msgs| && msgs[j] == m;
  }

  /** The table of the messages so far already holds a call made in them. */
  lemma TableSoFar(msgs: seq<Message>, seen: seq<Message>, c: Call, id: Id, i: nat, b: Block)
    requires Distinct(AllCalls(msgs)) && CalledAt(msgs, c, id) && seen <= msgs
    requires i < |seen| && b in BlocksOf(seen[i]) && b.ToolUse? && b.id == id
    ensures id in CallTable(seen) && CallTable(seen)[id] == c
  {
    CallTableKeys(seen, i, b);
    CallTableSound(seen);
    var c' := CallTable(seen)[id];
    assert CalledAt(msgs, c', id) by {
      assert msgs[c'.at] == seen[c'.at];
    }
    CallIsUnique(msgs, id, c, c');
  }

  /** A successful result in the last message so far is counted. */
  lemma ResultIsCounted(msgs: seq<Message>, seen: seq<Message>, c: Call, r: Block)
    requires seen <= msgs && seen != [] && r in BlocksOf(seen[|seen| - 1]) && r.ToolResult? && !r.isError
    requires Paired(msgs, {}) && Distinct(AllCalls(msgs)) && CalledAt(msgs, c, r.toolUseId)
    ensures c in Successes(seen)
  {
    var i, b := ResultFollowsCall(msgs, {}, |seen| - 1, r);
    TableSoFar(msgs, seen, c, r.toolUseId, i, b);
    SuccessesInComplete(CallTable(seen), BlocksOf(seen[|seen| - 1]), r);
  }

  /** The table of last successes holds exactly the last successful calls. */
  lemma LastSuccessIs(msgs: seq<Message>, g: string) returns (ok: Call)
    requires Paired(msgs, {}) && Distinct(AllCalls(msgs)) && g in LastSuccess(Successes(msgs))
    ensures ok.signature == g && ok.at == LastSuccess(Successes(msgs))[g] && IsLastSuccess(msgs, ok)
  {
    var s := Successes(msgs);
    SuccessesSound(msgs);
    LastSuccessSound(s);
    ok :| ok in s && ok.signature == g && ok.at == LastSuccess(s)[g];
    forall c | Succeeded(msgs, c) && c.signature == g
      ensures c.at <= ok.at
    {
      SuccessesComplete(msgs, c);
    }
  }

  lemma LastSuccessIsListed(msgs: seq<Message>, ok: Call)
    requires Paired(msgs, {}) && Distinct(AllCalls(msgs)) && IsLastSuccess(msgs, ok)
    ensures ok.signature in LastSuccess(Successes(msgs)) && LastSuccess(Successes(msgs))[ok.signature] == ok.at
  {
    SuccessesComplete(msgs, ok);
    LastSuccessSound(Successes(msgs));
    var c := LastSuccessIs(msgs, ok.signature);
  }

  lemma ToolSuccessIs(msgs: seq<Message>, tool: string, p: nat) returns (ok: Call)
    requires tool in SuccessesByTool(Successes(msgs)) && p in SuccessesByTool(Successes(msgs))[tool]
    ensures ok.tool == tool && ok.at == p && Succeeded(msgs, ok)
  {
    var s := Successes(msgs);
    SuccessesSound(msgs);
    SuccessesByToolSound(s);
    ok :| ok in s && ok.tool == tool && ok.at == p;
  }

  lemma {:induction false} SuccessesByToolComplete(s: seq<Call>, c: Call)
    requires c in s
    ensures c.tool in SuccessesByTool(s) && c.at in SuccessesByTool(s)[c.tool]
  {
    var init, last := s[..|s| - 1], s[|s| - 1];
    assert s == init + [last];
    if c in init {
      SuccessesByToolComplete(init, c);
    } else {
      assert c == last;
    }
  }

  // ----- The theorem

  /** No successful call of the same signature is later than `ok`. */
  ghost predicate IsLastSuccess(msgs: seq<Message>, ok: Call) {
    Succeeded(msgs, ok) && forall c :: Succeeded(msgs, c) && c.signature == ok.signature ==> c.at <= ok.at
  }

  /** `ok` makes the failure of `failed` redundant in the collapse's eyes. */
  ghost predicate Supersedes(msgs: seq<Message>, failed: Call, ok: Call, content: string, retry: string -> bool) {
    && failed.at < ok.at
    && !RealUserTurnBetween(msgs, failed.at, ok.at)
    && ((ok.signature == failed.signature && IsLastSuccess(msgs, ok)) ||
        (ok.tool == failed.tool && Succeeded(msgs, ok) && retry(content)
         && ok.at - failed.at <= SUPERSEDE_RETRY_WINDOW_MSGS))
  }

  ghost predicate FailedAs(msgs: seq<Message>, id: Id, failed: Call, content: string) {
    CalledAt(msgs, failed, id) && exists m, b ::
        m in msgs && b in BlocksOf(m) && b.ToolResult? && b.isError && b.toolUseId == id && b.content == content
  }

  ghost predicate HasSupersededFailure(msgs: seq<Message>, id: Id, retry: string -> bool) {
    exists failed, ok, content :: FailedAs(msgs, id, failed, content) && Supersedes(msgs, failed, ok, content, retry)
  }

  lemma DropIsSuperseded(msgs: seq<Message>, id: Id, retry: string -> bool)
    returns (failed: Call, ok: Call, content: string)
    requires Paired(msgs, {}) && Distinct(AllCalls(msgs)) && id in SupersededIds(msgs, retry)
    ensures FailedAs(msgs, id, failed, content) && Supersedes(msgs, failed, ok, content, retry)
  {
    var s := Successes(msgs);
    var table, last, byTool := CallTable(msgs), LastSuccess(s), SuccessesByTool(s);
    CallTableSound(msgs);
    var m, b :| m in msgs && b in BlocksOf(m) && IsSuperseded(msgs, b, table, last, byTool, retry) && b.toolUseId == id;
    failed, content := table[id], b.content;
    if failed.signature in last && failed.at < last[failed.signature]
        && !RealUserTurnBetween(msgs, failed.at, last[failed.signature]) {
      ok := LastSuccessIs(msgs, failed.signature);
    } else {
      var p :| p in byTool[failed.tool] && p > failed.at && p - failed.at <= SUPERSEDE_RETRY_WINDOW_MSGS
          && !RealUserTurnBetween(msgs, failed.at, p);
      ok := ToolSuccessIs(msgs, failed.tool, p);
    }
  }

  lemma SupersededIsDropped(msgs: seq<Message>, id: Id, retry: string -> bool, failed: Call, ok: Call, content: string)
    requires Paired(msgs, {}) && Distinct(AllCalls(msgs))
    requires FailedAs(msgs, id, failed, content) && Supersedes(msgs, failed, ok, content, retry)
    ensures id in SupersededIds(msgs, retry)
  {
    var s := Successes(msgs);
    var table, last, byTool := CallTable(msgs), LastSuccess(s), SuccessesByTool(s);
    var m, b :| m in msgs && b in BlocksOf(m) && b.ToolResult? && b.isError && b.toolUseId == id
        && b.content == content;
    CallTableComplete(msgs, failed, id);
    if ok.signature == failed.signature && IsLastSuccess(msgs, ok) {
      LastSuccessIsListed(msgs, ok);
    } else {
      SuccessesComplete(msgs, ok);
      SuccessesByToolComplete(s, ok);
      assert RetriedSoon(msgs, failed.at, byTool[failed.tool]);
    }
    assert IsSuperseded(msgs, b, table, last, byTool, retry);
  }

  /**
   * On a paired log with unique call ids an exchange is dropped if and only if its call failed and either the
   * last success of its signature, or, if the failure was retryable, some success of its tool within six
   * messages, comes later with no real user turn between. An earlier success of the signature does not count
   * once a later one lies behind a user turn.
   */
  lemma DroppedIff(msgs: seq<Message>, id: Id, retry: string -> bool)
    requires Paired(msgs, {}) && Distinct(AllCalls(msgs))
    ensures id in SupersededIds(msgs, retry) <==> HasSupersededFailure(msgs, id, retry)
  {
    if id in SupersededIds(msgs, retry) {
      var failed, ok, content := DropIsSuperseded(msgs, id, retry);
    }
    forall failed, ok, content | FailedAs(msgs, id, failed, content) && Supersedes(msgs, failed, ok, content, retry)
      ensures id in SupersededIds(msgs, retry)
    {
      SupersededIsDropped(msgs, id, retry, failed, ok, content);
    }
  }
}
