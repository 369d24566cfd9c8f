/** collapse_superseded_tool_failures (piscis-kernel/src/agent/message_utils.rs). */
module Collapse {
  import opened Common
  import opened Ids
  import opened MessageLog
  import opened Supersede
  import T = Text

  /** Where a call was made, its signature and its tool. */
  datatype Call = Call(at: nat, signature: string, tool: string)

  function Signature(name: string, input: Input): string {
    name + "::" + input.text
  }

  // ----- The retry classifier; the pass and its proofs hold for any classifier `retry`

  predicate Contains(s: string, part: string) {
    exists i :: 0 <= i <= |s| && PartAt(s, i, part)
  }

  predicate PartAt(s: string, i: nat, part: string) {
    i + |part| <= |s| && s[i..i + |part|] == part
  }

  predicate IsRetryable(content: string) {
    var lower := T.LowerUnicode(content);
    || Contains(content, "[schema_correction tool=")
    || Contains(lower, "schema \U{4E0D}\U{5339}\U{914D}")
    || Contains(lower, "missing field")
    || Contains(lower, "missing required")
    || Contains(lower, "invalid type")
    || Contains(lower, "invalid value")
    || Contains(lower, "unknown field")
    || Contains(lower, "unknown variant")
    || Contains(lower, "did not match any variant")
    || Contains(lower, "additional properties are not allowed")
    || (Contains(lower, "tool '") && Contains(lower, "does not exist. available tools:"))
    || (Contains(lower, "\U{5DE5}\U{5177} '") &&
        (Contains(lower, "\U{672A}\U{627E}\U{5230}")
         || Contains(lower, "\U{5F53}\U{524D}\U{53EF}\U{7528}\U{5DE5}\U{5177}")))
  }

  /** A user message that is not a carrier lies strictly between the two indices. */
  predicate RealUserTurnBetween(msgs: seq<Message>, start: nat, end: nat) {
    exists i :: start < i < end && i < |msgs| && msgs[i].role == "user" && !IsCarrier(msgs[i])
  }

  // ----- The tables the first loop fills

  function AddCalls(table: map<Id, Call>, blocks: seq<Block>, at: nat): map<Id, Call> {
    if blocks == [] then table
    else
      var b := blocks[|blocks| - 1];
      var before := AddCalls(table, blocks[..|blocks| - 1], at);
      if b.ToolUse? then before[b.id := Call(at, Signature(b.name, b.input), b.name)] else before
  }

  function CallTable(msgs: seq<Message>): map<Id, Call> {
    if msgs == [] then map[]
    else
      var k := |msgs| - 1;
      AddCalls(CallTable(msgs[..k]), BlocksOf(msgs[k]), k)
  }

  function SuccessesIn(table: map<Id, Call>, blocks: seq<Block>): seq<Call> {
    if blocks == [] then []
    else
      var b := blocks[|blocks| - 1];
      SuccessesIn(table, blocks[..|blocks| - 1]) +
      if b.ToolResult? && !b.isError && b.toolUseId in table then [table[b.toolUseId]] else []
  }

  /** The calls known to have succeeded, in the order their results appear. */
  function Successes(msgs: seq<Message>): seq<Call> {
    if msgs == [] then []
    else
      var k := |msgs| - 1;
      Successes(msgs[..k]) + SuccessesIn(CallTable(msgs), BlocksOf(msgs[k]))
  }

  /** The last message at which a signature succeeded. */
  function LastSuccess(s: seq<Call>): map<string, nat> {
    if s == [] then map[]
    else
      var c := s[|s| - 1];
      var before := LastSuccess(s[..|s| - 1]);
      before[c.signature := if c.signature in before then Max(before[c.signature], c.at) else c.at]
  }

  function SuccessesByTool(s: seq<Call>): map<string, seq<nat>> {
    if s == [] then map[]
    else
      var c := s[|s| - 1];
      var before := SuccessesByTool(s[..|s| - 1]);
      before[c.tool := (if c.tool in before then before[c.tool] else []) + [c.at]]
  }

  predicate RetriedSoon(msgs: seq<Message>, at: nat, positions: seq<nat>) {
    exists p :: p in positions && p > at && p - at <= SUPERSEDE_RETRY_WINDOW_MSGS && !RealUserTurnBetween(msgs, at, p)
  }

  /** The second loop's decision about one failed result. */
  predicate IsSuperseded(msgs: seq<Message>, b: Block, table: map<Id, Call>, last: map<string, nat>,
                         byTool: map<string, seq<nat>>, retry: string -> bool) {
    && b.ToolResult? && b.isError && b.toolUseId in table
    && var c := table[b.toolUseId];
       || (c.signature in last && c.at < last[c.signature] && !RealUserTurnBetween(msgs, c.at, last[c.signature]))
       || (retry(b.content) && c.tool in byTool && RetriedSoon(msgs, c.at, byTool[c.tool]))
  }

  function SupersededIds(msgs: seq<Message>, retry: string -> bool): set<Id> {
    var s := Successes(msgs);
    var table, last, byTool := CallTable(msgs), LastSuccess(s), SuccessesByTool(s);
    set m, b | m in msgs && b in BlocksOf(m) && IsSuperseded(msgs, b, table, last, byTool, retry) :: b.toolUseId
  }

  // ----- The final filter

  function CollapseBlocks(blocks: seq<Block>, ids: set<Id>): seq<Block> {
    if blocks == [] then []
    else
      var b := blocks[0];
      if (b.ToolUse? && b.id in ids) || (b.ToolResult? && b.isError && b.toolUseId in ids) then
        CollapseBlocks(blocks[1..], ids)
      else [b] + CollapseBlocks(blocks[1..], ids)
  }

  function CollapseIn(m: Message, ids: set<Id>): Message {
    if m.content.Blocks? then m.(content := Blocks(CollapseBlocks(m.content.blocks, ids))) else m
  }

  function CollapseBy(msgs: seq<Message>, ids: set<Id>): seq<Message> {
    if msgs == [] then []
    else
      var m := CollapseIn(msgs[0], ids);
      if IsEmpty(m) then CollapseBy(msgs[1..], ids) else [m] + CollapseBy(msgs[1..], ids)
  }

  function Collapsed(msgs: seq<Message>, retry: string -> bool): seq<Message> {
    if LastSuccess(Successes(msgs)) == map[] || SupersededIds(msgs, retry) == {} then msgs
    else CollapseBy(msgs, SupersededIds(msgs, retry))
  }

  // ----- Every dropped failure is justified, on every log

  predicate CalledAt(msgs: seq<Message>, c: Call, id: Id) {
    c.at < |msgs| && exists b :: b in BlocksOf(msgs[c.at]) && b.ToolUse? && b.id == id &&
                                 c.tool == b.name && c.signature == Signature(b.name, b.input)
  }

  predicate HasResult(msgs: seq<Message>, id: Id, isError: bool) {
    exists m, b :: m in msgs && b in BlocksOf(m) && b.ToolResult? && b.toolUseId == id && b.isError == isError
  }

  lemma {:induction false} AddCallsSound(msgs: seq<Message>, table: map<Id, Call>, blocks: seq<Block>, at: nat)
    requires forall id :: id in table ==> CalledAt(msgs, table[id], id)
    requires at < |msgs| && forall b :: b in blocks ==> b in BlocksOf(msgs[at])
    ensures forall id :: id in AddCalls(table, blocks, at) ==> CalledAt(msgs, AddCalls(table, blocks, at)[id], id)
  {
    if blocks != [] {
      var b := blocks[|blocks| - 1];
      AddCallsSound(msgs, table, blocks[..|blocks| - 1], at);
      assert b in BlocksOf(msgs[at]);
    }
  }

  lemma CalledAtPrefix(msgs: seq<Message>, k: nat, c: Call, id: Id)
    requires k <= |msgs| && CalledAt(msgs[..k], c, id)
    ensures CalledAt(msgs, c, id)
  {
    assert msgs[..k][c.at] == msgs[c.at];
  }

  lemma {:induction false} CallTableSound(msgs: seq<Message>)
    ensures forall id :: id in CallTable(msgs) ==> CalledAt(msgs, CallTable(msgs)[id], id)
  {
    if msgs != [] {
      var k := |msgs| - 1;
      CallTableSound(msgs[..k]);
      var before := CallTable(msgs[..k]);
      forall id | id in before
        ensures CalledAt(msgs, before[id], id)
      {
        CalledAtPrefix(msgs, k, before[id], id);
      }
      AddCallsSound(msgs, before, BlocksOf(msgs[k]), k);
    }
  }

  /** A recorded success: some call made at that place, with that signature and tool, has a successful result. */
  ghost predicate Succeeded(msgs: seq<Message>, c: Call) {
    exists id :: CalledAt(msgs, c, id) && HasResult(msgs, id, false)
  }

  lemma {:induction false} SuccessesInSound(msgs: seq<Message>, table: map<Id, Call>, blocks: seq<Block>, m: Message)
    requires forall id :: id in table ==> CalledAt(msgs, table[id], id)
    requires m in msgs && forall b :: b in blocks ==> b in BlocksOf(m)
    ensures forall c :: c in SuccessesIn(table, blocks) ==> Succeeded(msgs, c)
  {
    if blocks != [] {
      var b := blocks[|blocks| - 1];
      SuccessesInSound(msgs, table, blocks[..|blocks| - 1], m);
      assert b in BlocksOf(m);
      if b.ToolResult? && !b.isError && b.toolUseId in table {
        assert HasResult(msgs, b.toolUseId, false);
        assert Succeeded(msgs, table[b.toolUseId]);
      }
    }
  }

  lemma SucceededPrefix(msgs: seq<Message>, k: nat, c: Call)
    requires k <= |msgs| && Succeeded(msgs[..k], c)
    ensures Succeeded(msgs, c)
  {
    var id :| CalledAt(msgs[..k], c, id) && HasResult(msgs[..k], id, false);
    CalledAtPrefix(msgs, k, c, id);
    var m, b :| m in msgs[..k] && b in BlocksOf(m) && b.ToolResult? && b.toolUseId == id && b.isError == false;
    assert m in msgs;
    assert HasResult(msgs, id, false);
  }

  lemma {:induction false} SuccessesSound(msgs: seq<Message>)
    ensures forall c :: c in Successes(msgs) ==> Succeeded(msgs, c)
  {
    if msgs != [] {
      var k := |msgs| - 1;
      SuccessesSound(msgs[..k]);
      forall c | c in Successes(msgs[..k])
        ensures Succeeded(msgs, c)
      {
        SucceededPrefix(msgs, k, c);
      }
      CallTableSound(msgs);
      SuccessesInSound(msgs, CallTable(msgs), BlocksOf(msgs[k]), msgs[k]);
    }
  }

  lemma {:induction false} LastSuccessSound(s: seq<Call>)
    ensures forall g :: g in LastSuccess(s) ==> exists c :: c in s && c.signature == g && c.at == LastSuccess(s)[g]
    ensures forall c :: c in s ==> c.signature in LastSuccess(s) && c.at <= LastSuccess(s)[c.signature]
  {
    if s != [] {
      var init, c := s[..|s| - 1], s[|s| - 1];
      assert s == init + [c];
      LastSuccessSound(init);
      forall g | g in LastSuccess(s)
        ensures exists c :: c in s && c.signature == g && c.at == LastSuccess(s)[g]
      {
        if g in LastSuccess(init) && LastSuccess(s)[g] == LastSuccess(init)[g] {
          var c0 :| c0 in init && c0.signature == g && c0.at == LastSuccess(init)[g];
          assert c0 in s;
        } else {
          assert c in s && c.signature == g && c.at == LastSuccess(s)[g];
        }
      }
    }
  }

  lemma {:induction false} SuccessesByToolSound(s: seq<Call>)
    ensures forall t, p :: t in SuccessesByTool(s) && p in SuccessesByTool(s)[t] ==>
            exists c :: c in s && c.tool == t && c.at == p
  {
    if s != [] {
      var init, c := s[..|s| - 1], s[|s| - 1];
      assert s == init + [c];
      SuccessesByToolSound(init);
      forall t, p | t in SuccessesByTool(s) && p in SuccessesByTool(s)[t]
        ensures exists c :: c in s && c.tool == t && c.at == p
      {
        if t in SuccessesByTool(init) && p in SuccessesByTool(init)[t] {
          var c0 :| c0 in init && c0.tool == t && c0.at == p;
          assert c0 in s;
        } else {
          assert c in s && c.tool == t && c.at == p;
        }
      }
    }
  }

  /** What makes a failed call redundant. */
  predicate Redundant(msgs: seq<Message>, failed: Call, ok: Call, content: string, retry: string -> bool) {
    && failed.at < ok.at
    && !RealUserTurnBetween(msgs, failed.at, ok.at)
    && (ok.signature == failed.signature ||
        (ok.tool == failed.tool && retry(content) && ok.at - failed.at <= SUPERSEDE_RETRY_WINDOW_MSGS))
  }

  ghost predicate Justified(msgs: seq<Message>, id: Id, retry: string -> bool) {
    exists failed, ok, m, b ::
      && CalledAt(msgs, failed, id)
      && m in msgs && b in BlocksOf(m) && b.ToolResult? && b.isError && b.toolUseId == id
      && Succeeded(msgs, ok)
      && Redundant(msgs, failed, ok, b.content, retry)
  }

  /**
   * On every log: an id is dropped only if its call failed and a later call succeeded, with the same
   * signature, or with the same tool within six messages when the failure was retryable, and no real user
   * turn lies between the two calls.
   */
  lemma EveryDropIsJustified(msgs: seq<Message>, id: Id, retry: string -> bool)
    requires id in SupersededIds(msgs, retry)
    ensures Justified(msgs, id, retry)
  {
    var s := Successes(msgs);
    var table, last, byTool := CallTable(msgs), LastSuccess(s), SuccessesByTool(s);
    CallTableSound(msgs);
    SuccessesSound(msgs);
    LastSuccessSound(s);
    SuccessesByToolSound(s);
    var m, b :| m in msgs && b in BlocksOf(m) && IsSuperseded(msgs, b, table, last, byTool, retry) && b.toolUseId == id;
    var c := table[id];
    if c.signature in last && c.at < last[c.signature] && !RealUserTurnBetween(msgs, c.at, last[c.signature]) {
      var ok :| ok in s && ok.signature == c.signature && ok.at == last[c.signature];
      assert Redundant(msgs, c, ok, b.content, retry);
    } else {
      var p :| p in byTool[c.tool] && p > c.at && p - c.at <= SUPERSEDE_RETRY_WINDOW_MSGS
          && !RealUserTurnBetween(msgs, c.at, p);
      var ok :| ok in s && ok.tool == c.tool && ok.at == p;
      assert Redundant(msgs, c, ok, b.content, retry);
    }
  }

  // ----- On a paired log with unique call ids the collapse drops whole exchanges

  function ResultBlocks(blocks: seq<Block>): seq<Block> {
    if blocks == [] then [] else (if blocks[0].ToolResult? then [blocks[0]] else []) + ResultBlocks(blocks[1..])
  }

  function AllResultBlocks(msgs: seq<Message>): seq<Block> {
    if msgs == [] then [] else ResultBlocks(BlocksOf(msgs[0])) + AllResultBlocks(msgs[1..])
  }

  lemma {:induction false} ResultBlocksIds(blocks: seq<Block>)
    ensures |ResultBlocks(blocks)| == |ResultsOf(blocks)|
    ensures forall i :: 0 <= i < |ResultBlocks(blocks)| ==>
            ResultBlocks(blocks)[i].ToolResult? && ResultBlocks(blocks)[i].toolUseId == ResultsOf(blocks)[i]
    ensures forall b :: b in blocks && b.ToolResult? ==> b in ResultBlocks(blocks)
  {
    if blocks != [] {
      ResultBlocksIds(blocks[1..]);
      assert blocks == [blocks[0]] + blocks[1..];
    }
  }

  lemma {:induction false} AllResultBlocksIds(msgs: seq<Message>)
    ensures |AllResultBlocks(msgs)| == |AllResults(msgs)|
    ensures forall i :: 0 <= i < |AllResultBlocks(msgs)| ==>
              AllResultBlocks(msgs)[i].ToolResult? && AllResultBlocks(msgs)[i].toolUseId == AllResults(msgs)[i]
    ensures forall m, b :: m in msgs && b in BlocksOf(m) && b.ToolResult? ==> b in AllResultBlocks(msgs)
  {
    if msgs != [] {
      ResultBlocksIds(BlocksOf(msgs[0]));
      AllResultBlocksIds(msgs[1..]);
      assert msgs == [msgs[0]] + msgs[1..];
    }
  }

  /** In a paired log with unique call ids every id has exactly one result. */
  lemma {:induction false} PairedResultsUnique(msgs: seq<Message>, due: set<Id>)
    requires Paired(msgs, due)
    requires Distinct(AllCalls(msgs)) && due !! Elems(AllCalls(msgs))
    ensures Distinct(AllResults(msgs))
    ensures Elems(AllResults(msgs)) == due + Elems(AllCalls(msgs))
  {
    if msgs != [] {
      var m, rest := msgs[0], msgs[1..];
      ConcatSplit(Calls(m), AllCalls(rest));
      if IsCarrier(m) {
        CarrierCallsNothing(msgs);
        PairedResultsUnique(rest, due - Elems(Results(m)));
        ConcatDistinct(Results(m), AllResults(rest));
      } else {
        PairedResultsUnique(rest, Elems(Calls(m)));
        OthersAnswerNothing(msgs);
      }
    }
  }

  lemma CarrierCallsNothing(msgs: seq<Message>)
    requires msgs != [] && IsCarrier(msgs[0]) && forall b :: b in msgs[0].content.blocks ==> b.ToolResult?
    ensures AllCalls(msgs) == AllCalls(msgs[1..])
  {
    OnlyResultsNoCalls(msgs[0].content.blocks);
  }

  lemma OthersAnswerNothing(msgs: seq<Message>)
    requires msgs != [] && !IsCarrier(msgs[0])
    ensures AllResults(msgs) == AllResults(msgs[1..])
  {
    CarrierHasResults(msgs[0]);
  }

  lemma ConcatSplit(a: seq<Id>, b: seq<Id>)
    ensures Elems(a + b) == Elems(a) + Elems(b)
    ensures Distinct(a + b) ==> Distinct(a) && Distinct(b) && Elems(a) !! Elems(b)
  {
    assert forall x :: x in a + b <==> x in a || x in b;
    if Distinct(a + b) {
      assert forall i :: 0 <= i < |a| ==> (a + b)[i] == a[i];
      assert forall i :: 0 <= i < |b| ==> (a + b)[|a| + i] == b[i];
      forall i, k | 0 <= i < |a| && 0 <= k < |b|
        ensures a[i] != b[k]
      {
        assert (a + b)[i] == a[i] && (a + b)[|a| + k] == b[k];
      }
    }
  }

  lemma ConcatDistinct(a: seq<Id>, b: seq<Id>)
    requires Distinct(a) && Distinct(b) && Elems(a) !! Elems(b)
    ensures Distinct(a + b) && Elems(a + b) == Elems(a) + Elems(b)
  {
    assert forall i :: 0 <= i < |a| ==> a[i] in Elems(a);
    assert forall i :: 0 <= i < |b| ==> b[i] in Elems(b);
  }

  lemma ResultOfIdIsUnique(msgs: seq<Message>, m: Message, b: Block, m': Message, b': Block)
    requires Paired(msgs, {}) && Distinct(AllCalls(msgs))
    requires m in msgs && b in BlocksOf(m) && b.ToolResult?
    requires m' in msgs && b' in BlocksOf(m') && b'.ToolResult? && b'.toolUseId == b.toolUseId
    ensures b == b'
  {
    PairedResultsUnique(msgs, {});
    AllResultBlocksIds(msgs);
    SameIdSameBlock(AllResultBlocks(msgs), AllResults(msgs), b, b');
  }

  lemma SameIdSameBlock(all: seq<Block>, ids: seq<Id>, b: Block, b': Block)
    requires Distinct(ids) && |all| == |ids|
    requires forall i :: 0 <= i < |all| ==> all[i].ToolResult? && all[i].toolUseId == ids[i]
    requires b in all && b' in all && b.toolUseId == b'.toolUseId
    ensures b == b'
  {
    var i :| 0 <= i < |all| && all[i] == b;
    var k :| 0 <= k < |all| && all[k] == b';
    assert ids[i] == ids[k];
  }

  /** No dropped id has a successful result. */
  lemma DroppedOnlyFailed(msgs: seq<Message>, id: Id)
    requires Paired(msgs, {}) && Distinct(AllCalls(msgs))
    requires HasResult(msgs, id, true)
    ensures !HasResult(msgs, id, false)
  {
    var m, b :| m in msgs && b in BlocksOf(m) && b.ToolResult? && b.toolUseId == id && b.isError == true;
    forall m', b' | m' in msgs && b' in BlocksOf(m') && b'.ToolResult? && b'.toolUseId == id
      ensures b'.isError
    {
      ResultOfIdIsUnique(msgs, m, b, m', b');
    }
  }

  lemma {:induction false} CollapseBlocksIsDrop(blocks: seq<Block>, ids: set<Id>)
    requires forall b :: b in blocks && b.ToolResult? && b.toolUseId in ids ==> b.isError
    ensures CollapseBlocks(blocks, ids) == DropBlocks(blocks, ids)
  {
    if blocks != [] {
      assert blocks[0] in blocks;
      CollapseBlocksIsDrop(blocks[1..], ids);
    }
  }

  lemma {:induction false} CollapseByIsDrop(msgs: seq<Message>, ids: set<Id>)
    requires forall m, b :: m in msgs && b in BlocksOf(m) && b.ToolResult? && b.toolUseId in ids ==> b.isError
    ensures CollapseBy(msgs, ids) == Drop(msgs, ids)
  {
    if msgs != [] {
      assert msgs[0] in msgs;
      CollapseBlocksIsDrop(BlocksOf(msgs[0]), ids);
      CollapseByIsDrop(msgs[1..], ids);
    }
  }

  /**
   * Collapsing a paired log with unique call ids keeps it paired and in order, removes calls and results
   * only together, and never removes a successful result.
   */
  lemma CollapseKeepsPairing(msgs: seq<Message>, retry: string -> bool)
    requires Paired(msgs, {}) && Distinct(AllCalls(msgs))
    ensures Paired(Collapsed(msgs, retry), {}) && Thinned(Collapsed(msgs, retry), msgs)
    ensures AllCalls(Collapsed(msgs, retry)) == Without(AllCalls(msgs), SupersededIds(msgs, retry))
    ensures AllResults(Collapsed(msgs, retry)) == Without(AllResults(msgs), SupersededIds(msgs, retry))
    ensures forall id :: id in SupersededIds(msgs, retry) ==> !HasResult(msgs, id, false)
  {
    var ids := SupersededIds(msgs, retry);
    forall id | id in ids
      ensures HasResult(msgs, id, true) && !HasResult(msgs, id, false)
    {
      EveryDropIsJustified(msgs, id, retry);
      var failed, ok, m, b :| && CalledAt(msgs, failed, id)
                              && m in msgs && b in BlocksOf(m) && b.ToolResult? && b.isError && b.toolUseId == id
                              && Succeeded(msgs, ok)
                              && Redundant(msgs, failed, ok, b.content, retry);
      DroppedOnlyFailed(msgs, id);
    }
    NoSuccessNothingSuperseded(msgs, retry);
    if ids == {} {
      ThinnedSelf(msgs);
      WithoutNothing(AllCalls(msgs));
      WithoutNothing(AllResults(msgs));
    } else {
      forall m, b | m in msgs && b in BlocksOf(m) && b.ToolResult? && b.toolUseId in ids
        ensures b.isError
      {
        assert HasResult(msgs, b.toolUseId, b.isError);
      }
      CollapseByIsDrop(msgs, ids);
      DropKeepsPaired(msgs, {}, ids);
      DropThins(msgs, ids);
      DropRemovesTogether(msgs, ids);
      assert {} - ids == {};
    }
  }

  lemma NoSuccessNothingSuperseded(msgs: seq<Message>, retry: string -> bool)
    ensures LastSuccess(Successes(msgs)) == map[] ==> SupersededIds(msgs, retry) == {}
  {
    LastSuccessSound(Successes(msgs));
    var s := Successes(msgs);
    assert s != [] ==> s[0] in s;
  }

  // ----- The method: the source's loops and hash maps

  /** The failures found superseded in part of the messages. */
  function SupersededAmong(msgs: seq<Message>, part: seq<Message>, table: map<Id, Call>, last: map<string, nat>,
                           byTool: map<string, seq<nat>>, retry: string -> bool): set<Id> {
    set m, b | m in part && b in BlocksOf(m) && IsSuperseded(msgs, b, table, last, byTool, retry) :: b.toolUseId
  }

  lemma OneMessageMore(msgs: seq<Message>, i: nat, table: map<Id, Call>, last: map<string, nat>,
                       byTool: map<string, seq<nat>>, retry: string -> bool)
    requires i < |msgs|
    ensures SupersededAmong(msgs, msgs[..i + 1], table, last, byTool, retry) ==
            SupersededAmong(msgs, msgs[..i], table, last, byTool, retry) +
            set b | b in BlocksOf(msgs[i]) && IsSuperseded(msgs, b, table, last, byTool, retry) :: b.toolUseId
  {
    assert msgs[..i + 1] == msgs[..i] + [msgs[i]];
  }

  method CollapseSuperseded(msgs: seq<Message>, retry: string -> bool) returns (out: seq<Message>)
    ensures out == Collapsed(msgs, retry)
  {
    var table, last, byTool := FillTables(msgs);
    if last == map[] {
      return msgs;
    }
    var ids: set<Id> := {};
    var i := 0;
    while i < |msgs|
      invariant 0 <= i <= |msgs|
      invariant ids == SupersededAmong(msgs, msgs[..i], table, last, byTool, retry)
    {
      var found := SupersededIn(msgs, BlocksOf(msgs[i]), table, last, byTool, retry);
      OneMessageMore(msgs, i, table, last, byTool, retry);
      ids := ids + found;
      i := i + 1;
    }
    assert msgs[..i] == msgs;
    assert ids == SupersededIds(msgs, retry);
    if ids == {} {
      return msgs;
    }
    out := CollapseAndRetain(msgs, ids);
  }

  /** The pass as the agent loop calls it. */
  method CollapseFailures(msgs: seq<Message>) returns (out: seq<Message>)
    ensures out == Collapsed(msgs, IsRetryable)
  {
    out := CollapseSuperseded(msgs, IsRetryable);
  }

  method CollapseAndRetain(msgs: seq<Message>, ids: set<Id>) returns (out: seq<Message>)
    ensures out == CollapseBy(msgs, ids)
  {
    out := [];
    var i := 0;
    assert msgs[0..] == msgs;
    while i < |msgs|
      invariant 0 <= i <= |msgs|
      invariant out + CollapseBy(msgs[i..], ids) == CollapseBy(msgs, ids)
    {
      assert msgs[i..][1..] == msgs[i + 1..];
      var m := CollapseIn(msgs[i], ids);
      if !IsEmpty(m) {
        out := out + [m];
      }
      i := i + 1;
    }
    assert msgs[i..] == [];
  }

  method SupersededIn(msgs: seq<Message>, blocks: seq<Block>, table: map<Id, Call>, last: map<string, nat>,
                      byTool: map<string, seq<nat>>, retry: string -> bool)
    returns (ids: set<Id>)
    ensures ids == set b | b in blocks && IsSuperseded(msgs, b, table, last, byTool, retry) :: b.toolUseId
  {
    ids := {};
    var k := 0;
    while k < |blocks|
      invariant 0 <= k <= |blocks|
      invariant ids == set b | b in blocks[..k] && IsSuperseded(msgs, b, table, last, byTool, retry) :: b.toolUseId
    {
      assert blocks[..k + 1] == blocks[..k] + [blocks[k]];
      if IsSuperseded(msgs, blocks[k], table, last, byTool, retry) {
        ids := ids + {blocks[k].toolUseId};
      }
      k := k + 1;
    }
    assert blocks[..k] == blocks;
  }

  method FillTables(msgs: seq<Message>)
    returns (table: map<Id, Call>, last: map<string, nat>, byTool: map<string, seq<nat>>)
    ensures table == CallTable(msgs) && last == LastSuccess(Successes(msgs))
            && byTool == SuccessesByTool(Successes(msgs))
  {
    table, last, byTool := map[], map[], map[];
    ghost var s: seq<Call> := [];
    var i := 0;
    while i < |msgs|
      invariant 0 <= i <= |msgs|
      invariant table == CallTable(msgs[..i]) && s == Successes(msgs[..i])
      invariant last == LastSuccess(s) && byTool == SuccessesByTool(s)
    {
      TablesAppend(msgs, i);
      table := RecordCalls(table, BlocksOf(msgs[i]), i);
      last, byTool := RecordSuccesses(BlocksOf(msgs[i]), table, last, byTool, s);
      s := s + SuccessesIn(table, BlocksOf(msgs[i]));
      i := i + 1;
    }
    assert msgs[..i] == msgs;
  }

  lemma TablesAppend(msgs: seq<Message>, i: nat)
    requires i < |msgs|
    ensures CallTable(msgs[..i + 1]) == AddCalls(CallTable(msgs[..i]), BlocksOf(msgs[i]), i)
    ensures Successes(msgs[..i + 1]) == Successes(msgs[..i]) + SuccessesIn(CallTable(msgs[..i + 1]), BlocksOf(msgs[i]))
  {
    assert msgs[..i + 1][..i] == msgs[..i];
  }

  method RecordCalls(table0: map<Id, Call>, blocks: seq<Block>, at: nat) returns (table: map<Id, Call>)
    ensures table == AddCalls(table0, blocks, at)
  {
    table := table0;
    var k := 0;
    while k < |blocks|
      invariant 0 <= k <= |blocks|
      invariant table == AddCalls(table0, blocks[..k], at)
    {
      assert blocks[..k + 1][..k] == blocks[..k];
      if blocks[k].ToolUse? {
        table := table[blocks[k].id := Call(at, Signature(blocks[k].name, blocks[k].input), blocks[k].name)];
      }
      k := k + 1;
    }
    assert blocks[..k] == blocks;
  }

  lemma SuccessAppend(s: seq<Call>, c: Call)
    ensures var before := LastSuccess(s);
            LastSuccess(s + [c])
            == before[c.signature := if c.signature in before then Max(before[c.signature], c.at) else c.at]
    ensures var before := SuccessesByTool(s);
            SuccessesByTool(s + [c]) == before[c.tool := (if c.tool in before then before[c.tool] else []) + [c.at]]
  {
    assert (s + [c])[..|s|] == s;
  }

  lemma SuccessesInStep(s: seq<Call>, table: map<Id, Call>, blocks: seq<Block>, k: nat)
    requires k < |blocks|
    ensures var b := blocks[k];
            var all, next := s + SuccessesIn(table, blocks[..k]), s + SuccessesIn(table, blocks[..k + 1]);
            next == if b.ToolResult? && !b.isError && b.toolUseId in table then all + [table[b.toolUseId]] else all
  {
    assert blocks[..k + 1][..k] == blocks[..k];
  }

  method RecordSuccesses(blocks: seq<Block>, table: map<Id, Call>, last0: map<string, nat>,
                         byTool0: map<string, seq<nat>>, ghost s: seq<Call>)
    returns (last: map<string, nat>, byTool: map<string, seq<nat>>)
    requires last0 == LastSuccess(s) && byTool0 == SuccessesByTool(s)
    ensures last == LastSuccess(s + SuccessesIn(table, blocks))
    ensures byTool == SuccessesByTool(s + SuccessesIn(table, blocks))
  {
    last, byTool := last0, byTool0;
    ghost var all := s;
    assert s + [] == s;
    var k := 0;
    while k < |blocks|
      invariant 0 <= k <= |blocks|
      invariant all == s + SuccessesIn(table, blocks[..k])
      invariant last == LastSuccess(all) && byTool == SuccessesByTool(all)
    {
      var b := blocks[k];
      SuccessesInStep(s, table, blocks, k);
      if b.ToolResult? && !b.isError && b.toolUseId in table {
        var c := table[b.toolUseId];
        SuccessAppend(all, c);
        last := last[c.signature := if c.signature in last then Max(last[c.signature], c.at) else c.at];
        byTool := byTool[c.tool := (if c.tool in byTool then byTool[c.tool] else []) + [c.at]];
        all := all + [c];
      }
      k := k + 1;
    }
    assert blocks[..k] == blocks;
  }
}
