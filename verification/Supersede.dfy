/**
 * Passes that drop whole exchanges from a paired log: collapse_superseded_tool_failures and
 * strip_ephemeral_tool_exchanges (piscis-kernel/src/agent/message_utils.rs).
 */
module Supersede {
  import opened Common
  import opened Ids
  import opened MessageLog

  const SUPERSEDE_RETRY_WINDOW_MSGS: nat := 6

  // ----- Paired logs

  /**
   * Reading from the front, `due` holds the calls of the last assistant message not answered yet: a carrier
   * answers calls that are due, each once, and every other message comes only when nothing is due.
   */
  predicate Paired(msgs: seq<Message>, due: set<Id>) {
    if msgs == [] then due == {}
    else
      var m := msgs[0];
      if IsCarrier(m) then
        && m.role != "assistant"
        && (forall b :: b in m.content.blocks ==> b.ToolResult?)
        && Distinct(Results(m))
        && Elems(Results(m)) <= due
        && Paired(msgs[1..], due - Elems(Results(m)))
      else
        && due == {}
        && Distinct(Calls(m))
        && (m.role != "assistant" ==> Calls(m) == [])
        && Paired(msgs[1..], Elems(Calls(m)))
  }

  /** A paired log answers every call in the run right after it. */
  lemma {:induction false} PairedIsAnswered(msgs: seq<Message>, due: set<Id>)
    requires Paired(msgs, due)
    ensures due <= Answered(msgs)
    ensures AllAnswered(msgs)
  {
    if msgs != [] {
      var m := msgs[0];
      if IsCarrier(m) {
        PairedIsAnswered(msgs[1..], due - Elems(Results(m)));
      } else {
        PairedIsAnswered(msgs[1..], Elems(Calls(m)));
      }
    }
  }

  // ----- Dropping exchanges by id

  function DropBlocks(blocks: seq<Block>, ids: set<Id>): seq<Block> {
    if blocks == [] then []
    else if (blocks[0].ToolUse? && blocks[0].id in ids) || (blocks[0].ToolResult? && blocks[0].toolUseId in ids)
    then DropBlocks(blocks[1..], ids)
    else [blocks[0]] + DropBlocks(blocks[1..], ids)
  }

  function DropIn(m: Message, ids: set<Id>): Message {
    if m.content.Blocks? then m.(content := Blocks(DropBlocks(m.content.blocks, ids))) else m
  }

  function Drop(msgs: seq<Message>, ids: set<Id>): seq<Message> {
    if msgs == [] then []
    else
      var m := DropIn(msgs[0], ids);
      if IsEmpty(m) then Drop(msgs[1..], ids) else [m] + Drop(msgs[1..], ids)
  }

  lemma WithoutCons(x: Id, s: seq<Id>, ids: set<Id>)
    ensures Without([x] + s, ids) == (if x in ids then [] else [x]) + Without(s, ids)
  {
    assert ([x] + s)[1..] == s;
  }

  lemma {:induction false} DropBlocksShape(blocks: seq<Block>, ids: set<Id>)
    ensures CallsOf(DropBlocks(blocks, ids)) == Without(CallsOf(blocks), ids)
    ensures ResultsOf(DropBlocks(blocks, ids)) == Without(ResultsOf(blocks), ids)
    ensures forall b :: b in DropBlocks(blocks, ids) ==> b in blocks && (b.ToolUse? ==> b.id !in ids)
  {
    if blocks != [] {
      var b, rest := blocks[0], blocks[1..];
      DropBlocksShape(rest, ids);
      assert blocks == [b] + rest;
      BlocksCons(b, DropBlocks(rest, ids));
      if b.ToolUse? {
        WithoutCons(b.id, CallsOf(rest), ids);
      } else if b.ToolResult? {
        WithoutCons(b.toolUseId, ResultsOf(rest), ids);
      }
      assert [] + CallsOf(rest) == CallsOf(rest) && [] + ResultsOf(rest) == ResultsOf(rest);
    }
  }

  lemma DroppedCarrier(m: Message, ids: set<Id>)
    requires IsCarrier(m) && forall b :: b in m.content.blocks ==> b.ToolResult?
    ensures var m' := DropIn(m, ids);
            && Elems(Results(m')) == Elems(Results(m)) - ids
            && (Distinct(Results(m)) ==> Distinct(Results(m')))
            && (if IsEmpty(m') then Elems(Results(m)) <= ids else IsCarrier(m'))
            && forall b :: b in m'.content.blocks ==> b.ToolResult?
  {
    var m' := DropIn(m, ids);
    DropBlocksShape(BlocksOf(m), ids);
    WithoutMembers(Results(m), ids);
    if !IsEmpty(m') {
      assert m'.content.blocks[0] in m'.content.blocks;
    } else {
      assert Results(m') == [];
      assert Elems(Results(m)) - ids == {};
    }
  }

  lemma DroppedCaller(m: Message, ids: set<Id>)
    requires !IsCarrier(m)
    ensures var m' := DropIn(m, ids);
            && !IsCarrier(m') && Elems(Calls(m')) == Elems(Calls(m)) - ids
            && (Distinct(Calls(m)) ==> Distinct(Calls(m'))) && (Calls(m) == [] ==> Calls(m') == [])
            && (IsEmpty(m') ==> Elems(Calls(m)) - ids == {})
  {
    var m' := DropIn(m, ids);
    DropBlocksShape(BlocksOf(m), ids);
    WithoutMembers(Calls(m), ids);
    CarrierHasResults(m);
    CarrierHasResults(m');
  }

  /** Whatever set of exchanges is dropped, the log stays paired. */
  lemma {:induction false} DropKeepsPaired(msgs: seq<Message>, due: set<Id>, ids: set<Id>)
    requires Paired(msgs, due)
    ensures Paired(Drop(msgs, ids), due - ids)
  {
    if msgs != [] {
      var m, m' := msgs[0], DropIn(msgs[0], ids);
      var rest := Drop(msgs[1..], ids);
      assert ([m'] + rest)[1..] == rest;
      if IsCarrier(m) {
        DroppedCarrier(m, ids);
        DropKeepsPaired(msgs[1..], due - Elems(Results(m)), ids);
        assert (due - Elems(Results(m))) - ids == (due - ids) - Elems(Results(m'));
        assert IsEmpty(m') ==> (due - Elems(Results(m))) - ids == due - ids;
      } else {
        DroppedCaller(m, ids);
        DropKeepsPaired(msgs[1..], Elems(Calls(m)), ids);
      }
    }
  }

  lemma {:induction false} OnlyResultsNoCalls(blocks: seq<Block>)
    requires forall b :: b in blocks ==> b.ToolResult?
    ensures CallsOf(blocks) == []
  {
    if blocks != [] {
      assert blocks[0] in blocks;
      OnlyResultsNoCalls(blocks[1..]);
    }
  }

  // ----- What a drop keeps and removes

  function AllCalls(msgs: seq<Message>): seq<Id> {
    if msgs == [] then [] else Calls(msgs[0]) + AllCalls(msgs[1..])
  }

  function AllResults(msgs: seq<Message>): seq<Id> {
    if msgs == [] then [] else Results(msgs[0]) + AllResults(msgs[1..])
  }

  lemma {:induction false} WithoutConcat(a: seq<Id>, b: seq<Id>, ids: set<Id>)
    ensures Without(a + b, ids) == Without(a, ids) + Without(b, ids)
  {
    if a == [] {
      assert a + b == b;
    } else {
      assert (a + b)[1..] == a[1..] + b;
      WithoutConcat(a[1..], b, ids);
    }
  }

  /** Calls and results leave together: exactly those whose id is dropped, and the rest keep their order. */
  lemma {:induction false} DropRemovesTogether(msgs: seq<Message>, ids: set<Id>)
    ensures AllCalls(Drop(msgs, ids)) == Without(AllCalls(msgs), ids)
    ensures AllResults(Drop(msgs, ids)) == Without(AllResults(msgs), ids)
  {
    if msgs != [] {
      var m' := DropIn(msgs[0], ids);
      DropRemovesTogether(msgs[1..], ids);
      DropBlocksShape(BlocksOf(msgs[0]), ids);
      WithoutConcat(Calls(msgs[0]), AllCalls(msgs[1..]), ids);
      WithoutConcat(Results(msgs[0]), AllResults(msgs[1..]), ids);
      var rest := Drop(msgs[1..], ids);
      assert ([m'] + rest)[1..] == rest;
      if IsEmpty(m') {
        assert Calls(m') == [] && Results(m') == [];
      }
    }
  }

  /** `sub` is `whole` with blocks and messages taken out, nothing added, changed or moved. */
  predicate Thinned(sub: seq<Message>, whole: seq<Message>) {
    if whole == [] then sub == []
    else
      || Thinned(sub, whole[1..])
      || (sub != [] && sub[0].role == whole[0].role && ThinnedContent(sub[0].content, whole[0].content)
          && Thinned(sub[1..], whole[1..]))
  }

  predicate ThinnedContent(sub: Content, whole: Content) {
    sub == whole || (sub.Blocks? && whole.Blocks? && ThinnedBlocks(sub.blocks, whole.blocks))
  }

  predicate ThinnedBlocks(sub: seq<Block>, whole: seq<Block>) {
    if whole == [] then sub == []
    else ThinnedBlocks(sub, whole[1..]) || (sub != [] && sub[0] == whole[0] && ThinnedBlocks(sub[1..], whole[1..]))
  }

  lemma {:induction false} DropBlocksThins(blocks: seq<Block>, ids: set<Id>)
    ensures ThinnedBlocks(DropBlocks(blocks, ids), blocks)
  {
    if blocks != [] {
      DropBlocksThins(blocks[1..], ids);
      assert ([blocks[0]] + DropBlocks(blocks[1..], ids))[1..] == DropBlocks(blocks[1..], ids);
    }
  }

  /** A drop only takes out: order and everything else stay as they were. */
  lemma {:induction false} DropThins(msgs: seq<Message>, ids: set<Id>)
    ensures Thinned(Drop(msgs, ids), msgs)
  {
    if msgs != [] {
      DropThins(msgs[1..], ids);
      DropBlocksThins(BlocksOf(msgs[0]), ids);
      var m' := DropIn(msgs[0], ids);
      assert ([m'] + Drop(msgs[1..], ids))[1..] == Drop(msgs[1..], ids);
    }
  }

  // ----- strip_ephemeral_tool_exchanges

  predicate IsEphemeral(b: Block) {
    b.ToolUse? && b.name == "pool_org" && b.input.action == Some("wait_for_koi")
  }

  function EphemeralIds(msgs: seq<Message>): set<Id> {
    set m, b | m in msgs && b in BlocksOf(m) && IsEphemeral(b) :: b.id
  }

  /** The pass returns the log untouched when there is nothing to drop, blank messages included. */
  function WithoutEphemeral(msgs: seq<Message>): seq<Message> {
    if EphemeralIds(msgs) == {} then msgs else Drop(msgs, EphemeralIds(msgs))
  }

  method StripEphemeral(msgs: seq<Message>) returns (out: seq<Message>)
    ensures out == WithoutEphemeral(msgs)
  {
    var ids: set<Id> := {};
    var i := 0;
    while i < |msgs|
      invariant 0 <= i <= |msgs|
      invariant ids == EphemeralIds(msgs[..i])
    {
      var blocks := BlocksOf(msgs[i]);
      assert msgs[..i + 1] == msgs[..i] + [msgs[i]];
      ghost var before := ids;
      var k := 0;
      while k < |blocks|
        invariant 0 <= k <= |blocks|
        invariant ids == before + (set b | b in blocks[..k] && IsEphemeral(b) :: b.id)
      {
        assert blocks[..k + 1] == blocks[..k] + [blocks[k]];
        if IsEphemeral(blocks[k]) {
          ids := ids + {blocks[k].id};
        }
        k := k + 1;
      }
      assert blocks[..k] == blocks;
      i := i + 1;
    }
    assert msgs[..i] == msgs;
    if ids == {} {
      return msgs;
    }
    out := DropAndRetain(msgs, ids);
  }

  /** The two `retain` loops both passes share. */
  method DropAndRetain(msgs: seq<Message>, ids: set<Id>) returns (out: seq<Message>)
    ensures out == Drop(msgs, ids)
  {
    out := [];
    var i := 0;
    assert msgs[0..] == msgs;
    while i < |msgs|
      invariant 0 <= i <= |msgs|
      invariant out + Drop(msgs[i..], ids) == Drop(msgs, ids)
    {
      assert msgs[i..][1..] == msgs[i + 1..];
      var m := DropIn(msgs[i], ids);
      if !IsEmpty(m) {
        out := out + [m];
      }
      i := i + 1;
    }
    assert msgs[i..] == [];
  }

  /** The id is that of a call that only waits for another agent. */
  predicate IsWait(msgs: seq<Message>, id: Id) {
    exists m, b :: m in msgs && b in BlocksOf(m) && b.ToolUse? && b.id == id &&
                   b.name == "pool_org" && b.input.action == Some("wait_for_koi")
  }

  /** Stripping waits from a paired log leaves it paired, in order, without any wait, and takes whole exchanges only. */
  lemma StripEphemeralKeepsPairing(msgs: seq<Message>)
    requires Paired(msgs, {})
    ensures Paired(WithoutEphemeral(msgs), {}) && Thinned(WithoutEphemeral(msgs), msgs)
    ensures AllCalls(WithoutEphemeral(msgs)) == Without(AllCalls(msgs), EphemeralIds(msgs))
    ensures AllResults(WithoutEphemeral(msgs)) == Without(AllResults(msgs), EphemeralIds(msgs))
    ensures EphemeralIds(WithoutEphemeral(msgs)) == {}
    ensures forall id :: id in EphemeralIds(msgs) <==> IsWait(msgs, id)
  {
    var ids := EphemeralIds(msgs);
    if ids == {} {
      ThinnedSelf(msgs);
      WithoutNothing(AllCalls(msgs));
      WithoutNothing(AllResults(msgs));
    } else {
      DropKeepsPaired(msgs, {}, ids);
      DropThins(msgs, ids);
      DropRemovesTogether(msgs, ids);
      assert {} - ids == {};
      DropLeavesOldBlocks(msgs, ids);
    }
  }

  lemma {:induction false} DropLeavesOldBlocks(msgs: seq<Message>, ids: set<Id>)
    ensures forall m, b :: m in Drop(msgs, ids) && b in BlocksOf(m) ==>
              (exists m0 :: m0 in msgs && b in BlocksOf(m0)) && (b.ToolUse? ==> b.id !in ids)
  {
    if msgs != [] {
      DropLeavesOldBlocks(msgs[1..], ids);
      DropBlocksShape(BlocksOf(msgs[0]), ids);
      assert msgs == [msgs[0]] + msgs[1..];
      assert msgs[0] in msgs;
    }
  }

  lemma {:induction false} ThinnedSelf(msgs: seq<Message>)
    ensures Thinned(msgs, msgs)
  {
    if msgs != [] {
      ThinnedSelf(msgs[1..]);
    }
  }

  lemma {:induction false} WithoutNothing(s: seq<Id>)
    ensures Without(s, {}) == s
  {
    if s != [] {
      WithoutNothing(s[1..]);
      assert s == [s[0]] + s[1..];
    }
  }

  // ----- ensure_tool_results_complete

  /** Error results for the planned calls that have none, in call order. */
  function Missing(calls: seq<Id>, existing: set<Id>, message: string): seq<Block> {
    if calls == [] then []
    else
      var rest := Missing(calls[1..], existing, message);
      (if calls[0] in existing then [] else [ToolResult(calls[0], message, true)]) + rest
  }

  method EnsureComplete(calls: seq<Id>, blocks: seq<Block>, message: string) returns (out: seq<Block>)
    ensures out == blocks + Missing(calls, Elems(ResultsOf(blocks)), message)
  {
    var existing := Elems(ResultsOf(blocks));
    out := blocks;
    var i := 0;
    assert calls[0..] == calls;
    while i < |calls|
      invariant 0 <= i <= |calls|
      invariant out + Missing(calls[i..], existing, message) == blocks + Missing(calls, existing, message)
    {
      assert calls[i..][1..] == calls[i + 1..];
      if calls[i] !in existing {
        out := out + [ToolResult(calls[i], message, true)];
      }
      i := i + 1;
    }
    assert calls[i..] == [];
  }

  lemma {:induction false} MissingIds(calls: seq<Id>, existing: set<Id>, message: string)
    ensures ResultsOf(Missing(calls, existing, message)) == Without(calls, existing)
    ensures forall b :: b in Missing(calls, existing, message) ==> b.ToolResult?
  {
    if calls != [] {
      var rest := Missing(calls[1..], existing, message);
      MissingIds(calls[1..], existing, message);
      BlocksCons(ToolResult(calls[0], message, true), rest);
      assert [] + rest == rest && [] + Without(calls[1..], existing) == Without(calls[1..], existing);
    }
  }

  lemma {:induction false} ResultsConcat(a: seq<Block>, b: seq<Block>)
    ensures ResultsOf(a + b) == ResultsOf(a) + ResultsOf(b)
  {
    if a == [] {
      assert a + b == b;
    } else {
      assert (a + b)[1..] == a[1..] + b;
      ResultsConcat(a[1..], b);
      Assoc(if a[0].ToolResult? then [a[0].toolUseId] else [], ResultsOf(a[1..]), ResultsOf(b));
    }
  }

  /**
   * Completing the results of an interrupted turn makes the turn paired: whatever part of the planned calls
   * was answered, each at most once, the caller followed by the completed carrier is a paired log.
   */
  lemma CompletedTurnIsPaired(caller: Message, blocks: seq<Block>, message: string)
    requires caller.role == "assistant" && !IsCarrier(caller) && Calls(caller) != [] && Distinct(Calls(caller))
    requires forall b :: b in blocks ==> b.ToolResult?
    requires Distinct(ResultsOf(blocks)) && Elems(ResultsOf(blocks)) <= Elems(Calls(caller))
    ensures var all := blocks + Missing(Calls(caller), Elems(ResultsOf(blocks)), message);
            Paired([caller, Message("user", Blocks(all))], {})
  {
    var calls, answered := Calls(caller), ResultsOf(blocks);
    var added := Missing(calls, Elems(answered), message);
    var carrier := Message("user", Blocks(blocks + added));
    MissingIds(calls, Elems(answered), message);
    ResultsConcat(blocks, added);
    CompletedIds(calls, answered);
    CarrierHasResults(carrier);
    var log := [caller, carrier];
    assert log[1..] == [carrier] && [carrier][1..] == [];
    assert Elems(calls) - Elems(Results(carrier)) == {};
    assert Paired([], {});
    assert Paired([carrier], Elems(calls));
  }

  lemma CompletedIds(calls: seq<Id>, answered: seq<Id>)
    requires calls != [] && Distinct(calls) && Distinct(answered) && Elems(answered) <= Elems(calls)
    ensures var results := answered + Without(calls, Elems(answered));
            Distinct(results) && Elems(results) == Elems(calls) && results != []
  {
    var more := Without(calls, Elems(answered));
    WithoutMembers(calls, Elems(answered));
    assert forall i :: 0 <= i < |answered| ==> answered[i] in Elems(answered);
    assert forall i :: 0 <= i < |more| ==> more[i] in Elems(more);
    assert forall x :: x in Elems(answered) ==> x in Elems(calls);
    assert forall x :: x in Elems(answered + more) <==> x in Elems(answered) || x in Elems(more);
    assert calls[0] in Elems(calls);
    assert calls[0] in answered + more;
  }
}
