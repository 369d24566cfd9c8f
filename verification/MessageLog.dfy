/**
 * The message log and its tool-call / tool-result pairing
 * (piscis-kernel/src/agent/message_utils.rs, types from piscis-kernel/src/llm/mod.rs).
 */
module MessageLog {
  import opened Common
  import opened Ids
  import Text

  /** A tool call's input: its JSON text without the `_trace_id` field, and its `action` string if any. */
  datatype Input = Input(text: string, action: Option<string>)

  datatype Block =
    | TextBlock(text: string)
    | Image(data: string)
    | ToolUse(id: Id, name: string, input: Input)
    | ToolResult(toolUseId: Id, content: string, isError: bool)

  datatype Content = Prose(text: string) | Blocks(blocks: seq<Block>)

  datatype Message = Message(role: string, content: Content)

  /** What every pass removes at its end: no block left, or nothing but white space. */
  predicate IsEmpty(m: Message) {
    match m.content
    case Blocks(b) => b == []
    case Prose(t) => Text.IsBlank(t)
  }

  predicate IsCarrier(m: Message) {
    m.content.Blocks? && exists b :: b in m.content.blocks && b.ToolResult?
  }

  function CallsOf(blocks: seq<Block>): seq<Id> {
    if blocks == [] then []
    else (if blocks[0].ToolUse? then [blocks[0].id] else []) + CallsOf(blocks[1..])
  }

  function ResultsOf(blocks: seq<Block>): seq<Id> {
    if blocks == [] then []
    else (if blocks[0].ToolResult? then [blocks[0].toolUseId] else []) + ResultsOf(blocks[1..])
  }

  function BlocksOf(m: Message): seq<Block> {
    if m.content.Blocks? then m.content.blocks else []
  }

  function Calls(m: Message): seq<Id> { CallsOf(BlocksOf(m)) }

  function Results(m: Message): seq<Id> { ResultsOf(BlocksOf(m)) }

  /** The number of carriers at the head of the log. */
  function RunLength(msgs: seq<Message>): (n: nat)
    ensures n <= |msgs|
    ensures forall i :: 0 <= i < n ==> IsCarrier(msgs[i])
    ensures n < |msgs| ==> !IsCarrier(msgs[n])
  {
    if msgs == [] || !IsCarrier(msgs[0]) then 0 else 1 + RunLength(msgs[1..])
  }

  /** The ids answered by the carriers at the head of the log. */
  function Answered(msgs: seq<Message>): set<Id> {
    if msgs == [] || !IsCarrier(msgs[0]) then {} else Elems(Results(msgs[0])) + Answered(msgs[1..])
  }

  /** Every assistant call is answered in the carrier run right after its message. */
  predicate AllAnswered(msgs: seq<Message>) {
    msgs != [] ==>
      && (msgs[0].role == "assistant" ==> Elems(Calls(msgs[0])) <= Answered(msgs[1..]))
      && AllAnswered(msgs[1..])
  }

  /** Carriers hold nothing but results and are not assistant messages. */
  predicate PureCarrier(m: Message) {
    IsCarrier(m) ==> m.role != "assistant" && forall b :: b in m.content.blocks ==> b.ToolResult?
  }

  predicate PureCarriers(msgs: seq<Message>) {
    forall m :: m in msgs ==> PureCarrier(m)
  }

  function WithoutEmpty(msgs: seq<Message>): seq<Message> {
    if msgs == [] then []
    else if IsEmpty(msgs[0]) then WithoutEmpty(msgs[1..])
    else [msgs[0]] + WithoutEmpty(msgs[1..])
  }

  // ----- Facts about blocks

  lemma {:induction false} CallIds(blocks: seq<Block>)
    ensures forall x :: x in CallsOf(blocks) <==> exists b :: b in blocks && b.ToolUse? && b.id == x
  {
    if blocks != [] {
      CallIds(blocks[1..]);
      assert blocks == [blocks[0]] + blocks[1..];
      forall x | x in CallsOf(blocks)
        ensures exists b :: b in blocks && b.ToolUse? && b.id == x
      {
        if blocks[0].ToolUse? && blocks[0].id == x {
          assert blocks[0] in blocks;
        } else {
          assert x in CallsOf(blocks[1..]);
          var b :| b in blocks[1..] && b.ToolUse? && b.id == x;
          assert b in blocks;
        }
      }
    }
  }

  lemma {:induction false} ResultIds(blocks: seq<Block>)
    ensures forall x :: x in ResultsOf(blocks) <==> exists b :: b in blocks && b.ToolResult? && b.toolUseId == x
  {
    if blocks != [] {
      ResultIds(blocks[1..]);
      assert blocks == [blocks[0]] + blocks[1..];
      forall x | x in ResultsOf(blocks)
        ensures exists b :: b in blocks && b.ToolResult? && b.toolUseId == x
      {
        if blocks[0].ToolResult? && blocks[0].toolUseId == x {
          assert blocks[0] in blocks;
        } else {
          assert x in ResultsOf(blocks[1..]);
          var b :| b in blocks[1..] && b.ToolResult? && b.toolUseId == x;
          assert b in blocks;
        }
      }
    }
  }

  lemma CarrierHasResults(m: Message)
    ensures IsCarrier(m) <==> Results(m) != []
  {
    ResultIds(BlocksOf(m));
    assert Results(m) != [] ==> Results(m)[0] in Results(m);
    if IsCarrier(m) {
      var b :| b in m.content.blocks && b.ToolResult?;
      assert b.toolUseId in Results(m);
    }
  }

  lemma BlocksCons(b: Block, rest: seq<Block>)
    ensures CallsOf([b] + rest) == (if b.ToolUse? then [b.id] else []) + CallsOf(rest)
    ensures ResultsOf([b] + rest) == (if b.ToolResult? then [b.toolUseId] else []) + ResultsOf(rest)
  {
    assert ([b] + rest)[1..] == rest;
  }

  /** The ids of `s` that are in `keep`, in order. */
  function Only(s: seq<Id>, keep: set<Id>): seq<Id> {
    if s == [] then [] else (if s[0] in keep then [s[0]] else []) + Only(s[1..], keep)
  }

  lemma {:induction false} OnlyMembers(s: seq<Id>, keep: set<Id>)
    ensures forall x :: x in Only(s, keep) <==> x in s && x in keep
  {
    if s != [] {
      OnlyMembers(s[1..], keep);
      assert s == [s[0]] + s[1..];
    }
  }

  lemma {:induction false} OnlyDistinct(s: seq<Id>, keep: set<Id>)
    requires Distinct(s)
    ensures Distinct(Only(s, keep))
  {
    if s != [] {
      OnlyDistinct(s[1..], keep);
      OnlyMembers(s[1..], keep);
    }
  }

  lemma OnlyElems(s: seq<Id>, keep: set<Id>)
    ensures Elems(Only(s, keep)) == Elems(s) * keep
    ensures Distinct(s) ==> Distinct(Only(s, keep))
  {
    OnlyMembers(s, keep);
    if Distinct(s) {
      OnlyDistinct(s, keep);
    }
  }

  lemma OnlyCons(x: Id, s: seq<Id>, keep: set<Id>)
    ensures Only([x] + s, keep) == (if x in keep then [x] else []) + Only(s, keep)
  {
    assert ([x] + s)[1..] == s;
  }
}
