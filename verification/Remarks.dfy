/**
 * What no pass over the message log may lose: every block that is neither a call nor a result, and every
 * prose message that is not blank (piscis-kernel/src/agent/message_utils.rs).
 */
module Remarks {
  import opened Ids
  import opened MessageLog
  import opened Sanitize
  import opened Supersede
  import opened Collapse
  import T = Text

  /** A text or image block, or the text of a prose message, with the role it was said in. */
  datatype Remark = Said(role: string, block: Block) | Wrote(role: string, text: string)

  function SaidIn(role: string, blocks: seq<Block>): seq<Remark> {
    if blocks == [] then []
    else
      var rest := SaidIn(role, blocks[1..]);
      if blocks[0].ToolUse? || blocks[0].ToolResult? then rest else [Said(role, blocks[0])] + rest
  }

  function RemarksIn(m: Message): seq<Remark> {
    match m.content
    case Prose(text) => if T.IsBlank(text) then [] else [Wrote(m.role, text)]
    case Blocks(blocks) => SaidIn(m.role, blocks)
  }

  function RemarksOf(msgs: seq<Message>): seq<Remark> {
    if msgs == [] then [] else RemarksIn(msgs[0]) + RemarksOf(msgs[1..])
  }

  lemma EmptySaysNothing(m: Message)
    requires IsEmpty(m)
    ensures RemarksIn(m) == []
  {
  }

  /** A message in front, which may be removed if it is empty. */
  lemma RemarksFront(m: Message, rest: seq<Message>)
    ensures RemarksOf([m] + rest) == RemarksIn(m) + RemarksOf(rest)
    ensures IsEmpty(m) ==> RemarksOf([m] + rest) == RemarksOf(rest)
  {
    assert ([m] + rest)[1..] == rest;
  }

  lemma SaidFront(role: string, b: Block, rest: seq<Block>)
    ensures SaidIn(role, [b] + rest) ==
            if b.ToolUse? || b.ToolResult? then SaidIn(role, rest) else [Said(role, b)] + SaidIn(role, rest)
  {
    assert ([b] + rest)[1..] == rest;
  }

  // ----- Blocks: each pass takes out calls and results only

  lemma {:induction false} KeepCallsSays(role: string, blocks: seq<Block>, keep: set<Id>)
    ensures SaidIn(role, KeepCalls(blocks, keep)) == SaidIn(role, blocks)
    ensures ThinnedBlocks(KeepCalls(blocks, keep), blocks)
  {
    if blocks != [] {
      KeepCallsSays(role, blocks[1..], keep);
      SaidFront(role, blocks[0], KeepCalls(blocks[1..], keep));
      assert ([blocks[0]] + KeepCalls(blocks[1..], keep))[1..] == KeepCalls(blocks[1..], keep);
    }
  }

  lemma {:induction false} KeepResultsSays(role: string, blocks: seq<Block>, keep: set<Id>)
    ensures SaidIn(role, KeepResults(blocks, keep)) == SaidIn(role, blocks)
    ensures ThinnedBlocks(KeepResults(blocks, keep), blocks)
  {
    if blocks != [] {
      KeepResultsSays(role, blocks[1..], keep);
      SaidFront(role, blocks[0], KeepResults(blocks[1..], keep));
      assert ([blocks[0]] + KeepResults(blocks[1..], keep))[1..] == KeepResults(blocks[1..], keep);
    }
  }

  lemma {:induction false} DropBlocksSays(role: string, blocks: seq<Block>, ids: set<Id>)
    ensures SaidIn(role, DropBlocks(blocks, ids)) == SaidIn(role, blocks)
  {
    if blocks != [] {
      DropBlocksSays(role, blocks[1..], ids);
      SaidFront(role, blocks[0], DropBlocks(blocks[1..], ids));
    }
  }

  lemma {:induction false} CollapseBlocksSays(role: string, blocks: seq<Block>, ids: set<Id>)
    ensures SaidIn(role, CollapseBlocks(blocks, ids)) == SaidIn(role, blocks)
  {
    if blocks != [] {
      CollapseBlocksSays(role, blocks[1..], ids);
      SaidFront(role, blocks[0], CollapseBlocks(blocks[1..], ids));
    }
  }

  // ----- The passes that drop by id

  lemma {:induction false} DropKeepsRemarks(msgs: seq<Message>, ids: set<Id>)
    ensures RemarksOf(Drop(msgs, ids)) == RemarksOf(msgs)
  {
    if msgs != [] {
      DropKeepsRemarks(msgs[1..], ids);
      DropBlocksSays(msgs[0].role, BlocksOf(msgs[0]), ids);
      RemarksFront(DropIn(msgs[0], ids), Drop(msgs[1..], ids));
    }
  }

  lemma {:induction false} CollapseByKeepsRemarks(msgs: seq<Message>, ids: set<Id>)
    ensures RemarksOf(CollapseBy(msgs, ids)) == RemarksOf(msgs)
  {
    if msgs != [] {
      CollapseByKeepsRemarks(msgs[1..], ids);
      CollapseBlocksSays(msgs[0].role, BlocksOf(msgs[0]), ids);
      RemarksFront(CollapseIn(msgs[0], ids), CollapseBy(msgs[1..], ids));
    }
  }

  /** Stripping waits, and collapsing, on every log: all remarks stay, in order. */
  lemma WithoutEphemeralKeepsRemarks(msgs: seq<Message>)
    ensures RemarksOf(WithoutEphemeral(msgs)) == RemarksOf(msgs)
  {
    DropKeepsRemarks(msgs, EphemeralIds(msgs));
  }

  lemma CollapsedKeepsRemarks(msgs: seq<Message>, retry: string -> bool)
    ensures RemarksOf(Collapsed(msgs, retry)) == RemarksOf(msgs)
  {
    CollapseByKeepsRemarks(msgs, SupersededIds(msgs, retry));
  }

  // ----- Sanitising

  lemma {:induction false} StripRunKeepsRemarks(msgs: seq<Message>, keep: set<Id>)
    ensures RemarksOf(StripRun(msgs, keep)) == RemarksOf(msgs)
    ensures Thinned(StripRun(msgs, keep), msgs)
  {
    if msgs != [] && IsCarrier(msgs[0]) {
      var b := KeepResults(msgs[0].content.blocks, keep);
      var m' := msgs[0].(content := Blocks(b));
      StripRunKeepsRemarks(msgs[1..], keep);
      KeepResultsSays(msgs[0].role, msgs[0].content.blocks, keep);
      RemarksFront(m', StripRun(msgs[1..], keep));
      assert ([m'] + StripRun(msgs[1..], keep))[1..] == StripRun(msgs[1..], keep);
      assert [] + StripRun(msgs[1..], keep) == StripRun(msgs[1..], keep);
    } else {
      ThinnedSelf(msgs);
    }
  }

  lemma {:induction false} ThinnedTransitive(a: seq<Message>, b: seq<Message>, c: seq<Message>)
    requires Thinned(a, b) && Thinned(b, c)
    ensures Thinned(a, c)
    decreases |c|, |b|
  {
    if c != [] {
      if Thinned(b, c[1..]) {
        ThinnedTransitive(a, b, c[1..]);
      } else if Thinned(a, b[1..]) {
        ThinnedTransitive(a, b[1..], c[1..]);
      } else {
        ThinnedTransitive(a[1..], b[1..], c[1..]);
        ThinnedContentTransitive(a[0].content, b[0].content, c[0].content);
      }
    }
  }

  lemma ThinnedContentTransitive(a: Content, b: Content, c: Content)
    requires ThinnedContent(a, b) && ThinnedContent(b, c)
    ensures ThinnedContent(a, c)
  {
    if a != b && b != c {
      ThinnedBlocksTransitive(a.blocks, b.blocks, c.blocks);
    }
  }

  lemma {:induction false} ThinnedBlocksTransitive(a: seq<Block>, b: seq<Block>, c: seq<Block>)
    requires ThinnedBlocks(a, b) && ThinnedBlocks(b, c)
    ensures ThinnedBlocks(a, c)
    decreases |c|, |b|
  {
    if c != [] {
      if ThinnedBlocks(b, c[1..]) {
        ThinnedBlocksTransitive(a, b, c[1..]);
      } else if ThinnedBlocks(a, b[1..]) {
        ThinnedBlocksTransitive(a, b[1..], c[1..]);
      } else {
        ThinnedBlocksTransitive(a[1..], b[1..], c[1..]);
      }
    }
  }

  lemma ThinnedFront(sub: Message, rest: seq<Message>, m: Message, whole: seq<Message>)
    requires Thinned(rest, whole) && sub.role == m.role && ThinnedContent(sub.content, m.content)
    ensures Thinned([sub] + rest, [m] + whole) && Thinned(rest, [m] + whole)
  {
    assert ([sub] + rest)[1..] == rest && ([m] + whole)[1..] == whole;
  }

  lemma {:induction false} WalkKeepsRemarks(msgs: seq<Message>)
    ensures RemarksOf(Walk(msgs)) == RemarksOf(msgs)
    ensures Thinned(Walk(msgs), msgs)
    decreases |msgs|
  {
    if msgs != [] {
      var m, rest := msgs[0], msgs[1..];
      assert msgs == [m] + rest;
      if !NeedsStrip(m, rest) {
        WalkKeepsRemarks(rest);
        RemarksFront(m, Walk(rest));
        ThinnedFront(m, Walk(rest), m, rest);
      } else {
        WalkStripKeepsRemarks(m, rest);
        WalkKeepsRemarks(StripRun(rest, Retained(m, rest)));
        StripRunKeepsRemarks(rest, Retained(m, rest));
        ThinnedTransitive(Walk(StripRun(rest, Retained(m, rest))), StripRun(rest, Retained(m, rest)), rest);
        ThinnedFront(StrippedCaller(m, rest), Walk(StripRun(rest, Retained(m, rest))), m, rest);
        RemarksFront(StrippedCaller(m, rest), Walk(StripRun(rest, Retained(m, rest))));
      }
    }
  }

  lemma WalkStripKeepsRemarks(m: Message, rest: seq<Message>)
    ensures RemarksIn(StrippedCaller(m, rest)) == RemarksIn(m)
    ensures StrippedCaller(m, rest).role == m.role && ThinnedContent(StrippedCaller(m, rest).content, m.content)
  {
    KeepCallsSays(m.role, BlocksOf(m), Retained(m, rest));
  }

  lemma {:induction false} WithoutEmptyKeepsRemarks(msgs: seq<Message>)
    ensures RemarksOf(WithoutEmpty(msgs)) == RemarksOf(msgs)
    ensures Thinned(WithoutEmpty(msgs), msgs)
  {
    if msgs != [] {
      WithoutEmptyKeepsRemarks(msgs[1..]);
      assert msgs == [msgs[0]] + msgs[1..];
      RemarksFront(msgs[0], WithoutEmpty(msgs[1..]));
      ThinnedFront(msgs[0], WithoutEmpty(msgs[1..]), msgs[0], msgs[1..]);
    }
  }

  /**
   * On every log sanitising only takes out, and what it takes out is calls, results and blank messages:
   * every other block and every prose message is still there, in the same order and said in the same role.
   */
  lemma SanitizedKeepsRemarks(msgs: seq<Message>)
    ensures RemarksOf(Sanitized(msgs)) == RemarksOf(msgs)
    ensures Thinned(Sanitized(msgs), msgs)
  {
    WalkKeepsRemarks(msgs);
    WithoutEmptyKeepsRemarks(Walk(msgs));
    ThinnedTransitive(Sanitized(msgs), Walk(msgs), msgs);
  }
}
