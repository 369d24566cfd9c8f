/**
 * sanitize_tool_use_result_pairing (piscis-kernel/src/agent/message_utils.rs): strip assistant calls with
 * no answer in the carrier run right after them, while walking and shrinking the same vector.
 */
module Sanitize {
  import opened Common
  import opened Ids
  import opened MessageLog

  function KeepCalls(blocks: seq<Block>, keep: set<Id>): seq<Block> {
    if blocks == [] then []
    else if blocks[0].ToolUse? && blocks[0].id !in keep then KeepCalls(blocks[1..], keep)
    else [blocks[0]] + KeepCalls(blocks[1..], keep)
  }

  function KeepResults(blocks: seq<Block>, keep: set<Id>): seq<Block> {
    if blocks == [] then []
    else if blocks[0].ToolResult? && blocks[0].toolUseId !in keep then KeepResults(blocks[1..], keep)
    else [blocks[0]] + KeepResults(blocks[1..], keep)
  }

  /** Strip the carrier run at the head of the log, dropping carriers that end up with no block. */
  function StripRun(msgs: seq<Message>, keep: set<Id>): (r: seq<Message>)
    ensures |r| <= |msgs|
  {
    if msgs == [] || !IsCarrier(msgs[0]) then msgs
    else
      var b := KeepResults(msgs[0].content.blocks, keep);
      (if b == [] then [] else [msgs[0].(content := Blocks(b))]) + StripRun(msgs[1..], keep)
  }

  /** The assistant calls of `m` that the log after it answers. */
  function Retained(m: Message, rest: seq<Message>): set<Id> {
    Elems(Calls(m)) * Answered(rest)
  }

  predicate NeedsStrip(m: Message, rest: seq<Message>) {
    m.role == "assistant" && Calls(m) != [] && |Retained(m, rest)| != |Calls(m)|
  }

  function StrippedCaller(m: Message, rest: seq<Message>): Message {
    if m.content.Blocks? then m.(content := Blocks(KeepCalls(m.content.blocks, Retained(m, rest)))) else m
  }

  /** The walk, as a function of what is still ahead of the index. */
  function Walk(msgs: seq<Message>): (r: seq<Message>)
    ensures |r| <= |msgs|
    decreases |msgs|
  {
    if msgs == [] then []
    else
      var m, rest := msgs[0], msgs[1..];
      if !NeedsStrip(m, rest) then
        [m] + Walk(rest)
      else
        var m', rest' := StrippedCaller(m, rest), StripRun(rest, Retained(m, rest));
        if IsEmpty(m') then Walk(rest') else [m'] + Walk(rest')
  }

  function Sanitized(msgs: seq<Message>): seq<Message> {
    WithoutEmpty(Walk(msgs))
  }

  // ----- Cardinality: no call is lost or repeated exactly when the counts agree

  lemma DistinctCons<T>(s: seq<T>)
    requires s != []
    ensures Distinct(s) <==> s[0] !in s[1..] && Distinct(s[1..])
  {
    var t := s[1..];
    assert forall i :: 0 <= i < |t| ==> t[i] == s[i + 1];
    assert forall i :: 1 <= i < |s| ==> s[i] == t[i - 1];
  }

  lemma {:induction false} ElemsCard<T>(s: seq<T>)
    ensures |Elems(s)| <= |s|
    ensures |Elems(s)| == |s| <==> Distinct(s)
  {
    if s != [] {
      var t := s[1..];
      ElemsCard(t);
      DistinctCons(s);
      assert s == [s[0]] + t;
      assert Elems(s) == {s[0]} + Elems(t);
      assert s[0] in t ==> Elems(s) == Elems(t);
    }
  }

  lemma NeedsStripIff(m: Message, rest: seq<Message>)
    ensures NeedsStrip(m, rest) <==>
            m.role == "assistant" && Calls(m) != [] && !(Distinct(Calls(m)) && Elems(Calls(m)) <= Answered(rest))
  {
    ElemsCard(Calls(m));
    var e, r := Elems(Calls(m)), Retained(m, rest);
    if e <= Answered(rest) {
      assert r == e;
    } else {
      var x :| x in e && x !in Answered(rest);
      assert r <= e - {x};
      CardSubset(r, e - {x});
    }
  }

  // ----- Filtering blocks

  lemma {:induction false} KeepCallsShape(blocks: seq<Block>, keep: set<Id>)
    ensures CallsOf(KeepCalls(blocks, keep)) == Only(CallsOf(blocks), keep)
    ensures ResultsOf(KeepCalls(blocks, keep)) == ResultsOf(blocks)
    ensures |KeepCalls(blocks, keep)| <= |blocks|
    ensures |KeepCalls(blocks, keep)| == |blocks| <==> Elems(CallsOf(blocks)) <= keep
    ensures |KeepCalls(blocks, keep)| == |blocks| ==> KeepCalls(blocks, keep) == blocks
  {
    if blocks != [] {
      var b, rest := blocks[0], blocks[1..];
      KeepCallsShape(rest, keep);
      assert blocks == [b] + rest;
      BlocksCons(b, KeepCalls(rest, keep));
      if b.ToolUse? {
        assert CallsOf(blocks) == [b.id] + CallsOf(rest);
        OnlyCons(b.id, CallsOf(rest), keep);
        assert Elems(CallsOf(blocks)) == {b.id} + Elems(CallsOf(rest));
      } else {
        assert CallsOf(blocks) == CallsOf(rest);
      }
    }
  }

  lemma KeepCallsIds(blocks: seq<Block>, keep: set<Id>)
    ensures Elems(CallsOf(KeepCalls(blocks, keep))) == Elems(CallsOf(blocks)) * keep
    ensures ResultsOf(KeepCalls(blocks, keep)) == ResultsOf(blocks)
    ensures Distinct(CallsOf(blocks)) ==> Distinct(CallsOf(KeepCalls(blocks, keep)))
    ensures |KeepCalls(blocks, keep)| <= |blocks|
    ensures |KeepCalls(blocks, keep)| == |blocks| <==> Elems(CallsOf(blocks)) <= keep
    ensures |KeepCalls(blocks, keep)| == |blocks| ==> KeepCalls(blocks, keep) == blocks
  {
    KeepCallsShape(blocks, keep);
    OnlyElems(CallsOf(blocks), keep);
  }

  lemma {:induction false} KeepResultsShape(blocks: seq<Block>, keep: set<Id>)
    ensures ResultsOf(KeepResults(blocks, keep)) == Only(ResultsOf(blocks), keep)
    ensures CallsOf(KeepResults(blocks, keep)) == CallsOf(blocks)
    ensures |KeepResults(blocks, keep)| <= |blocks|
    ensures |KeepResults(blocks, keep)| == |blocks| <==> Elems(ResultsOf(blocks)) <= keep
    ensures |KeepResults(blocks, keep)| == |blocks| ==> KeepResults(blocks, keep) == blocks
    ensures forall b :: b in KeepResults(blocks, keep) ==> b in blocks
  {
    if blocks != [] {
      var b, rest := blocks[0], blocks[1..];
      KeepResultsShape(rest, keep);
      assert blocks == [b] + rest;
      BlocksCons(b, KeepResults(rest, keep));
      if b.ToolResult? {
        assert ResultsOf(blocks) == [b.toolUseId] + ResultsOf(rest);
        OnlyCons(b.toolUseId, ResultsOf(rest), keep);
        assert Elems(ResultsOf(blocks)) == {b.toolUseId} + Elems(ResultsOf(rest));
      } else {
        assert ResultsOf(blocks) == ResultsOf(rest);
      }
    }
  }

  lemma KeepResultsIds(blocks: seq<Block>, keep: set<Id>)
    ensures Elems(ResultsOf(KeepResults(blocks, keep))) == Elems(ResultsOf(blocks)) * keep
    ensures |KeepResults(blocks, keep)| <= |blocks|
    ensures |KeepResults(blocks, keep)| == |blocks| <==> Elems(ResultsOf(blocks)) <= keep
    ensures |KeepResults(blocks, keep)| == |blocks| ==> KeepResults(blocks, keep) == blocks
    ensures forall b :: b in KeepResults(blocks, keep) ==> b in blocks
  {
    KeepResultsShape(blocks, keep);
    OnlyElems(ResultsOf(blocks), keep);
  }

  // ----- Pure carriers: stripping a run leaves a run that answers exactly what was kept

  lemma {:induction false} StripRunPure(msgs: seq<Message>, keep: set<Id>)
    requires PureCarriers(msgs)
    ensures PureCarriers(StripRun(msgs, keep))
    ensures Answered(StripRun(msgs, keep)) == Answered(msgs) * keep
  {
    if msgs != [] && IsCarrier(msgs[0]) {
      var b := KeepResults(msgs[0].content.blocks, keep);
      var m' := msgs[0].(content := Blocks(b));
      assert msgs == [msgs[0]] + msgs[1..];
      StripRunPure(msgs[1..], keep);
      KeepResultsIds(msgs[0].content.blocks, keep);
      assert PureCarrier(msgs[0]);
      assert Answered(msgs) * keep == Elems(Results(msgs[0])) * keep + Answered(msgs[1..]) * keep;
      if b != [] {
        assert b[0] in b;
        assert IsCarrier(m') && PureCarrier(m');
        assert StripRun(msgs, keep) == [m'] + StripRun(msgs[1..], keep);
        assert ([m'] + StripRun(msgs[1..], keep))[1..] == StripRun(msgs[1..], keep);
        assert Results(m') == ResultsOf(b);
      } else {
        assert ResultsOf(b) == [];
        assert Elems(Results(msgs[0])) * keep == {};
        assert StripRun(msgs, keep) == StripRun(msgs[1..], keep);
      }
    }
  }

  lemma {:induction false} WalkPure(msgs: seq<Message>)
    requires PureCarriers(msgs)
    ensures PureCarriers(Walk(msgs))
    ensures Answered(Walk(msgs)) == Answered(msgs)
    decreases |msgs|
  {
    if msgs != [] {
      var m, rest := msgs[0], msgs[1..];
      assert msgs == [m] + rest;
      assert PureCarrier(m);
      CarrierHasResults(m);
      if !NeedsStrip(m, rest) {
        WalkPure(rest);
      } else {
        var keep := Retained(m, rest);
        var m', rest' := StrippedCaller(m, rest), StripRun(rest, keep);
        StripRunPure(rest, keep);
        WalkPure(rest');
        KeepCallsIds(BlocksOf(m), keep);
        CarrierHasResults(m');
        if IsEmpty(m') {
          assert Elems(CallsOf([])) == {};
          assert keep == {};
        }
      }
    }
  }

  /** The walk leaves every assistant call answered. */
  lemma {:induction false} WalkAnswers(msgs: seq<Message>)
    requires PureCarriers(msgs)
    ensures AllAnswered(Walk(msgs))
    decreases |msgs|
  {
    if msgs != [] {
      var m, rest := msgs[0], msgs[1..];
      assert msgs == [m] + rest;
      NeedsStripIff(m, rest);
      if !NeedsStrip(m, rest) {
        WalkPure(rest);
        WalkAnswers(rest);
        assert Walk(msgs)[1..] == Walk(rest);
      } else {
        var keep := Retained(m, rest);
        var m', rest' := StrippedCaller(m, rest), StripRun(rest, keep);
        StripRunPure(rest, keep);
        WalkPure(rest');
        WalkAnswers(rest');
        KeepCallsIds(BlocksOf(m), keep);
        assert ([m'] + Walk(rest'))[1..] == Walk(rest');
      }
    }
  }

  /** Removing blank messages can only join runs, so answers are never lost. */
  lemma {:induction false} WithoutEmptyKeepsAnswers(msgs: seq<Message>)
    ensures Answered(msgs) <= Answered(WithoutEmpty(msgs))
    ensures AllAnswered(msgs) ==> AllAnswered(WithoutEmpty(msgs))
    ensures PureCarriers(msgs) ==> PureCarriers(WithoutEmpty(msgs))
    ensures forall m :: m in WithoutEmpty(msgs) ==> m in msgs && !IsEmpty(m)
  {
    if msgs != [] {
      WithoutEmptyKeepsAnswers(msgs[1..]);
      assert msgs == [msgs[0]] + msgs[1..];
      var w := [msgs[0]] + WithoutEmpty(msgs[1..]);
      assert w[1..] == WithoutEmpty(msgs[1..]);
    }
  }

  predicate NoneEmpty(msgs: seq<Message>) {
    forall m :: m in msgs ==> !IsEmpty(m)
  }

  /** Sanitising a log of pure carriers leaves every assistant call answered right after it. */
  lemma SanitizedIsAnswered(msgs: seq<Message>)
    requires PureCarriers(msgs)
    ensures AllAnswered(Sanitized(msgs)) && NoneEmpty(Sanitized(msgs)) && PureCarriers(Sanitized(msgs))
  {
    WalkPure(msgs);
    WalkAnswers(msgs);
    WithoutEmptyKeepsAnswers(Walk(msgs));
  }

  // ----- Exactly which logs are left alone

  /** Every assistant call is answered and, if the message repeats an id, its run answers nothing else. */
  predicate Settled(msgs: seq<Message>) {
    msgs != [] ==>
      && (msgs[0].role == "assistant" && Calls(msgs[0]) != [] ==>
            && Elems(Calls(msgs[0])) <= Answered(msgs[1..])
            && (Distinct(Calls(msgs[0])) || Answered(msgs[1..]) <= Elems(Calls(msgs[0]))))
      && Settled(msgs[1..])
  }

  function Weight(msgs: seq<Message>): nat {
    if msgs == [] then 0 else 1 + |BlocksOf(msgs[0])| + Weight(msgs[1..])
  }

  lemma {:induction false} StripRunWeight(msgs: seq<Message>, keep: set<Id>)
    ensures Weight(StripRun(msgs, keep)) <= Weight(msgs)
    ensures Weight(StripRun(msgs, keep)) == Weight(msgs) <==> Answered(msgs) <= keep
    ensures Weight(StripRun(msgs, keep)) == Weight(msgs) ==> StripRun(msgs, keep) == msgs
  {
    if msgs != [] && IsCarrier(msgs[0]) {
      var blocks := msgs[0].content.blocks;
      StripRunWeight(msgs[1..], keep);
      KeepResultsIds(blocks, keep);
      var b := KeepResults(blocks, keep);
      var r := StripRun(msgs[1..], keep);
      assert ([msgs[0].(content := Blocks(b))] + r)[1..] == r;
      assert [] + r == r;
      assert msgs == [msgs[0]] + msgs[1..];
    }
  }

  lemma {:induction false} WalkWeight(msgs: seq<Message>)
    ensures Weight(Walk(msgs)) <= Weight(msgs)
    ensures Weight(Walk(msgs)) == Weight(msgs) <==> Settled(msgs)
    ensures Settled(msgs) ==> Walk(msgs) == msgs
    decreases |msgs|
  {
    if msgs != [] {
      var m, rest := msgs[0], msgs[1..];
      assert msgs == [m] + rest;
      NeedsStripIff(m, rest);
      if !NeedsStrip(m, rest) {
        WalkWeight(rest);
        assert Walk(msgs)[1..] == Walk(rest);
      } else {
        var keep := Retained(m, rest);
        var m', rest' := StrippedCaller(m, rest), StripRun(rest, keep);
        StripRunWeight(rest, keep);
        WalkWeight(rest');
        KeepCallsIds(BlocksOf(m), keep);
        assert ([m'] + Walk(rest'))[1..] == Walk(rest');
        if Elems(Calls(m)) <= Answered(rest) {
          assert keep == Elems(Calls(m));
          assert KeepCalls(BlocksOf(m), keep) == BlocksOf(m);
          assert BlocksOf(m) != [];
        }
      }
    }
  }

  lemma {:induction false} WithoutEmptyWeight(msgs: seq<Message>)
    ensures Weight(WithoutEmpty(msgs)) <= Weight(msgs)
    ensures Weight(WithoutEmpty(msgs)) == Weight(msgs) <==> NoneEmpty(msgs)
    ensures NoneEmpty(msgs) ==> WithoutEmpty(msgs) == msgs
  {
    if msgs != [] {
      WithoutEmptyWeight(msgs[1..]);
      assert msgs == [msgs[0]] + msgs[1..];
      assert ([msgs[0]] + WithoutEmpty(msgs[1..]))[1..] == WithoutEmpty(msgs[1..]);
    }
  }

  /** Sanitising leaves a log unchanged exactly when it is settled and has no blank message: for every log. */
  lemma SanitizedIsIdentityIff(msgs: seq<Message>)
    ensures Sanitized(msgs) == msgs <==> Settled(msgs) && NoneEmpty(msgs)
  {
    WalkWeight(msgs);
    WithoutEmptyWeight(Walk(msgs));
  }

  // ----- Idempotence

  predicate DistinctCalls(msgs: seq<Message>) {
    forall m :: m in msgs && m.role == "assistant" ==> Distinct(Calls(m))
  }

  lemma {:induction false} StripRunKeepsDistinct(msgs: seq<Message>, keep: set<Id>)
    requires DistinctCalls(msgs)
    ensures DistinctCalls(StripRun(msgs, keep))
  {
    if msgs != [] && IsCarrier(msgs[0]) {
      assert msgs[0] in msgs;
      KeepResultsShape(msgs[0].content.blocks, keep);
      StripRunKeepsDistinct(msgs[1..], keep);
    }
  }

  lemma {:induction false} WalkKeepsDistinct(msgs: seq<Message>)
    requires DistinctCalls(msgs)
    ensures DistinctCalls(Walk(msgs))
    decreases |msgs|
  {
    if msgs != [] {
      var m, rest := msgs[0], msgs[1..];
      assert m in msgs;
      if !NeedsStrip(m, rest) {
        WalkKeepsDistinct(rest);
      } else {
        var keep := Retained(m, rest);
        StripRunKeepsDistinct(rest, keep);
        WalkKeepsDistinct(StripRun(rest, keep));
        KeepCallsIds(BlocksOf(m), keep);
      }
    }
  }

  lemma {:induction false} AnsweredAndDistinctIsSettled(msgs: seq<Message>)
    requires AllAnswered(msgs) && DistinctCalls(msgs)
    ensures Settled(msgs)
  {
    if msgs != [] {
      assert msgs == [msgs[0]] + msgs[1..];
      AnsweredAndDistinctIsSettled(msgs[1..]);
    }
  }

  /** On pure carriers the walk itself always ends settled, whatever ids repeat. */
  lemma {:induction false} WalkSettles(msgs: seq<Message>)
    requires PureCarriers(msgs)
    ensures Settled(Walk(msgs))
    decreases |msgs|
  {
    if msgs != [] {
      var m, rest := msgs[0], msgs[1..];
      assert msgs == [m] + rest;
      NeedsStripIff(m, rest);
      if !NeedsStrip(m, rest) {
        WalkPure(rest);
        WalkSettles(rest);
        assert Walk(msgs)[1..] == Walk(rest);
      } else {
        var keep := Retained(m, rest);
        var m', rest' := StrippedCaller(m, rest), StripRun(rest, keep);
        StripRunPure(rest, keep);
        WalkPure(rest');
        WalkSettles(rest');
        KeepCallsIds(BlocksOf(m), keep);
        assert ([m'] + Walk(rest'))[1..] == Walk(rest');
      }
    }
  }

  lemma {:induction false} StripRunNoneEmpty(msgs: seq<Message>, keep: set<Id>)
    requires NoneEmpty(msgs)
    ensures NoneEmpty(StripRun(msgs, keep))
  {
    if msgs != [] && IsCarrier(msgs[0]) {
      StripRunNoneEmpty(msgs[1..], keep);
    }
  }

  lemma {:induction false} WalkNoneEmpty(msgs: seq<Message>)
    requires NoneEmpty(msgs)
    ensures NoneEmpty(Walk(msgs))
    decreases |msgs|
  {
    if msgs != [] {
      var m, rest := msgs[0], msgs[1..];
      assert m in msgs;
      if !NeedsStrip(m, rest) {
        WalkNoneEmpty(rest);
      } else {
        StripRunNoneEmpty(rest, Retained(m, rest));
        WalkNoneEmpty(StripRun(rest, Retained(m, rest)));
      }
    }
  }

  /** Sanitising twice is sanitising once if no assistant message repeats an id, or if no message is blank. */
  lemma SanitizedIsIdempotent(msgs: seq<Message>)
    requires PureCarriers(msgs)
    requires DistinctCalls(msgs) || NoneEmpty(msgs)
    ensures Sanitized(Sanitized(msgs)) == Sanitized(msgs)
  {
    SanitizedIsAnswered(msgs);
    var out := Sanitized(msgs);
    if DistinctCalls(msgs) {
      WalkKeepsDistinct(msgs);
      WithoutEmptyKeepsAnswers(Walk(msgs));
      AnsweredAndDistinctIsSettled(out);
    } else {
      WalkNoneEmpty(msgs);
      WithoutEmptyWeight(Walk(msgs));
      WalkSettles(msgs);
    }
    SanitizedIsIdentityIff(out);
  }

  // ----- The method: the source's loops over one vector

  method CollectSatisfied(log: seq<Message>, start: nat) returns (satisfied: set<Id>)
    requires start <= |log|
    ensures satisfied == Answered(log[start..])
  {
    satisfied := {};
    var j := start;
    while j < |log|
      invariant start <= j <= |log|
      invariant satisfied + Answered(log[j..]) == Answered(log[start..])
    {
      assert log[j..][1..] == log[j + 1..];
      if !IsCarrier(log[j]) {
        break;
      }
      satisfied := satisfied + Elems(Results(log[j]));
      j := j + 1;
    }
  }

  /** Stripping the carrier at `j`, in place or out of the vector, leaves the rest of the run to be stripped. */
  lemma StripStep(log: seq<Message>, j: nat, keep: set<Id>)
    requires j < |log| && IsCarrier(log[j])
    ensures var blocks := KeepResults(log[j].content.blocks, keep);
            var log' := if blocks == [] then log[..j] + log[j + 1..] else log[j := log[j].(content := Blocks(blocks))];
            var j' := if blocks == [] then j else j + 1;
            log'[..j'] + StripRun(log'[j'..], keep) == log[..j] + StripRun(log[j..], keep)
  {
    var blocks := KeepResults(log[j].content.blocks, keep);
    assert log[j..][1..] == log[j + 1..];
    if blocks == [] {
      var log' := log[..j] + log[j + 1..];
      assert log'[j..] == log[j + 1..] && log'[..j] == log[..j];
    } else {
      var m := log[j].(content := Blocks(blocks));
      var log' := log[j := m];
      assert log'[j + 1..] == log[j + 1..] && log'[..j + 1] == log[..j] + [m];
    }
  }

  /** The inner loop: strip the carriers from `start` on, removing the ones that become empty. */
  method StripCarriers(msgs: seq<Message>, start: nat, keep: set<Id>) returns (log: seq<Message>)
    requires start <= |msgs|
    ensures log == msgs[..start] + StripRun(msgs[start..], keep)
  {
    log := msgs;
    var j := start;
    while j < |log| && IsCarrier(log[j])
      invariant start <= j <= |log|
      invariant log[..j] + StripRun(log[j..], keep) == msgs[..start] + StripRun(msgs[start..], keep)
      decreases |log| - j
    {
      var blocks := KeepResults(log[j].content.blocks, keep);
      StripStep(log, j, keep);
      if blocks == [] {
        log := log[..j] + log[j + 1..];
      } else {
        log := log[j := log[j].(content := Blocks(blocks))];
        j := j + 1;
      }
    }
    assert log == log[..j] + log[j..];
  }

  /** The walk seen from index `i` of the vector. */
  function WalkFrom(log: seq<Message>, i: nat): seq<Message>
    requires i <= |log|
  {
    log[..i] + Walk(log[i..])
  }

  lemma WalkPast(log: seq<Message>, i: nat)
    requires i < |log| && !NeedsStrip(log[i], log[i + 1..])
    ensures WalkFrom(log, i + 1) == WalkFrom(log, i)
  {
    assert log[i..][1..] == log[i + 1..];
    assert log[..i + 1] == log[..i] + [log[i]];
  }

  lemma WalkFromParts(head: seq<Message>, tail: seq<Message>)
    ensures WalkFrom(head + tail, |head|) == head + Walk(tail)
  {
    assert (head + tail)[..|head|] == head && (head + tail)[|head|..] == tail;
  }

  lemma WalkStripParts(head: seq<Message>, m: Message, rest: seq<Message>)
    requires NeedsStrip(m, rest)
    ensures var m', rest' := StrippedCaller(m, rest), StripRun(rest, Retained(m, rest));
            head + Walk([m] + rest) == if IsEmpty(m') then head + Walk(rest') else (head + [m']) + Walk(rest')
  {
    assert ([m] + rest)[1..] == rest;
    Assoc(head, [StrippedCaller(m, rest)], Walk(StripRun(rest, Retained(m, rest))));
  }

  lemma WalkStrip(log: seq<Message>, log': seq<Message>, i: nat)
    requires i < |log| && NeedsStrip(log[i], log[i + 1..])
    requires log' == log[..i] + [StrippedCaller(log[i], log[i + 1..])]
             + StripRun(log[i + 1..], Retained(log[i], log[i + 1..]))
    ensures IsEmpty(log'[i]) ==> WalkFrom(log'[..i] + log'[i + 1..], i) == WalkFrom(log, i)
    ensures !IsEmpty(log'[i]) ==> WalkFrom(log', i + 1) == WalkFrom(log, i)
  {
    var head, m, rest := log[..i], log[i], log[i + 1..];
    var m', rest' := StrippedCaller(m, rest), StripRun(rest, Retained(m, rest));
    Splice(head, m', rest', i);
    WalkFromParts(head, rest');
    WalkFromParts(head + [m'], rest');
    WalkStripParts(head, m, rest);
    assert log[i..] == [m] + rest;
  }

  /** The parts of a log put together from three. */
  lemma Splice(head: seq<Message>, m: Message, tail: seq<Message>, i: nat)
    requires |head| == i
    ensures var log := head + [m] + tail;
            && log[i] == m && log[..i] == head && log[i + 1..] == tail && log[..i + 1] == head + [m]
            && (head + tail)[..i] == head && (head + tail)[i..] == tail
  {
  }

  lemma WalkStart(log: seq<Message>)
    ensures WalkFrom(log, 0) == Walk(log)
  {
    assert log[0..] == log;
  }

  lemma WalkEnd(log: seq<Message>)
    ensures WalkFrom(log, |log|) == log
  {
    assert log[|log|..] == [];
  }

  lemma AroundUpdate(msgs: seq<Message>, i: nat, m: Message)
    requires i < |msgs|
    ensures msgs[i := m][i + 1..] == msgs[i + 1..] && msgs[i := m][..i + 1] == msgs[..i] + [m]
  {
  }

  /** Strip the caller at `i` and the carriers behind it. */
  method StripAt(msgs: seq<Message>, i: nat, retained: set<Id>) returns (log: seq<Message>)
    requires i < |msgs| && NeedsStrip(msgs[i], msgs[i + 1..]) && retained == Retained(msgs[i], msgs[i + 1..])
    ensures log == msgs[..i] + [StrippedCaller(msgs[i], msgs[i + 1..])] + StripRun(msgs[i + 1..], retained)
  {
    var m := msgs[i].(content := Blocks(KeepCalls(msgs[i].content.blocks, retained)));
    log := msgs[i := m];
    AroundUpdate(msgs, i, m);
    log := StripCarriers(log, i + 1, retained);
  }

  /** The strip of the caller at `i`, if it needs one. */
  method StripIfNeeded(msgs: seq<Message>, i: nat) returns (log: seq<Message>)
    requires i < |msgs| && msgs[i].role == "assistant" && Calls(msgs[i]) != []
    ensures var m, rest := msgs[i], msgs[i + 1..];
            log == if NeedsStrip(m, rest)
                   then msgs[..i] + [StrippedCaller(m, rest)] + StripRun(rest, Retained(m, rest)) else msgs
  {
    log := msgs;
    var ids := Calls(msgs[i]);
    var satisfied := CollectSatisfied(msgs, i + 1);
    var retained := set x | x in ids && x in satisfied;
    assert retained == Retained(msgs[i], msgs[i + 1..]);
    if |retained| != |ids| {
      log := StripAt(msgs, i, retained);
    }
  }

  /** One turn of the outer loop: the vector and the index it leaves behind. */
  method SanitizeAt(msgs: seq<Message>, at: nat) returns (log: seq<Message>, i: nat)
    requires at < |msgs|
    ensures i <= |log| && |log| - i < |msgs| - at
    ensures WalkFrom(log, i) == WalkFrom(msgs, at)
  {
    if msgs[at].role != "assistant" || Calls(msgs[at]) == [] {
      WalkPast(msgs, at);
      return msgs, at + 1;
    }
    log := StripIfNeeded(msgs, at);
    if NeedsStrip(msgs[at], msgs[at + 1..]) {
      WalkStrip(msgs, log, at);
    } else {
      WalkPast(msgs, at);
    }
    log, i := RemoveIfEmpty(log, at);
  }

  /** A caller with nothing left goes; any other is passed. */
  method RemoveIfEmpty(msgs: seq<Message>, at: nat) returns (log: seq<Message>, i: nat)
    requires at < |msgs|
    ensures if IsEmpty(msgs[at]) then log == msgs[..at] + msgs[at + 1..] && i == at else log == msgs && i == at + 1
  {
    log, i := msgs, at;
    if IsEmpty(log[i]) {
      log := log[..i] + log[i + 1..];
    } else {
      i := i + 1;
    }
  }

  method SanitizePairing(msgs: seq<Message>) returns (out: seq<Message>)
    ensures out == Sanitized(msgs)
  {
    var log := msgs;
    var i := 0;
    WalkStart(msgs);
    while i < |log|
      invariant 0 <= i <= |log|
      invariant WalkFrom(log, i) == Walk(msgs)
      decreases |log| - i
    {
      log, i := SanitizeAt(log, i);
    }
    WalkEnd(log);
    out := WithoutEmpty(log);
  }
}
