/**
 * What a merge evicts from the shards documented as non-evictable: open items and decisions
 * (apply_merge_instructions in piscis-kernel/src/agent/summary_worker.rs).
 */
module SummaryEvictions {
  import opened Common
  import opened Summary
  import T = Text

  // ----- What the instructions leave, before the caps

  predicate HasItem(items: seq<OpenItem>, text: string) {
    exists i :: 0 <= i < |items| && items[i].text == text
  }

  predicate HasDecision(decisions: seq<Decision>, text: string) {
    exists i :: 0 <= i < |decisions| && decisions[i].text == text
  }

  /** The open items after a list of instructions, as a function of the old ones. */
  function ItemsLeft(items: seq<OpenItem>, instructions: seq<Instruction>): seq<OpenItem>
    decreases |instructions|
  {
    if instructions == [] then items
    else ItemsLeft(ItemsAfter(items, instructions[0]), instructions[1..])
  }

  function ItemsAfter(items: seq<OpenItem>, ins: Instruction): seq<OpenItem> {
    match ins
    case AddOpenItem(raw, assignee) =>
      var text := T.Trim(raw);
      if HasItem(items, text) then items
      else items + [OpenItem("o" + T.Decimal(|items| + 1), text, assignee, None)]
    case CloseOpenItem(id) => WithoutItem(items, id)
    case _ => items
  }

  function DecisionsLeft(decisions: seq<Decision>, instructions: seq<Instruction>): seq<Decision>
    decreases |instructions|
  {
    if instructions == [] then decisions
    else DecisionsLeft(DecisionsAfter(decisions, instructions[0]), instructions[1..])
  }

  function DecisionsAfter(decisions: seq<Decision>, ins: Instruction): seq<Decision> {
    match ins
    case AddDecision(raw, rationale, evidence) =>
      var text := T.Trim(raw);
      if HasDecision(decisions, text) then decisions
      else decisions + [Decision("d" + T.Decimal(|decisions| + 1), text, T.Trim(rationale), evidence)]
    case _ => decisions
  }

  lemma ItemsStep(s: Rolling, ins: Instruction)
    requires ApplySingle(s, ins).Ok?
    ensures ApplySingle(s, ins).value.openItems == ItemsAfter(s.openItems, ins)
  {
  }

  lemma DecisionsStep(s: Rolling, ins: Instruction)
    requires ApplySingle(s, ins).Ok?
    ensures ApplySingle(s, ins).value.decisions == DecisionsAfter(s.decisions, ins)
  {
  }

  lemma {:induction false} InstructionsLeave(s: Rolling, instructions: seq<Instruction>)
    requires ApplyAll(s, instructions).Ok?
    ensures ApplyAll(s, instructions).value.openItems == ItemsLeft(s.openItems, instructions)
    ensures ApplyAll(s, instructions).value.decisions == DecisionsLeft(s.decisions, instructions)
    decreases |instructions|
  {
    if instructions != [] {
      var next := ApplySingle(s, instructions[0]).value;
      InstructionsLeave(next, instructions[1..]);
      ItemsStep(s, instructions[0]);
      DecisionsStep(s, instructions[0]);
    }
  }

  lemma {:induction false} OthersStay(items: seq<OpenItem>, id: string, item: OpenItem)
    requires item in items && item.id != id
    ensures item in WithoutItem(items, id)
  {
    if items[0] != item {
      OthersStay(items[1..], id, item);
    }
  }

  /** An open item that no instruction closes is among those the instructions leave. */
  lemma {:induction false} UnclosedIsLeft(items: seq<OpenItem>, instructions: seq<Instruction>, item: OpenItem)
    requires item in items
    requires forall k :: 0 <= k < |instructions| ==> instructions[k] != CloseOpenItem(item.id)
    ensures item in ItemsLeft(items, instructions)
    decreases |instructions|
  {
    if instructions != [] {
      var rest := instructions[1..];
      assert forall k :: 0 <= k < |rest| ==> rest[k] == instructions[k + 1];
      match instructions[0]
      case AddOpenItem(raw, assignee) =>
        var text := T.Trim(raw);
        UnclosedIsLeft(if HasItem(items, text) then items
                       else items + [OpenItem("o" + T.Decimal(|items| + 1), text, assignee, None)], rest, item);
      case CloseOpenItem(id) =>
        OthersStay(items, id, item);
        UnclosedIsLeft(WithoutItem(items, id), rest, item);
      case _ => UnclosedIsLeft(items, rest, item);
    }
  }

  // ----- What the caps evict

  /** Of a list without repetition the newest `n` are all of it exactly when there are no more. */
  lemma NewestIsAllIff<X>(s: seq<X>, n: nat)
    requires n > 0 && Distinct(s)
    ensures (forall x :: x in s ==> x in Newest(s, n)) <==> |s| <= n
  {
    if |s| > n {
      assert s[0] in s;
      assert forall k :: 0 <= k < n ==> Newest(s, n)[k] == s[|s| - n + k];
      assert s[0] !in Newest(s, n);
    }
  }

  /**
   * For every sound summary and every accepted batch: no open item the instructions leave is evicted if and
   * only if they leave at most 30, and then an item that no instruction closes is still open.
   */
  lemma OpenItemsSurviveIff(s: Rolling, b: Batch)
    requires RollingOk(s) && Merge(s, b.instructions, b.lastIdx).Ok?
    ensures var left := ItemsLeft(s.openItems, b.instructions);
            (forall x :: x in left ==> x in After(s, b).openItems) <==> |left| <= MAX_OPEN_ITEMS
    ensures |ItemsLeft(s.openItems, b.instructions)| <= MAX_OPEN_ITEMS ==>
              forall x :: x in s.openItems &&
                          (forall k :: 0 <= k < |b.instructions| ==> b.instructions[k] != CloseOpenItem(x.id)) ==>
                x in After(s, b).openItems
  {
    var left := ItemsLeft(s.openItems, b.instructions);
    InstructionsLeave(s, b.instructions);
    ApplyAllKeeps(s, b.instructions);
    assert After(s, b).openItems == Newest(left, MAX_OPEN_ITEMS);
    assert Distinct(left);
    NewestIsAllIff(left, MAX_OPEN_ITEMS);
    forall x | x in s.openItems &&
               (forall k :: 0 <= k < |b.instructions| ==> b.instructions[k] != CloseOpenItem(x.id))
      ensures x in left
    {
      UnclosedIsLeft(s.openItems, b.instructions, x);
    }
  }

  /** The same for decisions, which nothing removes, at 20. */
  lemma DecisionsSurviveIff(s: Rolling, b: Batch)
    requires RollingOk(s) && Merge(s, b.instructions, b.lastIdx).Ok?
    ensures var left := DecisionsLeft(s.decisions, b.instructions);
            (forall x :: x in left ==> x in After(s, b).decisions) <==> |left| <= MAX_DECISIONS
    ensures |DecisionsLeft(s.decisions, b.instructions)| <= MAX_DECISIONS ==>
              forall x :: x in s.decisions ==> x in After(s, b).decisions
  {
    var left := DecisionsLeft(s.decisions, b.instructions);
    InstructionsLeave(s, b.instructions);
    ApplyAllKeeps(s, b.instructions);
    assert After(s, b).decisions == Newest(left, MAX_DECISIONS);
    assert Distinct(left);
    NewestIsAllIff(left, MAX_DECISIONS);
    DecisionsOnlyGrow(s.decisions, b.instructions);
  }

  lemma {:induction false} DecisionsOnlyGrow(decisions: seq<Decision>, instructions: seq<Instruction>)
    ensures decisions <= DecisionsLeft(decisions, instructions)
    decreases |instructions|
  {
    if instructions != [] {
      var ins := instructions[0];
      if ins.AddDecision? && !HasDecision(decisions, T.Trim(ins.text)) {
        var d := Decision("d" + T.Decimal(|decisions| + 1), T.Trim(ins.text), T.Trim(ins.rationale), ins.evidence);
        DecisionsOnlyGrow(decisions + [d], instructions[1..]);
      } else {
        DecisionsOnlyGrow(decisions, instructions[1..]);
      }
    }
  }

  // ----- Reachable summaries that lose an open item, or a decision

  lemma NameIsTrimmed(k: nat)
    requires k > 0
    ensures T.Trim(Name(k)) == Name(k) != ""
  {
    assert T.TrimStart(Name(k)) == Name(k);
  }

  function Add(isItem: bool, k: nat): Instruction {
    if isItem then AddOpenItem(Name(k), None) else AddDecision(Name(k), "", None)
  }

  function Fill(isItem: bool, i: nat, n: nat): seq<Instruction>
    requires i <= n
    decreases n - i
  {
    if i == n then [] else [Add(isItem, i + 1)] + Fill(isItem, i + 1, n)
  }

  /** The shard holds `k` entries, with texts no longer than `k`. */
  predicate FilledTo(s: Rolling, isItem: bool, k: nat) {
    if isItem then |s.openItems| == k && forall x :: x in s.openItems ==> |x.text| <= k
    else |s.decisions| == k && forall x :: x in s.decisions ==> |x.text| <= k
  }

  lemma {:induction false} FillFills(s: Rolling, isItem: bool, i: nat, n: nat)
    requires FilledTo(s, isItem, i) && i <= n
    ensures var r := ApplyAll(s, Fill(isItem, i, n));
            r.Ok? && FilledTo(r.value, isItem, n)
    decreases n - i
  {
    if i < n {
      NameIsTrimmed(i + 1);
      var s' := ApplySingle(s, Add(isItem, i + 1)).value;
      FillFills(s', isItem, i + 1, n);
      assert Fill(isItem, i, n)[1..] == Fill(isItem, i + 1, n);
    }
  }

  /** In a full shard one new text evicts the oldest entry. */
  lemma NewTextEvictsOldest(s: Rolling, isItem: bool, lastIdx: nat)
    requires RollingOk(s) && FilledTo(s, isItem, if isItem then MAX_OPEN_ITEMS else MAX_DECISIONS)
    ensures var s' := After(s, Batch([Add(isItem, (if isItem then MAX_OPEN_ITEMS else MAX_DECISIONS) + 1)], lastIdx));
            if isItem then s.openItems[0] !in s'.openItems else s.decisions[0] !in s'.decisions
  {
    var k := (if isItem then MAX_OPEN_ITEMS else MAX_DECISIONS) + 1;
    var b := Batch([Add(isItem, k)], lastIdx);
    NameIsTrimmed(k);
    assert b.instructions[1..] == [];
    var r := ApplySingle(s, b.instructions[0]).value;
    assert ApplyAll(s, b.instructions) == Ok(r);
    if isItem {
      assert r.openItems[..k - 1] == s.openItems;
      assert forall j :: 1 <= j < k - 1 ==> r.openItems[j].text != s.openItems[0].text;
    } else {
      assert r.decisions[..k - 1] == s.decisions;
      assert forall j :: 1 <= j < k - 1 ==> r.decisions[j].text != s.decisions[0].text;
    }
  }

  lemma FullIsReached(isItem: bool, cap: nat)
    requires cap == if isItem then MAX_OPEN_ITEMS else MAX_DECISIONS
    ensures var full := After(EMPTY, Batch(Fill(isItem, 0, cap), 0));
            RollingOk(full) && FilledTo(full, isItem, cap)
  {
    var fill := Fill(isItem, 0, cap);
    FillFills(EMPTY, isItem, 0, cap);
    ApplyAllKeeps(EMPTY, fill);
    BoundedKeeps(ApplyAll(EMPTY, fill).value.(version := 1, covered := 0));
  }

  lemma TwoBatches(s: Rolling, a: Batch, b: Batch)
    ensures History(s, [a]) == After(s, a) && History(s, [a, b]) == After(After(s, a), b)
  {
    assert [a][1..] == [] && [a, b][1..] == [b] && [b][1..] == [];
    var s' := After(s, a);
    assert History(s', [b]) == After(s', b);
  }

  /** From the empty summary two batches lose an open item that nothing closed; likewise a decision. */
  lemma HistoryLosesOldest(isItem: bool, cap: nat)
    requires cap == if isItem then MAX_OPEN_ITEMS else MAX_DECISIONS
    ensures var fill, more := Batch(Fill(isItem, 0, cap), 0), Batch([Add(isItem, cap + 1)], 0);
            var full, over := History(EMPTY, [fill]), History(EMPTY, [fill, more]);
            FilledTo(full, isItem, cap) &&
            if isItem then full.openItems[0] !in over.openItems else full.decisions[0] !in over.decisions
  {
    var fill, more := Batch(Fill(isItem, 0, cap), 0), Batch([Add(isItem, cap + 1)], 0);
    FullIsReached(isItem, cap);
    TwoBatches(EMPTY, fill, more);
    NewTextEvictsOldest(After(EMPTY, fill), isItem, 0);
  }
}
