/**
 * The rolling summary and its merge instructions (apply_single and apply_merge_instructions in
 * piscis-kernel/src/agent/summary_worker.rs). Confidences are reals; a NaN confidence is not modelled.
 */
module Summary {
  import opened Common
  import opened Sorting
  import T = Text

  const MAX_FACTS: nat := 40
  const MAX_DECISIONS: nat := 20
  const MAX_OPEN_ITEMS: nat := 30
  const MAX_ERRORS: nat := 20
  const MAX_EVIDENCE: nat := 60
  const U32_MAX: nat := 0xFFFF_FFFF

  datatype Evidence = Evidence(toolUseId: string, note: string)
  datatype Fact = Fact(id: string, text: string, evidence: Option<Evidence>, confidence: real)
  datatype Decision = Decision(id: string, text: string, rationale: string, evidence: Option<Evidence>)
  datatype OpenItem = OpenItem(id: string, text: string, assignee: Option<string>, deadline: Option<string>)

  datatype Rolling = Rolling(
    taskContract: string, facts: seq<Fact>, decisions: seq<Decision>, openItems: seq<OpenItem>,
    evidence: seq<Evidence>, errors: seq<string>, version: nat, covered: nat)

  datatype Instruction =
    | SetTaskContract(text: string)
    | AddFact(text: string, confidence: real, evidence: Option<Evidence>)
    | UpdateFact(id: string, newText: Option<string>, newConfidence: Option<real>)
    | InvalidateFact(id: string)
    | AddDecision(text: string, rationale: string, evidence: Option<Evidence>)
    | AddOpenItem(text: string, assignee: Option<string>)
    | CloseOpenItem(id: string)
    | AddError(text: string)
    | AddEvidence(toolUseId: string, note: string)
    | Noop

  const EMPTY := Rolling("", [], [], [], [], [], 0, 0)

  function Clamp(x: real): real {
    if x < 0.0 then 0.0 else if x > 1.0 then 1.0 else x
  }

  /** The first fact that meets `p`, as an index; the length if there is none. */
  function FirstFact(facts: seq<Fact>, p: Fact -> bool): (i: nat)
    ensures i <= |facts|
    ensures i < |facts| ==> p(facts[i])
    ensures forall k :: 0 <= k < i ==> !p(facts[k])
  {
    if facts == [] || p(facts[0]) then 0 else 1 + FirstFact(facts[1..], p)
  }

  function FactByText(facts: seq<Fact>, text: string): nat {
    FirstFact(facts, (f: Fact) => f.text == text)
  }

  function FactById(facts: seq<Fact>, id: string): nat {
    FirstFact(facts, (f: Fact) => f.id == id)
  }

  function WithoutFact(facts: seq<Fact>, id: string): seq<Fact> {
    if facts == [] then [] else (if facts[0].id == id then [] else [facts[0]]) + WithoutFact(facts[1..], id)
  }

  function WithoutItem(items: seq<OpenItem>, id: string): seq<OpenItem> {
    if items == [] then [] else (if items[0].id == id then [] else [items[0]]) + WithoutItem(items[1..], id)
  }

  function Reobserved(f: Fact, evidence: Option<Evidence>): Fact {
    f.(confidence := if f.confidence + 0.1 > 1.0 then 1.0 else f.confidence + 0.1,
       evidence := if f.evidence.None? then evidence else f.evidence)
  }

  function Updated(f: Fact, text: Option<string>, confidence: Option<real>): Fact {
    var f' := if text.Some? && T.Trim(text.value) != "" then f.(text := T.Trim(text.value)) else f;
    if confidence.Some? then f'.(confidence := Clamp(confidence.value)) else f'
  }

  /** One instruction: the summary it leaves, or the reason it is refused. */
  function ApplySingle(s: Rolling, ins: Instruction): Result<Rolling, string> {
    match ins
    case SetTaskContract(text) =>
      if T.Trim(text) == "" then Err("empty task_contract") else Ok(s.(taskContract := T.Trim(text)))
    case AddFact(raw, confidence, evidence) =>
      var text := T.Trim(raw);
      if text == "" then Err("empty fact text")
      else
        var i := FactByText(s.facts, text);
        if i < |s.facts| then Ok(s.(facts := s.facts[i := Reobserved(s.facts[i], evidence)]))
        else Ok(s.(facts := s.facts + [Fact("f" + T.Decimal(|s.facts| + 1), text, evidence, Clamp(confidence))]))
    case UpdateFact(id, text, confidence) =>
      var i := FactById(s.facts, id);
      if i < |s.facts| then Ok(s.(facts := s.facts[i := Updated(s.facts[i], text, confidence)])) else Ok(s)
    case InvalidateFact(id) => Ok(s.(facts := WithoutFact(s.facts, id)))
    case AddDecision(raw, rationale, evidence) =>
      var text := T.Trim(raw);
      if text == "" then Err("empty decision text")
      else if exists d :: d in s.decisions && d.text == text then Ok(s)
      else
        var d := Decision("d" + T.Decimal(|s.decisions| + 1), text, T.Trim(rationale), evidence);
        Ok(s.(decisions := s.decisions + [d]))
    case AddOpenItem(raw, assignee) =>
      var text := T.Trim(raw);
      if text == "" then Err("empty open_item text")
      else if exists o :: o in s.openItems && o.text == text then Ok(s)
      else Ok(s.(openItems := s.openItems + [OpenItem("o" + T.Decimal(|s.openItems| + 1), text, assignee, None)]))
    case CloseOpenItem(id) => Ok(s.(openItems := WithoutItem(s.openItems, id)))
    case AddError(raw) =>
      var text := T.Trim(raw);
      if text == "" then Err("empty error text")
      else if text in s.errors then Ok(s) else Ok(s.(errors := s.errors + [text]))
    case AddEvidence(toolUseId, note) =>
      if T.Trim(toolUseId) == "" then Err("empty tool_use_id")
      else if exists e :: e in s.evidence && e.toolUseId == toolUseId then Ok(s)
      else Ok(s.(evidence := s.evidence + [Evidence(toolUseId, T.Trim(note))]))
    case Noop => Ok(s)
  }

  // ----- Bounding the summary

  /** Most confident first. */
  predicate Outranks(f: Fact, g: Fact) { f.confidence > g.confidence }

  function Sorted(facts: seq<Fact>): (r: seq<Fact>)
    ensures |r| == |facts|
  {
    Sort(facts, Outranks)
  }

  function CappedFacts(facts: seq<Fact>): seq<Fact> {
    if |facts| > MAX_FACTS then Sorted(facts)[..MAX_FACTS] else facts
  }

  function Bounded(s: Rolling): Rolling {
    s.(facts := CappedFacts(s.facts),
       decisions := Newest(s.decisions, MAX_DECISIONS),
       openItems := Newest(s.openItems, MAX_OPEN_ITEMS),
       errors := Newest(s.errors, MAX_ERRORS), evidence := Newest(s.evidence, MAX_EVIDENCE))
  }

  function ApplyAll(s: Rolling, instructions: seq<Instruction>): Result<Rolling, string>
    decreases |instructions|
  {
    if instructions == [] then Ok(s)
    else
      var r := ApplySingle(s, instructions[0]);
      if r.Err? then Err(r.error) else ApplyAll(r.value, instructions[1..])
  }

  /** A batch is applied as a whole or not at all. */
  function Merge(prev: Rolling, instructions: seq<Instruction>, lastIdx: nat): Result<Rolling, string> {
    var r := ApplyAll(prev, instructions);
    if r.Err? then r
    else Ok(Bounded(r.value.(version := Min(prev.version + 1, U32_MAX), covered := Max(lastIdx, prev.covered))))
  }

  method ApplyMergeInstructions(prev: Rolling, instructions: seq<Instruction>, lastIdx: nat)
    returns (r: Result<Rolling, string>)
    ensures r == Merge(prev, instructions, lastIdx)
  {
    var out := prev;
    var i := 0;
    assert instructions[0..] == instructions;
    while i < |instructions|
      invariant 0 <= i <= |instructions|
      invariant ApplyAll(out, instructions[i..]) == ApplyAll(prev, instructions)
    {
      assert instructions[i..][1..] == instructions[i + 1..];
      var step := ApplySingle(out, instructions[i]);
      if step.Err? {
        return Err(step.error);
      }
      out := step.value;
      i := i + 1;
    }
    assert instructions[i..] == [];
    out := out.(version := Min(prev.version + 1, U32_MAX), covered := Max(lastIdx, prev.covered));
    r := Ok(Bounded(out));
  }

  // ----- Sorting keeps the best

  lemma SortedShape(facts: seq<Fact>)
    ensures multiset(Sorted(facts)) == multiset(facts)
    ensures forall x :: x in Sorted(facts) <==> x in facts
    ensures Ordered(Sorted(facts), Outranks)
  {
    SortContents(facts, Outranks);
    SortMembers(facts, Outranks);
    SortOrdered(facts, Outranks);
  }

  /** What the fact cap throws out never outranks what it keeps, and nothing is invented or lost. */
  lemma CapKeepsBestFacts(facts: seq<Fact>)
    requires |facts| > MAX_FACTS
    ensures var kept, evicted := CappedFacts(facts), Sorted(facts)[MAX_FACTS..];
            && |kept| == MAX_FACTS
            && multiset(kept) + multiset(evicted) == multiset(facts)
            && forall i, j :: 0 <= i < |kept| && 0 <= j < |evicted| ==> kept[i].confidence >= evicted[j].confidence
  {
    SortedShape(facts);
    var s := Sorted(facts);
    assert s == s[..MAX_FACTS] + s[MAX_FACTS..];
  }

  // ----- The invariant

  predicate FactsDistinct(facts: seq<Fact>) {
    forall i, j :: 0 <= i < j < |facts| ==> facts[i].text != facts[j].text
  }

  predicate ShardsDistinct(s: Rolling) {
    && (forall i, j :: 0 <= i < j < |s.decisions| ==> s.decisions[i].text != s.decisions[j].text)
    && (forall i, j :: 0 <= i < j < |s.openItems| ==> s.openItems[i].text != s.openItems[j].text)
    && (forall i, j :: 0 <= i < j < |s.evidence| ==> s.evidence[i].toolUseId != s.evidence[j].toolUseId)
    && Distinct(s.errors)
  }

  predicate Confident(facts: seq<Fact>) {
    forall i :: 0 <= i < |facts| ==> 0.0 <= facts[i].confidence <= 1.0
  }

  predicate WithinCaps(s: Rolling) {
    && |s.facts| <= MAX_FACTS && |s.decisions| <= MAX_DECISIONS && |s.openItems| <= MAX_OPEN_ITEMS
    && |s.errors| <= MAX_ERRORS && |s.evidence| <= MAX_EVIDENCE
  }

  lemma {:induction false} WithoutFactShape(facts: seq<Fact>, id: string)
    ensures forall x :: x in WithoutFact(facts, id) ==> x in facts
    ensures FactsDistinct(facts) ==> FactsDistinct(WithoutFact(facts, id))
    ensures Confident(facts) ==> Confident(WithoutFact(facts, id))
  {
    if facts != [] {
      WithoutFactShape(facts[1..], id);
      assert facts == [facts[0]] + facts[1..];
      var w := WithoutFact(facts[1..], id);
      assert forall k :: 0 <= k < |w| ==> w[k] in facts[1..];
    }
  }

  predicate ItemsDistinct(items: seq<OpenItem>) {
    forall i, j :: 0 <= i < j < |items| ==> items[i].text != items[j].text
  }

  lemma {:induction false} WithoutItemShape(items: seq<OpenItem>, id: string)
    ensures forall x :: x in WithoutItem(items, id) ==> x in items
    ensures ItemsDistinct(items) ==> ItemsDistinct(WithoutItem(items, id))
  {
    if items != [] {
      WithoutItemShape(items[1..], id);
      assert items == [items[0]] + items[1..];
      var w := WithoutItem(items[1..], id);
      assert forall k :: 0 <= k < |w| ==> w[k] in items[1..];
    }
  }

  lemma ApplySingleKeepsShards(s: Rolling, ins: Instruction)
    requires ShardsDistinct(s) && Confident(s.facts) && ApplySingle(s, ins).Ok?
    ensures ShardsDistinct(ApplySingle(s, ins).value) && Confident(ApplySingle(s, ins).value.facts)
  {
    if ins.InvalidateFact? {
      WithoutFactShape(s.facts, ins.id);
    } else if ins.CloseOpenItem? {
      WithoutItemShape(s.openItems, ins.id);
    }
  }

  lemma ApplySingleKeepsFacts(s: Rolling, ins: Instruction)
    requires FactsDistinct(s.facts) && !ins.UpdateFact? && ApplySingle(s, ins).Ok?
    ensures FactsDistinct(ApplySingle(s, ins).value.facts)
  {
    if ins.InvalidateFact? {
      WithoutFactShape(s.facts, ins.id);
    }
  }

  lemma {:induction false} ApplyAllKeeps(s: Rolling, instructions: seq<Instruction>)
    requires ShardsDistinct(s) && Confident(s.facts) && ApplyAll(s, instructions).Ok?
    ensures ShardsDistinct(ApplyAll(s, instructions).value) && Confident(ApplyAll(s, instructions).value.facts)
    ensures FactsDistinct(s.facts) && (forall i :: 0 <= i < |instructions| ==> !instructions[i].UpdateFact?) ==>
              FactsDistinct(ApplyAll(s, instructions).value.facts)
    decreases |instructions|
  {
    if instructions != [] {
      ApplySingleKeepsShards(s, instructions[0]);
      if FactsDistinct(s.facts) && !instructions[0].UpdateFact? {
        ApplySingleKeepsFacts(s, instructions[0]);
      }
      ApplyAllKeeps(ApplySingle(s, instructions[0]).value, instructions[1..]);
    }
  }

  predicate OtherText(f: Fact, g: Fact) { f.text != g.text }

  lemma SortedDistinct(facts: seq<Fact>)
    requires FactsDistinct(facts)
    ensures FactsDistinct(Sorted(facts))
  {
    assert Apart(facts, OtherText);
    SortApart(facts, Outranks, OtherText);
    assert Apart(Sorted(facts), OtherText);
    assert forall i, j :: 0 <= i < j < |facts| ==> OtherText(Sorted(facts)[i], Sorted(facts)[j]);
  }

  lemma BoundedKeeps(s: Rolling)
    requires ShardsDistinct(s) && Confident(s.facts)
    ensures ShardsDistinct(Bounded(s)) && Confident(Bounded(s).facts) && WithinCaps(Bounded(s))
    ensures FactsDistinct(s.facts) ==> FactsDistinct(Bounded(s).facts)
  {
    SortedShape(s.facts);
    if FactsDistinct(s.facts) {
      SortedDistinct(s.facts);
    }
    var f := Sorted(s.facts);
    assert forall k :: 0 <= k < |f| ==> f[k] in s.facts;
  }

  // ----- Whole histories of merge batches

  datatype Batch = Batch(instructions: seq<Instruction>, lastIdx: nat)

  /** The caller keeps the previous summary when a batch is refused. */
  function After(prev: Rolling, b: Batch): Rolling {
    var r := Merge(prev, b.instructions, b.lastIdx);
    if r.Ok? then r.value else prev
  }

  function History(s: Rolling, batches: seq<Batch>): Rolling
    decreases |batches|
  {
    if batches == [] then s else History(After(s, batches[0]), batches[1..])
  }

  function Successes(s: Rolling, batches: seq<Batch>): nat
    decreases |batches|
  {
    if batches == [] then 0
    else
      var rest := Successes(After(s, batches[0]), batches[1..]);
      (if Merge(s, batches[0].instructions, batches[0].lastIdx).Ok? then 1 else 0) + rest
  }

  predicate NoUpdates(batches: seq<Batch>) {
    forall b :: b in batches ==> forall i :: 0 <= i < |b.instructions| ==> !b.instructions[i].UpdateFact?
  }

  predicate RollingOk(s: Rolling) {
    ShardsDistinct(s) && Confident(s.facts) && WithinCaps(s)
  }

  /** One batch, accepted or refused. */
  lemma AfterKeeps(s: Rolling, b: Batch)
    requires RollingOk(s)
    ensures RollingOk(After(s, b))
    ensures FactsDistinct(s.facts) && (forall i :: 0 <= i < |b.instructions| ==> !b.instructions[i].UpdateFact?) ==>
              FactsDistinct(After(s, b).facts)
    ensures s.covered <= After(s, b).covered
  {
    var r := ApplyAll(s, b.instructions);
    if r.Ok? {
      ApplyAllKeeps(s, b.instructions);
      BoundedKeeps(r.value.(version := Min(s.version + 1, U32_MAX), covered := Max(b.lastIdx, s.covered)));
    }
  }

  lemma {:induction false} HistoryKeeps(s: Rolling, batches: seq<Batch>)
    requires RollingOk(s) && s.version <= U32_MAX
    ensures RollingOk(History(s, batches))
    ensures NoUpdates(batches) && FactsDistinct(s.facts) ==> FactsDistinct(History(s, batches).facts)
    ensures History(s, batches).version == Min(s.version + Successes(s, batches), U32_MAX)
    ensures s.covered <= History(s, batches).covered
    decreases |batches|
  {
    if batches != [] {
      assert batches[0] in batches;
      AfterKeeps(s, batches[0]);
      HistoryKeeps(After(s, batches[0]), batches[1..]);
    }
  }

  /**
   * From the empty summary, over any sequence of merge batches, accepted or refused: all five caps hold,
   * every confidence is in [0, 1], decisions, open items, errors and evidence never repeat, the version
   * counts the accepted batches up to its saturation, and without fact updates no fact repeats either.
   */
  lemma EveryHistoryIsSound(batches: seq<Batch>)
    ensures RollingOk(History(EMPTY, batches))
    ensures History(EMPTY, batches).version == Min(Successes(EMPTY, batches), U32_MAX)
    ensures NoUpdates(batches) ==> FactsDistinct(History(EMPTY, batches).facts)
  {
    HistoryKeeps(EMPTY, batches);
  }

  lemma {:induction false} HistorySplit(s: Rolling, a: seq<Batch>, b: seq<Batch>)
    ensures History(s, a + b) == History(History(s, a), b)
    decreases |a|
  {
    if a == [] {
      assert a + b == b;
    } else {
      assert (a + b)[1..] == a[1..] + b;
      HistorySplit(After(s, a[0]), a[1..], b);
    }
  }

  /** Coverage never regresses from any point of a history to any later one. */
  lemma CoverageNeverRegresses(batches: seq<Batch>, more: seq<Batch>)
    ensures History(EMPTY, batches).covered <= History(EMPTY, batches + more).covered
  {
    HistoryKeeps(EMPTY, batches);
    HistorySplit(EMPTY, batches, more);
    HistoryKeeps(History(EMPTY, batches), more);
  }

  /** A fact update repeats a text if and only if it writes the text of another fact. */
  lemma UpdateRepeatsIff(s: Rolling, id: string, text: Option<string>, confidence: Option<real>)
    requires FactsDistinct(s.facts)
    ensures var i := FactById(s.facts, id);
            FactsDistinct(ApplySingle(s, UpdateFact(id, text, confidence)).value.facts) <==>
            !(i < |s.facts| && text.Some? && T.Trim(text.value) != "" &&
              exists j :: 0 <= j < |s.facts| && j != i && s.facts[j].text == T.Trim(text.value))
  {
    var i := FactById(s.facts, id);
    var r := ApplySingle(s, UpdateFact(id, text, confidence)).value.facts;
    if i < |s.facts| && text.Some? && T.Trim(text.value) != "" {
      assert r[i].text == T.Trim(text.value);
      if j :| 0 <= j < |s.facts| && j != i && s.facts[j].text == T.Trim(text.value) {
        assert r[j].text == r[i].text;
      }
    }
  }

  // ----- What is refused and what is added

  /** The text an instruction cannot do without is blank. */
  predicate IsBlankInstruction(ins: Instruction) {
    match ins
    case SetTaskContract(text) => T.Trim(text) == ""
    case AddFact(text, _, _) => T.Trim(text) == ""
    case AddDecision(text, _, _) => T.Trim(text) == ""
    case AddOpenItem(text, _) => T.Trim(text) == ""
    case AddError(text) => T.Trim(text) == ""
    case AddEvidence(id, _) => T.Trim(id) == ""
    case _ => false
  }

  lemma {:induction false} ApplyAllRefusedIff(s: Rolling, instructions: seq<Instruction>)
    ensures ApplyAll(s, instructions).Err? <==>
            exists i :: 0 <= i < |instructions| && IsBlankInstruction(instructions[i])
    decreases |instructions|
  {
    if instructions != [] {
      var first, rest := instructions[0], instructions[1..];
      assert ApplySingle(s, first).Err? <==> IsBlankInstruction(first);
      if !IsBlankInstruction(first) {
        ApplyAllRefusedIff(ApplySingle(s, first).value, rest);
        assert forall i :: 0 <= i < |rest| ==> rest[i] == instructions[i + 1];
        assert forall i :: 1 <= i < |instructions| ==> instructions[i] == rest[i - 1];
      }
    }
  }

  /**
   * A batch is refused, and changes nothing, if and only if one of its instructions lacks its text, whatever
   * the summary holds.
   */
  lemma BatchRefusedIff(s: Rolling, b: Batch)
    ensures Merge(s, b.instructions, b.lastIdx).Err? <==>
            exists i :: 0 <= i < |b.instructions| && IsBlankInstruction(b.instructions[i])
    ensures Merge(s, b.instructions, b.lastIdx).Err? ==> After(s, b) == s
  {
    ApplyAllRefusedIff(s, b.instructions);
  }

  /**
   * Adding a fact makes its text known exactly once more than before if it was new, and otherwise
   * strengthens the first fact of that text; no other fact and no other shard changes.
   */
  lemma AddedFactIsKnown(s: Rolling, raw: string, confidence: real, evidence: Option<Evidence>)
    requires T.Trim(raw) != "" && Confident(s.facts)
    ensures var r := ApplySingle(s, AddFact(raw, confidence, evidence)).value;
            var known := exists f :: f in s.facts && f.text == T.Trim(raw);
            && r == s.(facts := r.facts)
            && |r.facts| == |s.facts| + (if known then 0 else 1)
            && (exists f :: f in r.facts && f.text == T.Trim(raw))
            && (forall k :: 0 <= k < |s.facts| ==>
                  && r.facts[k].id == s.facts[k].id && r.facts[k].text == s.facts[k].text
                  && r.facts[k].confidence >= s.facts[k].confidence
                  && (s.facts[k].evidence.Some? ==> r.facts[k].evidence == s.facts[k].evidence)
                  && (k != FactByText(s.facts, T.Trim(raw)) ==> r.facts[k] == s.facts[k]))
  {
    var i := FactByText(s.facts, T.Trim(raw));
    var r := ApplySingle(s, AddFact(raw, confidence, evidence)).value;
    assert i < |s.facts| ==> s.facts[i] in s.facts;
    assert i == |s.facts| ==> r.facts[i].text == T.Trim(raw);
    assert i < |r.facts| && r.facts[i].text == T.Trim(raw) && r.facts[i] in r.facts;
  }
}
