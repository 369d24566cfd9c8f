/**
 * What each merge instruction leaves in the summary (apply_single in
 * piscis-kernel/src/agent/summary_worker.rs).
 */
module SummaryEffects {
  import opened Common
  import opened Summary
  import T = Text

  // ----- Removing by id

  /** The members of `kept` are those of `all` that meet `stays`, each as often, and in the same order. */
  ghost predicate IsRest<X(!new)>(kept: seq<X>, all: seq<X>, stays: X -> bool) {
    if all == [] then kept == []
    else if stays(all[0]) then kept != [] && kept[0] == all[0] && IsRest(kept[1..], all[1..], stays)
    else IsRest(kept, all[1..], stays)
  }

  lemma {:induction false} RestMembers<X(!new)>(kept: seq<X>, all: seq<X>, stays: X -> bool)
    requires IsRest(kept, all, stays)
    ensures forall x :: x in kept <==> x in all && stays(x)
  {
    if all != [] {
      assert all == [all[0]] + all[1..];
      if stays(all[0]) {
        assert kept == [kept[0]] + kept[1..];
        RestMembers(kept[1..], all[1..], stays);
      } else {
        RestMembers(kept, all[1..], stays);
      }
    }
  }

  lemma {:induction false} WithoutFactIsRest(facts: seq<Fact>, id: string)
    ensures IsRest(WithoutFact(facts, id), facts, (f: Fact) => f.id != id)
  {
    if facts != [] {
      WithoutFactIsRest(facts[1..], id);
      var rest := WithoutFact(facts[1..], id);
      assert ([facts[0]] + rest)[1..] == rest && [] + rest == rest;
    }
  }

  lemma {:induction false} WithoutItemIsRest(items: seq<OpenItem>, id: string)
    ensures IsRest(WithoutItem(items, id), items, (o: OpenItem) => o.id != id)
  {
    if items != [] {
      WithoutItemIsRest(items[1..], id);
      var rest := WithoutItem(items[1..], id);
      assert ([items[0]] + rest)[1..] == rest && [] + rest == rest;
    }
  }

  /** Invalidating a fact removes all facts with its id and nothing else. */
  lemma InvalidatedFactIsGone(s: Rolling, id: string)
    ensures var r := ApplySingle(s, InvalidateFact(id));
            r.Ok? && r.value == s.(facts := r.value.facts) && IsRest(r.value.facts, s.facts, (f: Fact) => f.id != id)
  {
    WithoutFactIsRest(s.facts, id);
  }

  /** Closing an open item removes all items with its id and nothing else. */
  lemma ClosedItemIsGone(s: Rolling, id: string)
    ensures var r := ApplySingle(s, CloseOpenItem(id));
            && r.Ok? && r.value == s.(openItems := r.value.openItems)
            && IsRest(r.value.openItems, s.openItems, (o: OpenItem) => o.id != id)
  {
    WithoutItemIsRest(s.openItems, id);
  }

  // ----- Adding

  /** `s` with at most one member more, at the end, that meets `fits`; and it has one that does. */
  ghost predicate HasOneMore<X(!new)>(now: seq<X>, before: seq<X>, fits: X -> bool) {
    if exists x :: x in before && fits(x) then now == before
    else |now| == |before| + 1 && now[..|before|] == before && fits(now[|before|])
  }

  /** A contract, an error and an evidence are stored trimmed; what is known already is not stored twice. */
  lemma TextIsStored(s: Rolling, text: string, note: string)
    requires T.Trim(text) != ""
    ensures ApplySingle(s, SetTaskContract(text)) == Ok(s.(taskContract := T.Trim(text)))
    ensures var r := ApplySingle(s, AddError(text));
            && r.Ok? && r.value == s.(errors := r.value.errors)
            && HasOneMore(r.value.errors, s.errors, (e: string) => e == T.Trim(text))
    ensures var r := ApplySingle(s, AddEvidence(text, note));
            && r.Ok? && r.value == s.(evidence := r.value.evidence)
            && HasOneMore(r.value.evidence, s.evidence, (e: Evidence) => e.toolUseId == text)
            && ((forall e :: e in s.evidence ==> e.toolUseId != text) ==>
                  r.value.evidence[|s.evidence|].note == T.Trim(note))
  {
  }

  /** A decision and an open item are stored with all they come with. */
  lemma EntryIsStored(s: Rolling, text: string, rationale: string, evidence: Option<Evidence>,
                      assignee: Option<string>)
    requires T.Trim(text) != ""
    ensures var r := ApplySingle(s, AddDecision(text, rationale, evidence));
            && r.Ok? && r.value == s.(decisions := r.value.decisions)
            && HasOneMore(r.value.decisions, s.decisions, (d: Decision) => d.text == T.Trim(text))
            && ((forall d :: d in s.decisions ==> d.text != T.Trim(text)) ==>
                  var d := r.value.decisions[|s.decisions|];
                  d.rationale == T.Trim(rationale) && d.evidence == evidence)
    ensures var r := ApplySingle(s, AddOpenItem(text, assignee));
            && r.Ok? && r.value == s.(openItems := r.value.openItems)
            && HasOneMore(r.value.openItems, s.openItems, (o: OpenItem) => o.text == T.Trim(text))
            && ((forall o :: o in s.openItems ==> o.text != T.Trim(text)) ==>
                  r.value.openItems[|s.openItems|].assignee == assignee)
  {
  }

  // ----- Facts

  /** `i` is the first fact that meets `p`. */
  predicate IsFirst(facts: seq<Fact>, p: Fact -> bool, i: nat) {
    i < |facts| && p(facts[i]) && forall k :: 0 <= k < i ==> !p(facts[k])
  }

  lemma FirstIs(facts: seq<Fact>, p: Fact -> bool, i: nat)
    requires IsFirst(facts, p, i)
    ensures FirstFact(facts, p) == i
  {
  }

  lemma NoneIsFirst(facts: seq<Fact>, p: Fact -> bool)
    requires forall f :: f in facts ==> !p(f)
    ensures FirstFact(facts, p) == |facts|
  {
  }

  /** All facts but number `i` are as they were. */
  predicate OnlyChanged(now: seq<Fact>, before: seq<Fact>, i: nat) {
    i < |before| == |now| && forall k :: 0 <= k < |before| && k != i ==> now[k] == before[k]
  }

  /** A new fact comes with its evidence and its confidence, forced into [0, 1]. */
  lemma NewFactIsStored(s: Rolling, text: string, confidence: real, evidence: Option<Evidence>)
    requires T.Trim(text) != "" && forall f :: f in s.facts ==> f.text != T.Trim(text)
    ensures var r := ApplySingle(s, AddFact(text, confidence, evidence));
            && r.Ok? && r.value == s.(facts := r.value.facts)
            && |r.value.facts| == |s.facts| + 1 && r.value.facts[..|s.facts|] == s.facts
            && var f := r.value.facts[|s.facts|];
               && f.text == T.Trim(text) && f.evidence == evidence
               && (0.0 <= confidence <= 1.0 ==> f.confidence == confidence)
               && (confidence < 0.0 ==> f.confidence == 0.0) && (confidence > 1.0 ==> f.confidence == 1.0)
  {
    NoneIsFirst(s.facts, (f: Fact) => f.text == T.Trim(text));
  }

  /** A fact seen again gains a tenth of confidence, up to one, and evidence if it had none. */
  lemma KnownFactIsStrengthened(s: Rolling, text: string, confidence: real, evidence: Option<Evidence>, i: nat)
    requires T.Trim(text) != "" && IsFirst(s.facts, (f: Fact) => f.text == T.Trim(text), i)
    ensures var r := ApplySingle(s, AddFact(text, confidence, evidence));
            && r.Ok? && r.value == s.(facts := r.value.facts) && OnlyChanged(r.value.facts, s.facts, i)
            && var (was, now) := (s.facts[i], r.value.facts[i]);
               && now.id == was.id && now.text == was.text
               && now.confidence == (if was.confidence > 0.9 then 1.0 else was.confidence + 0.1)
               && now.evidence == (if was.evidence.Some? then was.evidence else evidence)
  {
    FirstIs(s.facts, (f: Fact) => f.text == T.Trim(text), i);
  }

  /** An update writes the text it gives, unless that is blank, and the confidence it gives. */
  lemma UpdatedFactIs(s: Rolling, id: string, text: Option<string>, confidence: Option<real>, i: nat)
    requires IsFirst(s.facts, (f: Fact) => f.id == id, i)
    ensures var r := ApplySingle(s, UpdateFact(id, text, confidence));
            && r.Ok? && r.value == s.(facts := r.value.facts) && OnlyChanged(r.value.facts, s.facts, i)
            && var (was, now) := (s.facts[i], r.value.facts[i]);
               && now.id == was.id && now.evidence == was.evidence
               && now.text == (if text.Some? && T.Trim(text.value) != "" then T.Trim(text.value) else was.text)
               && (confidence.None? ==> now.confidence == was.confidence)
               && (confidence.Some? && 0.0 <= confidence.value <= 1.0 ==> now.confidence == confidence.value)
               && (confidence.Some? && confidence.value < 0.0 ==> now.confidence == 0.0)
               && (confidence.Some? && confidence.value > 1.0 ==> now.confidence == 1.0)
  {
    FirstIs(s.facts, (f: Fact) => f.id == id, i);
  }

  /** An update of an unknown fact, and the instruction that does nothing, change nothing. */
  lemma UnknownIdIsIgnored(s: Rolling, id: string, text: Option<string>, confidence: Option<real>)
    requires forall f :: f in s.facts ==> f.id != id
    ensures ApplySingle(s, UpdateFact(id, text, confidence)) == Ok(s) && ApplySingle(s, Noop) == Ok(s)
  {
    NoneIsFirst(s.facts, (f: Fact) => f.id == id);
  }

  // ----- What a merge keeps of each shard

  /** `kept` is `all`, or its last `n` members if it has more. */
  predicate IsEndOf<X(==)>(kept: seq<X>, all: seq<X>, n: nat) {
    if |all| <= n then kept == all
    else |kept| == n && forall k :: 0 <= k < n ==> kept[k] == all[|all| - n + k]
  }

  /** An accepted batch keeps the newest entries of every shard but the facts, up to its cap. */
  lemma MergeKeepsNewest(s: Rolling, b: Batch)
    requires Merge(s, b.instructions, b.lastIdx).Ok?
    ensures var all, kept := ApplyAll(s, b.instructions).value, Merge(s, b.instructions, b.lastIdx).value;
            && IsEndOf(kept.decisions, all.decisions, 20) && IsEndOf(kept.openItems, all.openItems, 30)
            && IsEndOf(kept.errors, all.errors, 20) && IsEndOf(kept.evidence, all.evidence, 60)
            && kept.taskContract == all.taskContract
  {
  }
}
