/**
 * Exactly when sanitising removes every orphan result from the carriers behind a caller.
 *
 * The comment on the pass says that orphan results in a caller's window are removed. They are removed only
 * while the caller itself is stripped, and only from the window it has at that moment.
 */
module SanitizeOrphans {
  import opened Common
  import opened Ids
  import opened MessageLog
  import opened Sanitize
  import opened SanitizeTwice
  import opened SanitizeMixed

  /** The run behind every caller answers none but its own calls. */
  predicate OrphanFree(msgs: seq<Message>) {
    msgs != [] ==>
      && (msgs[0].role == "assistant" && Calls(msgs[0]) != [] ==> Answered(msgs[1..]) <= Elems(Calls(msgs[0])))
      && OrphanFree(msgs[1..])
  }

  /** The run the pass leaves behind `m` answers none but the calls it leaves to `m`. */
  predicate LeavesNoOrphan(m: Message, rest: seq<Message>) {
    m.role == "assistant" && Calls(m) != [] ==>
      if !NeedsStrip(m, rest) then Joined(rest) <= Elems(Calls(m))
      else Retained(m, rest) == {} || JoinedKeeping(rest, Retained(m, rest)) <= Retained(m, rest)
  }

  /** The check a caller can make before sanitising. */
  predicate NoOrphanStays(msgs: seq<Message>) {
    msgs != [] ==> LeavesNoOrphan(msgs[0], msgs[1..]) && NoOrphanStays(msgs[1..])
  }

  lemma {:induction false} StripRunOrphans(msgs: seq<Message>, keep: set<Id>)
    requires CarriersNotAssistant(msgs)
    ensures NoOrphanStays(StripRun(msgs, keep)) == NoOrphanStays(msgs)
  {
    if msgs != [] && IsCarrier(msgs[0]) {
      assert msgs == [msgs[0]] + msgs[1..];
      StripRunHead(msgs, keep);
      StripRunOrphans(msgs[1..], keep);
    }
  }

  lemma KeepsSomeIff(m: Message, rest: seq<Message>)
    requires NeedsStrip(m, rest)
    ensures Calls(StrippedCaller(m, rest)) == [] <==> Retained(m, rest) == {}
  {
    StrippedCallerKeeps(m, rest);
    var calls := Calls(StrippedCaller(m, rest));
    if calls != [] {
      assert calls[0] in Elems(calls);
    }
  }

  lemma StrippedOrphanFreeIff(m: Message, rest: seq<Message>)
    requires CarriersNotAssistant(rest) && NeedsStrip(m, rest)
    ensures OrphanFree(Sanitized([m] + rest)) <==>
            OrphanFree(Sanitized(StripRun(rest, Retained(m, rest)))) && LeavesNoOrphan(m, rest)
  {
    var keep := Retained(m, rest);
    SanitizedStripped(m, rest);
    StrippedCallerKeeps(m, rest);
    KeepsSomeIff(m, rest);
    StripRunSettled(rest, keep);
    JoinedIsAnswered(StripRun(rest, keep));
    JoinedStripRun(rest, keep);
  }

  /**
   * For every log whose carriers are not assistant messages, mixed or not: afterwards the run behind each
   * caller answers none but its own calls if and only if no orphan result stands behind, or gets joined to, a
   * caller whose calls are all answered, nor is left to the run of a stripped caller that keeps a call.
   */
  lemma {:induction false} OrphanFreeIff(msgs: seq<Message>)
    requires CarriersNotAssistant(msgs)
    ensures OrphanFree(Sanitized(msgs)) <==> NoOrphanStays(msgs)
    decreases |msgs|
  {
    if msgs != [] {
      var m, rest := msgs[0], msgs[1..];
      assert msgs == [m] + rest;
      assert CarriersNotAssistant(rest);
      if !NeedsStrip(m, rest) {
        OrphanFreeIff(rest);
        SanitizedUnstripped(msgs);
        JoinedIsAnswered(rest);
      } else {
        StrippedOrphanFreeIff(m, rest);
        StripRunSettled(rest, Retained(m, rest));
        OrphanFreeIff(StripRun(rest, Retained(m, rest)));
        StripRunOrphans(rest, Retained(m, rest));
      }
    }
  }

  /** One call, and its answer with an orphan behind it. */
  predicate AskedAndAnswered(caller: Message, reply: Message, id: Id, orphan: Id) {
    && id != orphan
    && caller == Message("assistant", Blocks([Ask(id)]))
    && reply == Message("user", Blocks([Answer(id), Answer(orphan)]))
  }

  lemma CallerId(caller: Message, id: Id)
    requires caller == Message("assistant", Blocks([Ask(id)]))
    ensures Calls(caller) == [id] && !IsCarrier(caller)
  {
    BlocksCons(Ask(id), []);
    assert [Ask(id)] + [] == BlocksOf(caller);
    assert Calls(caller) == [id] + [];
  }

  lemma ReplyIds(reply: Message, id: Id, orphan: Id)
    requires reply == Message("user", Blocks([Answer(id), Answer(orphan)]))
    ensures Results(reply) == [id, orphan] && IsCarrier(reply) && PureCarrier(reply)
  {
    BlocksCons(Answer(orphan), []);
    BlocksCons(Answer(id), [Answer(orphan)]);
    assert [Answer(orphan)] + [] == [Answer(orphan)];
    assert [Answer(id)] + [Answer(orphan)] == BlocksOf(reply);
    assert Results(reply) == [id] + ([orphan] + []);
    assert BlocksOf(reply)[0] in BlocksOf(reply);
  }

  /** An orphan result behind a caller whose one call is answered stays. */
  lemma OrphanStays(caller: Message, reply: Message, id: Id, orphan: Id)
    requires AskedAndAnswered(caller, reply, id, orphan)
    ensures PureCarriers([caller, reply]) && CarriersNotAssistant([caller, reply])
    ensures !OrphanFree(Sanitized([caller, reply]))
  {
    CallerId(caller, id);
    ReplyIds(reply, id, orphan);
    var rest := [reply];
    assert [caller, reply][1..] == rest && rest[1..] == [];
    assert Answered(rest) == Elems(Results(reply)) + {};
    assert orphan in Elems(Results(reply)) && id in Elems(Results(reply)) && orphan !in Elems(Calls(caller));
    NeedsStripIff(caller, rest);
    assert !LeavesNoOrphan(caller, rest);
    OrphanFreeIff([caller, reply]);
  }
}
