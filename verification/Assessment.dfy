/**
 * The assessment of a project from its messages and todos (assess_project_state in
 * piscis-core/src/project_state.rs).
 */
module Assessment {
  import opened Common
  import opened Integration
  import opened Sorting
  import T = Text

  datatype Signal = FollowUpNeeded | Waiting | ReadyForReview

  datatype SenderState = SenderState(signal: Signal, mentionsPiscis: bool)

  /** A pool message with the state extracted from its metadata or its text, if it carries one. */
  datatype Message = Message(id: int, sender: string, state: Option<SenderState>, isTaskFailed: bool, createdAt: Time)

  datatype Decision = Continue | SupervisorDecisionRequired | EscalateToHuman | ReadyForPiscisReview

  datatype Reason =
    | UnfinishedRemain(n: nat) | AreBlocked(n: nat) | AwaitReview(n: nat)
    | FailuresObserved(n: nat, unresolved: bool) | NeedsHumanJudgment
    | RequestMoreWork(n: nat) | ReadyWithoutHandoff(n: nat)
    | NotMerged(n: nat) | AwaitUpstream(n: nat) | WorkExhausted

  /** The numbers an assessment rests on. */
  datatype Tally = Tally(
    active: nat, unfinished: nat, blocked: nat, needsReview: nat, failed: nat, stillBlocks: bool,
    followUps: nat, ready: nat, handoffs: nat, integrationReady: nat, dependencyBlocked: nat)

  /** What the one-line summary says. */
  datatype Summary =
    | Quiescent
    | InProgress(unfinished: nat, blocked: nat, needsReview: nat, failed: nat)
    | FailuresUnresolved(failed: nat)
    | WaitingForReview(needsReview: nat)
    | HandedOff(handoffs: nat)
    | AskingForMore(followUps: nat)
    | AwaitingMerge(integrationReady: nat)
    | ReadyButNotHandedOff(ready: nat)
    | NothingHandedOff

  datatype Assessed = Assessed(decision: Decision, tally: Tally, reasons: seq<Reason>, summary: Summary)

  // ----- The latest signal of each sender

  predicate Before(a: Message, b: Message) {
    a.createdAt.ticks < b.createdAt.ticks || (a.createdAt == b.createdAt && a.id < b.id)
  }

  predicate Signals(m: Message, sender: string) { m.sender == sender && m.state.Some? }

  /** `m` is the sender's signalling message with the greatest time and id. */
  predicate IsLatest(messages: seq<Message>, sender: string, m: Message) {
    m in messages && Signals(m, sender) && forall o :: o in messages && Signals(o, sender) && o != m ==> Before(o, m)
  }

  function Sorted(messages: seq<Message>): seq<Message> { Sort(messages, Before) }

  predicate InOrder(s: seq<Message>) {
    forall i, j :: 0 <= i < j < |s| ==> Before(s[i], s[j])
  }

  predicate MessageIdsDistinct(messages: seq<Message>) {
    forall i, j :: 0 <= i < j < |messages| ==> messages[i].id != messages[j].id
  }

  predicate OtherId(a: Message, b: Message) { a.id != b.id }

  lemma SortedInOrder(messages: seq<Message>)
    requires MessageIdsDistinct(messages)
    ensures InOrder(Sorted(messages))
  {
    assert Apart(messages, OtherId);
    SortApart(messages, Before, OtherId);
    SortOrdered(messages, Before);
    var s := Sorted(messages);
    forall i, j | 0 <= i < j < |s|
      ensures Before(s[i], s[j])
    {
      assert OtherId(s[i], s[j]) && !Before(s[j], s[i]);
    }
  }

  /** The last signalling message of each sender, in the order given. */
  function LastSignals(ordered: seq<Message>): map<string, Message> {
    if ordered == [] then map[]
    else
      var m := ordered[|ordered| - 1];
      var before := LastSignals(ordered[..|ordered| - 1]);
      if m.state.Some? then before[m.sender := m] else before
  }

  function Table(messages: seq<Message>): map<string, Message> { LastSignals(Sorted(messages)) }

  lemma {:induction false} LastSignalsKeys(ordered: seq<Message>, s: string)
    ensures s in LastSignals(ordered) <==> exists m :: m in ordered && Signals(m, s)
  {
    if ordered != [] {
      var init, last := ordered[..|ordered| - 1], ordered[|ordered| - 1];
      LastSignalsKeys(init, s);
      assert forall m :: m in ordered <==> m in init || m == last;
      assert Signals(last, s) ==> last in ordered;
    }
  }

  lemma {:induction false} LastIsLatest(ordered: seq<Message>, s: string)
    requires InOrder(ordered) && s in LastSignals(ordered)
    ensures IsLatest(ordered, s, LastSignals(ordered)[s])
  {
    var init, last := ordered[..|ordered| - 1], ordered[|ordered| - 1];
    assert forall m :: m in ordered <==> m in init || m == last;
    if Signals(last, s) {
      assert forall m :: m in init ==> Before(m, last);
    } else {
      LastIsLatest(init, s);
    }
  }

  /** The table holds, for each sender that signals, its signalling message with the greatest time and id. */
  lemma TableIsLatest(messages: seq<Message>, s: string)
    requires MessageIdsDistinct(messages)
    ensures s in Table(messages) <==> exists m :: m in messages && Signals(m, s)
    ensures s in Table(messages) ==> IsLatest(messages, s, Table(messages)[s])
  {
    SortMembers(messages, Before);
    SortedInOrder(messages);
    LastSignalsKeys(Sorted(messages), s);
    if s in Table(messages) {
      LastIsLatest(Sorted(messages), s);
    }
    assert forall m :: m in Sorted(messages) <==> m in messages;
  }

  lemma TableIsOrderFree(a: seq<Message>, b: seq<Message>)
    requires multiset(a) == multiset(b) && MessageIdsDistinct(a) && MessageIdsDistinct(b)
    ensures Table(a) == Table(b)
  {
    SameMembers(a, b);
    forall s
      ensures s in Table(a) <==> s in Table(b)
      ensures s in Table(a) ==> Table(a)[s] == Table(b)[s]
    {
      TableIsLatest(a, s);
      TableIsLatest(b, s);
      if s in Table(a) {
        LatestIsUnique(a, s, Table(a)[s], Table(b)[s]);
      }
    }
  }

  lemma LatestIsUnique(messages: seq<Message>, s: string, m: Message, n: Message)
    requires IsLatest(messages, s, m) && IsLatest(messages, s, n)
    ensures m == n
  {
  }

  // ----- The tally

  ghost predicate IsMax(times: set<Time>, x: Time) { x in times && forall y :: y in times ==> y.ticks <= x.ticks }

  lemma {:induction false} HasMax(times: set<Time>)
    requires times != {}
    ensures exists x :: IsMax(times, x)
  {
    var x :| x in times;
    var rest := times - {x};
    if rest == {} {
      assert times == {x};
      assert IsMax(times, x);
    } else {
      HasMax(rest);
      var y :| IsMax(rest, y);
      assert times == rest + {x};
      assert IsMax(times, if x.ticks < y.ticks then y else x);
    }
  }

  function LatestTime(times: set<Time>): (r: Option<Time>)
    ensures r.None? <==> times == {}
    ensures r.Some? ==> IsMax(times, r.value)
  {
    if times == {} then None
    else
      HasMax(times);
      var x :| x in times && forall y :: y in times ==> y.ticks <= x.ticks;
      Some(x)
  }

  predicate IsHandoff(m: Message) {
    m.state.Some? && m.state.value.signal.ReadyForReview? && m.state.value.mentionsPiscis
  }

  predicate IsReady(m: Message) { m.state.Some? && m.state.value.signal.ReadyForReview? }

  predicate AsksForMore(m: Message) { m.state.Some? && !m.state.value.signal.ReadyForReview? }

  function FailureTimes(messages: seq<Message>): set<Time> {
    set m | m in messages && m.isTaskFailed :: m.createdAt
  }

  function ReviewTimes(todos: seq<Todo>): set<Time> {
    set t | t in todos && t.status == "needs_review" :: t.updatedAt
  }

  function HandoffTimes(table: map<string, Message>): set<Time> {
    set s | s in table && IsHandoff(table[s]) :: table[s].createdAt
  }

  predicate Later(x: Option<Time>, y: Time) { x.Some? && x.value.ticks > y.ticks }

  predicate StillBlocks(failed: Option<Time>, handoff: Option<Time>, review: Option<Time>) {
    failed.Some? && !(Later(handoff, failed.value) || Later(review, failed.value))
  }

  predicate IsUnfinished(t: Todo) { t.status == "todo" || t.status == "in_progress" || t.status == "blocked" }

  predicate IsActive(t: Todo) { IsUnfinished(t) || t.status == "needs_review" }

  function TallyOf(messages: seq<Message>, todos: seq<Todo>, table: map<string, Message>): Tally {
    Tally(
      active := Count(todos, IsActive),
      unfinished := Count(todos, IsUnfinished),
      blocked := Count(todos, (t: Todo) => t.status == "blocked"),
      needsReview := Count(todos, (t: Todo) => t.status == "needs_review"),
      failed := Count(messages, (m: Message) => m.isTaskFailed),
      stillBlocks := StillBlocks(LatestTime(FailureTimes(messages)), LatestTime(HandoffTimes(table)),
                                 LatestTime(ReviewTimes(todos))),
      followUps := |set s | s in table && AsksForMore(table[s])|,
      ready := |set s | s in table && IsReady(table[s])|,
      handoffs := |set s | s in table && IsHandoff(table[s])|,
      integrationReady := Count(todos, IntegrationReady),
      dependencyBlocked := BlockedCount(todos))
  }

  // ----- Reasons and decision

  function When(c: bool, r: Reason): seq<Reason> { if c then [r] else [] }

  function Reasons(t: Tally): seq<Reason> { WithSignalReasons(TodoReasons(t), t) }

  function TodoReasons(t: Tally): seq<Reason> {
    When(t.unfinished > 0, UnfinishedRemain(t.unfinished))
    + When(t.blocked > 0, AreBlocked(t.blocked))
    + When(t.needsReview > 0, AwaitReview(t.needsReview))
    + When(t.failed > 0, FailuresObserved(t.failed, t.stillBlocks))
    + When(t.stillBlocks, NeedsHumanJudgment)
  }

  function WithSignalReasons(given: seq<Reason>, t: Tally): seq<Reason> {
    given
    + When(t.followUps > 0, RequestMoreWork(t.followUps))
    + When(t.ready > 0 && t.handoffs == 0, ReadyWithoutHandoff(t.ready))
    + When(t.integrationReady > 0, NotMerged(t.integrationReady))
    + When(t.dependencyBlocked > 0, AwaitUpstream(t.dependencyBlocked))
    + When(t.unfinished == 0 && t.blocked == 0 && t.needsReview == 0 && !t.stillBlocks && t.followUps == 0 &&
           t.handoffs == 0 && t.integrationReady == 0, WorkExhausted)
  }

  function Decide(t: Tally): Decision {
    if t.unfinished > 0 then Continue
    else if t.stillBlocks then EscalateToHuman
    else if t.needsReview > 0 then ReadyForPiscisReview
    else if t.handoffs > 0 then ReadyForPiscisReview
    else if t.followUps > 0 then Continue
    else if t.integrationReady > 0 then ReadyForPiscisReview
    else SupervisorDecisionRequired
  }

  function Summarise(t: Tally): Summary {
    if t.unfinished > 0 then InProgress(t.unfinished, t.blocked, t.needsReview, t.failed)
    else if t.stillBlocks then FailuresUnresolved(t.failed)
    else if t.needsReview > 0 then WaitingForReview(t.needsReview)
    else if t.handoffs > 0 then HandedOff(t.handoffs)
    else if t.followUps > 0 then AskingForMore(t.followUps)
    else if t.integrationReady > 0 then AwaitingMerge(t.integrationReady)
    else if t.ready > 0 then ReadyButNotHandedOff(t.ready)
    else NothingHandedOff
  }

  const QUIESCENT := Assessed(Continue, Tally(0, 0, 0, 0, 0, false, 0, 0, 0, 0, 0), [], Quiescent)

  function Assess(messages: seq<Message>, todos: seq<Todo>): Assessed {
    if messages == [] && todos == [] then QUIESCENT
    else
      var tally := TallyOf(messages, todos, Table(messages));
      Assessed(Decide(tally), tally, Reasons(tally), Summarise(tally))
  }

  /** The loop over the messages in order of time: a later signal of a sender replaces an earlier one. */
  method LatestSignals(messages: seq<Message>) returns (latest: map<string, Message>)
    ensures latest == Table(messages)
    ensures MessageIdsDistinct(messages) ==>
              forall s :: s in latest ==> IsLatest(messages, s, latest[s])
    ensures MessageIdsDistinct(messages) ==>
              forall m :: m in messages && m.state.Some? ==> m.sender in latest
  {
    var ordered := Sorted(messages);
    latest := map[];
    var i := 0;
    while i < |ordered|
      invariant 0 <= i <= |ordered|
      invariant latest == LastSignals(ordered[..i])
    {
      var msg := ordered[i];
      assert ordered[..i + 1][..i] == ordered[..i];
      if msg.state.Some? {
        latest := latest[msg.sender := msg];
      }
      i := i + 1;
    }
    assert ordered[..i] == ordered;
    if MessageIdsDistinct(messages) {
      forall s { TableIsLatest(messages, s); }
      assert forall m :: m in messages && m.state.Some? ==> Signals(m, m.sender);
    }
  }

  method Push(reasons: seq<Reason>, c: bool, r: Reason) returns (pushed: seq<Reason>)
    ensures pushed == reasons + When(c, r)
  {
    pushed := reasons;
    if c {
      pushed := pushed + [r];
    }
  }

  /** The reasons, pushed one behind the other. */
  method AttentionReasons(t: Tally) returns (reasons: seq<Reason>)
    ensures reasons == Reasons(t)
  {
    reasons := When(t.unfinished > 0, UnfinishedRemain(t.unfinished));
    reasons := Push(reasons, t.blocked > 0, AreBlocked(t.blocked));
    reasons := Push(reasons, t.needsReview > 0, AwaitReview(t.needsReview));
    reasons := Push(reasons, t.failed > 0, FailuresObserved(t.failed, t.stillBlocks));
    reasons := Push(reasons, t.stillBlocks, NeedsHumanJudgment);
    reasons := Push(reasons, t.followUps > 0, RequestMoreWork(t.followUps));
    reasons := Push(reasons, t.ready > 0 && t.handoffs == 0, ReadyWithoutHandoff(t.ready));
    reasons := Push(reasons, t.integrationReady > 0, NotMerged(t.integrationReady));
    reasons := Push(reasons, t.dependencyBlocked > 0, AwaitUpstream(t.dependencyBlocked));
    reasons := Push(reasons, t.unfinished == 0 && t.blocked == 0 && t.needsReview == 0 && !t.stillBlocks &&
                             t.followUps == 0 && t.handoffs == 0 && t.integrationReady == 0, WorkExhausted);
  }

  /** The whole assessment, with its early returns; what decides about a human is told of the inputs themselves. */
  method AssessProjectState(messages: seq<Message>, todos: seq<Todo>) returns (a: Assessed)
    ensures a == Assess(messages, todos)
    ensures MessageIdsDistinct(messages) ==>
              (a.decision == EscalateToHuman <==> NeedsHuman(messages, todos))
  {
    if MessageIdsDistinct(messages) {
      EscalatesIff(messages, todos);
    }
    if messages == [] && todos == [] {
      return QUIESCENT;
    }
    var latest := LatestSignals(messages);
    var t := TallyOf(messages, todos, latest);
    var reasons := AttentionReasons(t);
    if t.unfinished > 0 {
      return Assessed(Continue, t, reasons, InProgress(t.unfinished, t.blocked, t.needsReview, t.failed));
    }
    if t.stillBlocks {
      return Assessed(EscalateToHuman, t, reasons, FailuresUnresolved(t.failed));
    }
    if t.needsReview > 0 {
      return Assessed(ReadyForPiscisReview, t, reasons, WaitingForReview(t.needsReview));
    }
    if t.handoffs > 0 {
      return Assessed(ReadyForPiscisReview, t, reasons, HandedOff(t.handoffs));
    }
    if t.followUps > 0 {
      return Assessed(Continue, t, reasons, AskingForMore(t.followUps));
    }
    if t.integrationReady > 0 {
      return Assessed(ReadyForPiscisReview, t, reasons, AwaitingMerge(t.integrationReady));
    }
    if t.ready > 0 {
      return Assessed(SupervisorDecisionRequired, t, reasons, ReadyButNotHandedOff(t.ready));
    }
    return Assessed(SupervisorDecisionRequired, t, reasons, NothingHandedOff);
  }

  // ----- What the assessment means

  /** Reordering the messages or the todos changes nothing in the assessment. */
  lemma AssessmentIsOrderFree(messages: seq<Message>, messages': seq<Message>, todos: seq<Todo>, todos': seq<Todo>)
    requires multiset(messages) == multiset(messages') && MessageIdsDistinct(messages) && MessageIdsDistinct(messages')
    requires multiset(todos) == multiset(todos') && IdsDistinct(todos) && IdsDistinct(todos')
    ensures Assess(messages, todos) == Assess(messages', todos')
  {
    TableIsOrderFree(messages, messages');
    MessageNumbersAreOrderFree(messages, messages');
    TodoNumbersAreOrderFree(todos, todos');
    assert |multiset(messages)| == |multiset(messages')| && |multiset(todos)| == |multiset(todos')|;
  }

  lemma MessageNumbersAreOrderFree(a: seq<Message>, b: seq<Message>)
    requires multiset(a) == multiset(b)
    ensures FailureTimes(a) == FailureTimes(b)
    ensures Count(a, (m: Message) => m.isTaskFailed) == Count(b, (m: Message) => m.isTaskFailed)
  {
    SameMembers(a, b);
    CountPermutes(a, b, (m: Message) => m.isTaskFailed);
  }

  lemma TodoNumbersAreOrderFree(a: seq<Todo>, b: seq<Todo>)
    requires multiset(a) == multiset(b) && IdsDistinct(a) && IdsDistinct(b)
    ensures ReviewTimes(a) == ReviewTimes(b) && BlockedCount(a) == BlockedCount(b)
    ensures Count(a, IsActive) == Count(b, IsActive) && Count(a, IsUnfinished) == Count(b, IsUnfinished)
    ensures Count(a, (t: Todo) => t.status == "blocked") == Count(b, (t: Todo) => t.status == "blocked")
    ensures Count(a, (t: Todo) => t.status == "needs_review") == Count(b, (t: Todo) => t.status == "needs_review")
    ensures Count(a, IntegrationReady) == Count(b, IntegrationReady)
  {
    SameMembers(a, b);
    BlockedCountIsOrderFree(a, b);
    CountPermutes(a, b, IsActive);
    CountPermutes(a, b, IsUnfinished);
    CountPermutes(a, b, (t: Todo) => t.status == "blocked");
    CountPermutes(a, b, (t: Todo) => t.status == "needs_review");
    CountPermutes(a, b, IntegrationReady);
  }

  /**
   * A project is escalated exactly when no todo is unfinished and some failure has neither a todo put up for
   * review after it nor a sender whose latest signal is a later handoff.
   */
  lemma EscalatesIff(messages: seq<Message>, todos: seq<Todo>)
    requires MessageIdsDistinct(messages)
    ensures Assess(messages, todos).decision == EscalateToHuman <==> NeedsHuman(messages, todos)
  {
    var table := Table(messages);
    FilterMembers(todos, IsUnfinished);
    assert Count(todos, IsUnfinished) > 0 <==> exists t :: t in todos && IsUnfinished(t) by {
      var found := Filter(todos, IsUnfinished);
      if |found| > 0 { assert found[0] in found; }
    }
    BlocksIff(messages, todos);
  }

  ghost predicate NeedsHuman(messages: seq<Message>, todos: seq<Todo>) {
    && (forall t :: t in todos ==> !IsUnfinished(t))
    && exists f :: f in messages && f.isTaskFailed && Unanswered(messages, todos, f.createdAt)
  }

  ghost predicate Unanswered(messages: seq<Message>, todos: seq<Todo>, at: Time) {
    && (forall t :: t in todos && t.status == "needs_review" ==> t.updatedAt.ticks <= at.ticks)
    && (forall m :: m in messages && IsHandoff(m) && IsLatest(messages, m.sender, m) ==> m.createdAt.ticks <= at.ticks)
  }

  lemma HandoffTimesAre(messages: seq<Message>, x: Time)
    requires MessageIdsDistinct(messages)
    ensures x in HandoffTimes(Table(messages)) <==>
            exists m :: m in messages && IsHandoff(m) && IsLatest(messages, m.sender, m) && m.createdAt == x
  {
    var table := Table(messages);
    if x in HandoffTimes(table) {
      var s :| s in table && IsHandoff(table[s]) && table[s].createdAt == x;
      TableIsLatest(messages, s);
    }
    forall m | m in messages && IsHandoff(m) && IsLatest(messages, m.sender, m) && m.createdAt == x
      ensures x in HandoffTimes(table)
    {
      TableIsLatest(messages, m.sender);
      LatestIsUnique(messages, m.sender, m, table[m.sender]);
      assert m.sender in table && IsHandoff(table[m.sender]);
    }
  }

  lemma BlocksIff(messages: seq<Message>, todos: seq<Todo>)
    requires MessageIdsDistinct(messages)
    ensures TallyOf(messages, todos, Table(messages)).stillBlocks <==>
            exists f :: f in messages && f.isTaskFailed && Unanswered(messages, todos, f.createdAt)
  {
    var table := Table(messages);
    var failed := LatestTime(FailureTimes(messages));
    UnansweredIff(messages, todos);
    forall f | f in messages && f.isTaskFailed
      ensures failed.Some? && f.createdAt.ticks <= failed.value.ticks
    {
      assert f.createdAt in FailureTimes(messages);
    }
  }

  /** Answers are compared with the latest of their kind. */
  lemma UnansweredIff(messages: seq<Message>, todos: seq<Todo>)
    requires MessageIdsDistinct(messages)
    ensures forall at :: Unanswered(messages, todos, at) <==>
              !Later(LatestTime(HandoffTimes(Table(messages))), at) && !Later(LatestTime(ReviewTimes(todos)), at)
  {
    var handoffs, reviews := HandoffTimes(Table(messages)), ReviewTimes(todos);
    forall x
      ensures x in handoffs <==>
              exists m :: m in messages && IsHandoff(m) && IsLatest(messages, m.sender, m) && m.createdAt == x
    {
      HandoffTimesAre(messages, x);
    }
    forall at
      ensures Unanswered(messages, todos, at) <==> !Later(LatestTime(handoffs), at) && !Later(LatestTime(reviews), at)
    {
      assert (forall x :: x in handoffs ==> x.ticks <= at.ticks) <==> !Later(LatestTime(handoffs), at);
      assert (forall x :: x in reviews ==> x.ticks <= at.ticks) <==> !Later(LatestTime(reviews), at);
      assert forall t :: t in todos && t.status == "needs_review" ==> t.updatedAt in reviews;
      assert forall m :: m in messages && IsHandoff(m) && IsLatest(messages, m.sender, m) ==> m.createdAt in handoffs;
    }
  }

  lemma {:induction false} CountMonotone<X>(s: seq<X>, p: X -> bool, q: X -> bool)
    requires forall x :: x in s && p(x) ==> q(x)
    ensures Count(s, p) <= Count(s, q)
  {
    if s != [] {
      CountMonotone(s[1..], p, q);
    }
  }

  lemma TallyIsCoherent(messages: seq<Message>, todos: seq<Todo>, table: map<string, Message>)
    ensures var t := TallyOf(messages, todos, table);
            t.handoffs <= t.ready && (t.stillBlocks ==> t.failed > 0) && t.blocked <= t.unfinished
  {
    CardSubset(set s | s in table && IsHandoff(table[s]), set s | s in table && IsReady(table[s]));
    CountMonotone(todos, (t: Todo) => t.status == "blocked", IsUnfinished);
    FilterMembers(messages, (m: Message) => m.isTaskFailed);
    if FailureTimes(messages) != {} {
      var f :| f in messages && f.isTaskFailed;
      assert f in Filter(messages, (m: Message) => m.isTaskFailed);
    }
  }

  /**
   * An assessment gives no reason for attention exactly when nothing is at hand, or nothing but a handoff to
   * Piscis.
   */
  lemma NoReasonIff(messages: seq<Message>, todos: seq<Todo>)
    ensures var a := Assess(messages, todos);
            var t := a.tally;
            a.reasons == [] <==>
              || (messages == [] && todos == [])
              || (t.handoffs > 0 && t.unfinished == 0 && t.needsReview == 0 && t.failed == 0 && t.followUps == 0 &&
                  t.integrationReady == 0 && t.dependencyBlocked == 0)
  {
    TallyIsCoherent(messages, todos, Table(messages));
  }

  // ----- Every decision, told by the todos and the messages

  predicate IsOpenStatus(status: string) { status == "todo" || status == "in_progress" || status == "blocked" }

  /** A branch that is finished on the board and not merged. */
  predicate AwaitsMerge(t: Todo) {
    && t.gitBranch.Some? && T.Trim(t.gitBranch.value) != ""
    && (t.status == "done" || t.status == "needs_review")
    && !(t.integrationStatus.Some? && T.LowerAscii(T.Trim(t.integrationStatus.value)) == "merged")
  }

  /** `m` is its sender's last word. */
  ghost predicate IsLastWord(messages: seq<Message>, m: Message) {
    m.state.Some? && IsLatest(messages, m.sender, m)
  }

  /** Some sender's last word hands the project over. */
  ghost predicate HandsOver(messages: seq<Message>) {
    exists m :: IsLastWord(messages, m) && m.state.value.signal == ReadyForReview && m.state.value.mentionsPiscis
  }

  /** Some sender's last word asks for more. */
  ghost predicate StillAsks(messages: seq<Message>) {
    exists m :: IsLastWord(messages, m) &&
                (m.state.value.signal == FollowUpNeeded || m.state.value.signal == Waiting)
  }

  ghost predicate HasOpenTodo(todos: seq<Todo>) { exists t :: t in todos && IsOpenStatus(t.status) }

  ghost predicate HasReviewTodo(todos: seq<Todo>) { exists t :: t in todos && t.status == "needs_review" }

  ghost predicate HasBranchToMerge(todos: seq<Todo>) { exists t :: t in todos && AwaitsMerge(t) }

  ghost predicate HasOpenFailure(messages: seq<Message>, todos: seq<Todo>) {
    exists f :: f in messages && f.isTaskFailed && Unanswered(messages, todos, f.createdAt)
  }

  ghost function DecisionFor(messages: seq<Message>, todos: seq<Todo>): Decision {
    if (messages == [] && todos == []) || HasOpenTodo(todos) then Continue
    else if HasOpenFailure(messages, todos) then EscalateToHuman
    else if HasReviewTodo(todos) || HandsOver(messages) then ReadyForPiscisReview
    else if StillAsks(messages) then Continue
    else if HasBranchToMerge(todos) then ReadyForPiscisReview
    else SupervisorDecisionRequired
  }

  lemma {:induction false} SomeIff<X>(s: seq<X>, p: X -> bool)
    ensures Count(s, p) > 0 <==> exists x :: x in s && p(x)
  {
    if s != [] {
      SomeIff(s[1..], p);
      assert s == [s[0]] + s[1..];
      assert p(s[0]) ==> s[0] in s;
      if x :| x in s[1..] && p(x) {
        assert x in s;
      }
    }
  }

  /** The last words are the entries of the table. */
  lemma LastWordsIff(messages: seq<Message>, p: Message -> bool)
    requires MessageIdsDistinct(messages)
    ensures (set s | s in Table(messages) && p(Table(messages)[s])) != {} <==>
            exists m :: IsLastWord(messages, m) && p(m)
  {
    var table := Table(messages);
    var those := set s | s in table && p(table[s]);
    if those != {} {
      var s :| s in those;
      TableIsLatest(messages, s);
      assert IsLastWord(messages, table[s]);
    }
    if m :| IsLastWord(messages, m) && p(m) {
      TableIsLatest(messages, m.sender);
      LatestIsUnique(messages, m.sender, m, table[m.sender]);
      assert m.sender in those;
    }
  }

  lemma HandsOverIff(messages: seq<Message>)
    requires MessageIdsDistinct(messages)
    ensures |set s | s in Table(messages) && IsHandoff(Table(messages)[s])| > 0 <==> HandsOver(messages)
  {
    LastWordsIff(messages, (m: Message) => IsHandoff(m));
    assert (set s | s in Table(messages) && IsHandoff(Table(messages)[s])) ==
           (set s | s in Table(messages) && ((m: Message) => IsHandoff(m))(Table(messages)[s]));
  }

  lemma StillAsksIff(messages: seq<Message>)
    requires MessageIdsDistinct(messages)
    ensures |set s | s in Table(messages) && AsksForMore(Table(messages)[s])| > 0 <==> StillAsks(messages)
  {
    LastWordsIff(messages, (m: Message) => AsksForMore(m));
    assert (set s | s in Table(messages) && AsksForMore(Table(messages)[s])) ==
           (set s | s in Table(messages) && ((m: Message) => AsksForMore(m))(Table(messages)[s]));
  }

  lemma TodoCountsIff(todos: seq<Todo>)
    ensures Count(todos, IsUnfinished) > 0 <==> HasOpenTodo(todos)
    ensures Count(todos, (t: Todo) => t.status == "needs_review") > 0 <==> HasReviewTodo(todos)
    ensures Count(todos, IntegrationReady) > 0 <==> HasBranchToMerge(todos)
  {
    SomeIff(todos, IsUnfinished);
    SomeIff(todos, (t: Todo) => t.status == "needs_review");
    SomeIff(todos, IntegrationReady);
  }

  /** What each number of the tally says when it is not zero. */
  lemma TallySays(messages: seq<Message>, todos: seq<Todo>)
    requires MessageIdsDistinct(messages)
    ensures var t := TallyOf(messages, todos, Table(messages));
            && (t.unfinished > 0 <==> HasOpenTodo(todos)) && (t.needsReview > 0 <==> HasReviewTodo(todos))
            && (t.integrationReady > 0 <==> HasBranchToMerge(todos))
            && (t.handoffs > 0 <==> HandsOver(messages)) && (t.followUps > 0 <==> StillAsks(messages))
  {
    TodoCountsIff(todos);
    HandsOverIff(messages);
    StillAsksIff(messages);
  }

  /** How a tally decides, given what it says. */
  lemma TallyDecides(t: Tally, messages: seq<Message>, todos: seq<Todo>)
    requires messages != [] || todos != []
    requires (t.unfinished > 0 <==> HasOpenTodo(todos)) && (t.needsReview > 0 <==> HasReviewTodo(todos))
    requires (t.integrationReady > 0 <==> HasBranchToMerge(todos))
             && (t.stillBlocks <==> HasOpenFailure(messages, todos))
    requires (t.handoffs > 0 <==> HandsOver(messages)) && (t.followUps > 0 <==> StillAsks(messages))
    ensures Decide(t) == DecisionFor(messages, todos)
  {
  }

  /** For every list of messages with distinct ids and every list of todos: the decision is the one told above. */
  lemma DecisionIs(messages: seq<Message>, todos: seq<Todo>)
    requires MessageIdsDistinct(messages)
    ensures Assess(messages, todos).decision == DecisionFor(messages, todos)
  {
    if messages != [] || todos != [] {
      BlocksIff(messages, todos);
      TallySays(messages, todos);
      TallyDecides(TallyOf(messages, todos, Table(messages)), messages, todos);
    }
  }

  // ----- Which reasons are given

  /** When a reason is due, and with which numbers. */
  predicate IsDue(r: Reason, t: Tally) {
    match r
    case UnfinishedRemain(n) => n == t.unfinished > 0
    case AreBlocked(n) => n == t.blocked > 0
    case AwaitReview(n) => n == t.needsReview > 0
    case FailuresObserved(n, unresolved) => n == t.failed > 0 && unresolved == t.stillBlocks
    case NeedsHumanJudgment => t.stillBlocks
    case RequestMoreWork(n) => n == t.followUps > 0
    case ReadyWithoutHandoff(n) => n == t.ready > 0 && t.handoffs == 0
    case NotMerged(n) => n == t.integrationReady > 0
    case AwaitUpstream(n) => n == t.dependencyBlocked > 0
    case WorkExhausted =>
      && t.unfinished == 0 && t.blocked == 0 && t.needsReview == 0 && !t.stillBlocks
      && t.followUps == 0 && t.handoffs == 0 && t.integrationReady == 0
  }

  predicate IsTodoReason(r: Reason) {
    r.UnfinishedRemain? || r.AreBlocked? || r.AwaitReview? || r.FailuresObserved? || r.NeedsHumanJudgment?
  }

  lemma TodoReasonsAreDue(t: Tally, r: Reason)
    ensures r in TodoReasons(t) <==> IsTodoReason(r) && IsDue(r, t)
  {
  }

  lemma SignalReasonsAreDue(given: seq<Reason>, t: Tally, r: Reason)
    ensures r in WithSignalReasons(given, t) <==> r in given || (!IsTodoReason(r) && IsDue(r, t))
  {
  }

  /** A reason is given if and only if it is due. */
  lemma ReasonsAreDue(t: Tally, r: Reason)
    ensures r in Reasons(t) <==> IsDue(r, t)
  {
    TodoReasonsAreDue(t, r);
    SignalReasonsAreDue(TodoReasons(t), t, r);
  }
}
