/** The background task registry (BgEntry and BackgroundRegistry in piscis-kernel/src/background.rs). */
module Registry {
  import opened Common
  import opened Ids

  const MAX_RETAINED_TERMINAL: nat := 64

  datatype Status = Running | Exited | Killed | Failed

  datatype Entry = Entry(session: string, workspace: string, status: Status, exitCode: Option<int>,
                         error: Option<string>, readyFired: bool, finishedAt: Option<nat>, kill: bool)

  predicate IsTerminal(e: Entry) { e.status != Running }

  // ----- One task: readiness and the terminal state

  /** `StoreKill` is the second half of a kill, whose first half saw the task running at some earlier moment. */
  datatype TaskOp =
    | MarkReady
    | StoreKill
    | Finish(status: Status, exitCode: Option<int>, error: Option<string>, now: nat)

  function Apply(e: Entry, op: TaskOp): Entry {
    match op
    case MarkReady => if e.readyFired || e.status != Running then e else e.(readyFired := true)
    case StoreKill => e.(kill := true)
    case Finish(status, code, error, now) =>
      if IsTerminal(e) then e else e.(status := status, exitCode := code, error := error, finishedAt := Some(now))
  }

  /** Whether the operation reports success to its caller. */
  predicate Reports(e: Entry, op: TaskOp) {
    match op
    case MarkReady => !e.readyFired && e.status == Running
    case StoreKill => true
    case Finish(_, _, _, _) => !IsTerminal(e)
  }

  function ApplyAll(e: Entry, ops: seq<TaskOp>): Entry
    decreases |ops|
  {
    if ops == [] then e else ApplyAll(Apply(e, ops[0]), ops[1..])
  }

  /** How many `mark_ready` calls of the run return true. */
  function ReadyReports(e: Entry, ops: seq<TaskOp>): nat
    decreases |ops|
  {
    if ops == [] then 0
    else (if ops[0].MarkReady? && Reports(e, ops[0]) then 1 else 0) + ReadyReports(Apply(e, ops[0]), ops[1..])
  }

  /** How many `finish` calls of the run take effect. */
  function Finishes(e: Entry, ops: seq<TaskOp>): nat
    decreases |ops|
  {
    if ops == [] then 0
    else (if ops[0].Finish? && Reports(e, ops[0]) then 1 else 0) + Finishes(Apply(e, ops[0]), ops[1..])
  }

  /**
   * Over every sequence of calls on a task: readiness fires at most once and never once the task is
   * terminal, the first finish wins, and from then on nothing about the task changes but the kill flag.
   */
  lemma {:induction false} FirstFinishWins(e: Entry, ops: seq<TaskOp>)
    requires forall i :: 0 <= i < |ops| && ops[i].Finish? ==> ops[i].status != Running
    ensures ReadyReports(e, ops) == if ApplyAll(e, ops).readyFired && !e.readyFired then 1 else 0
    ensures Finishes(e, ops) == if IsTerminal(ApplyAll(e, ops)) && !IsTerminal(e) then 1 else 0
    ensures IsTerminal(e) ==> ApplyAll(e, ops) == e.(kill := ApplyAll(e, ops).kill)
    ensures e.kill ==> ApplyAll(e, ops).kill
    ensures e.readyFired ==> ApplyAll(e, ops).readyFired
    decreases |ops|
  {
    if ops != [] {
      FirstFinishWins(Apply(e, ops[0]), ops[1..]);
    }
  }

  /** How the process of a task ended. */
  datatype Outcome = ProcessExited(code: int) | ProcessFailed(error: string)

  /** What the worker thread makes of its process's outcome and the kill flag it has read. */
  function FinishOf(outcome: Outcome, killed: bool, now: nat): TaskOp {
    match outcome
    case ProcessExited(code) => Finish(if killed then Killed else Exited, Some(code), None, now)
    case ProcessFailed(error) => Finish(if killed then Killed else Failed, None, Some(error), now)
  }

  predicate NoFinish(ops: seq<TaskOp>) {
    forall i :: 0 <= i < |ops| ==> !ops[i].Finish?
  }

  lemma {:induction false} ApplyAllConcat(e: Entry, a: seq<TaskOp>, b: seq<TaskOp>)
    ensures ApplyAll(e, a + b) == ApplyAll(ApplyAll(e, a), b)
    decreases |a|
  {
    if a == [] {
      assert a + b == b;
    } else {
      assert (a + b)[1..] == a[1..] + b;
      ApplyAllConcat(Apply(e, a[0]), a[1..], b);
    }
  }

  /** Short of a finish a task keeps running, and its flag is the or of all kills. */
  lemma {:induction false} KillsAddUp(e: Entry, ops: seq<TaskOp>)
    requires !IsTerminal(e) && NoFinish(ops)
    ensures !IsTerminal(ApplyAll(e, ops))
    ensures ApplyAll(e, ops).kill <==> e.kill || StoreKill in ops
    decreases |ops|
  {
    if ops != [] {
      assert ops == [ops[0]] + ops[1..];
      KillsAddUp(Apply(e, ops[0]), ops[1..]);
    }
  }

  /**
   * The worker's verdict is the last word, whatever else is called: the task ends as killed if and only if a
   * kill came before the worker read the flag (one that comes between that and the finish is not seen), and
   * an exit code or an error is recorded exactly when the process exited or failed.
   */
  lemma WorkerVerdictStands(e: Entry, before: seq<TaskOp>, between: seq<TaskOp>, outcome: Outcome, now: nat,
                            after: seq<TaskOp>)
    requires !IsTerminal(e) && NoFinish(before) && NoFinish(between)
    requires forall i :: 0 <= i < |after| && after[i].Finish? ==> after[i].status != Running
    ensures var verdict := FinishOf(outcome, ApplyAll(e, before).kill, now);
            var end := ApplyAll(e, before + (between + ([verdict] + after)));
            && IsTerminal(end) && end.finishedAt == Some(now)
            && (end.status == Killed <==> e.kill || StoreKill in before)
            && (end.status == Exited ==> outcome.ProcessExited?) && (end.status == Failed ==> outcome.ProcessFailed?)
            && end.exitCode == (if outcome.ProcessExited? then Some(outcome.code) else None)
            && end.error == (if outcome.ProcessFailed? then Some(outcome.error) else None)
  {
    var verdict := FinishOf(outcome, ApplyAll(e, before).kill, now);
    var mid := ApplyAll(ApplyAll(e, before), between);
    KillsAddUp(e, before);
    KillsAddUp(ApplyAll(e, before), between);
    ApplyAllConcat(e, before, between + ([verdict] + after));
    ApplyAllConcat(ApplyAll(e, before), between, [verdict] + after);
    assert ([verdict] + after)[0] == verdict && ([verdict] + after)[1..] == after;
    FirstFinishWins(Apply(mid, verdict), after);
  }

  class BgEntry {
    const session: string
    const workspace: string
    var status: Status
    var exitCode: Option<int>
    var error: Option<string>
    var readyFired: bool
    var finishedAt: Option<nat>
    var kill: bool

    function View(): Entry
      reads this
    {
      Entry(session, workspace, status, exitCode, error, readyFired, finishedAt, kill)
    }

    constructor (session: string, workspace: string)
      ensures View() == NewEntry(session, workspace)
    {
      this.session, this.workspace := session, workspace;
      status, exitCode, error, readyFired, finishedAt, kill := Running, None, None, false, None, false;
    }

    method MarkReady() returns (first: bool)
      modifies this
      ensures View() == Apply(old(View()), TaskOp.MarkReady)
      ensures first == Reports(old(View()), TaskOp.MarkReady)
    {
      if readyFired || status != Running {
        return false;
      }
      readyFired := true;
      return true;
    }

    method Finish(status: Status, exitCode: Option<int>, error: Option<string>, now: nat)
      modifies this
      ensures View() == Apply(old(View()), TaskOp.Finish(status, exitCode, error, now))
    {
      if this.status != Running {
        return;
      }
      this.status := status;
      this.exitCode := exitCode;
      this.error := error;
      finishedAt := Some(now);
    }
  }

  // ----- The registry

  datatype Tasks = Tasks(entries: map<Id, Entry>, order: seq<Id>)

  predicate TasksOk(t: Tasks) {
    Distinct(t.order) && t.entries.Keys == Elems(t.order)
  }

  function RunningIn(t: Tasks, workspace: string): set<Id> {
    set id | id in t.entries && t.entries[id].workspace == workspace && t.entries[id].status == Running
  }

  /** The finished tasks, oldest first. */
  function Finished(order: seq<Id>, entries: map<Id, Entry>): seq<Id> {
    if order == [] then []
    else
      var rest := Finished(order[1..], entries);
      (if order[0] in entries && IsTerminal(entries[order[0]]) then [order[0]] else []) + rest
  }

  /** The ids the insertion evicts: the oldest finished ones beyond the cap. */
  function Evicted(t: Tasks): set<Id> {
    var f := Finished(t.order, t.entries);
    if |f| <= MAX_RETAINED_TERMINAL then {} else Elems(f[..|f| - MAX_RETAINED_TERMINAL])
  }

  function Evict(t: Tasks): Tasks {
    Tasks(t.entries - Evicted(t), Without(t.order, Evicted(t)))
  }

  function Insert(t: Tasks, id: Id, e: Entry): Tasks {
    Evict(Tasks(t.entries[id := e], t.order + [id]))
  }

  lemma {:induction false} FinishedMembers(order: seq<Id>, entries: map<Id, Entry>)
    ensures forall x :: x in Finished(order, entries) <==> x in order && x in entries && IsTerminal(entries[x])
    ensures Distinct(order) ==> Distinct(Finished(order, entries))
  {
    if order != [] {
      FinishedMembers(order[1..], entries);
      assert order == [order[0]] + order[1..];
      assert Distinct(order) ==> Distinct(order[1..]) && order[0] !in order[1..] by {
        assert forall k :: 0 <= k < |order| - 1 ==> order[1..][k] == order[k + 1];
      }
    }
  }

  lemma {:induction false} FinishedWithout(order: seq<Id>, entries: map<Id, Entry>, gone: set<Id>)
    ensures Finished(Without(order, gone), entries - gone) == Without(Finished(order, entries), gone)
  {
    if order != [] {
      var x, rest := order[0], order[1..];
      FinishedWithout(rest, entries, gone);
      var f := Finished(rest, entries);
      assert ([x] + f)[1..] == f && [] + f == f;
      assert ([x] + Without(rest, gone))[1..] == Without(rest, gone) && [] + Without(rest, gone) == Without(rest, gone);
    }
  }

  /** Taking the first `k` members out of a duplicate-free list leaves the rest. */
  lemma {:induction false} WithoutPrefix(s: seq<Id>, k: nat)
    requires Distinct(s) && k <= |s|
    ensures Without(s, Elems(s[..k])) == s[k..]
  {
    var gone := Elems(s[..k]);
    if k == 0 {
      WithoutNone(s, gone);
    } else {
      var t := s[1..];
      var gone' := Elems(t[..k - 1]);
      WithoutPrefix(t, k - 1);
      assert s[..k] == [s[0]] + t[..k - 1];
      assert s[0] in gone;
      assert s[0] !in t by {
        assert forall j :: 0 <= j < |t| ==> t[j] == s[j + 1];
      }
      WithoutAgree(t, gone, gone');
      assert t[k - 1..] == s[k..];
    }
  }

  lemma {:induction false} WithoutNone(s: seq<Id>, gone: set<Id>)
    requires gone == {}
    ensures Without(s, gone) == s
  {
    if s != [] {
      WithoutNone(s[1..], gone);
    }
  }

  lemma {:induction false} WithoutAppend(s: seq<Id>, x: Id, gone: set<Id>)
    ensures Without(s + [x], gone) == Without(s, gone) + if x in gone then [] else [x]
  {
    if s == [] {
      assert s + [x] == [x] && [x][1..] == [];
    } else {
      WithoutAppend(s[1..], x, gone);
      assert (s + [x])[1..] == s[1..] + [x];
    }
  }

  lemma {:induction false} WithoutAgree(s: seq<Id>, a: set<Id>, b: set<Id>)
    requires forall x :: x in s ==> (x in a <==> x in b)
    ensures Without(s, a) == Without(s, b)
  {
    if s != [] {
      assert s[0] in s;
      WithoutAgree(s[1..], a, b);
    }
  }

  lemma EvictedAreFinished(t: Tasks)
    requires TasksOk(t)
    ensures forall x :: x in Evicted(t) ==> x in t.entries && IsTerminal(t.entries[x])
  {
    FinishedMembers(t.order, t.entries);
    assert forall x :: x in Evicted(t) ==> x in Finished(t.order, t.entries);
  }

  /** Eviction drops the oldest finished tasks and keeps the newest 64. */
  lemma EvictDropsOldest(t: Tasks)
    requires TasksOk(t)
    ensures Finished(Evict(t).order, Evict(t).entries) == Newest(Finished(t.order, t.entries), MAX_RETAINED_TERMINAL)
  {
    var f := Finished(t.order, t.entries);
    FinishedMembers(t.order, t.entries);
    FinishedWithout(t.order, t.entries, Evicted(t));
    if |f| <= MAX_RETAINED_TERMINAL {
      WithoutNone(f, Evicted(t));
    } else {
      WithoutPrefix(f, |f| - MAX_RETAINED_TERMINAL);
    }
  }

  /** Eviction keeps the registry consistent and never touches a running task. */
  lemma EvictKeeps(t: Tasks)
    requires TasksOk(t)
    ensures TasksOk(Evict(t))
    ensures forall w :: RunningIn(Evict(t), w) == RunningIn(t, w)
    ensures forall id :: id in Evict(t).entries ==> id in t.entries && Evict(t).entries[id] == t.entries[id]
  {
    WithoutMembers(t.order, Evicted(t));
    EvictedAreFinished(t);
  }

  /** Each create leaves at most 64 finished tasks, evicts the oldest first, and adds exactly one running task. */
  lemma InsertKeeps(t: Tasks, id: Id, e: Entry)
    requires TasksOk(t) && id !in t.entries && e.status == Running
    ensures TasksOk(Insert(t, id, e))
    ensures id in Insert(t, id, e).entries && Insert(t, id, e).entries[id] == e
    ensures forall w :: RunningIn(Insert(t, id, e), w) == RunningIn(t, w) + if w == e.workspace then {id} else {}
    ensures |Finished(Insert(t, id, e).order, Insert(t, id, e).entries)| <= MAX_RETAINED_TERMINAL
  {
    var added := Tasks(t.entries[id := e], t.order + [id]);
    assert TasksOk(added);
    assert forall w :: RunningIn(added, w) == RunningIn(t, w) + if w == e.workspace then {id} else {};
    EvictKeeps(added);
    EvictDropsOldest(added);
    assert id in RunningIn(added, e.workspace);
    assert id in RunningIn(Evict(added), e.workspace);
  }

  // ----- Concurrent creates: the quota is checked under one lock and used under another

  /** `checked` holds the creates between their quota check and their insertion, with their workspace. */
  datatype System = System(tasks: Tasks, checked: map<nat, string>)

  datatype Step =
    | Check(creator: nat, workspace: string)
    | Place(creator: nat, id: Id, session: string)
    | Act(id: Id, op: TaskOp)

  function NewEntry(session: string, workspace: string): Entry {
    Entry(session, workspace, Running, None, None, false, None, false)
  }

  predicate Admits(t: Tasks, quota: nat, workspace: string) {
    |RunningIn(t, workspace)| < quota
  }

  /** At most `n` creates are under way at a time; ids are fresh; finishing always means a terminal status. */
  predicate Enabled(s: System, n: nat, step: Step) {
    match step
    case Check(c, w) => c !in s.checked && |s.checked| < n
    case Place(c, id, _) => c in s.checked && id !in s.tasks.entries
    case Act(id, op) => id in s.tasks.entries && (op.Finish? ==> op.status != Running)
  }

  function Next(s: System, quota: nat, step: Step): System
    requires step.Place? ==> step.creator in s.checked
    requires step.Act? ==> step.id in s.tasks.entries
  {
    match step
    case Check(c, w) => if Admits(s.tasks, quota, w) then s.(checked := s.checked[c := w]) else s
    case Place(c, id, session) =>
      System(Insert(s.tasks, id, NewEntry(session, s.checked[c])), s.checked - {c})
    case Act(id, op) => s.(tasks := s.tasks.(entries := s.tasks.entries[id := Apply(s.tasks.entries[id], op)]))
  }

  function Exec(s: System, quota: nat, n: nat, steps: seq<Step>): Option<System>
    decreases |steps|
  {
    if steps == [] then Some(s)
    else if !Enabled(s, n, steps[0]) then None
    else Exec(Next(s, quota, steps[0]), quota, n, steps[1..])
  }

  function CheckedFor(s: System, w: string): set<nat> {
    set c | c in s.checked && s.checked[c] == w
  }

  ghost predicate SystemOk(s: System, quota: nat, n: nat) {
    && TasksOk(s.tasks)
    && |s.checked| <= n
    && forall w :: Load(s, w) <= quota + n - 1
  }

  /** Running tasks of a workspace plus the creates that have been let in. */
  function Load(s: System, w: string): nat {
    |RunningIn(s.tasks, w)| + |CheckedFor(s, w)|
  }

  lemma CheckKeeps(s: System, quota: nat, n: nat, c: nat, w: string)
    requires SystemOk(s, quota, n) && Enabled(s, n, Check(c, w))
    ensures SystemOk(Next(s, quota, Check(c, w)), quota, n)
  {
    var s' := Next(s, quota, Check(c, w));
    if Admits(s.tasks, quota, w) {
      assert s'.checked.Keys == s.checked.Keys + {c};
      assert |s'.checked| == |s.checked| + 1;
      forall v
        ensures Load(s', v) <= quota + n - 1
      {
        assert Load(s, v) <= quota + n - 1;
        if v == w {
          assert CheckedFor(s', w) <= s'.checked.Keys;
          CardSubset(CheckedFor(s', w), s'.checked.Keys);
        } else {
          assert CheckedFor(s', v) == CheckedFor(s, v);
        }
      }
    }
  }

  lemma PlaceKeeps(s: System, quota: nat, n: nat, c: nat, id: Id, session: string)
    requires SystemOk(s, quota, n) && Enabled(s, n, Place(c, id, session))
    ensures SystemOk(Next(s, quota, Place(c, id, session)), quota, n)
  {
    var s' := Next(s, quota, Place(c, id, session));
    var w := s.checked[c];
    InsertKeeps(s.tasks, id, NewEntry(session, w));
    assert s'.checked.Keys == s.checked.Keys - {c};
    forall v
      ensures Load(s', v) <= quota + n - 1
    {
      assert Load(s, v) <= quota + n - 1;
      if v == w {
        assert CheckedFor(s', v) == CheckedFor(s, v) - {c};
        assert id !in RunningIn(s.tasks, v);
      } else {
        assert CheckedFor(s', v) == CheckedFor(s, v);
      }
    }
  }

  lemma ActKeeps(s: System, quota: nat, n: nat, id: Id, op: TaskOp)
    requires SystemOk(s, quota, n) && Enabled(s, n, Act(id, op))
    ensures SystemOk(Next(s, quota, Act(id, op)), quota, n)
    ensures forall w :: RunningIn(Next(s, quota, Act(id, op)).tasks, w) <= RunningIn(s.tasks, w)
  {
    var s' := Next(s, quota, Act(id, op));
    assert s'.tasks.entries.Keys == s.tasks.entries.Keys;
    forall w
      ensures RunningIn(s'.tasks, w) <= RunningIn(s.tasks, w)
      ensures Load(s', w) <= quota + n - 1
    {
      assert Load(s, w) <= quota + n - 1;
      assert CheckedFor(s', w) == CheckedFor(s, w);
      CardSubset(RunningIn(s'.tasks, w), RunningIn(s.tasks, w));
    }
  }

  lemma {:induction false} RunsKeepSystemOk(s: System, quota: nat, n: nat, steps: seq<Step>)
    requires SystemOk(s, quota, n) && Exec(s, quota, n, steps).Some?
    ensures SystemOk(Exec(s, quota, n, steps).value, quota, n)
    decreases |steps|
  {
    if steps != [] {
      match steps[0] {
        case Check(c, w) => CheckKeeps(s, quota, n, c, w);
        case Place(c, id, session) => PlaceKeeps(s, quota, n, c, id, session);
        case Act(id, op) => ActKeeps(s, quota, n, id, op);
      }
      RunsKeepSystemOk(Next(s, quota, steps[0]), quota, n, steps[1..]);
    }
  }

  /**
   * In every run in which at most `n` creates are between check and insertion, a workspace never runs more
   * than quota + n - 1 tasks; with creates one at a time, never more than the quota.
   */
  lemma QuotaBound(quota: nat, n: nat, steps: seq<Step>, w: string)
    requires quota >= 1 && n >= 1
    requires Exec(System(Tasks(map[], []), map[]), quota, n, steps).Some?
    ensures var s := Exec(System(Tasks(map[], []), map[]), quota, n, steps).value;
            TasksOk(s.tasks) && |RunningIn(s.tasks, w)| <= quota + n - 1
  {
    var s0 := System(Tasks(map[], []), map[]);
    forall v
      ensures Load(s0, v) <= quota + n - 1
    {
      assert RunningIn(s0.tasks, v) == {} && CheckedFor(s0, v) == {};
    }
    RunsKeepSystemOk(s0, quota, n, steps);
    assert Load(Exec(s0, quota, n, steps).value, w) <= quota + n - 1;
  }

  // ----- The bound is exact

  /** `k` tasks of the workspace are running and longer ids are free. */
  ghost predicate Busy(t: Tasks, w: string, k: nat) {
    TasksOk(t) && |RunningIn(t, w)| == k && forall id :: id in t.entries ==> |id| < k
  }

  lemma InsertBusy(t: Tasks, w: string, k: nat)
    requires Busy(t, w, k)
    ensures Name(k) !in t.entries && Busy(Insert(t, Name(k), NewEntry("", w)), w, k + 1)
  {
    var id, e := Name(k), NewEntry("", w);
    InsertKeeps(t, id, e);
    InsertedIds(t, id, e);
    var t' := Insert(t, id, e);
    assert RunningIn(t', w) == RunningIn(t, w) + {id};
    assert forall x :: x in t'.entries ==> x in t.entries || x == id;
  }

  lemma InsertedIds(t: Tasks, id: Id, e: Entry)
    requires TasksOk(t) && id !in t.entries
    ensures Insert(t, id, e).entries.Keys <= t.entries.Keys + {id}
  {
  }

  lemma ExecStep(s: System, quota: nat, n: nat, step: Step, rest: seq<Step>)
    requires Enabled(s, n, step)
    ensures Exec(s, quota, n, [step] + rest) == Exec(Next(s, quota, step), quota, n, rest)
  {
    assert ([step] + rest)[1..] == rest;
  }

  /** The creates from `j` up to `n` are between check and insertion; each inserts its task. */
  lemma {:induction false} PlaceAll(s: System, quota: nat, n: nat, w: string, k: nat, j: nat)
    returns (steps: seq<Step>, s': System)
    requires Busy(s.tasks, w, k) && j <= n
    requires forall c :: c in s.checked <==> j <= c < n
    requires forall c :: c in s.checked ==> s.checked[c] == w
    ensures Exec(s, quota, n, steps) == Some(s') && Busy(s'.tasks, w, k + n - j)
    decreases n - j
  {
    if j == n {
      steps, s' := [], s;
    } else {
      var step := Place(j, Name(k), "");
      InsertBusy(s.tasks, w, k);
      steps, s' := PlaceAll(Next(s, quota, step), quota, n, w, k + 1, j + 1);
      ExecStep(s, quota, n, step, steps);
      steps := [step] + steps;
    }
  }

  /** With room for one, all `n` creates are let in before the first inserts. */
  lemma {:induction false} CheckAll(s: System, quota: nat, n: nat, w: string, k: nat, j: nat)
    returns (steps: seq<Step>, s': System)
    requires Busy(s.tasks, w, k) && k < quota && j <= n && |s.checked| == j
    requires forall c :: c in s.checked <==> 0 <= c < j
    requires forall c :: c in s.checked ==> s.checked[c] == w
    ensures Exec(s, quota, n, steps) == Some(s') && Busy(s'.tasks, w, k + n)
    decreases n - j
  {
    if j == n {
      steps, s' := PlaceAll(s, quota, n, w, k, 0);
    } else {
      var step := Check(j, w);
      var s1 := Next(s, quota, step);
      assert s1.checked == s.checked[j := w];
      steps, s' := CheckAll(s1, quota, n, w, k, j + 1);
      ExecStep(s, quota, n, step, steps);
      steps := [step] + steps;
    }
  }

  /** Creates one at a time until there is room for one more. */
  lemma {:induction false} CreateAll(s: System, quota: nat, n: nat, w: string, k: nat)
    returns (steps: seq<Step>, s': System)
    requires Busy(s.tasks, w, k) && k < quota && n >= 1 && s.checked == map[]
    ensures Exec(s, quota, n, steps) == Some(s') && Busy(s'.tasks, w, quota + n - 1)
    decreases quota - k
  {
    if k == quota - 1 {
      steps, s' := CheckAll(s, quota, n, w, k, 0);
    } else {
      var check, place := Check(0, w), Place(0, Name(k), "");
      var s1 := Next(s, quota, check);
      assert s1 == System(s.tasks, map[0 := w]);
      InsertBusy(s.tasks, w, k);
      var s2 := Next(s1, quota, place);
      assert s2.checked == map[];
      steps, s' := CreateAll(s2, quota, n, w, k + 1);
      ExecStep(s1, quota, n, place, steps);
      ExecStep(s, quota, n, check, [place] + steps);
      steps := [check] + ([place] + steps);
    }
  }

  /** For every quota and every number of concurrent creates some run does reach quota + n - 1 tasks. */
  lemma QuotaBoundIsReached(quota: nat, n: nat, w: string)
    requires quota >= 1 && n >= 1
    ensures exists steps ::
              var r := Exec(System(Tasks(map[], []), map[]), quota, n, steps);
              r.Some? && |RunningIn(r.value.tasks, w)| == quota + n - 1
  {
    var s0 := System(Tasks(map[], []), map[]);
    assert RunningIn(s0.tasks, w) == {};
    var steps, s' := CreateAll(s0, quota, n, w, 0);
  }

  // ----- The registry object

  class BackgroundRegistry {
    var entries: map<Id, Entry>
    var order: seq<Id>
    const maxPerWorkspace: nat

    function View(): Tasks
      reads this
    {
      Tasks(entries, order)
    }

    constructor (max: nat)
      requires max >= 1
      ensures TasksOk(View()) && entries == map[] && maxPerWorkspace == max
    {
      entries, order, maxPerWorkspace := map[], [], max;
    }

    /** The first critical section of create_inner: count the running tasks of the workspace. */
    method HasRoom(workspace: string) returns (ok: bool)
      ensures ok == Admits(View(), maxPerWorkspace, workspace)
    {
      var running := 0;
      var todo := entries.Keys;
      ghost var counted: set<Id> := {};
      while todo != {}
        invariant todo <= entries.Keys
        invariant counted == set id | id in RunningIn(View(), workspace) && id !in todo
        invariant running == |counted|
        decreases |todo|
      {
        var id :| id in todo;
        if entries[id].workspace == workspace && entries[id].status == Running {
          running := running + 1;
          counted := counted + {id};
        }
        todo := todo - {id};
      }
      assert counted == RunningIn(View(), workspace);
      ok := running < maxPerWorkspace;
    }

    /** The second critical section of create_inner: insert, then drop the oldest finished tasks beyond the cap. */
    method PlaceEntry(id: Id, e: Entry)
      requires TasksOk(View()) && id !in entries
      modifies this
      ensures View() == Insert(old(View()), id, e)
    {
      entries := entries[id := e];
      order := order + [id];
      ghost var added := View();
      var terminal := CollectFinished();
      if |terminal| > MAX_RETAINED_TERMINAL {
        RemoveAll(terminal[..|terminal| - MAX_RETAINED_TERMINAL]);
        RetainKnown(added);
      } else {
        WithoutNone(order, Evicted(added));
      }
    }

    method RemoveAll(ids: seq<Id>)
      modifies this`entries
      ensures entries == old(entries) - Elems(ids)
    {
      var i := 0;
      while i < |ids|
        invariant 0 <= i <= |ids|
        invariant entries == old(entries) - Elems(ids[..i])
      {
        assert ids[..i + 1] == ids[..i] + [ids[i]];
        entries := entries - {ids[i]};
        i := i + 1;
      }
      assert ids[..i] == ids;
    }

    method CollectFinished() returns (terminal: seq<Id>)
      ensures terminal == Finished(order, entries)
    {
      terminal := [];
      var i := 0;
      assert order[0..] == order;
      while i < |order|
        invariant 0 <= i <= |order|
        invariant terminal + Finished(order[i..], entries) == Finished(order, entries)
      {
        assert order[i..][1..] == order[i + 1..];
        if order[i] in entries && IsTerminal(entries[order[i]]) {
          terminal := terminal + [order[i]];
        }
        i := i + 1;
      }
    }

    /** Keep of the order the tasks that still have an entry. */
    method RetainKnown(ghost added: Tasks)
      requires TasksOk(added) && order == added.order && entries == added.entries - Evicted(added)
      modifies this`order
      ensures order == Without(added.order, Evicted(added))
    {
      var kept: seq<Id> := [];
      var i := 0;
      while i < |order|
        invariant 0 <= i <= |order|
        invariant order == added.order && kept == Without(order[..i], Evicted(added))
      {
        WithoutAppend(order[..i], order[i], Evicted(added));
        assert order[..i + 1] == order[..i] + [order[i]];
        assert order[i] in Elems(added.order);
        if order[i] in entries {
          kept := kept + [order[i]];
        }
        i := i + 1;
      }
      assert order[..i] == order;
      order := kept;
    }
  }
}
