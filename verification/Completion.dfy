/** Owned worker completion (piscis-kernel/src/agent/tool_completion.rs): receipts, sealing and draining. */
module Completion {
  import opened Common

  datatype State = State(active: nat, failures: nat, isSealed: bool)

  datatype DrainOutcome = Complete | Pending(active: nat) | Failed(active: nat, failures: nat)

  // ----- What each critical section does

  predicate MayRegister(s: State, cancelled: bool) {
    !s.isSealed && !cancelled
  }

  function Registered(s: State): State {
    s.(active := s.active + 1)
  }

  /** A receipt finishing; a finish nobody registered for counts as a failure. */
  function FinishedOne(s: State, ok: bool): State {
    var counted := if s.active > 0 then s.(active := s.active - 1) else s.(failures := s.failures + 1);
    if ok then counted else counted.(failures := counted.failures + 1)
  }

  function Sealed(s: State): State {
    s.(isSealed := true)
  }

  function Observe(s: State): DrainOutcome {
    if s.active == 0 then (if s.failures == 0 then Complete else Failed(0, s.failures))
    else if s.failures > 0 then Failed(s.active, s.failures)
    else Pending(s.active)
  }

  /** A drain returns at once on these; on anything else only when its time is up. */
  predicate Settles(o: DrainOutcome) {
    o.Complete? || (o.Failed? && o.active == 0)
  }

  // ----- The objects

  class OwnedCompletionRegistry {
    var state: State
    var cancelled: bool

    constructor ()
      ensures state == State(0, 0, false) && !cancelled
    {
      state, cancelled := State(0, 0, false), false;
    }

    method Register() returns (receipt: OwnedReceipt?)
      modifies this`state
      ensures receipt != null <==> MayRegister(old(state), cancelled)
      ensures state == if receipt != null then Registered(old(state)) else old(state)
      ensures receipt != null ==> fresh(receipt) && receipt.registry == this && !receipt.finished
    {
      if state.isSealed || cancelled {
        return null;
      }
      state := state.(active := state.active + 1);
      receipt := new OwnedReceipt(this);
    }

    method Seal()
      modifies this`state
      ensures state == Sealed(old(state))
    {
      state := state.(isSealed := true);
    }

    /** One turn of drain's polling loop; None means sleep and look again. */
    method Poll(timedOut: bool) returns (r: Option<DrainOutcome>)
      ensures r == if Settles(Observe(state)) || timedOut then Some(Observe(state)) else None
      ensures r == Some(Complete) <==> state.active == 0 && state.failures == 0
      ensures state.active == 0 && state.failures > 0 ==> r == Some(Failed(0, state.failures))
      ensures state.active > 0 && !timedOut ==> r == None
      ensures state.active > 0 && timedOut ==>
                r == Some(if state.failures == 0 then Pending(state.active) else Failed(state.active, state.failures))
    {
      var status;
      if state.active == 0 {
        if state.failures == 0 {
          status := Complete;
        } else {
          status := Failed(0, state.failures);
        }
      } else if state.failures > 0 {
        status := Failed(state.active, state.failures);
      } else {
        status := Pending(state.active);
      }
      if status.Complete? || (status.Failed? && status.active == 0) {
        return Some(status);
      }
      if timedOut {
        return Some(status);
      }
      return None;
    }
  }

  class OwnedReceipt {
    const registry: OwnedCompletionRegistry
    var finished: bool

    constructor (registry: OwnedCompletionRegistry)
      ensures this.registry == registry && !finished
    {
      this.registry, finished := registry, false;
    }

    /** finish: counts once, however often it is called. */
    method Finish(success: bool)
      modifies this`finished, registry`state
      ensures finished
      ensures registry.state == if old(finished) then old(registry.state) else FinishedOne(old(registry.state), success)
    {
      if finished {
        return;
      }
      if registry.state.active > 0 {
        registry.state := registry.state.(active := registry.state.active - 1);
      } else {
        registry.state := registry.state.(failures := registry.state.failures + 1);
      }
      if !success {
        registry.state := registry.state.(failures := registry.state.failures + 1);
      }
      finished := true;
    }

    /** complete consumes the receipt, so its drop runs right behind and must not count again. */
    method CompleteWith(ok: bool)
      modifies this`finished, registry`state
      ensures finished
      ensures registry.state == if old(finished) then old(registry.state) else FinishedOne(old(registry.state), ok)
    {
      Finish(ok);
      Finish(false);
    }
  }

  // ----- All interleavings

  datatype Receipt = Live | Done(ok: bool)

  datatype Drain = Polling | Returned(outcome: DrainOutcome) | Abandoned

  datatype System = System(state: State, cancelled: bool, receipts: map<nat, Receipt>, drains: map<nat, Drain>)

  datatype Step =
    | Register(r: nat)
    | CompleteReceipt(r: nat, ok: bool)
    | DropReceipt(r: nat)
    | Cancel
    | StartDrain(d: nat)
    | PollDrain(d: nat, timedOut: bool)
    | AbandonDrain(d: nat)

  predicate Enabled(s: System, step: Step) {
    match step
    case Register(r) => r !in s.receipts
    case CompleteReceipt(r, _) => r in s.receipts
    case DropReceipt(r) => r in s.receipts
    case Cancel => true
    case StartDrain(d) => d !in s.drains
    case PollDrain(d, _) => d in s.drains && s.drains[d].Polling?
    case AbandonDrain(d) => d in s.drains && s.drains[d].Polling?
  }

  function FinishReceipt(s: System, r: nat, ok: bool): System
    requires r in s.receipts
  {
    if s.receipts[r].Done? then s else s.(state := FinishedOne(s.state, ok), receipts := s.receipts[r := Done(ok)])
  }

  function Next(s: System, step: Step): System
    requires Enabled(s, step)
  {
    match step
    case Register(r) =>
      if !MayRegister(s.state, s.cancelled) then s
      else s.(state := Registered(s.state), receipts := s.receipts[r := Live])
    case CompleteReceipt(r, ok) => FinishReceipt(s, r, ok)
    case DropReceipt(r) => FinishReceipt(s, r, false)
    case Cancel => s.(cancelled := true)
    case StartDrain(d) => s.(state := Sealed(s.state), drains := s.drains[d := Polling])
    case PollDrain(d, timedOut) =>
      var o := Observe(s.state);
      if Settles(o) || timedOut then s.(drains := s.drains[d := Returned(o)]) else s
    case AbandonDrain(d) => s.(drains := s.drains[d := Abandoned])
  }

  function Exec(s: System, steps: seq<Step>): Option<System>
    decreases |steps|
  {
    if steps == [] then Some(s)
    else if !Enabled(s, steps[0]) then None
    else Exec(Next(s, steps[0]), steps[1..])
  }

  const START := System(State(0, 0, false), false, map[], map[])

  function Unfinished(s: System): set<nat> {
    set r | r in s.receipts && s.receipts[r] == Live
  }

  function FailedReceipts(s: System): set<nat> {
    set r | r in s.receipts && s.receipts[r] == Done(false)
  }

  predicate Confirmed(s: System) {
    exists d :: d in s.drains && s.drains[d] == Returned(Complete)
  }

  predicate SystemOk(s: System) {
    && s.state.active == |Unfinished(s)|
    && s.state.failures == |FailedReceipts(s)|
    && (s.drains != map[] ==> s.state.isSealed)
    && (Confirmed(s) ==> Unfinished(s) == {} && FailedReceipts(s) == {})
  }

  lemma FinishKeeps(s: System, r: nat, ok: bool)
    requires SystemOk(s) && r in s.receipts
    ensures SystemOk(FinishReceipt(s, r, ok))
  {
    var s' := FinishReceipt(s, r, ok);
    if s.receipts[r] == Live {
      assert r in Unfinished(s);
      assert Unfinished(s') == Unfinished(s) - {r};
      assert FailedReceipts(s') == FailedReceipts(s) + if ok then {} else {r};
    }
  }

  lemma StepKeepsOk(s: System, step: Step)
    requires SystemOk(s) && Enabled(s, step)
    ensures SystemOk(Next(s, step))
  {
    var s' := Next(s, step);
    match step
    case Register(r) =>
      if MayRegister(s.state, s.cancelled) {
        assert Unfinished(s') == Unfinished(s) + {r};
        assert FailedReceipts(s') == FailedReceipts(s);
        assert s.drains == map[];
      }
    case CompleteReceipt(r, ok) => FinishKeeps(s, r, ok);
    case DropReceipt(r) => FinishKeeps(s, r, false);
    case Cancel =>
    case StartDrain(d) => assert Confirmed(s') ==> Confirmed(s);
    case PollDrain(d, timedOut) =>
      assert d in s.drains;
      if Confirmed(s') && !Confirmed(s) {
        assert Observe(s.state) == Complete;
      }
    case AbandonDrain(d) =>
      assert d in s.drains;
      assert Confirmed(s') ==> Confirmed(s);
  }

  lemma {:induction false} RunsKeepOk(s: System, steps: seq<Step>)
    requires SystemOk(s) && Exec(s, steps).Some?
    ensures SystemOk(Exec(s, steps).value)
    ensures Confirmed(s) ==> Confirmed(Exec(s, steps).value)
    decreases |steps|
  {
    if steps != [] {
      StepKeepsOk(s, steps[0]);
      ReturnedStays(s, steps[0]);
      RunsKeepOk(Next(s, steps[0]), steps[1..]);
    }
  }

  lemma ReturnedStays(s: System, step: Step)
    requires Enabled(s, step)
    ensures Confirmed(s) ==> Confirmed(Next(s, step))
  {
    if Confirmed(s) {
      var d :| d in s.drains && s.drains[d] == Returned(Complete);
      assert d in Next(s, step).drains && Next(s, step).drains[d] == Returned(Complete);
    }
  }

  /**
   * Over every interleaving: `active` counts the unfinished receipts and `failures` the failed or dropped
   * ones, exactly; and no drain has returned Complete while anything is unfinished or has failed.
   */
  lemma CountsAreExact(steps: seq<Step>)
    requires Exec(START, steps).Some?
    ensures var s := Exec(START, steps).value;
            && s.state.active == |Unfinished(s)|
            && s.state.failures == |FailedReceipts(s)|
            && (Unfinished(s) != {} || FailedReceipts(s) != {} ==> !Confirmed(s))
  {
    assert Unfinished(START) == {} && FailedReceipts(START) == {};
    RunsKeepOk(START, steps);
  }

  /**
   * Once a drain has returned Complete, in every continuation no worker is or becomes active, none fails,
   * and every later registration is refused.
   */
  lemma CompleteIsFinal(steps: seq<Step>, more: seq<Step>)
    requires Exec(START, steps).Some? && Confirmed(Exec(START, steps).value)
    requires Exec(Exec(START, steps).value, more).Some?
    ensures var s := Exec(Exec(START, steps).value, more).value;
            && Unfinished(s) == {} && FailedReceipts(s) == {}
            && s.state.active == 0 && s.state.failures == 0
            && !MayRegister(s.state, s.cancelled)
  {
    assert Unfinished(START) == {} && FailedReceipts(START) == {};
    RunsKeepOk(START, steps);
    RunsKeepOk(Exec(START, steps).value, more);
    var s := Exec(Exec(START, steps).value, more).value;
    assert Confirmed(s);
    var d :| d in s.drains && s.drains[d] == Returned(Complete);
  }

  lemma {:induction false} FailuresStay(s: System, steps: seq<Step>)
    requires Exec(s, steps).Some?
    ensures FailedReceipts(s) <= FailedReceipts(Exec(s, steps).value)
    decreases |steps|
  {
    if steps != [] {
      FailuresStay(Next(s, steps[0]), steps[1..]);
    }
  }

  /** Once any receipt has failed or was dropped, no drain has returned Complete, then or ever after. */
  lemma FailureIsFinal(steps: seq<Step>, more: seq<Step>)
    requires Exec(START, steps).Some? && FailedReceipts(Exec(START, steps).value) != {}
    requires Exec(Exec(START, steps).value, more).Some?
    ensures !Confirmed(Exec(Exec(START, steps).value, more).value)
  {
    assert Unfinished(START) == {} && FailedReceipts(START) == {};
    RunsKeepOk(START, steps);
    RunsKeepOk(Exec(START, steps).value, more);
    FailuresStay(Exec(START, steps).value, more);
  }

  // ----- What a drain returns, and when a registration is granted

  /** What a poll makes of a drain, told by the receipts: its answer, or nothing yet. */
  function Answer(s: System, timedOut: bool): Option<DrainOutcome> {
    var left, failed := Unfinished(s), FailedReceipts(s);
    if left == {} then Some(if failed == {} then Complete else Failed(0, |failed|))
    else if !timedOut then None
    else Some(if failed == {} then Pending(|left|) else Failed(|left|, |failed|))
  }

  /**
   * In every run and for every drain still polling: with no receipt unfinished a poll returns at once,
   * Complete if none has failed and otherwise the number of failures; with receipts unfinished it returns
   * only when its time is up, their number if none has failed and otherwise both numbers. Nothing else
   * changes.
   */
  lemma PollAnswers(steps: seq<Step>, d: nat, timedOut: bool)
    requires Exec(START, steps).Some? && Enabled(Exec(START, steps).value, PollDrain(d, timedOut))
    ensures var s := Exec(START, steps).value;
            Next(s, PollDrain(d, timedOut)) ==
            match Answer(s, timedOut)
            case Some(outcome) => s.(drains := s.drains[d := Returned(outcome)])
            case None => s
  {
    assert Unfinished(START) == {} && FailedReceipts(START) == {};
    RunsKeepOk(START, steps);
    var s := Exec(START, steps).value;
    assert |Unfinished(s)| == 0 <==> Unfinished(s) == {};
    assert |FailedReceipts(s)| == 0 <==> FailedReceipts(s) == {};
  }

  /** A receipt finishes once, as it is completed or, if it is dropped, as failed; every other receipt stays. */
  lemma FinishIsRecorded(s: System, r: nat, ok: bool)
    requires r in s.receipts
    ensures var done, dropped := Next(s, CompleteReceipt(r, ok)), Next(s, DropReceipt(r));
            if s.receipts[r] == Live then
              && Unfinished(done) == Unfinished(s) - {r} && Unfinished(dropped) == Unfinished(s) - {r}
              && FailedReceipts(done) == (if ok then FailedReceipts(s) else FailedReceipts(s) + {r})
              && FailedReceipts(dropped) == FailedReceipts(s) + {r}
            else done == s && dropped == s
  {
  }

  predicate StopsRegistration(step: Step) { step.StartDrain? || step.Cancel? }

  lemma {:induction false} SealedOrCancelledIff(s: System, steps: seq<Step>)
    requires Exec(s, steps).Some?
    ensures var end := Exec(s, steps).value;
            end.state.isSealed || end.cancelled <==>
            s.state.isSealed || s.cancelled || exists i :: 0 <= i < |steps| && StopsRegistration(steps[i])
    decreases |steps|
  {
    if steps != [] {
      var next := Next(s, steps[0]);
      SealedOrCancelledIff(next, steps[1..]);
      assert steps == [steps[0]] + steps[1..];
      assert forall i :: 0 <= i < |steps[1..]| ==> steps[1..][i] == steps[i + 1];
      assert forall i :: 1 <= i < |steps| ==> steps[i] == steps[1..][i - 1];
      assert next.state.isSealed || next.cancelled <==>
             s.state.isSealed || s.cancelled || StopsRegistration(steps[0]);
    }
  }

  /** In every run a registration is granted if and only if no drain has started and no cancel has come. */
  lemma RegistrationIsGrantedIff(steps: seq<Step>, r: nat)
    requires Exec(START, steps).Some? && Enabled(Exec(START, steps).value, Register(r))
    ensures var s := Exec(START, steps).value;
            var next := Next(s, Register(r));
            if exists i :: 0 <= i < |steps| && StopsRegistration(steps[i]) then next == s
            else next.receipts == s.receipts[r := Live] && Unfinished(next) == Unfinished(s) + {r}
  {
    SealedOrCancelledIff(START, steps);
  }
}
