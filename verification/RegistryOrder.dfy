/** Over every run the registry lists the tasks it still has in the order they were created. */
module RegistryOrder {
  import opened Common
  import opened Ids
  import opened Registry

  /** The ids inserted by a run, in order. */
  function Placed(steps: seq<Step>): seq<Id> {
    if steps == [] then []
    else if steps[0].Place? then [steps[0].id] + Placed(steps[1..])
    else Placed(steps[1..])
  }

  /** Those of `created` that are still there, in order. */
  function Surviving(created: seq<Id>, there: set<Id>): seq<Id> {
    if created == [] then []
    else if created[0] in there then [created[0]] + Surviving(created[1..], there)
    else Surviving(created[1..], there)
  }

  lemma {:induction false} SurvivingAppend(created: seq<Id>, id: Id, there: set<Id>)
    ensures Surviving(created + [id], there) == Surviving(created, there) + if id in there then [id] else []
  {
    if created == [] {
      assert created + [id] == [id] && [id][1..] == [];
    } else {
      assert (created + [id])[1..] == created[1..] + [id];
      SurvivingAppend(created[1..], id, there);
    }
  }

  lemma {:induction false} SurvivingAgree(created: seq<Id>, a: set<Id>, b: set<Id>)
    requires forall x :: x in created ==> (x in a <==> x in b)
    ensures Surviving(created, a) == Surviving(created, b)
  {
    if created != [] {
      assert created[0] in created;
      SurvivingAgree(created[1..], a, b);
    }
  }

  lemma {:induction false} SurvivingWithout(created: seq<Id>, there: set<Id>, gone: set<Id>)
    ensures Surviving(created, there - gone) == Without(Surviving(created, there), gone)
  {
    if created != [] {
      var rest := Surviving(created[1..], there);
      SurvivingWithout(created[1..], there, gone);
      assert ([created[0]] + rest)[1..] == rest;
      assert [] + Without(rest, gone) == Without(rest, gone);
    }
  }

  lemma PlaceKeepsOrder(t: Tasks, created: seq<Id>, id: Id, e: Entry)
    requires t.order == Surviving(created, t.entries.Keys) && id !in created
    ensures Insert(t, id, e).order == Surviving(created + [id], Insert(t, id, e).entries.Keys)
  {
    var added := Tasks(t.entries[id := e], t.order + [id]);
    var there := added.entries.Keys;
    SurvivingAgree(created, t.entries.Keys, there);
    SurvivingAppend(created, id, there);
    SurvivingWithout(created + [id], there, Evicted(added));
    assert Insert(t, id, e).entries.Keys == there - Evicted(added);
  }

  lemma NotEarlier(created: seq<Id>, id: Id, later: seq<Id>)
    requires Distinct(created + ([id] + later))
    ensures id !in created
  {
    var all := created + ([id] + later);
    assert all[|created|] == id && forall i :: 0 <= i < |created| ==> all[i] == created[i];
  }

  /** What a step adds to the created ids, and what it leaves in order. */
  lemma StepKeepsOrder(s: System, quota: nat, n: nat, step: Step, created: seq<Id>, later: seq<Id>)
    requires Enabled(s, n, step) && s.tasks.order == Surviving(created, s.tasks.entries.Keys)
    requires Distinct(created + (Placed([step]) + later))
    ensures var next := Next(s, quota, step);
            next.tasks.order == Surviving(created + Placed([step]), next.tasks.entries.Keys)
  {
    assert [step][1..] == [];
    if step.Place? {
      assert Placed([step]) == [step.id] + [];
      assert Placed([step]) == [step.id];
      NotEarlier(created, step.id, later);
      PlaceKeepsOrder(s.tasks, created, step.id, NewEntry(step.session, s.checked[step.creator]));
    } else {
      assert created + Placed([step]) == created;
      assert Next(s, quota, step).tasks.entries.Keys == s.tasks.entries.Keys;
    }
  }

  lemma PlacedFront(steps: seq<Step>)
    requires steps != []
    ensures Placed(steps) == Placed([steps[0]]) + Placed(steps[1..])
  {
    assert [steps[0]][1..] == [];
  }

  lemma {:induction false} RunsKeepOrder(s: System, quota: nat, n: nat, steps: seq<Step>, created: seq<Id>)
    requires Exec(s, quota, n, steps).Some? && Distinct(created + Placed(steps))
    requires s.tasks.order == Surviving(created, s.tasks.entries.Keys)
    ensures var end := Exec(s, quota, n, steps).value;
            end.tasks.order == Surviving(created + Placed(steps), end.tasks.entries.Keys)
    decreases |steps|
  {
    if steps == [] {
      assert created + [] == created;
    } else {
      var first, later := Placed([steps[0]]), Placed(steps[1..]);
      PlacedFront(steps);
      StepKeepsOrder(s, quota, n, steps[0], created, later);
      Assoc(created, first, later);
      RunsKeepOrder(Next(s, quota, steps[0]), quota, n, steps[1..], created + first);
    }
  }

  /**
   * In every run with fresh ids the order lists exactly the tasks the registry still has, oldest first, so
   * that what eviction calls the oldest finished tasks are those created first.
   */
  lemma OrderIsCreation(quota: nat, n: nat, steps: seq<Step>)
    requires Exec(System(Tasks(map[], []), map[]), quota, n, steps).Some? && Distinct(Placed(steps))
    ensures var end := Exec(System(Tasks(map[], []), map[]), quota, n, steps).value;
            end.tasks.order == Surviving(Placed(steps), end.tasks.entries.Keys)
  {
    assert [] + Placed(steps) == Placed(steps);
    RunsKeepOrder(System(Tasks(map[], []), map[]), quota, n, steps, []);
  }
}
