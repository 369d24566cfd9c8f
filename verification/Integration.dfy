/** Dependencies between todos (piscis-core/src/integration.rs). */
module Integration {
  import opened Common
  import T = Text

  /** An instant, as a number of ticks. */
  datatype Time = Time(ticks: int)

  datatype Todo = Todo(
    id: string, status: string, claimedBy: Option<string>, dependsOn: Option<string>,
    gitBranch: Option<string>, integrationStatus: Option<string>, updatedAt: Time)

  function Filter<X>(s: seq<X>, p: X -> bool): seq<X> {
    if s == [] then [] else (if p(s[0]) then [s[0]] else []) + Filter(s[1..], p)
  }

  function Count<X>(s: seq<X>, p: X -> bool): nat { |Filter(s, p)| }

  /** A hint names a todo by a prefix of its id, or extends the first eight characters of its id. */
  predicate Hints(hint: string, t: Todo) {
    T.StartsWith(t.id, hint) || T.StartsWith(hint, t.id[..Min(8, |t.id|)])
  }

  /** A full id, or a hint that fits one todo only. */
  function Resolve(depHint: string, todos: seq<Todo>): Option<Todo> {
    var hint := T.Trim(depHint);
    if hint == "" then None
    else
      var exact := Filter(todos, (t: Todo) => t.id == hint);
      if exact != [] then Some(exact[0])
      else
        var matches := Filter(todos, (t: Todo) => Hints(hint, t));
        if |matches| == 1 then Some(matches[0]) else None
  }

  predicate NotBlank(s: Option<string>) { s.Some? && T.Trim(s.value) != "" }

  predicate IsMerged(t: Todo) {
    t.integrationStatus.Some? && T.LowerAscii(T.Trim(t.integrationStatus.value)) == "merged"
  }

  /** A todo may start. */
  predicate DependencySatisfied(t: Todo, todos: seq<Todo>) {
    if !NotBlank(t.dependsOn) then true
    else
      var dep := Resolve(T.Trim(t.dependsOn.value), todos);
      dep.Some? && dep.value.status == "done" && !(NotBlank(dep.value.gitBranch) && !IsMerged(dep.value))
  }

  predicate IntegrationReady(t: Todo) {
    NotBlank(t.gitBranch) && (t.status == "done" || t.status == "needs_review") && !IsMerged(t)
  }

  predicate DependencyBlocked(t: Todo, todos: seq<Todo>) {
    t.status == "todo" && t.claimedBy.None? && NotBlank(t.dependsOn) && !DependencySatisfied(t, todos)
  }

  predicate IdsDistinct(todos: seq<Todo>) {
    forall i, j :: 0 <= i < j < |todos| ==> todos[i].id != todos[j].id
  }

  // ----- Order does not matter

  lemma {:induction false} FilterCounts<X>(s: seq<X>, p: X -> bool, x: X)
    ensures multiset(Filter(s, p))[x] == if p(x) then multiset(s)[x] else 0
  {
    if s != [] {
      FilterCounts(s[1..], p, x);
      assert s == [s[0]] + s[1..];
    }
  }

  lemma SameBag<X>(m: multiset<X>, n: multiset<X>)
    requires forall x: X :: m[x] == n[x]
    ensures m == n
  {
  }

  lemma FilterPermutes<X>(a: seq<X>, b: seq<X>, p: X -> bool)
    requires multiset(a) == multiset(b)
    ensures multiset(Filter(a, p)) == multiset(Filter(b, p))
  {
    forall x: X
      ensures multiset(Filter(a, p))[x] == multiset(Filter(b, p))[x]
    {
      FilterCounts(a, p, x);
      FilterCounts(b, p, x);
    }
    SameBag(multiset(Filter(a, p)), multiset(Filter(b, p)));
  }

  lemma CountPermutes<X>(a: seq<X>, b: seq<X>, p: X -> bool)
    requires multiset(a) == multiset(b)
    ensures Count(a, p) == Count(b, p)
  {
    FilterPermutes(a, b, p);
    assert |multiset(Filter(a, p))| == |multiset(Filter(b, p))|;
  }

  lemma {:induction false} FilterMembers<X>(s: seq<X>, p: X -> bool)
    ensures forall x :: x in Filter(s, p) <==> x in s && p(x)
  {
    if s != [] {
      FilterMembers(s[1..], p);
    }
  }

  lemma SameMembers<X>(a: seq<X>, b: seq<X>)
    requires multiset(a) == multiset(b)
    ensures forall x :: x in a <==> x in b
  {
    forall x
      ensures x in a <==> x in b
    {
      assert x in a <==> x in multiset(a);
      assert x in b <==> x in multiset(b);
    }
  }

  lemma SameSingleton<X>(a: seq<X>, b: seq<X>)
    requires multiset(a) == multiset(b) && |a| == 1
    ensures a == b
  {
    SameMembers(a, b);
    assert |multiset(a)| == |multiset(b)|;
    assert a[0] in a;
  }

  lemma ExactIsUnique(todos: seq<Todo>, x: Todo, y: Todo)
    requires IdsDistinct(todos) && x in todos && y in todos && x.id == y.id
    ensures x == y
  {
  }

  /** What a hint resolves to does not depend on the order of the todos. */
  lemma ResolveIsOrderFree(hint: string, a: seq<Todo>, b: seq<Todo>)
    requires multiset(a) == multiset(b) && IdsDistinct(a) && IdsDistinct(b)
    ensures Resolve(hint, a) == Resolve(hint, b)
  {
    var h := T.Trim(hint);
    var exact := (t: Todo) => t.id == h;
    var near := (t: Todo) => Hints(h, t);
    FilterPermutes(a, b, exact);
    FilterPermutes(a, b, near);
    CountPermutes(a, b, exact);
    CountPermutes(a, b, near);
    var x, y := Filter(a, exact), Filter(b, exact);
    if x != [] {
      FilterMembers(a, exact);
      FilterMembers(b, exact);
      SameMembers(a, b);
      assert x[0] in x && y[0] in y;
      ExactIsUnique(a, x[0], y[0]);
    } else if |Filter(a, near)| == 1 {
      SameSingleton(Filter(a, near), Filter(b, near));
    }
  }

  function BlockedCount(todos: seq<Todo>): nat {
    Count(todos, (t: Todo) => DependencyBlocked(t, todos))
  }

  lemma {:induction false} FilterAgrees<X>(s: seq<X>, p: X -> bool, q: X -> bool)
    requires forall x :: x in s ==> p(x) == q(x)
    ensures Filter(s, p) == Filter(s, q)
  {
    if s != [] {
      FilterAgrees(s[1..], p, q);
    }
  }

  /** Nor does the number of todos that wait for another. */
  lemma BlockedCountIsOrderFree(a: seq<Todo>, b: seq<Todo>)
    requires multiset(a) == multiset(b) && IdsDistinct(a) && IdsDistinct(b)
    ensures BlockedCount(a) == BlockedCount(b)
  {
    var p := (t: Todo) => DependencyBlocked(t, a);
    var q := (t: Todo) => DependencyBlocked(t, b);
    forall t: Todo
      ensures p(t) == q(t)
    {
      SameVerdict(t, a, b);
    }
    FilterAgrees(a, p, q);
    CountPermutes(a, b, q);
  }

  lemma SameVerdict(t: Todo, a: seq<Todo>, b: seq<Todo>)
    requires multiset(a) == multiset(b) && IdsDistinct(a) && IdsDistinct(b)
    ensures DependencyBlocked(t, a) == DependencyBlocked(t, b)
  {
    if NotBlank(t.dependsOn) {
      ResolveIsOrderFree(T.Trim(t.dependsOn.value), a, b);
    }
  }

  // ----- When a hint resolves, and when a todo may start

  /** The todo has the hinted id, or no todo has and it alone fits the hint. */
  predicate IsNamedBy(t: Todo, hint: string, todos: seq<Todo>) {
    && hint != "" && t in todos
    && (t.id == hint ||
        ((forall u :: u in todos ==> u.id != hint) && Hints(hint, t) &&
         forall u, i, j :: 0 <= i < |todos| && 0 <= j < |todos| && todos[i] == t && todos[j] == u && Hints(hint, u)
                           ==> i == j))
  }

  lemma {:induction false} FilterOne<X>(s: seq<X>, p: X -> bool, i: nat)
    requires i < |s| && p(s[i]) && forall j :: 0 <= j < |s| && p(s[j]) ==> j == i
    ensures Filter(s, p) == [s[i]]
  {
    if i > 0 {
      assert forall j :: 0 <= j < |s| - 1 ==> s[1..][j] == s[j + 1];
      FilterOne(s[1..], p, i - 1);
    } else {
      FilterNone(s[1..], p);
    }
  }

  lemma {:induction false} FilterNone<X>(s: seq<X>, p: X -> bool)
    ensures (forall x :: x in s ==> !p(x)) <==> Filter(s, p) == []
  {
    if s != [] {
      FilterNone(s[1..], p);
      assert s == [s[0]] + s[1..];
    }
  }

  lemma {:induction false} FilterPlaces<X>(s: seq<X>, p: X -> bool, i: nat, j: nat)
    requires i < j < |s| && p(s[i]) && p(s[j])
    ensures |Filter(s, p)| >= 2
  {
    if i == 0 {
      FilterMembers(s[1..], p);
      assert s[1..][j - 1] == s[j] && s[j] in Filter(s[1..], p);
    } else {
      FilterPlaces(s[1..], p, i - 1, j - 1);
    }
  }

  lemma NamedIsFound(hint: string, todos: seq<Todo>, t: Todo)
    requires IdsDistinct(todos) && IsNamedBy(t, T.Trim(hint), todos)
    ensures Resolve(hint, todos) == Some(t)
  {
    var h := T.Trim(hint);
    var exact, near := (u: Todo) => u.id == h, (u: Todo) => Hints(h, u);
    FilterMembers(todos, exact);
    FilterNone(todos, exact);
    if t.id == h {
      assert t in Filter(todos, exact);
      ExactIsUnique(todos, t, Filter(todos, exact)[0]);
    } else {
      var i :| 0 <= i < |todos| && todos[i] == t;
      FilterOne(todos, near, i);
    }
  }

  lemma FoundIsNamed(hint: string, todos: seq<Todo>, t: Todo)
    requires IdsDistinct(todos) && Resolve(hint, todos) == Some(t)
    ensures IsNamedBy(t, T.Trim(hint), todos)
  {
    var h := T.Trim(hint);
    var exact, near := (u: Todo) => u.id == h, (u: Todo) => Hints(h, u);
    FilterMembers(todos, exact);
    FilterNone(todos, exact);
    FilterMembers(todos, near);
    if Filter(todos, exact) != [] {
      assert Filter(todos, exact)[0] in Filter(todos, exact);
    } else {
      assert Filter(todos, near)[0] in Filter(todos, near);
      forall u, i, j | 0 <= i < |todos| && 0 <= j < |todos| && todos[i] == t && todos[j] == u && Hints(h, u)
        ensures i == j
      {
        if i < j { FilterPlaces(todos, near, i, j); }
        if j < i { FilterPlaces(todos, near, j, i); }
      }
    }
  }

  /** A hint resolves to the todo it names, and to nothing if it names none. */
  lemma ResolvesIff(hint: string, todos: seq<Todo>, t: Todo)
    requires IdsDistinct(todos)
    ensures Resolve(hint, todos) == Some(t) <==> IsNamedBy(t, T.Trim(hint), todos)
  {
    if Resolve(hint, todos) == Some(t) {
      FoundIsNamed(hint, todos, t);
    }
    if IsNamedBy(t, T.Trim(hint), todos) {
      NamedIsFound(hint, todos, t);
    }
  }

  /** A finished todo whose branch, if it has one, is merged. */
  predicate IsSettled(t: Todo) {
    && t.status == "done"
    && (t.gitBranch.None? || T.Trim(t.gitBranch.value) == "" ||
        (t.integrationStatus.Some? && T.LowerAscii(T.Trim(t.integrationStatus.value)) == "merged"))
  }

  /** A todo may start if and only if it depends on nothing or names a todo that is done and merged. */
  lemma MayStartIff(t: Todo, todos: seq<Todo>)
    requires IdsDistinct(todos)
    ensures DependencySatisfied(t, todos) <==>
            || t.dependsOn.None? || T.Trim(t.dependsOn.value) == ""
            || exists d :: d in todos && IsNamedBy(d, T.Trim(T.Trim(t.dependsOn.value)), todos) && IsSettled(d)
    ensures DependencyBlocked(t, todos) <==>
            t.status == "todo" && t.claimedBy.None? && !DependencySatisfied(t, todos)
  {
    if NotBlank(t.dependsOn) {
      var hint := T.Trim(t.dependsOn.value);
      forall d
        ensures Resolve(hint, todos) == Some(d) <==> IsNamedBy(d, T.Trim(hint), todos)
      {
        ResolvesIff(hint, todos, d);
      }
    }
  }
}
