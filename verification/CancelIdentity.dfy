/**
 * The table from cancellation flags to registries (for_cancel in
 * piscis-kernel/src/agent/tool_completion.rs): keyed by the flag's address, holding weak references, while
 * addresses are freed and reused.
 */
module CancelIdentity {
  import opened Common

  type Flag = nat
  type Address = nat
  type Reg = nat

  /** One strong reference; references to flags and to registries are numbered separately. */
  type Handle = nat

  /**
   * `at` gives the address of every flag whose allocation is live, `flags` the strong references to flags
   * outside registries, `flagOf` the flag each registry ever made was made for, `holds` the strong
   * references to registries, and `table` the weak map.
   */
  datatype World = World(at: map<Flag, Address>, flags: map<Handle, Flag>, flagOf: map<Reg, Flag>,
                         holds: map<Handle, Reg>, table: map<Address, Reg>)

  datatype Step =
    | NewFlag(f: Flag, a: Address, h: Handle)
    | CloneFlag(of: Handle, h: Handle)
    | DropFlag(h: Handle)
    | ForCancel(of: Handle, r: Reg, h: Handle)
    | CloneReg(of: Handle, h: Handle)
    | DropReg(h: Handle)

  predicate Held(w: World, f: Flag) {
    exists h :: h in w.flags && w.flags[h] == f
  }

  /** Somebody holds the registry, so a weak reference to it can still be upgraded. */
  predicate IsAlive(w: World, r: Reg) {
    exists h :: h in w.holds && w.holds[h] == r
  }

  /** A live registry holds the flag it was made for. */
  predicate Guarded(w: World, f: Flag) {
    exists h :: h in w.holds && w.holds[h] in w.flagOf && w.flagOf[w.holds[h]] == f
  }

  /** A flag's memory is free again once nobody outside and no registry holds it. */
  function Released(w: World, f: Flag): World {
    if Held(w, f) || Guarded(w, f) then w else w.(at := w.at - {f})
  }

  /** The registry the table yields for an address, if it is still alive. */
  function Lookup(w: World, key: Address): Option<Reg> {
    if key in w.table && IsAlive(w, w.table[key]) then Some(w.table[key]) else None
  }

  /**
   * `for_cancel`: prune dead entries, then hand out a reference `h` to the registry the table yields for the
   * flag's address, or to a new registry `r`.
   */
  function Obtain(w: World, f: Flag, r: Reg, h: Handle): World
    requires f in w.at
  {
    var key := w.at[f];
    var pruned := w.(table := map a | a in w.table && IsAlive(w, w.table[a]) :: w.table[a]);
    match Lookup(w, key)
    case Some(x) => pruned.(holds := w.holds[h := x])
    case None => pruned.(holds := w.holds[h := r], flagOf := w.flagOf[r := f], table := pruned.table[key := r])
  }

  /** Flags, registries and references made are new; what is cloned or dropped is held. */
  predicate Enabled(w: World, step: Step) {
    match step
    case NewFlag(f, a, h) => f !in w.at && a !in w.at.Values && h !in w.flags
    case CloneFlag(of, h) => of in w.flags && h !in w.flags
    case DropFlag(h) => h in w.flags
    case ForCancel(of, r, h) => of in w.flags && w.flags[of] in w.at && r !in w.flagOf && h !in w.holds
    case CloneReg(of, h) => of in w.holds && h !in w.holds
    case DropReg(h) => h in w.holds
  }

  function Next(w: World, step: Step): World
    requires Enabled(w, step)
  {
    match step
    case NewFlag(f, a, h) => w.(at := w.at[f := a], flags := w.flags[h := f])
    case CloneFlag(of, h) => w.(flags := w.flags[h := w.flags[of]])
    case DropFlag(h) => Released(w.(flags := w.flags - {h}), w.flags[h])
    case ForCancel(of, r, h) => Obtain(w, w.flags[of], r, h)
    case CloneReg(of, h) => w.(holds := w.holds[h := w.holds[of]])
    case DropReg(h) =>
      var dropped := w.(holds := w.holds - {h});
      if w.holds[h] in w.flagOf then Released(dropped, w.flagOf[w.holds[h]]) else dropped
  }

  function Exec(w: World, steps: seq<Step>): Option<World>
    decreases |steps|
  {
    if steps == [] then Some(w)
    else if !Enabled(w, steps[0]) then None
    else Exec(Next(w, steps[0]), steps[1..])
  }

  const EMPTY := World(map[], map[], map[], map[], map[])

  /** Live flags have distinct addresses; every held registry keeps its flag and is the one the table finds for it. */
  ghost predicate WorldOk(w: World) {
    && (forall f, g :: f in w.at && g in w.at && w.at[f] == w.at[g] ==> f == g)
    && (forall h :: h in w.flags ==> w.flags[h] in w.at)
    && (forall h :: h in w.holds ==> RegOk(w, w.holds[h]))
    && (forall a :: a in w.table ==> w.table[a] in w.flagOf)
    && (forall a :: a in w.table && IsAlive(w, w.table[a]) ==> FoundAt(w, a))
  }

  /** The flag of the registry found at `a` lives at `a`. */
  predicate FoundAt(w: World, a: Address)
    requires a in w.table && w.table[a] in w.flagOf
  {
    w.flagOf[w.table[a]] in w.at && w.at[w.flagOf[w.table[a]]] == a
  }

  predicate RegOk(w: World, r: Reg) {
    && r in w.flagOf && w.flagOf[r] in w.at
    && w.at[w.flagOf[r]] in w.table && w.table[w.at[w.flagOf[r]]] == r
  }

  lemma ReleasedKeeps(w: World, f: Flag)
    requires WorldOk(w)
    ensures WorldOk(Released(w, f))
  {
    var w' := Released(w, f);
    forall h | h in w'.holds
      ensures RegOk(w', w'.holds[h])
    {
      assert RegOk(w, w.holds[h]);
      assert w.flagOf[w.holds[h]] == f ==> Guarded(w, f);
    }
    forall h | h in w'.flags
      ensures w'.flags[h] in w'.at
    {
      assert w.flags[h] == f ==> Held(w, f);
    }
  }

  /** Two held registries made for one flag are one. */
  lemma OnePerFlag(w: World, g: Handle, h: Handle)
    requires WorldOk(w) && g in w.holds && h in w.holds && w.flagOf[w.holds[g]] == w.flagOf[w.holds[h]]
    ensures w.holds[g] == w.holds[h]
  {
    assert RegOk(w, w.holds[g]) && RegOk(w, w.holds[h]);
  }

  lemma ObtainKeeps(w: World, f: Flag, r: Reg, h: Handle)
    requires WorldOk(w) && f in w.at && r !in w.flagOf && h !in w.holds
    ensures WorldOk(Obtain(w, f, r, h))
  {
    var w' := Obtain(w, f, r, h);
    forall g | g in w'.holds
      ensures RegOk(w', w'.holds[g])
    {
      ObtainKeepsReg(w, f, r, h, g);
    }
    forall a | a in w'.table
      ensures w'.table[a] in w'.flagOf && (IsAlive(w', w'.table[a]) ==> FoundAt(w', a))
    {
      ObtainKeepsTable(w, f, r, h, a);
    }
  }

  lemma ObtainKeepsTable(w: World, f: Flag, r: Reg, h: Handle, a: Address)
    requires WorldOk(w) && f in w.at && r !in w.flagOf && h !in w.holds && a in Obtain(w, f, r, h).table
    ensures var w' := Obtain(w, f, r, h);
            w'.table[a] in w'.flagOf && (IsAlive(w', w'.table[a]) ==> FoundAt(w', a))
  {
    if a in w.table && IsAlive(w, w.table[a]) {
      assert FoundAt(w, a);
    }
  }

  lemma ObtainKeepsReg(w: World, f: Flag, r: Reg, h: Handle, g: Handle)
    requires WorldOk(w) && f in w.at && r !in w.flagOf && h !in w.holds && g in Obtain(w, f, r, h).holds
    ensures RegOk(Obtain(w, f, r, h), Obtain(w, f, r, h).holds[g])
  {
    if g in w.holds {
      assert RegOk(w, w.holds[g]) && IsAlive(w, w.holds[g]);
      assert w.at[w.flagOf[w.holds[g]]] == w.at[f] ==> Lookup(w, w.at[f]) == Some(w.holds[g]);
    } else if Lookup(w, w.at[f]).Some? {
      var k :| k in w.holds && w.holds[k] == w.table[w.at[f]];
      assert RegOk(w, w.holds[k]);
    }
  }

  /** The reference handed out is to the flag's own registry, and to the one it had if anybody held it. */
  lemma ObtainFinds(w: World, f: Flag, r: Reg, h: Handle)
    requires WorldOk(w) && f in w.at && r !in w.flagOf && h !in w.holds
    ensures var w' := Obtain(w, f, r, h);
            && w'.holds == w.holds[h := w'.holds[h]]
            && w'.holds[h] in w'.flagOf && w'.flagOf[w'.holds[h]] == f
            && (forall g :: g in w.holds && w.flagOf[w.holds[g]] == f ==> w'.holds[h] == w.holds[g])
  {
    var w' := Obtain(w, f, r, h);
    if Lookup(w, w.at[f]).Some? {
      assert FoundAt(w, w.at[f]);
    }
    forall g | g in w.holds && w.flagOf[w.holds[g]] == f
      ensures w'.holds[h] == w.holds[g]
    {
      assert RegOk(w, w.holds[g]) && IsAlive(w, w.holds[g]);
    }
  }

  lemma FlagsKeep(w: World, w': World)
    requires WorldOk(w) && w' == w.(flags := w'.flags)
    requires forall h :: h in w'.flags ==> w'.flags[h] in w.at
    ensures WorldOk(w')
  {
    forall g | g in w'.holds
      ensures RegOk(w', w'.holds[g])
    {
      assert RegOk(w, w.holds[g]);
    }
    forall a | a in w'.table && IsAlive(w', w'.table[a])
      ensures FoundAt(w', a)
    {
      assert IsAlive(w, w.table[a]) && FoundAt(w, a);
    }
  }

  lemma NewFlagKeeps(w: World, f: Flag, a: Address, h: Handle)
    requires WorldOk(w) && Enabled(w, NewFlag(f, a, h))
    ensures WorldOk(Next(w, NewFlag(f, a, h)))
  {
    var w' := Next(w, NewFlag(f, a, h));
    assert forall g :: g in w.at ==> w.at[g] in w.at.Values;
    forall g | g in w'.holds
      ensures RegOk(w', w'.holds[g])
    {
      assert RegOk(w, w.holds[g]);
    }
    forall b | b in w'.table && IsAlive(w', w'.table[b])
      ensures FoundAt(w', b)
    {
      assert IsAlive(w, w.table[b]) && FoundAt(w, b);
    }
  }

  /** Fewer references, or a second one to the same registry. */
  lemma HoldsKeep(w: World, w': World)
    requires WorldOk(w) && w' == w.(holds := w'.holds)
    requires forall h :: h in w'.holds ==> exists g :: g in w.holds && w.holds[g] == w'.holds[h]
    ensures WorldOk(w')
  {
    forall h | h in w'.holds
      ensures RegOk(w', w'.holds[h])
    {
      var g :| g in w.holds && w.holds[g] == w'.holds[h];
      assert RegOk(w, w.holds[g]);
    }
    forall a | a in w'.table && IsAlive(w', w'.table[a])
      ensures FoundAt(w', a)
    {
      assert IsAlive(w, w.table[a]) && FoundAt(w, a);
    }
  }

  lemma StepKeepsWorldOk(w: World, step: Step)
    requires WorldOk(w) && Enabled(w, step)
    ensures WorldOk(Next(w, step))
  {
    match step
    case NewFlag(f, a, h) => NewFlagKeeps(w, f, a, h);
    case CloneFlag(of, h) => FlagsKeep(w, Next(w, step));
    case DropFlag(h) =>
      FlagsKeep(w, w.(flags := w.flags - {h}));
      ReleasedKeeps(w.(flags := w.flags - {h}), w.flags[h]);
    case ForCancel(of, r, h) => ObtainKeeps(w, w.flags[of], r, h);
    case CloneReg(of, h) => HoldsKeep(w, Next(w, step));
    case DropReg(h) =>
      HoldsKeep(w, w.(holds := w.holds - {h}));
      assert RegOk(w, w.holds[h]);
      ReleasedKeeps(w.(holds := w.holds - {h}), w.flagOf[w.holds[h]]);
  }

  lemma {:induction false} RunsKeepWorldOk(w: World, steps: seq<Step>)
    requires WorldOk(w) && Exec(w, steps).Some?
    ensures WorldOk(Exec(w, steps).value)
    decreases |steps|
  {
    if steps != [] {
      StepKeepsWorldOk(w, steps[0]);
      RunsKeepWorldOk(Next(w, steps[0]), steps[1..]);
    }
  }

  // ----- References keep what they refer to

  lemma StepKeepsHandle(w: World, step: Step, g: Handle)
    requires Enabled(w, step) && g in w.holds && step != DropReg(g)
    ensures g in Next(w, step).holds && Next(w, step).holds[g] == w.holds[g]
  {
  }

  lemma StepKeepsFlagOf(w: World, step: Step, r: Reg)
    requires Enabled(w, step) && r in w.flagOf
    ensures r in Next(w, step).flagOf && Next(w, step).flagOf[r] == w.flagOf[r]
  {
  }

  /** A reference that is not dropped keeps its registry, and a registry its flag, in every run. */
  lemma {:induction false} RunsKeepHandle(w: World, steps: seq<Step>, g: Handle, r: Reg)
    requires Exec(w, steps).Some?
    ensures g in w.holds && DropReg(g) !in steps ==>
              g in Exec(w, steps).value.holds && Exec(w, steps).value.holds[g] == w.holds[g]
    ensures r in w.flagOf ==> r in Exec(w, steps).value.flagOf && Exec(w, steps).value.flagOf[r] == w.flagOf[r]
    decreases |steps|
  {
    if steps != [] {
      assert steps == [steps[0]] + steps[1..];
      if g in w.holds && DropReg(g) !in steps {
        StepKeepsHandle(w, steps[0], g);
      }
      if r in w.flagOf {
        StepKeepsFlagOf(w, steps[0], r);
      }
      RunsKeepHandle(Next(w, steps[0]), steps[1..], g, r);
    }
  }

  // ----- The promises

  /**
   * In every run, asking for a flag's registry hands out one new reference, to a registry that was made for
   * that very flag; every other reference stays as it is.
   */
  lemma NeverAnothersRegistry(steps: seq<Step>, of: Handle, r: Reg, h: Handle)
    requires Exec(EMPTY, steps).Some? && Enabled(Exec(EMPTY, steps).value, ForCancel(of, r, h))
    ensures var w := Exec(EMPTY, steps).value;
            var w' := Next(w, ForCancel(of, r, h));
            && h in w'.holds && w'.holds == w.holds[h := w'.holds[h]]
            && w'.holds[h] in w'.flagOf && w'.flagOf[w'.holds[h]] == w.flags[of]
  {
    RunsKeepWorldOk(EMPTY, steps);
    var w := Exec(EMPTY, steps).value;
    ObtainFinds(w, w.flags[of], r, h);
  }

  /**
   * If asking for a flag gave registry `x` and, after any further run, anybody still holds `x`, asking for
   * that flag again gives `x`, however often addresses were freed and reused in between.
   */
  lemma SameRegistryWhileHeld(steps: seq<Step>, of: Handle, r: Reg, h: Handle, more: seq<Step>, g: Handle,
                              of': Handle, r': Reg, h': Handle)
    requires Exec(EMPTY, steps).Some? && Enabled(Exec(EMPTY, steps).value, ForCancel(of, r, h))
    requires var w := Exec(EMPTY, steps).value;
             var w1 := Next(w, ForCancel(of, r, h));
             && Exec(w1, more).Some?
             && var end := Exec(w1, more).value;
                && h in w1.holds && g in end.holds && end.holds[g] == w1.holds[h]
                && Enabled(end, ForCancel(of', r', h')) && end.flags[of'] == w.flags[of]
    ensures var w1 := Next(Exec(EMPTY, steps).value, ForCancel(of, r, h));
            Next(Exec(w1, more).value, ForCancel(of', r', h')).holds[h'] == w1.holds[h]
  {
    var w := Exec(EMPTY, steps).value;
    var w1 := Next(w, ForCancel(of, r, h));
    var end := Exec(w1, more).value;
    RunsKeepWorldOk(EMPTY, steps);
    NeverAnothersRegistry(steps, of, r, h);
    StepKeepsWorldOk(w, ForCancel(of, r, h));
    RunsKeepWorldOk(w1, more);
    RunsKeepHandle(w1, more, h, w1.holds[h]);
    ObtainFinds(end, end.flags[of'], r', h');
  }

  /** In particular for as long as the reference first given is not dropped. */
  lemma SameRegistryWhileKept(steps: seq<Step>, of: Handle, r: Reg, h: Handle, more: seq<Step>,
                              of': Handle, r': Reg, h': Handle)
    requires Exec(EMPTY, steps).Some? && Enabled(Exec(EMPTY, steps).value, ForCancel(of, r, h))
    requires var w := Exec(EMPTY, steps).value;
             var w1 := Next(w, ForCancel(of, r, h));
             && Exec(w1, more).Some? && DropReg(h) !in more
             && var end := Exec(w1, more).value;
                Enabled(end, ForCancel(of', r', h')) && end.flags[of'] == w.flags[of]
    ensures var w1 := Next(Exec(EMPTY, steps).value, ForCancel(of, r, h));
            Next(Exec(w1, more).value, ForCancel(of', r', h')).holds[h'] == w1.holds[h]
  {
    var w1 := Next(Exec(EMPTY, steps).value, ForCancel(of, r, h));
    NeverAnothersRegistry(steps, of, r, h);
    RunsKeepHandle(w1, more, h, r);
    SameRegistryWhileHeld(steps, of, r, h, more, h, of', r', h');
  }
}
