/**
 * Undoing whole turns, newest first (undo_turn in piscis-kernel/src/agent/file_journal.rs).
 *
 * Every change goes through the journal, tool calls inside one turn may overlap, calls may be cancelled
 * before their tool starts, a turn begins only when no call is in flight, and keeping paths may happen at
 * any time since undo_turn ignores it.
 */
module JournalTurns {
  import opened Common
  import opened JournalLanes
  import opened JournalModel

  /** A turn and the file system it started from. */
  datatype TurnStart = TurnStart(turn: string, fs: FileSystem)

  /** `started` holds the edits under way and their paths, `written` those of them whose tool has written. */
  datatype TurnRun = TurnRun(
    j: Journal, started: map<string, Path>, written: set<string>, gone: set<string>, starts: seq<TurnStart>)

  datatype TurnStep =
    | BeginStep(turn: string)
    | BeforeStep(ev: Event)
    | WriteStep(toolUse: string, bytes: Bytes)
    | AfterStep(ev: Event, isError: bool)
    | AbandonStep(toolUse: string)
    | KeepStep(session: string, paths: Option<seq<Path>>)
    | UndoCurrent(session: string)

  predicate FreshTurn(starts: seq<TurnStart>, t: string) {
    forall k :: 0 <= k < |starts| ==> starts[k].turn != t
  }

  /** As in a review run; a turn begins, and the current turn is undone, when no edit is under way. */
  ghost predicate Enabled(s: TurnRun, own: Path -> string, step: TurnStep) {
    match step
    case BeginStep(t) => s.started == map[] && FreshTurn(s.starts, t)
    case BeforeStep(ev) =>
      && ev.toolUse !in s.started && ev.toolUse !in s.gone
      && (ev.path.Some? ==> own(ev.path.value) == ev.session)
    case WriteStep(t, bytes) => t in s.started
    case AfterStep(ev, isError) => ev.toolUse !in s.gone && (isError ==> ev.toolUse !in s.written)
    case AbandonStep(t) => t in s.started && t !in s.written
    case KeepStep(session, paths) => true
    case UndoCurrent(session) => s.starts != [] && s.started == map[]
  }

  ghost function Next(s: TurnRun, own: Path -> string, step: TurnStep): TurnRun
    requires Enabled(s, own, step)
  {
    match step
    case BeginStep(t) => s.(j := BeginTurn(s.j, t), starts := s.starts + [TurnStart(t, s.j.fs)])
    case BeforeStep(ev) => s.(j := BeforeTool(s.j, ev), started := Starting(s.started, s.j.turn, ev))
    case WriteStep(t, bytes) => s.(j := s.j.(fs := s.j.fs[s.started[t] := bytes]), written := s.written + {t})
    case AfterStep(ev, isError) =>
      s.(j := AfterTool(s.j, ev, isError), started := Ended(s.started, ev), written := Ending(s.written, ev))
    case AbandonStep(t) => s.(started := s.started - {t}, gone := s.gone + {t})
    case KeepStep(session, paths) => s.(j := Keep(s.j, session, paths))
    case UndoCurrent(session) => s.(j := Undo(s.j, InTurn(session, s.starts[|s.starts| - 1].turn), None))
  }

  ghost function Exec(s: TurnRun, own: Path -> string, steps: seq<TurnStep>): Option<TurnRun>
    decreases |steps|
  {
    if steps == [] then Some(s)
    else if !Enabled(s, own, steps[0]) then None
    else Exec(Next(s, own, steps[0]), own, steps[1..])
  }

  function Start(fs: FileSystem): TurnRun {
    TurnRun(Journal(fs, [], 0, None), map[], {}, {}, [])
  }

  /** The file system at the end of turn `k`: where the next turn started, or the disk now. */
  function EndOf(s: TurnRun, k: nat): FileSystem
    requires k < |s.starts|
  {
    if k + 1 < |s.starts| then s.starts[k + 1].fs else s.j.fs
  }

  ghost predicate TurnLane(s: TurnRun, own: Path -> string, k: nat, p: Path)
    requires k < |s.starts|
  {
    LaneOk(Live(s.j.rows, s.gone), InTurn(own(p), s.starts[k].turn), p, s.written,
           Content(s.starts[k].fs, p), Content(EndOf(s, k), p))
  }

  ghost predicate TurnsOk(s: TurnRun, own: Path -> string) {
    && RowsOk(s.j.rows, s.j.nextId, s.written, own)
    && StartedOk(s.j.rows, s.started, s.gone, s.written)
    && (s.starts == [] ==> s.j.turn.None? && s.j.rows == [])
    && (s.starts != [] ==> s.j.turn == Some(s.starts[|s.starts| - 1].turn))
    && (forall k, m :: 0 <= k < m < |s.starts| ==> s.starts[k].turn != s.starts[m].turn)
    && (forall r :: r in s.j.rows ==> !FreshTurn(s.starts, r.turn))
    && (forall r :: r in Live(s.j.rows, s.gone) && !r.applied ==> Some(r.turn) == s.j.turn)
    && (forall k: nat, p :: k < |s.starts| ==> TurnLane(s, own, k, p))
  }

  lemma BeginKeeps(s: TurnRun, own: Path -> string, t: string)
    requires TurnsOk(s, own) && Enabled(s, own, BeginStep(t))
    ensures TurnsOk(Next(s, own, BeginStep(t)), own)
  {
    var s' := Next(s, own, BeginStep(t));
    LiveMembers(s.j.rows, s.gone);
    AllFinished(s.j.rows, s.started, s.gone, s.written);
    forall r | r in s'.j.rows
      ensures !FreshTurn(s'.starts, r.turn)
    {
      var k :| 0 <= k < |s.starts| && s.starts[k].turn == r.turn;
      assert s'.starts[k].turn == r.turn;
    }
    forall k: nat, p | k < |s'.starts|
      ensures TurnLane(s', own, k, p)
    {
      if k < |s.starts| {
        assert TurnLane(s, own, k, p);
      } else {
        EmptyLane(Live(s.j.rows, s.gone), InTurn(own(p), t), p, s.written, Content(s.j.fs, p), Content(s.j.fs, p));
      }
    }
  }

  lemma BeforeKeepsLane(s: TurnRun, own: Path -> string, ev: Event, k: nat, p: Path)
    requires TurnsOk(s, own) && Enabled(s, own, BeforeStep(ev)) && k < |s.starts|
    ensures TurnLane(Next(s, own, BeforeStep(ev)), own, k, p)
  {
    assert TurnLane(s, own, k, p);
    if Journaled(s.j, ev) {
      LiveAppend(s.j.rows, NewRow(s.j, ev), s.gone);
      LaneAppend(Live(s.j.rows, s.gone), NewRow(s.j, ev), InTurn(own(p), s.starts[k].turn), p, s.written,
                 Content(s.starts[k].fs, p), Content(EndOf(s, k), p));
    }
  }

  lemma BeforeKeepsTurnIds(s: TurnRun, own: Path -> string, ev: Event)
    requires TurnsOk(s, own) && Enabled(s, own, BeforeStep(ev))
    ensures var s' := Next(s, own, BeforeStep(ev));
            && (forall r :: r in s'.j.rows ==> !FreshTurn(s'.starts, r.turn))
            && (forall r :: r in Live(s'.j.rows, s'.gone) && !r.applied ==> Some(r.turn) == s'.j.turn)
  {
    if Journaled(s.j, ev) {
      LiveAppend(s.j.rows, NewRow(s.j, ev), s.gone);
      assert s.starts[|s.starts| - 1].turn == s.j.turn.value;
    }
  }

  lemma BeforeKeeps(s: TurnRun, own: Path -> string, ev: Event)
    requires TurnsOk(s, own) && Enabled(s, own, BeforeStep(ev))
    ensures TurnsOk(Next(s, own, BeforeStep(ev)), own)
  {
    FreshIsNotInFlight(s.j.rows, s.started, s.gone, s.written, ev.toolUse);
    BeforeKeepsRows(s.j, s.written, own, ev);
    BeforeKeepsStarted(s.j, s.started, s.gone, s.written, ev);
    BeforeKeepsTurnIds(s, own, ev);
    forall k: nat, p | k < |s.starts|
      ensures TurnLane(Next(s, own, BeforeStep(ev)), own, k, p)
    {
      BeforeKeepsLane(s, own, ev, k, p);
    }
  }

  /** The row of a started call is live, on its path's lane, in the current turn. */
  lemma StartedRowInTurn(s: TurnRun, own: Path -> string, t: string)
    requires TurnsOk(s, own) && t in s.started
    ensures exists r :: r in Live(s.j.rows, s.gone) && r.toolUse == t && r.path == s.started[t] &&
                        r.session == own(r.path) && !r.undone && Some(r.turn) == s.j.turn
  {
    StartedRow(s.j.rows, s.j.nextId, s.started, s.gone, s.written, own, t);
  }

  lemma WriteKeepsLane(s: TurnRun, own: Path -> string, t: string, bytes: Bytes, k: nat, p: Path)
    requires TurnsOk(s, own) && Enabled(s, own, WriteStep(t, bytes)) && k < |s.starts|
    ensures TurnLane(Next(s, own, WriteStep(t, bytes)), own, k, p)
  {
    var s' := Next(s, own, WriteStep(t, bytes));
    StartedRowInTurn(s, own, t);
    assert TurnLane(s, own, k, p);
    LaneWrite(Live(s.j.rows, s.gone), InTurn(own(p), s.starts[k].turn), p, s.written, t,
              Content(s.starts[k].fs, p), Content(EndOf(s, k), p), Content(EndOf(s', k), p));
  }

  lemma WriteKeeps(s: TurnRun, own: Path -> string, t: string, bytes: Bytes)
    requires TurnsOk(s, own) && Enabled(s, own, WriteStep(t, bytes))
    ensures TurnsOk(Next(s, own, WriteStep(t, bytes)), own)
  {
    forall k: nat, p | k < |s.starts|
      ensures TurnLane(Next(s, own, WriteStep(t, bytes)), own, k, p)
    {
      WriteKeepsLane(s, own, t, bytes, k, p);
    }
  }

  lemma AfterKeepsTurnIds(s: TurnRun, own: Path -> string, ev: Event, isError: bool)
    requires TurnsOk(s, own) && ev.toolUse !in s.gone
    ensures var s' := s.(j := AfterTool(s.j, ev, isError));
            && (forall r :: r in s'.j.rows ==> !FreshTurn(s.starts, r.turn))
            && (forall r :: r in Live(s'.j.rows, s'.gone) && !r.applied ==> Some(r.turn) == s.j.turn)
  {
    var rows' := AfterTool(s.j, ev, isError).rows;
    MarkAppliedShape(s.j.rows, ev.toolUse);
    DropUnappliedShape(s.j.rows, ev.toolUse);
    LiveMembers(s.j.rows, s.gone);
    LiveMembers(rows', s.gone);
    forall r | r in rows'
      ensures exists r0 :: r0 in s.j.rows && r0.turn == r.turn && (!r.applied ==> r0 == r)
    {
      var i :| 0 <= i < |rows'| && rows'[i] == r;
      if ev.tool in SNAPSHOT_TOOLS && !isError {
        assert s.j.rows[i] in s.j.rows;
      } else {
        assert r in s.j.rows;
      }
    }
  }

  lemma AfterKeepsLane(s: TurnRun, own: Path -> string, ev: Event, isError: bool, k: nat, p: Path)
    requires TurnsOk(s, own) && Enabled(s, own, AfterStep(ev, isError)) && k < |s.starts|
    ensures TurnLane(Next(s, own, AfterStep(ev, isError)), own, k, p)
  {
    var w := InTurn(own(p), s.starts[k].turn);
    var base, now := Content(s.starts[k].fs, p), Content(EndOf(s, k), p);
    SnapshotToolsAre(ev.tool);
    assert TurnLane(s, own, k, p);
    if isError {
      LiveDropped(s.j.rows, ev.toolUse, s.gone);
      LaneDropped(Live(s.j.rows, s.gone), w, p, s.written, ev.toolUse, base, now);
      assert s.written - {ev.toolUse} == s.written;
    } else {
      LiveApplied(s.j.rows, ev.toolUse, s.gone);
      LaneApplied(Live(s.j.rows, s.gone), w, p, s.written, ev.toolUse, base, now);
    }
  }

  lemma AfterKeeps(s: TurnRun, own: Path -> string, ev: Event, isError: bool)
    requires TurnsOk(s, own) && Enabled(s, own, AfterStep(ev, isError))
    ensures TurnsOk(Next(s, own, AfterStep(ev, isError)), own)
  {
    var s' := Next(s, own, AfterStep(ev, isError));
    SnapshotToolsAre(ev.tool);
    AfterKeepsRows(s.j, s.written, own, ev, isError);
    AfterKeepsStarted(s.j, s.started, s.gone, s.written, ev, isError);
    AfterKeepsTurnIds(s, own, ev, isError);
    forall k: nat, p | k < |s'.starts|
      ensures TurnLane(s', own, k, p)
    {
      AfterKeepsLane(s, own, ev, isError, k, p);
    }
  }

  lemma AbandonKeepsLane(s: TurnRun, own: Path -> string, t: string, k: nat, p: Path)
    requires TurnsOk(s, own) && Enabled(s, own, AbandonStep(t)) && k < |s.starts|
    ensures TurnLane(Next(s, own, AbandonStep(t)), own, k, p)
  {
    LiveAbandoned(s.j.rows, t, s.gone);
    assert TurnLane(s, own, k, p);
    LaneDropped(Live(s.j.rows, s.gone), InTurn(own(p), s.starts[k].turn), p, s.written, t,
                Content(s.starts[k].fs, p), Content(EndOf(s, k), p));
  }

  lemma AbandonKeeps(s: TurnRun, own: Path -> string, t: string)
    requires TurnsOk(s, own) && Enabled(s, own, AbandonStep(t))
    ensures TurnsOk(Next(s, own, AbandonStep(t)), own)
  {
    var s' := Next(s, own, AbandonStep(t));
    AbandonKeepsStarted(s.j.rows, s.started, s.gone, s.written, t);
    LiveMembers(s.j.rows, s.gone);
    LiveMembers(s.j.rows, s'.gone);
    forall k: nat, p | k < |s'.starts|
      ensures TurnLane(s', own, k, p)
    {
      AbandonKeepsLane(s, own, t, k, p);
    }
  }

  lemma MarksKeepTurns(s: TurnRun, s': TurnRun, own: Path -> string)
    requires TurnsOk(s, own)
    requires s'.starts == s.starts && s'.started == s.started && s'.written == s.written && s'.gone == s.gone
    requires s'.j.turn == s.j.turn && s'.j.nextId == s.j.nextId
    requires |s'.j.rows| == |s.j.rows|
    requires forall i :: 0 <= i < |s.j.rows| ==>
               s'.j.rows[i] == s.j.rows[i] ||
               (s.j.rows[i].applied
                && s'.j.rows[i] == s.j.rows[i].(undone := s'.j.rows[i].undone, kept := s'.j.rows[i].kept))
    requires forall k: nat, p :: k < |s'.starts| ==> TurnLane(s', own, k, p)
    ensures TurnsOk(s', own)
  {
    MarksKeepRows(s.j.rows, s'.j.rows, s.j.nextId, s.written, own);
    MarksKeepStarted(s.j.rows, s'.j.rows, s.started, s.gone, s.written);
    LiveMembers(s.j.rows, s.gone);
    LiveMembers(s'.j.rows, s.gone);
    forall r | r in s'.j.rows
      ensures !FreshTurn(s'.starts, r.turn) && (!r.applied && !IsDead(r, s.gone) ==> Some(r.turn) == s.j.turn)
    {
      var i :| 0 <= i < |s'.j.rows| && s'.j.rows[i] == r;
      assert s.j.rows[i] in s.j.rows;
    }
  }

  lemma KeepKeeps(s: TurnRun, own: Path -> string, session: string, paths: Option<seq<Path>>)
    requires TurnsOk(s, own)
    ensures TurnsOk(Next(s, own, KeepStep(session, paths)), own)
  {
    var s' := Next(s, own, KeepStep(session, paths));
    forall k: nat, p | k < |s'.starts|
      ensures TurnLane(s', own, k, p)
    {
      assert TurnLane(s, own, k, p);
      LiveKept(s.j.rows, session, paths, s.gone);
      LaneFrame(Live(s.j.rows, s.gone), Live(s'.j.rows, s'.gone), InTurn(own(p), s.starts[k].turn), p, s.written,
                s.written, Content(s.starts[k].fs, p), Content(EndOf(s, k), p));
    }
    MarksKeepTurns(s, s', own);
  }

  predicate RowsFaithful(rows: seq<Row>, own: Path -> string) {
    forall r :: r in rows ==> r.session == own(r.path) && (r.existed <==> r.before.Some?)
  }

  /** Undoing a turn puts its base back on every path of the session and closes the lane. */
  lemma UndoTurnClosesLane(j: Journal, gone: set<string>, own: Path -> string, turn: string, p: Path,
                           written: set<string>, base: Option<Bytes>)
    requires RowsFaithful(j.rows, own) && NoneInFlight(Live(j.rows, gone), own(p))
    requires LaneOk(Live(j.rows, gone), InTurn(own(p), turn), p, written, base, Content(j.fs, p))
    ensures Content(Undo(j, InTurn(own(p), turn), None).fs, p) == base
    ensures LaneOk(Live(Undo(j, InTurn(own(p), turn), None).rows, gone), InTurn(own(p), turn), p, written, base, base)
  {
    var w := InTurn(own(p), turn);
    RewoundContent(j.fs, j.rows, w, None, p);
    EarliestIsSelected(j.rows, w, p);
    LiveEarliest(j.rows, gone, w, p);
    LaneBaseline(Live(j.rows, gone), w, p, written, base, Content(j.fs, p));
    LiveUndone(j.rows, w, None, gone);
    UndoneAway(Live(j.rows, gone), w, None, p);
    EmptyLane(Live(Undo(j, w, None).rows, gone), w, p, written, base, base);
  }

  /** Undoing a turn leaves the lanes of other turns, and the files of other sessions, alone. */
  lemma UndoTurnFrame(j: Journal, gone: set<string>, own: Path -> string, session: string, turn: string, other: string,
                      p: Path, written: set<string>, base: Option<Bytes>, now: Option<Bytes>)
    requires RowsFaithful(j.rows, own)
    requires LaneOk(Live(j.rows, gone), InTurn(own(p), other), p, written, base, now)
    requires own(p) != session || other != turn
    ensures LaneOk(Live(Undo(j, InTurn(session, turn), None).rows, gone), InTurn(own(p), other), p, written, base, now)
    ensures own(p) != session ==> Content(Undo(j, InTurn(session, turn), None).fs, p) == Content(j.fs, p)
  {
    var w := InTurn(session, turn);
    RewoundContent(j.fs, j.rows, w, None, p);
    EarliestIsSelected(j.rows, w, p);
    LiveUndone(j.rows, w, None, gone);
    LaneFrame(Live(j.rows, gone), Live(Undo(j, w, None).rows, gone), InTurn(own(p), other), p, written, written,
              base, now);
  }

  lemma UndoCurrentKeeps(s: TurnRun, own: Path -> string, session: string)
    requires TurnsOk(s, own) && Enabled(s, own, UndoCurrent(session))
    ensures TurnsOk(Next(s, own, UndoCurrent(session)), own)
  {
    var s' := Next(s, own, UndoCurrent(session));
    var last := |s.starts| - 1;
    AllFinished(s.j.rows, s.started, s.gone, s.written);
    assert RowsFaithful(s.j.rows, own) by {
      assert forall r :: r in s.j.rows ==> RowOk(r, s.j.nextId, own);
    }
    forall k: nat, p | k < |s'.starts|
      ensures TurnLane(s', own, k, p)
    {
      assert TurnLane(s, own, k, p);
      if own(p) == session && k == last {
        UndoTurnClosesLane(s.j, s.gone, own, s.starts[k].turn, p, s.written, Content(s.starts[k].fs, p));
      } else {
        UndoTurnFrame(s.j, s.gone, own, session, s.starts[last].turn, s.starts[k].turn, p, s.written,
                      Content(s.starts[k].fs, p), Content(EndOf(s, k), p));
      }
    }
    MarksKeepTurns(s, s', own);
  }

  lemma StepKeepsTurnsOk(s: TurnRun, own: Path -> string, step: TurnStep)
    requires TurnsOk(s, own) && Enabled(s, own, step)
    ensures TurnsOk(Next(s, own, step), own)
  {
    match step
    case BeginStep(t) => BeginKeeps(s, own, t);
    case BeforeStep(ev) => BeforeKeeps(s, own, ev);
    case WriteStep(t, bytes) => WriteKeeps(s, own, t, bytes);
    case AfterStep(ev, isError) => AfterKeeps(s, own, ev, isError);
    case AbandonStep(t) => AbandonKeeps(s, own, t);
    case KeepStep(session, paths) => KeepKeeps(s, own, session, paths);
    case UndoCurrent(session) => UndoCurrentKeeps(s, own, session);
  }

  lemma {:induction false} RunsKeepTurnsOk(s: TurnRun, own: Path -> string, steps: seq<TurnStep>)
    requires TurnsOk(s, own)
    requires Exec(s, own, steps).Some?
    ensures TurnsOk(Exec(s, own, steps).value, own)
    decreases |steps|
  {
    if steps != [] {
      StepKeepsTurnsOk(s, own, steps[0]);
      RunsKeepTurnsOk(Next(s, own, steps[0]), own, steps[1..]);
    }
  }

  /** Undo the last turns of `starts`, newest first, until turn `k` is undone. */
  function UndoDown(j: Journal, session: string, starts: seq<TurnStart>, k: nat): Journal
    requires k <= |starts|
    decreases |starts|
  {
    if k == |starts| then j
    else
      var last := |starts| - 1;
      UndoDown(Undo(j, InTurn(session, starts[last].turn), None), session, starts[..last], k)
  }

  /** The lane of turn `k` at one path, the disk being at the end of the last turn of `starts`. */
  ghost predicate StackedLane(j: Journal, gone: set<string>, own: Path -> string, starts: seq<TurnStart>,
                              k: nat, p: Path)
    requires k < |starts|
  {
    LaneOk(Live(j.rows, gone), InTurn(own(p), starts[k].turn), p, {}, Content(starts[k].fs, p),
           Content(if k + 1 < |starts| then starts[k + 1].fs else j.fs, p))
  }

  ghost predicate Stacked(j: Journal, gone: set<string>, own: Path -> string, session: string,
                          starts: seq<TurnStart>) {
    forall k: nat, p :: k < |starts| && own(p) == session ==> StackedLane(j, gone, own, starts, k, p)
  }

  lemma UndoLastUnstacks(j: Journal, gone: set<string>, own: Path -> string, session: string, starts: seq<TurnStart>)
    requires starts != []
    requires RowsFaithful(j.rows, own) && NoneInFlight(Live(j.rows, gone), session)
    requires forall a, b :: 0 <= a < b < |starts| ==> starts[a].turn != starts[b].turn
    requires Stacked(j, gone, own, session, starts)
    ensures var last := |starts| - 1;
            var j' := Undo(j, InTurn(session, starts[last].turn), None);
            && (forall p :: own(p) == session ==> Content(j'.fs, p) == Content(starts[last].fs, p))
            && Stacked(j', gone, own, session, starts[..last])
  {
    var last := |starts| - 1;
    var j' := Undo(j, InTurn(session, starts[last].turn), None);
    forall p | own(p) == session
      ensures Content(j'.fs, p) == Content(starts[last].fs, p)
    {
      assert StackedLane(j, gone, own, starts, last, p);
      UndoTurnClosesLane(j, gone, own, starts[last].turn, p, {}, Content(starts[last].fs, p));
    }
    forall k: nat, p | k < last && own(p) == session
      ensures StackedLane(j', gone, own, starts[..last], k, p)
    {
      assert StackedLane(j, gone, own, starts, k, p);
      UndoTurnFrame(j, gone, own, session, starts[last].turn, starts[k].turn, p, {},
                    Content(starts[k].fs, p), Content(starts[k + 1].fs, p));
    }
  }

  lemma UndoKeepsQuiet(j: Journal, gone: set<string>, session: string, turn: string)
    requires NoneInFlight(Live(j.rows, gone), session)
    ensures NoneInFlight(Live(Undo(j, InTurn(session, turn), None).rows, gone), session)
  {
    var live, w := Live(j.rows, gone), InTurn(session, turn);
    LiveUndone(j.rows, w, None, gone);
    forall r | r in MarkUndone(live, w, None) && r.session == session
      ensures r.applied
    {
      var i :| 0 <= i < |live| && MarkUndone(live, w, None)[i] == r;
      assert live[i] in live;
    }
  }

  lemma {:induction false} UndoDownGoesBack(j: Journal, gone: set<string>, own: Path -> string, session: string,
                                            starts: seq<TurnStart>, k: nat, p: Path)
    requires k < |starts| && own(p) == session
    requires RowsFaithful(j.rows, own) && NoneInFlight(Live(j.rows, gone), session)
    requires forall a, b :: 0 <= a < b < |starts| ==> starts[a].turn != starts[b].turn
    requires Stacked(j, gone, own, session, starts)
    ensures Content(UndoDown(j, session, starts, k).fs, p) == Content(starts[k].fs, p)
    decreases |starts|
  {
    var last := |starts| - 1;
    UndoLastUnstacks(j, gone, own, session, starts);
    if k < last {
      UndoKeepsQuiet(j, gone, session, starts[last].turn);
      UndoDownGoesBack(Undo(j, InTurn(session, starts[last].turn), None), gone, own, session, starts[..last], k, p);
    }
  }

  /**
   * Undoing turns newest first returns to the start of each turn. In every run in which all changes go
   * through the journal, once no edit of the session is under way, undoing its turns from the newest down
   * to turn `k` leaves every file of that session exactly as it was when turn `k` began.
   */
  lemma UndoTurnsNewestFirst(fs: FileSystem, own: Path -> string, steps: seq<TurnStep>, session: string, k: nat)
    requires Exec(Start(fs), own, steps).Some?
    requires NoneStarted(Exec(Start(fs), own, steps).value.started, own, session)
    requires k < |Exec(Start(fs), own, steps).value.starts|
    ensures var s := Exec(Start(fs), own, steps).value;
            forall p :: own(p) == session ==>
              Content(UndoDown(s.j, session, s.starts, k).fs, p) == Content(s.starts[k].fs, p)
  {
    RunsKeepTurnsOk(Start(fs), own, steps);
    var s := Exec(Start(fs), own, steps).value;
    NoneStartedIff(s.j.rows, s.j.nextId, s.started, s.gone, s.written, own, session);
    assert RowsFaithful(s.j.rows, own) by {
      assert forall r :: r in s.j.rows ==> RowOk(r, s.j.nextId, own);
    }
    forall m: nat, p | m < |s.starts| && own(p) == session
      ensures StackedLane(s.j, s.gone, own, s.starts, m, p)
    {
      assert TurnLane(s, own, m, p);
      LiveMembers(s.j.rows, s.gone);
      LaneFrame(Live(s.j.rows, s.gone), Live(s.j.rows, s.gone), InTurn(own(p), s.starts[m].turn), p, s.written, {},
                Content(s.starts[m].fs, p), Content(EndOf(s, m), p));
    }
    forall p | own(p) == session
      ensures Content(UndoDown(s.j, session, s.starts, k).fs, p) == Content(s.starts[k].fs, p)
    {
      UndoDownGoesBack(s.j, s.gone, own, session, s.starts, k, p);
    }
  }

  /** When one session owns every path, the whole file system is back where turn `k` began. */
  lemma UndoTurnsRestoresEverything(fs: FileSystem, session: string, steps: seq<TurnStep>, k: nat)
    requires Exec(Start(fs), (p: Path) => session, steps).Some?
    requires Exec(Start(fs), (p: Path) => session, steps).value.started == map[]
    requires k < |Exec(Start(fs), (p: Path) => session, steps).value.starts|
    ensures var s := Exec(Start(fs), (p: Path) => session, steps).value;
            UndoDown(s.j, session, s.starts, k).fs == s.starts[k].fs
  {
    var own := (p: Path) => session;
    var s := Exec(Start(fs), own, steps).value;
    UndoTurnsNewestFirst(fs, own, steps, session, k);
    forall p
      ensures Content(UndoDown(s.j, session, s.starts, k).fs, p) == Content(s.starts[k].fs, p)
    {
      assert own(p) == session;
    }
    SameContents(UndoDown(s.j, session, s.starts, k).fs, s.starts[k].fs);
  }
}
