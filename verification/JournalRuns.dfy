/**
 * What the journal guarantees over whole runs of edits, keeps, undos by path and changes made outside it.
 */
module JournalRuns {
  import opened Common
  import opened JournalLanes
  import opened JournalModel

  /**
   * `started` holds the edits under way and their paths, `written` those of them whose tool has written, and
   * `base` is the file system that pending changes are compared against.
   */
  datatype Review = Review(
    j: Journal, started: map<string, Path>, written: set<string>, gone: set<string>, base: FileSystem)

  datatype Step =
    | Begin(turn: string)
    | Before(ev: Event)
    | Write(toolUse: string, bytes: Bytes)
    | After(ev: Event, isError: bool)
    | Abandon(toolUse: string)
    | KeepPaths(session: string, paths: Option<seq<Path>>)
    | UndoPaths(session: string, paths: Option<seq<Path>>)
    | Outside(path: Path, content: Option<Bytes>)

  /** Every edit of the session that has started has finished or was abandoned. */
  predicate Quiet(s: Review, own: Path -> string, session: string) {
    NoneStarted(s.started, own, session)
  }

  /**
   * What the environment of the journal does: ids are fresh, a started edit may write its path, a failing
   * tool has not written, a call is abandoned only before its tool writes and is never heard of again, keep
   * and undo wait for the session's edits to finish, and nobody else writes a file while an edit of it is
   * under way. An edit outside any turn is a change made outside the journal.
   */
  ghost predicate Enabled(s: Review, own: Path -> string, step: Step) {
    match step
    case Begin(t) => true
    case Before(ev) =>
      && ev.toolUse !in s.started && ev.toolUse !in s.gone
      && (ev.path.Some? ==> own(ev.path.value) == ev.session)
    case Write(t, bytes) => t in s.started
    case After(ev, isError) => ev.toolUse !in s.gone && (isError ==> ev.toolUse !in s.written)
    case Abandon(t) => t in s.started && t !in s.written
    case KeepPaths(session, paths) => Quiet(s, own, session)
    case UndoPaths(session, paths) => Quiet(s, own, session)
    case Outside(p, c) => forall t :: t in s.started ==> s.started[t] != p
  }

  /** Some applied edit of `p` is awaiting review. */
  predicate UnderReview(j: Journal, own: Path -> string, p: Path) {
    Earliest(j.rows, Pending(own(p)), p).Some?
  }

  /** Accepting moves the baseline of the accepted paths to what is on disk. */
  function Accepted(base: FileSystem, fs: FileSystem, own: Path -> string, session: string,
                    paths: Option<seq<Path>>): FileSystem {
    (map p | p in base && !(own(p) == session && Wanted(paths, p)) :: base[p]) +
    (map p | p in fs && own(p) == session && Wanted(paths, p) :: fs[p])
  }

  ghost function Next(s: Review, own: Path -> string, step: Step): Review
    requires Enabled(s, own, step)
  {
    match step
    case Begin(t) => s.(j := BeginTurn(s.j, t))
    case Before(ev) => s.(j := BeforeTool(s.j, ev), started := Starting(s.started, s.j.turn, ev))
    case Write(t, bytes) => s.(j := s.j.(fs := s.j.fs[s.started[t] := bytes]), written := s.written + {t})
    case After(ev, isError) =>
      s.(j := AfterTool(s.j, ev, isError), started := Ended(s.started, ev), written := Ending(s.written, ev))
    case Abandon(t) => s.(started := s.started - {t}, gone := s.gone + {t})
    case KeepPaths(session, paths) =>
      s.(j := Keep(s.j, session, paths), base := Accepted(s.base, s.j.fs, own, session, paths))
    case UndoPaths(session, paths) => s.(j := Undo(s.j, Pending(session), paths))
    case Outside(p, c) =>
      s.(j := s.j.(fs := WithContent(s.j.fs, p, c)),
         base := if UnderReview(s.j, own, p) then s.base else WithContent(s.base, p, c))
  }

  function Start(fs: FileSystem): Review {
    Review(Journal(fs, [], 0, None), map[], {}, {}, fs)
  }

  ghost function Exec(s: Review, own: Path -> string, steps: seq<Step>): Option<Review>
    decreases |steps|
  {
    if steps == [] then Some(s)
    else if !Enabled(s, own, steps[0]) then None
    else Exec(Next(s, own, steps[0]), own, steps[1..])
  }

  ghost predicate ReviewLane(s: Review, own: Path -> string, p: Path) {
    LaneOk(Live(s.j.rows, s.gone), Pending(own(p)), p, s.written, Content(s.base, p), Content(s.j.fs, p))
  }

  ghost predicate ReviewOk(s: Review, own: Path -> string) {
    && RowsOk(s.j.rows, s.j.nextId, s.written, own)
    && StartedOk(s.j.rows, s.started, s.gone, s.written)
    && forall p :: ReviewLane(s, own, p)
  }

  lemma QuietLive(s: Review, own: Path -> string, session: string)
    requires ReviewOk(s, own)
    ensures Quiet(s, own, session) <==> NoneInFlight(Live(s.j.rows, s.gone), session)
  {
    NoneStartedIff(s.j.rows, s.j.nextId, s.started, s.gone, s.written, own, session);
  }

  /**
   * In the table's terms: a session is quiet once every snapshot of its that was never applied belongs to an
   * abandoned call.
   */
  lemma QuietIff(s: Review, own: Path -> string, session: string)
    requires ReviewOk(s, own)
    ensures Quiet(s, own, session) <==>
            forall r :: r in s.j.rows && r.session == session && !r.applied ==> r.toolUse in s.gone
  {
    QuietLive(s, own, session);
    LiveMembers(s.j.rows, s.gone);
  }

  /** With nothing in flight, accepting a path closes its lane. */
  lemma KeptAway(rows: seq<Row>, session: string, paths: Option<seq<Path>>, p: Path)
    requires NoneInFlight(rows, session) && Wanted(paths, p)
    ensures forall r :: r in MarkKept(rows, session, paths) ==> !OnLane(r, Pending(session), p)
  {
    var rows' := MarkKept(rows, session, paths);
    forall r | r in rows'
      ensures !OnLane(r, Pending(session), p)
    {
      var i :| 0 <= i < |rows'| && rows'[i] == r;
      assert rows[i] in rows;
    }
  }

  lemma KeepStepOk(s: Review, own: Path -> string, session: string, paths: Option<seq<Path>>)
    requires ReviewOk(s, own) && Quiet(s, own, session)
    ensures ReviewOk(Next(s, own, KeepPaths(session, paths)), own)
  {
    var s' := Next(s, own, KeepPaths(session, paths));
    MarksKeepRows(s.j.rows, s'.j.rows, s.j.nextId, s.written, own);
    MarksKeepStarted(s.j.rows, s'.j.rows, s.started, s.gone, s.written);
    QuietLive(s, own, session);
    LiveKept(s.j.rows, session, paths, s.gone);
    forall p
      ensures ReviewLane(s', own, p)
    {
      assert ReviewLane(s, own, p);
      if own(p) == session && Wanted(paths, p) {
        KeptAway(Live(s.j.rows, s.gone), session, paths, p);
        EmptyLane(Live(s'.j.rows, s'.gone), Pending(own(p)), p, s.written, Content(s'.base, p), Content(s'.j.fs, p));
      } else {
        LaneFrame(Live(s.j.rows, s.gone), Live(s'.j.rows, s'.gone), Pending(own(p)), p, s.written, s.written,
                  Content(s.base, p), Content(s.j.fs, p));
      }
    }
  }

  /** The earliest pending snapshot of a quiet session holds the baseline; without one nothing has changed. */
  lemma QuietBaseline(s: Review, own: Path -> string, p: Path)
    requires ReviewOk(s, own) && Quiet(s, own, own(p))
    ensures match Earliest(s.j.rows, Pending(own(p)), p)
            case Some(r) => Snap(r) == Content(s.base, p)
            case None => Content(s.j.fs, p) == Content(s.base, p)
  {
    QuietLive(s, own, own(p));
    assert ReviewLane(s, own, p);
    LaneBaseline(Live(s.j.rows, s.gone), Pending(own(p)), p, s.written, Content(s.base, p), Content(s.j.fs, p));
    LiveEarliest(s.j.rows, s.gone, Pending(own(p)), p);
  }

  /** What undoing by path does to each file: wanted files of the session go back to the baseline. */
  lemma UndoGoesBack(s: Review, own: Path -> string, session: string, paths: Option<seq<Path>>, p: Path)
    requires ReviewOk(s, own) && Quiet(s, own, session)
    ensures Content(Undo(s.j, Pending(session), paths).fs, p) ==
            if own(p) == session && Wanted(paths, p) then Content(s.base, p) else Content(s.j.fs, p)
  {
    RewoundContent(s.j.fs, s.j.rows, Pending(session), paths, p);
    EarliestIsSelected(s.j.rows, Pending(session), p);
    if own(p) == session {
      QuietBaseline(s, own, p);
    }
  }

  lemma UndoStepOk(s: Review, own: Path -> string, session: string, paths: Option<seq<Path>>)
    requires ReviewOk(s, own) && Quiet(s, own, session)
    ensures ReviewOk(Next(s, own, UndoPaths(session, paths)), own)
  {
    var s' := Next(s, own, UndoPaths(session, paths));
    MarksKeepRows(s.j.rows, s'.j.rows, s.j.nextId, s.written, own);
    MarksKeepStarted(s.j.rows, s'.j.rows, s.started, s.gone, s.written);
    QuietLive(s, own, session);
    LiveUndone(s.j.rows, Pending(session), paths, s.gone);
    forall p
      ensures ReviewLane(s', own, p)
    {
      assert ReviewLane(s, own, p);
      UndoGoesBack(s, own, session, paths, p);
      if own(p) == session && Wanted(paths, p) {
        UndoneAway(Live(s.j.rows, s.gone), Pending(session), paths, p);
        EmptyLane(Live(s'.j.rows, s'.gone), Pending(own(p)), p, s.written, Content(s'.base, p), Content(s'.j.fs, p));
      } else {
        LaneFrame(Live(s.j.rows, s.gone), Live(s'.j.rows, s'.gone), Pending(own(p)), p, s.written, s.written,
                  Content(s.base, p), Content(s.j.fs, p));
      }
    }
  }

  lemma WriteStepOk(s: Review, own: Path -> string, toolUse: string, bytes: Bytes)
    requires ReviewOk(s, own) && toolUse in s.started
    ensures ReviewOk(Next(s, own, Write(toolUse, bytes)), own)
  {
    var s' := Next(s, own, Write(toolUse, bytes));
    StartedRow(s.j.rows, s.j.nextId, s.started, s.gone, s.written, own, toolUse);
    forall p
      ensures ReviewLane(s', own, p)
    {
      assert ReviewLane(s, own, p);
      LaneWrite(Live(s.j.rows, s.gone), Pending(own(p)), p, s.written, toolUse,
                Content(s.base, p), Content(s.j.fs, p), Content(s'.j.fs, p));
    }
  }

  lemma StepKeepsReviewOk(s: Review, own: Path -> string, step: Step)
    requires ReviewOk(s, own) && Enabled(s, own, step)
    ensures ReviewOk(Next(s, own, step), own)
  {
    var s' := Next(s, own, step);
    match step
    case Begin(t) =>
      assert forall p :: ReviewLane(s, own, p) ==> ReviewLane(s', own, p);
    case Before(ev) =>
      FreshIsNotInFlight(s.j.rows, s.started, s.gone, s.written, ev.toolUse);
      BeforeKeepsRows(s.j, s.written, own, ev);
      BeforeKeepsStarted(s.j, s.started, s.gone, s.written, ev);
      forall p
        ensures ReviewLane(s', own, p)
      {
        assert ReviewLane(s, own, p);
        if Journaled(s.j, ev) {
          LiveAppend(s.j.rows, NewRow(s.j, ev), s.gone);
          LaneAppend(Live(s.j.rows, s.gone), NewRow(s.j, ev), Pending(own(p)), p, s.written, Content(s.base, p),
                     Content(s.j.fs, p));
        }
      }
    case Write(t, bytes) => WriteStepOk(s, own, t, bytes);
    case After(ev, isError) =>
      SnapshotToolsAre(ev.tool);
      AfterKeepsRows(s.j, s.written, own, ev, isError);
      AfterKeepsStarted(s.j, s.started, s.gone, s.written, ev, isError);
      forall p
        ensures ReviewLane(s', own, p)
      {
        assert ReviewLane(s, own, p);
        if isError {
          LiveDropped(s.j.rows, ev.toolUse, s.gone);
          LaneDropped(Live(s.j.rows, s.gone), Pending(own(p)), p, s.written, ev.toolUse, Content(s.base, p),
                      Content(s.j.fs, p));
        } else {
          LiveApplied(s.j.rows, ev.toolUse, s.gone);
          LaneApplied(Live(s.j.rows, s.gone), Pending(own(p)), p, s.written, ev.toolUse, Content(s.base, p),
                      Content(s.j.fs, p));
        }
        assert isError ==> s.written - {ev.toolUse} == s.written;
      }
    case Abandon(t) =>
      AbandonKeepsStarted(s.j.rows, s.started, s.gone, s.written, t);
      LiveAbandoned(s.j.rows, t, s.gone);
      forall p
        ensures ReviewLane(s', own, p)
      {
        assert ReviewLane(s, own, p);
        LaneDropped(Live(s.j.rows, s.gone), Pending(own(p)), p, s.written, t, Content(s.base, p), Content(s.j.fs, p));
      }
    case KeepPaths(session, paths) => KeepStepOk(s, own, session, paths);
    case UndoPaths(session, paths) => UndoStepOk(s, own, session, paths);
    case Outside(q, c) =>
      forall p
        ensures ReviewLane(s', own, p)
      {
        assert ReviewLane(s, own, p);
        if p == q {
          UntouchedRows(s.j.rows, s.started, s.gone, s.written, p);
          LiveEarliest(s.j.rows, s.gone, Pending(own(p)), p);
          LaneOutside(Live(s.j.rows, s.gone), Pending(own(p)), p, s.written, Content(s.base, p), Content(s.j.fs, p), c);
        }
      }
  }

  lemma {:induction false} RunsKeepReviewOk(s: Review, own: Path -> string, steps: seq<Step>)
    requires ReviewOk(s, own)
    requires Exec(s, own, steps).Some?
    ensures ReviewOk(Exec(s, own, steps).value, own)
    decreases |steps|
  {
    if steps != [] {
      StepKeepsReviewOk(s, own, steps[0]);
      RunsKeepReviewOk(Next(s, own, steps[0]), own, steps[1..]);
    }
  }

  lemma StartOk(fs: FileSystem, own: Path -> string)
    ensures ReviewOk(Start(fs), own)
  {
    assert forall p :: ReviewLane(Start(fs), own, p);
  }

  /** The content `p` had on disk when it was last settled: kept, undone, or the session started. */
  ghost function Settled(s: Review, own: Path -> string, steps: seq<Step>, p: Path, sofar: Option<Bytes>): Option<Bytes>
    requires Exec(s, own, steps).Some?
    decreases |steps|
  {
    if steps == [] then sofar
    else
      var s' := Next(s, own, steps[0]);
      var settles := (steps[0].KeepPaths? || steps[0].UndoPaths?) && steps[0].session == own(p)
          && Wanted(steps[0].paths, p);
      Settled(s', own, steps[1..], p, if settles then Content(s'.j.fs, p) else sofar)
  }

  lemma {:induction false} BaselineIsLastSettled(s: Review, own: Path -> string, steps: seq<Step>, p: Path)
    requires ReviewOk(s, own) && Exec(s, own, steps).Some?
    requires forall i :: 0 <= i < |steps| && steps[i].Outside? ==> steps[i].path != p
    ensures Settled(s, own, steps, p, Content(s.base, p)) == Content(Exec(s, own, steps).value.base, p)
    decreases |steps|
  {
    if steps != [] {
      StepKeepsReviewOk(s, own, steps[0]);
      if steps[0].UndoPaths? {
        UndoGoesBack(s, own, steps[0].session, steps[0].paths, p);
      }
      BaselineIsLastSettled(Next(s, own, steps[0]), own, steps[1..], p);
    }
  }

  /**
   * Undo really goes back: in every run, undoing a path that only the journal's tools changed leaves
   * exactly the bytes it had when it was last kept or undone, or when the session started.
   */
  lemma UndoReturnsToLastSettled(fs: FileSystem, own: Path -> string, steps: seq<Step>,
                                 session: string, paths: Option<seq<Path>>, p: Path)
    requires Exec(Start(fs), own, steps).Some?
    requires Quiet(Exec(Start(fs), own, steps).value, own, session)
    requires forall i :: 0 <= i < |steps| && steps[i].Outside? ==> steps[i].path != p
    requires own(p) == session && Wanted(paths, p)
    ensures Content(Undo(Exec(Start(fs), own, steps).value.j, Pending(session), paths).fs, p) ==
            Settled(Start(fs), own, steps, p, Content(fs, p))
  {
    StartOk(fs, own);
    BaselineIsLastSettled(Start(fs), own, steps, p);
    RunsKeepReviewOk(Start(fs), own, steps);
    UndoGoesBack(Exec(Start(fs), own, steps).value, own, session, paths, p);
  }

  /**
   * The journal's promise. In every run of review steps from an empty journal, once the session's calls
   * have finished: undoing wanted paths puts exactly the baseline back and touches nothing else, and a
   * path whose disk content differs from the baseline has a pending snapshot recording that baseline.
   */
  lemma UndoRestoresBaselineInEveryRun(fs: FileSystem, own: Path -> string, steps: seq<Step>,
                                       session: string, paths: Option<seq<Path>>)
    requires Exec(Start(fs), own, steps).Some?
    requires Quiet(Exec(Start(fs), own, steps).value, own, session)
    ensures var s := Exec(Start(fs), own, steps).value;
            forall p :: Content(Undo(s.j, Pending(session), paths).fs, p) ==
                        if own(p) == session && Wanted(paths, p) then Content(s.base, p) else Content(s.j.fs, p)
    ensures var s := Exec(Start(fs), own, steps).value;
            forall p :: own(p) == session ==>
              match Earliest(s.j.rows, Pending(session), p)
              case Some(r) => Snap(r) == Content(s.base, p)
              case None => Content(s.j.fs, p) == Content(s.base, p)
  {
    var s := Exec(Start(fs), own, steps).value;
    StartOk(fs, own);
    RunsKeepReviewOk(Start(fs), own, steps);
    forall p
      ensures Content(Undo(s.j, Pending(session), paths).fs, p) ==
              if own(p) == session && Wanted(paths, p) then Content(s.base, p) else Content(s.j.fs, p)
    {
      UndoGoesBack(s, own, session, paths, p);
    }
    forall p | own(p) == session
      ensures match Earliest(s.j.rows, Pending(session), p)
              case Some(r) => Snap(r) == Content(s.base, p)
              case None => Content(s.j.fs, p) == Content(s.base, p)
    {
      QuietBaseline(s, own, p);
    }
  }
}
