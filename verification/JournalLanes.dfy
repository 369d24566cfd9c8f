/**
 * The snapshots of one path inside one window, and what ties them to the disk.
 *
 * A *lane* is the rows of one path inside one window, in id order. `LaneOk` ties a lane to the content
 * the path had when the window opened (`base`) and to its content on disk (`now`): every snapshot up to
 * and including the first whose tool has written records `base`, and if none has written, `now == base`.
 * Tool calls may overlap; `written` holds the tool-use ids in flight whose tool has already written.
 * A call cancelled before its tool starts leaves its row unapplied for good; `gone` holds the ids of such
 * calls, and lanes are made of the live rows only.
 */
module JournalLanes {
  import opened Common
  import opened JournalModel

  predicate Wrote(r: Row, written: set<string>) {
    r.applied || r.toolUse in written
  }

  predicate LaneOk(rows: seq<Row>, w: Window, p: Path, written: set<string>, base: Option<Bytes>, now: Option<Bytes>) {
    if rows == [] then now == base
    else if OnLane(rows[0], w, p) then
      Snap(rows[0]) == base && (Wrote(rows[0], written) || LaneOk(rows[1..], w, p, written, base, now))
    else LaneOk(rows[1..], w, p, written, base, now)
  }

  // ----- How each kind of change to the table acts on a lane

  lemma {:induction false} LaneAppend(rows: seq<Row>, r: Row, w: Window, p: Path, written: set<string>,
                                      base: Option<Bytes>, now: Option<Bytes>)
    requires LaneOk(rows, w, p, written, base, now)
    requires OnLane(r, w, p) ==> Snap(r) == now
    ensures LaneOk(rows + [r], w, p, written, base, now)
  {
    if rows == [] {
      assert (rows + [r])[1..] == [];
    } else {
      assert (rows + [r])[1..] == rows[1..] + [r];
      if !(OnLane(rows[0], w, p) && Wrote(rows[0], written)) {
        LaneAppend(rows[1..], r, w, p, written, base, now);
      }
    }
  }

  lemma {:induction false} LaneWrite(rows: seq<Row>, w: Window, p: Path, written: set<string>, toolUse: string,
                                     base: Option<Bytes>, now: Option<Bytes>, now': Option<Bytes>)
    requires LaneOk(rows, w, p, written, base, now)
    requires now' == now || exists r :: r in rows && OnLane(r, w, p) && r.toolUse == toolUse
    ensures LaneOk(rows, w, p, written + {toolUse}, base, now')
  {
    if rows != [] && !(OnLane(rows[0], w, p) && Wrote(rows[0], written + {toolUse})) {
      assert rows == [rows[0]] + rows[1..];
      LaneWrite(rows[1..], w, p, written, toolUse, base, now, now');
    }
  }

  lemma {:induction false} LaneApplied(rows: seq<Row>, w: Window, p: Path, written: set<string>, toolUse: string,
                                       base: Option<Bytes>, now: Option<Bytes>)
    requires LaneOk(rows, w, p, written, base, now)
    ensures LaneOk(MarkApplied(rows, toolUse), w, p, written - {toolUse}, base, now)
  {
    if rows != [] && !(OnLane(rows[0], w, p) && Wrote(rows[0], written)) {
      LaneApplied(rows[1..], w, p, written, toolUse, base, now);
    }
  }

  lemma {:induction false} LaneDropped(rows: seq<Row>, w: Window, p: Path, written: set<string>, toolUse: string,
                                       base: Option<Bytes>, now: Option<Bytes>)
    requires LaneOk(rows, w, p, written, base, now)
    requires toolUse !in written
    ensures LaneOk(DropUnapplied(rows, toolUse), w, p, written, base, now)
  {
    if rows != [] && !(OnLane(rows[0], w, p) && Wrote(rows[0], written)) {
      LaneDropped(rows[1..], w, p, written, toolUse, base, now);
    }
  }

  /** A lane depends only on which rows are on it, what they recorded and who has written. */
  lemma {:induction false} LaneFrame(rows: seq<Row>, rows': seq<Row>, w: Window, p: Path,
                                     written: set<string>, written': set<string>, base: Option<Bytes>,
                                     now: Option<Bytes>)
    requires LaneOk(rows, w, p, written, base, now)
    requires |rows| == |rows'|
    requires forall i :: 0 <= i < |rows| ==> OnLane(rows[i], w, p) == OnLane(rows'[i], w, p)
    requires forall i :: 0 <= i < |rows| && OnLane(rows[i], w, p) ==>
               Snap(rows[i]) == Snap(rows'[i]) && (Wrote(rows[i], written) ==> Wrote(rows'[i], written'))
    ensures LaneOk(rows', w, p, written', base, now)
  {
    if rows != [] && !(OnLane(rows[0], w, p) && Wrote(rows[0], written)) {
      LaneFrame(rows[1..], rows'[1..], w, p, written, written', base, now);
    }
  }

  lemma {:induction false} EmptyLane(rows: seq<Row>, w: Window, p: Path, written: set<string>,
                                     base: Option<Bytes>, now: Option<Bytes>)
    requires forall r :: r in rows ==> !OnLane(r, w, p)
    requires now == base
    ensures LaneOk(rows, w, p, written, base, now)
  {
    if rows != [] {
      EmptyLane(rows[1..], w, p, written, base, now);
    }
  }

  /** With nothing in flight, the earliest snapshot is the baseline; no snapshot means no change. */
  lemma {:induction false} LaneBaseline(rows: seq<Row>, w: Window, p: Path, written: set<string>,
                                        base: Option<Bytes>, now: Option<Bytes>)
    requires LaneOk(rows, w, p, written, base, now)
    requires forall r :: r in rows && OnLane(r, w, p) ==> r.applied
    ensures match Earliest(rows, w, p)
            case Some(r) => Snap(r) == base
            case None => now == base
  {
    if rows != [] && !OnLane(rows[0], w, p) {
      LaneBaseline(rows[1..], w, p, written, base, now);
    }
  }

  // ----- Live rows

  /** Nothing will ever apply or delete this row. */
  predicate IsDead(r: Row, gone: set<string>) {
    !r.applied && r.toolUse in gone
  }

  function Live(rows: seq<Row>, gone: set<string>): seq<Row> {
    if rows == [] then []
    else if IsDead(rows[0], gone) then Live(rows[1..], gone)
    else [rows[0]] + Live(rows[1..], gone)
  }

  predicate AllApplied(rows: seq<Row>) {
    forall r :: r in rows ==> r.applied
  }

  predicate NoneInFlight(rows: seq<Row>, session: string) {
    forall r :: r in rows && r.session == session ==> r.applied
  }

  lemma {:induction false} LiveMembers(rows: seq<Row>, gone: set<string>)
    ensures forall r :: r in Live(rows, gone) <==> r in rows && !IsDead(r, gone)
  {
    if rows != [] {
      LiveMembers(rows[1..], gone);
      assert rows == [rows[0]] + rows[1..];
    }
  }

  lemma {:induction false} LiveAppend(rows: seq<Row>, r: Row, gone: set<string>)
    requires !IsDead(r, gone)
    ensures Live(rows + [r], gone) == Live(rows, gone) + [r]
  {
    if rows == [] {
      assert rows + [r] == [r] && [r][1..] == [];
    } else {
      assert (rows + [r])[1..] == rows[1..] + [r];
      LiveAppend(rows[1..], r, gone);
    }
  }

  lemma {:induction false} LiveApplied(rows: seq<Row>, toolUse: string, gone: set<string>)
    requires toolUse !in gone
    ensures Live(MarkApplied(rows, toolUse), gone) == MarkApplied(Live(rows, gone), toolUse)
  {
    if rows != [] {
      LiveApplied(rows[1..], toolUse, gone);
      var r := if rows[0].toolUse == toolUse then rows[0].(applied := true) else rows[0];
      assert ([r] + MarkApplied(rows[1..], toolUse))[1..] == MarkApplied(rows[1..], toolUse);
      assert ([rows[0]] + Live(rows[1..], gone))[1..] == Live(rows[1..], gone);
    }
  }

  lemma {:induction false} LiveDropped(rows: seq<Row>, toolUse: string, gone: set<string>)
    ensures Live(DropUnapplied(rows, toolUse), gone) == DropUnapplied(Live(rows, gone), toolUse)
  {
    if rows != [] {
      LiveDropped(rows[1..], toolUse, gone);
      var rest := DropUnapplied(rows[1..], toolUse);
      assert ([rows[0]] + rest)[1..] == rest;
      assert ([rows[0]] + Live(rows[1..], gone))[1..] == Live(rows[1..], gone);
    }
  }

  /** Abandoning a call does to the live rows what a failing call does to the table. */
  lemma {:induction false} LiveAbandoned(rows: seq<Row>, toolUse: string, gone: set<string>)
    ensures Live(rows, gone + {toolUse}) == DropUnapplied(Live(rows, gone), toolUse)
  {
    if rows != [] {
      LiveAbandoned(rows[1..], toolUse, gone);
      assert ([rows[0]] + Live(rows[1..], gone))[1..] == Live(rows[1..], gone);
    }
  }

  /** Marks on applied rows pass through to the live rows. */
  lemma {:induction false} LiveKept(rows: seq<Row>, session: string, paths: Option<seq<Path>>, gone: set<string>)
    ensures Live(MarkKept(rows, session, paths), gone) == MarkKept(Live(rows, gone), session, paths)
  {
    if rows != [] {
      LiveKept(rows[1..], session, paths, gone);
      assert MarkKept(rows, session, paths)[1..] == MarkKept(rows[1..], session, paths);
    }
  }

  lemma {:induction false} LiveUndone(rows: seq<Row>, w: Window, paths: Option<seq<Path>>, gone: set<string>)
    ensures Live(MarkUndone(rows, w, paths), gone) == MarkUndone(Live(rows, gone), w, paths)
  {
    if rows != [] {
      var rest := Live(rows[1..], gone);
      LiveUndone(rows[1..], w, paths, gone);
      UndoneCons(rows[0], rows[1..], w, paths);
      UndoneCons(rows[0], rest, w, paths);
      assert [rows[0]] + rows[1..] == rows;
      assert ([UndoneRow(rows[0], w, paths)] + MarkUndone(rows[1..], w, paths))[1..] == MarkUndone(rows[1..], w, paths);
    }
  }

  function UndoneRow(r: Row, w: Window, paths: Option<seq<Path>>): Row {
    if Selected(r, w, paths) then r.(undone := true) else r
  }

  lemma UndoneCons(r: Row, rows: seq<Row>, w: Window, paths: Option<seq<Path>>)
    ensures MarkUndone([r] + rows, w, paths) == [UndoneRow(r, w, paths)] + MarkUndone(rows, w, paths)
  {
  }

  /** Queries see applied rows only, so dead rows never show. */
  lemma {:induction false} LiveEarliest(rows: seq<Row>, gone: set<string>, w: Window, p: Path)
    ensures Earliest(Live(rows, gone), w, p) == Earliest(rows, w, p)
  {
    if rows != [] {
      LiveEarliest(rows[1..], gone, w, p);
      assert ([rows[0]] + Live(rows[1..], gone))[1..] == Live(rows[1..], gone);
    }
  }

  // ----- The table invariant shared by both kinds of run

  predicate InFlight(rows: seq<Row>, toolUse: string) {
    exists r :: r in rows && r.toolUse == toolUse && !r.applied
  }

  /** Ids ascend, and two calls in flight have different tool-use ids. */
  predicate Ordered(rows: seq<Row>) {
    forall i, k :: 0 <= i < k < |rows| ==> PairOk(rows[i], rows[k])
  }

  predicate PairOk(a: Row, b: Row) {
    a.id < b.id && (!a.applied && !b.applied ==> a.toolUse != b.toolUse)
  }

  ghost predicate RowsOk(rows: seq<Row>, nextId: nat, written: set<string>, own: Path -> string) {
    && Ordered(rows)
    && (forall r :: r in rows ==> RowOk(r, nextId, own))
    && (forall t :: t in written ==> InFlight(rows, t))
  }

  ghost predicate RowOk(r: Row, nextId: nat, own: Path -> string) {
    && r.id < nextId
    && (r.existed <==> r.before.Some?)
    && r.session == own(r.path)
    && (!r.applied ==> !r.undone && !r.kept)
  }

  lemma {:induction false} MarkAppliedShape(rows: seq<Row>, toolUse: string)
    ensures |MarkApplied(rows, toolUse)| == |rows|
    ensures forall i :: 0 <= i < |rows| ==>
              MarkApplied(rows, toolUse)[i] == if rows[i].toolUse == toolUse then rows[i].(applied := true) else rows[i]
  {
    if rows != [] {
      MarkAppliedShape(rows[1..], toolUse);
    }
  }

  lemma {:induction false} DropUnappliedShape(rows: seq<Row>, toolUse: string)
    ensures forall r :: r in DropUnapplied(rows, toolUse) <==> r in rows && !(r.toolUse == toolUse && !r.applied)
    ensures Ordered(rows) ==> Ordered(DropUnapplied(rows, toolUse))
  {
    if rows != [] {
      DropUnappliedShape(rows[1..], toolUse);
      var dt := DropUnapplied(rows[1..], toolUse);
      assert rows == [rows[0]] + rows[1..];
      forall k | 0 <= k < |dt|
        ensures Ordered(rows) ==> PairOk(rows[0], dt[k])
      {
        assert dt[k] in rows[1..];
      }
    }
  }

  lemma BeforeKeepsRows(j: Journal, written: set<string>, own: Path -> string, ev: Event)
    requires RowsOk(j.rows, j.nextId, written, own)
    requires !InFlight(j.rows, ev.toolUse)
    requires ev.path.Some? ==> own(ev.path.value) == ev.session
    ensures RowsOk(BeforeTool(j, ev).rows, BeforeTool(j, ev).nextId, written, own)
  {
    var k := BeforeTool(j, ev);
    forall i | 0 <= i < |j.rows| && Journaled(j, ev)
      ensures PairOk(j.rows[i], NewRow(j, ev))
    {
      assert RowOk(j.rows[i], j.nextId, own);
    }
    forall t | t in written
      ensures InFlight(k.rows, t)
    {
      var r :| r in j.rows && r.toolUse == t && !r.applied;
      assert r in k.rows;
    }
  }

  /** The calls that have written stay in flight, but for the one that ends. */
  lemma AfterKeepsInFlight(j: Journal, written: set<string>, own: Path -> string, ev: Event, isError: bool, t: string)
    requires RowsOk(j.rows, j.nextId, written, own) && t in written && t != ev.toolUse
    ensures InFlight(AfterTool(j, ev, isError).rows, t)
  {
    var k := AfterTool(j, ev, isError);
    MarkAppliedShape(j.rows, ev.toolUse);
    DropUnappliedShape(j.rows, ev.toolUse);
    var r :| r in j.rows && r.toolUse == t && !r.applied;
    var i :| 0 <= i < |j.rows| && j.rows[i] == r;
    assert ev.tool in SNAPSHOT_TOOLS && !isError ==> k.rows[i] == r;
    assert r in k.rows;
  }

  lemma AfterKeepsRow(j: Journal, written: set<string>, own: Path -> string, ev: Event, isError: bool, r: Row)
    requires RowsOk(j.rows, j.nextId, written, own) && r in AfterTool(j, ev, isError).rows
    ensures RowOk(r, j.nextId, own)
  {
    MarkAppliedShape(j.rows, ev.toolUse);
    DropUnappliedShape(j.rows, ev.toolUse);
    var rows' := AfterTool(j, ev, isError).rows;
    var i :| 0 <= i < |rows'| && rows'[i] == r;
    if ev.tool in SNAPSHOT_TOOLS && !isError {
      assert RowOk(j.rows[i], j.nextId, own);
    } else {
      assert r in j.rows;
    }
  }

  lemma AfterKeepsRows(j: Journal, written: set<string>, own: Path -> string, ev: Event, isError: bool)
    requires RowsOk(j.rows, j.nextId, written, own)
    ensures RowsOk(AfterTool(j, ev, isError).rows, j.nextId,
                   if ev.tool in SNAPSHOT_TOOLS then written - {ev.toolUse} else written, own)
  {
    MarkAppliedShape(j.rows, ev.toolUse);
    DropUnappliedShape(j.rows, ev.toolUse);
    forall t | t in written - {ev.toolUse}
      ensures InFlight(AfterTool(j, ev, isError).rows, t)
    {
      AfterKeepsInFlight(j, written, own, ev, isError, t);
    }
    forall r | r in AfterTool(j, ev, isError).rows
      ensures RowOk(r, j.nextId, own)
    {
      AfterKeepsRow(j, written, own, ev, isError, r);
    }
  }

  lemma MarksKeepRows(rows: seq<Row>, rows': seq<Row>, nextId: nat, written: set<string>, own: Path -> string)
    requires RowsOk(rows, nextId, written, own)
    requires |rows'| == |rows|
    requires forall i :: 0 <= i < |rows| ==>
               rows'[i] == rows[i]
               || (rows[i].applied && rows'[i] == rows[i].(undone := rows'[i].undone, kept := rows'[i].kept))
    ensures RowsOk(rows', nextId, written, own)
  {
    forall r | r in rows'
      ensures RowOk(r, nextId, own)
    {
      var i :| 0 <= i < |rows'| && rows'[i] == r;
      assert RowOk(rows[i], nextId, own);
    }
    forall t | t in written
      ensures InFlight(rows', t)
    {
      var r :| r in rows && r.toolUse == t && !r.applied;
      var i :| 0 <= i < |rows| && rows[i] == r;
      assert rows'[i] == r;
    }
  }

  // ----- The calls that have started, against the table

  /** An unapplied row of the call `t` on the path `p`. */
  predicate HasRow(rows: seq<Row>, t: string, p: Path) {
    exists r :: r in rows && r.toolUse == t && r.path == p && !r.applied
  }

  /**
   * `started` holds the path of every edit that has started inside a turn and is neither finished nor
   * abandoned, whatever the table says. Each of them has its row, and no other row is unapplied but those of
   * abandoned calls.
   */
  ghost predicate StartedOk(rows: seq<Row>, started: map<string, Path>, gone: set<string>, written: set<string>) {
    && (forall t :: t in started ==> t !in gone && HasRow(rows, t, started[t]))
    && (forall r :: r in rows && !r.applied ==>
          r.toolUse in gone || (r.toolUse in started && started[r.toolUse] == r.path))
    && written <= started.Keys
  }

  /** What a call about to run adds to the started ones. */
  function Starting(started: map<string, Path>, turn: Option<string>, ev: Event): map<string, Path> {
    if IsEdit(ev) && turn.Some? then started[ev.toolUse := ev.path.value] else started
  }

  predicate IsEditTool(tool: string) { tool == "file_write" || tool == "file_edit" }

  /** What a finished call takes away from a set of calls. */
  function Ending(calls: set<string>, ev: Event): set<string> {
    if IsEditTool(ev.tool) then calls - {ev.toolUse} else calls
  }

  function Ended(started: map<string, Path>, ev: Event): map<string, Path> {
    if IsEditTool(ev.tool) then started - {ev.toolUse} else started
  }

  lemma SnapshotToolsAre(tool: string)
    ensures tool in SNAPSHOT_TOOLS <==> IsEditTool(tool)
  {
    assert tool in SNAPSHOT_TOOLS <==> tool == SNAPSHOT_TOOLS[0] || tool == SNAPSHOT_TOOLS[1];
  }

  lemma FreshIsNotInFlight(rows: seq<Row>, started: map<string, Path>, gone: set<string>, written: set<string>,
                           t: string)
    requires StartedOk(rows, started, gone, written) && t !in started && t !in gone
    ensures !InFlight(rows, t)
  {
  }

  lemma BeforeKeepsStarted(j: Journal, started: map<string, Path>, gone: set<string>, written: set<string>, ev: Event)
    requires StartedOk(j.rows, started, gone, written) && ev.toolUse !in started && ev.toolUse !in gone
    ensures StartedOk(BeforeTool(j, ev).rows, Starting(started, j.turn, ev), gone, written)
  {
    var rows', started' := BeforeTool(j, ev).rows, Starting(started, j.turn, ev);
    EditIsJournaled(j, ev);
    forall t | t in started'
      ensures HasRow(rows', t, started'[t])
    {
      if t in started {
        var r :| r in j.rows && r.toolUse == t && r.path == started[t] && !r.applied;
        assert r in rows';
      } else {
        assert rows'[|j.rows|] in rows';
      }
    }
  }

  /** What is unapplied after a call has finished was so before, and is not the call's own. */
  lemma AfterUnapplied(j: Journal, ev: Event, isError: bool, r: Row)
    requires r in AfterTool(j, ev, isError).rows && !r.applied
    ensures r in j.rows && (IsEditTool(ev.tool) ==> r.toolUse != ev.toolUse)
  {
    SnapshotToolsAre(ev.tool);
    if IsEditTool(ev.tool) && !isError {
      MarkAppliedShape(j.rows, ev.toolUse);
      var i :| 0 <= i < |j.rows| && MarkApplied(j.rows, ev.toolUse)[i] == r;
      assert j.rows[i] in j.rows;
    } else {
      DropUnappliedShape(j.rows, ev.toolUse);
    }
  }

  /** Other calls keep their rows. */
  lemma AfterKeepsHasRow(j: Journal, ev: Event, isError: bool, t: string, p: Path)
    requires HasRow(j.rows, t, p) && (IsEditTool(ev.tool) ==> t != ev.toolUse)
    ensures HasRow(AfterTool(j, ev, isError).rows, t, p)
  {
    var r :| r in j.rows && r.toolUse == t && r.path == p && !r.applied;
    SnapshotToolsAre(ev.tool);
    if IsEditTool(ev.tool) && !isError {
      MarkAppliedShape(j.rows, ev.toolUse);
      var i :| 0 <= i < |j.rows| && j.rows[i] == r;
      assert MarkApplied(j.rows, ev.toolUse)[i] == r;
    } else {
      DropUnappliedShape(j.rows, ev.toolUse);
    }
    assert r in AfterTool(j, ev, isError).rows;
  }

  lemma AfterKeepsStarted(j: Journal, started: map<string, Path>, gone: set<string>, written: set<string>, ev: Event,
                          isError: bool)
    requires StartedOk(j.rows, started, gone, written) && ev.toolUse !in gone
    ensures StartedOk(AfterTool(j, ev, isError).rows, Ended(started, ev), gone, Ending(written, ev))
  {
    var rows' := AfterTool(j, ev, isError).rows;
    forall r | r in rows' && !r.applied
      ensures r in j.rows && (IsEditTool(ev.tool) ==> r.toolUse != ev.toolUse)
    {
      AfterUnapplied(j, ev, isError, r);
    }
    forall t | t in Ended(started, ev)
      ensures HasRow(rows', t, started[t])
    {
      AfterKeepsHasRow(j, ev, isError, t, started[t]);
    }
  }

  lemma AbandonKeepsStarted(rows: seq<Row>, started: map<string, Path>, gone: set<string>, written: set<string>,
                            t: string)
    requires StartedOk(rows, started, gone, written) && t !in written
    ensures StartedOk(rows, started - {t}, gone + {t}, written)
  {
  }

  lemma MarksKeepStarted(rows: seq<Row>, rows': seq<Row>, started: map<string, Path>, gone: set<string>,
                         written: set<string>)
    requires StartedOk(rows, started, gone, written)
    requires |rows'| == |rows|
    requires forall i :: 0 <= i < |rows| ==>
               rows'[i] == rows[i]
               || (rows[i].applied && rows'[i] == rows[i].(undone := rows'[i].undone, kept := rows'[i].kept))
    ensures StartedOk(rows', started, gone, written)
  {
    forall t | t in started
      ensures HasRow(rows', t, started[t])
    {
      var r :| r in rows && r.toolUse == t && r.path == started[t] && !r.applied;
      var i :| 0 <= i < |rows| && rows[i] == r;
      assert rows'[i] == r;
    }
    forall r | r in rows' && !r.applied
      ensures r in rows
    {
      var i :| 0 <= i < |rows'| && rows'[i] == r;
      assert rows[i] in rows;
    }
  }

  /** No started call is on a path of the session. */
  predicate NoneStarted(started: map<string, Path>, own: Path -> string, session: string) {
    forall t :: t in started ==> own(started[t]) != session
  }

  lemma NoneStartedIff(rows: seq<Row>, nextId: nat, started: map<string, Path>, gone: set<string>,
                       written: set<string>, own: Path -> string, session: string)
    requires RowsOk(rows, nextId, written, own) && StartedOk(rows, started, gone, written)
    ensures NoneStarted(started, own, session) <==> NoneInFlight(Live(rows, gone), session)
  {
    LiveMembers(rows, gone);
    assert forall r :: r in rows ==> RowOk(r, nextId, own);
  }

  lemma AllFinished(rows: seq<Row>, started: map<string, Path>, gone: set<string>, written: set<string>)
    requires StartedOk(rows, started, gone, written)
    ensures started == map[] ==> AllApplied(Live(rows, gone))
  {
    LiveMembers(rows, gone);
  }

  /** The row of a started call is live and on its path's lane. */
  lemma StartedRow(rows: seq<Row>, nextId: nat, started: map<string, Path>, gone: set<string>, written: set<string>,
                   own: Path -> string, t: string)
    requires RowsOk(rows, nextId, written, own) && StartedOk(rows, started, gone, written) && t in started
    ensures exists r :: r in Live(rows, gone) && r.toolUse == t && !r.applied && r.session == own(r.path) &&
                        !r.undone && !r.kept && r in rows && r.path == started[t]
  {
    var r :| r in rows && r.toolUse == t && r.path == started[t] && !r.applied;
    assert RowOk(r, nextId, own);
    LiveMembers(rows, gone);
  }

  /** Rows of a path on which no call has started are applied, if they are live. */
  lemma UntouchedRows(rows: seq<Row>, started: map<string, Path>, gone: set<string>, written: set<string>, p: Path)
    requires StartedOk(rows, started, gone, written) && forall t :: t in started ==> started[t] != p
    ensures forall r :: r in Live(rows, gone) && r.path == p ==> r.applied
  {
    LiveMembers(rows, gone);
  }

  /** Rows on a lane that nobody is writing can absorb an outside change. */
  lemma {:induction false} LaneOutside(rows: seq<Row>, w: Window, p: Path, written: set<string>,
                                       base: Option<Bytes>, now: Option<Bytes>, now': Option<Bytes>)
    requires LaneOk(rows, w, p, written, base, now)
    requires forall r :: r in rows && OnLane(r, w, p) ==> r.applied
    ensures LaneOk(rows, w, p, written, if Earliest(rows, w, p).Some? then base else now', now')
  {
    if rows != [] && !OnLane(rows[0], w, p) {
      LaneOutside(rows[1..], w, p, written, base, now, now');
    }
  }

  /** With nothing in flight, undoing a path closes its lane. */
  lemma UndoneAway(rows: seq<Row>, w: Window, paths: Option<seq<Path>>, p: Path)
    requires NoneInFlight(rows, w.session) && Wanted(paths, p)
    ensures forall r :: r in MarkUndone(rows, w, paths) ==> !OnLane(r, w, p)
  {
    var rows' := MarkUndone(rows, w, paths);
    forall r | r in rows'
      ensures !OnLane(r, w, p)
    {
      var i :| 0 <= i < |rows'| && rows'[i] == r;
      assert rows[i] in rows;
    }
  }
}
