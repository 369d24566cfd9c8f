/**
 * The file-edit journal (piscis-kernel/src/agent/file_journal.rs).
 *
 * A table of pre-edit snapshots over a mutable file system. The pure module below gives every
 * journal operation as a function on a whole journal value; the class in JournalClass.dfy runs the
 * source's loops and is proved to compute these functions; JournalRuns.dfy proves what holds over runs.
 */
module JournalModel {
  import opened Common

  /** A workspace-relative path, already canonical. */
  type Path = string
  type FileSystem = map<Path, Bytes>

  const SNAPSHOT_TOOLS: seq<string> := ["file_write", "file_edit"]

  /** One row of the table `file_snapshots`. */
  datatype Row = Row(
    id: nat, session: string, turn: string, toolUse: string, tool: string, path: Path,
    existed: bool, before: Option<Bytes>, applied: bool, undone: bool, kept: bool)

  /** The hook event of a tool call; `path` is the call's `path` argument when it has one. */
  datatype Event = Event(session: string, toolUse: string, tool: string, path: Option<Path>)

  /** The table, the files, the next row id and the turn in flight. */
  datatype Journal = Journal(fs: FileSystem, rows: seq<Row>, nextId: nat, turn: Option<string>)

  /** Which snapshots a query looks at: everything awaiting review, or one turn. */
  datatype Window = Pending(session: string) | InTurn(session: string, turn: string)

  function Content(fs: FileSystem, p: Path): Option<Bytes> {
    if p in fs then Some(fs[p]) else None
  }

  function WithContent(fs: FileSystem, p: Path, c: Option<Bytes>): (r: FileSystem)
    ensures forall q :: Content(r, q) == if q == p then c else Content(fs, q)
  {
    if c.Some? then fs[p := c.value] else fs - {p}
  }

  /** The file content a snapshot recorded (absent when the file did not exist). */
  function Snap(r: Row): Option<Bytes> {
    if r.existed then r.before else None
  }

  predicate Open(r: Row, w: Window) {
    && r.session == w.session
    && !r.undone
    && (w.Pending? ==> !r.kept)
    && (w.InTurn? ==> r.turn == w.turn)
  }

  predicate OnLane(r: Row, w: Window, p: Path) {
    r.path == p && Open(r, w)
  }

  predicate Wanted(paths: Option<seq<Path>>, p: Path) {
    paths.None? || p in paths.value
  }

  /** The oldest applied snapshot of `p` in the window. */
  function Earliest(rows: seq<Row>, w: Window, p: Path): Option<Row> {
    if rows == [] then None
    else if rows[0].applied && OnLane(rows[0], w, p) then Some(rows[0])
    else Earliest(rows[1..], w, p)
  }

  /** The newest applied snapshot of `p` in the window. */
  function Latest(rows: seq<Row>, w: Window, p: Path): Option<Row> {
    if rows == [] then None
    else
      var r := rows[|rows| - 1];
      if r.applied && OnLane(r, w, p) then Some(r) else Latest(rows[..|rows| - 1], w, p)
  }

  // ----- Operations

  function BeginTurn(j: Journal, t: string): Journal {
    j.(turn := Some(t))
  }

  predicate Journaled(j: Journal, ev: Event) {
    ev.tool in SNAPSHOT_TOOLS && j.turn.Some? && ev.path.Some?
  }

  function NewRow(j: Journal, ev: Event): Row
    requires Journaled(j, ev)
  {
    var c := Content(j.fs, ev.path.value);
    Row(j.nextId, ev.session, j.turn.value, ev.toolUse, ev.tool, ev.path.value, c.Some?, c, false, false, false)
  }

  function BeforeTool(j: Journal, ev: Event): Journal {
    if Journaled(j, ev) then j.(rows := j.rows + [NewRow(j, ev)], nextId := j.nextId + 1) else j
  }

  /** A call of one of the two editing tools on a path. */
  predicate IsEdit(ev: Event) {
    (ev.tool == "file_write" || ev.tool == "file_edit") && ev.path.Some?
  }

  /**
   * Every edit inside a turn adds exactly one row, unapplied, with the file as it is now, whether or not the
   * file exists; no other call touches the journal.
   */
  lemma EditIsJournaled(j: Journal, ev: Event)
    ensures IsEdit(ev) && j.turn.Some? ==>
              var p := ev.path.value;
              BeforeTool(j, ev) ==
              j.(nextId := j.nextId + 1,
                 rows := j.rows + [Row(j.nextId, ev.session, j.turn.value, ev.toolUse, ev.tool, p, p in j.fs,
                                       if p in j.fs then Some(j.fs[p]) else None, false, false, false)])
    ensures !IsEdit(ev) || j.turn.None? ==> BeforeTool(j, ev) == j
  {
    assert ev.tool in SNAPSHOT_TOOLS <==> ev.tool == SNAPSHOT_TOOLS[0] || ev.tool == SNAPSHOT_TOOLS[1];
  }

  function MarkApplied(rows: seq<Row>, toolUse: string): seq<Row> {
    if rows == [] then []
    else
      var r := if rows[0].toolUse == toolUse then rows[0].(applied := true) else rows[0];
      [r] + MarkApplied(rows[1..], toolUse)
  }

  function DropUnapplied(rows: seq<Row>, toolUse: string): seq<Row> {
    if rows == [] then []
    else if rows[0].toolUse == toolUse && !rows[0].applied then DropUnapplied(rows[1..], toolUse)
    else [rows[0]] + DropUnapplied(rows[1..], toolUse)
  }

  function AfterTool(j: Journal, ev: Event, isError: bool): Journal {
    if ev.tool !in SNAPSHOT_TOOLS then j
    else if isError then j.(rows := DropUnapplied(j.rows, ev.toolUse))
    else j.(rows := MarkApplied(j.rows, ev.toolUse))
  }

  predicate Selected(r: Row, w: Window, paths: Option<seq<Path>>) {
    r.applied && Open(r, w) && Wanted(paths, r.path)
  }

  function MarkKept(rows: seq<Row>, session: string, paths: Option<seq<Path>>): (r: seq<Row>)
    ensures |r| == |rows|
  {
    seq(|rows|, i requires 0 <= i < |rows| =>
      if Selected(rows[i], Pending(session), paths) then rows[i].(kept := true) else rows[i])
  }

  function MarkUndone(rows: seq<Row>, w: Window, paths: Option<seq<Path>>): (r: seq<Row>)
    ensures |r| == |rows|
  {
    seq(|rows|, i requires 0 <= i < |rows| =>
      if Selected(rows[i], w, paths) then rows[i].(undone := true) else rows[i])
  }

  function Keep(j: Journal, session: string, paths: Option<seq<Path>>): Journal {
    j.(rows := MarkKept(j.rows, session, paths))
  }

  /** What `restore` leaves at a path that held `now`. */
  function Restored(r: Row, now: Option<Bytes>): Option<Bytes> {
    if !r.existed then None else if r.before.Some? then r.before else now
  }

  function ContentAfterUndo(fs: FileSystem, rows: seq<Row>, w: Window, paths: Option<seq<Path>>,
                            p: Path): Option<Bytes> {
    var e := Earliest(rows, w, p);
    if Wanted(paths, p) && e.Some? then Restored(e.value, Content(fs, p)) else Content(fs, p)
  }

  /** The whole file system after every wanted path went back to its earliest snapshot. */
  function Rewound(fs: FileSystem, rows: seq<Row>, w: Window, paths: Option<seq<Path>>): FileSystem {
    map p | p in fs.Keys + (set r | r in rows :: r.path) && ContentAfterUndo(fs, rows, w, paths, p).Some?
          :: ContentAfterUndo(fs, rows, w, paths, p).value
  }

  function Undo(j: Journal, w: Window, paths: Option<seq<Path>>): Journal {
    j.(fs := Rewound(j.fs, j.rows, w, paths), rows := MarkUndone(j.rows, w, paths))
  }

  // ----- Facts about the queries

  lemma EarliestIsSelected(rows: seq<Row>, w: Window, p: Path)
    ensures Earliest(rows, w, p).Some? ==>
              Earliest(rows, w, p).value in rows && OnLane(Earliest(rows, w, p).value, w, p)
                  && Earliest(rows, w, p).value.applied
    ensures Earliest(rows, w, p).None? ==> forall r :: r in rows && OnLane(r, w, p) ==> !r.applied
  {
    if rows != [] {
      EarliestIsSelected(rows[1..], w, p);
      assert rows == [rows[0]] + rows[1..];
    }
  }

  lemma RewoundContent(fs: FileSystem, rows: seq<Row>, w: Window, paths: Option<seq<Path>>, p: Path)
    ensures Content(Rewound(fs, rows, w, paths), p) == ContentAfterUndo(fs, rows, w, paths, p)
  {
    EarliestIsSelected(rows, w, p);
    if ContentAfterUndo(fs, rows, w, paths, p).Some? && p !in fs {
      var r := Earliest(rows, w, p).value;
      assert r in rows && r.path == p;
    }
  }

  lemma {:induction false} EarliestAppend(rows: seq<Row>, r: Row, w: Window, p: Path)
    ensures Earliest(rows + [r], w, p) ==
            if Earliest(rows, w, p).Some? then Earliest(rows, w, p)
            else if r.applied && OnLane(r, w, p) then Some(r) else None
  {
    if rows == [] {
      assert rows + [r] == [r];
    } else {
      assert (rows + [r])[1..] == rows[1..] + [r];
      EarliestAppend(rows[1..], r, w, p);
    }
  }

  lemma LatestAppend(rows: seq<Row>, r: Row, w: Window, p: Path)
    ensures Latest(rows + [r], w, p) == if r.applied && OnLane(r, w, p) then Some(r) else Latest(rows, w, p)
  {
    assert (rows + [r])[..|rows|] == rows;
  }

  lemma {:induction false} NothingSelected(rows: seq<Row>, w: Window, p: Path)
    requires forall r :: r in rows && OnLane(r, w, p) ==> !r.applied
    ensures Earliest(rows, w, p) == None
  {
    if rows != [] {
      NothingSelected(rows[1..], w, p);
    }
  }

  /** Undoing the same window twice changes nothing the second time, whatever the journal holds. */
  lemma UndoIsIdempotent(j: Journal, w: Window, paths: Option<seq<Path>>)
    ensures Undo(Undo(j, w, paths), w, paths) == Undo(j, w, paths)
  {
    var k := Undo(j, w, paths);
    assert MarkUndone(k.rows, w, paths) == k.rows;
    forall p
      ensures Content(Rewound(k.fs, k.rows, w, paths), p) == Content(k.fs, p)
    {
      RewoundContent(k.fs, k.rows, w, paths, p);
      if Wanted(paths, p) {
        NothingSelected(k.rows, w, p);
      }
    }
    SameContents(Rewound(k.fs, k.rows, w, paths), k.fs);
  }

  lemma SameContents(a: FileSystem, b: FileSystem)
    requires forall p :: Content(a, p) == Content(b, p)
    ensures a == b
  {
    forall p
      ensures p in a <==> p in b
      ensures p in a ==> a[p] == b[p]
    {
      assert Content(a, p) == Content(b, p);
    }
  }
}
