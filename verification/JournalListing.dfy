/** The review list: net changes per path, reconciled with the disk. */
module JournalListing {
  import opened Common
  import opened JournalLanes
  import opened JournalModel
  import opened JournalRuns

  datatype Status = Added | Modified | Deleted

  datatype Change = Change(id: nat, path: Path, tool: string, existed: bool, applied: bool, status: Status,
                           turn: string)

  function NetStatus(existed: bool, before: Option<Bytes>, now: Option<Bytes>): Option<Status> {
    if !existed then (if now.Some? then Some(Added) else None)
    else if now.None? then Some(Deleted)
    else if before == now then None
    else Some(Modified)
  }

  /** The entry a path deserves: baseline from its earliest snapshot, id and tool from its latest. */
  function ChangeFor(fs: FileSystem, rows: seq<Row>, w: Window, p: Path): Option<Change> {
    var first, last := Earliest(rows, w, p), Latest(rows, w, p);
    if first.None? || last.None? then None
    else
      var status := NetStatus(first.value.existed, first.value.before, Content(fs, p));
      if status.None? then None
      else Some(Change(last.value.id, p, last.value.tool, first.value.existed, true, status.value, first.value.turn))
  }

  /** Exactly the deserved entries, newest-touched first. */
  ghost predicate IsListing(out: seq<Change>, fs: FileSystem, rows: seq<Row>, w: Window) {
    && (forall c :: c in out <==> ChangeFor(fs, rows, w, c.path) == Some(c))
    && (forall i, j :: 0 <= i < j < |out| ==> out[i].id > out[j].id)
  }

  lemma {:induction false} EarliestAndLatest(rows: seq<Row>, w: Window, p: Path)
    ensures Earliest(rows, w, p).Some? <==> Latest(rows, w, p).Some?
    ensures Latest(rows, w, p).Some? ==> Latest(rows, w, p).value in rows && OnLane(Latest(rows, w, p).value, w, p)
  {
    if rows != [] {
      var init, r := rows[..|rows| - 1], rows[|rows| - 1];
      assert rows == init + [r];
      EarliestAndLatest(init, w, p);
      EarliestAppend(init, r, w, p);
    }
  }

  /** A listing is determined by the journal: there is only one. */
  lemma ListingIsUnique(a: seq<Change>, b: seq<Change>, fs: FileSystem, rows: seq<Row>, w: Window)
    requires IsListing(a, fs, rows, w) && IsListing(b, fs, rows, w)
    ensures a == b
  {
    assert forall c :: c in a <==> c in b;
    DescendingUnique(a, b);
  }

  lemma {:induction false} DescendingUnique(a: seq<Change>, b: seq<Change>)
    requires forall c :: c in a <==> c in b
    requires forall i, j :: 0 <= i < j < |a| ==> a[i].id > a[j].id
    requires forall i, j :: 0 <= i < j < |b| ==> b[i].id > b[j].id
    ensures a == b
  {
    assert b != [] ==> b[0] in a;
    assert a != [] ==> a[0] in b;
    if a != [] {
      assert a[0] == b[0];
      assert a == [a[0]] + a[1..] && b == [b[0]] + b[1..];
      forall c
        ensures c in a[1..] <==> c in b[1..]
      {
        assert c in a[1..] ==> c in a && c.id < a[0].id;
        assert c in b[1..] ==> c in b && c.id < b[0].id;
      }
      DescendingUnique(a[1..], b[1..]);
    }
  }

  /**
   * In every run, once the session's calls have finished, its review list names exactly the paths whose
   * content differs from the baseline, each once, with the status of the difference.
   */
  lemma PendingListsExactlyTheDifferences(fs: FileSystem, own: Path -> string, steps: seq<Step>, session: string,
                                          out: seq<Change>)
    requires Exec(Start(fs), own, steps).Some?
    requires Quiet(Exec(Start(fs), own, steps).value, own, session)
    requires IsListing(out, Exec(Start(fs), own, steps).value.j.fs, Exec(Start(fs), own, steps).value.j.rows,
                       Pending(session))
    ensures var s := Exec(Start(fs), own, steps).value;
            && (forall p :: (exists c :: c in out && c.path == p) <==>
                            own(p) == session && Content(s.j.fs, p) != Content(s.base, p))
            && (forall i, j :: 0 <= i < j < |out| ==> out[i].path != out[j].path)
            && (forall c :: c in out ==>
                  c.status == if Content(s.base, c.path).None? then Added
                              else if Content(s.j.fs, c.path).None? then Deleted else Modified)
  {
    var s := Exec(Start(fs), own, steps).value;
    var w := Pending(session);
    StartOk(fs, own);
    RunsKeepReviewOk(Start(fs), own, steps);
    UndoRestoresBaselineInEveryRun(fs, own, steps, session, None);
    assert forall r :: r in s.j.rows ==> RowOk(r, s.j.nextId, own);
    forall p
      ensures ChangeFor(s.j.fs, s.j.rows, w, p).Some? <==> own(p) == session && Content(s.j.fs, p) != Content(s.base, p)
      ensures ChangeFor(s.j.fs, s.j.rows, w, p).Some? ==>
                ChangeFor(s.j.fs, s.j.rows, w, p).value.status ==
                if Content(s.base, p).None? then Added else if Content(s.j.fs, p).None? then Deleted else Modified
    {
      EarliestAndLatest(s.j.rows, w, p);
      EarliestIsSelected(s.j.rows, w, p);
    }
    forall p | ChangeFor(s.j.fs, s.j.rows, w, p).Some?
      ensures exists c :: c in out && c.path == p
    {
      assert ChangeFor(s.j.fs, s.j.rows, w, p).value in out;
    }
    forall i, j | 0 <= i < j < |out|
      ensures out[i].path != out[j].path
    {
      assert out[i] in out && out[j] in out;
    }
  }

  // ----- What an entry says of its path

  /** An applied snapshot of the path in the window. */
  predicate IsSnapshot(r: Row, rows: seq<Row>, w: Window, p: Path) {
    r in rows && r.applied && OnLane(r, w, p)
  }

  lemma {:induction false} EarliestIsOldest(rows: seq<Row>, w: Window, p: Path, r: Row)
    requires Ordered(rows) && IsSnapshot(r, rows, w, p)
    ensures Earliest(rows, w, p).Some? && IsSnapshot(Earliest(rows, w, p).value, rows, w, p)
    ensures Earliest(rows, w, p).value.id <= r.id
  {
    assert rows == [rows[0]] + rows[1..];
    if !(rows[0].applied && OnLane(rows[0], w, p)) {
      forall i, k | 0 <= i < k < |rows[1..]|
        ensures PairOk(rows[1..][i], rows[1..][k])
      {
        assert PairOk(rows[i + 1], rows[k + 1]);
      }
      EarliestIsOldest(rows[1..], w, p, r);
    } else {
      var i :| 0 <= i < |rows| && rows[i] == r;
      assert i > 0 ==> PairOk(rows[0], rows[i]);
    }
  }

  lemma {:induction false} LatestIsNewest(rows: seq<Row>, w: Window, p: Path, r: Row)
    requires Ordered(rows) && IsSnapshot(r, rows, w, p)
    ensures Latest(rows, w, p).Some? && IsSnapshot(Latest(rows, w, p).value, rows, w, p)
    ensures r.id <= Latest(rows, w, p).value.id
  {
    var init, last := rows[..|rows| - 1], rows[|rows| - 1];
    assert rows == init + [last];
    if !(last.applied && OnLane(last, w, p)) {
      assert Ordered(init) by {
        assert forall i, k :: 0 <= i < k < |init| ==> PairOk(rows[i], rows[k]);
      }
      LatestIsNewest(init, w, p, r);
    } else {
      var i :| 0 <= i < |rows| && rows[i] == r;
      assert i < |rows| - 1 ==> PairOk(rows[i], rows[|rows| - 1]);
    }
  }

  /**
   * An entry has the id and the tool of the newest applied snapshot of its path, and says of the oldest one
   * whether the file existed and in which turn it was taken.
   */
  lemma EntriesTellNewestAndOldest(out: seq<Change>, fs: FileSystem, rows: seq<Row>, w: Window, c: Change)
    requires Ordered(rows) && IsListing(out, fs, rows, w) && c in out
    ensures exists newest, oldest ::
              && IsSnapshot(newest, rows, w, c.path) && c.id == newest.id && c.tool == newest.tool
              && IsSnapshot(oldest, rows, w, c.path) && c.existed == oldest.existed && c.turn == oldest.turn
              && forall r :: IsSnapshot(r, rows, w, c.path) ==> oldest.id <= r.id <= newest.id
  {
    var oldest, newest := Earliest(rows, w, c.path).value, Latest(rows, w, c.path).value;
    EarliestIsSelected(rows, w, c.path);
    LatestIsNewest(rows, w, c.path, oldest);
    forall r | IsSnapshot(r, rows, w, c.path)
      ensures oldest.id <= r.id <= newest.id
    {
      EarliestIsOldest(rows, w, c.path, r);
      LatestIsNewest(rows, w, c.path, r);
    }
  }
}
