/** The journal object: the source's loops over the table, proved to compute JournalModel's functions. */
module JournalObject {
  import opened Common
  import opened JournalModel
  import opened JournalListing

  class FileJournal {
    var fs: FileSystem
    var rows: seq<Row>
    var nextId: nat
    var currentTurn: Option<string>

    function View(): Journal
      reads this
    {
      Journal(fs, rows, nextId, currentTurn)
    }

    constructor (files: FileSystem)
      ensures View() == Journal(files, [], 0, None)
    {
      fs, rows, nextId, currentTurn := files, [], 0, None;
    }

    method Begin(turn: string)
      modifies this
      ensures View() == BeginTurn(old(View()), turn)
    {
      currentTurn := Some(turn);
    }

    /** The last row is the edit's, unapplied, with the file as it is. */
    predicate EditRecorded(ev: Event, rows0: seq<Row>, id: nat)
      requires IsEdit(ev) && currentTurn.Some?
      reads this
    {
      var p := ev.path.value;
      rows == rows0 + [Row(id, ev.session, currentTurn.value, ev.toolUse, ev.tool, p, p in fs,
                           if p in fs then Some(fs[p]) else None, false, false, false)]
    }

    /** before_tool and snapshot_before: record the file as it is now. */
    method Before(ev: Event)
      modifies this
      ensures View() == BeforeTool(old(View()), ev)
      ensures IsEdit(ev) && currentTurn.Some? ==> EditRecorded(ev, old(rows), old(nextId))
    {
      EditIsJournaled(View(), ev);
      if ev.tool !in SNAPSHOT_TOOLS { return; }
      if currentTurn.None? { return; }
      if ev.path.None? { return; }
      var p := ev.path.value;
      var existed, before := false, None;
      if p in fs {
        existed, before := true, Some(fs[p]);
      }
      rows := rows + [Row(nextId, ev.session, currentTurn.value, ev.toolUse, ev.tool, p, existed, before, false, false,
                          false)];
      nextId := nextId + 1;
    }

    /** after_tool and finalize: mark the call's unapplied rows applied, or delete them. */
    method After(ev: Event, isError: bool)
      modifies this
      ensures View() == AfterTool(old(View()), ev, isError)
    {
      if ev.tool !in SNAPSHOT_TOOLS { return; }
      var kept: seq<Row> := [];
      var i := |rows|;
      while i > 0
        invariant 0 <= i <= |rows|
        invariant kept == if isError then DropUnapplied(rows[i..], ev.toolUse) else MarkApplied(rows[i..], ev.toolUse)
      {
        i := i - 1;
        assert rows[i..][1..] == rows[i + 1..];
        if rows[i].toolUse == ev.toolUse && !rows[i].applied {
          if !isError {
            kept := [rows[i].(applied := true)] + kept;
          }
        } else {
          kept := [rows[i]] + kept;
        }
      }
      rows := kept;
    }

    /** keep_paths: accept pending rows; the result is the number of rows updated. */
    method KeepPaths(session: string, paths: Option<seq<Path>>) returns (n: nat)
      modifies this`rows
      ensures View() == Keep(old(View()), session, paths)
      ensures n == CountSelected(old(rows), Pending(session), paths)
    {
      if paths.None? {
        n := UpdateKept(session, None);
        return;
      }
      n := 0;
      var i := 0;
      ghost var was := rows;
      assert paths.value[..0] == [];
      assert rows == MarkKept(was, session, Some([]));
      NoneSelected(was, Pending(session));
      while i < |paths.value|
        invariant 0 <= i <= |paths.value|
        invariant rows == MarkKept(was, session, Some(paths.value[..i]))
        invariant n == CountSelected(was, Pending(session), Some(paths.value[..i]))
      {
        assert paths.value[..i + 1] == paths.value[..i] + [paths.value[i]];
        KeepOneMore(was, session, paths.value[..i], paths.value[i]);
        var m := UpdateKept(session, Some([paths.value[i]]));
        n := n + m;
        i := i + 1;
      }
      assert paths.value[..i] == paths.value;
    }

    /** One UPDATE ... SET kept = 1 statement. */
    method UpdateKept(session: string, paths: Option<seq<Path>>) returns (n: nat)
      modifies this`rows
      ensures rows == MarkKept(old(rows), session, paths)
      ensures n == CountSelected(old(rows), Pending(session), paths)
    {
      n := 0;
      var i := 0;
      var table := rows;
      var marked: seq<Row> := [];
      while i < |table|
        invariant 0 <= i <= |table| && |marked| == i
        invariant forall k :: 0 <= k < i ==> marked[k] == MarkKept(table, session, paths)[k]
        invariant n == CountSelected(table[..i], Pending(session), paths)
      {
        assert table[..i + 1][..i] == table[..i];
        if Selected(table[i], Pending(session), paths) {
          marked := marked + [table[i].(kept := true)];
          n := n + 1;
        } else {
          marked := marked + [table[i]];
        }
        i := i + 1;
      }
      assert table[..i] == table;
      rows := marked;
    }

    /** restore: write the recorded bytes back, or remove the file. */
    method Restore(r: Row)
      modifies this`fs
      ensures forall p ::
                Content(fs, p) == if p == r.path then Restored(r, Content(old(fs), p)) else Content(old(fs), p)
    {
      if r.existed {
        if r.before.Some? {
          fs := fs[r.path := r.before.value];
        }
      } else {
        fs := fs - {r.path};
      }
    }

    /** The rows a SELECT over the window yields first for each wanted path, in id order. */
    method EarliestPerPath(w: Window, paths: Option<seq<Path>>) returns (targets: seq<Row>)
      ensures targets == Targets(rows, w, paths)
    {
      targets := [];
      var seen: set<Path> := {};
      var i := 0;
      while i < |rows|
        invariant 0 <= i <= |rows|
        invariant seen == PathsOf(targets)
        invariant targets == Targets(rows[..i], w, paths)
      {
        var r := rows[i];
        assert rows[..i + 1][..i] == rows[..i];
        TargetPathsIff(rows[..i], w, paths, r.path);
        if Selected(r, w, paths) && r.path !in seen {
          targets := targets + [r];
          seen := seen + {r.path};
        }
        i := i + 1;
      }
      assert rows[..i] == rows;
    }

    /** Restore every target once. */
    method RestoreAll(targets: seq<Row>, w: Window, paths: Option<seq<Path>>) returns (restored: seq<Path>)
      requires targets == Targets(rows, w, paths)
      modifies this`fs
      ensures fs == Rewound(old(fs), rows, w, paths)
      ensures InOrderOf(restored, targets)
      ensures Distinct(restored)
      ensures forall p :: p in restored <==> Wanted(paths, p) && Earliest(rows, w, p).Some?
    {
      restored := [];
      var i := 0;
      while i < |targets|
        invariant 0 <= i <= |targets| && |restored| == i
        invariant forall k :: 0 <= k < i ==> restored[k] == targets[k].path
        invariant forall p :: Content(fs, p) ==
                              if p in restored then ContentAfterUndo(old(fs), rows, w, paths, p)
                              else Content(old(fs), p)
      {
        TargetAt(rows, w, paths, i);
        Restore(targets[i]);
        restored := restored + [targets[i].path];
        i := i + 1;
      }
      RestoredPathsIff(rows, w, paths, restored);
      forall p
        ensures Content(fs, p) == Content(Rewound(old(fs), rows, w, paths), p)
      {
        RewoundContent(old(fs), rows, w, paths, p);
      }
      SameContents(fs, Rewound(old(fs), rows, w, paths));
    }

    /** undo_paths: put wanted pending paths back and close their rows. */
    method UndoPaths(session: string, paths: Option<seq<Path>>) returns (restored: seq<Path>)
      modifies this
      ensures View() == Undo(old(View()), Pending(session), paths)
      ensures forall p :: p in restored <==> Wanted(paths, p) && Earliest(old(rows), Pending(session), p).Some?
      ensures Distinct(restored)
      ensures InOrderOf(restored, Targets(old(rows), Pending(session), paths))
    {
      var w := Pending(session);
      var targets := EarliestPerPath(w, paths);
      restored := RestoreAll(targets, w, paths);
      var k := 0;
      var table := rows;
      while k < |restored|
        modifies this`rows
        invariant 0 <= k <= |restored| && |rows| == |table|
        invariant forall i :: 0 <= i < |table| ==>
                    rows[i] == if table[i].session == session && table[i].applied && !table[i].kept
                        && table[i].path in restored[..k]
                               then table[i].(undone := true) else table[i]
      {
        UpdateUndone(session, restored[k]);
        assert restored[..k + 1] == restored[..k] + [restored[k]];
        k := k + 1;
      }
      assert restored[..k] == restored;
      forall i | 0 <= i < |table|
        ensures rows[i] == MarkUndone(table, w, paths)[i]
      {
        EarliestIsSelected(table, w, table[i].path);
      }
      assert rows == MarkUndone(table, w, paths);
    }

    /** One UPDATE ... SET undone = 1 statement of undo_paths. */
    method UpdateUndone(session: string, p: Path)
      modifies this`rows
      ensures |rows| == |old(rows)|
      ensures forall i :: 0 <= i < |rows| ==>
                rows[i] == if old(rows)[i].session == session && old(rows)[i].path == p && old(rows)[i].applied
                    && !old(rows)[i].kept
                           then old(rows)[i].(undone := true) else old(rows)[i]
    {
      var table := rows;
      rows := seq(|table|, i requires 0 <= i < |table| =>
        if table[i].session == session && table[i].path == p && table[i].applied && !table[i].kept
        then table[i].(undone := true) else table[i]);
    }

    /** undo_turn: put the turn's paths back to their first snapshot of the turn and close its rows. */
    method UndoTurn(session: string, turn: string) returns (restored: seq<Path>)
      modifies this
      ensures View() == Undo(old(View()), InTurn(session, turn), None)
      ensures forall p :: p in restored <==> Earliest(old(rows), InTurn(session, turn), p).Some?
      ensures Distinct(restored)
      ensures InOrderOf(restored, Targets(old(rows), InTurn(session, turn), None))
    {
      var w := InTurn(session, turn);
      var targets := EarliestPerPath(w, None);
      restored := RestoreAll(targets, w, None);
      var table := rows;
      rows := seq(|table|, i requires 0 <= i < |table| =>
        if table[i].session == session && table[i].turn == turn && table[i].applied then table[i].(undone := true)
        else table[i]);
      assert rows == MarkUndone(table, w, None);
    }

    /** net_changes: group the window's rows by path, drop paths with no net change, newest first. */
    method NetChanges(w: Window) returns (out: seq<Change>)
      requires forall i, k :: 0 <= i < k < |rows| ==> rows[i].id < rows[k].id
      ensures IsListing(out, fs, rows, w)
    {
      var order, byPath := GroupByPath(w);
      var found: seq<Change> := [];
      var k := 0;
      while k < |order|
        invariant 0 <= k <= |order|
        invariant forall c :: c in found <==> c.path in order[..k] && ChangeFor(fs, rows, w, c.path) == Some(c)
        invariant forall a, b :: 0 <= a < b < |found| ==> found[a].path != found[b].path
      {
        var p := order[k];
        assert order[..k + 1] == order[..k] + [p];
        assert GroupOk(rows, w, byPath, p);
        assert p !in order[..k];
        var (base, lastId, lastTool) := byPath[p];
        var status := NetStatus(base.existed, base.before, Content(fs, p));
        if status.Some? {
          found := found + [Change(lastId, p, lastTool, base.existed, true, status.value, base.turn)];
        }
        k := k + 1;
      }
      assert order[..k] == order;
      forall p
        ensures p in order <==> Earliest(rows, w, p).Some?
      {
        assert GroupOk(rows, w, byPath, p);
      }
      ListedIdsDiffer(fs, rows, w, found);
      out := SortNewestFirst(found);
    }

    /**
     * The first loop of net_changes: paths in first-touched order, each with its earliest row and latest id and
     * tool.
     */
    method GroupByPath(w: Window) returns (order: seq<Path>, byPath: map<Path, (Row, nat, string)>)
      ensures Distinct(order) && byPath.Keys == set p | p in order
      ensures forall p :: GroupOk(rows, w, byPath, p)
    {
      order, byPath := [], map[];
      var i := 0;
      while i < |rows|
        invariant 0 <= i <= |rows|
        invariant Distinct(order) && byPath.Keys == set p | p in order
        invariant forall p :: GroupOk(rows[..i], w, byPath, p)
      {
        var r := rows[i];
        assert rows[..i + 1] == rows[..i] + [r];
        ghost var was := byPath;
        if r.applied && Open(r, w) {
          if r.path in byPath {
            byPath := byPath[r.path := (byPath[r.path].0, r.id, r.tool)];
          } else {
            order := order + [r.path];
            byPath := byPath[r.path := (r, r.id, r.tool)];
          }
        }
        ghost var upTo := rows[..i + 1];
        forall p
          ensures GroupOk(upTo, w, byPath, p)
        {
          assert GroupOk(rows[..i], w, was, p);
          EarliestAppend(rows[..i], r, w, p);
          LatestAppend(rows[..i], r, w, p);
        }
        i := i + 1;
      }
      assert rows[..i] == rows;
    }
  }

  /** The entry of one path agrees with the rows seen so far. */
  ghost predicate GroupOk(rows: seq<Row>, w: Window, byPath: map<Path, (Row, nat, string)>, p: Path) {
    if p in byPath then
      && Earliest(rows, w, p) == Some(byPath[p].0)
      && Latest(rows, w, p).Some?
      && byPath[p].1 == Latest(rows, w, p).value.id
      && byPath[p].2 == Latest(rows, w, p).value.tool
    else Earliest(rows, w, p).None? && Latest(rows, w, p).None?
  }

  /** The first selected row of each path, in id order. */
  function Targets(rows: seq<Row>, w: Window, paths: Option<seq<Path>>): seq<Row> {
    if rows == [] then []
    else
      var init, r := rows[..|rows| - 1], rows[|rows| - 1];
      if Selected(r, w, paths) && Earliest(init, w, r.path).None? then Targets(init, w, paths) + [r]
      else Targets(init, w, paths)
  }

  /** The targets are the earliest rows of the wanted paths, one per path, oldest first. */
  lemma {:induction false} TargetsAreEarliest(rows: seq<Row>, w: Window, paths: Option<seq<Path>>)
    ensures forall r :: r in Targets(rows, w, paths) <==> Wanted(paths, r.path) && Earliest(rows, w, r.path) == Some(r)
    ensures forall a, b :: 0 <= a < b < |Targets(rows, w, paths)| ==>
            Targets(rows, w, paths)[a].path != Targets(rows, w, paths)[b].path
    ensures IsSubsequence(Targets(rows, w, paths), rows)
  {
    if rows != [] {
      var init, last := rows[..|rows| - 1], rows[|rows| - 1];
      var t, t' := Targets(init, w, paths), Targets(rows, w, paths);
      assert rows == init + [last];
      TargetsAreEarliest(init, w, paths);
      forall r
        ensures r in t' <==> Wanted(paths, r.path) && Earliest(rows, w, r.path) == Some(r)
      {
        EarliestAppend(init, last, w, r.path);
      }
      forall a | 0 <= a < |t|
        ensures t' == t + [last] ==> t[a].path != last.path
      {
        assert t[a] in t;
      }
      SubsequenceTake(t, init, last);
      SubsequenceSkip(t, init, last);
    }
  }

  predicate InOrderOf(paths: seq<Path>, rows: seq<Row>) {
    |paths| == |rows| && forall i :: 0 <= i < |rows| ==> paths[i] == rows[i].path
  }

  function PathsOf(rows: seq<Row>): set<Path> {
    set r | r in rows :: r.path
  }

  lemma TargetPathsIff(rows: seq<Row>, w: Window, paths: Option<seq<Path>>, p: Path)
    ensures p in PathsOf(Targets(rows, w, paths)) <==> Wanted(paths, p) && Earliest(rows, w, p).Some?
  {
    TargetsAreEarliest(rows, w, paths);
    EarliestIsSelected(rows, w, p);
    var t := Targets(rows, w, paths);
    assert Wanted(paths, p) && Earliest(rows, w, p).Some? ==> Earliest(rows, w, p).value in t;
  }

  lemma TargetAt(rows: seq<Row>, w: Window, paths: Option<seq<Path>>, i: nat)
    requires i < |Targets(rows, w, paths)|
    ensures var t := Targets(rows, w, paths);
            && Wanted(paths, t[i].path) && Earliest(rows, w, t[i].path) == Some(t[i])
            && forall k :: 0 <= k < i ==> t[k].path != t[i].path
  {
    TargetsAreEarliest(rows, w, paths);
    assert Targets(rows, w, paths)[i] in Targets(rows, w, paths);
  }

  lemma RestoredPathsIff(rows: seq<Row>, w: Window, paths: Option<seq<Path>>, restored: seq<Path>)
    requires |restored| == |Targets(rows, w, paths)|
    requires forall k :: 0 <= k < |restored| ==> restored[k] == Targets(rows, w, paths)[k].path
    ensures Distinct(restored)
    ensures forall p :: p in restored <==> Wanted(paths, p) && Earliest(rows, w, p).Some?
  {
    var t := Targets(rows, w, paths);
    forall p
      ensures p in restored <==> Wanted(paths, p) && Earliest(rows, w, p).Some?
    {
      TargetPathsIff(rows, w, paths, p);
      assert p in restored <==> p in PathsOf(t) by {
        assert forall k :: 0 <= k < |t| ==> t[k].path == restored[k];
      }
    }
    TargetsAreEarliest(rows, w, paths);
  }

  function CountSelected(rows: seq<Row>, w: Window, paths: Option<seq<Path>>): nat {
    if rows == [] then 0
    else CountSelected(rows[..|rows| - 1], w, paths) + if Selected(rows[|rows| - 1], w, paths) then 1 else 0
  }

  lemma {:induction false} NoneSelected(rows: seq<Row>, w: Window)
    ensures CountSelected(rows, w, Some([])) == 0
  {
    if rows != [] {
      NoneSelected(rows[..|rows| - 1], w);
    }
  }

  /** Keeping a list and then one more path is keeping the longer list, and no row is counted twice. */
  lemma {:induction false} KeepOneMore(rows: seq<Row>, session: string, paths: seq<Path>, p: Path)
    ensures MarkKept(MarkKept(rows, session, Some(paths)), session, Some([p]))
            == MarkKept(rows, session, Some(paths + [p]))
    ensures CountSelected(rows, Pending(session), Some(paths + [p])) ==
            CountSelected(rows, Pending(session), Some(paths)) +
            CountSelected(MarkKept(rows, session, Some(paths)), Pending(session), Some([p]))
  {
    if rows != [] {
      var init := rows[..|rows| - 1];
      KeepOneMore(init, session, paths, p);
      var marked := MarkKept(rows, session, Some(paths));
      assert marked[..|rows| - 1] == MarkKept(init, session, Some(paths));
    }
  }

  /** `sub` can be read off `whole` from left to right. */
  ghost predicate IsSubsequence<T(!new)>(sub: seq<T>, whole: seq<T>) {
    if sub == [] then true
    else if whole == [] then false
    else if sub[|sub| - 1] == whole[|whole| - 1] && IsSubsequence(sub[..|sub| - 1], whole[..|whole| - 1]) then true
    else IsSubsequence(sub, whole[..|whole| - 1])
  }

  lemma SubsequenceTake<T(!new)>(sub: seq<T>, whole: seq<T>, x: T)
    requires IsSubsequence(sub, whole)
    ensures IsSubsequence(sub + [x], whole + [x])
  {
    assert (sub + [x])[..|sub|] == sub && (whole + [x])[..|whole|] == whole;
  }

  lemma SubsequenceSkip<T(!new)>(sub: seq<T>, whole: seq<T>, x: T)
    requires IsSubsequence(sub, whole)
    ensures IsSubsequence(sub, whole + [x])
  {
    assert (whole + [x])[..|whole|] == whole;
  }

  /** Entries of different paths come from different rows, so their ids differ. */
  lemma ListedIdsDiffer(fs: FileSystem, rows: seq<Row>, w: Window, found: seq<Change>)
    requires forall i, k :: 0 <= i < k < |rows| ==> rows[i].id < rows[k].id
    requires forall c :: c in found ==> ChangeFor(fs, rows, w, c.path) == Some(c)
    requires forall a, b :: 0 <= a < b < |found| ==> found[a].path != found[b].path
    ensures forall a, b :: 0 <= a < b < |found| ==> found[a].id != found[b].id
  {
    forall a, b | 0 <= a < b < |found|
      ensures found[a].id != found[b].id
    {
      assert found[a] in found && found[b] in found;
      EarliestAndLatest(rows, w, found[a].path);
      EarliestAndLatest(rows, w, found[b].path);
    }
  }

  ghost predicate NewestFirst(s: seq<Change>) {
    forall i, j :: 0 <= i < j < |s| ==> s[i].id > s[j].id
  }

  method SortNewestFirst(s: seq<Change>) returns (out: seq<Change>)
    requires forall a, b :: 0 <= a < b < |s| ==> s[a].id != s[b].id
    ensures forall c :: c in out <==> c in s
    ensures NewestFirst(out)
  {
    out := [];
    var i := 0;
    while i < |s|
      invariant 0 <= i <= |s|
      invariant forall c :: c in out <==> c in s[..i]
      invariant NewestFirst(out)
    {
      assert s[..i + 1] == s[..i] + [s[i]];
      assert forall c :: c in out ==> c.id != s[i].id;
      out := InsertByAge(out, s[i]);
      i := i + 1;
    }
    assert s[..i] == s;
  }

  method InsertByAge(s: seq<Change>, c: Change) returns (out: seq<Change>)
    requires NewestFirst(s)
    requires forall x :: x in s ==> x.id != c.id
    ensures NewestFirst(out)
    ensures forall x :: x in out <==> x in s || x == c
  {
    var k := 0;
    while k < |s| && s[k].id > c.id
      invariant 0 <= k <= |s|
      invariant forall a :: 0 <= a < k ==> s[a].id > c.id
    {
      k := k + 1;
    }
    out := s[..k] + [c] + s[k..];
    InsertedByAge(s, c, k);
  }

  lemma InsertedByAge(s: seq<Change>, c: Change, k: nat)
    requires NewestFirst(s) && k <= |s| && (forall x :: x in s ==> x.id != c.id)
    requires (forall a :: 0 <= a < k ==> s[a].id > c.id) && (k < |s| ==> s[k].id <= c.id)
    ensures NewestFirst(s[..k] + [c] + s[k..])
    ensures forall x :: x in s[..k] + [c] + s[k..] <==> x in s || x == c
  {
    assert s == s[..k] + s[k..];
    assert forall a :: k <= a < |s| ==> s[a].id < c.id;
  }
}
