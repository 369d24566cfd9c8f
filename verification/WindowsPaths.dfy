/**
 * The file name of a Windows path, as the path library behind is_cmd in make_command_line
 * (piscis-kernel/src/proc_windows_sandbox.rs) finds it: behind a drive, share or device prefix, skipping
 * trailing separators and "." components, and none at all for "..".
 */
module WindowsPaths {
  /** A UTF-16 code unit. */
  newtype u16 = x: int | 0 <= x < 0x1_0000

  type Wide = seq<u16>

  const DOT: u16 := 46
  const SLASH: u16 := 47
  const COLON: u16 := 58
  const QUESTION: u16 := 63
  const BACKSLASH: u16 := 92

  /** A verbatim path is separated by backslashes only. */
  predicate IsSeparator(c: u16, verbatim: bool) { c == BACKSLASH || (c == SLASH && !verbatim) }

  predicate NoSeparator(s: Wide, verbatim: bool) { forall i :: 0 <= i < |s| ==> !IsSeparator(s[i], verbatim) }

  // ----- The prefix

  /** The length of the first component. */
  function FirstLength(s: Wide, verbatim: bool): (n: nat)
    ensures n <= |s| && NoSeparator(s[..n], verbatim)
    ensures n < |s| ==> IsSeparator(s[n], verbatim)
  {
    if s == [] || IsSeparator(s[0], verbatim) then 0 else 1 + FirstLength(s[1..], verbatim)
  }

  predicate IsDrive(s: Wide) {
    |s| >= 2 && (65 <= s[0] <= 90 || 97 <= s[0] <= 122) && s[1] == COLON
  }

  /** Two components and the separator between them, which an absent second one does without. */
  function ShareLength(s: Wide, verbatim: bool): (n: nat)
    ensures n <= |s|
  {
    var server := FirstLength(s, verbatim);
    if server == |s| then server
    else
      var share := FirstLength(s[server + 1..], verbatim);
      if share == 0 then server else server + 1 + share
  }

  /** "\\?\": written with backslashes, or it is no verbatim prefix. */
  predicate IsVerbatim(p: Wide) {
    p[..if |p| < 4 then |p| else 4] == [BACKSLASH, BACKSLASH, QUESTION, BACKSLASH]
  }

  /** "UNC" and a separator, behind a verbatim prefix. */
  predicate IsVerbatimShare(s: Wide) {
    |s| >= 4 && s[..3] == [85, 78, 67] && IsSeparator(s[3], false)
  }

  predicate IsDevice(p: Wide) {
    |p| >= 4 && p[2] == DOT && IsSeparator(p[3], false)
  }

  predicate IsNetwork(p: Wide) {
    |p| >= 2 && IsSeparator(p[0], false) && IsSeparator(p[1], false)
  }

  /** The length of a prefix; nothing in it is ever a file name. */
  function PrefixLength(p: Wide): (n: nat)
    ensures n <= |p|
  {
    if IsVerbatim(p) then
      var rest := p[4..];
      if IsVerbatimShare(rest) then 8 + ShareLength(rest[4..], true)
      else if IsDrive(rest) && (|rest| == 2 || rest[2] == BACKSLASH) then 6
      else 4 + FirstLength(rest, true)
    else if IsNetwork(p) then
      if IsDevice(p) then 4 + FirstLength(p[4..], false)
      else
        var n := FirstLength(p[2..], false);
        if n == 0 || ShareLength(p[2..], false) == n then 0 else 2 + ShareLength(p[2..], false)
    else if IsDrive(p) then 2
    else 0
  }

  // ----- The last component

  function LastLength(s: Wide, verbatim: bool): (n: nat)
    ensures n <= |s| && forall i :: |s| - n <= i < |s| ==> !IsSeparator(s[i], verbatim)
    ensures n < |s| ==> IsSeparator(s[|s| - n - 1], verbatim)
  {
    if s == [] || IsSeparator(s[|s| - 1], verbatim) then 0 else 1 + LastLength(s[..|s| - 1], verbatim)
  }

  /** Empty for a path that ends in a root, a prefix, "..", or a verbatim ".". */
  function LastName(body: Wide, verbatim: bool): Wide
    decreases |body|
  {
    if body == [] then []
    else
      var n := LastLength(body, verbatim);
      var name := body[|body| - n..];
      if n == 0 then LastName(body[..|body| - 1], verbatim)
      else if name == [DOT] then (if verbatim then [] else LastName(body[..|body| - 1], verbatim))
      else if name == [DOT, DOT] then []
      else name
  }

  function FileName(p: Wide): Wide {
    LastName(p[PrefixLength(p)..], IsVerbatim(p))
  }

  // ----- What it finds

  predicate IsName(s: Wide, verbatim: bool) {
    s != [] && s != [DOT] && s != [DOT, DOT] && NoSeparator(s, verbatim)
  }

  /** A path without a prefix, or the body behind one: a directory ending in a separator, or nothing. */
  predicate IsDirectory(s: Wide, verbatim: bool) {
    s == [] || IsSeparator(s[|s| - 1], verbatim)
  }

  /** Trailing separators, and "." components outside verbatim paths. */
  predicate IsTrailer(s: Wide, verbatim: bool) {
    s == [] ||
    (IsSeparator(s[|s| - 1], verbatim) && IsTrailer(s[..|s| - 1], verbatim)) ||
    (!verbatim && s[|s| - 1] == DOT && |s| >= 2 && IsSeparator(s[|s| - 2], verbatim)
     && IsTrailer(s[..|s| - 1], verbatim))
  }

  lemma {:induction false} LastLengthIs(dir: Wide, name: Wide, verbatim: bool)
    requires IsDirectory(dir, verbatim) && NoSeparator(name, verbatim)
    ensures LastLength(dir + name, verbatim) == |name|
  {
    if name == [] {
      assert dir + name == dir;
    } else {
      assert (dir + name)[..|dir + name| - 1] == dir + name[..|name| - 1];
      LastLengthIs(dir, name[..|name| - 1], verbatim);
    }
  }

  /** A component at the end of a body decides its file name. */
  lemma LastNameStep(dir: Wide, name: Wide, verbatim: bool)
    requires IsDirectory(dir, verbatim) && name != [] && NoSeparator(name, verbatim)
    ensures IsName(name, verbatim) ==> LastName(dir + name, verbatim) == name
    ensures name == [DOT] && !verbatim ==> LastName(dir + name, verbatim) == LastName(dir, verbatim)
  {
    var s := dir + name;
    LastLengthIs(dir, name, verbatim);
    assert s[|s| - |name|..] == name;
    assert |name| == 1 ==> s[..|s| - 1] == dir;
  }

  lemma LastNameSkip(s: Wide, c: u16, verbatim: bool)
    requires IsSeparator(c, verbatim)
    ensures LastName(s + [c], verbatim) == LastName(s, verbatim)
  {
    assert (s + [c])[..|s|] == s;
  }

  /** Every name is found, in any directory and behind any trailer. */
  lemma {:induction false} LastNameFinds(dir: Wide, name: Wide, trailer: Wide, verbatim: bool)
    requires IsDirectory(dir, verbatim) && IsName(name, verbatim)
    requires IsTrailer(trailer, verbatim) && (trailer == [] || IsSeparator(trailer[0], verbatim))
    ensures LastName(dir + name + trailer, verbatim) == name
    decreases |trailer|
  {
    if trailer == [] {
      assert dir + name + trailer == dir + name;
      LastNameStep(dir, name, verbatim);
    } else {
      var front, c := trailer[..|trailer| - 1], trailer[|trailer| - 1];
      var before := dir + name + front;
      assert dir + name + trailer == before + [c];
      LastNameFinds(dir, name, front, verbatim);
      if IsSeparator(c, verbatim) {
        LastNameSkip(before, c, verbatim);
      } else {
        assert before[|before| - 1] == front[|front| - 1];
        LastNameStep(before, [DOT], verbatim);
      }
    }
  }

  /** The file name of a path is a name, or the path has none. */
  lemma {:induction false} LastNameIsName(body: Wide, verbatim: bool)
    ensures LastName(body, verbatim) == [] || IsName(LastName(body, verbatim), verbatim)
    decreases |body|
  {
    if body != [] {
      LastNameIsName(body[..|body| - 1], verbatim);
    }
  }

  /** Behind a drive letter a file name is found in any directory, or with none. */
  lemma DriveFileName(letter: u16, dir: Wide, name: Wide, trailer: Wide)
    requires IsDrive([letter, COLON]) && IsDirectory(dir, false) && IsName(name, false)
    requires IsTrailer(trailer, false) && (trailer == [] || IsSeparator(trailer[0], false))
    ensures FileName([letter, COLON] + (dir + name + trailer)) == name
  {
    LastNameFinds(dir, name, trailer, false);
    DriveBody(letter, dir + name + trailer);
  }

  lemma DriveBody(letter: u16, body: Wide)
    requires IsDrive([letter, COLON])
    ensures FileName([letter, COLON] + body) == LastName(body, false)
  {
    var p := [letter, COLON] + body;
    assert p[0] == letter && p[1] == COLON && p[2..] == body;
    assert !IsVerbatim(p) by { assert p[..if |p| < 4 then |p| else 4][0] == letter; }
  }

  /** The share of a network path is no file name. */
  lemma ShareHasNoFileName(server: Wide, share: Wide)
    requires IsName(server, false) && IsName(share, false) && server != [QUESTION]
    ensures FileName([BACKSLASH, BACKSLASH] + server + [BACKSLASH] + share) == []
  {
    var rest := server + [BACKSLASH] + share;
    var p := [BACKSLASH, BACKSLASH] + server + [BACKSLASH] + share;
    assert p[2..] == rest;
    FirstLengthIs(server, [BACKSLASH] + share);
    assert rest == server + ([BACKSLASH] + share);
    assert rest[|server| + 1..] == share;
    FirstLengthIs(share, []);
    assert share + [] == share;
    assert p[2] == server[0];
    assert IsNetwork(p);
    assert |server| == 1 ==> p[3] == BACKSLASH;
    assert |server| > 1 ==> p[3] == server[1];
    assert !IsVerbatim(p) && !IsDevice(p);
    assert PrefixLength(p) == |p|;
  }

  lemma {:induction false} FirstLengthIs(name: Wide, more: Wide)
    requires NoSeparator(name, false) && (more == [] || IsSeparator(more[0], false))
    ensures FirstLength(name + more, false) == |name|
  {
    if name != [] {
      assert (name + more)[1..] == name[1..] + more;
      FirstLengthIs(name[1..], more);
    } else {
      assert name + more == more;
    }
  }
}
