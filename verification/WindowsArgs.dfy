/**
 * Windows command lines (quote_windows_arg and make_command_line in
 * piscis-kernel/src/proc_windows_sandbox.rs), read back by the Microsoft C argument rules.
 */
module WindowsArgs {
  import opened Common
  import opened WindowsPaths

  const TAB: u16 := 9
  const SPACE: u16 := 32
  const QUOTE: u16 := 34
  const NUL: u16 := 0

  // ----- The reader: how a C program splits the argument part of its command line

  /**
   * Between arguments, in a bare argument, inside quotes, or just behind a quote that may still turn out to be
   * doubled.
   */
  datatype Mode = Gap | Bare | Quoted | AfterQuote

  /** `slashes` counts backslashes whose meaning depends on what follows. */
  datatype Reader = Reader(args: seq<Wide>, current: Wide, mode: Mode, slashes: nat)

  function Backslashes(n: nat): (w: Wide)
    ensures |w| == n
  {
    seq(n, _ => BACKSLASH)
  }

  /** One code unit: 2n backslashes and a quote are n backslashes and a delimiter, 2n+1 are n and a literal quote. */
  function Read(r: Reader, c: u16): Reader {
    if c == BACKSLASH then
      r.(mode := if r.mode == Gap || r.mode == AfterQuote then Bare else r.mode, slashes := r.slashes + 1)
    else if c == QUOTE then
      var text := r.current + Backslashes(r.slashes / 2);
      if r.slashes % 2 == 1 then
        r.(current := text + [QUOTE], mode := if r.mode == Gap then Bare else r.mode, slashes := 0)
      else if r.mode == AfterQuote then r.(current := text + [QUOTE], mode := Quoted, slashes := 0)
      else if r.mode == Quoted then r.(current := text, mode := AfterQuote, slashes := 0)
      else r.(current := text, mode := Quoted, slashes := 0)
    else
      var text := r.current + Backslashes(r.slashes);
      if (c == SPACE || c == TAB) && r.mode != Quoted then
        if r.mode == Gap then r else Reader(r.args + [text], [], Gap, 0)
      else
        r.(current := text + [c], mode := if r.mode == Quoted then Quoted else Bare, slashes := 0)
  }

  function ReadAll(r: Reader, s: Wide): Reader
    decreases |s|
  {
    if s == [] then r else ReadAll(Read(r, s[0]), s[1..])
  }

  /** What the end of the line makes of the argument being read. */
  function Finish(r: Reader): seq<Wide> {
    if r.mode == Gap then r.args else r.args + [r.current + Backslashes(r.slashes)]
  }

  /** A command line ends at its first NUL. */
  function UpToNul(s: Wide): Wide {
    if s == [] || s[0] == NUL then [] else [s[0]] + UpToNul(s[1..])
  }

  function SplitArgs(s: Wide): seq<Wide> {
    Finish(ReadAll(Reader([], [], Gap, 0), UpToNul(s)))
  }

  lemma {:induction false} ReadAllConcat(r: Reader, s: Wide, t: Wide)
    ensures ReadAll(r, s + t) == ReadAll(ReadAll(r, s), t)
    decreases |s|
  {
    if s == [] {
      assert s + t == t;
    } else {
      assert (s + t)[1..] == s[1..] + t;
      ReadAllConcat(Read(r, s[0]), s[1..], t);
    }
  }

  lemma ReadLast(r: Reader, s: Wide, c: u16)
    ensures ReadAll(r, s + [c]) == Read(ReadAll(r, s), c)
  {
    ReadAllConcat(r, s, [c]);
    assert [c][1..] == [];
  }

  // ----- The writer

  predicate NeedsQuotes(arg: Wide) {
    exists i :: 0 <= i < |arg| && (arg[i] == SPACE || arg[i] == TAB || arg[i] == QUOTE)
  }

  /** Trailing backslashes of a prefix, which the writer holds back. */
  function Trailing(s: Wide): (n: nat)
    ensures n <= |s|
    ensures forall i :: |s| - n <= i < |s| ==> s[i] == BACKSLASH
  {
    if s == [] || s[|s| - 1] != BACKSLASH then 0 else 1 + Trailing(s[..|s| - 1])
  }

  /** What the writer has put out, after the opening quote, once it has consumed `s`. */
  function Escaped(s: Wide): Wide {
    if s == [] then []
    else
      var init, c := s[..|s| - 1], s[|s| - 1];
      var n := Trailing(init);
      if c == BACKSLASH then Escaped(init)
      else if c == QUOTE then Escaped(init) + Backslashes(n * 2 + 1) + [QUOTE]
      else Escaped(init) + Backslashes(n) + [c]
  }

  function QuotedArg(arg: Wide): Wide {
    if NeedsQuotes(arg) then [QUOTE] + Escaped(arg) + Backslashes(Trailing(arg) * 2) + [QUOTE] else arg
  }

  /** What is put out with one more unit consumed. */
  lemma EscapedStep(input: Wide, i: nat, out: Wide)
    requires i < |input| && out == [QUOTE] + Escaped(input[..i])
    ensures var c, n := input[i], Trailing(input[..i]);
            && Trailing(input[..i + 1]) == (if c == BACKSLASH then n + 1 else 0)
            && [QUOTE] + Escaped(input[..i + 1]) ==
               if c == BACKSLASH then out
               else if c == QUOTE then out + Backslashes(n * 2 + 1) + [QUOTE]
               else out + Backslashes(n) + [c]
  {
    assert input[..i + 1][..i] == input[..i];
  }

  method QuoteWindowsArg(input: Wide) returns (out: Wide)
    ensures out == QuotedArg(input)
  {
    if !NeedsQuotes(input) {
      return input;
    }
    out := [QUOTE];
    var backslashes := 0;
    var i := 0;
    while i < |input|
      invariant 0 <= i <= |input|
      invariant backslashes == Trailing(input[..i])
      invariant out == [QUOTE] + Escaped(input[..i])
    {
      var ch := input[i];
      EscapedStep(input, i, out);
      if ch == BACKSLASH {
        backslashes := backslashes + 1;
      } else if ch == QUOTE {
        out := out + Backslashes(backslashes * 2 + 1);
        out := out + [QUOTE];
        backslashes := 0;
      } else {
        out := out + Backslashes(backslashes);
        backslashes := 0;
        out := out + [ch];
      }
      i := i + 1;
    }
    assert input[..i] == input;
    out := out + Backslashes(backslashes * 2);
    out := out + [QUOTE];
  }

  // ----- Reading back one argument

  lemma {:induction false} ReadBackslashes(r: Reader, n: nat)
    requires r.mode == Quoted || r.mode == Bare
    ensures ReadAll(r, Backslashes(n)) == r.(slashes := r.slashes + n)
    decreases n
  {
    if n > 0 {
      assert Backslashes(n)[1..] == Backslashes(n - 1);
      ReadBackslashes(r.(slashes := r.slashes + 1), n - 1);
    }
  }

  function Body(s: Wide): Wide {
    s[..|s| - Trailing(s)]
  }

  lemma TrailingIsBackslashes(s: Wide)
    ensures s == Body(s) + Backslashes(Trailing(s))
  {
  }

  /** Inside quotes, the escaped text of `s` reads back as `s` up to the backslashes still held back. */
  lemma {:induction false} ReadEscaped(args: seq<Wide>, s: Wide)
    ensures ReadAll(Reader(args, [], Quoted, 0), Escaped(s)) == Reader(args, Body(s), Quoted, 0)
  {
    var r := Reader(args, [], Quoted, 0);
    if s != [] {
      var init, c := s[..|s| - 1], s[|s| - 1];
      var n := Trailing(init);
      var mid := Reader(args, Body(init), Quoted, 0);
      ReadEscaped(args, init);
      TrailingIsBackslashes(init);
      if c == BACKSLASH {
        assert Body(s) == Body(init);
      } else {
        var k := if c == QUOTE then n * 2 + 1 else n;
        assert Escaped(s) == Escaped(init) + (Backslashes(k) + [c]);
        ReadAllConcat(r, Escaped(init), Backslashes(k) + [c]);
        ReadEscapedUnit(mid, n, c);
        assert Body(s) == s == Body(init) + Backslashes(n) + [c];
      }
    }
  }

  /** A unit that is no backslash, behind the `n` backslashes the writer held back for it. */
  lemma ReadEscapedUnit(r: Reader, n: nat, c: u16)
    requires r.mode == Quoted && r.slashes == 0 && c != BACKSLASH
    ensures var k := if c == QUOTE then n * 2 + 1 else n;
            ReadAll(r, Backslashes(k) + [c]) == r.(current := r.current + Backslashes(n) + [c])
  {
    var k := if c == QUOTE then n * 2 + 1 else n;
    ReadLast(r, Backslashes(k), c);
    ReadBackslashes(r, k);
  }

  lemma PlainInit(s: Wide)
    requires |s| > 1 && !NeedsQuotes(s)
    ensures !NeedsQuotes(s[..|s| - 1])
  {
    var init := s[..|s| - 1];
    assert forall i :: 0 <= i < |init| ==> init[i] == s[i];
  }

  lemma {:induction false} ReadBare(args: seq<Wide>, s: Wide)
    requires s != [] && !NeedsQuotes(s)
    ensures ReadAll(Reader(args, [], Gap, 0), s) == Reader(args, Body(s), Bare, Trailing(s))
  {
    var init, c := s[..|s| - 1], s[|s| - 1];
    assert s == init + [c];
    var r := Reader(args, [], Gap, 0);
    ReadLast(r, init, c);
    if init == [] {
      BareStep(r, s);
    } else {
      PlainInit(s);
      ReadBare(args, init);
      BareStep(Reader(args, Body(init), Bare, Trailing(init)), s);
    }
  }

  lemma BareStep(r: Reader, s: Wide)
    requires s != [] && !NeedsQuotes(s)
    requires var init := s[..|s| - 1];
             r.current == Body(init) && r.slashes == Trailing(init) && (r.mode == Bare || (r.mode == Gap && init == []))
    ensures Read(r, s[|s| - 1]) == Reader(r.args, Body(s), Bare, Trailing(s))
  {
    TrailingIsBackslashes(s[..|s| - 1]);
  }

  /** Reading one written argument and finishing, or meeting a space, yields exactly that argument. */
  lemma ReadOneArg(args: seq<Wide>, arg: Wide)
    requires arg != []
    ensures var r := ReadAll(Reader(args, [], Gap, 0), QuotedArg(arg));
            Finish(r) == args + [arg] && Read(r, SPACE) == Reader(args + [arg], [], Gap, 0)
  {
    TrailingIsBackslashes(arg);
    if NeedsQuotes(arg) {
      ReadQuoted(args, arg);
      assert arg + Backslashes(0) == arg;
    } else {
      ReadBare(args, arg);
    }
  }

  lemma ReadQuoted(args: seq<Wide>, arg: Wide)
    requires NeedsQuotes(arg)
    ensures ReadAll(Reader(args, [], Gap, 0), QuotedArg(arg)) == Reader(args, arg, AfterQuote, 0)
  {
    var closing := Backslashes(Trailing(arg) * 2) + [QUOTE];
    assert QuotedArg(arg) == [QUOTE] + (Escaped(arg) + closing);
    ReadOpening(args, Escaped(arg) + closing);
    ReadAllConcat(Reader(args, [], Quoted, 0), Escaped(arg), closing);
    ReadEscaped(args, arg);
    ReadClosing(Reader(args, Body(arg), Quoted, 0), Trailing(arg));
    TrailingIsBackslashes(arg);
  }

  /** Doubled backslashes and a quote, at the end of quoted text. */
  lemma ReadClosing(r: Reader, n: nat)
    requires r.mode == Quoted && r.slashes == 0
    ensures ReadAll(r, Backslashes(n * 2) + [QUOTE])
            == r.(current := r.current + Backslashes(n), mode := AfterQuote)
  {
    ReadLast(r, Backslashes(n * 2), QUOTE);
    ReadBackslashes(r, n * 2);
  }

  lemma ReadOpening(args: seq<Wide>, inside: Wide)
    ensures ReadAll(Reader(args, [], Gap, 0), [QUOTE] + inside) == ReadAll(Reader(args, [], Quoted, 0), inside)
  {
    var start := Reader(args, [], Gap, 0);
    assert start.current + Backslashes(0) == [];
    assert Read(start, QUOTE) == Reader(args, [], Quoted, 0);
    assert ([QUOTE] + inside)[1..] == inside;
  }

  // ----- The whole line

  function Lower(c: u16): u16 {
    if 65 <= c <= 90 then c + 32 else c
  }

  predicate EqIgnoreCase(a: Wide, b: Wide) {
    |a| == |b| && forall i :: 0 <= i < |a| ==> Lower(a[i]) == Lower(b[i])
  }

  /** "/c" or "/k", after which cmd takes the rest of the line verbatim. */
  predicate IsSwitch(arg: Wide) {
    EqIgnoreCase(arg, [SLASH, 99]) || EqIgnoreCase(arg, [SLASH, 107])
  }

  /** "cmd" or "cmd.exe", in any case. */
  predicate IsCmdName(name: Wide) {
    EqIgnoreCase(name, [99, 109, 100]) || EqIgnoreCase(name, [99, 109, 100, 46, 101, 120, 101])
  }

  predicate IsCmd(program: Wide) { IsCmdName(FileName(program)) }

  /** The arguments as written behind the program; once `raw` is set they go out verbatim. */
  function Tail(isCmd: bool, args: seq<Wide>, raw: bool): Wide {
    if args == [] then []
    else [SPACE] + ((if raw then args[0] else QuotedArg(args[0]))
                    + Tail(isCmd, args[1..], raw || (isCmd && IsSwitch(args[0]))))
  }

  function CommandLine(program: Wide, args: seq<Wide>): Wide {
    QuotedArg(program) + Tail(IsCmd(program), args, false) + [NUL]
  }

  method MakeCommandLine(program: Wide, args: seq<Wide>) returns (line: Wide)
    ensures line == CommandLine(program, args)
  {
    var isCmd := IsCmd(program);
    var raw := false;
    line := QuoteWindowsArg(program);
    ghost var head := line;
    var i := 0;
    assert args[0..] == args;
    while i < |args|
      invariant 0 <= i <= |args|
      invariant line + Tail(isCmd, args[i..], raw) == head + Tail(isCmd, args, false)
    {
      assert args[i..][1..] == args[i + 1..];
      var piece := args[i];
      if !raw {
        piece := QuoteWindowsArg(args[i]);
      }
      var raw' := raw || (isCmd && IsSwitch(args[i]));
      Regroup(line, [SPACE], piece, Tail(isCmd, args[i + 1..], raw'));
      line := line + [SPACE];
      line := line + piece;
      raw := raw';
      i := i + 1;
    }
    assert args[i..] == [];
    line := line + [NUL];
  }

  /** The raw flag stays off: the program is not cmd, or no argument but the last is a switch. */
  predicate NeverRaw(isCmd: bool, args: seq<Wide>) {
    !isCmd || forall i :: 0 <= i < |args| - 1 ==> !IsSwitch(args[i])
  }

  function NonEmpty(args: seq<Wide>): seq<Wide> {
    if args == [] then [] else Given(args[0]) + NonEmpty(args[1..])
  }

  /** What a reader makes of one written argument: nothing, if it was empty. */
  function Given(arg: Wide): seq<Wide> { if arg == [] then [] else [arg] }

  predicate NulFree(s: Wide) { NUL !in s }

  /** Every list of arguments reads back as its non-empty members, in order. */
  lemma {:induction false} ReadTail(isCmd: bool, done: seq<Wide>, args: seq<Wide>)
    requires NeverRaw(isCmd, args)
    ensures ReadOn(done, Tail(isCmd, args, false)) == done + NonEmpty(args)
    decreases |args|
  {
    if args != [] {
      var arg, rest := args[0], args[1..];
      TailCons(isCmd, args);
      ReadFirst(done, arg, Tail(isCmd, rest, false));
      ReadTail(isCmd, done + Given(arg), rest);
      NonEmptyCons(done, args);
    } else {
      ReadNothing(done);
    }
  }

  lemma NonEmptyCons(done: seq<Wide>, args: seq<Wide>)
    requires args != []
    ensures done + Given(args[0]) + NonEmpty(args[1..]) == done + NonEmpty(args)
  {
  }

  /** The arguments read in all, with `done` behind and `s` ahead. */
  function ReadOn(done: seq<Wide>, s: Wide): seq<Wide> { Finish(ReadAll(Reader(done, [], Gap, 0), s)) }

  lemma ReadNothing(done: seq<Wide>)
    ensures ReadOn(done, []) == done + []
  {
  }

  lemma TailCons(isCmd: bool, args: seq<Wide>)
    requires args != [] && NeverRaw(isCmd, args)
    ensures NeverRaw(isCmd, args[1..])
    ensures Tail(isCmd, args, false) == [SPACE] + (QuotedArg(args[0]) + Tail(isCmd, args[1..], false))
    ensures Tail(isCmd, args[1..], false) == [] || Tail(isCmd, args[1..], false)[0] == SPACE
  {
    var rest := args[1..];
    if rest != [] {
      assert isCmd ==> !IsSwitch(args[0]);
    }
  }

  /** One written argument in front of a remainder that is empty or starts with a space. */
  lemma ReadFirst(done: seq<Wide>, arg: Wide, more: Wide)
    requires more == [] || more[0] == SPACE
    ensures ReadOn(done, [SPACE] + (QuotedArg(arg) + more)) == ReadOn(done + Given(arg), more)
  {
    var r := Reader(done, [], Gap, 0);
    ReadAllConcat(r, [SPACE], QuotedArg(arg) + more);
    assert [SPACE][1..] == [] && ReadAll(r, [SPACE]) == r;
    ReadAllConcat(r, QuotedArg(arg), more);
    assert done + [] == done;
    if arg != [] {
      ReadOneArg(done, arg);
      var next := Reader(done + [arg], [], Gap, 0);
      if more != [] {
        assert ReadAll(ReadAll(r, QuotedArg(arg)), more) == ReadAll(next, more[1..]);
        assert Read(next, SPACE) == next;
      }
    }
  }

  lemma {:induction false} EscapedNulFree(s: Wide)
    requires NulFree(s)
    ensures NulFree(Escaped(s))
  {
    if s != [] {
      assert s[|s| - 1] in s;
      EscapedNulFree(s[..|s| - 1]);
    }
  }

  lemma {:induction false} TailNulFree(isCmd: bool, args: seq<Wide>, raw: bool)
    requires forall a :: a in args ==> NulFree(a)
    ensures NulFree(Tail(isCmd, args, raw))
  {
    if args != [] {
      EscapedNulFree(args[0]);
      TailNulFree(isCmd, args[1..], raw || (isCmd && IsSwitch(args[0])));
    }
  }

  lemma {:induction false} UpToNulStops(s: Wide)
    requires NulFree(s)
    ensures UpToNul(s + [NUL]) == s
  {
    if s != [] {
      assert (s + [NUL])[1..] == s[1..] + [NUL];
      UpToNulStops(s[1..]);
    }
  }

  lemma {:induction false} UpToNulIsNulFree(s: Wide)
    ensures NulFree(UpToNul(s))
  {
    if s != [] && s[0] != NUL {
      UpToNulIsNulFree(s[1..]);
    }
  }

  predicate ReaderNulFree(r: Reader) {
    NulFree(r.current) && forall a :: a in r.args ==> NulFree(a)
  }

  lemma {:induction false} ReadsNoNul(r: Reader, s: Wide)
    requires ReaderNulFree(r) && NulFree(s)
    ensures ReaderNulFree(ReadAll(r, s))
    decreases |s|
  {
    if s != [] {
      assert s[0] in s;
      ReadsNoNul(Read(r, s[0]), s[1..]);
    }
  }

  /** The part of the line behind the program, with its terminator. */
  function ArgumentPart(program: Wide, args: seq<Wide>): Wide {
    CommandLine(program, args)[|QuotedArg(program)|..]
  }

  /**
   * Quoting round-trips. For every program and argument list for which cmd's verbatim mode is never
   * entered, the C argument rules read the written line back as exactly the original arguments if and only
   * if every argument is non-empty and free of NUL.
   */
  lemma QuotingRoundTripsIff(program: Wide, args: seq<Wide>)
    requires NeverRaw(IsCmd(program), args)
    ensures SplitArgs(ArgumentPart(program, args)) == args <==> forall a :: a in args ==> a != [] && NulFree(a)
  {
    ArgumentPartIs(program, args);
    TailRoundTripsIff(IsCmd(program), args);
  }

  lemma ArgumentPartIs(program: Wide, args: seq<Wide>)
    ensures ArgumentPart(program, args) == Tail(IsCmd(program), args, false) + [NUL]
  {
    Behind(QuotedArg(program), Tail(IsCmd(program), args, false), [NUL]);
  }

  lemma Behind(a: Wide, b: Wide, c: Wide)
    ensures (a + b + c)[|a|..] == b + c
  {
  }

  lemma TailRoundTripsIff(isCmd: bool, args: seq<Wide>)
    requires NeverRaw(isCmd, args)
    ensures SplitArgs(Tail(isCmd, args, false) + [NUL]) == args <==> forall a :: a in args ==> a != [] && NulFree(a)
  {
    var tail := Tail(isCmd, args, false);
    if forall a :: a in args ==> NulFree(a) {
      TailNulFree(isCmd, args, false);
      UpToNulStops(tail);
      ReadTail(isCmd, [], args);
      assert [] + NonEmpty(args) == NonEmpty(args);
      NonEmptyIsSame(args);
    } else {
      UpToNulIsNulFree(tail + [NUL]);
      ReadsNoNul(Reader([], [], Gap, 0), UpToNul(tail + [NUL]));
      assert forall a :: a in SplitArgs(tail + [NUL]) ==> NulFree(a);
    }
  }

  lemma {:induction false} NonEmptyIsSame(args: seq<Wide>)
    ensures |NonEmpty(args)| <= |args|
    ensures NonEmpty(args) == args <==> forall a :: a in args ==> a != []
  {
    if args != [] {
      NonEmptyIsSame(args[1..]);
      assert args == [args[0]] + args[1..];
      assert args[0] in args && forall a :: a in args <==> a == args[0] || a in args[1..];
      if args[0] != [] {
        assert NonEmpty(args)[1..] == NonEmpty(args[1..]);
      }
    }
  }

  // ----- cmd's verbatim mode

  function Spaced(args: seq<Wide>): Wide {
    if args == [] then [] else [SPACE] + (args[0] + Spaced(args[1..]))
  }

  /** Once the flag is on every argument goes out verbatim. */
  lemma {:induction false} RawIsSpaced(args: seq<Wide>)
    ensures Tail(true, args, true) == Spaced(args)
  {
    if args != [] {
      RawIsSpaced(args[1..]);
    }
  }

  /** Argument `k` is the first switch. */
  predicate FirstSwitch(args: seq<Wide>, k: nat) {
    k < |args| && IsSwitch(args[k]) && forall i :: 0 <= i < k ==> !IsSwitch(args[i])
  }

  lemma {:induction false} TailAtSwitch(args: seq<Wide>, k: nat)
    requires FirstSwitch(args, k)
    ensures Tail(true, args, false) == Tail(true, args[..k + 1], false) + Spaced(args[k + 1..])
  {
    var rest, front := args[1..], args[..k + 1];
    assert front[0] == args[0] && front[1..] == rest[..k] && rest[k..] == args[k + 1..];
    if k == 0 {
      RawIsSpaced(rest);
      assert Tail(true, front[1..], true) == [];
      Append([SPACE], QuotedArg(args[0]), [], Spaced(rest));
    } else {
      assert FirstSwitch(rest, k - 1) && !IsSwitch(args[0]);
      TailAtSwitch(rest, k - 1);
      Append([SPACE], QuotedArg(args[0]), Tail(true, front[1..], false), Spaced(rest[k..]));
    }
  }

  lemma Append(a: Wide, b: Wide, c: Wide, d: Wide)
    ensures a + (b + (c + d)) == a + (b + c) + d
    ensures [] + d == d
  {
  }

  lemma RegroupLine(a: Wide, b: Wide, c: Wide)
    ensures a + (b + c) + [NUL] == a + b + c + [NUL]
  {
  }

  /**
   * What cmd is given: for a program that is cmd and any arguments whose first switch is at `k`, the line
   * is the quoted program, the arguments up to the switch quoted so that they read back, and then every
   * later argument verbatim behind a space, up to the terminator.
   */
  lemma RawTailIsVerbatim(program: Wide, args: seq<Wide>, k: nat)
    requires IsCmd(program) && FirstSwitch(args, k)
    ensures var quoted := Tail(true, args[..k + 1], false);
            && CommandLine(program, args) == QuotedArg(program) + quoted + Spaced(args[k + 1..]) + [NUL]
            && ReadOn([], quoted) == NonEmpty(args[..k + 1])
  {
    TailAtSwitch(args, k);
    RegroupLine(QuotedArg(program), Tail(true, args[..k + 1], false), Spaced(args[k + 1..]));
    ReadTail(true, [], args[..k + 1]);
    assert [] + NonEmpty(args[..k + 1]) == NonEmpty(args[..k + 1]);
  }

  /** On any drive, in any directory or none, and behind any trailing "." components, cmd is recognised. */
  lemma CmdOnDrive(letter: u16, dir: Wide, name: Wide, trailer: Wide)
    requires IsDrive([letter, COLON]) && IsDirectory(dir, false) && IsCmdName(name)
    requires IsTrailer(trailer, false) && (trailer == [] || IsSeparator(trailer[0], false))
    ensures IsCmd([letter, COLON] + (dir + name + trailer))
  {
    assert NoSeparator(name, false) by {
      assert forall i :: 0 <= i < |name| ==> Lower(name[i]) >= 97 || name[i] == DOT;
    }
    DriveFileName(letter, dir, name, trailer);
  }
}
