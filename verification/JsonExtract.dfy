/**
 * Finding the JSON in a model's answer (extract_json_array, extract_json_object and strip_code_fence in
 * piscis-kernel/src/agent/summary_worker.rs).
 */
module JsonExtract {
  import opened Common
  import T = Text

  // ----- JSON texts with all their lexical freedom (RFC 8259)

  /** One character of a string literal: itself, a two-character escape, or a \u escape. */
  datatype Piece = Plain(c: char) | Escape(e: char) | Unicode(h0: char, h1: char, h2: char, h3: char)

  /** A JSON text; `before` and `after` are the white space around a value. */
  datatype Text =
    | Atom(token: string)
    | Str(pieces: seq<Piece>)
    | Arr(items: seq<Item>, gap: string)
    | Obj(members: seq<Member>, gap: string)

  datatype Item = Item(before: string, value: Text, after: string)

  datatype Member = Member(beforeKey: string, key: seq<Piece>, afterKey: string, item: Item)

  predicate IsJsonSpace(s: string) {
    forall i :: 0 <= i < |s| ==> s[i] in {' ', '\t', '\n', '\r'}
  }

  predicate IsHex(c: char) { '0' <= c <= '9' || 'a' <= c <= 'f' || 'A' <= c <= 'F' }

  predicate PieceOk(p: Piece) {
    match p
    case Plain(c) => c != '"' && c != '\\' && c >= ' '
    case Escape(e) => e in {'"', '\\', '/', 'b', 'f', 'n', 'r', 't'}
    case Unicode(a, b, c, d) => IsHex(a) && IsHex(b) && IsHex(c) && IsHex(d)
  }

  /** Numbers and the three literal names use only these characters. */
  predicate IsTokenChar(c: char) {
    '0' <= c <= '9' || 'a' <= c <= 'z' || c in {'E', '+', '-', '.'}
  }

  predicate TextOk(t: Text)
    decreases t
  {
    match t
    case Atom(token) => forall i :: 0 <= i < |token| ==> IsTokenChar(token[i])
    case Str(pieces) => forall i :: 0 <= i < |pieces| ==> PieceOk(pieces[i])
    case Arr(items, gap) => IsJsonSpace(gap) && forall i :: 0 <= i < |items| ==> ItemOk(items[i])
    case Obj(members, gap) => IsJsonSpace(gap) && forall i :: 0 <= i < |members| ==> MemberOk(members[i])
  }

  predicate ItemOk(i: Item)
    decreases i
  {
    IsJsonSpace(i.before) && IsJsonSpace(i.after) && TextOk(i.value)
  }

  predicate MemberOk(m: Member)
    decreases m
  {
    && IsJsonSpace(m.beforeKey) && IsJsonSpace(m.afterKey) && ItemOk(m.item)
    && forall i :: 0 <= i < |m.key| ==> PieceOk(m.key[i])
  }

  function PrintPiece(p: Piece): string {
    match p
    case Plain(c) => [c]
    case Escape(e) => ['\\', e]
    case Unicode(a, b, c, d) => ['\\', 'u', a, b, c, d]
  }

  function PrintPieces(pieces: seq<Piece>): string {
    if pieces == [] then "" else PrintPiece(pieces[0]) + PrintPieces(pieces[1..])
  }

  function PrintString(pieces: seq<Piece>): string {
    ['"'] + (PrintPieces(pieces) + ['"'])
  }

  function Print(t: Text): string
    decreases t, 0
  {
    match t
    case Atom(token) => token
    case Str(pieces) => PrintString(pieces)
    case Arr(items, gap) => ['['] + (gap + PrintItems(items)) + [']']
    case Obj(members, gap) => ['{'] + (gap + PrintMembers(members)) + ['}']
  }

  function PrintItem(i: Item): string
    decreases i, 0
  {
    i.before + (Print(i.value) + i.after)
  }

  function PrintItems(items: seq<Item>): string
    decreases items, 0
  {
    if items == [] then ""
    else if |items| == 1 then PrintItem(items[0])
    else PrintItem(items[0]) + ([','] + PrintItems(items[1..]))
  }

  function PrintMember(m: Member): string
    decreases m, 0
  {
    m.beforeKey + (PrintString(m.key) + (m.afterKey + ([':'] + PrintItem(m.item))))
  }

  function PrintMembers(members: seq<Member>): string
    decreases members, 0
  {
    if members == [] then ""
    else if |members| == 1 then PrintMember(members[0])
    else PrintMember(members[0]) + ([','] + PrintMembers(members[1..]))
  }

  // ----- The scanner

  /** The brackets being balanced. */
  datatype Brackets = Brackets(open: char, close: char)

  const SQUARE := Brackets('[', ']')
  const CURLY := Brackets('{', '}')

  datatype Scanner = Scanner(depth: int, inString: bool, escape: bool)

  function Feed(st: Scanner, c: char, k: Brackets): Scanner {
    if st.inString then
      if st.escape then st.(escape := false)
      else if c == '\\' then st.(escape := true)
      else if c == '"' then st.(inString := false)
      else st
    else if c == '"' then st.(inString := true)
    else if c == k.open then st.(depth := st.depth + 1)
    else if c == k.close then st.(depth := st.depth - 1)
    else st
  }

  /** The scanner stops right behind a closing bracket that brings the depth to zero. */
  predicate Stops(st: Scanner, c: char, k: Brackets) {
    !st.inString && c != '"' && c != k.open && c == k.close && st.depth == 1
  }

  /** How many characters the scanner consumes before it stops, if it does. */
  function Scan(s: string, st: Scanner, k: Brackets): Option<nat>
    decreases |s|
  {
    if s == "" then None
    else if Stops(st, s[0], k) then Some(1)
    else
      var r := Scan(s[1..], Feed(st, s[0], k), k);
      if r.Some? then Some(r.value + 1) else None
  }

  function Find(s: string, c: char): Option<nat> {
    if s == "" then None
    else if s[0] == c then Some(0)
    else
      var r := Find(s[1..], c);
      if r.Some? then Some(r.value + 1) else None
  }

  function Extract(s: string, k: Brackets): Option<string> {
    var start := Find(s, k.open);
    if start.None? then None
    else
      FindBound(s, k.open);
      var rest := s[start.value..];
      var n := Scan(rest, Scanner(0, false, false), k);
      if n.None? then None else ScanBound(rest, Scanner(0, false, false), k); Some(rest[..n.value])
  }

  lemma {:induction false} FindBound(s: string, c: char)
    ensures Find(s, c).Some? ==> Find(s, c).value < |s|
  {
    if s != "" && s[0] != c {
      FindBound(s[1..], c);
    }
  }

  lemma {:induction false} ScanBound(s: string, st: Scanner, k: Brackets)
    ensures Scan(s, st, k).Some? ==> Scan(s, st, k).value <= |s|
    decreases |s|
  {
    if s != "" && !Stops(st, s[0], k) {
      ScanBound(s[1..], Feed(st, s[0], k), k);
    }
  }

  // ----- Texts the scanner walks through without stopping

  /** Fed `s` from `st`, the scanner does not stop and ends in `end`. */
  predicate Walks(s: string, st: Scanner, k: Brackets, end: Scanner)
    decreases |s|
  {
    if s == "" then st == end else !Stops(st, s[0], k) && Walks(s[1..], Feed(st, s[0], k), k, end)
  }

  lemma {:induction false} WalksConcat(s: string, t: string, st: Scanner, k: Brackets, mid: Scanner, end: Scanner)
    requires Walks(s, st, k, mid) && Walks(t, mid, k, end)
    ensures Walks(s + t, st, k, end)
    decreases |s|
  {
    if s == "" {
      assert s + t == t;
    } else {
      assert (s + t)[1..] == s[1..] + t;
      WalksConcat(s[1..], t, Feed(st, s[0], k), k, mid, end);
    }
  }

  lemma {:induction false} ScanAfterWalk(s: string, t: string, st: Scanner, k: Brackets, mid: Scanner)
    requires Walks(s, st, k, mid)
    ensures Scan(s + t, st, k) == if Scan(t, mid, k).Some? then Some(|s| + Scan(t, mid, k).value) else None
    decreases |s|
  {
    if s == "" {
      assert s + t == t;
    } else {
      assert (s + t)[1..] == s[1..] + t;
      ScanAfterWalk(s[1..], t, Feed(st, s[0], k), k, mid);
    }
  }

  /** At some positive depth, outside strings. */
  function At(d: nat): Scanner { Scanner(d, false, false) }

  predicate Neutral(c: char) { c !in {'"', '[', ']', '{', '}'} }

  lemma {:induction false} WalksNeutral(s: string, d: nat, k: Brackets)
    requires k in {SQUARE, CURLY}
    requires forall i :: 0 <= i < |s| ==> Neutral(s[i])
    ensures Walks(s, At(d), k, At(d))
  {
    if s != "" {
      assert Neutral(s[0]);
      WalksNeutral(s[1..], d, k);
    }
  }

  lemma WalksPiece(p: Piece, d: nat, k: Brackets)
    requires PieceOk(p)
    ensures Walks(PrintPiece(p), Scanner(d, true, false), k, Scanner(d, true, false))
  {
    var st := Scanner(d, true, false);
    match p
    case Plain(c) => assert [c][1..] == "";
    case Escape(e) => assert ['\\', e][1..] == [e] && [e][1..] == "";
    case Unicode(a, b, c, e) =>
      var s := ['\\', 'u', a, b, c, e];
      assert s[1..] == ['u', a, b, c, e] && ['u', a, b, c, e][1..] == [a, b, c, e];
      assert [a, b, c, e][1..] == [b, c, e] && [b, c, e][1..] == [c, e] && [c, e][1..] == [e] && [e][1..] == "";
      assert Walks([e], st, k, st);
      assert Walks([c, e], st, k, st);
      assert Walks([b, c, e], st, k, st);
      assert Walks([a, b, c, e], st, k, st);
      assert Walks(['u', a, b, c, e], st.(escape := true), k, st);
  }

  lemma {:induction false} WalksPieces(pieces: seq<Piece>, d: nat, k: Brackets)
    requires forall i :: 0 <= i < |pieces| ==> PieceOk(pieces[i])
    ensures Walks(PrintPieces(pieces), Scanner(d, true, false), k, Scanner(d, true, false))
  {
    if pieces != [] {
      var st := Scanner(d, true, false);
      WalksPiece(pieces[0], d, k);
      WalksPieces(pieces[1..], d, k);
      WalksConcat(PrintPiece(pieces[0]), PrintPieces(pieces[1..]), st, k, st, st);
    }
  }

  lemma WalksString(pieces: seq<Piece>, d: nat, k: Brackets)
    requires forall i :: 0 <= i < |pieces| ==> PieceOk(pieces[i])
    ensures Walks(PrintString(pieces), At(d), k, At(d))
  {
    var inside := Scanner(d, true, false);
    WalksPieces(pieces, d, k);
    assert ['"'][1..] == "";
    assert Walks(['"'], inside, k, At(d));
    WalksConcat(PrintPieces(pieces), ['"'], inside, k, inside, At(d));
    assert Walks(['"'], At(d), k, inside);
    WalksConcat(['"'], PrintPieces(pieces) + ['"'], At(d), k, inside, At(d));
  }

  /** One structural character that the scanner ignores. */
  lemma WalksChar(c: char, d: nat, k: Brackets)
    requires k in {SQUARE, CURLY} && Neutral(c)
    ensures Walks([c], At(d), k, At(d))
  {
    WalksNeutral([c], d, k);
  }

  /** A bracketed body at positive depth is walked through whichever brackets are being balanced. */
  lemma WalksBracketed(b: Brackets, body: string, d: nat, k: Brackets)
    requires k in {SQUARE, CURLY} && b in {SQUARE, CURLY} && d >= 1
    requires forall e: nat :: e >= 1 ==> Walks(body, At(e), k, At(e))
    ensures Walks([b.open] + body + [b.close], At(d), k, At(d))
  {
    var inner := if b == k then d + 1 else d;
    assert [b.open][1..] == "" && [b.close][1..] == "";
    assert Walks([b.open], At(d), k, At(inner));
    assert Walks([b.close], At(inner), k, At(d));
    WalksConcat([b.open], body, At(d), k, At(inner), At(inner));
    WalksConcat([b.open] + body, [b.close], At(d), k, At(inner), At(d));
  }

  /** Any JSON text is walked through at any positive depth, whatever its strings contain. */
  lemma {:induction false} WalksText(t: Text, d: nat, k: Brackets)
    requires TextOk(t) && k in {SQUARE, CURLY} && d >= 1
    ensures Walks(Print(t), At(d), k, At(d))
    decreases t, 0
  {
    match t
    case Atom(token) => WalksNeutral(token, d, k);
    case Str(pieces) => WalksString(pieces, d, k);
    case Arr(items, gap) =>
      forall e: nat | e >= 1
        ensures Walks(gap + PrintItems(items), At(e), k, At(e))
      {
        WalksInsideArray(items, gap, e, k);
      }
      WalksBracketed(SQUARE, gap + PrintItems(items), d, k);
    case Obj(members, gap) =>
      forall e: nat | e >= 1
        ensures Walks(gap + PrintMembers(members), At(e), k, At(e))
      {
        WalksInsideObject(members, gap, e, k);
      }
      WalksBracketed(CURLY, gap + PrintMembers(members), d, k);
  }

  lemma {:induction false} WalksInsideArray(items: seq<Item>, gap: string, d: nat, k: Brackets)
    requires IsJsonSpace(gap) && (forall i :: 0 <= i < |items| ==> ItemOk(items[i])) && k in {SQUARE, CURLY} && d >= 1
    ensures Walks(gap + PrintItems(items), At(d), k, At(d))
    decreases items, 1
  {
    WalksNeutral(gap, d, k);
    WalksItems(items, d, k);
    WalksConcat(gap, PrintItems(items), At(d), k, At(d), At(d));
  }

  lemma {:induction false} WalksInsideObject(members: seq<Member>, gap: string, d: nat, k: Brackets)
    requires IsJsonSpace(gap) && (forall i :: 0 <= i < |members| ==> MemberOk(members[i])) && k in {SQUARE, CURLY}
             && d >= 1
    ensures Walks(gap + PrintMembers(members), At(d), k, At(d))
    decreases members, 1
  {
    WalksNeutral(gap, d, k);
    WalksMembers(members, d, k);
    WalksConcat(gap, PrintMembers(members), At(d), k, At(d), At(d));
  }

  lemma {:induction false} WalksItem(i: Item, d: nat, k: Brackets)
    requires ItemOk(i) && k in {SQUARE, CURLY} && d >= 1
    ensures Walks(PrintItem(i), At(d), k, At(d))
    decreases i, 0
  {
    WalksNeutral(i.before, d, k);
    WalksText(i.value, d, k);
    WalksNeutral(i.after, d, k);
    WalksConcat(Print(i.value), i.after, At(d), k, At(d), At(d));
    WalksConcat(i.before, Print(i.value) + i.after, At(d), k, At(d), At(d));
  }

  lemma {:induction false} WalksItems(items: seq<Item>, d: nat, k: Brackets)
    requires (forall i :: 0 <= i < |items| ==> ItemOk(items[i])) && k in {SQUARE, CURLY} && d >= 1
    ensures Walks(PrintItems(items), At(d), k, At(d))
    decreases items, 0
  {
    if items != [] {
      WalksItem(items[0], d, k);
      if |items| > 1 {
        WalksItems(items[1..], d, k);
        WalksChar(',', d, k);
        WalksConcat([','], PrintItems(items[1..]), At(d), k, At(d), At(d));
        WalksConcat(PrintItem(items[0]), [','] + PrintItems(items[1..]), At(d), k, At(d), At(d));
      }
    }
  }

  lemma {:induction false} WalksMember(m: Member, d: nat, k: Brackets)
    requires MemberOk(m) && k in {SQUARE, CURLY} && d >= 1
    ensures Walks(PrintMember(m), At(d), k, At(d))
    decreases m, 0
  {
    var item, at := PrintItem(m.item), At(d);
    WalksItem(m.item, d, k);
    WalksChar(':', d, k);
    WalksConcat([':'], item, at, k, at, at);
    WalksNeutral(m.afterKey, d, k);
    WalksConcat(m.afterKey, [':'] + item, at, k, at, at);
    WalksString(m.key, d, k);
    WalksConcat(PrintString(m.key), m.afterKey + ([':'] + item), at, k, at, at);
    WalksNeutral(m.beforeKey, d, k);
    WalksConcat(m.beforeKey, PrintString(m.key) + (m.afterKey + ([':'] + item)), at, k, at, at);
  }

  lemma {:induction false} WalksMembers(members: seq<Member>, d: nat, k: Brackets)
    requires (forall i :: 0 <= i < |members| ==> MemberOk(members[i])) && k in {SQUARE, CURLY} && d >= 1
    ensures Walks(PrintMembers(members), At(d), k, At(d))
    decreases members, 0
  {
    if members != [] {
      WalksMember(members[0], d, k);
      if |members| > 1 {
        WalksMembers(members[1..], d, k);
        WalksChar(',', d, k);
        WalksConcat([','], PrintMembers(members[1..]), At(d), k, At(d), At(d));
        WalksConcat(PrintMember(members[0]), [','] + PrintMembers(members[1..]), At(d), k, At(d), At(d));
      }
    }
  }

  // ----- Extraction returns exactly the printed text

  lemma {:induction false} FindBehind(pre: string, s: string, c: char)
    requires c !in pre && s != "" && s[0] == c
    ensures Find(pre + s, c) == Some(|pre|)
  {
    if pre == "" {
      assert pre + s == s;
    } else {
      assert (pre + s)[1..] == pre[1..] + s;
      FindBehind(pre[1..], s, c);
    }
  }

  /** A bracketed body from depth zero: the scanner stops exactly behind its closing bracket. */
  lemma ScanBracketed(b: Brackets, body: string, post: string)
    requires b in {SQUARE, CURLY} && Walks(body, At(1), b, At(1))
    ensures Scan([b.open] + body + [b.close] + post, At(0), b) == Some(|body| + 2)
  {
    var s := [b.open] + body;
    assert [b.open][1..] == "";
    assert Walks([b.open], At(0), b, At(1));
    WalksConcat([b.open], body, At(0), b, At(1), At(1));
    var t := [b.close] + post;
    assert s + [b.close] + post == s + t;
    ScanAfterWalk(s, t, At(0), b, At(1));
    assert Scan(t, At(1), b) == Some(1);
  }

  lemma ExtractBracketed(b: Brackets, pre: string, body: string, post: string)
    requires b in {SQUARE, CURLY} && b.open !in pre && Walks(body, At(1), b, At(1))
    ensures var text := [b.open] + body + [b.close];
            Extract(pre + text + post, b) == Some(text)
  {
    var text := [b.open] + body + [b.close];
    var s := pre + text + post;
    var rest := text + post;
    assert s == pre + rest;
    FindBehind(pre, rest, b.open);
    assert s[|pre|..] == rest;
    ScanBracketed(b, body, post);
    assert rest[..|body| + 2] == text;
  }

  function BracketsOf(t: Text): Brackets
    requires t.Arr? || t.Obj?
  {
    if t.Arr? then SQUARE else CURLY
  }

  /** For every JSON array or object, text before it without its opening bracket, and any text behind it. */
  lemma ExtractIsExact(pre: string, t: Text, post: string)
    requires TextOk(t) && (t.Arr? || t.Obj?)
    requires BracketsOf(t).open !in pre
    ensures Extract(pre + Print(t) + post, BracketsOf(t)) == Some(Print(t))
  {
    match t
    case Arr(items, gap) =>
      WalksInsideArray(items, gap, 1, SQUARE);
      ExtractBracketed(SQUARE, pre, gap + PrintItems(items), post);
    case Obj(members, gap) =>
      WalksInsideObject(members, gap, 1, CURLY);
      ExtractBracketed(CURLY, pre, gap + PrintMembers(members), post);
  }

  // ----- Code fences

  function WithoutPrefix(s: string, p: string): string
    requires p <= s
  {
    s[|p|..]
  }

  predicate EndsWith(s: string, p: string) {
    |p| <= |s| && s[|s| - |p|..] == p
  }

  function WithoutSuffix(s: string, p: string): string {
    if EndsWith(s, p) then s[..|s| - |p|] else s
  }

  const FENCE := "```"
  const JSON_FENCE := "```json"

  function StripCodeFence(input: string): string {
    var s := T.Trim(input);
    if JSON_FENCE <= s then T.Trim(WithoutSuffix(WithoutPrefix(s, JSON_FENCE), FENCE))
    else if FENCE <= s then T.Trim(WithoutSuffix(WithoutPrefix(s, FENCE), FENCE))
    else s
  }

  /** A text that neither trimming nor a fence can cut into. */
  predicate Solid(mid: string, open: char) {
    && mid != "" && mid[0] == open && !T.IsSpace(open) && open != '`' && !('a' <= open <= 'z')
    && !T.IsSpace(mid[|mid| - 1]) && mid[|mid| - 1] != '`'
  }

  lemma {:induction false} TrimStartStops(pre: string, rest: string)
    requires rest != "" && !T.IsSpace(rest[0])
    ensures T.TrimStart(pre + rest) == T.TrimStart(pre) + rest
  {
    if pre == "" {
      assert pre + rest == rest;
    } else {
      assert (pre + rest)[1..] == pre[1..] + rest;
      if T.IsSpace(pre[0]) {
        TrimStartStops(pre[1..], rest);
      }
    }
  }

  lemma {:induction false} TrimEndStops(front: string, post: string)
    requires front != "" && !T.IsSpace(front[|front| - 1])
    ensures T.TrimEnd(front + post) == front + T.TrimEnd(post)
  {
    if post == "" {
      assert front + post == front;
    } else {
      assert (front + post)[..|front + post| - 1] == front + post[..|post| - 1];
      if T.IsSpace(post[|post| - 1]) {
        TrimEndStops(front, post[..|post| - 1]);
      }
    }
  }

  lemma {:induction false} TrimStartMembers(s: string, c: char)
    ensures c in T.TrimStart(s) ==> c in s
  {
    if s != "" && T.IsSpace(s[0]) {
      TrimStartMembers(s[1..], c);
    }
  }

  lemma TrimAround(pre: string, mid: string, post: string, open: char)
    requires Solid(mid, open) && open !in pre
    ensures T.Trim(pre + mid + post) == T.TrimStart(pre) + mid + T.TrimEnd(post)
    ensures open !in T.TrimStart(pre)
  {
    assert pre + mid + post == pre + (mid + post);
    TrimStartStops(pre, mid + post);
    var front := T.TrimStart(pre) + mid;
    assert T.TrimStart(pre) + (mid + post) == front + post;
    TrimEndStops(front, post);
    TrimStartMembers(pre, open);
  }

  lemma PrefixStaysOutside(pre: string, rest: string, p: string)
    requires p <= pre + rest && rest != "" && rest[0] !in p
    ensures |p| <= |pre| && WithoutPrefix(pre + rest, p) == pre[|p|..] + rest
  {
    assert (pre + rest)[|pre|] == rest[0];
    assert forall i :: 0 <= i < |p| ==> p[i] == (pre + rest)[i] && p[i] in p;
  }

  lemma SuffixStaysOutside(front: string, post: string)
    requires front != "" && front[|front| - 1] != '`'
    ensures WithoutSuffix(front + post, FENCE) == front + WithoutSuffix(post, FENCE)
  {
    var s := front + post;
    assert s[|front| - 1] != '`';
    assert EndsWith(s, FENCE) ==> forall i :: |s| - 3 <= i < |s| ==> s[i] == s[|s| - 3..][i - (|s| - 3)] == '`';
    assert |post| >= 3 ==> post[|post| - 3..] == s[|s| - 3..];
  }

  lemma FenceAround(pre: string, mid: string, post: string, open: char, fence: string)
    returns (pre': string, post': string)
    requires Solid(mid, open) && open !in pre
    requires fence in {FENCE, JSON_FENCE} && fence <= pre + mid + post
    ensures T.Trim(WithoutSuffix(WithoutPrefix(pre + mid + post, fence), FENCE)) == pre' + mid + post'
    ensures open !in pre'
  {
    assert pre + mid + post == pre + (mid + post);
    assert open !in fence;
    PrefixStaysOutside(pre, mid + post, fence);
    var inner := pre[|fence|..];
    assert inner + (mid + post) == (inner + mid) + post;
    SuffixStaysOutside(inner + mid, post);
    TrimAround(inner, mid, WithoutSuffix(post, FENCE), open);
    pre', post' := T.TrimStart(inner), T.TrimEnd(WithoutSuffix(post, FENCE));
  }

  /** Stripping the fence leaves a solid text whole, between what is left around it. */
  lemma StripFenceAround(pre: string, mid: string, post: string, open: char)
    returns (pre': string, post': string)
    requires Solid(mid, open) && open !in pre
    ensures StripCodeFence(pre + mid + post) == pre' + mid + post'
    ensures open !in pre'
  {
    TrimAround(pre, mid, post, open);
    pre', post' := T.TrimStart(pre), T.TrimEnd(post);
    var s := pre' + mid + post';
    if JSON_FENCE <= s {
      pre', post' := FenceAround(pre', mid, post', open, JSON_FENCE);
    } else if FENCE <= s {
      pre', post' := FenceAround(pre', mid, post', open, FENCE);
    }
  }

  /**
   * Extraction is exact: for every JSON array or object in any lexical form, whatever prose or code fence
   * comes before it (without its opening bracket) and whatever comes behind it, the result is the text itself.
   */
  lemma FencedExtractIsExact(pre: string, t: Text, post: string)
    requires TextOk(t) && (t.Arr? || t.Obj?)
    requires BracketsOf(t).open !in pre
    ensures Extract(StripCodeFence(pre + Print(t) + post), BracketsOf(t)) == Some(Print(t))
  {
    assert Solid(Print(t), BracketsOf(t).open);
    var pre', post' := StripFenceAround(pre, Print(t), post, BracketsOf(t).open);
    ExtractIsExact(pre', t, post');
  }

  lemma {:induction false} ScanEndsOnClose(s: string, st: Scanner, k: Brackets)
    ensures Scan(s, st, k).Some? ==>
              0 < Scan(s, st, k).value <= |s| && s[Scan(s, st, k).value - 1] == k.close
    decreases |s|
  {
    if s != "" && !Stops(st, s[0], k) {
      ScanEndsOnClose(s[1..], Feed(st, s[0], k), k);
    }
  }

  lemma {:induction false} FindIsFirst(s: string, c: char)
    ensures match Find(s, c)
            case Some(i) => i < |s| && s[i] == c && c !in s[..i]
            case None => c !in s
  {
    if s != "" {
      assert s == [s[0]] + s[1..];
      if s[0] != c {
        FindIsFirst(s[1..], c);
        assert Find(s[1..], c).Some? ==> s[..Find(s[1..], c).value + 1] == [s[0]] + s[1..][..Find(s[1..], c).value];
      }
    }
  }

  /** Whatever the text: what is extracted starts at its first opening bracket and ends on a closing one. */
  lemma ExtractIsFromFirst(s: string, k: Brackets)
    ensures k.open !in s ==> Extract(s, k).None?
    ensures Extract(s, k).Some? ==>
              exists i :: 0 <= i < |s| && s[i] == k.open && k.open !in s[..i] &&
                          BracketedAt(s, i, Extract(s, k).value, k)
  {
    FindIsFirst(s, k.open);
    if Find(s, k.open).Some? {
      var i := Find(s, k.open).value;
      ScanEndsOnClose(s[i..], Scanner(0, false, false), k);
    }
  }

  /** `r` stands in `s` at `i` and ends on the closing bracket. */
  predicate BracketedAt(s: string, i: nat, r: string, k: Brackets)
    requires i <= |s|
  {
    r != "" && r <= s[i..] && r[|r| - 1] == k.close
  }

  lemma {:induction false} TrimStartEnds(s: string)
    ensures T.TrimStart(s) == "" || !T.IsSpace(T.TrimStart(s)[0])
  {
    if s != "" && T.IsSpace(s[0]) {
      TrimStartEnds(s[1..]);
    }
  }

  lemma {:induction false} TrimEndEnds(s: string)
    ensures T.TrimEnd(s) <= s
    ensures T.TrimEnd(s) == "" || !T.IsSpace(T.TrimEnd(s)[|T.TrimEnd(s)| - 1])
  {
    if s != "" && T.IsSpace(s[|s| - 1]) {
      TrimEndEnds(s[..|s| - 1]);
    }
  }

  /** A trimmed text has nothing left to trim. */
  lemma TrimTwice(s: string)
    ensures T.Trim(T.Trim(s)) == T.Trim(s)
  {
    TrimStartEnds(s);
    TrimEndEnds(T.TrimStart(s));
  }

  lemma TrimBeforeFence(s: string)
    ensures StripCodeFence(T.Trim(s)) == StripCodeFence(s)
  {
    TrimTwice(s);
  }

  /** The answer holds a JSON text, behind prose or a fence without its opening bracket. */
  predicate Holds(raw: string, pre: string, t: Text) {
    TextOk(t) && (t.Arr? || t.Obj?) && BracketsOf(t).open !in pre && pre + Print(t) <= raw
  }

  lemma HoldsIsExact(raw: string, pre: string, t: Text)
    requires Holds(raw, pre, t)
    ensures Extract(StripCodeFence(raw), BracketsOf(t)) == Some(Print(t))
  {
    var post := raw[|pre + Print(t)|..];
    assert raw == pre + Print(t) + post;
    FencedExtractIsExact(pre, t, post);
  }

  // ----- The methods: the source's scanning loops

  method FindChar(s: string, c: char) returns (r: Option<nat>)
    ensures r == Find(s, c)
  {
    var i := 0;
    assert s[0..] == s;
    while i < |s|
      invariant 0 <= i <= |s|
      invariant Find(s, c) == if Find(s[i..], c).Some? then Some(i + Find(s[i..], c).value) else None
    {
      assert s[i..][1..] == s[i + 1..];
      if s[i] == c {
        return Some(i);
      }
      i := i + 1;
    }
    return None;
  }

  method ExtractBalanced(s: string, k: Brackets) returns (r: Option<string>)
    requires k in {SQUARE, CURLY}
    ensures r == Extract(s, k)
  {
    var start := FindChar(s, k.open);
    if start.None? {
      return None;
    }
    FindBound(s, k.open);
    var rest := s[start.value..];
    var depth, inString, escape := 0, false, false;
    ghost var init := At(0);
    var i := 0;
    assert rest[0..] == rest;
    while i < |rest|
      invariant 0 <= i <= |rest|
      invariant var tail := Scan(rest[i..], Scanner(depth, inString, escape), k);
                Scan(rest, init, k) == if tail.Some? then Some(i + tail.value) else None
    {
      var b := rest[i];
      assert rest[i..][1..] == rest[i + 1..];
      i := i + 1;
      if inString {
        if escape {
          escape := false;
        } else if b == '\\' {
          escape := true;
        } else if b == '"' {
          inString := false;
        }
        continue;
      }
      if b == '"' {
        inString := true;
      } else if b == k.open {
        depth := depth + 1;
      } else if b == k.close {
        depth := depth - 1;
        if depth == 0 {
          return Some(rest[..i]);
        }
      }
    }
    return None;
  }

  /** extract_json_array: strip the fence, find the array. Every array the text holds comes out whole. */
  method ExtractJsonArray(s: string) returns (r: Option<string>)
    ensures r == Extract(StripCodeFence(s), SQUARE)
    ensures forall pre, t :: Holds(s, pre, t) && t.Arr? ==> r == Some(Print(t))
  {
    r := ExtractBalanced(StripCodeFence(s), SQUARE);
    forall pre, t | Holds(s, pre, t) && t.Arr? ensures r == Some(Print(t)) {
      HoldsIsExact(s, pre, t);
    }
  }

  /** The object path of parse_structured_summary: trim, strip the fence, find the object. */
  method ExtractJsonObject(raw: string) returns (r: Option<string>)
    ensures r == Extract(StripCodeFence(raw), CURLY)
    ensures forall pre, t :: Holds(raw, pre, t) && t.Obj? ==> r == Some(Print(t))
  {
    r := ExtractBalanced(StripCodeFence(T.Trim(raw)), CURLY);
    TrimBeforeFence(raw);
    forall pre, t | Holds(raw, pre, t) && t.Obj? ensures r == Some(Print(t)) {
      HoldsIsExact(raw, pre, t);
    }
  }
}
