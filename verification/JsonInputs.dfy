/** Every JSON text, in any lexical form, is one that call signatures can tell apart. */
module JsonInputs {
  import opened CallSignatures
  import opened JsonExtract

  /** Reading the text outside a string leads back outside, wherever it stands. */
  predicate Passes(s: string) {
    forall colon :: PassAll(Outside(colon), s).Outside?
  }

  lemma PassesConcat(a: string, b: string)
    requires Passes(a) && Passes(b)
    ensures Passes(a + b)
  {
    forall colon { PassesOn(a, b, colon); }
  }

  lemma PassesOn(a: string, b: string, colon: bool)
    requires PassAll(Outside(colon), a).Outside? && Passes(b)
    ensures PassAll(Outside(colon), a + b).Outside?
  {
    var p := PassAll(Outside(colon), a);
    assert p == Outside(p.colon);
    PassAllConcat(Outside(colon), a, b);
  }

  /** Characters that mean nothing to quotes and colons. */
  predicate IsQuiet(s: string) { forall i :: 0 <= i < |s| ==> s[i] !in {'"', '\\', ':'} }

  lemma {:induction false} QuietPasses(s: string, colon: bool)
    requires IsQuiet(s)
    ensures PassAll(Outside(colon), s) == Outside(colon && s == "")
    decreases |s|
  {
    if s != "" {
      QuietPasses(s[1..], false);
    }
  }

  lemma QuietIsPassed(s: string)
    requires IsQuiet(s)
    ensures Passes(s)
  {
    forall colon { QuietPasses(s, colon); }
  }

  lemma PiecePasses(p: Piece)
    requires PieceOk(p)
    ensures PassAll(Inside(false), PrintPiece(p)) == Inside(false)
  {
    var s := PrintPiece(p);
    match p
    case Plain(c) => assert s[1..] == "";
    case Escape(e) => assert s[1..] == [e] && [e][1..] == "";
    case Unicode(a, b, c, d) =>
      var digits := ['u', a, b, c, d];
      assert s[1..] == digits && digits[1..] == [a, b, c, d];
      InsidePasses([a, b, c, d]);
  }

  lemma {:induction false} InsidePasses(s: string)
    requires forall i :: 0 <= i < |s| ==> s[i] !in {'"', '\\'}
    ensures PassAll(Inside(false), s) == Inside(false)
  {
    if s != "" {
      InsidePasses(s[1..]);
    }
  }

  lemma {:induction false} PiecesPass(pieces: seq<Piece>)
    requires forall i :: 0 <= i < |pieces| ==> PieceOk(pieces[i])
    ensures PassAll(Inside(false), PrintPieces(pieces)) == Inside(false)
  {
    if pieces != [] {
      PiecesPass(pieces[1..]);
      PiecePasses(pieces[0]);
      PassAllConcat(Inside(false), PrintPiece(pieces[0]), PrintPieces(pieces[1..]));
    }
  }

  lemma StringPasses(pieces: seq<Piece>, colon: bool)
    requires forall i :: 0 <= i < |pieces| ==> PieceOk(pieces[i])
    ensures PassAll(Outside(colon), PrintString(pieces)) == Outside(false)
  {
    var inner := PrintPieces(pieces) + ['"'];
    assert (['"'] + inner)[1..] == inner;
    PiecesPass(pieces);
    PassAllConcat(Inside(false), PrintPieces(pieces), ['"']);
    assert ['"'][1..] == "";
  }

  lemma {:induction false} TextPasses(t: Text)
    requires TextOk(t)
    ensures Passes(Print(t))
    decreases t, 0
  {
    match t
    case Atom(token) => QuietIsPassed(token);
    case Str(pieces) =>
      forall colon { StringPasses(pieces, colon); }
    case Arr(items, gap) =>
      ItemsPass(items);
      BracketsPass(['['], gap, PrintItems(items), [']']);
    case Obj(members, gap) =>
      MembersPass(members);
      BracketsPass(['{'], gap, PrintMembers(members), ['}']);
  }

  lemma BracketsPass(open: string, gap: string, inner: string, close: string)
    requires IsQuiet(open) && IsJsonSpace(gap) && Passes(inner) && IsQuiet(close)
    ensures Passes(open + (gap + inner) + close)
  {
    QuietIsPassed(open);
    QuietIsPassed(gap);
    QuietIsPassed(close);
    PassesConcat(gap, inner);
    PassesConcat(open, gap + inner);
    PassesConcat(open + (gap + inner), close);
  }

  lemma {:induction false} ItemPasses(i: Item)
    requires ItemOk(i)
    ensures Passes(PrintItem(i))
    decreases i, 0
  {
    TextPasses(i.value);
    QuietIsPassed(i.before);
    QuietIsPassed(i.after);
    PassesConcat(Print(i.value), i.after);
    PassesConcat(i.before, Print(i.value) + i.after);
  }

  /** A comma between two texts. */
  lemma PassesJoined(a: string, b: string)
    requires Passes(a) && Passes(b)
    ensures Passes(a + ([','] + b))
  {
    QuietIsPassed([',']);
    PassesConcat([','], b);
    PassesConcat(a, [','] + b);
  }

  lemma {:induction false} ItemsPass(items: seq<Item>)
    requires forall i :: 0 <= i < |items| ==> ItemOk(items[i])
    ensures Passes(PrintItems(items))
    decreases items, 0
  {
    if items == [] {
      QuietIsPassed("");
    } else if |items| == 1 {
      ItemPasses(items[0]);
    } else {
      var first, rest := PrintItem(items[0]), PrintItems(items[1..]);
      ItemPasses(items[0]);
      ItemsPass(items[1..]);
      PassesJoined(first, rest);
      assert PrintItems(items) == first + ([','] + rest);
    }
  }

  /** A key and its value. */
  lemma PairPasses(key: seq<Piece>, gap: string, value: string)
    requires (forall i :: 0 <= i < |key| ==> PieceOk(key[i])) && IsJsonSpace(gap) && Passes(value)
    ensures Passes(PrintString(key) + (gap + ([':'] + value)))
  {
    forall colon
      ensures PassAll(Outside(colon), PrintString(key) + (gap + ([':'] + value))).Outside?
    {
      StringPasses(key, colon);
      PassAllConcat(Outside(colon), PrintString(key), gap + ([':'] + value));
      QuietPasses(gap, false);
      PassAllConcat(Outside(false), gap, [':'] + value);
      assert ([':'] + value)[1..] == value;
    }
  }

  lemma {:induction false} MemberPasses(m: Member)
    requires MemberOk(m)
    ensures Passes(PrintMember(m))
    decreases m, 0
  {
    ItemPasses(m.item);
    QuietIsPassed(m.beforeKey);
    PairPasses(m.key, m.afterKey, PrintItem(m.item));
    PassesConcat(m.beforeKey, PrintString(m.key) + (m.afterKey + ([':'] + PrintItem(m.item))));
  }

  lemma {:induction false} MembersPass(members: seq<Member>)
    requires forall i :: 0 <= i < |members| ==> MemberOk(members[i])
    ensures Passes(PrintMembers(members))
    decreases members, 0
  {
    if members == [] {
      QuietIsPassed("");
    } else if |members| == 1 {
      MemberPasses(members[0]);
    } else {
      var first, rest := PrintMember(members[0]), PrintMembers(members[1..]);
      MemberPasses(members[0]);
      MembersPass(members[1..]);
      PassesJoined(first, rest);
      assert PrintMembers(members) == first + ([','] + rest);
    }
  }

  /** No JSON text is mistaken for the end of another call's name and input. */
  lemma JsonTextIsJsonLike(t: Text)
    requires TextOk(t)
    ensures IsJsonLike(Print(t))
  {
    TextPasses(t);
  }
}
