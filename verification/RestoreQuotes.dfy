/** Where a statement of an SQL dump ends for the restore filter, told by the pieces the text is written in
    (executor/backup.go): a semicolon inside quotes ends nothing. */
module RestoreQuotes {
  import opened GoStrings
  import opened RestoreFilter
  import opened RestoreDecision
  import opened RestoreHeads
  import opened RestoreCheck

  /** Inside a string: a character, or a backslash and whatever it protects. */
  datatype Atom = Char(c: char) | Escaped(c: char)

  /** A statement's text behind its head: a character outside quotes, a string, or a quoted name. */
  datatype Token = Bare(c: char) | Str(mark: char, atoms: seq<Atom>) | Name(text: string)

  predicate IsToken(t: Token) {
    match t
    case Bare(c) => c != ';' && c != '\'' && c != '"' && c != '`'
    case Str(mark, atoms) =>
      && (mark == '\'' || mark == '"')
      && forall i :: 0 <= i < |atoms| ==> (atoms[i].Char? ==> atoms[i].c != mark && atoms[i].c != '\\')
    case Name(text) => '`' !in text
  }

  function Inside(atoms: seq<Atom>): string {
    if atoms == [] then ""
    else (if atoms[0].Char? then [atoms[0].c] else ['\\', atoms[0].c]) + Inside(atoms[1..])
  }

  function Written(t: Token): string {
    match t
    case Bare(c) => [c]
    case Str(mark, atoms) => [mark] + (Inside(atoms) + [mark])
    case Name(text) => ['`'] + (text + ['`'])
  }

  ghost predicate AreTokens(ts: seq<Token>) {
    forall i :: 0 <= i < |ts| ==> IsToken(ts[i])
  }

  function Text(ts: seq<Token>): string {
    if ts == [] then "" else Written(ts[0]) + Text(ts[1..])
  }

  // ---------- Lexing the pieces ----------

  /** Reading `p` ends no statement and leads from one quote state to another. */
  ghost predicate Passes(q: Quote, p: string, r: Quote) {
    !Terminates(q, p) && LexAll(q, p) == r
  }

  lemma {:induction false} PassesOn(q: Quote, a: string, r: Quote, b: string, z: Quote)
    requires Passes(q, a, r) && Passes(r, b, z)
    ensures Passes(q, a + b, z)
    decreases |a|
  {
    if a == "" {
      assert a + b == b;
    } else {
      assert (a + b)[0] == a[0] && (a + b)[1..] == a[1..] + b;
      PassesOn(Lex(q, a[0]), a[1..], r, b, z);
    }
  }

  lemma OneByte(q: Quote, c: char)
    requires q != Plain || c != ';'
    ensures Passes(q, [c], Lex(q, c))
  {
    assert [c][1..] == "";
  }

  lemma AtomPasses(q: Quote, mark: char, a: Atom)
    requires (q == Single(false) && mark == '\'') || (q == Double(false) && mark == '"')
    requires a.Char? ==> a.c != mark && a.c != '\\'
    ensures Passes(q, if a.Char? then [a.c] else ['\\', a.c], q)
  {
    OneByte(q, '\\');
    OneByte(q, a.c);
    var held := Lex(q, '\\');
    OneByte(held, a.c);
    PassesOn(q, ['\\'], held, [a.c], Lex(held, a.c));
    assert ['\\'] + [a.c] == ['\\', a.c];
  }

  lemma {:induction false} InsidePasses(q: Quote, mark: char, atoms: seq<Atom>)
    requires (q == Single(false) && mark == '\'') || (q == Double(false) && mark == '"')
    requires forall i :: 0 <= i < |atoms| ==> (atoms[i].Char? ==> atoms[i].c != mark && atoms[i].c != '\\')
    ensures Passes(q, Inside(atoms), q)
  {
    if atoms != [] {
      hide Passes;
      AtomPasses(q, mark, atoms[0]);
      InsidePasses(q, mark, atoms[1..]);
      PassesOn(q, if atoms[0].Char? then [atoms[0].c] else ['\\', atoms[0].c], q, Inside(atoms[1..]), q);
    }
  }

  lemma {:induction false} NamePasses(text: string)
    requires '`' !in text
    ensures Passes(Backtick, text, Backtick)
    decreases |text|
  {
    if text != "" { NamePasses(text[1..]); }
  }

  lemma TokenPasses(t: Token)
    requires IsToken(t)
    ensures Passes(Plain, Written(t), Plain)
  {
    hide Passes, Inside;
    match t
    case Bare(c) => OneByte(Plain, c);
    case Str(mark, atoms) =>
      var q := Lex(Plain, mark);
      OneByte(Plain, mark);
      OneByte(q, mark);
      InsidePasses(q, mark, atoms);
      PassesOn(q, Inside(atoms), q, [mark], Plain);
      PassesOn(Plain, [mark], q, Inside(atoms) + [mark], Plain);
    case Name(text) =>
      OneByte(Plain, '`');
      OneByte(Backtick, '`');
      NamePasses(text);
      PassesOn(Backtick, text, Backtick, ['`'], Plain);
      PassesOn(Plain, ['`'], Backtick, text + ['`'], Plain);
  }

  lemma {:induction false} TextPasses(ts: seq<Token>)
    requires AreTokens(ts)
    ensures Passes(Plain, Text(ts), Plain)
  {
    if ts != [] {
      hide Passes, Written, IsToken;
      TokenPasses(ts[0]);
      TextPasses(ts[1..]);
      PassesOn(Plain, Written(ts[0]), Plain, Text(ts[1..]), Plain);
    }
  }

  /** Behind tokens the first semicolon ends the statement. */
  lemma TokensEnd(ts: seq<Token>, rest: string)
    requires AreTokens(ts)
    ensures BodyEnd(Plain, Text(ts) + ";" + rest) == |Text(ts)| + 1
  {
    hide Text;
    TextPasses(ts);
    BodyEndAcross(Plain, Text(ts), ";" + rest);
    assert Text(ts) + ";" + rest == Text(ts) + (";" + rest);
  }

  // ---------- Whole statements ----------

  /** An unwanted statement goes up to the semicolon outside quotes that ends it, and no further. */
  lemma UnwantedGoesWhole(s: string, ts: seq<Token>, rest: string)
    requires Unwanted(s) && s != "" && AreTokens(ts)
    requires s[HeadEnd(s)..] == Text(ts) + ";" + rest
    ensures Filter(s) == Filter(rest)
  {
    hide Decide, EncodedLen, Unwanted, Filter, Text;
    UnwantedIsSkipped(s);
    UnwantedLeavesNoByte(s);
    TokensEnd(ts, rest);
    EndsBefore(s, Text(ts) + ";", rest, HeadEnd(s));
  }

  /** A statement that is kept passes up to that semicolon, and what follows it is read afresh. */
  lemma KeptStaysWhole(s: string, ts: seq<Token>, rest: string)
    requires s != "" && !Blank(s[0]) && !Skipped(s) && AreTokens(ts)
    requires s[HeadEnd(s)..] == Text(ts) + ";" + rest
    ensures |rest| <= |s| && Filter(s) == s[..|s| - |rest|] + Filter(rest)
  {
    hide Decide, EncodedLen, Filter, Text, Skipped, HeadEnd;
    FilterStatement(s);
    TokensEnd(ts, rest);
    EndsBefore(s, Text(ts) + ";", rest, HeadEnd(s));
  }

  lemma EndsBefore(s: string, body: string, rest: string, h: nat)
    requires h <= |s| && s[h..] == body + rest
    ensures h + |body| <= |s| && s[h + |body|..] == rest && s[..h + |body|] == s[..h] + body
  {
    assert s == s[..h] + s[h..];
  }

  /** A statement whose first byte alone settles that it stays, passes whole: "INSERT INTO t VALUES ('a;b');"
      does. */
  lemma OrdinaryStaysWhole(b: char, ts: seq<Token>, rest: string)
    requires UpperChar(b) !in {'U', 'C', 'D'} && b != '#' && !IsSpace(b) && AreTokens(ts)
    ensures Filter([b] + (Text(ts) + ";" + rest)) == [b] + (Text(ts) + ";") + Filter(rest)
  {
    hide Decide, EncodedLen, Filter, Text;
    var t := Text(ts) + ";" + rest;
    FirstByteDecides(b);
    assert [b][..1] == [b];
    assert IsHead([b]);
    FilterFromHead([b], t);
    TokensEnd(ts, rest);
    EndsBefore(t, Text(ts) + ";", rest, 0);
  }

  // ---------- What the check sees of a statement ----------

  /** The text with nothing left of strings and quoted names but their opening marks. */
  function Skeleton(ts: seq<Token>): string {
    if ts == [] then ""
    else
      [match ts[0]
       case Bare(c) => c
       case Str(mark, _) => mark
       case Name(_) => '`'] + Skeleton(ts[1..])
  }

  lemma {:induction false} OutlineAcross(q: Quote, a: string, b: string)
    ensures Outline(q, a + b) == Outline(q, a) + Outline(LexAll(q, a), b)
    decreases |a|
  {
    if a == "" {
      assert a + b == b;
    } else {
      assert (a + b)[0] == a[0] && (a + b)[1..] == a[1..] + b;
      OutlineAcross(Lex(q, a[0]), a[1..], b);
    }
  }

  lemma OutlineOfByte(q: Quote, c: char)
    ensures Outline(q, [c]) == if q == Plain then [c] else ""
  {
    assert [c][1..] == "";
  }

  lemma {:induction false} InsideUnseen(q: Quote, mark: char, atoms: seq<Atom>)
    requires (q == Single(false) && mark == '\'') || (q == Double(false) && mark == '"')
    requires forall i :: 0 <= i < |atoms| ==> (atoms[i].Char? ==> atoms[i].c != mark && atoms[i].c != '\\')
    ensures Outline(q, Inside(atoms)) == ""
  {
    if atoms != [] {
      hide Outline;
      var a := atoms[0];
      var text := if a.Char? then [a.c] else ['\\', a.c];
      AtomPasses(q, mark, a);
      OutlineOfByte(q, a.c);
      OutlineOfByte(q, '\\');
      OneByte(q, '\\');
      OutlineOfByte(Lex(q, '\\'), a.c);
      OutlineAcross(q, ['\\'], [a.c]);
      assert ['\\'] + [a.c] == ['\\', a.c];
      OutlineAcross(q, text, Inside(atoms[1..]));
      InsideUnseen(q, mark, atoms[1..]);
    }
  }

  lemma {:induction false} NameUnseen(text: string)
    requires '`' !in text
    ensures Outline(Backtick, text) == ""
    decreases |text|
  {
    if text != "" { NameUnseen(text[1..]); }
  }

  lemma TokenOutline(t: Token)
    requires IsToken(t)
    ensures Outline(Plain, Written(t)) == Skeleton([t])
  {
    hide Outline, LexAll, Inside;
    assert [t][1..] == [];
    match t
    case Bare(c) => OutlineOfByte(Plain, c);
    case Str(mark, atoms) =>
      var q := Lex(Plain, mark);
      OutlineOfByte(Plain, mark);
      OutlineOfByte(q, mark);
      InsidePasses(q, mark, atoms);
      InsideUnseen(q, mark, atoms);
      OneByte(Plain, mark);
      OutlineAcross(q, Inside(atoms), [mark]);
      OutlineAcross(Plain, [mark], Inside(atoms) + [mark]);
    case Name(text) =>
      OutlineOfByte(Plain, '`');
      OutlineOfByte(Backtick, '`');
      NamePasses(text);
      NameUnseen(text);
      OneByte(Plain, '`');
      OutlineAcross(Backtick, text, ['`']);
      OutlineAcross(Plain, ['`'], text + ['`']);
  }

  /** The check reads of a text what stands outside strings and quoted names, and their opening marks. */
  lemma {:induction false} OutlineIsSkeleton(ts: seq<Token>)
    requires AreTokens(ts)
    ensures Outline(Plain, Text(ts)) == Skeleton(ts)
  {
    if ts != [] {
      hide Outline, LexAll, Written, IsToken;
      TokenPasses(ts[0]);
      TokenOutline(ts[0]);
      OutlineIsSkeleton(ts[1..]);
      OutlineAcross(Plain, Written(ts[0]), Text(ts[1..]));
      assert [ts[0]][1..] == [];
    } else {
      OutlineOfNothing();
    }
  }

  lemma OutlineOfNothing()
    ensures Outline(Plain, "") == ""
  {
  }
}
