/** The validation an SQL dump must pass before it is restored (executor/backup.go): some statement
    creates a table. The lexing differs from the filter's: here every byte of a statement counts. */
module RestoreCheck {
  import opened GoStrings
  import opened RestoreFilter
  import RestoreDecision
  import RestoreStream

  const MAX_CHECKED_PREFIX := 128

  /** isCreateTableStatement. */
  predicate CreatesTable(prefix: string) {
    "CREATE TABLE" <= Normalize(prefix)
  }

  /** The statements of an input: white space between them dropped, each up to its semicolon outside
      quotes. */
  function Statements(s: string): seq<string>
    decreases |s|
  {
    if s == "" then []
    else if Blank(s[0]) then Statements(s[1..])
    else
      var n := BodyEnd(Plain, s);
      [s[..n]] + Statements(s[n..])
  }

  /** The bytes read while the lexer is outside quotes; an opening quote is one of them, a closing one not. */
  function Outline(q: Quote, s: string): string
    decreases |s|
  {
    if s == "" then "" else (if q == Plain then [s[0]] else "") + Outline(Lex(q, s[0]), s[1..])
  }

  /** Some beginning of the outline, within the limit, reads as CREATE TABLE. */
  ghost predicate Declares(outline: string) {
    exists j :: 1 <= j <= |outline| && DeclaresAt(outline, j)
  }

  predicate DeclaresAt(outline: string, j: nat)
    requires 1 <= j <= |outline|
  {
    EncodedLen(outline[..j - 1]) < MAX_CHECKED_PREFIX && CreatesTable(outline[..j])
  }

  ghost predicate SomeDeclares(statements: seq<string>) {
    exists k :: 0 <= k < |statements| && Declares(Outline(Plain, statements[k]))
  }

  lemma DeclaresAtSame(o: string, b: char, j: nat)
    requires 1 <= j <= |o|
    ensures DeclaresAt(o + [b], j) == DeclaresAt(o, j)
  {
    hide CreatesTable, EncodedLen;
    assert (o + [b])[..j - 1] == o[..j - 1] && (o + [b])[..j] == o[..j];
  }

  lemma DeclaresAtLast(o: string, b: char)
    ensures DeclaresAt(o + [b], |o| + 1) <==> EncodedLen(o) < MAX_CHECKED_PREFIX && CreatesTable(o + [b])
  {
    hide CreatesTable, EncodedLen;
    var p := o + [b];
    assert p[..|o|] == o && p[..|o| + 1] == p;
  }

  lemma DeclaresMore(o: string, b: char)
    ensures Declares(o + [b]) <==> Declares(o) || (EncodedLen(o) < MAX_CHECKED_PREFIX && CreatesTable(o + [b]))
  {
    hide CreatesTable, EncodedLen, DeclaresAt;
    DeclaresAtLast(o, b);
    forall j | 1 <= j <= |o| ensures DeclaresAt(o + [b], j) == DeclaresAt(o, j) {
      DeclaresAtSame(o, b, j);
    }
  }

  lemma {:induction false} DeclaresStays(o: string, more: string)
    requires Declares(o)
    ensures Declares(o + more)
    decreases |more|
  {
    hide Declares;
    if more == "" {
      assert o + more == o;
    } else {
      DeclaresMore(o, more[0]);
      DeclaresStays(o + [more[0]], more[1..]);
      assert o + [more[0]] + more[1..] == o + more;
    }
  }

  lemma SomeDeclaresFirst(first: string, rest: seq<string>)
    ensures SomeDeclares([first] + rest) <==> Declares(Outline(Plain, first)) || SomeDeclares(rest)
  {
    hide Declares;
    var all := [first] + rest;
    assert all[0] == first;
    if SomeDeclares(rest) {
      var k :| 0 <= k < |rest| && Declares(Outline(Plain, rest[k]));
      assert all[k + 1] == rest[k];
    }
    if SomeDeclares(all) && !Declares(Outline(Plain, first)) {
      var k :| 0 <= k < |all| && Declares(Outline(Plain, all[k]));
      assert all[k] == rest[k - 1];
    }
  }

  // ---------- The scan ----------

  /** What is still needed of the input not yet read, once the bytes `o` of a statement's outline are. */
  ghost predicate Pending(inStatement: bool, o: string, q: Quote, todo: string) {
    if !inStatement then SomeDeclares(Statements(todo))
    else
      var e := BodyEnd(q, todo);
      Declares(o + Outline(q, todo[..e])) || SomeDeclares(Statements(todo[e..]))
  }

  /** A statement begins at its first byte that is not white space. */
  lemma PendingOpens(b: char, todo: string)
    ensures var s := [b] + todo;
            if Blank(b) then Pending(false, "", Plain, s) == Pending(false, "", Plain, todo)
            else Pending(false, "", Plain, s) == Pending(true, "", Plain, s)
  {
    hide Declares, SomeDeclares;
    var s := [b] + todo;
    assert s[1..] == todo;
    if !Blank(b) {
      var e := BodyEnd(Plain, s);
      assert "" + Outline(Plain, s[..e]) == Outline(Plain, s[..e]);
      SomeDeclaresFirst(s[..e], Statements(s[e..]));
    }
  }

  /** One byte inside a statement. */
  lemma PendingStep(o: string, q: Quote, b: char, todo: string)
    ensures var o' := if q == Plain then o + [b] else o;
            Pending(true, o, q, [b] + todo) <==>
            if q == Plain && b == ';' then Declares(o') || Pending(false, "", Plain, todo)
            else Pending(true, o', Lex(q, b), todo)
  {
    hide Declares, SomeDeclares, Statements;
    var s := [b] + todo;
    var o' := if q == Plain then o + [b] else o;
    RestoreStream.BodyStep(q, b, todo);
    var e := BodyEnd(q, s);
    if q == Plain && b == ';' {
      assert Outline(q, [b]) == [b] + "" == [b];
    } else {
      var e' := BodyEnd(Lex(q, b), todo);
      var u := todo[..e'];
      assert ([b] + u)[1..] == u;
      assert Outline(q, [b] + u) == (if q == Plain then [b] else "") + Outline(Lex(q, b), u);
      assert o + Outline(q, [b] + u) == o' + Outline(Lex(q, b), u);
    }
  }

  /** Once the outline declares a table, so does the whole statement. */
  lemma PendingKnown(o: string, q: Quote, todo: string)
    requires Declares(o)
    ensures Pending(true, o, q, todo)
  {
    DeclaresStays(o, Outline(q, todo[..BodyEnd(q, todo)]));
  }

  /** The local variables of validateRestoreSQL. */
  class Checker {
    var sawCreateTable: bool
    var statementPrefix: string
    var inStatement: bool
    var inSingle: bool
    var inDouble: bool
    var inBacktick: bool
    var escaped: bool
    ghost var outline: string

    ghost function Q(): Quote
      reads this
    {
      RestoreStream.QuoteOf(inSingle, inDouble, inBacktick, escaped)
    }

    ghost predicate Valid()
      reads this
    {
      && !(inSingle && inDouble) && !(inBacktick && (inSingle || inDouble))
      && (escaped ==> inSingle || inDouble)
      && (!inStatement ==> Q() == Plain && outline == "")
      && (if EncodedLen(outline) < MAX_CHECKED_PREFIX then statementPrefix == outline || !inStatement
          else EncodedLen(statementPrefix) >= MAX_CHECKED_PREFIX)
      && (Declares(outline) ==> sawCreateTable)
    }

    /** What the scan will have found when `todo` has been read too. */
    ghost predicate Answer(todo: string)
      reads this
    {
      sawCreateTable || Pending(inStatement, outline, Q(), todo)
    }

    constructor ()
      ensures Valid() && !sawCreateTable && !inStatement
    {
      sawCreateTable, statementPrefix, inStatement := false, "", false;
      inSingle, inDouble, inBacktick, escaped := false, false, false, false;
      outline := "";
    }

    /** At the end of the input an unfinished statement has shown all it will. */
    lemma AtEnd()
      requires Valid()
      ensures Answer("") == sawCreateTable
    {
      hide Declares, EncodedLen;
      assert outline + "" == outline;
    }

    method LexQuoted(b: char)
      requires Valid() && Q() != Plain
      modifies `inSingle, `inDouble, `inBacktick, `escaped
      ensures Valid() && Q() == Lex(old(Q()), b)
    {
      hide Declares, EncodedLen;
      if inSingle || inDouble {
        if escaped {
          escaped := false;
          return;
        }
        if b == '\\' {
          escaped := true;
          return;
        }
        if inSingle && b == '\'' { inSingle := false; }
        if inDouble && b == '"' { inDouble := false; }
        return;
      }
      if b == '`' { inBacktick := false; }
    }

    /** The prefix grows up to its limit and is looked at after every byte. */
    method Extend(b: char)
      requires Valid() && inStatement && Q() == Plain
      modifies `statementPrefix, `sawCreateTable, `outline
      ensures Valid() && outline == old(outline) + [b]
      ensures sawCreateTable == (old(sawCreateTable) || Declares(outline))
    {
      hide Declares, CreatesTable;
      DeclaresMore(outline, b);
      assert (outline + [b])[..|outline|] == outline;
      if EncodedLen(statementPrefix) < MAX_CHECKED_PREFIX {
        statementPrefix := statementPrefix + [b];
        if CreatesTable(statementPrefix) { sawCreateTable := true; }
      }
      outline := outline + [b];
    }

    method Feed(b: char, ghost todo: string)
      requires Valid()
      modifies this
      ensures Valid() && Answer(todo) == old(Answer([b] + todo))
    {
      hide Pending, Declares, EncodedLen;
      if inSingle || inDouble || inBacktick {
        PendingStep(outline, Q(), b, todo);
        LexQuoted(b);
        return;
      }
      if !inStatement {
        PendingOpens(b, todo);
        if Blank(b) { return; }
        Open();
      }
      PendingStep(outline, Plain, b, todo);
      Extend(b);
      if Declares(outline) && b != ';' { PendingKnown(outline, Lex(Plain, b), todo); }
      if b == '\'' {
        inSingle := true;
        return;
      }
      if b == '"' {
        inDouble := true;
        return;
      }
      if b == '`' {
        inBacktick := true;
        return;
      }
      if b == ';' { Close(); }
    }

    method Open()
      requires Valid() && !inStatement
      modifies `inStatement, `statementPrefix
      ensures Valid() && inStatement
    {
      hide Declares;
      inStatement := true;
      statementPrefix := "";
    }

    method Close()
      requires Valid() && inStatement && Q() == Plain
      modifies `inStatement, `statementPrefix, `outline
      ensures Valid() && !inStatement && outline == ""
    {
      inStatement := false;
      statementPrefix := "";
      outline := "";
    }
  }

  datatype Verdict = Accepted | NoCreateTable | ReadError

  /** validateRestoreSQL over the reads `chunks`, the last of which fails or ends the file. However the input
      is cut into reads, it is accepted exactly when one of its statements creates a table. */
  method Validate(chunks: seq<string>, failsAtEnd: bool) returns (v: Verdict)
    ensures v == ReadError <==> failsAtEnd
    ensures !failsAtEnd ==> (v == Accepted <==> SomeDeclares(Statements(RestoreStream.Concat(chunks))))
  {
    hide SomeDeclares, Checker.Valid;
    var m := new Checker();
    ghost var goal := SomeDeclares(Statements(RestoreStream.Concat(chunks)));
    for i := 0 to |chunks|
      invariant m.Valid() && fresh(m)
      invariant m.Answer(RestoreStream.Concat(chunks[i..])) == goal
    {
      assert chunks[i..][1..] == chunks[i + 1..];
      ghost var later := RestoreStream.Concat(chunks[i + 1..]);
      for j := 0 to |chunks[i]|
        invariant m.Valid() && fresh(m)
        invariant m.Answer(chunks[i][j..] + later) == goal
      {
        assert chunks[i][j..] + later == [chunks[i][j]] + (chunks[i][j + 1..] + later);
        m.Feed(chunks[i][j], chunks[i][j + 1..] + later);
      }
      assert chunks[i][|chunks[i]|..] + later == later;
    }
    if failsAtEnd { return ReadError; }
    m.AtEnd();
    return if m.sawCreateTable then Accepted else NoCreateTable;
  }

  // ---------- What counts as creating a table ----------

  /** `s` starts, in any letter case, with CREATE, white space `pad` and TABLE, within the limit. */
  ghost predicate OpensTable(s: string, pad: string) {
    var n := 11 + |pad|;
    pad != "" && AllSpace(pad)
    && n <= |s| && Upper(s[..n]) == "CREATE" + pad + "TABLE" && EncodedLen(s[..n - 1]) < MAX_CHECKED_PREFIX
  }

  lemma NormalizedOpening(p: string, pad: string)
    requires pad != "" && AllSpace(pad) && Upper(p) == "CREATE" + pad + "TABLE"
    ensures Normalize(p) == "CREATE TABLE"
  {
    hide Fields, Normalize, StripSpans;
    var u := Upper(p);
    RestoreDecision.LettersAreTame("CREATE");
    RestoreDecision.LettersAreTame("TABLE");
    RestoreDecision.TameConcat("CREATE", pad);
    RestoreDecision.TameConcat("CREATE" + pad, "TABLE");
    RestoreDecision.TameNormalizes(p);
    RestoreDecision.FieldsPadded("CREATE", pad, "TABLE");
    assert ["CREATE", "TABLE"][1..] == ["TABLE"];
  }

  ghost predicate Quoteless(s: string) {
    forall i :: 0 <= i < |s| ==> s[i] != '\'' && s[i] != '"' && s[i] != '`'
  }

  lemma {:induction false} OutlineQuoteless(a: string, b: string)
    requires Quoteless(a)
    ensures Outline(Plain, a + b) == a + Outline(Plain, b)
    decreases |a|
  {
    if a == "" {
      assert a + b == b;
    } else {
      assert (a + b)[1..] == a[1..] + b;
      OutlineQuoteless(a[1..], b);
    }
  }

  /** An input one of whose statements opens with CREATE TABLE is accepted. */
  lemma TableIsAccepted(s: string, k: nat, pad: string)
    requires k < |Statements(s)| && OpensTable(Statements(s)[k], pad)
    ensures SomeDeclares(Statements(s))
  {
    hide Statements, Normalize, EncodedLen;
    var text := Statements(s)[k];
    var n := 11 + |pad|;
    var p, rest := text[..n], text[n..];
    assert text == p + rest;
    forall i | 0 <= i < n ensures p[i] != '\'' && p[i] != '"' && p[i] != '`' {
      assert Upper(p)[i] == UpperChar(p[i]);
      assert Upper(p)[i] == ("CREATE" + pad + "TABLE")[i];
    }
    OutlineQuoteless(p, rest);
    NormalizedOpening(p, pad);
    var o := Outline(Plain, text);
    assert o[..n] == p && o[..n - 1] == text[..n - 1];
    assert DeclaresAt(o, n);
  }

  /** Removing comments makes no new word. */
  lemma {:induction false} StripMakesNoWord(s: string, open: string, close: string, w: string)
    requires open != "" && close != "" && IsWord(w)
    requires Occurs(StripSpans(s, open, close), w)
    ensures Occurs(s, w)
    decreases |s|
  {
    hide Index, StripSpans;
    var start := Index(s, open);
    StripOnce(s, open, close);
    if start >= 0 {
      var after := s[start + |open|..];
      var end := Index(after, close);
      if end < 0 {
        OccursInPart(s, 0, start, w);
      } else {
        var t := after[end + |close|..];
        StripMakesNoWord(s[..start] + " " + t, open, close, w);
        OccursBesideSpace(s[..start], t, w);
        assert t == s[start + |open| + end + |close|..|s|];
        if Occurs(t, w) { OccursInPart(s, start + |open| + end + |close|, |s|, w); }
        if Occurs(s[..start], w) { OccursInPart(s, 0, start, w); }
      }
    }
  }

  lemma StripOnce(s: string, open: string, close: string)
    requires open != "" && close != ""
    ensures var start := Index(s, open);
            start < 0 ==> StripSpans(s, open, close) == s
    ensures var start := Index(s, open);
            start >= 0 ==>
              OccursAt(s, open, start) &&
              var after := s[start + |open|..];
              var end := Index(after, close);
              (end >= 0 ==> OccursAt(after, close, end)) &&
              StripSpans(s, open, close) ==
              if end < 0 then s[..start] else StripSpans(s[..start] + " " + after[end + |close|..], open, close)
  {
  }

  lemma OccursInPart(s: string, lo: nat, hi: nat, w: string)
    requires lo <= hi <= |s| && Occurs(s[lo..hi], w)
    ensures Occurs(s, w)
  {
    var i: nat :| OccursAt(s[lo..hi], w, i);
    var k := lo + i;
    forall x | 0 <= x < |w| ensures s[k..k + |w|][x] == w[x] {
      assert s[lo..hi][i..i + |w|][x] == s[lo..hi][i + x] == s[k + x];
    }
    assert OccursAt(s, w, k);
  }

  lemma OccursBesideSpace(a: string, b: string, w: string)
    requires IsWord(w) && Occurs(a + " " + b, w)
    ensures Occurs(a, w) || Occurs(b, w)
  {
    var s := a + " " + b;
    var i: nat :| OccursAt(s, w, i);
    assert forall x :: 0 <= x < |w| ==> w[x] == s[i + x];
    assert s[|a|] == ' ';
    if i + |w| <= |a| {
      assert a[i..i + |w|] == s[i..i + |w|];
      assert OccursAt(a, w, i);
    } else if i > |a| {
      var j := i - |a| - 1;
      assert b[j..j + |w|] == s[i..i + |w|];
      assert OccursAt(b, w, j);
    } else {
      NotInsideWord(s, w, i, |a|);
    }
  }

  /** A space lies outside every occurrence of a word. */
  lemma NotInsideWord(s: string, w: string, i: nat, at: nat)
    requires IsWord(w) && OccursAt(s, w, i) && i <= at < |s| && s[at] == ' '
    ensures i + |w| <= at
  {
    forall y | i <= y < i + |w| ensures s[y] != ' ' {
      assert s[i..i + |w|][y - i] == s[y];
    }
  }

  lemma {:induction false} FieldOccurs(s: string, w: string)
    requires w in Fields(s)
    ensures Occurs(s, w)
    decreases |s|
  {
    if IsSpace(s[0]) {
      FieldOccurs(s[1..], w);
      assert s[1..|s|] == s[1..];
      OccursInPart(s, 1, |s|, w);
    } else {
      var n := WordLength(s);
      if w == s[..n] {
        assert OccursAt(s, w, 0);
      } else {
        FieldOccurs(s[n..], w);
        assert s[n..|s|] == s[n..];
        OccursInPart(s, n, |s|, w);
      }
    }
  }

  lemma FirstFields(t: string)
    requires "CREATE TABLE" <= t
    ensures |Fields(t)| > 1 && Fields(t)[0] == "CREATE" && "TABLE" <= Fields(t)[1]
  {
    hide Fields;
    var table := t[7..];
    TextBehind(t);
    FieldsOfWord("CREATE", " " + table);
    FieldsSkipSpace(" ", table);
    assert forall i :: 0 <= i < 5 ==> table[i] == "TABLE"[i];
    FirstWord(table, 5);
  }

  lemma TextBehind(t: string)
    requires "CREATE TABLE" <= t
    ensures |t| >= 12 && t == "CREATE" + (" " + t[7..]) && "TABLE" <= t[7..] && t[7..][..5] == "TABLE"
  {
    assert t[..12] == "CREATE TABLE";
    assert t == "CREATE TABLE" + t[12..];
  }

  /** The first word of a text has every beginning of it that is free of white space. */
  lemma FirstWord(s: string, n: nat)
    requires 0 < n <= |s| && forall i :: 0 <= i < n ==> !IsSpace(s[i])
    ensures Fields(s) != [] && s[..n] <= Fields(s)[0]
  {
    assert WordLength(s) >= n;
  }

  /** An accepted input really spells CREATE and TABLE outside its quotes and comments, in one statement; no
      removal of a comment can put a word together. */
  lemma AcceptedSpellsCreate(statements: seq<string>)
    requires SomeDeclares(statements)
    ensures exists k :: 0 <= k < |statements| && Occurs(Upper(Outline(Plain, statements[k])), "CREATE")
                        && Occurs(Upper(Outline(Plain, statements[k])), "TABLE")
  {
    hide Normalize, EncodedLen, Outline;
    var k :| 0 <= k < |statements| && Declares(Outline(Plain, statements[k]));
    var o := Outline(Plain, statements[k]);
    var j :| 1 <= j <= |o| && DeclaresAt(o, j);
    NormalizedSpellsCreate(o[..j]);
    RestoreDecision.UpperPrefix(o, j);
    assert Upper(o)[0..j] == Upper(o)[..j];
    OccursInPart(Upper(o), 0, j, "CREATE");
    OccursInPart(Upper(o), 0, j, "TABLE");
  }

  lemma NormalizedSpellsCreate(p: string)
    requires "CREATE TABLE" <= Normalize(p)
    ensures Occurs(Upper(p), "CREATE") && Occurs(Upper(p), "TABLE")
  {
    hide Fields, StripComments, Normalize, Occurs, IsWord;
    var x := StripComments(Upper(p));
    assert Normalize(p) == Join(Fields(x), " ") by { NormalizeIs(p); }
    FieldsJoin(Fields(x));
    FirstFields(Normalize(p));
    FieldOccurs(x, "CREATE");
    FieldOccurs(x, Fields(x)[1]);
    BeginningOccurs(x, Fields(x)[1], "TABLE");
    assert IsWord("CREATE") && IsWord("TABLE") by { TwoWords(); }
    CommentsMakeNoWord(Upper(p), "CREATE");
    CommentsMakeNoWord(Upper(p), "TABLE");
  }

  lemma NormalizeIs(p: string)
    ensures Normalize(p) == Join(Fields(StripComments(Upper(p))), " ")
  {
  }

  lemma TwoWords()
    ensures IsWord("CREATE") && IsWord("TABLE")
  {
  }

  lemma BeginningOccurs(s: string, w: string, front: string)
    requires front <= w && Occurs(s, w)
    ensures Occurs(s, front)
  {
    var i: nat :| OccursAt(s, w, i);
    assert s[i..i + |front|] == s[i..i + |w|][..|front|];
    assert OccursAt(s, front, i);
  }

  lemma CommentsMakeNoWord(u: string, word: string)
    requires IsWord(word) && Occurs(StripComments(u), word)
    ensures Occurs(u, word)
  {
    hide StripSpans, Occurs;
    var v := StripSpans(u, "/*", "*/");
    var w := StripSpans(v, "--", "\n");
    StripMakesNoWord(w, "#", "\n", word);
    StripMakesNoWord(v, "--", "\n", word);
    StripMakesNoWord(u, "/*", "*/", word);
  }
}
