/** What a statement's head does to the restore filter's reading of an SQL dump (executor/backup.go). The
    bytes up to the deciding one are not lexed, so the filter's statements are those of the text only where
    the heads are harmless; and the decision falls before a comment has been read to its end. */
module RestoreHeads {
  import opened GoStrings
  import opened RestoreFilter
  import opened RestoreDecision
  import opened RestoreCheck

  /** The quote state after all of `s`. */
  function LexAll(q: Quote, s: string): Quote
    decreases |s|
  {
    if s == "" then q else LexAll(Lex(q, s[0]), s[1..])
  }

  lemma {:induction false} BodyEndAcross(q: Quote, p: string, t: string)
    ensures BodyEnd(q, p + t) == if Terminates(q, p) then BodyEnd(q, p) else |p| + BodyEnd(LexAll(q, p), t)
    decreases |p|
  {
    if p == "" {
      assert p + t == t;
    } else {
      assert (p + t)[0] == p[0] && (p + t)[1..] == p[1..] + t;
      if !(q == Plain && p[0] == ';') { BodyEndAcross(Lex(q, p[0]), p[1..], t); }
    }
  }

  lemma {:induction false} BodyEndAtSemicolon(q: Quote, p: string)
    requires Terminates(q, p)
    ensures 1 <= BodyEnd(q, p) && p[BodyEnd(q, p) - 1] == ';'
    decreases |p|
  {
    if !(q == Plain && p[0] == ';') { BodyEndAtSemicolon(Lex(q, p[0]), p[1..]); }
  }

  /** No semicolon outside quotes in the head and no quote left open by it; or its last byte, which decides
      to skip, is the first such semicolon. */
  predicate PlainHead(p: string) {
    || (!Terminates(Plain, p) && LexAll(Plain, p) == Plain)
    || (Decide(p) == Skip && Terminates(Plain, p) && BodyEnd(Plain, p) == |p|)
  }

  /** After a plain head the filter's statement ends where the text's does. */
  lemma StatementEndAgrees(s: string)
    requires s != "" && PlainHead(s[..HeadEnd(s)])
    ensures StatementEnd(s) == BodyEnd(Plain, s)
  {
    hide Decide, EncodedLen;
    var h := HeadEnd(s);
    BodyEndAcross(Plain, s[..h], s[h..]);
    assert s == s[..h] + s[h..];
    if Terminates(Plain, s[..h]) {
      BodyEndAtSemicolon(Plain, s[..h]);
    } else if s[h - 1] == ';' {
      LastSemicolon(Plain, s[..h]);
    }
  }

  /** A semicolon that does not end a statement leaves the lexer inside quotes. */
  lemma {:induction false} LastSemicolon(q: Quote, p: string)
    requires p != "" && p[|p| - 1] == ';' && !Terminates(q, p)
    ensures LexAll(q, p) != Plain
    decreases |p|
  {
    if |p| > 1 { LastSemicolon(Lex(q, p[0]), p[1..]); } else { assert LexAll(q, p) == Lex(q, p[0]); }
  }

  /** The heads after which the two ends agree whatever follows are exactly the plain ones. */
  lemma PlainHeadIff(p: string)
    requires IsHead(p)
    ensures PlainHead(p) <==> forall t :: StatementEnd(p + t) == BodyEnd(Plain, p + t)
  {
    hide Decide, EncodedLen;
    forall t ensures HeadEnd(p + t) == |p| && (p + t)[..|p|] == p && (p + t)[|p|..] == t {
      HeadScanLocal(p, t, 1);
    }
    if PlainHead(p) {
      forall t ensures StatementEnd(p + t) == BodyEnd(Plain, p + t) { StatementEndAgrees(p + t); }
    } else {
      var t := if Terminates(Plain, p) then "x" else ";;";
      BodyEndAcross(Plain, p, t);
      if Terminates(Plain, p) { BodyEndAtSemicolon(Plain, p); } else { TwoSemicolons(LexAll(Plain, p)); }
      assert BodyEnd(Plain, ";;") == 1 && BodyEnd(Plain, "x") == 1;
      assert StatementEnd(p + t) != BodyEnd(Plain, p + t);
    }
  }

  lemma TwoSemicolons(q: Quote)
    requires q != Plain
    ensures BodyEnd(q, ";;") == 2
  {
    assert ";;"[1..] == ";" && ";"[1..] == "";
  }

  // ---------- When the filter keeps its promise on the text's own statements ----------

  /** Every head the filter meets in `s` is plain. */
  predicate PlainHeads(s: string)
    decreases |s|
  {
    if s == "" then true
    else if Blank(s[0]) then PlainHeads(s[1..])
    else PlainHead(s[..HeadEnd(s)]) && PlainHeads(s[StatementEnd(s)..])
  }

  function KeptTexts(segs: seq<Segment>): (texts: seq<string>)
    ensures forall t :: t in texts <==> Kept(t) in segs
  {
    if segs == [] then [] else (if segs[0].Kept? then [segs[0].text] else []) + KeptTexts(segs[1..])
  }

  /** With plain heads the statements of the filter's output are those it kept, one for one. */
  lemma {:induction false} OutputStatements(s: string)
    requires PlainHeads(s)
    ensures Statements(Filter(s)) == KeptTexts(Segments(s))
    decreases |s|
  {
    hide Decide, EncodedLen, Filter;
    if s == "" {
      assert Filter("") == "" by { FilterOfNothing(); }
    } else if Blank(s[0]) {
      assert s == [s[0]] + s[1..];
      FilterBlank(s[0], s[1..]);
      assert ([s[0]] + Filter(s[1..]))[1..] == Filter(s[1..]);
      OutputStatements(s[1..]);
      assert Segments(s)[1..] == Segments(s[1..]);
    } else {
      var n := StatementEnd(s);
      FilterStatement(s);
      OutputStatements(s[n..]);
      assert Segments(s)[1..] == Segments(s[n..]);
      assert "" + Filter(s[n..]) == Filter(s[n..]);
      if !Skipped(s) {
        StatementEndAgrees(s);
        StatementsOpen(s[..n], s, Filter(s[n..]));
      }
    }
  }

  lemma FilterOfNothing()
    ensures Filter("") == ""
  {
  }

  /** A statement that ends before the input does is the first of whatever it begins. */
  lemma StatementsOpen(first: string, s: string, rest: string)
    requires s != "" && !Blank(s[0]) && first == s[..BodyEnd(Plain, s)] && (|first| == |s| ==> rest == Filter(""))
    ensures Statements(first + rest) == [first] + Statements(rest)
  {
    hide Filter;
    FilterOfNothing();
    var n := BodyEnd(Plain, s);
    if n < |s| {
      BodyEndStops(Plain, s);
      BodyEndLocal(Plain, first, rest);
    } else {
      assert s[..n] == s && first + rest == s;
    }
    assert (first + rest)[..n] == first && (first + rest)[n..] == rest;
  }

  /** The filter's promise: no statement of its output selects, creates or drops a database, or names a
      definer. */
  lemma NoUnwantedStatementSurvives(s: string, statement: string)
    requires PlainHeads(s) && statement in Statements(Filter(s))
    ensures !Unwanted(statement)
  {
    hide Decide, EncodedLen, Filter, Unwanted;
    OutputStatements(s);
    var k :| 0 <= k < |Segments(s)| && Segments(s)[k] == Kept(statement);
    UnwantedStatementsAreDropped(s, k);
  }

  // ---------- When it does not ----------

  /** A single statement without quotes. */
  ghost predicate Simple(st: string) {
    && st != "" && !Blank(st[0]) && BodyEnd(Plain, st) == |st|
    && forall i :: 0 <= i < |st| ==> st[i] != '\'' && st[i] != '"' && st[i] != '`' && st[i] != '\\'
  }

  /** Behind this head the statement can pass as part of a kept one. */
  ghost predicate Hides(p: string, st: string) {
    exists t :: Segments(p + t) == [Kept(p + t)] && st in Statements(p + t)
  }

  /** The statements of a text that are finished in it. */
  function Finished(p: string): seq<string>
    decreases |p|
  {
    if p == "" then []
    else if Blank(p[0]) then Finished(p[1..])
    else if !Terminates(Plain, p) then []
    else
      var n := BodyEnd(Plain, p);
      [p[..n]] + Finished(p[n..])
  }

  /** The statement that is begun in a text and not finished. */
  function Rest(p: string): (r: string)
    ensures r != "" ==> !Blank(r[0]) && !Terminates(Plain, r)
    decreases |p|
  {
    if p == "" then ""
    else if Blank(p[0]) then Rest(p[1..])
    else if !Terminates(Plain, p) then p
    else Rest(p[BodyEnd(Plain, p)..])
  }

  /** More text goes on with the statement begun. */
  lemma {:induction false} StatementsAcross(p: string, t: string)
    ensures Statements(p + t) == Finished(p) + Statements(Rest(p) + t)
    decreases |p|
  {
    if p == "" {
      assert p + t == t;
    } else if Blank(p[0]) {
      assert (p + t)[1..] == p[1..] + t;
      StatementsAcross(p[1..], t);
    } else if Terminates(Plain, p) {
      var n := BodyEnd(Plain, p);
      BodyEndLocal(Plain, p, t);
      assert (p + t)[..n] == p[..n] && (p + t)[n..] == p[n..] + t;
      StatementsAcross(p[n..], t);
    }
  }

  /** What hides behind a kept head: any simple statement, if the statement that the text's lexer has begun in
      the head is inside quotes; otherwise just those that it goes on to, and those that the head holds. */
  lemma KeptHeadHidesIff(p: string, st: string)
    requires IsHead(p) && !Blank(p[0]) && Decide(p) != Skip && Simple(st)
    ensures Hides(p, st) <==> LexAll(Plain, Rest(p)) != Plain || Rest(p) <= st || st in Finished(p)
  {
    hide Decide, EncodedLen, Segments, BodyEnd, LexAll, Terminates, Statements, IsHead, Finished, Rest, Simple;
    var q := LexAll(Plain, Rest(p));
    if q != Plain {
      HidesInQuotes(p, st);
    } else if Rest(p) <= st {
      HidesAsRest(p, st);
    } else {
      if st in Finished(p) { HidesInHead(p, st); }
      forall t | Segments(p + t) == [Kept(p + t)] && st in Statements(p + t) ensures st in Finished(p) {
        RestGoesOn(p, t);
      }
    }
  }

  lemma HidesInQuotes(p: string, st: string)
    requires IsHead(p) && !Blank(p[0]) && Decide(p) != Skip && Simple(st) && LexAll(Plain, Rest(p)) != Plain
    ensures Hides(p, st)
  {
    hide Decide, EncodedLen, Segments, BodyEnd, LexAll, Terminates, Statements, IsHead, Finished, Rest;
    var r := Rest(p);
    var q := LexAll(Plain, r);
    var t := ['x', Closer(q), ';'] + st;
    NothingLexed();
    CloserCloses(q, st);
    OneSegmentIff(p, t);
    StatementsAcross(p, t);
    BodyEndAcross(Plain, r, t);
    assert (r + t)[|r| + 3..] == st;
    OneStatement(st);
    SecondStatement(r + t, st);
  }

  lemma NothingLexed()
    ensures LexAll(Plain, "") == Plain && !Terminates(Plain, "")
  {
  }

  lemma HidesAsRest(p: string, st: string)
    requires IsHead(p) && !Blank(p[0]) && Decide(p) != Skip && Simple(st)
    requires LexAll(Plain, Rest(p)) == Plain && Rest(p) <= st
    ensures Hides(p, st)
  {
    hide Decide, EncodedLen, Segments, BodyEnd, LexAll, Terminates, Statements, IsHead, Finished, Rest;
    var r := Rest(p);
    var t := st[|r|..];
    NothingLexed();
    assert r + t == st;
    BodyEndAcross(Plain, r, t);
    OneSegmentIff(p, t);
    StatementsAcross(p, t);
    OneStatement(st);
  }

  lemma HidesInHead(p: string, st: string)
    requires IsHead(p) && !Blank(p[0]) && Decide(p) != Skip && st in Finished(p)
    ensures Hides(p, st)
  {
    hide Decide, EncodedLen, Segments, Statements, IsHead, Finished, Rest;
    OneSegmentIff(p, "");
    StatementsAcross(p, "");
    assert st in Statements(p + "");
  }

  /** In a kept statement that is not begun in quotes, only the head's own statements and the one that it goes
      on to are there. */
  lemma RestGoesOn(p: string, t: string)
    requires IsHead(p) && !Blank(p[0]) && Decide(p) != Skip && Segments(p + t) == [Kept(p + t)]
    requires LexAll(Plain, Rest(p)) == Plain && Rest(p) != ""
    ensures forall st :: st in Statements(p + t) ==> st in Finished(p) || Rest(p) <= st
  {
    hide Decide, EncodedLen, Segments, BodyEnd, LexAll, Terminates, Statements, IsHead, Finished, Rest;
    var r := Rest(p);
    OneSegmentIff(p, t);
    StatementsAcross(p, t);
    BodyEndAcross(Plain, r, t);
    OneStatement(r + t);
  }

  /** What the filter takes for one statement behind a kept head. */
  lemma OneSegmentIff(p: string, t: string)
    requires IsHead(p) && !Blank(p[0]) && Decide(p) != Skip
    ensures Segments(p + t) == [Kept(p + t)] <==> BodyEnd(Plain, t) == |t|
  {
    hide Decide, EncodedLen, BodyEnd;
    HeadScanLocal(p, t, 1);
    var s := p + t;
    var n := StatementEnd(s);
    assert HeadEnd(s) == |p| && s[..|p|] == p && s[|p|..] == t && s[0] == p[0];
    assert n == |p| + BodyEnd(Plain, t);
    assert Segments(s) == [Kept(s[..n])] + Segments(s[n..]);
    if n == |s| {
      assert s[..n] == s && s[n..] == "";
      assert Segments("") == [];
    } else {
      assert Segments(s)[0] == Kept(s[..n]) && |s[..n]| == n;
    }
  }

  /** So behind a plain kept head nothing hides that the filter would drop. */
  lemma PlainHeadHidesNothing(p: string, st: string)
    requires IsHead(p) && !Blank(p[0]) && Decide(p) != Skip && PlainHead(p)
    requires Simple(st) && Skipped(st)
    ensures !Hides(p, st)
  {
    hide Decide, EncodedLen, Hides, LexAll, Terminates, BodyEnd, Simple;
    KeptHeadHidesIff(p, st);
    assert Rest(p) == p && Finished(p) == [];
    if p <= st { HeadOfLonger(p, st); }
  }

  lemma HeadOfLonger(p: string, st: string)
    requires IsHead(p) && p <= st
    ensures Skipped(st) <==> Decide(p) == Skip
  {
    hide Decide, EncodedLen;
    HeadScanLocal(p, st[|p|..], 1);
    assert p + st[|p|..] == st && st[..|p|] == p;
  }

  lemma OneStatement(st: string)
    requires st != "" && !Blank(st[0]) && BodyEnd(Plain, st) == |st|
    ensures Statements(st) == [st]
  {
    assert st[..|st|] == st && st[|st|..] == "";
  }

  /** If the text after a kept head has no end for the filter, all of it is kept. */
  lemma KeptWhole(p: string, t: string)
    requires IsHead(p) && !Blank(p[0]) && Decide(p) != Skip && BodyEnd(Plain, t) == |t|
    ensures Filter(p + t) == p + t
  {
    hide Decide, EncodedLen, Filter, BodyEnd;
    FilterFromHead(p, t);
    FilterOfNothing();
    assert t[..|t|] == t && t[|t|..] == "";
    assert t + "" == t;
  }

  lemma SecondStatement(s: string, second: string)
    requires s != "" && !Blank(s[0]) && s[BodyEnd(Plain, s)..] == second && Statements(second) == [second]
    ensures Statements(s) == [s[..BodyEnd(Plain, s)], second]
  {
  }

  function Closer(q: Quote): char {
    if q.Single? then '\'' else if q.Double? then '"' else '`'
  }

  lemma UseIsSimple()
    ensures Simple("USE x;")
  {
    QuietBody(Plain, "USE x;", 5);
  }

  /** The body ends at the first semicolon if no quote comes before it. */
  lemma {:induction false} QuietBody(q: Quote, s: string, k: nat)
    requires q == Plain && k < |s| && s[k] == ';'
    requires forall i :: 0 <= i < k ==> s[i] != ';' && Lex(Plain, s[i]) == Plain
    ensures BodyEnd(q, s) == k + 1
    decreases k
  {
    if k > 0 { QuietBody(q, s[1..], k - 1); }
  }

  lemma {:induction false} QuotedBody(q: Quote, s: string)
    requires q != Plain && (q.Single? || q.Double? ==> !q.escaped)
    requires forall i :: 0 <= i < |s| ==> Lex(q, s[i]) == q
    ensures BodyEnd(q, s) == |s|
    decreases |s|
  {
    if s != "" { QuotedBody(q, s[1..]); }
  }

  /** The same text closes a quote for the text's lexer and opens it for the filter's. */
  lemma CloserCloses(q: Quote, st: string)
    requires q != Plain && Simple(st)
    ensures var t := ['x', Closer(q), ';'] + st;
            BodyEnd(q, t) == 3 && BodyEnd(Plain, t) == |t|
  {
    var c := Closer(q);
    var tail := [';'] + st;
    assert ['x', c, ';'] + st == ['x'] + ([c] + tail);
    BodyEndStep(q, 'x', [c] + tail);
    BodyEndStep(Lex(q, 'x'), c, tail);
    BodyEndStep(Plain, ';', st);
    BodyEndStep(Plain, 'x', [c] + tail);
    BodyEndStep(Plain, c, tail);
    QuotedBody(Lex(Plain, c), tail);
  }

  lemma BodyEndStep(q: Quote, b: char, s: string)
    ensures BodyEnd(q, [b] + s) == if q == Plain && b == ';' then 1 else 1 + BodyEnd(Lex(q, b), s)
  {
    assert ([b] + s)[1..] == s;
  }

  /** The smallest such input: an empty statement, and the USE after it is read as part of it. */
  lemma EmptyStatementCarriesUse()
    ensures Filter(";USE x;") == ";USE x;" && Statements(";USE x;") == [";", "USE x;"]
  {
    hide Decide, EncodedLen, Filter;
    FirstByteDecides(';');
    assert ";" == [';'] && ";"[..1] == ";";
    UseIsSimple();
    EmptyStatementCarries("USE x;");
    assert ";" + "USE x;" == ";USE x;";
  }

  lemma EmptyStatementCarries(st: string)
    requires Simple(st) && IsHead(";") && Decide(";") != Skip
    ensures Filter(";" + st) == ";" + st && Statements(";" + st) == [";", st]
  {
    hide Decide, EncodedLen, Filter, Statements;
    KeptWhole(";", st);
    OneStatement(st);
    BodyEndStep(Plain, ';', st);
    assert [';'] + st == ";" + st && (";" + st)[1..] == st && (";" + st)[..1] == ";";
    SecondStatement(";" + st, st);
  }

  // ---------- Comments ----------

  /** Which first bytes settle a statement at once, and none of them drops it. */
  lemma FirstByteDecides(b: char)
    ensures Decide([b]) != Skip
    ensures Decide([b]) == Keep <==> UpperChar(b) !in {'U', 'C', 'D'} && b != '#' && !IsSpace(b)
  {
    hide Fields, Index, StripSpans, Upper;
    var u := Upper([b]);
    assert u == [UpperChar(b)];
    ShortHasNo(u, "DEFINER=");
    ShortHasNo(u, "/*");
    ShortHasNo(u, "--");
    StripsNothing(u, "/*", "*/");
    StripsNothing(u, "--", "\n");
    if UpperChar(b) == '#' {
      StripHash();
      assert Fields("") == [] by { FieldsJoin([]); }
    } else {
      CharHasNo(u[0], "#");
      StripsNothing(u, "#", "\n");
      FieldsOfChar(u[0]);
      FieldsJoin(Fields(u));
    }
    assert UpperChar(b) == '#' <==> b == '#';
    assert IsSpace(UpperChar(b)) <==> IsSpace(b);
    assert Normalize([b]) == Join(if u[0] == '#' then [] else Fields(u), " ");
  }

  lemma ShortHasNo(u: string, pat: string)
    requires |u| < |pat|
    ensures !Contains(u, pat)
  {
  }

  lemma CharHasNo(c: char, pat: string)
    requires |pat| == 1 && pat[0] != c
    ensures !Contains([c], pat)
  {
    forall i: nat ensures !OccursAt([c], pat, i) {
      if i + 1 <= 1 { assert [c][i..i + 1][0] == c; }
    }
  }

  lemma StripHash()
    ensures StripSpans("#", "#", "\n") == ""
  {
    assert "#"[0..1] == "#" && OccursAt("#", "#", 0);
    assert Index("#", "#") == 0;
    var after := "#"[1..];
    assert after == "";
    assert Index(after, "\n") < 0 by { ShortHasNo(after, "\n"); }
    assert "#"[..0] == "";
  }

  lemma FieldsOfChar(c: char)
    ensures Fields([c]) == if IsSpace(c) then [] else [[c]]
  {
    FieldsJoin([]);
    if IsSpace(c) {
      FieldsSkipSpace([c], "");
    } else {
      FieldsOfWord([c], "");
    }
    assert [c] + "" == [c];
  }

  /** A statement that a block or dash comment leads is kept, whatever the comment leads. */
  lemma CommentLedIsKept(s: string)
    requires s != "" && (s[0] == '/' || s[0] == '-')
    ensures HeadEnd(s) == 1 && !Skipped(s) && s[..StatementEnd(s)] <= Filter(s)
  {
    hide Decide, Filter, EncodedLen;
    FirstByteDecides(s[0]);
    assert s[..1] == [s[0]];
    FilterStatement(s);
  }

  /** So is one whose CREATE or DROP such a comment, or any other first byte of one, follows. */
  lemma CommentSeparatedIsKept(s: string, kw: string, pad: string, c: char)
    requires DatabaseKeyword(kw) && AllSpace(pad) && (c == '/' || c == '-')
    requires var n := |kw| + |pad|;
             n < |s| && Upper(s[..n]) == kw + pad && s[n] == c && EncodedLen(s[..n]) < MAX_STATEMENT_PREFIX
    ensures HeadEnd(s) == |kw| + |pad| + 1 && !Skipped(s)
  {
    hide Decide, EncodedLen;
    var n := |kw| + |pad|;
    forall j | 1 <= j <= n ensures !Settles(s, j) {
      UndecidedBefore(s, kw, pad, j);
      EncodedLenGrows(s, j, n);
    }
    UpperAt(s, kw + pad, c);
    DecideAtComment(s[..n + 1], kw, pad, c);
    HeadScanFinds(s, 1, n + 1);
  }

  lemma UpperAt(s: string, u: string, c: char)
    requires |u| < |s| && Upper(s[..|u|]) == u && s[|u|] == c && UpperChar(c) == c
    ensures Upper(s[..|u| + 1]) == u + [c]
  {
    hide Upper;
    var v := s[..|u| + 1];
    UpperPrefix(v, |u|);
    assert v[..|u|] == s[..|u|];
    LastApart(Upper(v));
  }

  lemma DecideAtComment(p: string, kw: string, pad: string, c: char)
    requires DatabaseKeyword(kw) && AllSpace(pad) && (c == '/' || c == '-') && Upper(p) == kw + pad + [c]
    ensures Decide(p) == Keep
  {
    hide Fields, Index, Upper, StripSpans;
    var u := Upper(p);
    KeywordPrefix(kw, kw);
    LettersAreTame(kw);
    assert u[..|u| - 1] == kw + pad;
    PatternsNeed(u, c);
    DecidePlain(p);
    if pad == "" {
      assert u == kw + [c];
      FieldsOfWord(u, "");
      assert u + "" == u;
      assert Fields("") == [] by { FieldsJoin([]); }
      assert u[|kw|] == c;
    } else {
      FieldsPadded(kw, pad, [c]);
    }
    assert [c][0] == c;
  }
}
