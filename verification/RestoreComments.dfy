/** What a comment does in front of a statement or inside its opening (executor/backup.go): the restore filter
    lets whatever follows a leading comment through, sees past a "#" comment between two words, and counts the
    256 bytes of its limit as Go encodes them; the check sees past any leading comment. */
module RestoreComments {
  import opened GoStrings
  import opened RestoreFilter
  import opened RestoreDecision
  import opened RestoreCheck
  import opened RestoreOpenings

  // ---------- The limit ----------

  /** The bytes from 0x80 up. */
  ghost function Wide(s: string): set<int> {
    set i | 0 <= i < |s| && s[i] as int >= 128
  }

  /** Every byte counts once, and those from 0x80 up once more. */
  lemma {:induction false} EncodedLenIs(s: string)
    ensures EncodedLen(s) == |s| + |Wide(s)|
  {
    if s != "" {
      var n := |s| - 1;
      EncodedLenIs(s[..n]);
      var more := if s[n] as int >= 128 then {n} else {};
      assert Wide(s) == Wide(s[..n]) + more;
    }
  }

  /** A head whose decision does not fall ends with the byte that makes the count 256, or with the input. */
  lemma UndecidedHead(s: string)
    requires s != "" && Decide(s[..HeadEnd(s)]) == Undecided
    ensures var h := HeadEnd(s);
            (h < |s| ==> h + |Wide(s[..h])| >= 256) && h - 1 + |Wide(s[..h - 1])| < 256
  {
    hide Decide;
    var h := HeadEnd(s);
    EncodedLenIs(s[..h]);
    EncodedLenIs(s[..h - 1]);
    assert h > 1 ==> !Settles(s, h - 1);
    assert h == 1 ==> s[..h - 1] == "";
  }

  // ---------- Taking one comment out ----------

  lemma SplitText(a: string, open: string, v: string)
    ensures (a + open + v)[|a| + |open|..] == v && (a + open + v)[..|a|] == a
  {
  }

  /** A comment that is not closed goes to the end. */
  lemma OpenCommentGoes(a: string, open: string, c: string, close: string)
    requires open != "" && close != "" && Index(a + open + c, open) == |a| && Index(c, close) < 0
    ensures StripSpans(a + open + c, open, close) == a
  {
    hide *;
    SplitText(a, open, c);
    CommentStep(a + open + c, open, close);
  }

  /** A comment goes, with all that is in it. */
  lemma ClosedCommentGoes(a: string, open: string, c: string, close: string, tail: string)
    requires open != "" && close != "" && Index(a + open + (c + close + tail), open) == |a|
    requires Index(c + close + tail, close) == |c|
    ensures StripSpans(a + open + (c + close + tail), open, close) == StripSpans(a + " " + tail, open, close)
  {
    hide *;
    var after := c + close + tail;
    SplitText(a, open, after);
    SplitText(c, close, tail);
    CommentStep(a + open + after, open, close);
  }

  /** Without DEFINER= the decision sees what is left without comments. */
  lemma DecideStripped(p: string)
    requires !Contains(Upper(p), DEFINER)
    ensures Decide(p) == DecideFields(Fields(StripComments(Upper(p))), HasBlank(p))
  {
    hide DecideFields, HasBlank, Fields, Upper, StripComments, Contains;
    FieldsJoin(Fields(StripComments(Upper(p))));
  }

  /** A text with a "#" comment in it, and what is left of it. */
  ghost predicate HashText(u: string, a: string, c: string, closed: bool, tail: string) {
    && '#' !in a && '\n' !in c && '#' !in tail && !Contains(u, "/*") && !Contains(u, "--")
    && u == if closed then a + "#" + c + "\n" + tail else a + "#" + c
  }

  lemma HashStrips(u: string, a: string, c: string, closed: bool, tail: string)
    requires HashText(u, a, c, closed, tail)
    ensures StripComments(u) == if closed then a + " " + tail else a
  {
    hide StripSpans, Index, Contains;
    StripsNothing(u, "/*", "*/");
    StripsNothing(u, "--", "\n");
    if closed {
      assert u == a + ['#'] + (c + "\n" + tail);
      IndexOfChar(a, '#', c + "\n" + tail);
      IndexOfChar(c, '\n', tail);
      ClosedCommentGoes(a, "#", c, "\n", tail);
      NoHash(a + " " + tail);
    } else {
      assert u == a + ['#'] + c;
      IndexOfChar(a, '#', c);
      IndexOfChar(c, '\n', "");
      OpenCommentGoes(a, "#", c, "\n");
    }
  }

  lemma NoHash(u: string)
    requires '#' !in u
    ensures StripSpans(u, "#", "\n") == u
  {
    hide Index, Contains;
    IndexOfChar(u, '#', "");
  }

  // ---------- A "#" comment between two words ----------

  /** Where a pattern occurs in a text of two parts: in one of them, or across the seam. */
  lemma OccursSomewhere(x: string, y: string, pat: string, i: nat)
    requires pat != "" && OccursAt(x + y, pat, i)
    ensures || OccursAt(x, pat, i) || (i >= |x| && OccursAt(y, pat, i - |x|))
            || (x != "" && y != "" && x[|x| - 1] in pat && y[0] in pat)
  {
    var u, e := x + y, i + |pat|;
    if e <= |x| {
      assert x[i..e] == u[i..e];
    } else if |x| <= i {
      assert y[i - |x|..e - |x|] == u[i..e];
    } else {
      assert u[i..e][|x| - 1 - i] == x[|x| - 1] && u[i..e][|x| - i] == y[0];
    }
  }

  /** A pattern that is in neither part of a text, and has not both characters at the seam, is not in the text. */
  lemma NotAtSeam(x: string, y: string, pat: string)
    requires pat != "" && !Contains(x, pat) && !Contains(y, pat)
    requires x == "" || y == "" || x[|x| - 1] !in pat || y[0] !in pat
    ensures !Contains(x + y, pat)
  {
    hide Contains, OccursAt;
    if Contains(x + y, pat) {
      var i: nat :| OccursAt(x + y, pat, i);
      OccursSomewhere(x, y, pat, i);
    }
  }

  lemma NotAround(u: string, front: string, c: string, back: string, pat: string)
    requires u == front + c + back && pat != ""
    requires !Contains(front, pat) && !Contains(c, pat) && !Contains(back, pat)
    requires front != "" ==> front[|front| - 1] !in pat
    requires back != "" ==> back[0] !in pat
    ensures !Contains(u, pat)
  {
    hide Contains;
    NotAtSeam(front, c, pat);
    NotAtSeam(front + c, back, pat);
  }

  /** What a "#" comment may hold so that it is just that, and nothing in it makes the decision. */
  ghost predicate HashBody(c: string) {
    '\n' !in c && !Contains(c, "/*") && !Contains(c, "--") && !Contains(c, DEFINER)
  }

  /** `s` is, in any letter case, `kw`, white space, a "#" comment up to a line break, white space and DATABASE,
      within the limit. */
  ghost predicate HashSeparated(s: string, kw: string, pad: string, c: string, gap: string) {
    var u := kw + pad + "#" + c + "\n" + gap + "DATABASE";
    && DatabaseKeyword(kw) && AllSpace(pad) && AllSpace(gap) && HashBody(c)
    && |u| <= |s| && Upper(s[..|u|]) == u && EncodedLen(s[..|u|]) <= MAX_STATEMENT_PREFIX
  }

  lemma TameHash(u: string, a: string, c: string, closed: bool, tail: string)
    requires Tame(a) && HashBody(c) && Tame(tail)
    requires u == if closed then a + "#" + c + "\n" + tail else a + "#" + c
    ensures HashText(u, a, c, closed, tail) && !Contains(u, DEFINER)
  {
    var front, back := a + "#", if closed then "\n" + tail else "";
    assert u == front + c + back;
    PlainPiece(front);
    PlainPiece(back);
    SeparatorsApart('#');
    SeparatorsApart('\n');
    hide Contains;
    NotAround(u, front, c, back, "/*");
    NotAround(u, front, c, back, "--");
    NotAround(u, front, c, back, DEFINER);
  }

  lemma SeparatorsApart(c: char)
    requires c == '#' || IsSpace(c)
    ensures c !in "/*" && c !in "--" && c !in DEFINER
  {
    assert forall i :: 0 <= i < 8 ==> DEFINER[i] != '#' && !IsSpace(DEFINER[i]);
  }

  lemma PlainPiece(v: string)
    requires forall i :: 0 <= i < |v| ==> v[i] != '/' && v[i] != '-' && v[i] != '='
    ensures !Contains(v, "/*") && !Contains(v, "--") && !Contains(v, DEFINER)
  {
    forall i: nat ensures !OccursAt(v, "/*", i) && !OccursAt(v, "--", i) && !OccursAt(v, DEFINER, i) {
      if i + 2 <= |v| { assert v[i..i + 2][0] == v[i]; }
      if i + 8 <= |v| { assert v[i..i + 8][7] == v[i + 7]; }
    }
  }

  lemma HashBodyStart(c: string, k: nat)
    requires HashBody(c) && k <= |c|
    ensures HashBody(c[..k])
  {
    NotInStart(c, k, "/*");
    NotInStart(c, k, "--");
    NotInStart(c, k, DEFINER);
  }

  lemma NotInStart(c: string, k: nat, pat: string)
    requires k <= |c| && !Contains(c, pat)
    ensures !Contains(c[..k], pat)
  {
    forall i: nat ensures !OccursAt(c[..k], pat, i) {
      if i + |pat| <= k {
        assert c[..k][i..i + |pat|] == c[i..i + |pat|];
        assert !OccursAt(c, pat, i);
      }
    }
  }

  lemma DecideHash(p: string, kw: string, pad: string, c: string, closed: bool, gap: string, d: string)
    requires DatabaseKeyword(kw) && AllSpace(pad) && AllSpace(gap) && HashBody(c) && d <= "DATABASE"
    requires Upper(p) == if closed then kw + pad + "#" + c + "\n" + (gap + d) else kw + pad + "#" + c
    requires !closed ==> gap == "" && d == ""
    ensures Decide(p) == if d == "DATABASE" then Skip else Undecided
  {
    hide HasBlank, StripSpans, Upper, Fields, Contains, DecideFields, StripComments, Decide;
    var u := Upper(p);
    KeywordPrefix(kw, kw);
    KeywordPrefix(d, "DATABASE");
    LettersAreTame(kw);
    LettersAreTame(d);
    TameConcat(kw, pad);
    TameConcat(gap, d);
    TameHash(u, kw + pad, c, closed, gap + d);
    HashStrips(u, kw + pad, c, closed, gap + d);
    DecideFieldsDatabase(kw, d, HasBlank(p));
    var fields := Fields(StripComments(u));
    if closed {
      assert kw + pad + " " + (gap + d) == kw + (pad + " " + gap) + d;
      FieldsPadded(kw, pad + " " + gap, d);
      assert fields == if d == "" then [kw] else [kw, d];
    } else if pad == "" {
      FieldsOfWord(kw, "");
      assert kw + "" == kw && kw + pad == kw;
      assert Fields("") == [] by { FieldsJoin([]); }
      assert fields == [kw];
    } else {
      assert kw + pad + "" == kw + pad;
      FieldsPadded(kw, pad, "");
      assert fields == [kw];
    }
    DecideStripped(p);
  }

  lemma DecideHashPrefix(s: string, kw: string, pad: string, c: string, gap: string, j: nat)
    requires HashSeparated(s, kw, pad, c, gap) && 1 <= j <= |kw| + |pad| + |c| + |gap| + 10
    ensures Decide(s[..j]) == if j == |kw| + |pad| + |c| + |gap| + 10 then Skip else Undecided
  {
    hide Decide, EncodedLen, Upper;
    var u := kw + pad + "#" + c + "\n" + gap + "DATABASE";
    var m, k := |kw| + |pad|, |kw| + |pad| + 1 + |c|;
    UpperPrefix(s[..|u|], j);
    assert s[..|u|][..j] == s[..j];
    if j <= m {
      UpperPrefix(s[..|u|], m);
      assert s[..|u|][..m] == s[..m] && u[..m] == kw + pad;
      UndecidedBefore(s, kw, pad, j);
    } else if j <= k {
      assert u[..j] == kw + pad + "#" + c[..j - m - 1];
      HashBodyStart(c, j - m - 1);
      DecideHash(s[..j], kw, pad, c[..j - m - 1], false, "", "");
    } else {
      var tail := gap + "DATABASE";
      assert u == kw + pad + "#" + c + "\n" + tail;
      assert u[..j] == kw + pad + "#" + c + "\n" + tail[..j - k - 1];
      var g := if j - k - 1 <= |gap| then gap[..j - k - 1] else gap;
      var d := if j - k - 1 <= |gap| then "" else "DATABASE"[..j - k - 1 - |gap|];
      assert tail[..j - k - 1] == g + d;
      DecideHash(s[..j], kw, pad, c, true, g, d);
    }
  }

  /** CREATE DATABASE and DROP DATABASE are dropped with such a comment between the two words. */
  lemma HashSeparatedIsSkipped(s: string, kw: string, pad: string, c: string, gap: string)
    requires HashSeparated(s, kw, pad, c, gap)
    ensures HeadEnd(s) == |kw| + |pad| + |c| + |gap| + 10 && Skipped(s)
    ensures Filter(s) == Filter(s[StatementEnd(s)..])
  {
    hide Decide, EncodedLen, Filter;
    var n := |kw| + |pad| + |c| + |gap| + 10;
    forall j | 1 <= j <= n ensures Settles(s, j) == (j == n) && Decide(s[..j]) == if j == n then Skip else Undecided {
      DecideHashPrefix(s, kw, pad, c, gap, j);
      EncodedLenGrows(s, j, n);
    }
    HeadScanFinds(s, 1, n);
    assert Upper(s[..n])[0] == UpperChar(s[0]) == kw[0];
    FilterStatement(s);
    assert "" + Filter(s[StatementEnd(s)..]) == Filter(s[StatementEnd(s)..]);
  }

  // ---------- A leading "#" comment ----------

  /** `s` is a "#" comment up to a line break, white space, and another byte that opens no "#" comment, within
      the limit. */
  ghost predicate HashLed(s: string, c: string, pad: string) {
    var n := |c| + |pad| + 2;
    && HashBody(c) && AllSpace(pad) && n < |s| && Upper(s[..n]) == "#" + c + "\n" + pad
    && !IsSpace(s[n]) && s[n] != '#' && EncodedLen(s[..n]) < MAX_STATEMENT_PREFIX
  }

  lemma DecideLed(p: string, c: string, closed: bool, pad: string)
    requires HashBody(c) && AllSpace(pad)
    requires Upper(p) == if closed then "#" + c + "\n" + pad else "#" + c
    ensures Decide(p) == Undecided
  {
    hide HasBlank, StripSpans, Upper, Fields, Contains, StripComments, Decide;
    var u := Upper(p);
    assert "" + "#" + c == "#" + c;
    TameHash(u, "", c, closed, if closed then pad else "");
    HashStrips(u, "", c, closed, if closed then pad else "");
    assert Fields("") == [] by { FieldsJoin([]); }
    FieldsSkipSpace(" " + pad, "");
    assert (" " + pad) + "" == "" + " " + pad;
    DecideStripped(p);
  }

  /** The byte behind the comment decides, whatever statement it begins. */
  lemma DecideBehind(p: string, c: string, pad: string, b: char)
    requires HashBody(c) && AllSpace(pad) && !IsSpace(b) && b != '#'
    requires Upper(p) == "#" + c + "\n" + (pad + [b]) && HasBlank(p)
    ensures Decide(p) == Keep
  {
    hide HasBlank, StripSpans, Upper, Fields, StripComments, Decide;
    var u := Upper(p);
    assert u == "" + "#" + c + "\n" + (pad + [b]);
    LastByteOpensNone(u, c, pad, b);
    HashStrips(u, "", c, true, pad + [b]);
    assert "" + " " + (pad + [b]) == (" " + pad) + [b];
    FieldsSkipSpace(" " + pad, [b]);
    FieldsOfWord([b], "");
    assert [b] + "" == [b];
    assert Fields("") == [] by { FieldsJoin([]); }
    DecideStripped(p);
  }

  lemma LastByteOpensNone(u: string, c: string, pad: string, b: char)
    requires HashBody(c) && AllSpace(pad) && b != '#'
    requires u == "" + "#" + c + "\n" + (pad + [b])
    ensures HashText(u, "", c, true, pad + [b]) && !Contains(u, DEFINER)
  {
    var back := "\n" + (pad + [b]);
    assert u == "#" + c + back;
    PlainPiece("#");
    EndsInByte(back);
    SeparatorsApart('#');
    SeparatorsApart('\n');
    hide Contains;
    NotAround(u, "#", c, back, "/*");
    NotAround(u, "#", c, back, "--");
    NotAround(u, "#", c, back, DEFINER);
  }

  lemma EndsInByte(v: string)
    requires |v| > 1 && AllSpace(v[..|v| - 1])
    ensures !Contains(v, "/*") && !Contains(v, "--") && !Contains(v, DEFINER)
  {
    forall i | 0 <= i < |v| - 1 ensures IsSpace(v[i]) { assert v[i] == v[..|v| - 1][i]; }
    forall i: nat ensures !OccursAt(v, "/*", i) && !OccursAt(v, "--", i) && !OccursAt(v, DEFINER, i) {
      if i + 2 <= |v| { assert v[i..i + 2][0] == v[i]; }
      if i + 8 <= |v| { assert v[i..i + 8][0] == v[i]; }
    }
  }

  /** Whatever a leading "#" comment leads is kept, be it USE or CREATE DATABASE. */
  lemma HashLedIsKept(s: string, c: string, pad: string)
    requires HashLed(s, c, pad)
    ensures HeadEnd(s) == |c| + |pad| + 3 && !Skipped(s)
    ensures s[..StatementEnd(s)] <= Filter(s)
  {
    hide Decide, EncodedLen, Filter, Upper;
    var n, m := |c| + |pad| + 2, |c| + 1;
    var u := "#" + c + "\n" + pad;
    forall j | 1 <= j <= n ensures !Settles(s, j) {
      UpperPrefix(s[..n], j);
      assert s[..n][..j] == s[..j];
      if j <= m {
        assert u[..j] == "#" + c[..j - 1];
        HashBodyStart(c, j - 1);
        DecideLed(s[..j], c[..j - 1], false, "");
      } else {
        assert u[..j] == "#" + c + "\n" + pad[..j - m - 1];
        DecideLed(s[..j], c, true, pad[..j - m - 1]);
      }
      EncodedLenGrows(s, j, n);
    }
    UpperLast(s, n);
    LineBreakStays(s, n, m);
    assert u + [UpperChar(s[n])] == "#" + c + "\n" + (pad + [UpperChar(s[n])]);
    DecideBehind(s[..n + 1], c, pad, UpperChar(s[n]));
    HeadScanFinds(s, 1, n + 1);
    assert Upper(s[..n])[0] == UpperChar(s[0]) by { UpperAtZero(s, n); }
    FilterStatement(s);
  }

  lemma UpperAtZero(s: string, n: nat)
    requires 0 < n <= |s|
    ensures Upper(s[..n])[0] == UpperChar(s[0])
  {
  }

  lemma UpperLast(s: string, n: nat)
    requires n < |s|
    ensures Upper(s[..n + 1]) == Upper(s[..n]) + [UpperChar(s[n])]
    ensures IsSpace(UpperChar(s[n])) <==> IsSpace(s[n])
    ensures UpperChar(s[n]) == '#' <==> s[n] == '#'
  {
    var v := s[..n + 1];
    UpperPrefix(v, n);
    assert v[..n] == s[..n];
    LastApart(Upper(v));
  }

  lemma LineBreakStays(s: string, n: nat, m: nat)
    requires m < n <= |s| && Upper(s[..n])[m] == '\n' && n < |s|
    ensures HasBlank(s[..n + 1])
  {
    assert Upper(s[..n])[m] == UpperChar(s[m]);
    assert s[..n + 1][m] == s[m] == '\n';
  }

  // ---------- What the check sees behind a leading comment ----------

  predicate CommentMarks(open: string, close: string) {
    (open == "/*" && close == "*/") || (open == "--" && close == "\n") || (open == "#" && close == "\n")
  }

  /** What a comment may hold so that it ends where it should, and no comment that is taken out before is in
      it. */
  ghost predicate CommentBody(open: string, c: string) {
    if open == "/*" then Index(c + "*/", "*/") == |c|
    else '\n' !in c && !Contains(c, "/*") && (open == "#" ==> !Contains(c, "--"))
  }

  /** `s` is a comment, white space, and then, in any letter case, CREATE, white space and TABLE, within the
      check's limit. */
  ghost predicate CommentedTable(s: string, open: string, c: string, close: string, gap: string, pad: string) {
    var u := open + c + close + (gap + ("CREATE" + pad + "TABLE"));
    && CommentMarks(open, close) && CommentBody(open, c) && Quoteless(c)
    && AllSpace(gap) && pad != "" && AllSpace(pad)
    && |u| <= |s| && Upper(s[..|u|]) == u && EncodedLen(s[..|u| - 1]) < MAX_CHECKED_PREFIX
  }

  lemma OneCommentGoes(u: string, open: string, c: string, close: string, tail: string)
    requires CommentMarks(open, close) && CommentBody(open, c) && Tame(tail)
    requires u == open + c + close + tail
    ensures StripComments(u) == " " + tail
  {
    NoMarks(" " + tail);
    NotBefore(u, open, c, close, tail);
    FirstClose(open, c, close, tail);
    hide StripSpans, Contains, Index;
    StripsAtStart(u, open, c, close, tail);
    if open != "/*" {
      StripsNothing(u, "/*", "*/");
      if open == "#" { StripsNothing(u, "--", "\n"); }
    }
  }

  lemma StripsAtStart(u: string, open: string, c: string, close: string, tail: string)
    requires CommentMarks(open, close) && u == open + c + close + tail && Index(c + close + tail, close) == |c|
    ensures StripSpans(u, open, close) == StripSpans(" " + tail, open, close)
  {
    hide StripSpans, Contains, Index;
    OnceAtStart(u, open);
    Regroup(open, c, close, tail);
    ClosedCommentGoes("", open, c, close, tail);
    assert "" + " " + tail == " " + tail;
  }

  lemma Regroup(open: string, c: string, close: string, tail: string)
    ensures open + c + close + tail == "" + open + (c + close + tail)
  {
  }

  lemma OnceAtStart(u: string, open: string)
    requires open <= u
    ensures Index(u, open) == 0
  {
    assert OccursAt(u, open, 0);
  }

  lemma FirstClose(open: string, c: string, close: string, tail: string)
    requires CommentMarks(open, close) && CommentBody(open, c)
    ensures Index(c + close + tail, close) == |c|
  {
    if open == "/*" {
      var short, v := c + close, c + close + tail;
      assert v[|c|..|c| + 2] == short[|c|..|c| + 2] == close;
      assert OccursAt(v, close, |c|);
      forall i: nat | i < |c| ensures !OccursAt(v, close, i) {
        assert !OccursAt(short, close, i);
        assert short[i..i + 2] == v[i..i + 2];
      }
    } else {
      IndexOfChar(c, '\n', tail);
    }
  }

  lemma NoMarks(v: string)
    requires Tame(v)
    ensures StripSpans(v, "/*", "*/") == v && StripSpans(v, "--", "\n") == v && StripSpans(v, "#", "\n") == v
  {
    hide Contains;
    TameHasNo(v, "/*", 0);
    TameHasNo(v, "--", 0);
    TameHasNo(v, "#", 0);
  }

  /** None of the comments that are taken out earlier. */
  lemma NotBefore(u: string, open: string, c: string, close: string, tail: string)
    requires CommentMarks(open, close) && CommentBody(open, c) && Tame(tail) && u == open + c + close + tail
    ensures open != "/*" ==> !Contains(u, "/*")
    ensures open == "#" ==> !Contains(u, "--")
  {
    if open != "/*" {
      var back := close + tail;
      assert u == open + c + back;
      MarksApart(open);
      PlainPiece(back);
      SeparatorsApart('\n');
      hide Contains;
      NotAround(u, open, c, back, "/*");
      if open == "#" {
        SeparatorsApart('#');
        NotAround(u, open, c, back, "--");
      }
    }
  }

  lemma MarksApart(open: string)
    requires open == "--" || open == "#"
    ensures !Contains(open, "/*") && (open == "#" ==> !Contains(open, "--")) && open[|open| - 1] !in "/*"
  {
    forall i: nat ensures !OccursAt(open, "/*", i) && (open == "#" ==> !OccursAt(open, "--", i)) {
      if i + 2 <= |open| { assert open[i..i + 2][0] == open[i]; }
    }
  }

  /** An input is accepted if one of its statements is a comment with CREATE TABLE behind it. */
  lemma CommentedTableIsAccepted(s: string, k: nat, open: string, c: string, close: string, gap: string, pad: string)
    requires k < |Statements(s)| && CommentedTable(Statements(s)[k], open, c, close, gap, pad)
    ensures SomeDeclares(Statements(s))
  {
    hide Statements, Normalize, EncodedLen, Upper, Tame;
    var text := Statements(s)[k];
    var u := open + c + close + (gap + ("CREATE" + pad + "TABLE"));
    var n := |u|;
    var p, rest := text[..n], text[n..];
    assert text == p + rest;
    NoQuotes(p, u, open, c, close, gap, pad);
    OutlineQuoteless(p, rest);
    TableBehind(p, open, c, close, gap, pad);
    var o := Outline(Plain, text);
    assert o[..n] == p && o[..n - 1] == text[..n - 1];
    assert DeclaresAt(o, n);
  }

  lemma NoQuotes(p: string, u: string, open: string, c: string, close: string, gap: string, pad: string)
    requires CommentMarks(open, close) && Quoteless(c) && AllSpace(gap) && AllSpace(pad) && Upper(p) == u
    requires u == open + c + close + (gap + ("CREATE" + pad + "TABLE"))
    ensures Quoteless(p)
  {
    hide *;
    MarksAreQuoteless(open, close);
    SpacesAreQuoteless(gap);
    SpacesAreQuoteless(pad);
    QuotelessConcat("CREATE", pad);
    QuotelessConcat("CREATE" + pad, "TABLE");
    QuotelessConcat(gap, "CREATE" + pad + "TABLE");
    QuotelessConcat(open, c);
    QuotelessConcat(open + c, close);
    QuotelessConcat(open + c + close, gap + ("CREATE" + pad + "TABLE"));
    QuotelessUpper(p);
  }

  lemma MarksAreQuoteless(open: string, close: string)
    requires CommentMarks(open, close)
    ensures Quoteless("CREATE") && Quoteless("TABLE") && Quoteless(open) && Quoteless(close)
  {
  }

  lemma QuotelessConcat(a: string, b: string)
    requires Quoteless(a) && Quoteless(b)
    ensures Quoteless(a + b)
  {
  }

  lemma QuotelessUpper(p: string)
    requires Quoteless(Upper(p))
    ensures Quoteless(p)
  {
    forall i | 0 <= i < |p| ensures p[i] != '\'' && p[i] != '"' && p[i] != '`' {
      assert Upper(p)[i] == UpperChar(p[i]);
    }
  }

  lemma SpacesAreQuoteless(pad: string)
    requires AllSpace(pad)
    ensures Quoteless(pad)
  {
  }

  lemma TableBehind(p: string, open: string, c: string, close: string, gap: string, pad: string)
    requires CommentMarks(open, close) && CommentBody(open, c)
    requires AllSpace(gap) && pad != "" && AllSpace(pad)
    requires Upper(p) == open + c + close + (gap + ("CREATE" + pad + "TABLE"))
    ensures Normalize(p) == "CREATE TABLE"
  {
    hide Fields, StripComments, Upper;
    var table := "CREATE" + pad + "TABLE";
    LettersAreTame("CREATE");
    LettersAreTame("TABLE");
    TameConcat("CREATE", pad);
    TameConcat("CREATE" + pad, "TABLE");
    TameConcat(gap, table);
    OneCommentGoes(Upper(p), open, c, close, gap + table);
    assert " " + (gap + table) == (" " + gap) + table;
    FieldsSkipSpace(" " + gap, table);
    FieldsPadded("CREATE", pad, "TABLE");
    assert ["CREATE", "TABLE"][1..] == ["TABLE"];
  }
}
