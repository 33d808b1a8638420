/** Which statements the restore filter is bound to drop, and the imperative form of its prefix
    normalisation (executor/backup.go). */
module RestoreDecision {
  import opened GoStrings
  import opened RestoreFilter

  /** strings.Fields and the three rewriting loops, as the source runs them. */
  method NormalizePrefix(text: string) returns (r: string)
    ensures r == Normalize(text)
  {
    var s := Upper(text);
    s := StripLoop(s, "/*", "*/");
    s := StripLoop(s, "--", "\n");
    s := StripLoop(s, "#", "\n");
    r := Join(Fields(s), " ");
  }

  method StripLoop(text: string, open: string, close: string) returns (s: string)
    requires open != "" && close != ""
    ensures s == StripSpans(text, open, close)
  {
    hide Index, Upper;
    ghost var goal := StripSpans(text, open, close);
    s := text;
    while true
      invariant StripSpans(s, open, close) == goal
      decreases |s|
    {
      var start := Index(s, open);
      if start < 0 { break; }
      var after := s[start + |open|..];
      var end := Index(after, close);
      if end < 0 {
        s := s[..start];
        break;
      }
      s := s[..start] + " " + after[end + |close|..];
    }
  }

  // ---------- Statements that start with USE, CREATE DATABASE or DROP DATABASE ----------

  /** No character of `u` can open a comment or end "DEFINER=". */
  ghost predicate Tame(u: string) {
    forall i :: 0 <= i < |u| ==> u[i] != '/' && u[i] != '-' && u[i] != '#' && u[i] != '='
  }

  lemma TameHasNo(u: string, pat: string, k: nat)
    requires Tame(u) && k < |pat|
    requires pat[k] == '/' || pat[k] == '-' || pat[k] == '#' || pat[k] == '='
    ensures !Contains(u, pat)
  {
    forall i: nat ensures !OccursAt(u, pat, i) {
      if i + |pat| <= |u| { assert u[i..i + |pat|][k] == u[i + k]; }
    }
  }

  lemma TameNormalizes(p: string)
    requires Tame(Upper(p))
    ensures Normalize(p) == Join(Fields(Upper(p)), " ")
  {
    var u := Upper(p);
    TameHasNo(u, "/*", 0);
    TameHasNo(u, "--", 0);
    TameHasNo(u, "#", 0);
    assert StripComments(u) == u;
  }

  /** On text without comments the decision sees the plain fields of the upper-cased prefix. */
  lemma DecideTame(p: string)
    requires Tame(Upper(p))
    ensures Decide(p) == DecideFields(Fields(Upper(p)), HasBlank(p))
  {
    var u := Upper(p);
    TameHasNo(u, "DEFINER=", 7);
    TameNormalizes(p);
    FieldsJoin(Fields(u));
  }

  lemma {:induction false} UpperPrefix(s: string, j: nat)
    requires j <= |s|
    ensures Upper(s[..j]) == Upper(s)[..j]
  {
    assert forall i :: 0 <= i < j ==> Upper(s[..j])[i] == UpperChar(s[i]) == Upper(s)[..j][i];
  }

  /** A white-space character is its own capital, and only it is. */
  lemma NoBlankInWord(p: string)
    requires forall i :: 0 <= i < |p| ==> !IsSpace(Upper(p)[i])
    ensures !HasBlank(p)
  {
    forall i | 0 <= i < |p| ensures !Blank(p[i]) {
      assert Upper(p)[i] == UpperChar(p[i]);
    }
  }

  ghost predicate Keyword(kw: string) {
    kw == "USE" || kw == "CREATE" || kw == "DROP"
  }

  ghost predicate Letters(w: string) {
    forall i :: 0 <= i < |w| ==> 'A' <= w[i] <= 'Z'
  }

  lemma LettersAreTame(w: string)
    requires Letters(w)
    ensures Tame(w) && (w != "" ==> IsWord(w))
  {
  }

  lemma KeywordPrefix(w: string, kw: string)
    requires w <= kw && (Keyword(kw) || kw == "DATABASE")
    ensures Letters(w)
  {
    assert Letters("USE") && Letters("CREATE") && Letters("DROP") && Letters("DATABASE");
    assert forall i :: 0 <= i < |w| ==> w[i] == kw[i];
  }

  /** A prefix that is still inside its first keyword leaves the decision open; USE closes it. */
  lemma DecideKeyword(p: string, kw: string)
    requires Keyword(kw) && p != "" && Upper(p) <= kw
    ensures Decide(p) == if Upper(p) == "USE" then Skip else Undecided
  {
    hide Decide, Normalize, Fields;
    var u := Upper(p);
    KeywordPrefix(u, kw);
    LettersAreTame(u);
    DecideTame(p);
    NoBlankInWord(p);
    FieldsOfWord(u, "");
    assert u + "" == u;
    assert Fields("") == [] by { FieldsJoin([]); }
    DecideFieldsKeyword(u, kw);
  }

  lemma DecideFieldsKeyword(u: string, kw: string)
    requires Keyword(kw) && u != "" && u <= kw
    ensures DecideFields([u], false) == if u == "USE" then Skip else Undecided
  {
    assert |u| <= |kw|;
    assert |u| == |kw| ==> u == kw;
  }

  ghost predicate DatabaseKeyword(kw: string) {
    kw == "CREATE" || kw == "DROP"
  }

  lemma TameConcat(a: string, b: string)
    requires Tame(a) && Tame(b)
    ensures Tame(a + b)
  {
  }

  lemma FieldsPadded(kw: string, pad: string, d: string)
    requires IsWord(kw) && pad != "" && AllSpace(pad) && (d == "" || IsWord(d))
    ensures Fields(kw + pad + d) == if d == "" then [kw] else [kw, d]
  {
    hide Fields;
    assert kw + pad + d == kw + (pad + d);
    FieldsOfWord(kw, pad + d);
    FieldsSkipSpace(pad, d);
    FieldsJoin([]);
    if d != "" {
      FieldsOfWord(d, "");
      assert d + "" == d;
    }
  }

  /** With one plain word behind the keyword, or none, the decision sees just these. */
  lemma DecideSecond(p: string, kw: string, pad: string, d: string)
    requires DatabaseKeyword(kw) && pad != "" && AllSpace(pad) && Tame(d) && (d == "" || IsWord(d))
    requires Upper(p) == kw + pad + d
    ensures Decide(p) == DecideFields(if d == "" then [kw] else [kw, d], HasBlank(p))
  {
    hide Decide, Normalize, Fields, DecideFields, HasBlank;
    KeywordPrefix(kw, kw);
    LettersAreTame(kw);
    TameConcat(kw, pad);
    TameConcat(kw + pad, d);
    DecideTame(p);
    FieldsPadded(kw, pad, d);
  }

  lemma DecidePadded(p: string, kw: string, pad: string, d: string)
    requires DatabaseKeyword(kw) && pad != "" && AllSpace(pad) && d <= "DATABASE"
    requires Upper(p) == kw + pad + d
    ensures Decide(p) == if d == "DATABASE" then Skip else Undecided
  {
    hide Decide, HasBlank;
    KeywordPrefix(d, "DATABASE");
    LettersAreTame(d);
    DecideSecond(p, kw, pad, d);
    DecideFieldsDatabase(kw, d, HasBlank(p));
  }

  lemma DecideFieldsDatabase(kw: string, d: string, hasBlank: bool)
    requires DatabaseKeyword(kw) && d <= "DATABASE"
    ensures DecideFields(if d == "" then [kw] else [kw, d], hasBlank) == if d == "DATABASE" then Skip else Undecided
  {
    assert |d| == 8 ==> d == "DATABASE";
    assert d != "" ==> d[0] == 'D';
  }

  /** A prefix inside the keyword and the white space after it leaves the decision open. */
  lemma UndecidedBefore(s: string, kw: string, pad: string, j: nat)
    requires DatabaseKeyword(kw) && AllSpace(pad) && 1 <= j <= |kw| + |pad| <= |s|
    requires Upper(s[..|kw| + |pad|]) == kw + pad
    ensures Decide(s[..j]) == Undecided
  {
    hide Decide, Upper, Fields, Normalize;
    var n := |kw| + |pad|;
    UpperPrefix(s[..n], j);
    assert s[..n][..j] == s[..j];
    if j <= |kw| {
      assert (kw + pad)[..j] == kw[..j];
      DecideKeyword(s[..j], kw);
      assert kw[..j][0] == kw[0] && "USE"[0] != kw[0];
    } else {
      assert (kw + pad)[..j] == kw + pad[..j - |kw|] + "";
      DecidePadded(s[..j], kw, pad[..j - |kw|], "");
    }
  }

  /** `s` starts, in any letter case, with USE. */
  ghost predicate OpensUse(s: string) {
    |s| >= 3 && Upper(s[..3]) == "USE"
  }

  /** `s` starts, in any letter case, with `kw`, white space `pad` and DATABASE, within 256 bytes. */
  ghost predicate OpensDatabase(s: string, kw: string, pad: string) {
    var n := |kw| + |pad| + 8;
    DatabaseKeyword(kw) && pad != "" && AllSpace(pad)
    && n <= |s| && Upper(s[..n]) == kw + pad + "DATABASE" && EncodedLen(s[..n]) <= MAX_STATEMENT_PREFIX
  }

  lemma {:induction false} HeadScanFinds(s: string, from: nat, h: nat)
    requires 1 <= from <= h <= |s| && Settles(s, h)
    requires forall j :: from <= j < h ==> !Settles(s, j)
    ensures HeadScan(s, from) == h
    decreases h - from
  {
    hide Decide;
    if from < h { HeadScanFinds(s, from + 1, h); }
  }

  lemma UseIsSkipped(s: string)
    requires OpensUse(s)
    ensures Skipped(s) && HeadEnd(s) == 3
  {
    hide Decide;
    forall j | 1 <= j <= 3 ensures Decide(s[..j]) == (if j == 3 then Skip else Undecided) && EncodedLen(s[..j]) <= 6 {
      UpperPrefix(s[..3], j);
      assert s[..3][..j] == s[..j];
      DecideKeyword(s[..j], "USE");
      EncodedLenAtMost(s[..j]);
    }
    HeadScanFinds(s, 1, 3);
  }

  lemma {:induction false} EncodedLenAtMost(s: string)
    ensures EncodedLen(s) <= 2 * |s|
  {
    if s != "" { EncodedLenAtMost(s[..|s| - 1]); }
  }

  lemma DatabaseIsSkipped(s: string, kw: string, pad: string)
    requires OpensDatabase(s, kw, pad)
    ensures Skipped(s) && HeadEnd(s) == |kw| + |pad| + 8
  {
    hide Decide, EncodedLen;
    var n := |kw| + |pad| + 8;
    forall j | 1 <= j <= n ensures Settles(s, j) == (j == n) && Decide(s[..j]) == if j == n then Skip else Undecided {
      DecideOpening(s, kw, pad, j);
      EncodedLenGrows(s, j, n);
    }
    HeadScanFinds(s, 1, n);
  }

  lemma DecideOpening(s: string, kw: string, pad: string, j: nat)
    requires OpensDatabase(s, kw, pad) && 1 <= j <= |kw| + |pad| + 8
    ensures Decide(s[..j]) == if j == |kw| + |pad| + 8 then Skip else Undecided
  {
    hide Decide, EncodedLen, Upper, Fields, Normalize;
    var n, m := |kw| + |pad| + 8, |kw| + |pad|;
    var u := kw + pad + "DATABASE";
    if j <= m {
      UpperPrefix(s[..n], m);
      assert s[..n][..m] == s[..m] && u[..m] == kw + pad;
      UndecidedBefore(s, kw, pad, j);
    } else {
      UpperPrefix(s[..n], j);
      assert s[..n][..j] == s[..j] && u[..j] == kw + pad + "DATABASE"[..j - m];
      DecidePadded(s[..j], kw, pad, "DATABASE"[..j - m]);
    }
  }

  const DEFINER := "DEFINER="

  /** One more byte behind plain text opens no comment. */
  lemma PatternsNeed(u: string, c: char)
    requires u != "" && u[|u| - 1] == c && c != '#' && Tame(u[..|u| - 1])
    requires c == '=' && |u| >= 8 ==> u[|u| - 8..] != DEFINER
    ensures !Contains(u, "/*") && !Contains(u, "--") && !Contains(u, "#") && !Contains(u, DEFINER)
  {
    forall i: nat ensures !OccursAt(u, "/*", i) && !OccursAt(u, "--", i) && !OccursAt(u, "#", i) {
      if i + 1 <= |u| { assert u[i..i + 1][0] == u[i]; }
      if i + 2 <= |u| { assert u[i..i + 2][0] == u[i] && u[i..i + 2][1] == u[i + 1]; }
      assert i < |u| - 1 ==> u[..|u| - 1][i] == u[i];
    }
    forall i: nat ensures !OccursAt(u, DEFINER, i) {
      if i + 8 <= |u| {
        assert u[i..i + 8][7] == u[i + 7];
        assert i + 7 < |u| - 1 ==> u[..|u| - 1][i + 7] == u[i + 7];
        if i + 8 == |u| { assert u[i..i + 8] == u[|u| - 8..]; }
      }
    }
  }

  /** Without comments and DEFINER= the decision sees the plain fields. */
  lemma DecidePlain(p: string)
    requires var u := Upper(p); !Contains(u, "/*") && !Contains(u, "--") && !Contains(u, "#") && !Contains(u, DEFINER)
    ensures Decide(p) == DecideFields(Fields(Upper(p)), HasBlank(p))
  {
    hide DecideFields, HasBlank, Fields, Contains, Upper, Index;
    var u := Upper(p);
    StripsNothing(u, "/*", "*/");
    StripsNothing(u, "--", "\n");
    StripsNothing(u, "#", "\n");
    FieldsJoin(Fields(u));
  }

  lemma StripsNothing(u: string, open: string, close: string)
    requires open != "" && close != "" && !Contains(u, open)
    ensures StripSpans(u, open, close) == u
  {
  }

  /** `s` starts, in any letter case, with CREATE, white space `pad` and DEFINER=, within 256 bytes. */
  ghost predicate OpensDefiner(s: string, pad: string) {
    var n := |pad| + 14;
    && pad != "" && AllSpace(pad) && n <= |s| && Upper(s[..n]) == "CREATE" + pad + DEFINER
    && EncodedLen(s[..n]) <= MAX_STATEMENT_PREFIX
  }

  lemma DefinerLetters(d: string)
    requires d <= DEFINER && d != DEFINER
    ensures Letters(d)
  {
    assert Letters("DEFINER") && DEFINER[..7] == "DEFINER";
    assert forall i :: 0 <= i < |d| ==> d[i] == DEFINER[i];
    assert |d| == 8 ==> d == DEFINER;
  }

  /** A prefix that is still inside DEFINER= leaves the decision open. */
  lemma DecideDefiner(p: string, pad: string, d: string)
    requires pad != "" && AllSpace(pad) && d <= DEFINER && Upper(p) == "CREATE" + pad + d
    ensures Decide(p) == if d == DEFINER then Skip else Undecided
  {
    hide HasBlank, Normalize;
    var u := Upper(p);
    if d == DEFINER {
      assert OccursAt(u, DEFINER, 6 + |pad|);
    } else {
      DefinerLetters(d);
      LettersAreTame(d);
      DecideSecond(p, "CREATE", pad, d);
      assert d != "" ==> d[0] == 'D';
    }
  }

  lemma DefinerIsSkipped(s: string, pad: string)
    requires OpensDefiner(s, pad)
    ensures Skipped(s) && HeadEnd(s) == |pad| + 14
  {
    hide Decide, EncodedLen, Upper;
    var n, m := |pad| + 14, |pad| + 6;
    var u := "CREATE" + pad + DEFINER;
    forall j | 1 <= j <= n ensures Settles(s, j) == (j == n) && Decide(s[..j]) == if j == n then Skip else Undecided {
      UpperPrefix(s[..n], j);
      assert s[..n][..j] == s[..j];
      if j <= m {
        UpperPrefix(s[..n], m);
        assert s[..n][..m] == s[..m] && u[..m] == "CREATE" + pad;
        UndecidedBefore(s, "CREATE", pad, j);
      } else {
        assert u[..j] == "CREATE" + pad + DEFINER[..j - m];
        DecideDefiner(s[..j], pad, DEFINER[..j - m]);
      }
      EncodedLenGrows(s, j, n);
    }
    HeadScanFinds(s, 1, n);
  }

  // ---------- All statements of an input ----------

  /** What the filter is there to drop: statements that select, create or drop a database, or create something
      on behalf of a definer. */
  ghost predicate Unwanted(s: string) {
    OpensUse(s) || (exists kw, pad :: OpensDatabase(s, kw, pad)) || (exists pad :: OpensDefiner(s, pad))
  }

  lemma UnwantedIsSkipped(s: string)
    requires Unwanted(s)
    ensures s != "" && !Blank(s[0]) && Skipped(s)
    ensures s[HeadEnd(s) - 1] != ';'
  {
    hide Decide, EncodedLen;
    var n := 1;
    if OpensUse(s) {
      UseIsSkipped(s);
      n := 3;
    } else if kw, pad :| OpensDatabase(s, kw, pad) {
      DatabaseIsSkipped(s, kw, pad);
      n := |kw| + |pad| + 8;
    } else {
      var pad :| OpensDefiner(s, pad);
      DefinerIsSkipped(s, pad);
      n := |pad| + 14;
    }
    var u := Upper(s[..n]);
    assert u[0] == UpperChar(s[0]) && u[n - 1] == UpperChar(s[n - 1]);
    assert u[n - 1] == 'E' || u[n - 1] == '=';
  }

  /** A statement's fate is that of its text alone. */
  lemma SameFate(s: string, n: nat)
    requires s != "" && HeadEnd(s) <= n <= |s|
    ensures Skipped(s[..n]) == Skipped(s)
  {
    hide Decide, EncodedLen;
    var h, t := HeadEnd(s), s[..n];
    if h < |s| || n < |s| {
      forall j | 1 <= j <= h ensures t[..j] == s[..j] && Settles(t, j) == Settles(s, j) {
        assert t[..j] == s[..j];
      }
      if h < |s| { HeadScanFinds(t, 1, h); }
    } else {
      assert t == s;
    }
  }

  /** Every segment but white space begins with no white space, and is dropped exactly if its text is. */
  lemma {:induction false} SegmentFate(s: string, k: nat)
    requires k < |Segments(s)|
    ensures var seg := Segments(s)[k];
            && seg.text != "" && (seg.Space? <==> Blank(seg.text[0]))
            && (!seg.Space? ==> (seg.Dropped? <==> Skipped(seg.text)))
    decreases |s|
  {
    hide Decide, EncodedLen, Skipped;
    if Blank(s[0]) {
      if k > 0 { SegmentFate(s[1..], k - 1); }
    } else {
      var n := StatementEnd(s);
      if k > 0 {
        SegmentFate(s[n..], k - 1);
      } else {
        SameFate(s, n);
      }
    }
  }

  /** No segment that the filter keeps is unwanted. */
  lemma UnwantedStatementsAreDropped(s: string, k: nat)
    requires k < |Segments(s)|
    ensures Unwanted(Segments(s)[k].text) ==> Segments(s)[k].Dropped?
  {
    hide Decide, EncodedLen, Skipped, Unwanted;
    SegmentFate(s, k);
    if Unwanted(Segments(s)[k].text) { UnwantedIsSkipped(Segments(s)[k].text); }
  }

  /** Such a statement contributes nothing, wherever its end falls. */
  lemma UnwantedLeavesNoByte(s: string)
    requires Unwanted(s)
    ensures s != "" && Filter(s) == Filter(s[StatementEnd(s)..])
  {
    hide Decide, EncodedLen, Unwanted, Filter;
    UnwantedIsSkipped(s);
    FilterStatement(s);
    assert "" + Filter(s[StatementEnd(s)..]) == Filter(s[StatementEnd(s)..]);
  }
}
