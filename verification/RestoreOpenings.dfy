/** Which statements the restore filter keeps (executor/backup.go), told by their first two words. */
module RestoreOpenings {
  import opened GoStrings
  import opened RestoreFilter
  import opened RestoreDecision

  /** `w` is, in any letter case, the word at position `i`: up to a blank or the end, and without `#`. */
  ghost predicate WordAt(s: string, i: nat, w: string) {
    && i + |w| <= |s| && IsWord(w) && '#' !in w && Upper(s[i..i + |w|]) == w
    && (i + |w| < |s| ==> Blank(s[i + |w|]))
  }

  /** `s` starts, in any letter case, with the keyword and white space. */
  ghost predicate KeywordAt(s: string, kw: string, pad: string) {
    && DatabaseKeyword(kw) && pad != "" && AllSpace(pad)
    && |kw| + |pad| <= |s| && Upper(s[..|kw| + |pad|]) == kw + pad
  }

  /** The beginning of a word that may follow CREATE or DROP in a statement to be dropped. */
  predicate HalfWord(kw: string, w: string) {
    (w <= "DATABASE" && w != "DATABASE") || (kw == "CREATE" && w <= DEFINER && w != DEFINER)
  }

  // ---------- Keeping ----------

  /** A prefix that settles on Keep after open ones keeps the statement, whether or not the limit comes first. */
  lemma KeptBy(s: string, n: nat)
    requires s != "" && n <= |s|
    requires forall j :: 1 <= j <= n ==> Decide(s[..j]) != Skip
    requires (1 <= n && Decide(s[..n]) == Keep) || n == |s|
    ensures !Skipped(s) && HeadEnd(s) <= n
  {
    hide Decide, EncodedLen;
    if 1 <= n && Decide(s[..n]) == Keep { assert Settles(s, n); }
  }

  // ---------- The first word ----------

  predicate InKeyword(w: string) {
    w <= "USE" || w <= "CREATE" || w <= "DROP"
  }

  /** The first length at which a word is no beginning of a keyword any more. */
  lemma {:induction false} LeavesKeywords(w: string, from: nat) returns (n: nat)
    requires from <= |w| + 1
    ensures from <= n <= |w| + 1 && forall k :: from <= k < n ==> InKeyword(w[..k])
    ensures n <= |w| ==> !InKeyword(w[..n])
    decreases |w| + 1 - from
  {
    if from == |w| + 1 || !InKeyword(w[..from]) {
      n := from;
    } else {
      n := LeavesKeywords(w, from + 1);
    }
  }

  lemma KeywordLetters(p: string)
    requires InKeyword(p)
    ensures Letters(p) && |p| <= 6
  {
    var kw := if p <= "USE" then "USE" else if p <= "CREATE" then "CREATE" else "DROP";
    KeywordPrefix(p, kw);
  }

  /** The character that leaves the keywords keeps the statement. */
  lemma KeptAtLetter(p: string, w: string, c: char)
    requires InKeyword(w) && !InKeyword(w + [c]) && !IsSpace(c) && c != '#' && Upper(p) == w + [c]
    ensures Decide(p) == Keep
  {
    hide HasBlank, Fields, Upper, Decide;
    KeywordLetters(w);
    LettersAreTame(w);
    var u := w + [c];
    assert u[..|u| - 1] == w;
    PatternsNeed(u, c);
    DecidePlain(p);
    assert IsWord(u);
    FieldsOfWord(u, "");
    assert u + "" == u && Fields("") == [] by { FieldsJoin([]); }
  }

  /** So does a blank inside a keyword. */
  lemma KeptAtBlank(p: string, w: string, b: char)
    requires InKeyword(w) && w != "" && w !in {"USE", "CREATE", "DROP"} && Blank(b) && Upper(p) == w + [b]
    requires p[|p| - 1] == b
    ensures Decide(p) == Keep
  {
    hide Fields, Upper, Decide;
    KeywordLetters(w);
    LettersAreTame(w);
    var u := w + [b];
    assert u[..|u| - 1] == w;
    PatternsNeed(u, b);
    DecidePlain(p);
    FieldsOfWord(w, [b]);
    OneSpace(b);
    assert HasBlank(p);
    LongestKeywords(w);
  }

  lemma OneSpace(b: char)
    requires IsSpace(b)
    ensures Fields([b]) == []
  {
    FieldsJoin([]);
    FieldsSkipSpace([b], "");
    assert [b] + "" == [b];
  }

  lemma LongestKeywords(w: string)
    requires w !in {"USE", "CREATE", "DROP"}
    ensures w != "USE" && w != "CREATE" && w != "DROP"
  {
  }

  /** An open prefix: inside a keyword, and not USE. */
  lemma OpenInKeyword(p: string)
    requires p != "" && InKeyword(Upper(p)) && Upper(p) != "USE"
    ensures Decide(p) == Undecided
  {
    hide Decide, Upper;
    var u := Upper(p);
    var kw := if u <= "USE" then "USE" else if u <= "CREATE" then "CREATE" else "DROP";
    DecideKeyword(p, kw);
  }

  /** A statement whose first word does not start with USE and is neither CREATE nor DROP is kept. */
  lemma OtherFirstWordIsKept(s: string, w: string)
    requires WordAt(s, 0, w) && !("USE" <= w) && w != "CREATE" && w != "DROP"
    ensures !Skipped(s)
  {
    hide Decide, EncodedLen, Upper, InKeyword;
    assert s[0..|w|] == s[..|w|];
    EmptyInKeyword();
    var n := LeavesKeywords(w, 1);
    forall j | 1 <= j <= |w| ensures Upper(s[..j]) == w[..j] {
      UpperPrefix(s[..|w|], j);
      assert s[..|w|][..j] == s[..j];
    }
    forall j | 1 <= j < n ensures Decide(s[..j]) == Undecided {
      assert w[..j] == "USE" ==> "USE" <= w;
      OpenInKeyword(s[..j]);
    }
    if n <= |w| {
      if n > 1 { assert InKeyword(w[..n - 1]); } else { assert w[..0] == ""; }
      assert w[..n] == w[..n - 1] + [w[n - 1]];
      KeptAtLetter(s[..n], w[..n - 1], w[n - 1]);
      KeptBy(s, n);
    } else if |w| == |s| {
      KeptBy(s, |s|);
    } else {
      assert w[..|w|] == w;
      var b := s[|w|];
      UpperBlank(s, w, b);
      KeptAtBlank(s[..|w| + 1], w, b);
      KeptBy(s, |w| + 1);
    }
  }

  lemma EmptyInKeyword()
    ensures InKeyword("")
  {
  }

  /** A blank is its own capital. */
  lemma UpperBlank(s: string, u: string, b: char)
    requires |u| < |s| && Upper(s[..|u|]) == u && s[|u|] == b && Blank(b)
    ensures Upper(s[..|u| + 1]) == u + [b]
  {
    hide Upper;
    var v := s[..|u| + 1];
    UpperPrefix(v, |u|);
    assert v[..|u|] == s[..|u|];
    LastApart(Upper(v));
  }

  // ---------- The word after CREATE or DROP ----------

  predicate OpenSecond(kw: string, w: string) {
    w <= "DATABASE" || (kw == "CREATE" && w <= DEFINER)
  }

  lemma {:induction false} LeavesSecond(kw: string, w: string, from: nat) returns (n: nat)
    requires from <= |w| + 1
    ensures from <= n <= |w| + 1 && forall k :: from <= k < n ==> OpenSecond(kw, w[..k])
    ensures n <= |w| ==> !OpenSecond(kw, w[..n])
    decreases |w| + 1 - from
  {
    if from == |w| + 1 || !OpenSecond(kw, w[..from]) {
      n := from;
    } else {
      n := LeavesSecond(kw, w, from + 1);
    }
  }

  lemma HalfLetters(kw: string, w: string)
    requires HalfWord(kw, w)
    ensures Letters(w) && |w| <= 7
  {
    if w <= "DATABASE" {
      KeywordPrefix(w, "DATABASE");
      assert |w| == 8 ==> w == "DATABASE";
    } else {
      DefinerLetters(w);
      assert |w| == 8 ==> w == DEFINER;
    }
  }

  lemma OpenAtHalf(p: string, kw: string, pad: string, w: string)
    requires DatabaseKeyword(kw) && pad != "" && AllSpace(pad) && HalfWord(kw, w) && Upper(p) == kw + pad + w
    ensures Decide(p) == Undecided
  {
    hide Decide, Upper;
    if w <= "DATABASE" { DecidePadded(p, kw, pad, w); } else { DecideDefiner(p, pad, w); }
  }

  /** The character that leaves DATABASE and DEFINER= keeps the statement. */
  lemma KeptAtSecond(p: string, kw: string, pad: string, w: string, c: char)
    requires DatabaseKeyword(kw) && pad != "" && AllSpace(pad) && HalfWord(kw, w) && !OpenSecond(kw, w + [c])
    requires !IsSpace(c) && c != '#' && Upper(p) == kw + pad + (w + [c])
    ensures Decide(p) == Keep
  {
    hide HasBlank, Fields, Upper, Decide;
    HalfLetters(kw, w);
    LettersAreTame(w);
    KeywordPrefix(kw, kw);
    LettersAreTame(kw);
    TameConcat(kw, pad);
    TameConcat(kw + pad, w);
    var u := kw + pad + (w + [c]);
    assert u[..|u| - 1] == kw + pad + w;
    NoDefinerAtEnd(kw, pad, w, c);
    PatternsNeed(u, c);
    DecidePlain(p);
    FieldsPadded(kw, pad, w + [c]);
    SecondIsOther(kw, w + [c]);
  }

  lemma SecondIsOther(kw: string, d: string)
    requires DatabaseKeyword(kw) && !OpenSecond(kw, d) && |d| <= 8
    ensures forall hasBlank :: DecideFields([kw, d], hasBlank) == Keep
  {
    assert DEFINER <= d ==> d == DEFINER;
  }

  lemma NoDefinerAtEnd(kw: string, pad: string, w: string, c: char)
    requires DatabaseKeyword(kw) && pad != "" && AllSpace(pad) && HalfWord(kw, w) && !OpenSecond(kw, w + [c])
    ensures var u := kw + pad + (w + [c]); |u| >= 8 ==> u[|u| - 8..] != DEFINER
  {
    HalfLetters(kw, w);
    var u := kw + pad + (w + [c]);
    if |u| >= 8 {
      var tail := u[|u| - 8..];
      if |w| == 7 {
        assert tail == w + [c];
        assert w <= "DATABASE" ==> tail[1] == 'A';
        assert DEFINER[1] == 'E';
        assert kw == "CREATE" ==> tail != DEFINER;
      } else {
        var i := |kw| + |pad| - 1;
        assert IsSpace(u[i]) && tail[i - (|u| - 8)] == u[i];
        assert !IsSpace('D') && !IsSpace('E') && !IsSpace('F') && !IsSpace('I') && !IsSpace('N') && !IsSpace('R')
               && !IsSpace('=');
        assert forall k :: 0 <= k < 8 ==> !IsSpace(DEFINER[k]);
      }
    }
  }

  lemma SecondPrefixes(s: string, kw: string, pad: string, w: string, j: nat)
    requires KeywordAt(s, kw, pad) && WordAt(s, |kw| + |pad|, w) && j <= |w|
    ensures Upper(s[..|kw| + |pad| + j]) == kw + pad + w[..j]
  {
    hide Upper;
    var m := |kw| + |pad|;
    var v := s[..m + j];
    UpperAtFront(s, m, j);
    UpperPrefix(s[m..m + |w|], j);
    assert s[m..m + |w|][..j] == s[m..m + j];
  }

  lemma UpperAtFront(s: string, m: nat, j: nat)
    requires m + j <= |s|
    ensures Upper(s[..m + j]) == Upper(s[..m]) + Upper(s[m..m + j])
  {
    assert s[..m + j] == s[..m] + s[m..m + j];
    UpperConcat(s[..m], s[m..m + j]);
  }

  lemma {:induction false} UpperConcat(a: string, b: string)
    ensures Upper(a + b) == Upper(a) + Upper(b)
    decreases |a|
  {
    if a == "" {
      assert a + b == b;
      assert Upper("") == "";
    } else {
      assert (a + b)[0] == a[0] && (a + b)[1..] == a[1..] + b;
      UpperConcat(a[1..], b);
      assert [UpperChar(a[0])] + (Upper(a[1..]) + Upper(b)) == [UpperChar(a[0])] + Upper(a[1..]) + Upper(b);
    }
  }

  /** Open prefixes up to the `k`-th letter of the second word. */
  lemma OpenUpTo(s: string, kw: string, pad: string, w: string, k: nat, j: nat)
    requires KeywordAt(s, kw, pad) && WordAt(s, |kw| + |pad|, w) && k <= |w|
    requires forall i :: 1 <= i <= k ==> HalfWord(kw, w[..i])
    requires 1 <= j <= |kw| + |pad| + k
    ensures Decide(s[..j]) == Undecided && !Contains(Upper(s[..j]), DEFINER)
  {
    hide Decide, Upper, HalfWord;
    var m := |kw| + |pad|;
    if j <= m {
      UndecidedBefore(s, kw, pad, j);
      UpperPrefix(s[..m], j);
      assert s[..m][..j] == s[..j];
      KeywordPrefix(kw, kw);
      LettersAreTame(kw);
      TameConcat(kw, pad);
      TameHasNo((kw + pad)[..j], DEFINER, 7);
    } else {
      SecondPrefixes(s, kw, pad, w, j - m);
      OpenAtHalf(s[..j], kw, pad, w[..j - m]);
      HalfIsTame(kw, pad, w[..j - m]);
      TameHasNo(kw + pad + w[..j - m], DEFINER, 7);
    }
  }

  lemma HalfIsTame(kw: string, pad: string, w: string)
    requires DatabaseKeyword(kw) && AllSpace(pad) && HalfWord(kw, w)
    ensures Tame(kw + pad + w)
  {
    HalfLetters(kw, w);
    LettersAreTame(w);
    KeywordPrefix(kw, kw);
    LettersAreTame(kw);
    TameConcat(kw, pad);
    TameConcat(kw + pad, w);
  }

  /** After CREATE or DROP, a word that is neither one to be dropped nor the beginning of one keeps the
      statement. */
  lemma OtherSecondWordIsKept(s: string, kw: string, pad: string, w: string)
    requires KeywordAt(s, kw, pad) && WordAt(s, |kw| + |pad|, w)
    requires !("DATABASE" <= w) && (kw == "CREATE" ==> !(DEFINER <= w)) && !HalfWord(kw, w)
    ensures !Skipped(s)
  {
    hide Decide, EncodedLen, Upper, OpenSecond, HalfWord;
    var m := |kw| + |pad|;
    var n := LeavesSecond(kw, w, 1);
    forall i | 1 <= i < n ensures HalfWord(kw, w[..i]) { OpenIsHalf(kw, w, i); }
    assert w[..|w|] == w;
    assert n <= |w|;
    forall j | 1 <= j <= m + n - 1 ensures Decide(s[..j]) == Undecided { OpenUpTo(s, kw, pad, w, n - 1, j); }
    SecondPrefixes(s, kw, pad, w, n);
    if n > 1 { assert HalfWord(kw, w[..n - 1]); } else { NothingIsHalf(kw, w); }
    assert w[..n] == w[..n - 1] + [w[n - 1]];
    KeptAtSecond(s[..m + n], kw, pad, w[..n - 1], w[n - 1]);
    KeptBy(s, m + n);
  }

  lemma NothingIsHalf(kw: string, w: string)
    ensures HalfWord(kw, w[..0])
  {
  }

  lemma OpenIsHalf(kw: string, w: string, i: nat)
    requires i <= |w| && OpenSecond(kw, w[..i]) && !("DATABASE" <= w) && (kw == "CREATE" ==> !(DEFINER <= w))
    ensures HalfWord(kw, w[..i])
  {
    assert w[..i] <= w;
  }

  // ---------- Half a word ----------

  /** The first comment: it opens behind `front`, and `tail` is what follows it if it is closed. */
  lemma FirstComment(u: string, open: string, close: string) returns (n: nat, tail: string, closed: bool)
    requires open != "" && close != "" && Contains(u, open)
    ensures n < |u| && u[n] == open[0] && n + |tail| + 1 < |u| + (if closed then 0 else 1)
    ensures StripSpans(u, open, close) == if closed then StripSpans(u[..n] + " " + tail, open, close) else u[..n]
  {
    hide OccursAt, StripSpans;
    n := Index(u, open);
    OpensWith(u, open, n);
    var after := u[n + |open|..];
    var end := Index(after, close);
    closed := end >= 0;
    tail := "";
    if closed {
      OpensWith(after, close, end);
      tail := after[end + |close|..];
    }
    CommentStep(u, open, close);
  }

  lemma CommentStep(u: string, open: string, close: string)
    requires open != "" && close != "" && Index(u, open) >= 0 && Index(u, open) + |open| <= |u|
    requires var after := u[Index(u, open) + |open|..];
             Index(after, close) >= 0 ==> Index(after, close) + |close| <= |after|
    ensures var n := Index(u, open);
            var end := Index(u[n + |open|..], close);
            StripSpans(u, open, close) ==
            if end < 0 then u[..n] else StripSpans(u[..n] + " " + u[n + |open|..][end + |close|..], open, close)
  {
    hide Index, OccursAt, Contains, Occurs;
  }

  lemma OpensWith(u: string, pat: string, i: nat)
    requires pat != "" && OccursAt(u, pat, i)
    ensures i + |pat| <= |u| && u[i] == pat[0]
  {
    assert u[i..i + |pat|][0] == u[i];
  }

  /** One comment less behind a beginning in which none opens. */
  lemma StripStep(a: string, b: string, open: string, close: string) returns (done: bool, rest: string)
    requires open != "" && close != "" && open[0] !in a
    ensures done ==> StripSpans(a + b, open, close) == a + rest
    ensures !done ==> |rest| < |b| && StripSpans(a + b, open, close) == StripSpans(a + rest, open, close)
  {
    hide StripSpans, Contains, Index, Occurs, OccursAt;
    if !Contains(a + b, open) {
      StripsNothing(a + b, open, close);
      return true, b;
    }
    var n, tail, closed := FirstComment(a + b, open, close);
    NotInFront(a, b, open[0], n);
    SplitBehind(a, b, n);
    var front := b[..n - |a|];
    if !closed { return true, front; }
    Regrouped((a + b)[..n], a, front, " ", tail);
    return false, front + (" " + tail);
  }

  /** Removing comments leaves a beginning in which none opens. */
  lemma {:induction false} StripKeepsFront(a: string, b: string, open: string, close: string) returns (rest: string)
    requires open != "" && close != "" && open[0] !in a
    ensures StripSpans(a + b, open, close) == a + rest
    decreases |b|
  {
    hide StripSpans;
    var done;
    done, rest := StripStep(a, b, open, close);
    if !done { rest := StripKeepsFront(a, rest, open, close); }
  }

  lemma NotInFront(a: string, b: string, c: char, i: nat)
    requires c !in a && i < |a + b| && (a + b)[i] == c
    ensures |a| <= i
  {
    assert forall j :: 0 <= j < |a| ==> (a + b)[j] == a[j];
  }

  lemma SplitBehind(a: string, b: string, i: nat)
    requires |a| <= i <= |a + b|
    ensures (a + b)[..i] == a + b[..i - |a|]
  {
  }

  lemma Regrouped(u: string, a: string, front: string, gap: string, tail: string)
    requires u == a + front
    ensures u + gap + tail == a + (front + (gap + tail))
  {
  }

  /** The first two words stay what they are, whatever comments follow them. */
  lemma FrontFields(kw: string, pad: string, w: string, b: char, rest: string) returns (more: seq<string>)
    requires DatabaseKeyword(kw) && pad != "" && AllSpace(pad) && HalfWord(kw, w) && w != "" && Blank(b)
    ensures Fields(StripComments(kw + pad + w + [b] + rest)) == [kw, w] + more
  {
    hide StripSpans, Fields, HalfWord;
    var a := kw + pad + w + [b];
    HalfIsTame(kw, pad, w);
    TameConcat(kw + pad + w, [b]);
    var r := StripKeepsFront(a, rest, "/*", "*/");
    r := StripKeepsFront(a, r, "--", "\n");
    r := StripKeepsFront(a, r, "#", "\n");
    HalfLetters(kw, w);
    LettersAreTame(w);
    KeywordPrefix(kw, kw);
    LettersAreTame(kw);
    assert a + r == kw + (pad + (w + ([b] + r)));
    FieldsOfWord(kw, pad + (w + ([b] + r)));
    FieldsSkipSpace(pad, w + ([b] + r));
    FieldsOfWord(w, [b] + r);
    more := Fields([b] + r);
  }

  /** Behind half a word the decision stays open until a DEFINER= is there. */
  lemma OpenBehindHalf(p: string, kw: string, pad: string, w: string, b: char, rest: string)
    requires DatabaseKeyword(kw) && pad != "" && AllSpace(pad) && HalfWord(kw, w) && w != "" && Blank(b)
    requires Upper(p) == kw + pad + w + [b] + rest
    ensures Decide(p) == if Contains(Upper(p), DEFINER) then Skip else Undecided
  {
    hide Upper, Contains, Fields, HasBlank, StripComments, HalfWord;
    var more := FrontFields(kw, pad, w, b, rest);
    var fields := Fields(StripComments(Upper(p)));
    FieldsJoin(fields);
    HalfIsOpen(kw, w, more);
  }

  lemma HalfIsOpen(kw: string, w: string, more: seq<string>)
    requires DatabaseKeyword(kw) && HalfWord(kw, w) && w != ""
    ensures forall hasBlank :: DecideFields([kw, w] + more, hasBlank) == Undecided
  {
    var fields := [kw, w] + more;
    assert fields[0] == kw && fields[1] == w;
    assert w[0] == 'D';
  }

  /** After CREATE or DROP and half a word to be dropped, a statement is dropped exactly if a DEFINER= follows
      before the limit. */
  lemma HalfWordIsKeptIff(s: string, kw: string, pad: string, w: string)
    requires KeywordAt(s, kw, pad) && WordAt(s, |kw| + |pad|, w) && HalfWord(kw, w)
    ensures Skipped(s) <==> Contains(Upper(s[..HeadEnd(s)]), DEFINER)
  {
    hide Decide, EncodedLen, Upper, Contains, HalfWord, Settles;
    var m, h := |kw| + |pad| + |w|, HeadEnd(s);
    forall i | 1 <= i <= |w| ensures HalfWord(kw, w[..i]) { ShorterIsHalf(kw, w, i); }
    if h <= m {
      OpenUpTo(s, kw, pad, w, |w|, h);
    } else {
      SecondPrefixes(s, kw, pad, w, |w|);
      assert w[..|w|] == w;
      var b := s[m];
      UpperBlank(s, kw + pad + w, b);
      UpperAtFront(s, m + 1, h - m - 1);
      OpenBehindHalf(s[..h], kw, pad, w, b, Upper(s[m + 1..h]));
    }
  }

  lemma ShorterIsHalf(kw: string, w: string, i: nat)
    requires HalfWord(kw, w) && i <= |w|
    ensures HalfWord(kw, w[..i])
  {
    assert w[..i] <= w;
    assert w <= "DATABASE" ==> w[..i] <= "DATABASE";
    assert w <= DEFINER ==> w[..i] <= DEFINER;
  }

  // ---------- All statements of an input ----------

  /** A statement that opens like the ordinary ones of a dump. */
  ghost predicate Ordinary(s: string) {
    || (exists w :: WordAt(s, 0, w) && !("USE" <= w) && w != "CREATE" && w != "DROP")
    || (exists kw, pad, w :: OrdinarySecond(s, kw, pad, w))
  }

  ghost predicate OrdinarySecond(s: string, kw: string, pad: string, w: string) {
    && KeywordAt(s, kw, pad) && WordAt(s, |kw| + |pad|, w)
    && !("DATABASE" <= w) && (kw == "CREATE" ==> !(DEFINER <= w)) && !HalfWord(kw, w)
  }

  lemma OrdinaryIsKept(s: string)
    requires Ordinary(s)
    ensures s != "" && !Skipped(s)
  {
    hide Decide, EncodedLen, HalfWord, WordAt, KeywordAt, Skipped;
    if w :| WordAt(s, 0, w) && !("USE" <= w) && w != "CREATE" && w != "DROP" {
      WordIsThere(s, 0, w);
      OtherFirstWordIsKept(s, w);
    } else {
      var kw, pad, w :| OrdinarySecond(s, kw, pad, w);
      WordIsThere(s, |kw| + |pad|, w);
      OtherSecondWordIsKept(s, kw, pad, w);
    }
  }

  lemma WordIsThere(s: string, i: nat, w: string)
    requires WordAt(s, i, w)
    ensures i < |s|
  {
  }

  /** Every ordinary statement of an input is kept. */
  lemma OrdinaryStatementsAreKept(s: string, k: nat)
    requires k < |Segments(s)| && Ordinary(Segments(s)[k].text)
    ensures !Segments(s)[k].Dropped?
  {
    hide Decide, EncodedLen, Ordinary, Skipped;
    SegmentFate(s, k);
    OrdinaryIsKept(Segments(s)[k].text);
  }
}
