/** What an edit of one key does to the others (handlers/software.go). */
module ConfigKeys {
  import opened GoStrings
  import opened ConfigEdit

  /** Two keys, each followed by white space or `=` in the same text, are the same. */
  lemma KeyEnds(t: string, j: string, k: string)
    requires IsKey(j) && IsKey(k) && j <= t && k <= t && |j| < |t| && |k| < |t|
    requires (IsSpace(t[|j|]) || t[|j|] == '=') && (IsSpace(t[|k|]) || t[|k|] == '=')
    ensures j == k
  {
    if |j| < |k| {
      ShorterKey(t, j, k);
    } else if |k| < |j| {
      ShorterKey(t, k, j);
    } else {
      assert j == t[..|j|] == k;
    }
  }

  lemma ShorterKey(t: string, j: string, k: string)
    requires IsKey(k) && j <= t && k <= t && |j| < |k|
    ensures !IsSpace(t[|j|]) && t[|j|] != '='
  {
    assert t[|j|] == k[|j|];
  }

  /** The first match stays where it is if the lines keep matching as they did and no new one does. */
  lemma FirstStays(a: seq<string>, b: seq<string>, m: string -> bool)
    requires |a| <= |b| && (forall i :: 0 <= i < |a| ==> (m(b[i]) <==> m(a[i])))
    requires forall i :: |a| <= i < |b| ==> !m(b[i])
    ensures First(b, m) == if First(a, m) < |a| then First(a, m) else |b|
  {
    var i := First(a, m);
    if i < |a| { FirstIs(b, m, i); }
  }

  // ---------- php.ini ----------

  lemma IniOneKey(line: string, j: string, k: string)
    requires IsKey(j) && IsKey(k) && IniMatch(line, j) && IniMatch(line, k)
    ensures j == k
  {
    hide TrimSpace;
    var t := TrimSpace(line);
    KeyStarts(t, j);
    KeyStarts(t, k);
    KeyEnds(t, j, k);
  }

  lemma KeyStarts(t: string, k: string)
    requires k + " =" <= t || k + "=" <= t
    ensures k <= t && |k| < |t| && (IsSpace(t[|k|]) || t[|k|] == '=')
  {
    assert (k + " =")[|k|] == ' ' && (k + "=")[|k|] == '=';
    assert (k + " =")[..|k|] == k && (k + "=")[..|k|] == k;
  }

  /** INI: replacing one key changes no other's value. */
  lemma IniOtherKey(content: string, k: string, v: string, j: string)
    requires IsKey(k) && IsValue(v) && IsKey(j) && j != k
    ensures FindIni(ReplaceIni(content, k, v), j) == FindIni(content, j)
  {
    hide IniReplaced, FindIniIn, Split;
    var lines := Split(content, '\n');
    SplitParts(content, '\n');
    IniLines(lines, k, v);
    SplitJoin(IniReplaced(lines, k, v), '\n');
    IniOtherLines(lines, k, v, j);
  }

  lemma IniOtherLines(lines: seq<string>, k: string, v: string, j: string)
    requires IsKey(k) && IsValue(v) && IsKey(j) && j != k
    ensures FindIniIn(IniReplaced(lines, k, v), j) == FindIniIn(lines, j)
  {
    hide IniMatch, IniLine, IniValueOf, IsKey, IsValue;
    var r := IniReplaced(lines, k, v);
    IniForeign(k, v, j);
    forall i | 0 <= i < |lines| ensures IniMatch(r[i], j) ==> r[i] == lines[i] {
    }
    forall i | 0 <= i < |lines| ensures IniMatch(lines[i], j) ==> r[i] == lines[i] {
      if IniMatch(lines[i], j) && IniMatch(lines[i], k) { IniOneKey(lines[i], j, k); }
    }
    FirstStays(lines, r, l => IniCounts(l, j));
  }

  /** What an edit of `k` adds says nothing of `j`. */
  lemma IniForeign(k: string, v: string, j: string)
    requires IsKey(k) && IsValue(v) && IsKey(j) && j != k
    ensures !IniMatch(IniLine(k, v), j) && !IniMatch("", j) && !IniMatch(INI_NOTE, j)
  {
    hide IniMatch, IniLine;
    IniLineReads(k, v);
    IniAdditions(j, v);
    if IniMatch(IniLine(k, v), j) { IniOneKey(IniLine(k, v), j, k); }
  }

  // ---------- redis.conf ----------

  const MAXMEMORY := "maxmemory"

  /** A stray line that a reader would take a value from speaks of maxmemory. */
  lemma StrayIsMaxmemory(line: string, j: string)
    requires RedisStray(line) && IsKey(j)
    ensures RedisMatch(line, j) ==> j == MAXMEMORY
  {
    hide TrimSpace, Fields;
    var t := TrimSpace(line);
    if ";" <= t {
      FirstField(t);
    } else {
      assert t == MAXMEMORY + t[9..];
      FieldsOfWord(MAXMEMORY, t[9..]);
    }
  }

  lemma FirstField(t: string)
    requires t != "" && !IsSpace(t[0])
    ensures Fields(t) != [] && Fields(t)[0] != "" && Fields(t)[0][0] == t[0]
  {
  }

  /** What a search finds, and that it finds it: the value of the first match. */
  lemma FindAppend(lines: seq<string>, line: string, j: string)
    ensures var m := l => RedisMatch(l, j); var more := lines + [line];
            && (First(more, m) < |more| <==> First(lines, m) < |lines| || RedisMatch(line, j))
            && (First(lines, m) == |lines| ==> FindRedisIn(lines, j) == "")
            && FindRedisIn(more, j) == if First(lines, m) < |lines| then FindRedisIn(lines, j)
                                       else if RedisMatch(line, j) then RedisValueOf(line) else ""
  {
    hide RedisMatch, RedisValueOf;
    var m, more := (l => RedisMatch(l, j)), lines + [line];
    var i := First(lines, m);
    if i < |lines| {
      FirstIs(more, m, i);
    } else if RedisMatch(line, j) {
      FirstIs(more, m, |lines|);
    } else {
      FirstStays(lines, more, m);
    }
  }

  /** Without stray lines that speak of the key, the filter changes nothing for it. */
  lemma {:induction false} FilterFinds(lines: seq<string>, j: string)
    requires forall i :: 0 <= i < |lines| && RedisStray(lines[i]) ==> !RedisMatch(lines[i], j)
    ensures FindRedisIn(RedisFiltered(lines), j) == FindRedisIn(lines, j)
    ensures var m := l => RedisMatch(l, j);
            First(RedisFiltered(lines), m) < |RedisFiltered(lines)| <==> First(lines, m) < |lines|
  {
    hide RedisMatch, RedisStray, RedisValueOf, FindRedisIn, First, RedisFiltered;
    if lines == [] {
      assert RedisFiltered(lines) == [] by { NothingFiltered(); }
    } else {
      var n := |lines| - 1;
      var fewer := lines[..n];
      FilterFinds(fewer, j);
      LastApart(lines);
      FindAppend(fewer, lines[n], j);
      FilterNext(lines);
      if !RedisStray(lines[n]) { FindAppend(RedisFiltered(fewer), lines[n], j); }
    }
  }

  lemma NothingFiltered()
    ensures RedisFiltered([]) == []
  {
  }

  lemma FilterNext(lines: seq<string>)
    requires lines != []
    ensures var n := |lines| - 1;
            RedisFiltered(lines) ==
            if RedisStray(lines[n]) then RedisFiltered(lines[..n]) else RedisFiltered(lines[..n]) + [lines[n]]
  {
    hide RedisStray;
  }

  lemma RedisOtherLines(lines: seq<string>, k: string, v: string, j: string)
    requires IsKey(k) && IsValue(v) && IsKey(j) && j != k
    ensures FindRedisIn(RedisReplaced(lines, k, v), j) == FindRedisIn(lines, j)
  {
    hide RedisValueOf, RedisMatch, IsKey, IsValue, Indent, RedisStray;
    var m := l => RedisMatch(l, j);
    var at, pad := RedisPlace(lines, k, v);
    RedisAdditions(j);
    var r := RedisReplaced(lines, k, v);
    RedisOneKey(r[at], j, k);
    if at < |lines| { RedisOneKey(lines[at], j, k); }
    FirstStays(lines, r, m);
  }

  lemma RedisOneKey(line: string, j: string, k: string)
    requires j != k
    ensures !(RedisMatch(line, j) && RedisMatch(line, k))
  {
  }

  /** Redis: replacing one key changes what is found for another only if it clears away a stray assignment to
      maxmemory, which a search would have taken for one. */
  lemma RedisOtherKey(content: string, k: string, v: string, j: string)
    requires IsKey(k) && IsValue(v) && IsKey(j) && j != k
    ensures FindRedis(ReplaceRedis(content, k, v), j) == FindRedisIn(RedisFiltered(Split(content, '\n')), j)
    ensures j != MAXMEMORY || (forall i :: 0 <= i < |Split(content, '\n')| ==> !RedisStray(Split(content, '\n')[i])) ==>
              FindRedis(ReplaceRedis(content, k, v), j) == FindRedis(content, j)
  {
    hide RedisReplaced, FindRedisIn, RedisStray, RedisMatch, Split;
    var lines := Split(content, '\n');
    var kept := RedisFiltered(lines);
    SplitParts(content, '\n');
    RedisLines(kept, k, v);
    SplitJoin(RedisReplaced(kept, k, v), '\n');
    RedisOtherLines(kept, k, v, j);
    if j != MAXMEMORY || forall i :: 0 <= i < |lines| ==> !RedisStray(lines[i]) {
      forall i | 0 <= i < |lines| && RedisStray(lines[i]) ensures RedisMatch(lines[i], j) ==> j == MAXMEMORY {
        StrayIsMaxmemory(lines[i], j);
      }
      FilterFinds(lines, j);
    }
  }

  /** A search finds the stray value; after an edit of any other key it finds none. */
  lemma StrayValueIsLost(k: string, v: string)
    requires IsKey(k) && IsValue(v) && k != MAXMEMORY
    ensures FindRedis("maxmemory = 1", MAXMEMORY) == "1"
    ensures FindRedis(ReplaceRedis("maxmemory = 1", k, v), MAXMEMORY) == ""
  {
    hide RedisReplaced, FindRedisIn, RedisStray, RedisMatch, Split, RedisFiltered;
    var line := "maxmemory = 1";
    SplitJoin([line], '\n');
    IsAKey();
    RedisOtherKey(line, k, v, MAXMEMORY);
    StrayLine(line);
  }

  lemma IsAKey()
    ensures IsKey(MAXMEMORY)
  {
  }

  lemma StrayLine(line: string)
    requires line == "maxmemory = 1"
    ensures FindRedisIn([line], MAXMEMORY) == "1" && RedisFiltered([line]) == [] && FindRedisIn([], MAXMEMORY) == ""
  {
    hide TrimSpace, Fields;
    TrimWordy(line);
    StrayFields(line);
    assert line[..11] == "maxmemory =";
    assert [line][..0] == [];
    FirstIs([line], l => RedisMatch(l, MAXMEMORY), 0);
  }

  lemma StrayFields(line: string)
    requires line == "maxmemory = 1"
    ensures Fields(line) == [MAXMEMORY, "=", "1"]
  {
    hide Fields;
    FieldsJoin([MAXMEMORY, "=", "1"]);
    assert [MAXMEMORY, "=", "1"][1..] == ["=", "1"] && ["=", "1"][1..] == ["1"];
    assert Join([MAXMEMORY, "=", "1"], " ") == line;
  }

  // ---------- nginx.conf ----------

  lemma NginxOneKey(line: string, j: string, k: string)
    requires NginxMatch(line, j) && NginxMatch(line, k)
    ensures j <= k || k <= j
  {
    hide TrimSpace, Fields;
    var t := TrimSpace(line);
    if |j| <= |k| { assert j == t[..|k|][..|j|]; } else { assert k == t[..|j|][..|k|]; }
  }

  /** The line an edit of `k` writes is taken for one of `j` if and only if `j` is a prefix of `k`. */
  lemma NginxForeign(pad: string, k: string, v: string, j: string)
    requires IsKey(k) && IsValue(v) && IsKey(j)
    requires forall i :: 0 <= i < |pad| ==> pad[i] == ' ' || pad[i] == '\t'
    ensures NginxMatch(pad + NginxLine(k, v), j) <==> j <= k
  {
    hide TrimSpace, Fields;
    var body := NginxLine(k, v);
    NginxLineFacts(pad, k, v);
    assert body[0] == k[0] && body[|body| - 1] == ';';
    TrimPadded(pad, body);
    assert body[..|k|] == k && body[|k|] == ' ';
    WordHasNoBreak(j);
    assert j <= body ==> ' ' !in body[..|j|];
    assert |k| < |j| <= |body| ==> body[..|j|][|k|] == ' ';
    assert j <= k ==> body[..|j|] == k[..|j|];
  }

  lemma NginxOtherLines(lines: seq<string>, k: string, v: string, j: string)
    requires IsKey(k) && IsValue(v) && IsKey(j) && !(j <= k) && !(k <= j)
    ensures FindNginxIn(NginxLines(lines, k, v), j) == FindNginxIn(lines, j)
  {
    hide NginxMatch, OpensHttp, NginxLine, NginxValueOf, IsKey, IsValue;
    var m := l => NginxMatch(l, j);
    var r := NginxLines(lines, k, v);
    var h := First(lines, l => OpensHttp(l));
    NginxForeign("    ", k, v, j);
    NginxForeign("", k, v, j);
    assert "" + NginxLine(k, v) == NginxLine(k, v);
    forall i | 0 <= i < |lines| && NginxMatch(lines[i], k)
      ensures !NginxMatch(lines[i], j) && !NginxMatch(Indent(lines[i]) + NginxLine(k, v), j)
    {
      if NginxMatch(lines[i], j) { NginxOneKey(lines[i], j, k); }
      NginxForeign(Indent(lines[i]), k, v, j);
    }
    if First(lines, l => NginxMatch(l, k)) < |lines| || h == |lines| {
      FirstStays(lines, r, m);
    } else {
      FirstInserted(lines, r, m, h + 1);
    }
  }

  /** A line put in that does not match moves the first match by at most one. */
  lemma FirstInserted(a: seq<string>, b: seq<string>, m: string -> bool, at: nat)
    requires at <= |a| && |b| == |a| + 1 && b[..at] == a[..at] && b[at + 1..] == a[at..] && !m(b[at])
    ensures First(a, m) < |a| <==> First(b, m) < |b|
    ensures First(a, m) < |a| ==> b[First(b, m)] == a[First(a, m)]
  {
    hide First;
    var i := First(a, m);
    forall k | 0 <= k < |a| ensures a[k] == b[if k < at then k else k + 1] {
      if k < at { assert a[..at][k] == b[..at][k]; } else { assert a[at..][k - at] == b[at + 1..][k - at]; }
    }
    if i < |a| {
      FirstIs(b, m, if i < at then i else i + 1);
    } else {
      forall k | 0 <= k < |b| ensures !m(b[k]) {
        if k < at { assert b[k] == a[k]; } else if k > at { assert b[k] == a[k - 1]; }
      }
    }
  }

  /** nginx: replacing one key changes no other's value. */
  lemma NginxOtherKey(content: string, k: string, v: string, j: string)
    requires IsKey(k) && IsValue(v) && IsKey(j) && !(j <= k) && !(k <= j)
    ensures FindNginx(ReplaceNginx(content, k, v), j) == FindNginx(content, j)
  {
    hide NginxReplaced, NginxLines, FindNginxIn, Split;
    var lines := Split(content, '\n');
    SplitParts(content, '\n');
    NginxJoin(lines, k, v);
    NginxEdited(lines, k, v);
    SplitJoin(NginxLines(lines, k, v), '\n');
    NginxOtherLines(lines, k, v, j);
  }

  /** No edit of `k` changes what is found for `j`. */
  ghost predicate Independent(j: string, k: string) {
    forall content, v :: IsValue(v) ==> FindNginx(ReplaceNginx(content, k, v), j) == FindNginx(content, j)
  }

  /** The edits of two nginx keys are independent exactly when neither key is a prefix of the other. */
  lemma NginxIndependentIff(j: string, k: string)
    requires IsKey(k) && IsKey(j)
    ensures Independent(j, k) <==> !(j <= k) && !(k <= j)
  {
    hide FindNginx, ReplaceNginx, IsKey;
    if j <= k {
      PrefixIsMistaken(j, k);
      assert IsValue("x");
      assert FindNginx(ReplaceNginx("", k, "x"), j) != FindNginx("", j);
    } else if k <= j {
      LongerIsOverwritten(j, k);
      assert IsValue("x");
      assert FindNginx(ReplaceNginx(NginxLine(j, "y"), k, "x"), j) != FindNginx(NginxLine(j, "y"), j);
    } else {
      forall content, v | IsValue(v) ensures FindNginx(ReplaceNginx(content, k, v), j) == FindNginx(content, j) {
        NginxOtherKey(content, k, v, j);
      }
    }
  }

  /** On an empty file: the value of the longer key is found for the shorter. */
  lemma PrefixIsMistaken(j: string, k: string)
    requires IsKey(k) && IsKey(j) && j <= k
    ensures FindNginx("", j) == "" && FindNginx(ReplaceNginx("", k, "x"), j) == "x"
  {
    hide NginxMatch, NginxLine, NginxValueOf, OpensHttp;
    EmptyLine(k);
    EmptyLine(j);
    OneLine("");
    var line := NginxLine(k, "x");
    NginxLineFacts("", k, "x");
    NginxForeign("", k, "x", j);
    assert "" + line == line;
    var lines := ["", line];
    assert NginxReplaced([""], k, "x") == lines;
    SplitJoin(lines, '\n');
    FirstIs(lines, l => NginxMatch(l, j), 1);
  }

  lemma EmptyLine(k: string)
    ensures !NginxMatch("", k) && !OpensHttp("")
  {
    TrimEmpty();
    assert Fields("") == [] by { FieldsJoin([]); }
  }

  /** A text without a line break is its own only line. */
  lemma OneLine(text: string)
    requires '\n' !in text
    ensures Split(text, '\n') == [text]
  {
    SplitJoin([text], '\n');
  }

  /** On a file with the longer key alone: its line is overwritten by the shorter. */
  lemma LongerIsOverwritten(j: string, k: string)
    requires IsKey(k) && IsKey(j) && k <= j && !(j <= k)
    ensures FindNginx(NginxLine(j, "y"), j) == "y"
    ensures FindNginx(ReplaceNginx(NginxLine(j, "y"), k, "x"), j) == ""
  {
    hide NginxMatch, NginxLine, NginxValueOf, OpensHttp;
    var line, other := NginxLine(j, "y"), NginxLine(k, "x");
    NginxLineFacts("", j, "y");
    NginxLineFacts("", k, "x");
    NginxForeign("", j, "y", k);
    NginxForeign("", k, "x", j);
    assert "" + line == line && "" + other == other;
    OneLine(line);
    OneLine(other);
    var lines := [line];
    FirstIs(lines, l => NginxMatch(l, k), 0);
    FirstIs(lines, l => NginxMatch(l, j), 0);
    assert NginxReplaced(lines, k, "x") == [other];
  }
}
