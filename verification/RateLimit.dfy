/** Rewriting the rate-limit directives of an nginx site file (executor/rate_limit.go). */
module RateLimit {
  import opened GoStrings

  /** `ipLine` and `botLine` are the directive lines to inject when the respective limit is on. */
  datatype Settings = Settings(ipLine: string, botLine: string, ipEnabled: bool, botEnabled: bool)

  /** Lines the rewriter owns and strips before anything else. */
  predicate IsDirective(line: string) {
    Contains(line, IP_DIRECTIVE) || Contains(line, BOT_DIRECTIVE)
    || Contains(line, "limit_req_status 429")
  }

  /** The caller's lines are directives themselves and each is a single line. */
  ghost predicate Proper(p: Settings) {
    IsDirective(p.ipLine) && IsDirective(p.botLine) && '\n' !in p.ipLine && '\n' !in p.botLine
  }

  const IP_DIRECTIVE := "limit_req zone=wp_req_limit"
  const BOT_DIRECTIVE := "limit_req zone=wp_bot_limit"

  /** A directive line as the caller builds it, the burst printed as digits. */
  function Line(directive: string, burst: string): string {
    "    " + directive + (" burst=" + burst + " nodelay;")
  }

  lemma LineOccurs(directive: string, burst: string)
    requires '\n' !in directive && '\n' !in burst
    ensures Contains(Line(directive, burst), directive) && '\n' !in Line(directive, burst)
  {
    var line := Line(directive, burst);
    assert line[4..4 + |directive|] == directive;
    assert OccursAt(line, directive, 4);
    assert '\n' !in " burst=" && '\n' !in " nodelay;" && '\n' !in "    ";
  }

  /** The settings the caller builds are proper. */
  lemma BuiltSettingsAreProper(ipBurst: string, botBurst: string, ipEnabled: bool, botEnabled: bool)
    requires '\n' !in ipBurst && '\n' !in botBurst
    ensures Proper(Settings(Line(IP_DIRECTIVE, ipBurst), Line(BOT_DIRECTIVE, botBurst), ipEnabled, botEnabled))
  {
    assert '\n' !in IP_DIRECTIVE && '\n' !in BOT_DIRECTIVE;
    LineOccurs(IP_DIRECTIVE, ipBurst);
    LineOccurs(BOT_DIRECTIVE, botBurst);
  }

  function Clean(lines: seq<string>): (r: seq<string>)
    ensures forall i :: 0 <= i < |r| ==> !IsDirective(r[i])
  {
    if lines == [] then []
    else Clean(lines[..|lines| - 1]) + if IsDirective(lines[|lines| - 1]) then [] else [lines[|lines| - 1]]
  }

  /** countNginxBraces. */
  function Braces(line: string): int {
    if line == "" then 0
    else Braces(line[..|line| - 1]) + (if line[|line| - 1] == '{' then 1 else if line[|line| - 1] == '}' then -1 else 0)
  }

  /** Where the scan stands: the brace depth inside a server block (0 outside), and whether the block has
      had its injection. */
  datatype State = State(depth: int, injected: bool)

  predicate Opens(s: State, line: string) {
    s.depth == 0 && "server" <= TrimSpace(line) && Contains(TrimSpace(line), "{")
  }

  predicate Injects(s: State, line: string) {
    !Opens(s, line) && s.depth > 0 && !s.injected && "server_name " <= TrimSpace(line)
  }

  function Next(s: State, line: string): State {
    if Opens(s, line) then State(Braces(TrimSpace(line)), false)
    else
      var depth := if s.depth > 0 then s.depth + Braces(TrimSpace(line)) else s.depth;
      State(if s.depth > 0 && depth < 0 then 0 else depth, s.injected || Injects(s, line))
  }

  function Injection(p: Settings): seq<string> {
    (if p.ipEnabled then [p.ipLine] else []) + (if p.botEnabled then [p.botLine] else [])
  }

  function StateAfter(lines: seq<string>): State {
    if lines == [] then State(0, false) else Next(StateAfter(lines[..|lines| - 1]), lines[|lines| - 1])
  }

  function Inject(lines: seq<string>, p: Settings): seq<string> {
    if lines == [] then []
    else
      var n := |lines| - 1;
      Inject(lines[..n], p) + [lines[n]] + if Injects(StateAfter(lines[..n]), lines[n]) then Injection(p) else []
  }

  function Rewrite(content: string, p: Settings): string {
    Join(Inject(Clean(Split(content, '\n')), p), "\n")
  }

  // ---------- The loops of the source ----------

  method CountBraces(line: string) returns (depth: int)
    ensures depth == Braces(line)
  {
    depth := 0;
    for i := 0 to |line|
      invariant depth == Braces(line[..i])
    {
      assert line[..i + 1][..i] == line[..i];
      if line[i] == '{' { depth := depth + 1; }
      if line[i] == '}' { depth := depth - 1; }
    }
    assert line[..|line|] == line;
  }

  /** rewriteRateLimitDirectives. */
  method RewriteDirectives(content: string, p: Settings) returns (r: string)
    ensures r == Rewrite(content, p)
  {
    hide IsDirective, Split;
    var lines := Split(content, '\n');
    var cleaned: seq<string> := [];
    for i := 0 to |lines|
      invariant cleaned == Clean(lines[..i])
    {
      assert lines[..i + 1][..i] == lines[..i];
      if !IsDirective(lines[i]) { cleaned := cleaned + [lines[i]]; }
    }
    assert lines[..|lines|] == lines;
    var result := InjectDirectives(cleaned, p);
    r := Join(result, "\n");
  }

  /** Its second loop. */
  method InjectDirectives(cleaned: seq<string>, p: Settings) returns (result: seq<string>)
    ensures result == Inject(cleaned, p)
  {
    hide Contains, TrimSpace, Braces, Index;
    result := [];
    var serverDepth, injected := 0, false;
    for i := 0 to |cleaned|
      invariant result == Inject(cleaned[..i], p)
      invariant State(serverDepth, injected) == StateAfter(cleaned[..i])
    {
      var line := cleaned[i];
      ghost var s := State(serverDepth, injected);
      ghost var n := |result| + 1;
      assert cleaned[..i + 1][..i] == cleaned[..i];
      result := result + [line];
      var trimmed := TrimSpace(line);
      if serverDepth == 0 && "server" <= trimmed && Contains(trimmed, "{") {
        serverDepth := CountBraces(trimmed);
        injected := false;
        assert Opens(s, line) && result == result + [];
        continue;
      }
      if serverDepth > 0 && !injected && "server_name " <= trimmed {
        if p.ipEnabled { result := result + [p.ipLine]; }
        if p.botEnabled { result := result + [p.botLine]; }
        injected := true;
        assert Injects(s, line) && result == result[..n] + Injection(p);
      } else {
        assert !Injects(s, line) && result == result + [];
      }
      if serverDepth > 0 {
        var braces := CountBraces(trimmed);
        serverDepth := serverDepth + braces;
        if serverDepth < 0 { serverDepth := 0; }
      }
    }
    assert cleaned[..|cleaned|] == cleaned;
  }

  // ---------- Last writer wins ----------

  lemma {:induction false} CleanConcat(a: seq<string>, b: seq<string>)
    ensures Clean(a + b) == Clean(a) + Clean(b)
    decreases |b|
  {
    hide IsDirective;
    if b == [] {
      assert a + b == a;
    } else {
      var n := |b| - 1;
      assert (a + b)[..|a| + n] == a + b[..n];
      CleanConcat(a, b[..n]);
    }
  }

  lemma {:induction false} CleanOfClean(lines: seq<string>)
    requires forall i :: 0 <= i < |lines| ==> !IsDirective(lines[i])
    ensures Clean(lines) == lines
  {
    hide IsDirective;
    if lines != [] {
      CleanOfClean(lines[..|lines| - 1]);
      assert lines == lines[..|lines| - 1] + [lines[|lines| - 1]];
    }
  }

  lemma CleanOwned(line: string)
    requires IsDirective(line)
    ensures Clean([line]) == []
  {
    assert [line][..0] == [];
  }

  lemma InjectionIsOwned(p: Settings)
    requires Proper(p)
    ensures Clean(Injection(p)) == []
  {
    hide IsDirective, Clean;
    CleanOwned(p.ipLine);
    CleanOwned(p.botLine);
    CleanOfClean([]);
    var a, b := if p.ipEnabled then [p.ipLine] else [], if p.botEnabled then [p.botLine] else [];
    CleanConcat(a, b);
  }

  lemma CleanOfInjected(lines: seq<string>, p: Settings)
    requires Proper(p) && (lines == [] || lines == Injection(p))
    ensures Clean(lines) == []
  {
    if lines != [] { InjectionIsOwned(p); }
  }

  /** Stripping what was injected gives the stripped lines back. */
  lemma {:induction false} CleanUndoesInject(lines: seq<string>, p: Settings)
    requires Proper(p) && forall i :: 0 <= i < |lines| ==> !IsDirective(lines[i])
    ensures Clean(Inject(lines, p)) == lines
  {
    hide IsDirective, Injects, Proper;
    if lines != [] {
      var n := |lines| - 1;
      var before := Inject(lines[..n], p);
      var after := if Injects(StateAfter(lines[..n]), lines[n]) then Injection(p) else [];
      assert Inject(lines, p) == before + [lines[n]] + after;
      CleanOfInjected(after, p);
      hide *;
      CleanUndoesInject(lines[..n], p);
      CleanOfClean([lines[n]]);
      CleanConcat(before, [lines[n]]);
      CleanConcat(before + [lines[n]], after);
      LastApart(lines);
    } else {
      CleanOfClean([]);
    }
  }

  lemma {:induction false} CleanKeepsNoBreaks(lines: seq<string>)
    requires NoneHas(lines, '\n')
    ensures NoneHas(Clean(lines), '\n')
  {
    hide IsDirective;
    if lines != [] { CleanKeepsNoBreaks(lines[..|lines| - 1]); }
  }

  lemma {:induction false} InjectKeepsNoBreaks(lines: seq<string>, p: Settings)
    requires NoneHas(lines, '\n') && Proper(p)
    ensures NoneHas(Inject(lines, p), '\n')
    ensures Inject(lines, p) == [] <==> lines == []
  {
    hide IsDirective, Injects;
    if lines != [] { InjectKeepsNoBreaks(lines[..|lines| - 1], p); }
  }

  /** Rewriting with `q` what was rewritten with `p` equals rewriting the original with `q`: the last
      writer wins, repeating changes nothing, and disabling undoes enabling. */
  lemma LastWriterWins(content: string, p: Settings, q: Settings)
    requires Proper(p)
    ensures Rewrite(Rewrite(content, p), q) == Rewrite(content, q)
  {
    hide IsDirective, Injects, Split, Proper, Index;
    var lines := Split(content, '\n');
    var cleaned := Clean(lines);
    SplitParts(content, '\n');
    CleanKeepsNoBreaks(lines);
    InjectKeepsNoBreaks(cleaned, p);
    var injected := Inject(cleaned, p);
    if cleaned == [] {
      NoLines(q);
    } else {
      SplitJoin(injected, '\n');
      CleanUndoesInject(cleaned, p);
    }
  }

  lemma NoLines(q: Settings)
    ensures Rewrite("", q) == "" == Join(Inject([], q), "\n")
  {
    IndexOfChar("", '\n', "");
    assert Split("", '\n') == [""];
    assert !IsDirective("");
    assert Clean([""]) == [""] by { assert [""][..0] == []; }
    assert Inject([""], q) == [""] by { assert [""][..0] == []; }
  }

  /** Every line that is not the rewriter's own survives, in order. */
  lemma OtherLinesSurvive(content: string, p: Settings)
    requires Proper(p)
    ensures var before, after := Clean(Split(content, '\n')), Clean(Split(Rewrite(content, p), '\n'));
            after == if before == [] then [""] else before
  {
    hide IsDirective, Injects, Split, Proper, Index;
    var lines := Split(content, '\n');
    SplitParts(content, '\n');
    CleanKeepsNoBreaks(lines);
    InjectKeepsNoBreaks(Clean(lines), p);
    if Clean(lines) == [] {
      EmptyContent();
    } else {
      SplitJoin(Inject(Clean(lines), p), '\n');
      CleanUndoesInject(Clean(lines), p);
    }
  }

  lemma EmptyContent()
    ensures Clean(Split("", '\n')) == [""]
  {
    IndexOfChar("", '\n', "");
    assert !IsDirective("");
    assert [""][..0] == [];
  }

  // ---------- One injection per server block ----------

  predicate InjectsAt(lines: seq<string>, i: nat)
    requires i < |lines|
  {
    Injects(StateAfter(lines[..i]), lines[i])
  }

  predicate OpensAt(lines: seq<string>, i: nat)
    requires i < |lines|
  {
    Opens(StateAfter(lines[..i]), lines[i])
  }

  lemma {:induction false} InjectedStays(lines: seq<string>, i: nat, j: nat)
    requires i < j < |lines| && InjectsAt(lines, i)
    requires forall k :: i < k < j ==> !OpensAt(lines, k)
    ensures StateAfter(lines[..j]).injected
    decreases j
  {
    hide Contains, TrimSpace, Braces;
    assert lines[..j][..j - 1] == lines[..j - 1];
    if i + 1 < j {
      InjectedStays(lines, i, j - 1);
      assert !OpensAt(lines, j - 1);
    }
  }

  /** Between two injections a new server block opens. */
  lemma OneInjectionPerBlock(lines: seq<string>, i: nat, j: nat)
    requires i < j < |lines| && InjectsAt(lines, i) && InjectsAt(lines, j)
    ensures exists k :: i < k < j && OpensAt(lines, k)
  {
    hide Contains, TrimSpace, Braces;
    if forall k :: i < k < j ==> !OpensAt(lines, k) { InjectedStays(lines, i, j); }
  }
}
