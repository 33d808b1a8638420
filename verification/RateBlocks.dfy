/** The rate-limit rewriting of a whole site file, block by block (executor/rate_limit.go). */
module RateBlocks {
  import opened GoStrings
  import opened RateLimit

  /** The braces a line opens beyond those it closes. */
  ghost function Balance(line: string): int {
    var opening: int := multiset(line)['{'];
    opening - multiset(line)['}']
  }

  ghost function Depth(lines: seq<string>): int {
    if lines == [] then 0 else Depth(lines[..|lines| - 1]) + Balance(lines[|lines| - 1])
  }

  /** A line that opens a server block when none is open. */
  ghost predicate OpensServer(line: string) {
    "server" <= TrimSpace(line) && '{' in line
  }

  ghost predicate NamesServer(line: string) {
    "server_name " <= TrimSpace(line)
  }

  /** A server block: it opens at its first line, and closes at its last. */
  ghost predicate IsBlock(b: seq<string>) {
    && b != [] && OpensServer(b[0]) && (forall k :: 0 < k < |b| ==> Depth(b[..k]) > 0)
    && if |b| == 1 then Depth(b) == 0 else Depth(b) <= 0
  }

  /** What a site file is made of: a line outside server blocks, a block without a server name, or a block
      whose first server name is at line `n`. */
  datatype Part = Outside(line: string) | Nameless(block: seq<string>) | Named(block: seq<string>, n: nat)

  ghost predicate IsPart(part: Part) {
    match part
    case Outside(line) => !OpensServer(line)
    case Nameless(b) => IsBlock(b) && forall k :: 0 < k < |b| ==> !NamesServer(b[k])
    case Named(b, n) =>
      IsBlock(b) && 0 < n < |b| && NamesServer(b[n]) && forall k :: 0 < k < n ==> !NamesServer(b[k])
  }

  ghost function Lines(part: Part): seq<string> {
    match part
    case Outside(line) => [line]
    case Nameless(b) => b
    case Named(b, _) => b
  }

  /** The limits that are on go right below the server name, the one per address first. */
  ghost function Limited(part: Part, p: Settings): seq<string>
    requires IsPart(part)
  {
    if part.Named? then
      part.block[..part.n + 1] + (if p.ipEnabled then [p.ipLine] else []) + (if p.botEnabled then [p.botLine] else [])
      + part.block[part.n + 1..]
    else Lines(part)
  }

  ghost predicate AreParts(parts: seq<Part>) {
    forall i :: 0 <= i < |parts| ==> IsPart(parts[i])
  }

  ghost function AllLines(parts: seq<Part>): seq<string> {
    if parts == [] then [] else AllLines(parts[..|parts| - 1]) + Lines(parts[|parts| - 1])
  }

  ghost function AllLimited(parts: seq<Part>, p: Settings): seq<string>
    requires AreParts(parts)
  {
    if parts == [] then []
    else AllLimited(parts[..|parts| - 1], p) + Limited(parts[|parts| - 1], p)
  }

  // ---------- Braces ----------

  lemma {:induction false} BracesCounted(s: string)
    ensures Braces(s) == Balance(s)
  {
    if s != "" {
      var n := |s| - 1;
      BracesCounted(s[..n]);
      LastApart(s);
    }
  }

  lemma SpaceHasNoBrace(pad: string)
    requires AllSpace(pad)
    ensures '{' !in pad && '}' !in pad
  {
  }

  /** White space around a line holds no braces. */
  lemma TrimmedBraces(line: string)
    ensures Braces(TrimSpace(line)) == Balance(line) && (Contains(TrimSpace(line), "{") <==> '{' in line)
  {
    hide TrimLeft, TrimRight, Contains;
    var pad := TrimLeftParts(line);
    var left := TrimLeft(line);
    var trail := TrimRightParts(left);
    var core := TrimRight(left);
    SpaceHasNoBrace(pad);
    SpaceHasNoBrace(trail);
    BracesCounted(core);
    assert line == pad + (core + trail);
    assert multiset(line) == multiset(pad) + (multiset(core) + multiset(trail));
    assert '{' in line <==> '{' in core;
    ContainsChar(core, '{');
  }

  lemma ContainsChar(s: string, c: char)
    ensures Contains(s, [c]) <==> c in s
  {
    if c in s {
      var i: nat :| i < |s| && s[i] == c;
      assert OccursAt(s, [c], i);
    }
    if Contains(s, [c]) {
      var i: nat :| OccursAt(s, [c], i);
      assert s[i] == s[i..i + 1][0];
    }
  }

  lemma OneLine(s: State, line: string)
    ensures Opens(s, line) <==> s.depth == 0 && OpensServer(line)
    ensures Injects(s, line) <==> s.depth > 0 && !s.injected && NamesServer(line)
    ensures Next(s, line) ==
            if Opens(s, line) then State(Balance(line), false)
            else if s.depth > 0 then
              State(if s.depth + Balance(line) < 0 then 0 else s.depth + Balance(line), s.injected || Injects(s, line))
            else s
  {
    TrimmedBraces(line);
  }

  // ---------- One block ----------

  /** The scan through a block that starts outside any other: `n` is its first server name, or its end. */
  lemma {:induction false} ThroughBlock(pre: seq<string>, b: seq<string>, n: nat, k: nat, p: Settings)
    requires StateAfter(pre).depth == 0 && IsBlock(b) && 0 < k <= |b| && 0 < n <= |b|
    requires (n < |b| ==> NamesServer(b[n])) && forall i :: 0 < i < n ==> !NamesServer(b[i])
    ensures StateAfter(pre + b[..k]) == State(if k < |b| then Depth(b[..k]) else 0, n < k)
    ensures Inject(pre + b[..k], p) ==
            Inject(pre, p) + if k <= n then b[..k] else b[..n + 1] + Injection(p) + b[n + 1..k]
    decreases k
  {
    hide StateAfter, Inject, OpensServer, NamesServer, Balance, Next, Opens, Injects, Injection, Depth;
    var line := b[k - 1];
    DepthOf(b, k);
    OneMoreLine(pre, b[..k], p);
    assert b[..k][..k - 1] == b[..k - 1];
    if k == 1 {
      assert pre + b[..0] == pre;
      OneLine(StateAfter(pre), line);
      DepthOfNone(b);
      assert b[..1] == [line];
      assert |b| == 1 ==> b[..k] == b;
    } else {
      ThroughBlock(pre, b, n, k - 1, p);
      OneLine(StateAfter(pre + b[..k - 1]), line);
      assert |b| == k ==> b[..k] == b;
      assert b[..k] == b[..k - 1] + [line];
      if k - 1 == n { assert b[n + 1..k] == []; }
      if k - 1 > n { assert b[n + 1..k] == b[n + 1..k - 1] + [line]; }
    }
  }

  lemma DepthOfNone(b: seq<string>)
    ensures Depth(b[..0]) == 0
  {
  }

  lemma DepthOf(b: seq<string>, k: nat)
    requires 0 < k <= |b|
    ensures Depth(b[..k]) == Depth(b[..k - 1]) + Balance(b[k - 1])
  {
    assert b[..k][..k - 1] == b[..k - 1];
  }

  lemma OneMoreLine(pre: seq<string>, b: seq<string>, p: Settings)
    requires b != []
    ensures var before, line := pre + b[..|b| - 1], b[|b| - 1];
            && StateAfter(pre + b) == Next(StateAfter(before), line)
            && Inject(pre + b, p) ==
               Inject(before, p) + [line] + if Injects(StateAfter(before), line) then Injection(p) else []
  {
    hide Next, Injects, Injection;
    assert (pre + b)[..|pre| + |b| - 1] == pre + b[..|b| - 1];
  }

  // ---------- A whole file ----------

  lemma OutsideLine(pre: seq<string>, line: string, p: Settings)
    requires StateAfter(pre).depth == 0 && !OpensServer(line)
    ensures StateAfter(pre + [line]) == StateAfter(pre)
    ensures Inject(pre + [line], p) == Inject(pre, p) + [line]
  {
    hide StateAfter, Inject, OpensServer, Next, Injects;
    OneMoreLine(pre, [line], p);
    assert pre + [line][..0] == pre;
    OneLine(StateAfter(pre), line);
  }

  lemma OnePart(pre: seq<string>, part: Part, p: Settings)
    requires StateAfter(pre).depth == 0 && IsPart(part)
    ensures StateAfter(pre + Lines(part)).depth == 0
    ensures Inject(pre + Lines(part), p) == Inject(pre, p) + Limited(part, p)
  {
    hide StateAfter, Inject, OpensServer, NamesServer, Depth;
    match part
    case Outside(line) => OutsideLine(pre, line, p);
    case Nameless(b) =>
      ThroughBlock(pre, b, |b|, |b|, p);
      assert b[..|b|] == b;
    case Named(b, n) =>
      ThroughBlock(pre, b, n, |b|, p);
      assert b[..|b|] == b && b[n + 1..|b|] == b[n + 1..];
  }

  /** In a file made of server blocks and lines outside them, each block with a server name gets, below its
      first one, the limits that are on, and nothing else is added. */
  lemma {:induction false} EveryBlockIsLimited(parts: seq<Part>, p: Settings)
    requires AreParts(parts)
    ensures StateAfter(AllLines(parts)).depth == 0
    ensures Inject(AllLines(parts), p) == AllLimited(parts, p)
  {
    hide StateAfter, Inject, IsPart, Lines, Limited;
    if parts == [] {
      NothingScanned(p);
    } else {
      var n := |parts| - 1;
      assert IsPart(parts[n]);
      EveryBlockIsLimited(parts[..n], p);
      OnePart(AllLines(parts[..n]), parts[n], p);
    }
  }

  lemma NothingScanned(p: Settings)
    ensures StateAfter([]) == State(0, false) && Inject([], p) == []
  {
  }

  // ---------- Which lines are the rewriter's own ----------

  lemma {:induction false} CleanMembers(lines: seq<string>)
    ensures forall line :: line in Clean(lines) <==> line in lines && !IsDirective(line)
  {
    hide IsDirective;
    if lines != [] {
      CleanMembers(lines[..|lines| - 1]);
      LastApart(lines);
    }
  }

  lemma {:induction false} InjectMembers(lines: seq<string>, p: Settings)
    ensures forall line :: line in lines ==> line in Inject(lines, p)
    ensures forall line :: line in Inject(lines, p) ==> line in lines || line in Injection(p)
  {
    hide Injects, Injection;
    if lines != [] {
      InjectMembers(lines[..|lines| - 1], p);
      LastApart(lines);
    }
  }

  /** The rewritten file has no old limit: what it says about the two zones or the status are the new lines.
      Lines that mention none of the three stay. */
  lemma OldLimitsGo(content: string, p: Settings)
    requires Proper(p)
    ensures forall line | line in Split(Rewrite(content, p), '\n') ::
              (Contains(line, "limit_req zone=wp_req_limit") || Contains(line, "limit_req zone=wp_bot_limit")
               || Contains(line, "limit_req_status 429")) ==>
              (p.ipEnabled && line == p.ipLine) || (p.botEnabled && line == p.botLine)
    ensures forall line | line in Split(content, '\n') ::
              !Contains(line, "limit_req zone=wp_req_limit") && !Contains(line, "limit_req zone=wp_bot_limit")
              && !Contains(line, "limit_req_status 429") ==>
              line in Split(Rewrite(content, p), '\n')
  {
    hide Split, Proper, Clean, Inject, Contains;
    var lines := Split(content, '\n');
    var cleaned := Clean(lines);
    CleanMembers(lines);
    InjectMembers(cleaned, p);
    SplitParts(content, '\n');
    CleanKeepsNoBreaks(lines);
    InjectKeepsNoBreaks(cleaned, p);
    if cleaned == [] {
      NoLines(p);
      EmptyIsNoDirective();
    } else {
      SplitJoin(Inject(cleaned, p), '\n');
    }
  }

  lemma EmptyIsNoDirective()
    ensures Split("", '\n') == [""] && !IsDirective("")
  {
    IndexOfChar("", '\n', "");
  }
}
