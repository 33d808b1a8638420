/** The filter that strips database-level statements from an SQL dump while it is restored
    (executor/backup.go). This file is the batch reading of the filter: how a whole input splits into
    statements, which of them are dropped, and what is left. A byte is a character below 256; nothing
    here depends on that bound. */
module RestoreFilter {
  import opened GoStrings

  const MAX_STATEMENT_PREFIX := 256

  /** UTF-8 length of Go's `string(b)`: bytes from 0x80 up widen to two. */
  function Width(c: char): nat {
    if c as int < 0x80 then 1 else 2
  }

  function EncodedLen(s: string): (n: nat)
    ensures n >= |s|
  {
    if s == [] then 0 else EncodedLen(s[..|s| - 1]) + Width(s[|s| - 1])
  }

  /** Repeatedly replaces the first span from `open` to the next `close` by one space; a span that is
      never closed swallows the rest. */
  function StripSpans(s: string, open: string, close: string): string
    requires open != "" && close != ""
    decreases |s|
  {
    var start := Index(s, open);
    if start < 0 then s
    else
      var after := s[start + |open|..];
      var end := Index(after, close);
      if end < 0 then s[..start]
      else StripSpans(s[..start] + " " + after[end + |close|..], open, close)
  }

  /** normalizeSQLPrefix: upper case, comments removed, white space collapsed. */
  function Normalize(s: string): string {
    Join(Fields(StripComments(Upper(s))), " ")
  }

  function StripComments(s: string): string {
    StripSpans(StripSpans(StripSpans(s, "/*", "*/"), "--", "\n"), "#", "\n")
  }

  datatype Decision = Undecided | Keep | Skip

  predicate HasBlank(s: string) {
    exists i :: 0 <= i < |s| && Blank(s[i])
  }

  predicate Blank(c: char) {
    c == '\r' || c == '\n' || c == '\t' || c == ' '
  }

  /** restoreStatementDecision. */
  function Decide(prefix: string): Decision {
    if Contains(Upper(prefix), "DEFINER=") then Skip
    else DecideFields(Fields(Normalize(prefix)), HasBlank(prefix))
  }

  function DecideFields(fields: seq<string>, hasBlank: bool): Decision {
    if |fields| == 0 then Undecided
    else if fields[0] == "USE" then Skip
    else if fields[0] == "CREATE" then
      if |fields| < 2 then Undecided
      else if fields[1] == "DATABASE" || "DEFINER=" <= fields[1] then Skip
      else if fields[1] <= "DATABASE" || fields[1] <= "DEFINER=" then Undecided
      else Keep
    else if fields[0] == "DROP" then
      if |fields| < 2 then Undecided
      else if fields[1] <= "DATABASE" && fields[1] != "DATABASE" then Undecided
      else if fields[1] == "DATABASE" then Skip
      else Keep
    else if !hasBlank && (fields[0] <= "USE" || fields[0] <= "CREATE" || fields[0] <= "DROP") then Undecided
    else Keep
  }

  /** The prefix mode of a statement ends at length `j`: either the decision falls there or the prefix
      is full. */
  predicate Settles(s: string, j: nat)
    requires j <= |s|
  {
    Decide(s[..j]) != Undecided || EncodedLen(s[..j]) >= MAX_STATEMENT_PREFIX
  }

  function HeadScan(s: string, from: nat): (h: nat)
    requires 1 <= from <= |s| + 1
    ensures from - 1 <= h <= |s| && (from <= |s| ==> from <= h)
    ensures forall j :: from <= j < h ==> !Settles(s, j)
    ensures from <= h < |s| ==> Settles(s, h)
    decreases |s| + 1 - from
  {
    hide Settles;
    if from > |s| then |s| else if Settles(s, from) then from else HeadScan(s, from + 1)
  }

  /** The bytes a statement spends in prefix mode, up to and including the deciding one. Quotes and
      semicolons among them have no lexical effect. */
  function HeadEnd(s: string): (h: nat)
    requires s != ""
    ensures 1 <= h <= |s|
  {
    HeadScan(s, 1)
  }

  predicate Skipped(s: string)
    requires s != ""
  {
    Decide(s[..HeadEnd(s)]) == Skip
  }

  datatype Quote = Plain | Single(escaped: bool) | Double(escaped: bool) | Backtick

  /** The quote state after one byte. */
  function Lex(q: Quote, b: char): Quote {
    match q
    case Plain => if b == '\'' then Single(false) else if b == '"' then Double(false)
                  else if b == '`' then Backtick else Plain
    case Single(escaped) => if escaped then Single(false) else if b == '\\' then Single(true)
                            else if b == '\'' then Plain else q
    case Double(escaped) => if escaped then Double(false) else if b == '\\' then Double(true)
                            else if b == '"' then Plain else q
    case Backtick => if b == '`' then Plain else q
  }

  /** The number of bytes up to and including the first semicolon outside quotes, or all of them. */
  function BodyEnd(q: Quote, s: string): (n: nat)
    ensures n <= |s|
    ensures s != "" ==> n > 0
    decreases |s|
  {
    if s == "" then 0
    else if q == Plain && s[0] == ';' then 1
    else 1 + BodyEnd(Lex(q, s[0]), s[1..])
  }

  predicate Terminates(q: Quote, s: string)
    decreases |s|
  {
    s != "" && ((q == Plain && s[0] == ';') || Terminates(Lex(q, s[0]), s[1..]))
  }

  /** The length of the statement that starts at the first byte of `s`. */
  function StatementEnd(s: string): (n: nat)
    requires s != ""
    ensures 1 <= n <= |s|
  {
    var h := HeadEnd(s);
    if Skipped(s) && s[h - 1] == ';' then h else h + BodyEnd(Plain, s[h..])
  }

  datatype Segment = Space(text: string) | Kept(text: string) | Dropped(text: string)

  /** The whole input as the filter segments it. */
  function Segments(s: string): seq<Segment>
    decreases |s|
  {
    if s == "" then []
    else if Blank(s[0]) then [Space(s[..1])] + Segments(s[1..])
    else
      var n := StatementEnd(s);
      [if Skipped(s) then Dropped(s[..n]) else Kept(s[..n])] + Segments(s[n..])
  }

  function Flatten(segs: seq<Segment>): string {
    if segs == [] then "" else segs[0].text + Flatten(segs[1..])
  }

  function Emitted(segs: seq<Segment>): string {
    if segs == [] then "" else (if segs[0].Dropped? then "" else segs[0].text) + Emitted(segs[1..])
  }

  /** The batch filter: split, drop, concatenate. */
  function Filter(s: string): string {
    Emitted(Segments(s))
  }

  // ---------- Splitting ----------

  /** Every input byte lies in exactly one segment, in order. */
  lemma {:induction false} SegmentsPartitionInput(s: string)
    ensures Flatten(Segments(s)) == s
    decreases |s|
  {
    if s == "" {
    } else if Blank(s[0]) {
      SegmentsPartitionInput(s[1..]);
      assert Segments(s)[1..] == Segments(s[1..]);
    } else {
      var n := StatementEnd(s);
      SegmentsPartitionInput(s[n..]);
      assert Segments(s)[1..] == Segments(s[n..]);
      assert s == s[..n] + s[n..];
    }
  }

  lemma FilterBlank(b: char, t: string)
    requires Blank(b)
    ensures Filter([b] + t) == [b] + Filter(t)
  {
    var s := [b] + t;
    assert s[1..] == t && s[..1] == [b];
    assert Segments(s)[1..] == Segments(t);
  }

  lemma FilterStatement(s: string)
    requires s != "" && !Blank(s[0])
    ensures Filter(s) == (if Skipped(s) then "" else s[..StatementEnd(s)]) + Filter(s[StatementEnd(s)..])
  {
    assert Segments(s)[1..] == Segments(s[StatementEnd(s)..]);
  }

  // ---------- The head depends only on its own bytes ----------

  lemma {:induction false} HeadScanLocal(p: string, t: string, from: nat)
    requires 1 <= from <= |p|
    requires forall j :: from <= j < |p| ==> !Settles(p, j)
    requires Settles(p, |p|)
    ensures HeadScan(p + t, from) == |p|
    decreases |p| - from
  {
    assert (p + t)[..from] == p[..from];
    if from < |p| {
      assert !Settles(p, from);
      HeadScanLocal(p, t, from + 1);
    }
  }

  /** `p` never settles before its last byte and settles there: it is the head of any continuation. */
  ghost predicate IsHead(p: string) {
    p != "" && (forall j :: 1 <= j < |p| ==> !Settles(p, j)) && Settles(p, |p|)
  }

  /** `p` has not settled yet. */
  ghost predicate Unsettled(p: string) {
    forall j :: 1 <= j <= |p| ==> !Settles(p, j)
  }

  lemma UnsettledGrows(p: string, b: char)
    requires Unsettled(p)
    ensures Settles(p + [b], |p| + 1) ==> IsHead(p + [b])
    ensures !Settles(p + [b], |p| + 1) ==> Unsettled(p + [b])
  {
    hide Decide;
    var p' := p + [b];
    assert forall j :: 1 <= j <= |p| ==> p'[..j] == p[..j];
    assert forall j :: 1 <= j <= |p| ==> Settles(p', j) == Settles(p, j);
  }

  lemma FilterFromHead(p: string, t: string)
    requires IsHead(p) && !Blank(p[0])
    ensures var e := BodyEnd(Plain, t);
            Filter(p + t) ==
            if Decide(p) != Skip then p + (t[..e] + Filter(t[e..]))
            else if p[|p| - 1] == ';' then Filter(t)
            else Filter(t[e..])
  {
    hide Decide, Filter, EncodedLen;
    var s := p + t;
    HeadScanLocal(p, t, 1);
    assert HeadEnd(s) == |p| && s[..|p|] == p && s[|p|..] == t && s[0] == p[0];
    assert p[..|p|] == p;
    FilterStatement(s);
    var e := BodyEnd(Plain, t);
    assert s[..|p| + e] == p + t[..e] && s[|p| + e..] == t[e..];
  }

  lemma {:induction false} HeadScanNever(p: string, from: nat)
    requires 1 <= from <= |p| + 1
    requires Unsettled(p)
    ensures HeadScan(p, from) == |p|
    decreases |p| + 1 - from
  {
    if from <= |p| { HeadScanNever(p, from + 1); }
  }

  /** Input that ends before the prefix settles is kept. */
  lemma FilterUnsettled(p: string)
    requires p != "" && !Blank(p[0]) && Unsettled(p)
    ensures Filter(p) == p
  {
    HeadScanNever(p, 1);
    assert p[..|p|] == p && p[|p|..] == "";
    assert !Settles(p, |p|);
    FilterStatement(p);
    assert StatementEnd(p) == |p|;
  }

  lemma {:induction false} EncodedLenGrows(s: string, j: nat, k: nat)
    requires j <= k <= |s|
    ensures EncodedLen(s[..k]) >= EncodedLen(s[..j]) + (k - j)
    decreases k
  {
    if j < k {
      assert s[..k][..k - 1] == s[..k - 1];
      EncodedLenGrows(s, j, k - 1);
    }
  }

  /** At most 256 bytes are ever held back before a statement's fate is known. */
  lemma HeadIsBounded(s: string)
    requires s != ""
    ensures HeadEnd(s) <= MAX_STATEMENT_PREFIX
  {
    hide Decide;
    var h := HeadEnd(s);
    EncodedLenGrows(s, 0, h - 1);
    assert 1 <= h - 1 ==> !Settles(s, h - 1);
  }

  // ---------- Idempotence ----------

  lemma {:induction false} BodyEndLocal(q: Quote, u: string, t: string)
    requires Terminates(q, u)
    ensures BodyEnd(q, u + t) == BodyEnd(q, u)
    decreases |u|
  {
    assert (u + t)[0] == u[0] && (u + t)[1..] == u[1..] + t;
    if !(q == Plain && u[0] == ';') { BodyEndLocal(Lex(q, u[0]), u[1..], t); }
  }

  lemma {:induction false} BodyEndStops(q: Quote, u: string)
    requires BodyEnd(q, u) < |u|
    ensures Terminates(q, u[..BodyEnd(q, u)])
    ensures BodyEnd(q, u[..BodyEnd(q, u)]) == BodyEnd(q, u)
    decreases |u|
  {
    var e := BodyEnd(q, u);
    assert u[..e][0] == u[0];
    if !(q == Plain && u[0] == ';') {
      BodyEndStops(Lex(q, u[0]), u[1..]);
      assert u[..e][1..] == u[1..][..e - 1];
    }
  }

  /** A kept statement that is followed by anything keeps its extent whatever follows it. */
  lemma KeptStatementIsLocal(s: string, t: string)
    requires s != "" && !Blank(s[0]) && !Skipped(s)
    requires StatementEnd(s) < |s|
    ensures Filter(s[..StatementEnd(s)] + t) == s[..StatementEnd(s)] + Filter(t)
  {
    hide Decide, Filter, EncodedLen;
    var h, n := HeadEnd(s), StatementEnd(s);
    var p, u := s[..h], s[h..];
    var e := BodyEnd(Plain, u);
    BodyEndStops(Plain, u);
    assert forall j :: 1 <= j <= h ==> p[..j] == s[..j];
    assert forall j :: 1 <= j < h ==> Settles(p, j) == Settles(s, j);
    assert IsHead(p);
    var v := u[..e];
    BodyEndLocal(Plain, v, t);
    FilterFromHead(p, v + t);
    assert (v + t)[..e] == v && (v + t)[e..] == t;
    assert s[..n] == p + v;
    assert s[..n] + t == p + (v + t);
  }

  /** Filtering what the filter wrote changes nothing. */
  lemma {:induction false} FilterIsIdempotent(s: string)
    ensures Filter(Filter(s)) == Filter(s)
    decreases |s|
  {
    hide Decide;
    if s == "" {
    } else if Blank(s[0]) {
      assert s == [s[0]] + s[1..];
      FilterBlank(s[0], s[1..]);
      FilterBlank(s[0], Filter(s[1..]));
      FilterIsIdempotent(s[1..]);
    } else {
      var n := StatementEnd(s);
      FilterStatement(s);
      FilterIsIdempotent(s[n..]);
      if !Skipped(s) {
        if n < |s| {
          KeptStatementIsLocal(s, Filter(s[n..]));
        } else {
          assert s[..n] == s && s[n..] == "";
          assert Filter("") == "" && Filter(s) == s + "" == s;
        }
      } else {
        assert "" + Filter(s[n..]) == Filter(s[n..]);
      }
    }
  }
}
