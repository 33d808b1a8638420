/** Version comparison (executor/panel_update.go) and the patch-bump test that gates automatic updates
    (executor/panel_update_runner.go). Strings are sequences of code points. */
module Versions {
  import opened GoStrings

  // ---------- Go's number scanners ----------

  const MAX_INT := 0x7FFF_FFFF_FFFF_FFFF

  predicate IsDigit(c: char) {
    '0' <= c <= '9'
  }

  function DigitRun(s: string): (n: nat)
    ensures n <= |s|
    ensures forall i :: 0 <= i < n ==> IsDigit(s[i])
    ensures n < |s| ==> !IsDigit(s[n])
  {
    if s == "" || !IsDigit(s[0]) then 0 else 1 + DigitRun(s[1..])
  }

  function DigitsValue(s: string): nat
    requires forall i :: 0 <= i < |s| ==> IsDigit(s[i])
  {
    if s == "" then 0
    else
      assert IsDigit(s[|s| - 1]);
      10 * DigitsValue(s[..|s| - 1]) + (s[|s| - 1] as int - '0' as int)
  }

  /** An optional sign. */
  function SignLength(s: string): (n: nat)
    ensures n <= |s| && n <= 1
  {
    if s != "" && (s[0] == '+' || s[0] == '-') then 1 else 0
  }

  function Signed(s: string, digits: nat): int
    requires SignLength(s) + digits <= |s|
    requires forall i :: SignLength(s) <= i < SignLength(s) + digits ==> IsDigit(s[i])
  {
    var v: int := DigitsValue(s[SignLength(s)..SignLength(s) + digits]);
    if s != "" && s[0] == '-' then -v else v
  }

  predicate InRange(v: int) {
    -MAX_INT - 1 <= v <= MAX_INT
  }

  /** fmt.Sscanf(s, "%d", &n) with n starting at zero: leading spaces are skipped (a line break ends the
      scan), then a sign and a run of digits are read; anything else, or a value out of range, leaves
      zero. */
  function ScanInt(s: string): int {
    if s != "" && IsSpace(s[0]) && s[0] != '\n' then ScanInt(s[1..])
    else
      var digits := DigitRun(s[SignLength(s)..]);
      if digits == 0 then 0
      else
        assert forall i :: SignLength(s) <= i < SignLength(s) + digits ==>
               s[i] == s[SignLength(s)..][i - SignLength(s)];
        var v := Signed(s, digits);
        if InRange(v) then v else 0
  }

  datatype Parsed = Bad | Good(value: int)

  /** strconv.Atoi. */
  function Atoi(s: string): Parsed {
    var digits := DigitRun(s[SignLength(s)..]);
    if digits == 0 || SignLength(s) + digits != |s| then Bad
    else
      assert forall i :: SignLength(s) <= i < SignLength(s) + digits ==> s[i] == s[SignLength(s)..][i - SignLength(s)];
      var v := Signed(s, digits);
      if InRange(v) then Good(v) else Bad
  }

  /** A string that Atoi accepts is scanned to the same number. */
  lemma ScanAgreesWithAtoi(s: string)
    requires Atoi(s).Good?
    ensures ScanInt(s) == Atoi(s).value
  {
  }

  // ---------- Splitting ----------

  function TrimV(s: string): string {
    if s != "" && s[0] == 'v' then s[1..] else s
  }

  /** The part before the first hyphen, and the part after it (empty when there is none). */
  function Core(s: string): string {
    var i := Index(s, "-");
    if i < 0 then s else s[..i]
  }

  function PreRelease(s: string): string {
    var i := Index(s, "-");
    if i < 0 then "" else s[i + 1..]
  }

  function Component(parts: seq<string>, i: nat): int {
    if i < |parts| then ScanInt(parts[i]) else 0
  }

  /** splitAlphaNum: maximal runs of digits and of other characters. */
  function Pieces(s: string): (ps: seq<string>)
    ensures forall i :: 0 <= i < |ps| ==> Uniform(ps[i])
    decreases |s|
  {
    if s == "" then []
    else
      var n := RunLength(s);
      [s[..n]] + Pieces(s[n..])
  }

  function RunLength(s: string): (n: nat)
    requires s != ""
    ensures 1 <= n <= |s|
    ensures forall i :: 0 <= i < n ==> IsDigit(s[i]) == IsDigit(s[0])
    ensures n < |s| ==> IsDigit(s[n]) != IsDigit(s[0])
  {
    if |s| > 1 && IsDigit(s[1]) == IsDigit(s[0]) then 1 + RunLength(s[1..]) else 1
  }

  /** A piece is not empty and is all digits or free of digits. */
  predicate Uniform(p: string) {
    p != "" && forall i :: 0 <= i < |p| ==> IsDigit(p[i]) == IsDigit(p[0])
  }

  /** isNumeric. */
  predicate Numeric(p: string) {
    forall i :: 0 <= i < |p| ==> IsDigit(p[i])
  }

  // ---------- The ordering ----------

  function Sign(less: bool, greater: bool): int {
    if greater then 1 else if less then -1 else 0
  }

  function CompareInts(a: int, b: int): int {
    Sign(a < b, a > b)
  }

  function ComparePieces(a: string, b: string): int {
    if Numeric(a) && Numeric(b) then CompareInts(ScanInt(a), ScanInt(b)) else Sign(Less(a, b), Less(b, a))
  }

  /** The first difference decides; a proper prefix comes first. */
  function CompareLists(a: seq<string>, b: seq<string>): int {
    if a == [] || b == [] then CompareInts(|a|, |b|)
    else
      var c := ComparePieces(a[0], b[0]);
      if c != 0 then c else CompareLists(a[1..], b[1..])
  }

  /** What a version string stands for. */
  datatype Key = Key(major: int, minor: int, patch: int, pre: seq<string>)

  function KeyOf(s: string): Key {
    var v := TrimV(s);
    var nums := Split(Core(v), '.');
    Key(Component(nums, 0), Component(nums, 1), Component(nums, 2), Pieces(PreRelease(v)))
  }

  /** Numbers first; then a release beats its pre-releases. */
  function CompareKeys(a: Key, b: Key): int {
    if a.major != b.major then CompareInts(a.major, b.major)
    else if a.minor != b.minor then CompareInts(a.minor, b.minor)
    else if a.patch != b.patch then CompareInts(a.patch, b.patch)
    else if a.pre == [] || b.pre == [] then CompareInts(if a.pre == [] then 1 else 0, if b.pre == [] then 1 else 0)
    else CompareLists(a.pre, b.pre)
  }

  function Compare(a: string, b: string): int {
    CompareKeys(KeyOf(a), KeyOf(b))
  }

  // ---------- The loops of the source ----------

  /** splitAlphaNum. */
  method SplitAlphaNum(s: string) returns (parts: seq<string>)
    ensures parts == Pieces(s)
  {
    hide Pieces, RunLength;
    PiecesOfNothing();
    parts := [];
    if s == "" { return; }
    var current := "";
    var isDigit := -1;
    assert "" + s[0..] == s;
    for k := 0 to |s|
      invariant (k == 0) == (current == "")
      invariant current != "" ==> Uniform(current) && isDigit == if IsDigit(current[0]) then 1 else 0
      invariant parts + Pieces(current + s[k..]) == Pieces(s)
    {
      var ch := s[k];
      var curIsDigit := if IsDigit(ch) then 1 else 0;
      ghost var rest := s[k..];
      assert rest == [ch] + s[k + 1..];
      if curIsDigit != isDigit && current != "" {
        PieceDone(parts, current, rest);
        parts := parts + [current];
        current := "";
      }
      isDigit := curIsDigit;
      assert current + rest == (current + [ch]) + s[k + 1..];
      UniformGrows(current, ch);
      current := current + [ch];
    }
    assert current + s[|s|..] == current + "";
    PieceDone(parts, current, "");
    parts := parts + [current];
    assert parts + Pieces("" + "") == parts;
  }

  /** A run that has ended is a piece. */
  lemma PieceDone(parts: seq<string>, p: string, rest: string)
    requires Uniform(p) && (rest == "" || IsDigit(rest[0]) != IsDigit(p[0]))
    ensures parts + Pieces(p + rest) == (parts + [p]) + Pieces("" + rest)
  {
    hide Pieces, Uniform;
    PiecesCut(p, rest);
    assert "" + rest == rest;
  }

  lemma UniformGrows(p: string, c: char)
    requires p == "" || (Uniform(p) && IsDigit(p[0]) == IsDigit(c))
    ensures Uniform(p + [c])
  {
  }

  lemma NoPieces(s: string)
    ensures Pieces(s) == [] <==> s == ""
  {
  }

  lemma PiecesOfNothing()
    ensures Pieces("") == []
  {
  }

  lemma PiecesCut(p: string, rest: string)
    requires Uniform(p) && (rest == "" || IsDigit(rest[0]) != IsDigit(p[0]))
    ensures Pieces(p + rest) == [p] + Pieces(rest)
  {
    RunLengthOf(p, rest);
    assert (p + rest)[..|p|] == p && (p + rest)[|p|..] == rest;
  }

  lemma RunLengthOf(p: string, rest: string)
    requires Uniform(p) && (rest == "" || IsDigit(rest[0]) != IsDigit(p[0]))
    ensures RunLength(p + rest) == |p|
  {
    var s := p + rest;
    assert forall i :: 0 <= i < |p| ==> s[i] == p[i];
    assert rest != "" ==> s[|p|] == rest[0];
  }

  /** comparePreRelease. */
  method ComparePreRelease(a: string, b: string) returns (r: int)
    ensures r == CompareLists(Pieces(a), Pieces(b))
  {
    var aParts := SplitAlphaNum(a);
    var bParts := SplitAlphaNum(b);
    var n := |aParts|;
    if |bParts| < n { n := |bParts|; }
    for i := 0 to n
      invariant CompareLists(aParts[i..], bParts[i..]) == CompareLists(aParts, bParts)
    {
      assert aParts[i..][1..] == aParts[i + 1..] && bParts[i..][1..] == bParts[i + 1..];
      if Numeric(aParts[i]) && Numeric(bParts[i]) {
        var av, bv := ScanInt(aParts[i]), ScanInt(bParts[i]);
        if av > bv { return 1; }
        if av < bv { return -1; }
      } else {
        if Less(bParts[i], aParts[i]) { return 1; }
        if Less(aParts[i], bParts[i]) { return -1; }
      }
    }
    if |aParts| > |bParts| { return 1; }
    if |aParts| < |bParts| { return -1; }
    return 0;
  }

  /** CompareVersions. */
  method CompareVersions(a0: string, b0: string) returns (r: int)
    ensures r == Compare(a0, b0)
  {
    hide Split, ScanInt, Core, PreRelease, TrimV, Pieces, CompareLists;
    var a, b := TrimV(a0), TrimV(b0);
    var aNums, bNums := Split(Core(a), '.'), Split(Core(b), '.');
    for i := 0 to 3
      invariant forall k :: 0 <= k < i ==> Component(aNums, k) == Component(bNums, k)
    {
      var av, bv := 0, 0;
      if i < |aNums| { av := ScanInt(aNums[i]); }
      if i < |bNums| { bv := ScanInt(bNums[i]); }
      assert av == Component(aNums, i) && bv == Component(bNums, i);
      if av > bv { return 1; }
      if av < bv { return -1; }
    }
    assert Component(aNums, 0) == Component(bNums, 0) && Component(aNums, 1) == Component(bNums, 1)
           && Component(aNums, 2) == Component(bNums, 2);
    var aPre, bPre := PreRelease(a), PreRelease(b);
    NoPieces(aPre);
    NoPieces(bPre);
    if aPre == "" && bPre == "" { return 0; }
    if aPre == "" { return 1; }
    if bPre == "" { return -1; }
    r := ComparePreRelease(aPre, bPre);
  }

  // ---------- A total preorder ----------

  lemma PiecesAntisymmetric(a: string, b: string)
    ensures ComparePieces(a, b) == -ComparePieces(b, a)
  {
    LessTotal(a, b);
  }

  /** Among pieces the mixed comparison is still transitive: a numeric piece and a piece without digits
      differ in their first characters, and no character lies between two digits but a digit. */
  lemma PiecesTransitive(a: string, b: string, c: string)
    requires Uniform(a) && Uniform(b) && Uniform(c)
    requires ComparePieces(a, b) <= 0 && ComparePieces(b, c) <= 0
    ensures ComparePieces(a, c) <= 0
    ensures ComparePieces(a, b) < 0 || ComparePieces(b, c) < 0 ==> ComparePieces(a, c) < 0
  {
    LessTotal(a, b);
    LessTotal(b, c);
    LessTotal(a, c);
    assert Numeric(a) == IsDigit(a[0]) && Numeric(b) == IsDigit(b[0]) && Numeric(c) == IsDigit(c[0]);
    if Less(a, b) && Less(b, c) { LessTransitive(a, b, c); }
  }

  lemma {:induction false} ListsAntisymmetric(a: seq<string>, b: seq<string>)
    ensures CompareLists(a, b) == -CompareLists(b, a)
  {
    if a != [] && b != [] {
      PiecesAntisymmetric(a[0], b[0]);
      ListsAntisymmetric(a[1..], b[1..]);
    }
  }

  ghost predicate AllUniform(ps: seq<string>) {
    forall i :: 0 <= i < |ps| ==> Uniform(ps[i])
  }

  lemma {:induction false} ListsTransitive(a: seq<string>, b: seq<string>, c: seq<string>)
    requires AllUniform(a) && AllUniform(b) && AllUniform(c)
    requires CompareLists(a, b) <= 0 && CompareLists(b, c) <= 0
    ensures CompareLists(a, c) <= 0
    ensures CompareLists(a, b) < 0 || CompareLists(b, c) < 0 ==> CompareLists(a, c) < 0
  {
    hide ComparePieces, Uniform, CompareLists;
    ListsUnfold(a, b);
    ListsUnfold(b, c);
    ListsUnfold(a, c);
    if a != [] && b != [] && c != [] {
      PiecesTransitive(a[0], b[0], c[0]);
      if ComparePieces(a[0], b[0]) == 0 && ComparePieces(b[0], c[0]) == 0 {
        PiecesAntisymmetric(a[0], b[0]);
        PiecesAntisymmetric(b[0], c[0]);
        PiecesTransitive(c[0], b[0], a[0]);
        PiecesAntisymmetric(a[0], c[0]);
        ListsTransitive(a[1..], b[1..], c[1..]);
      }
    }
  }

  lemma ListsUnfold(a: seq<string>, b: seq<string>)
    ensures CompareLists(a, b) ==
            if a == [] || b == [] then CompareInts(|a|, |b|)
            else if ComparePieces(a[0], b[0]) != 0 then ComparePieces(a[0], b[0])
            else CompareLists(a[1..], b[1..])
  {
  }

  /** Swapping the arguments swaps the sign. */
  lemma CompareAntisymmetric(a: string, b: string)
    ensures Compare(a, b) == -Compare(b, a)
  {
    hide TrimV, Core, PreRelease, Split, Component, Pieces, CompareLists, ScanInt;
    ListsAntisymmetric(KeyOf(a).pre, KeyOf(b).pre);
  }

  /** "Not later than" is transitive over all strings, and strictly so when either step is strict. */
  lemma CompareTransitive(a: string, b: string, c: string)
    requires Compare(a, b) <= 0 && Compare(b, c) <= 0
    ensures Compare(a, c) <= 0
    ensures Compare(a, b) < 0 || Compare(b, c) < 0 ==> Compare(a, c) < 0
  {
    hide TrimV, Core, PreRelease, Split, Component, Pieces, CompareLists, ScanInt;
    var x, y, z := KeyOf(a), KeyOf(b), KeyOf(c);
    assert AllUniform(x.pre) && AllUniform(y.pre) && AllUniform(z.pre);
    if CompareLists(x.pre, y.pre) <= 0 && CompareLists(y.pre, z.pre) <= 0 {
      ListsTransitive(x.pre, y.pre, z.pre);
    }
  }

  /** Versions that compare equal are interchangeable in every comparison. */
  lemma EqualVersionsInterchange(a: string, b: string, c: string)
    requires Compare(a, b) == 0
    ensures Compare(a, c) == Compare(b, c)
  {
    hide Compare;
    CompareAntisymmetric(a, b);
    CompareAntisymmetric(a, c);
    CompareAntisymmetric(b, c);
    if Compare(a, c) <= 0 { CompareTransitive(b, a, c); } else { CompareTransitive(c, a, b); }
    if Compare(b, c) <= 0 { CompareTransitive(a, b, c); } else { CompareTransitive(c, b, a); }
    CompareSigns(a, c);
    CompareSigns(b, c);
  }

  lemma {:induction false} ListSigns(a: seq<string>, b: seq<string>)
    ensures -1 <= CompareLists(a, b) <= 1
  {
    if a != [] && b != [] { ListSigns(a[1..], b[1..]); }
  }

  lemma CompareSigns(a: string, b: string)
    ensures -1 <= Compare(a, b) <= 1
  {
    ListSigns(KeyOf(a).pre, KeyOf(b).pre);
  }

  // ---------- Patch bumps ----------

  predicate NoOuterSpace(s: string) {
    s == "" || (!IsSpace(s[0]) && !IsSpace(s[|s| - 1]))
  }

  datatype Semver = NotStable | Stable(major: int, minor: int, patch: int)

  /** parseStableSemver. */
  function ParseStable(version: string): Semver {
    var v := TrimV(TrimSpace(version));
    if v == "" || Contains(v, "-") then NotStable
    else
      var parts := Split(v, '.');
      if |parts| != 3 then NotStable
      else
        var a, b, c := Atoi(parts[0]), Atoi(parts[1]), Atoi(parts[2]);
        if a.Good? && b.Good? && c.Good? && a.value >= 0 && b.value >= 0 && c.value >= 0
        then Stable(a.value, b.value, c.value) else NotStable
  }

  /** IsPatchBump. */
  predicate IsPatchBump(current: string, target: string) {
    var c, t := ParseStable(current), ParseStable(target);
    c.Stable? && t.Stable? && c.major == t.major && c.minor == t.minor && t.patch > c.patch
  }

  lemma SplitThree(a: string, b: string, c: string)
    requires '.' !in a && '.' !in b && '.' !in c
    ensures Split(a + "." + b + "." + c, '.') == [a, b, c]
  {
    hide Split;
    var parts := [a, b, c];
    SplitJoin(parts, '.');
    assert parts[1..] == [b, c] && [b, c][1..] == [c];
    assert Join([b, c], ".") == b + "." + c;
    assert Join(parts, ".") == a + "." + (b + "." + c);
    assert a + "." + b + "." + c == a + "." + (b + "." + c);
    assert Split(a + "." + b + "." + c, '.') == parts;
  }

  lemma NoHyphen(s: string)
    requires '-' !in s
    ensures !Contains(s, "-") && Core(s) == s && PreRelease(s) == ""
  {
    forall i: nat ensures !OccursAt(s, "-", i) {
      if i < |s| { assert s[i..i + 1][0] == s[i]; }
    }
  }

  lemma DigitRunTrail(d: string, trail: string)
    requires (forall i :: 0 <= i < |d| ==> IsDigit(d[i])) && (trail == "" || !IsDigit(trail[0]))
    ensures DigitRun(d + trail) == |d|
  {
    var e := d + trail;
    assert forall i :: 0 <= i < |d| ==> e[i] == d[i];
    assert trail != "" ==> e[|d|] == trail[0];
  }

  lemma AtoiDigits(d: string)
    requires Atoi(d).Good?
    ensures var n := SignLength(d);
            && n < |d| && DigitRun(d[n..]) == |d| - n && (forall i :: n <= i < |d| ==> IsDigit(d[i]))
            && Atoi(d).value == Signed(d, |d| - n) && InRange(Signed(d, |d| - n))
  {
    hide DigitsValue, InRange;
    var n := SignLength(d);
    assert forall i :: n <= i < |d| ==> d[i] == d[n..][i - n];
  }

  lemma SignedTrail(d: string, trail: string, k: nat)
    requires d != "" && SignLength(d) + k == |d| && forall i :: SignLength(d) <= i < |d| ==> IsDigit(d[i])
    ensures var e := d + trail;
            && SignLength(e) == SignLength(d) && (forall i :: SignLength(e) <= i < SignLength(e) + k ==> IsDigit(e[i]))
            && Signed(e, k) == Signed(d, k)
  {
    hide DigitsValue;
    var n, e := SignLength(d), d + trail;
    assert forall i :: 0 <= i < |d| ==> e[i] == d[i];
    assert e[n..n + k] == d[n..n + k];
  }

  /** A number that starts at once is read to its last digit. */
  lemma ScanHere(e: string, k: nat)
    requires SignLength(e) + k <= |e| && k > 0 && DigitRun(e[SignLength(e)..]) == k && !IsSpace(e[0])
    requires forall i :: SignLength(e) <= i < SignLength(e) + k ==> IsDigit(e[i])
    requires InRange(Signed(e, k))
    ensures ScanInt(e) == Signed(e, k)
  {
    hide DigitRun, Signed, InRange, SignLength;
  }

  lemma NumberStarts(d: string)
    requires SignLength(d) < |d| && IsDigit(d[SignLength(d)])
    ensures !IsSpace(d[0])
  {
  }

  lemma NoDigitInSpace(trail: string)
    requires AllSpace(trail)
    ensures trail == "" || !IsDigit(trail[0])
  {
  }

  /** White space after a number is not read. */
  lemma ScanTrail(d: string, trail: string)
    requires Atoi(d).Good? && AllSpace(trail)
    ensures ScanInt(d + trail) == Atoi(d).value
  {
    AtoiDigits(d);
    hide DigitRun, Atoi, InRange, Signed, ScanInt, IsSpace, AllSpace, IsDigit, SignLength;
    var n, e := SignLength(d), d + trail;
    SignedTrail(d, trail, |d| - n);
    NoDigitInSpace(trail);
    DropOfConcat(d, trail, n);
    DigitRunTrail(d[n..], trail);
    NumberStarts(d);
    assert e[0] == d[0];
    ScanHere(e, |d| - n);
  }

  /** The white space in front. */
  function Front(s: string): string {
    s[..|s| - |TrimLeft(s)|]
  }

  /** White space in front that keeps the comparison from reading the first number: a line break, or any
      before a "v". */
  predicate Misread(s: string)
    requires TrimSpace(s) != ""
  {
    Front(s) != "" && ('\n' in Front(s) || TrimSpace(s)[0] == 'v')
  }

  /** What stands before the first number. */
  function Lead(s: string): string
    requires TrimSpace(s) != ""
  {
    if Front(s) != "" && TrimSpace(s)[0] == 'v' then Front(s) + "v" else Front(s)
  }

  lemma {:induction false} ScanPadded(pad: string, rest: string)
    requires AllSpace(pad)
    ensures ScanInt(pad + rest) == if '\n' in pad then 0 else ScanInt(rest)
  {
    if pad == "" {
      assert pad + rest == rest;
    } else {
      var s := pad + rest;
      assert s[0] == pad[0] && s[1..] == pad[1..] + rest && s[0..] == s;
      if pad[0] != '\n' { ScanPadded(pad[1..], rest); }
    }
  }

  lemma ScanV(rest: string)
    ensures ScanInt("v" + rest) == 0
  {
    var s := "v" + rest;
    assert s[0] == 'v' && s[0..] == s;
  }

  /** The first number is read as 0 behind such white space, and as it is otherwise. */
  lemma ScanLead(s: string, first: string)
    requires TrimSpace(s) != "" && Atoi(first).Good? && AllSpace(Front(s))
    ensures ScanInt(Lead(s) + first) == if Misread(s) then 0 else Atoi(first).value
  {
    hide TrimSpace, Front, ScanInt, Atoi;
    ScanAgreesWithAtoi(first);
    if Front(s) != "" && TrimSpace(s)[0] == 'v' {
      ScanPadded(Front(s), "v" + first);
      ScanV(first);
      assert Front(s) + "v" + first == Front(s) + ("v" + first);
    } else {
      ScanPadded(Front(s), first);
    }
  }

  /** What `TrimV` leaves of a padded version. */
  lemma PaddedV(s: string) returns (trail: string)
    requires TrimSpace(s) != ""
    ensures AllSpace(trail) && AllSpace(Front(s)) && '.' !in Lead(s) && '-' !in Lead(s)
    ensures TrimV(s) == Lead(s) + TrimV(TrimSpace(s)) + trail
  {
    hide TrimLeft, TrimRight;
    var pad := TrimLeftParts(s);
    var left := TrimLeft(s);
    trail := TrimRightParts(left);
    var core := TrimRight(left);
    assert left[0] == core[0];
    LeadOf(pad, core, trail);
    assert pad == Front(s);
    assert s == pad + core + trail;
  }

  lemma LeadOf(pad: string, core: string, trail: string)
    requires AllSpace(pad) && core != "" && !IsSpace(core[0])
    ensures var lead := if pad == "" then "" else if core[0] == 'v' then pad + "v" else pad;
            TrimV(pad + core + trail) == lead + TrimV(core) + trail && '.' !in lead && '-' !in lead
  {
    var s := pad + core + trail;
    assert '.' !in pad && '-' !in pad;
    if pad == "" {
      assert s == core + trail && s[0] == core[0];
      assert s[1..] == core[1..] + trail;
    } else {
      assert s[0] == pad[0];
      assert core == [core[0]] + core[1..];
      if core[0] == 'v' { assert s == pad + "v" + core[1..] + trail; }
    }
  }

  lemma HyphenFree(s: string)
    requires !Contains(s, "-")
    ensures '-' !in s
  {
    if i :| 0 <= i < |s| && s[i] == '-' { assert OccursAt(s, "-", i); }
  }

  lemma StableHasText(s: string)
    requires ParseStable(s).Stable?
    ensures TrimSpace(s) != ""
  {
    hide TrimSpace, Split;
  }

  lemma StableText(s: string) returns (parts: seq<string>)
    requires ParseStable(s).Stable?
    ensures var v := TrimV(TrimSpace(s));
            '-' !in v && NoneHas(parts, '.') && |parts| == 3 && v == parts[0] + "." + (parts[1] + "." + parts[2])
    ensures Atoi(parts[0]) == Good(ParseStable(s).major)
    ensures Atoi(parts[1]) == Good(ParseStable(s).minor) && Atoi(parts[2]) == Good(ParseStable(s).patch)
  {
    hide Split, Atoi, TrimSpace, TrimV, Contains;
    var v := TrimV(TrimSpace(s));
    HyphenFree(v);
    parts := Split(v, '.');
    JoinSplit(v, '.');
    SplitParts(v, '.');
    JoinOfThree(parts);
  }

  lemma JoinOfThree(parts: seq<string>)
    requires |parts| == 3
    ensures Join(parts, ".") == parts[0] + "." + (parts[1] + "." + parts[2])
  {
    var rest := parts[1..];
    assert rest[1..] == [parts[2]];
    assert Join(rest, ".") == parts[1] + "." + parts[2];
  }

  /** Outer white space can only spoil the first number, and only if it is misread. */
  lemma StableTail(s: string)
    requires ParseStable(s).Stable?
    ensures TrimSpace(s) != ""
    ensures var k, p := KeyOf(s), ParseStable(s);
            k == Key(if Misread(s) then 0 else p.major, p.minor, p.patch, [])
  {
    StableHasText(s);
    hide Split, ScanInt, Atoi, TrimSpace, TrimV, Contains, Core, PreRelease, ParseStable, KeyOf, Lead, Misread, Front;
    var trail := PaddedV(s);
    var parts := StableText(s);
    TextOfThree(Lead(s), parts[0], parts[1], parts[2], trail);
    KeyOfThree(s, Lead(s) + parts[0], parts[1], parts[2] + trail);
    ScanLead(s, parts[0]);
    ScanAgreesWithAtoi(parts[1]);
    ScanTrail(parts[2], trail);
  }

  lemma TextOfThree(lead: string, a: string, b: string, c: string, trail: string)
    ensures lead + (a + "." + (b + "." + c)) + trail == (lead + a) + "." + b + "." + (c + trail)
  {
  }

  lemma KeyOfThree(s: string, a: string, b: string, c: string)
    requires TrimV(s) == a + "." + b + "." + c
    requires '.' !in a && '.' !in b && '.' !in c && '-' !in TrimV(s)
    ensures KeyOf(s) == Key(ScanInt(a), ScanInt(b), ScanInt(c), [])
  {
    hide Split, ScanInt, TrimV, Core, PreRelease, Contains;
    NoHyphen(TrimV(s));
    SplitThree(a, b, c);
    PiecesOfNothing();
  }

  /** For any strings: a patch bump compares as newer exactly unless white space keeps the comparison from
      reading the target's first number, other than 0, and not the current version's. */
  lemma PatchBumpIsNewerIff(current: string, target: string)
    requires IsPatchBump(current, target)
    ensures TrimSpace(current) != "" && TrimSpace(target) != ""
    ensures Compare(target, current) > 0 <==>
            !(Misread(target) && !Misread(current) && ParseStable(target).major > 0)
  {
    hide KeyOf, ParseStable, Misread, TrimSpace;
    StableTail(current);
    StableTail(target);
    MajorIsNatural(target);
  }

  lemma MajorIsNatural(s: string)
    requires ParseStable(s).Stable?
    ensures ParseStable(s).major >= 0
  {
  }

  lemma StableKey(s: string)
    requires NoOuterSpace(s) && ParseStable(s).Stable?
    ensures KeyOf(s) == Key(ParseStable(s).major, ParseStable(s).minor, ParseStable(s).patch, [])
  {
    var v := TrimV(s);
    assert TrimSpace(s) == s;
    var parts := Split(v, '.');
    ScanAgreesWithAtoi(parts[0]);
    ScanAgreesWithAtoi(parts[1]);
    ScanAgreesWithAtoi(parts[2]);
  }

  /** Every patch bump is an update: the policy test never lets a downgrade through. */
  lemma PatchBumpIsNewer(current: string, target: string)
    requires NoOuterSpace(current) && NoOuterSpace(target) && IsPatchBump(current, target)
    ensures Compare(target, current) > 0
  {
    StableKey(current);
    StableKey(target);
  }

  lemma OneDigit(d: string)
    requires |d| == 1 && IsDigit(d[0])
    ensures Atoi(d) == Good(d[0] as int - '0' as int) && ScanInt(d) == d[0] as int - '0' as int
  {
    var n := DigitRun(d[0..]);
    assert d[0..] == d && d[1..] == "";
    assert n == 1;
    assert d[0..0 + 1] == d && d[..0] == "";
    assert DigitsValue(d) == d[0] as int - '0' as int;
  }

  /** The two parsers disagree on outer white space: only the policy test strips it before the "v". */
  lemma OuterSpaceMisleads()
    ensures IsPatchBump("1.0.0", " v1.0.1") && Compare(" v1.0.1", "1.0.0") < 0
  {
    hide Split, Core, PreRelease, Atoi, ScanInt, Contains, Pieces, CompareLists, Index, TrimLeft, TrimRight;
    var c, t := "1.0.0", "1.0.1";
    assert c == "1" + "." + "0" + "." + "0" && t == "1" + "." + "0" + "." + "1";
    SplitThree("1", "0", "0");
    SplitThree("1", "0", "1");
    SplitThree(" v1", "0", "1");
    assert " v1.0.1" == " v1" + "." + "0" + "." + "1";
    NoHyphen(c);
    NoHyphen(t);
    NoHyphen(" v1.0.1");
    OneDigit("0");
    OneDigit("1");
    TrimsTo(" v1.0.1", "v1.0.1");
    TrimsTo(c, c);
    assert TrimV("v1.0.1") == t;
    assert ScanInt(" v1") == 0 by { ScanStops(); }
  }

  lemma ScanStops()
    ensures ScanInt(" v1") == 0
  {
    assert " v1"[1..] == "v1";
    assert "v1"[0..] == "v1";
    assert DigitRun("v1") == 0;
  }

  lemma TrimsTo(s: string, r: string)
    requires s == r || s == " " + r
    requires r != "" && NoOuterSpace(r)
    ensures TrimSpace(s) == r
  {
    if s != r { assert s[1..] == r; }
    assert TrimLeft(r) == r;
  }
}
