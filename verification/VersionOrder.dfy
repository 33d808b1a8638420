/** The order of version strings in plain text terms (executor/panel_update.go): numbers first, then a release
    after its pre-releases, then the pre-releases run by run. */
module VersionOrder {
  import opened GoStrings
  import opened Versions

  // ---------- Digits ----------

  predicate IsNumber(d: string) {
    d != "" && forall i :: 0 <= i < |d| ==> '0' <= d[i] <= '9'
  }

  /** A number beyond 64 bits is read as zero. */
  function AsRead(d: string): nat
    requires IsNumber(d)
  {
    if DigitsValue(d) <= 9223372036854775807 then DigitsValue(d) else 0
  }

  /** Less, read off the digits: a run of fewer digits is less than one without a leading zero, and of two
      equally long ones the textual order decides. */
  predicate Below(d: string, e: string) {
    (|d| < |e| && e[0] != '0') || (|d| == |e| && Less(d, e))
  }

  function Pow10(n: nat): nat {
    if n == 0 then 1 else 10 * Pow10(n - 1)
  }

  lemma DigitsBelow(d: string)
    requires forall i :: 0 <= i < |d| ==> IsDigit(d[i])
    ensures DigitsValue(d) < Pow10(|d|)
    ensures d != "" && d[0] != '0' ==> DigitsValue(d) >= Pow10(|d| - 1)
  {
    if |d| > 1 {
      DigitsBelow(d[..|d| - 1]);
    } else if |d| == 1 {
      assert d[..0] == "";
    }
  }

  lemma Pow10Grows(m: nat, n: nat)
    requires m <= n
    ensures Pow10(m) <= Pow10(n)
  {
  }

  lemma {:induction false} EqualLengths(d: string, e: string, i: nat)
    requires |d| == |e| && (forall k :: 0 <= k < |d| ==> IsDigit(d[k])) && forall k :: 0 <= k < |e| ==> IsDigit(e[k])
    requires i < |d| && d[..i] == e[..i] && d[i] < e[i]
    ensures DigitsValue(d) < DigitsValue(e)
  {
    var n := |d| - 1;
    if i < n {
      assert d[..n][..i] == d[..i] && e[..n][..i] == e[..i];
      EqualLengths(d[..n], e[..n], i);
    }
  }

  /** Where two texts first differ. */
  lemma LessAt(d: string, e: string) returns (i: nat)
    requires Less(d, e) && |d| == |e|
    ensures i < |d| && d[..i] == e[..i] && d[i] < e[i]
  {
    if d[0] < e[0] {
      i := 0;
    } else {
      var k := LessAt(d[1..], e[1..]);
      i := k + 1;
      assert d[..i] == [d[0]] + d[1..][..k] && e[..i] == [e[0]] + e[1..][..k];
    }
  }

  lemma BelowIsLess(d: string, e: string)
    requires IsNumber(d) && IsNumber(e) && Below(d, e)
    ensures DigitsValue(d) < DigitsValue(e)
  {
    if |d| == |e| {
      var i := LessAt(d, e);
      EqualLengths(d, e, i);
    } else {
      DigitsBelow(d);
      DigitsBelow(e);
      Pow10Grows(|d|, |e| - 1);
    }
  }

  /** The order of two numbers, read off their digits. */
  lemma BelowReads(d: string, e: string)
    requires IsNumber(d) && IsNumber(e) && Below(d, e) && DigitsValue(e) <= 9223372036854775807
    ensures AsRead(d) < AsRead(e)
  {
    hide DigitsValue, Below;
    BelowIsLess(d, e);
  }

  lemma Pow18()
    ensures Pow10(18) <= MAX_INT
  {
    assert Pow10(6) == 1_000_000;
    assert Pow10(12) == 1_000_000 * 1_000_000;
  }

  /** Up to 18 digits fit. */
  lemma ShortFits(d: string)
    requires IsNumber(d) && |d| <= 18
    ensures AsRead(d) == DigitsValue(d) <= 9223372036854775807
  {
    hide DigitsValue, Pow10;
    DigitsBelow(d);
    Pow10Grows(|d|, 18);
    Pow18();
  }

  lemma AllDigits(d: string)
    requires IsNumber(d)
    ensures DigitRun(d) == |d| && SignLength(d) == 0
  {
  }

  lemma ValueOfDigits(d: string)
    requires IsNumber(d) && SignLength(d) == 0
    ensures Signed(d, |d|) == DigitsValue(d) && !IsSpace(d[0])
    ensures InRange(Signed(d, |d|)) <==> DigitsValue(d) <= 9223372036854775807
  {
    hide DigitsValue;
    assert d[0..|d|] == d;
  }

  lemma ScanDigits(d: string)
    requires d != "" && SignLength(d) == 0 && DigitRun(d[0..]) == |d| && !IsSpace(d[0])
    requires forall i :: 0 <= i < |d| ==> IsDigit(d[i])
    ensures ScanInt(d) == if InRange(Signed(d, |d|)) then Signed(d, |d|) else 0
  {
    hide DigitRun, Signed, InRange, SignLength;
  }

  lemma NumberIsRead(d: string)
    requires IsNumber(d)
    ensures ScanInt(d) == AsRead(d)
  {
    AllDigits(d);
    ValueOfDigits(d);
    hide DigitsValue, ScanInt, DigitRun, SignLength, Signed, IsSpace, InRange;
    assert d[0..] == d;
    ScanDigits(d);
  }

  // ---------- Reading a version ----------

  lemma KeyOfTagged(core: string, pre: string)
    requires '-' !in core
    ensures KeyOf(core).pre == [] && KeyOf(core + "-" + pre) == KeyOf(core).(pre := Pieces(pre))
  {
    hide Pieces, Split, Component, Index;
    var s := core + "-" + pre;
    var v := TrimV(core);
    assert TrimV(s) == v + "-" + pre;
    IndexOfChar(v, '-', pre);
    assert (v + "-" + pre)[..|v|] == v && (v + "-" + pre)[|v| + 1..] == pre;
    PiecesOfNothing();
  }

  ghost predicate AllNumbers(nums: seq<string>) {
    nums != [] && forall i :: 0 <= i < |nums| ==> IsNumber(nums[i])
  }

  /** Nothing, or a hyphen and a pre-release. */
  predicate IsTag(tag: string) {
    tag == "" || tag[0] == '-'
  }

  lemma JoinedText(nums: seq<string>)
    requires AllNumbers(nums)
    ensures var s := Join(nums, "."); '-' !in s && s != "" && IsDigit(s[0]) && IsDigit(s[|s| - 1])
  {
    assert IsNumber(nums[0]);
    if |nums| > 1 { JoinedText(nums[1..]); }
  }

  lemma KeyOfText(nums: seq<string>, tag: string)
    requires AllNumbers(nums) && IsTag(tag)
    ensures var k := KeyOf(Join(nums, ".") + tag);
            k == Key(Component(nums, 0), Component(nums, 1), Component(nums, 2), k.pre)
            && k.pre == Pieces(if tag == "" then "" else tag[1..])
  {
    hide Pieces, Split, Component, KeyOf, Join;
    var s := Join(nums, ".");
    JoinedText(nums);
    PlainKey(s);
    DotFree(nums);
    SplitJoin(nums, '.');
    PiecesOfNothing();
    if tag == "" {
      assert s + tag == s;
    } else {
      KeyOfTagged(s, tag[1..]);
      assert s + "-" + tag[1..] == s + tag;
    }
  }

  lemma DotFree(nums: seq<string>)
    requires AllNumbers(nums)
    ensures NoneHas(nums, '.')
  {
    forall i | 0 <= i < |nums| ensures '.' !in nums[i] {
      assert IsNumber(nums[i]);
    }
  }

  lemma PlainKey(s: string)
    requires '-' !in s && s != "" && s[0] != 'v'
    ensures var nums := Split(s, '.');
            KeyOf(s) == Key(Component(nums, 0), Component(nums, 1), Component(nums, 2), Pieces(""))
  {
    hide Pieces, Split, Component, Index, Core, PreRelease, Contains;
    NoHyphen(s);
  }

  // ---------- The laws ----------

  /** One leading "v" makes no difference. */
  lemma LeadingVIsIgnored(s: string, other: string)
    requires s == "" || s[0] != 'v'
    ensures Compare("v" + s, other) == Compare(s, other)
  {
    assert ("v" + s)[1..] == s;
  }

  /** The number at place `i`; a missing one is zero. */
  ghost function NumberAt(nums: seq<string>, i: nat): nat
    requires AllNumbers(nums)
  {
    if i < |nums| then
      assert IsNumber(nums[i]);
      AsRead(nums[i])
    else 0
  }

  lemma NumbersAreRead(nums: seq<string>, tag: string)
    requires AllNumbers(nums) && IsTag(tag)
    ensures var k := KeyOf(Join(nums, ".") + tag);
            && k.major == NumberAt(nums, 0) && k.minor == NumberAt(nums, 1) && k.patch == NumberAt(nums, 2)
            && k.pre == Pieces(if tag == "" then "" else tag[1..])
  {
    hide KeyOf, ScanInt, Join, AsRead, Pieces;
    KeyOfText(nums, tag);
    forall i: nat | i < |nums| ensures Component(nums, i) == NumberAt(nums, i) {
      assert IsNumber(nums[i]);
      NumberIsRead(nums[i]);
    }
  }

  /** The first of the three numbers that differs decides, whatever the pre-releases. */
  lemma NumbersDecide(a: seq<string>, b: seq<string>, i: nat, aTag: string, bTag: string)
    requires AllNumbers(a) && AllNumbers(b) && IsTag(aTag) && IsTag(bTag)
    requires i < 3 && (forall k :: 0 <= k < i ==> NumberAt(a, k) == NumberAt(b, k)) && NumberAt(a, i) < NumberAt(b, i)
    ensures Compare(Join(a, ".") + aTag, Join(b, ".") + bTag) == -1
    ensures Compare(Join(b, ".") + bTag, Join(a, ".") + aTag) == 1
  {
    hide KeyOf, CompareLists, Join, IsNumber, NumberAt, Pieces;
    NumbersAreRead(a, aTag);
    NumbersAreRead(b, bTag);
    assert i > 0 ==> NumberAt(a, 0) == NumberAt(b, 0);
    assert i > 1 ==> NumberAt(a, 1) == NumberAt(b, 1);
  }

  /** Versions with the same three numbers and the same pre-release are interchangeable, whatever numbers
      follow. */
  lemma OnlyThreeNumbers(a: seq<string>, b: seq<string>, tag: string, other: string)
    requires AllNumbers(a) && AllNumbers(b) && IsTag(tag)
    requires forall k :: 0 <= k < 3 ==> NumberAt(a, k) == NumberAt(b, k)
    ensures Compare(Join(a, ".") + tag, other) == Compare(Join(b, ".") + tag, other)
  {
    hide KeyOf, CompareLists, Join, IsNumber, NumberAt, Pieces;
    NumbersAreRead(a, tag);
    NumbersAreRead(b, tag);
    assert NumberAt(a, 0) == NumberAt(b, 0) && NumberAt(a, 1) == NumberAt(b, 1) && NumberAt(a, 2) == NumberAt(b, 2);
  }

  /** A release comes after each of its pre-releases; an empty pre-release is none. */
  lemma ReleaseIsLater(core: string, pre: string)
    requires '-' !in core
    ensures Compare(core, core + "-" + pre) == if pre == "" then 0 else 1
    ensures Compare(core + "-" + pre, core) == if pre == "" then 0 else -1
  {
    hide KeyOf, Pieces, CompareLists;
    KeyOfTagged(core, pre);
    NoPieces(pre);
  }

  // ---------- Pre-releases, run by run ----------

  /** A digit meets another character. */
  predicate Seam(p: string, rest: string) {
    p == "" || rest == "" || IsDigit(p[|p| - 1]) != IsDigit(rest[0])
  }

  lemma {:induction false} PiecesSplit(p: string, rest: string)
    requires Seam(p, rest)
    ensures Pieces(p + rest) == Pieces(p) + Pieces(rest)
    decreases |p|
  {
    hide Pieces, RunLength;
    PiecesOfNothing();
    if p == "" {
      assert p + rest == rest;
    } else {
      var n := RunLength(p);
      var head, tail := p[..n], p[n..];
      PiecesSplit(tail, rest);
      assert p == head + tail && p + rest == head + (tail + rest);
      PiecesCut(head, tail);
      PiecesCut(head, tail + rest);
    }
  }

  lemma {:induction false} PrefixCancels(ps: seq<string>, xs: seq<string>, ys: seq<string>)
    ensures CompareLists(ps + xs, ps + ys) == CompareLists(xs, ys)
  {
    hide CompareLists, ComparePieces;
    if ps == [] {
      assert ps + xs == xs && ps + ys == ys;
    } else {
      PiecesAntisymmetric(ps[0], ps[0]);
      PrefixCancels(ps[1..], xs, ys);
      ListsUnfold(ps + xs, ps + ys);
      assert (ps + xs)[1..] == ps[1..] + xs && (ps + ys)[1..] == ps[1..] + ys;
    }
  }

  /** What two pre-releases have in common up to a seam does not matter. */
  lemma ComparedAfter(core: string, p: string, x: string, y: string)
    requires '-' !in core && Seam(p, x) && Seam(p, y) && p + x != "" && p + y != ""
    ensures Compare(core + "-" + (p + x), core + "-" + (p + y)) == CompareLists(Pieces(x), Pieces(y))
  {
    hide KeyOf, Pieces, CompareLists;
    KeyOfTagged(core, p + x);
    KeyOfTagged(core, p + y);
    NoPieces(p + x);
    NoPieces(p + y);
    PiecesSplit(p, x);
    PiecesSplit(p, y);
    PrefixCancels(Pieces(p), Pieces(x), Pieces(y));
  }

  lemma FirstPieceDecides(x: seq<string>, y: seq<string>)
    requires x != [] && y != [] && ComparePieces(x[0], y[0]) == -1
    ensures CompareLists(x, y) == -1
  {
  }

  /** Numbers inside pre-releases are in numeric order: "beta9" comes before "beta10". */
  lemma NumbersInOrder(core: string, p: string, d: string, x: string, e: string, y: string)
    requires '-' !in core && IsNumber(d) && IsNumber(e) && AsRead(d) < AsRead(e)
    requires (p == "" || !IsDigit(p[|p| - 1])) && (x == "" || !IsDigit(x[0])) && (y == "" || !IsDigit(y[0]))
    ensures Compare(core + "-" + (p + (d + x)), core + "-" + (p + (e + y))) == -1
  {
    hide Compare, Pieces, CompareLists, AsRead, ScanInt, Less;
    ComparedAfter(core, p, d + x, e + y);
    PiecesCut(d, x);
    PiecesCut(e, y);
    NumberIsRead(d);
    NumberIsRead(e);
    FirstPieceDecides([d] + Pieces(x), [e] + Pieces(y));
  }

  lemma Beta9BeforeBeta10(core: string)
    requires '-' !in core
    ensures Compare(core + "-beta9", core + "-beta10") == -1
  {
    hide Compare;
    ShortFits("10");
    BelowReads("9", "10");
    NumbersInOrder(core, "beta", "9", "", "10", "");
    assert core + "-" + ("beta" + ("9" + "")) == core + "-beta9";
    assert core + "-" + ("beta" + ("10" + "")) == core + "-beta10";
  }

  /** The text up to the trailing run of characters that are no digits, and that run. */
  lemma TrailingWord(p: string) returns (head: string, w: string)
    ensures p == head + w && (forall i :: 0 <= i < |w| ==> !IsDigit(w[i])) && (head == "" || IsDigit(head[|head| - 1]))
  {
    if p == "" || IsDigit(p[|p| - 1]) {
      head, w := p, "";
    } else {
      var rest;
      head, rest := TrailingWord(p[..|p| - 1]);
      w := rest + [p[|p| - 1]];
      assert p == p[..|p| - 1] + [p[|p| - 1]];
    }
  }

  /** The first piece of a text that starts with a word. */
  lemma WordPiece(w: string, x: string) returns (u: string)
    requires w != "" && forall i :: 0 <= i < |w| ==> !IsDigit(w[i])
    ensures u <= x && Pieces(w + x) != [] && Pieces(w + x)[0] == w + u && !Numeric(w + u)
    ensures x == "" || !IsDigit(x[0]) ==> (u == "" <==> x == "")
  {
    var s := w + x;
    var n := RunLength(s);
    assert s[0] == w[0];
    assert forall i :: 0 <= i < |w| ==> s[i] == w[i];
    u := x[..n - |w|];
    assert s[..n] == w + u;
    assert (w + u)[0] == w[0];
    assert x != "" ==> s[|w|] == x[0];
  }

  lemma {:induction false} LessAfter(w: string, x: string, y: string)
    ensures Less(w + x, w + y) == Less(x, y)
  {
    if w == "" {
      assert w + x == x && w + y == y;
    } else {
      LessAfter(w[1..], x, y);
      assert (w + x)[1..] == w[1..] + x && (w + y)[1..] == w[1..] + y;
    }
  }

  /** Where two pre-releases first differ and neither goes on with a digit, that character decides. */
  lemma WordsInOrder(core: string, p: string, a: char, x: string, b: char, y: string)
    requires '-' !in core && !IsDigit(a) && !IsDigit(b) && a < b
    ensures Compare(core + "-" + (p + ([a] + x)), core + "-" + (p + ([b] + y))) == -1
  {
    hide Compare, Pieces, CompareLists, Less, Numeric;
    LessFirst(a, b);
    var head, w := TrailingWord(p);
    var u := WordPiece(w + [a], x);
    var v := WordPiece(w + [b], y);
    SameText(head, w, [a], x);
    SameText(head, w, [b], y);
    ComparedAfter(core, head, (w + [a]) + x, (w + [b]) + y);
    LessAfter(w, [a] + u, [b] + v);
    LessTotal(w + ([a] + u), w + ([b] + v));
    assert (w + [a]) + u == w + ([a] + u) && (w + [b]) + v == w + ([b] + v);
    FirstPieceDecides(Pieces((w + [a]) + x), Pieces((w + [b]) + y));
  }

  lemma LessFirst(a: char, b: char)
    requires a < b
    ensures forall x, y :: Less([a] + x, [b] + y)
  {
  }

  lemma SameText(head: string, w: string, a: string, x: string)
    ensures head + ((w + a) + x) == (head + w) + (a + x)
  {
  }

  /** A pre-release that goes on after the other ends is later, unless it only prolongs a number. */
  lemma LongerIsLater(core: string, p: string, x: string)
    requires '-' !in core && p != "" && x != "" && (IsDigit(p[|p| - 1]) ==> !IsDigit(x[0]))
    ensures Compare(core + "-" + p, core + "-" + (p + x)) == -1
  {
    hide Compare, Pieces, CompareLists;
    PiecesOfNothing();
    NoPieces(x);
    if Seam(p, x) {
      ComparedAfter(core, p, "", x);
      assert p + "" == p;
      NothingIsFirst(Pieces(x));
    } else {
      var head, w := TrailingWord(p);
      var u := WordPiece(w, x);
      ComparedAfter(core, head, w, w + x);
      assert head + (w + x) == p + x;
      PiecesCut(w, "");
      assert w + "" == w && [w] + [] == [w];
      LessAfter(w, "", u);
      LessTotal(w, w + u);
      FirstPieceDecides([w], Pieces(w + x));
    }
  }

  lemma NothingIsFirst(ps: seq<string>)
    requires ps != []
    ensures CompareLists([], ps) == -1
  {
  }

  // ---------- The policy test ----------

  lemma NumberIsParsed(d: string)
    requires IsNumber(d)
    ensures Atoi(d) == if DigitsValue(d) <= 9223372036854775807 then Good(DigitsValue(d)) else Bad
  {
    AllDigits(d);
    ValueOfDigits(d);
    hide DigitsValue, DigitRun, SignLength, Signed, IsSpace, InRange;
    assert d[0..] == d;
  }

  lemma PlainText(s: string)
    requires s != "" && '-' !in s && IsDigit(s[0]) && IsDigit(s[|s| - 1])
    ensures TrimV(TrimSpace(s)) == s && !Contains(s, "-")
  {
    NoHyphen(s);
    hide Contains;
    assert TrimSpace(s) == s;
  }

  /** The number at place `i` is within 64 bits. */
  ghost predicate Fits(nums: seq<string>, i: nat)
    requires AllNumbers(nums) && i < |nums|
  {
    assert IsNumber(nums[i]);
    DigitsValue(nums[i]) <= 9223372036854775807
  }

  lemma ThreeParsed(s: string, parts: seq<string>)
    requires TrimV(TrimSpace(s)) == s && s != "" && !Contains(s, "-") && Split(s, '.') == parts && |parts| == 3
    ensures var a, b, c := Atoi(parts[0]), Atoi(parts[1]), Atoi(parts[2]);
            ParseStable(s) ==
            if a.Good? && b.Good? && c.Good? && a.value >= 0 && b.value >= 0 && c.value >= 0
            then Stable(a.value, b.value, c.value) else NotStable
  {
    hide Split, Atoi, Contains, TrimSpace, TrimV;
  }

  /** The number at place `i`, as it is parsed. */
  lemma ParsedAt(nums: seq<string>, i: nat)
    requires AllNumbers(nums) && i < |nums|
    ensures Atoi(nums[i]) == if Fits(nums, i) then Good(NumberAt(nums, i)) else Bad
  {
    assert IsNumber(nums[i]);
    NumberIsParsed(nums[i]);
    hide Atoi, DigitsValue, IsNumber;
  }

  lemma StableNumbers(nums: seq<string>)
    requires |nums| == 3 && AllNumbers(nums)
    ensures ParseStable(Join(nums, ".")) ==
            if Fits(nums, 0) && Fits(nums, 1) && Fits(nums, 2)
            then Stable(NumberAt(nums, 0), NumberAt(nums, 1), NumberAt(nums, 2)) else NotStable
  {
    ParsedAt(nums, 0);
    ParsedAt(nums, 1);
    ParsedAt(nums, 2);
    JoinedText(nums);
    DotFree(nums);
    SplitJoin(nums, '.');
    hide *;
    PlainText(Join(nums, "."));
    ThreeParsed(Join(nums, "."), nums);
  }

  /** Between three-number versions a patch bump is a greater third number behind the same first two, all six
      within 64 bits. */
  lemma PatchBumpIff(x: seq<string>, y: seq<string>)
    requires |x| == 3 && AllNumbers(x) && |y| == 3 && AllNumbers(y)
    ensures IsPatchBump(Join(x, "."), Join(y, ".")) <==>
            && Fits(x, 0) && Fits(x, 1) && Fits(x, 2) && Fits(y, 0) && Fits(y, 1) && Fits(y, 2)
            && NumberAt(x, 0) == NumberAt(y, 0) && NumberAt(x, 1) == NumberAt(y, 1) && NumberAt(x, 2) < NumberAt(y, 2)
  {
    StableNumbers(x);
    StableNumbers(y);
    hide ParseStable, Fits, NumberAt, Join, AllNumbers, IsNumber;
  }

  lemma NeverStable(s: string)
    requires '-' in s
    ensures ParseStable(s).NotStable?
  {
    hide Split, Atoi, TrimLeft, TrimRight;
    var left := TrimLeft(s);
    var pad := TrimLeftParts(s);
    var trail := TrimRightParts(left);
    var v := TrimV(TrimSpace(s));
    assert '-' !in pad && '-' !in trail;
    assert '-' in TrimSpace(s);
    if v != "" && !Contains(v, "-") {
      HyphenFree(v);
      VIsNoHyphen(TrimSpace(s));
      assert false;
    }
  }

  lemma VIsNoHyphen(s: string)
    requires '-' in s
    ensures '-' in TrimV(s)
  {
    if s[0] == 'v' { assert s == [s[0]] + s[1..]; }
  }

  /** Nothing is a patch bump to or from a pre-release. */
  lemma NoBumpWithHyphen(current: string, target: string)
    requires '-' in current || '-' in target
    ensures !IsPatchBump(current, target)
  {
    hide ParseStable;
    if '-' in current { NeverStable(current); } else { NeverStable(target); }
  }
}
