/** The generated nginx file of banned addresses (executor/nginx_ban.go) and the set it stands for.
    `valid` is net.ParseIP or net.ParseCIDR accepting a string. */
module NginxBan {
  import opened GoStrings

  type Validator = string -> bool

  predicate AddressChar(c: char) {
    '0' <= c <= '9' || 'a' <= c <= 'f' || 'A' <= c <= 'F' || c == '.' || c == ':' || c == '/'
  }

  predicate AddressLike(s: string) {
    s != "" && forall i :: 0 <= i < |s| ==> AddressChar(s[i])
  }

  /** All that is assumed about the address grammar. */
  ghost predicate Sane(valid: Validator) {
    forall s :: valid(s) ==> AddressLike(s)
  }

  const HEADER := "# WP Panel Generated - DO NOT EDIT MANUALLY"
  const OPENING := "geo $wppanel_banned_ip {"
  const DEFAULT_ENTRY := "    default 0;"

  function Entry(ip: string): string {
    "    " + ip + " 1;"
  }

  function EntryLines(ips: seq<string>): seq<string> {
    if ips == [] then [] else EntryLines(ips[..|ips| - 1]) + [Entry(ips[|ips| - 1])]
  }

  /** The generated file, line by line. */
  function FileLines(ips: seq<string>): seq<string> {
    [HEADER, OPENING, DEFAULT_ENTRY] + EntryLines(ips) + ["}", ""]
  }

  function Render(ips: seq<string>): string {
    Join(FileLines(ips), "\n")
  }

  /** The addresses one line bans: none or one. */
  function LineBans(valid: Validator, raw: string): set<string> {
    var line := TrimSpace(raw);
    if line == "" || "#" <= line || "geo " <= line || line == "}" then {}
    else
      var fields := Fields(TrimSemicolons(line));
      if |fields| < 2 || fields[1] != "1" then {}
      else if valid(fields[0]) then {fields[0]} else {}
  }

  function LinesBan(valid: Validator, lines: seq<string>): set<string> {
    if lines == [] then {} else LinesBan(valid, lines[..|lines| - 1]) + LineBans(valid, lines[|lines| - 1])
  }

  /** The set a file text stands for. */
  function BannedIn(valid: Validator, content: string): set<string> {
    LinesBan(valid, Split(content, '\n'))
  }

  /** The members of the panel's map that are written out. */
  function Members(valid: Validator, ips: map<string, bool>): set<string> {
    set ip | ip in ips && ips[ip] && valid(ip)
  }

  // ---------- Sorted listings ----------

  /** A set written out in increasing order: there is one such sequence. */
  ghost predicate Listing(r: seq<string>, s: set<string>) {
    (forall i, j :: 0 <= i < j < |r| ==> Less(r[i], r[j])) && (forall x :: x in s <==> x in r)
  }

  lemma EmptyListing(r: seq<string>, s: set<string>)
    requires Listing(r, s)
    ensures r == [] <==> s == {}
  {
    if r != [] { assert r[0] in r; }
  }

  lemma {:induction false} ListingIsUnique(r: seq<string>, q: seq<string>, s: set<string>)
    requires Listing(r, s) && Listing(q, s)
    ensures r == q
    decreases |r|
  {
    EmptyListing(r, s);
    EmptyListing(q, s);
    if r != [] {
      assert r[0] in r && r[0] in q;
      assert q[0] in q && q[0] in r;
      var i :| 0 <= i < |q| && q[i] == r[0];
      var j :| 0 <= j < |r| && r[j] == q[0];
      LessTotal(r[0], q[0]);
      assert i == 0 && j == 0;
      ListingTail(r, s);
      ListingTail(q, s);
      ListingIsUnique(r[1..], q[1..], s - {r[0]});
    }
  }

  lemma ListingTail(r: seq<string>, s: set<string>)
    requires Listing(r, s) && r != []
    ensures Listing(r[1..], s - {r[0]})
  {
    forall k | 0 < k < |r| ensures r[k] != r[0] { LessTotal(r[0], r[k]); }
    forall x ensures x in s - {r[0]} <==> x in r[1..] {
      if x in r[1..] {
        var k :| 0 <= k < |r[1..]| && r[1..][k] == x;
        assert r[k + 1] == x;
      }
      if x in s - {r[0]} {
        var k :| 0 <= k < |r| && r[k] == x;
        assert r[1..][k - 1] == x;
      }
    }
  }

  /** sort.Strings on the collected entries, one insertion at a time. */
  method SortedEntries(valid: Validator, ips: map<string, bool>) returns (entries: seq<string>)
    ensures Listing(entries, Members(valid, ips))
  {
    hide Less, Listing;
    entries := [];
    var keys := ips.Keys;
    EmptyIsListed();
    assert Members(valid, ips) - keys == {};
    while keys != {}
      invariant keys <= ips.Keys
      invariant Listing(entries, Members(valid, ips) - keys)
      decreases |keys|
    {
      ghost var sofar := Members(valid, ips) - keys;
      var ip :| ip in keys;
      keys := keys - {ip};
      if ips[ip] && valid(ip) {
        entries := Insert(entries, ip, sofar);
        assert sofar + {ip} == Members(valid, ips) - keys;
      } else {
        assert sofar == Members(valid, ips) - keys;
      }
    }
    assert Members(valid, ips) - {} == Members(valid, ips);
  }

  lemma EmptyIsListed()
    ensures Listing([], {})
  {
  }

  method Insert(r: seq<string>, x: string, ghost s: set<string>) returns (q: seq<string>)
    requires Listing(r, s) && x !in s
    ensures Listing(q, s + {x})
  {
    var i := 0;
    while i < |r| && Less(r[i], x)
      invariant i <= |r|
      invariant forall k :: 0 <= k < i ==> Less(r[k], x)
    {
      i := i + 1;
    }
    q := r[..i] + [x] + r[i..];
    forall k | i <= k < |r| ensures Less(x, r[k]) {
      assert r[i] in r && r[k] in r;
      LessTotal(r[i], x);
      if i < k { LessTransitive(x, r[i], r[k]); }
    }
    forall a | a in r ensures a in q {
      var k :| 0 <= k < |r| && r[k] == a;
      assert q[if k < i then k else k + 1] == a;
    }
    assert q[i] == x;
  }

  // ---------- Reading back what was rendered ----------

  /** An address with the value 1 is banned, with any other value it is not. */
  lemma OnlyOneBans(valid: Validator, pad: string, ip: string, value: string)
    requires Sane(valid) && valid(ip) && AllSpace(pad) && IsWord(value) && value[|value| - 1] != ';'
    ensures LineBans(valid, pad + (ip + " " + value + ";")) == if value == "1" then {ip} else {}
  {
    hide Fields, TrimSemicolons, TrimSpace;
    assert AddressLike(ip);
    assert forall i :: 0 <= i < |ip| ==> AddressChar(ip[i]) && !IsSpace(ip[i]);
    var body := ip + " " + value;
    var line := body + ";";
    TrimPadded(pad, line);
    SemicolonsOff(body);
    assert IsWord(ip);
    FieldsOfTwo(ip, value);
    assert line[0] == ip[0];
    assert |line| > 1;
  }

  lemma EntryBans(valid: Validator, ip: string)
    requires Sane(valid) && valid(ip)
    ensures LineBans(valid, Entry(ip)) == {ip}
    ensures '\n' !in Entry(ip)
  {
    hide LineBans;
    OnlyOneBans(valid, "    ", ip, "1");
    assert Entry(ip) == "    " + (ip + " " + "1" + ";");
    assert AddressLike(ip);
  }

  lemma DefaultBansNothing(valid: Validator)
    ensures LineBans(valid, DEFAULT_ENTRY) == {}
  {
    hide Fields, TrimSemicolons, TrimSpace;
    var body := "default 0";
    TrimPadded("    ", body + ";");
    assert DEFAULT_ENTRY == "    " + (body + ";");
    SemicolonsOff(body);
    FieldsOfTwo("default", "0");
    assert body == "default" + " " + "0";
  }

  lemma FrameBansNothing(valid: Validator)
    ensures LineBans(valid, HEADER) == LineBans(valid, OPENING) == LineBans(valid, "}") == LineBans(valid, "") == {}
  {
    hide Fields, TrimSemicolons, TrimSpace;
    Trimmed(HEADER);
    Trimmed(OPENING);
    Trimmed("}");
    TrimNothing();
  }

  lemma Trimmed(s: string)
    requires s != "" && !IsSpace(s[0]) && !IsSpace(s[|s| - 1])
    ensures TrimSpace(s) == s
  {
    hide TrimSpace;
    TrimPadded("", s);
    assert "" + s == s;
  }

  lemma TrimNothing()
    ensures TrimSpace("") == ""
  {
  }

  lemma {:induction false} LinesBanConcat(valid: Validator, a: seq<string>, b: seq<string>)
    ensures LinesBan(valid, a + b) == LinesBan(valid, a) + LinesBan(valid, b)
    decreases |b|
  {
    hide LineBans;
    if b == [] {
      assert a + b == a;
    } else {
      assert (a + b)[..|a + b| - 1] == a + b[..|b| - 1];
      LinesBanConcat(valid, a, b[..|b| - 1]);
    }
  }

  lemma {:induction false} EntryLinesBan(valid: Validator, ips: seq<string>)
    requires Sane(valid) && forall ip :: ip in ips ==> valid(ip)
    ensures LinesBan(valid, EntryLines(ips)) == set ip | ip in ips
    ensures NoneHas(EntryLines(ips), '\n')
    decreases |ips|
  {
    hide LineBans, Entry;
    if ips != [] {
      var n := |ips| - 1;
      assert ips[n] in ips;
      forall ip | ip in ips[..n] ensures ip in ips {}
      EntryLinesBan(valid, ips[..n]);
      EntryBans(valid, ips[n]);
      assert EntryLines(ips)[..n] == EntryLines(ips[..n]) by { EntryLinesLength(ips[..n]); }
      assert ips == ips[..n] + [ips[n]];
    }
  }

  lemma {:induction false} EntryLinesLength(ips: seq<string>)
    ensures |EntryLines(ips)| == |ips|
    decreases |ips|
  {
    if ips != [] { EntryLinesLength(ips[..|ips| - 1]); }
  }

  lemma OneLine(valid: Validator, line: string)
    ensures LinesBan(valid, [line]) == LineBans(valid, line)
  {
    assert [line][..0] == [];
  }

  /** Reading back a rendered listing returns exactly its members. */
  lemma ReadBack(valid: Validator, ips: seq<string>)
    requires Sane(valid) && forall ip :: ip in ips ==> valid(ip)
    ensures BannedIn(valid, Render(ips)) == set ip | ip in ips
  {
    hide LineBans, EntryLines, Split, LinesBan;
    var lines := FileLines(ips);
    EntryLinesBan(valid, ips);
    assert '\n' !in HEADER && '\n' !in OPENING && '\n' !in DEFAULT_ENTRY && '\n' !in "}";
    assert NoneHas(lines, '\n') by {
      var e := EntryLines(ips);
      forall i | 0 <= i < |lines| ensures '\n' !in lines[i] {
        if 3 <= i < 3 + |e| { assert lines[i] == e[i - 3]; }
      }
    }
    SplitJoin(lines, '\n');
    FrameBansNothing(valid);
    DefaultBansNothing(valid);
    OneLine(valid, HEADER);
    OneLine(valid, OPENING);
    OneLine(valid, DEFAULT_ENTRY);
    OneLine(valid, "}");
    OneLine(valid, "");
    LinesBanConcat(valid, [HEADER], [OPENING]);
    LinesBanConcat(valid, [HEADER] + [OPENING], [DEFAULT_ENTRY]);
    LinesBanConcat(valid, ["}"], [""]);
    LinesBanConcat(valid, [HEADER, OPENING, DEFAULT_ENTRY], EntryLines(ips));
    LinesBanConcat(valid, [HEADER, OPENING, DEFAULT_ENTRY] + EntryLines(ips), ["}", ""]);
    assert [HEADER] + [OPENING] + [DEFAULT_ENTRY] == [HEADER, OPENING, DEFAULT_ENTRY] && ["}"] + [""] == ["}", ""];
  }

  /** The entries as text. */
  function EntryText(ips: seq<string>): string {
    if ips == [] then "" else "    " + ips[0] + " 1;\n" + EntryText(ips[1..])
  }

  lemma {:induction false} JoinEntries(ips: seq<string>)
    ensures Join(EntryLines(ips) + ["}", ""], "\n") == EntryText(ips) + "}\n"
  {
    hide EntryLines, Join;
    var tail := ["}", ""];
    if ips == [] {
      assert EntryLines(ips) == [] by { NoEntries(); }
      JoinFront("}", [""]);
      JoinOfOne("");
      assert [] + tail == ["}"] + [""];
    } else {
      EntryLinesFirst(ips);
      JoinEntries(ips[1..]);
      JoinFront(Entry(ips[0]), EntryLines(ips[1..]) + tail);
      assert EntryLines(ips) + tail == [Entry(ips[0])] + (EntryLines(ips[1..]) + tail);
    }
  }

  lemma NoEntries()
    ensures EntryLines([]) == []
  {
  }

  lemma JoinOfOne(line: string)
    ensures Join([line], "\n") == line
  {
  }

  lemma {:induction false} EntryLinesFirst(ips: seq<string>)
    requires ips != []
    ensures EntryLines(ips) == [Entry(ips[0])] + EntryLines(ips[1..])
  {
    if |ips| > 1 {
      var n := |ips| - 1;
      EntryLinesFirst(ips[..n]);
      assert ips[..n][1..] == ips[1..][..n - 1];
    }
  }

  /** The generated file, to the letter. */
  lemma RenderedText(ips: seq<string>)
    ensures Render(ips) ==
            "# WP Panel Generated - DO NOT EDIT MANUALLY\n" + "geo $wppanel_banned_ip {\n" + "    default 0;\n"
            + EntryText(ips) + "}\n"
  {
    hide EntryLines, Join, EntryText;
    JoinEntries(ips);
    var rest := EntryLines(ips) + ["}", ""];
    JoinFront(DEFAULT_ENTRY, rest);
    JoinFront(OPENING, [DEFAULT_ENTRY] + rest);
    JoinFront(HEADER, [OPENING] + ([DEFAULT_ENTRY] + rest));
    assert FileLines(ips) == [HEADER] + ([OPENING] + ([DEFAULT_ENTRY] + rest));
  }

  lemma JoinFront(line: string, rest: seq<string>)
    requires rest != []
    ensures Join([line] + rest, "\n") == line + "\n" + Join(rest, "\n")
  {
  }

  /** Every address a file text bans is valid. */
  lemma {:induction false} LinesBanValid(valid: Validator, lines: seq<string>)
    ensures forall ip :: ip in LinesBan(valid, lines) ==> valid(ip)
  {
    if lines != [] { LinesBanValid(valid, lines[..|lines| - 1]); }
  }
}
