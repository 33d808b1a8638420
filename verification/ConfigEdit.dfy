/** Reading and replacing single values in php.ini, nginx.conf and redis.conf texts (handlers/software.go). */
module ConfigEdit {
  import opened GoStrings

  /** The keys the panel edits: a word without `=`, `;` or `#`. */
  ghost predicate IsKey(key: string) {
    IsWord(key) && '=' !in key && ';' !in key && '#' !in key
  }

  /** A value that is one word without `=` or `;`. */
  ghost predicate IsValue(value: string) {
    IsWord(value) && '=' !in value && ';' !in value
  }

  // ---------- Shared ----------

  lemma WordHasNoBreak(w: string)
    requires IsWord(w)
    ensures '\n' !in w && ' ' !in w
  {
    assert IsSpace('\n') && IsSpace(' ');
  }

  /** strings.TrimLeft(line, " \t") taken away: the indentation the editors keep. */
  function Indent(line: string): (r: string)
    ensures AllSpace(r)
    ensures forall i :: 0 <= i < |r| ==> r[i] == ' ' || r[i] == '\t'
    ensures r <= line && (|r| < |line| ==> line[|r|] != ' ' && line[|r|] != '\t')
  {
    if line != "" && (line[0] == ' ' || line[0] == '\t') then [line[0]] + Indent(line[1..]) else ""
  }

  lemma {:induction false} IndentOf(pad: string, s: string)
    requires forall i :: 0 <= i < |pad| ==> pad[i] == ' ' || pad[i] == '\t'
    requires s != "" && s[0] != ' ' && s[0] != '\t'
    ensures Indent(pad + s) == pad
  {
    if pad == "" {
      assert pad + s == s;
    } else {
      assert (pad + s)[1..] == pad[1..] + s;
      IndentOf(pad[1..], s);
      assert pad == [pad[0]] + pad[1..];
    }
  }

  /** The first line that satisfies `m`, or the number of lines. */
  function First(lines: seq<string>, m: string -> bool): (i: nat)
    ensures i <= |lines|
    ensures forall k :: 0 <= k < i ==> !m(lines[k])
    ensures i < |lines| ==> m(lines[i])
  {
    if lines == [] || m(lines[0]) then 0 else 1 + First(lines[1..], m)
  }

  lemma FirstIs(lines: seq<string>, m: string -> bool, i: nat)
    requires i < |lines| && m(lines[i]) && forall k :: 0 <= k < i ==> !m(lines[k])
    ensures First(lines, m) == i
  {
    var j := First(lines, m);
    assert j <= i;
  }

  lemma TrimEmpty()
    ensures TrimSpace("") == ""
  {
  }

  lemma TrimWordy(s: string)
    requires s != "" && !IsSpace(s[0]) && !IsSpace(s[|s| - 1])
    ensures TrimSpace(s) == s
  {
    TrimPadded("", s);
    assert "" + s == s;
  }

  // ---------- php.ini ----------

  const INI_NOTE := "; WP Panel \U{2014} WordPress optimization"

  predicate IniMatch(line: string, key: string) {
    key + " =" <= TrimSpace(line) || key + "=" <= TrimSpace(line)
  }

  function IniLine(key: string, value: string): string {
    key + " = " + value
  }

  function IniReplaced(lines: seq<string>, key: string, value: string): seq<string> {
    if First(lines, l => IniMatch(l, key)) < |lines|
    then seq(|lines|, i requires 0 <= i < |lines| => if IniMatch(lines[i], key) then IniLine(key, value) else lines[i])
    else lines + ["", INI_NOTE, IniLine(key, value)]
  }

  function ReplaceIni(content: string, key: string, value: string): string {
    Join(IniReplaced(Split(content, '\n'), key, value), "\n")
  }

  /** The text behind the first `=`, trimmed. */
  function IniValueOf(line: string): string {
    var i := Index(TrimSpace(line), "=");
    if i < 0 then "" else TrimSpace(TrimSpace(line)[i + 1..])
  }

  predicate IniCounts(line: string, key: string) {
    !(";" <= TrimSpace(line)) && !("#" <= TrimSpace(line)) && IniMatch(line, key)
  }

  function FindIniIn(lines: seq<string>, key: string): string {
    var i := First(lines, l => IniCounts(l, key));
    if i < |lines| then IniValueOf(lines[i]) else ""
  }

  /** findPHPIniValue. */
  function FindIni(content: string, key: string): string {
    FindIniIn(Split(content, '\n'), key)
  }

  /** replaceIniValue. */
  method ReplaceIniValue(content: string, key: string, value: string) returns (r: string)
    ensures r == ReplaceIni(content, key, value)
  {
    hide IniMatch, Split;
    ghost var original := Split(content, '\n');
    var lines := Split(content, '\n');
    var found := false;
    for i := 0 to |lines|
      invariant |lines| == |original|
      invariant forall k :: i <= k < |lines| ==> lines[k] == original[k]
      invariant forall k :: 0 <= k < i ==>
                lines[k] == if IniMatch(original[k], key) then IniLine(key, value) else original[k]
      invariant found <==> exists k :: 0 <= k < i && IniMatch(original[k], key)
    {
      if IniMatch(lines[i], key) {
        lines := lines[i := IniLine(key, value)];
        found := true;
      }
    }
    if !found {
      assert lines == original;
      lines := lines + ["", INI_NOTE, IniLine(key, value)];
    }
    assert lines == IniReplaced(original, key, value);
    r := Join(lines, "\n");
  }

  lemma IniLineReads(key: string, value: string)
    requires IsKey(key) && IsValue(value)
    ensures IniCounts(IniLine(key, value), key) && IniValueOf(IniLine(key, value)) == value
  {
    hide TrimSpace, Index;
    var line := IniLine(key, value);
    assert line[0] == key[0] && line[|line| - 1] == value[|value| - 1];
    TrimWordy(line);
    assert line == (key + " ") + ['='] + (" " + value);
    IndexOfChar(key + " ", '=', " " + value);
    assert line[|key| + 2..] == " " + value;
    TrimPadded(" ", value);
    assert key + " =" <= line;
  }

  lemma IniAdditions(key: string, value: string)
    requires IsKey(key) && IsValue(value)
    ensures '\n' !in INI_NOTE && '\n' !in IniLine(key, value)
    ensures !IniMatch("", key) && !IniMatch(INI_NOTE, key)
  {
    hide TrimSpace;
    WordHasNoBreak(key);
    WordHasNoBreak(value);
    TrimWordy(INI_NOTE);
    TrimEmpty();
    assert (key + " =")[0] == key[0] && (key + "=")[0] == key[0];
  }

  lemma IniLines(lines: seq<string>, key: string, value: string)
    requires IsKey(key) && IsValue(value) && NoneHas(lines, '\n') && lines != []
    ensures var r := IniReplaced(lines, key, value);
            r != [] && NoneHas(r, '\n') && FindIniIn(r, key) == value
  {
    hide IniMatch, IniLine, IniValueOf;
    IniLineReads(key, value);
    IniAdditions(key, value);
    var r := IniReplaced(lines, key, value);
    var i := First(lines, l => IniMatch(l, key));
    FirstIs(r, l => IniCounts(l, key), if i < |lines| then i else |lines| + 2);
  }

  /** INI get after put. */
  lemma IniGetPut(content: string, key: string, value: string)
    requires IsKey(key) && IsValue(value)
    ensures FindIni(ReplaceIni(content, key, value), key) == value
  {
    hide IniReplaced, FindIniIn, Split;
    var lines := Split(content, '\n');
    SplitParts(content, '\n');
    IniLines(lines, key, value);
    SplitJoin(IniReplaced(lines, key, value), '\n');
  }

  /** INI put after put. */
  lemma IniPutPut(content: string, key: string, v: string, w: string)
    requires IsKey(key) && IsValue(v) && IsValue(w)
    ensures ReplaceIni(ReplaceIni(content, key, v), key, w) == ReplaceIni(content, key, w)
  {
    hide IniMatch, IniLine, IniValueOf, FindIniIn, Split;
    var lines := Split(content, '\n');
    SplitParts(content, '\n');
    IniLines(lines, key, v);
    var r := IniReplaced(lines, key, v);
    SplitJoin(r, '\n');
    IniLineReads(key, v);
    IniAdditions(key, v);
    assert IniMatch(IniLine(key, v), key);
    var i := First(lines, l => IniMatch(l, key));
    FirstIs(r, l => IniMatch(l, key), if i < |lines| then i else |lines| + 2);
    assert IniReplaced(r, key, w) == IniReplaced(lines, key, w);
  }

  // ---------- redis.conf ----------

  /** Lines an earlier mistake may have left behind. */
  predicate RedisStray(line: string) {
    ";" <= TrimSpace(line) || "maxmemory =" <= TrimSpace(line)
  }

  function RedisFiltered(lines: seq<string>): (r: seq<string>)
    ensures forall i :: 0 <= i < |r| ==> !RedisStray(r[i]) && r[i] in lines
  {
    if lines == [] then []
    else RedisFiltered(lines[..|lines| - 1]) + if RedisStray(lines[|lines| - 1]) then [] else [lines[|lines| - 1]]
  }

  predicate RedisMatch(line: string, key: string) {
    !("#" <= TrimSpace(line)) && |Fields(TrimSpace(line))| >= 2 && Fields(TrimSpace(line))[0] == key
  }

  /** The first matching line is replaced, or three lines are appended. */
  function RedisReplaced(lines: seq<string>, key: string, value: string): seq<string> {
    var i := First(lines, l => RedisMatch(l, key));
    if i < |lines| then lines[i := Indent(lines[i]) + (key + " " + value)]
    else lines + ["", "# WP Panel", key + " " + value]
  }

  function ReplaceRedis(content: string, key: string, value: string): string {
    Join(RedisReplaced(RedisFiltered(Split(content, '\n')), key, value), "\n")
  }

  function RedisValueOf(line: string): string {
    var fields := Fields(TrimSpace(line));
    if |fields| < 2 then "" else if fields[1] == "=" && |fields| >= 3 then fields[2] else fields[1]
  }

  function FindRedisIn(lines: seq<string>, key: string): string {
    var i := First(lines, l => RedisMatch(l, key));
    if i < |lines| then RedisValueOf(lines[i]) else ""
  }

  /** findRedisValue. */
  function FindRedis(content: string, key: string): string {
    FindRedisIn(Split(content, '\n'), key)
  }

  /** replaceRedisValue. */
  method ReplaceRedisValue(content: string, key: string, value: string) returns (r: string)
    ensures r == ReplaceRedis(content, key, value)
  {
    hide RedisMatch, RedisStray, Split;
    var all := Split(content, '\n');
    var lines: seq<string> := [];
    for i := 0 to |all|
      invariant lines == RedisFiltered(all[..i])
    {
      assert all[..i + 1][..i] == all[..i];
      if !RedisStray(all[i]) { lines := lines + [all[i]]; }
    }
    assert all[..|all|] == all;
    ghost var filtered := lines;
    var found := false;
    var i := 0;
    while i < |lines|
      invariant i <= |lines| && !found && lines == filtered
      invariant forall k :: 0 <= k < i ==> !RedisMatch(lines[k], key)
    {
      if RedisMatch(lines[i], key) {
        FirstIs(lines, l => RedisMatch(l, key), i);
        lines := lines[i := Indent(lines[i]) + (key + " " + value)];
        found := true;
        break;
      }
      i := i + 1;
    }
    if !found { lines := lines + ["", "# WP Panel", key + " " + value]; }
    assert lines == RedisReplaced(filtered, key, value);
    r := Join(lines, "\n");
  }

  /** What an edited line looks like to the readers, whatever its indentation. */
  lemma RedisLineFacts(pad: string, key: string, value: string)
    requires IsKey(key) && IsValue(value)
    requires forall i :: 0 <= i < |pad| ==> pad[i] == ' ' || pad[i] == '\t'
    ensures var line := pad + (key + " " + value);
            RedisMatch(line, key) && RedisValueOf(line) == value && !RedisStray(line) && '\n' !in line
                && Indent(line) == pad
  {
    hide TrimSpace, Fields;
    var body := key + " " + value;
    assert body[0] == key[0] && body[|body| - 1] == value[|value| - 1];
    TrimPadded(pad, body);
    FieldsOfTwo(key, value);
    IndentOf(pad, body);
    WordHasNoBreak(key);
    WordHasNoBreak(value);
    assert value != "=";
    NotMaxmemoryAssignment(key, value);
  }

  lemma NotMaxmemoryAssignment(key: string, value: string)
    requires IsWord(key) && IsWord(value) && '=' !in value
    ensures !("maxmemory =" <= key + " " + value)
  {
    var s, bad := key + " " + value, "maxmemory =";
    WordHasNoBreak(key);
    var p := if |key| < 9 then |key| else if |key| == 9 then 10 else 9;
    assert |key| > 9 ==> s[9] == key[9];
    assert s[p] != bad[p];
  }

  lemma RedisAdditions(key: string)
    requires IsKey(key)
    ensures !RedisMatch("", key) && !RedisMatch("# WP Panel", key)
    ensures !RedisStray("") && !RedisStray("# WP Panel")
  {
    hide TrimSpace;
    TrimEmpty();
    TrimWordy("# WP Panel");
  }

  lemma {:induction false} RedisFilteredKeeps(lines: seq<string>)
    requires forall i :: 0 <= i < |lines| ==> !RedisStray(lines[i])
    ensures RedisFiltered(lines) == lines
  {
    hide RedisStray;
    if lines != [] {
      var n := |lines| - 1;
      assert RedisFiltered(lines) == RedisFiltered(lines[..n]) + [lines[n]];
      hide RedisFiltered;
      RedisFilteredKeeps(lines[..n]);
      LastApart(lines);
    }
  }

  /** Where an edit leaves the key: the first match, and with which indentation. */
  lemma RedisPlace(lines: seq<string>, key: string, value: string) returns (at: nat, pad: string)
    requires IsKey(key) && IsValue(value)
    ensures var r := RedisReplaced(lines, key, value);
            && at < |r| && First(r, l => RedisMatch(l, key)) == at
            && r[at] == pad + (key + " " + value) && Indent(r[at]) == pad && RedisMatch(r[at], key)
            && RedisValueOf(r[at]) == value && !RedisStray(r[at]) && '\n' !in r[at]
            && (if First(lines, l => RedisMatch(l, key)) < |lines|
                then at == First(lines, l => RedisMatch(l, key)) && pad == Indent(lines[at])
                else at == |lines| + 2 && pad == "")
  {
    hide RedisMatch, RedisStray, RedisValueOf;
    var i := First(lines, l => RedisMatch(l, key));
    var r := RedisReplaced(lines, key, value);
    pad := if i < |lines| then Indent(lines[i]) else "";
    at := if i < |lines| then i else |lines| + 2;
    RedisLineFacts(pad, key, value);
    RedisAdditions(key);
    assert "" + (key + " " + value) == key + " " + value;
    assert r[at] == pad + (key + " " + value);
    FirstIs(r, l => RedisMatch(l, key), at);
  }

  lemma RedisLines(lines: seq<string>, key: string, value: string)
    requires IsKey(key) && IsValue(value) && NoneHas(lines, '\n')
    requires forall i :: 0 <= i < |lines| ==> !RedisStray(lines[i])
    ensures var r := RedisReplaced(lines, key, value);
            && r != [] && NoneHas(r, '\n') && FindRedisIn(r, key) == value
            && forall i :: 0 <= i < |r| ==> !RedisStray(r[i])
  {
    hide RedisMatch, RedisStray, RedisValueOf, IsKey, IsValue;
    var at, pad := RedisPlace(lines, key, value);
    RedisAdditions(key);
  }

  lemma RedisTwice(lines: seq<string>, key: string, v: string, w: string)
    requires IsKey(key) && IsValue(v) && IsValue(w)
    ensures RedisReplaced(RedisReplaced(lines, key, v), key, w) == RedisReplaced(lines, key, w)
  {
    hide RedisMatch, RedisStray, RedisValueOf, IsKey, IsValue, Indent;
    var at, pad := RedisPlace(lines, key, v);
    assert "" + (key + " " + w) == key + " " + w;
  }

  /** Redis get after put. */
  lemma RedisGetPut(content: string, key: string, value: string)
    requires IsKey(key) && IsValue(value)
    ensures FindRedis(ReplaceRedis(content, key, value), key) == value
  {
    hide RedisReplaced, FindRedisIn, RedisStray, Split;
    var lines := RedisFiltered(Split(content, '\n'));
    SplitParts(content, '\n');
    RedisLines(lines, key, value);
    SplitJoin(RedisReplaced(lines, key, value), '\n');
  }

  /** Redis put after put. */
  lemma RedisPutPut(content: string, key: string, v: string, w: string)
    requires IsKey(key) && IsValue(v) && IsValue(w)
    ensures ReplaceRedis(ReplaceRedis(content, key, v), key, w) == ReplaceRedis(content, key, w)
  {
    hide RedisReplaced, FindRedisIn, RedisStray, Split;
    var lines := RedisFiltered(Split(content, '\n'));
    SplitParts(content, '\n');
    RedisLines(lines, key, v);
    var r := RedisReplaced(lines, key, v);
    SplitJoin(r, '\n');
    RedisFilteredKeeps(r);
    RedisTwice(lines, key, v, w);
  }

  // ---------- nginx.conf ----------

  predicate NginxMatch(line: string, key: string) {
    key <= TrimSpace(line) && |Fields(TrimSpace(line))| >= 2
  }

  function NginxLine(key: string, value: string): string {
    key + " " + value + ";"
  }

  predicate OpensHttp(line: string) {
    Contains(line, "http {")
  }

  /** Every matching line is replaced; without one, a line goes below the first `http {`, or at the end. */
  function NginxReplaced(lines: seq<string>, key: string, value: string): seq<string> {
    if First(lines, l => NginxMatch(l, key)) < |lines| then
      seq(|lines|, i requires 0 <= i < |lines| =>
        if NginxMatch(lines[i], key) then Indent(lines[i]) + NginxLine(key, value) else lines[i])
    else
      var h := First(lines, l => OpensHttp(l));
      if h < |lines| then lines[h := lines[h] + "\n" + ("    " + NginxLine(key, value))]
      else lines + [NginxLine(key, value)]
  }

  function ReplaceNginx(content: string, key: string, value: string): string {
    Join(NginxReplaced(Split(content, '\n'), key, value), "\n")
  }

  function NginxValueOf(line: string): string {
    var fields := Fields(TrimSpace(line));
    if |fields| < 2 then "" else TrimSemicolons(fields[1])
  }

  function FindNginxIn(lines: seq<string>, key: string): string {
    var i := First(lines, l => NginxMatch(l, key));
    if i < |lines| then NginxValueOf(lines[i]) else ""
  }

  /** findNginxValue. */
  function FindNginx(content: string, key: string): string {
    FindNginxIn(Split(content, '\n'), key)
  }

  /** replaceNginxValue. */
  method ReplaceNginxValue(content: string, key: string, value: string) returns (r: string)
    ensures r == ReplaceNginx(content, key, value)
  {
    hide NginxMatch, Split, OpensHttp, Indent, NginxLine, Join;
    ghost var original := Split(content, '\n');
    var lines := Split(content, '\n');
    var found := false;
    for i := 0 to |lines|
      invariant |lines| == |original|
      invariant forall k :: i <= k < |lines| ==> lines[k] == original[k]
      invariant forall k :: 0 <= k < i ==>
                  lines[k] ==
                  if NginxMatch(original[k], key) then Indent(original[k]) + NginxLine(key, value) else original[k]
      invariant found <==> exists k :: 0 <= k < i && NginxMatch(original[k], key)
    {
      if NginxMatch(lines[i], key) {
        lines := lines[i := Indent(lines[i]) + NginxLine(key, value)];
        found := true;
      }
    }
    if !found {
      assert lines == original;
      var i := 0;
      while i < |lines|
        invariant i <= |lines| && !found && lines == original
        invariant forall k :: 0 <= k < i ==> !OpensHttp(lines[k])
      {
        if OpensHttp(lines[i]) {
          FirstIs(lines, l => OpensHttp(l), i);
          lines := lines[i := lines[i] + "\n" + ("    " + NginxLine(key, value))];
          found := true;
          break;
        }
        i := i + 1;
      }
      if !found { lines := lines + [NginxLine(key, value)]; }
    }
    assert lines == NginxReplaced(original, key, value);
    r := Join(lines, "\n");
  }

  /** The same text as lines: an inserted line stands on its own. */
  function NginxLines(lines: seq<string>, key: string, value: string): seq<string> {
    var h := First(lines, l => OpensHttp(l));
    if First(lines, l => NginxMatch(l, key)) < |lines| || h == |lines| then NginxReplaced(lines, key, value)
    else lines[..h + 1] + ["    " + NginxLine(key, value)] + lines[h + 1..]
  }

  lemma {:induction false} JoinInserted(a: seq<string>, x: string, y: string, b: seq<string>)
    ensures Join(a + [x + "\n" + y] + b, "\n") == Join(a + [x, y] + b, "\n")
    decreases |a|
  {
    var l, r := a + [x + "\n" + y] + b, a + [x, y] + b;
    if a == [] {
      assert l[1..] == b && r[1..] == [y] + b && r[1..][1..] == b;
      assert b != [] ==> Join(r, "\n") == x + "\n" + (y + "\n" + Join(b, "\n"));
      assert b != [] ==> Join(l, "\n") == (x + "\n" + y) + "\n" + Join(b, "\n");
    } else {
      assert l[1..] == a[1..] + [x + "\n" + y] + b && r[1..] == a[1..] + [x, y] + b;
      JoinInserted(a[1..], x, y, b);
    }
  }

  lemma NginxJoin(lines: seq<string>, key: string, value: string)
    ensures Join(NginxReplaced(lines, key, value), "\n") == Join(NginxLines(lines, key, value), "\n")
  {
    hide NginxMatch, OpensHttp, NginxLine, Join;
    var h := First(lines, l => OpensHttp(l));
    if First(lines, l => NginxMatch(l, key)) == |lines| && h < |lines| {
      var y := "    " + NginxLine(key, value);
      JoinInserted(lines[..h], lines[h], y, lines[h + 1..]);
      assert lines[h := lines[h] + "\n" + y] == lines[..h] + [lines[h] + "\n" + y] + lines[h + 1..];
      assert lines[..h + 1] + [y] + lines[h + 1..] == lines[..h] + [lines[h], y] + lines[h + 1..];
    }
  }

  lemma NginxLineFacts(pad: string, key: string, value: string)
    requires IsKey(key) && IsValue(value)
    requires forall i :: 0 <= i < |pad| ==> pad[i] == ' ' || pad[i] == '\t'
    ensures var line := pad + NginxLine(key, value);
            NginxMatch(line, key) && NginxValueOf(line) == value && '\n' !in line && Indent(line) == pad
  {
    hide TrimSpace, Fields;
    var body := NginxLine(key, value);
    var v := value + ";";
    assert body == key + " " + v;
    assert body[0] == key[0] && body[|body| - 1] == ';';
    TrimPadded(pad, body);
    assert IsWord(v);
    FieldsOfTwo(key, v);
    IndentOf(pad, body);
    WordHasNoBreak(key);
    WordHasNoBreak(value);
    assert v[..|value|] == value;
    assert value[|value| - 1] in value;
    assert TrimSemicolons(v) == value;
  }

  /** Where an edit leaves the key: the first match, and with which indentation. */
  lemma NginxPlace(lines: seq<string>, key: string, value: string) returns (at: nat, pad: string)
    requires IsKey(key) && IsValue(value)
    ensures var r := NginxLines(lines, key, value);
            && at < |r| && First(r, l => NginxMatch(l, key)) == at
            && r[at] == pad + NginxLine(key, value) && NginxValueOf(r[at]) == value
  {
    hide NginxMatch, OpensHttp, NginxLine, NginxValueOf, Indent, IsKey, IsValue;
    var r := NginxLines(lines, key, value);
    var i := First(lines, l => NginxMatch(l, key));
    var h := First(lines, l => OpensHttp(l));
    pad := if i < |lines| then Indent(lines[i]) else if h < |lines| then "    " else "";
    at := if i < |lines| then i else if h < |lines| then h + 1 else |lines|;
    NginxLineFacts(pad, key, value);
    assert "" + NginxLine(key, value) == NginxLine(key, value);
    assert r[at] == pad + NginxLine(key, value);
    assert forall k :: 0 <= k < at ==> r[k] == lines[k] && !NginxMatch(lines[k], key);
    FirstIs(r, l => NginxMatch(l, key), at);
  }

  lemma NginxEdited(lines: seq<string>, key: string, value: string)
    requires IsKey(key) && IsValue(value) && NoneHas(lines, '\n') && lines != []
    ensures var r := NginxLines(lines, key, value);
            r != [] && NoneHas(r, '\n') && FindNginxIn(r, key) == value
  {
    hide NginxMatch, OpensHttp, NginxLine, NginxValueOf, IsKey, IsValue;
    var at, pad := NginxPlace(lines, key, value);
    var r := NginxLines(lines, key, value);
    forall k | 0 <= k < |lines| ensures '\n' !in Indent(lines[k]) + NginxLine(key, value) {
      NginxLineFacts(Indent(lines[k]), key, value);
    }
    NginxLineFacts("    ", key, value);
    NginxLineFacts("", key, value);
    assert "" + NginxLine(key, value) == NginxLine(key, value);
  }

  /** nginx get after put. */
  lemma NginxGetPut(content: string, key: string, value: string)
    requires IsKey(key) && IsValue(value)
    ensures FindNginx(ReplaceNginx(content, key, value), key) == value
  {
    hide NginxReplaced, NginxLines, FindNginxIn, Split;
    var lines := Split(content, '\n');
    SplitParts(content, '\n');
    NginxJoin(lines, key, value);
    NginxEdited(lines, key, value);
    SplitJoin(NginxLines(lines, key, value), '\n');
  }

  lemma NginxTwice(lines: seq<string>, key: string, v: string, w: string)
    requires IsKey(key) && IsValue(v) && IsValue(w)
    ensures NginxReplaced(NginxLines(lines, key, v), key, w) == NginxLines(lines, key, w)
  {
    hide NginxMatch, OpensHttp, NginxLine, NginxValueOf, FindNginxIn, Indent, IsKey, IsValue;
    var at, pad := NginxPlace(lines, key, v);
    var r := NginxLines(lines, key, v);
    var i := First(lines, l => NginxMatch(l, key));
    var h := First(lines, l => OpensHttp(l));
    var twice, once := NginxReplaced(r, key, w), NginxLines(lines, key, w);
    assert |twice| == |r| == |once|;
    assert "" + NginxLine(key, v) == NginxLine(key, v) && "" + NginxLine(key, w) == NginxLine(key, w);
    NginxLineFacts("    ", key, v);
    NginxLineFacts("", key, v);
    forall k | 0 <= k < |r| ensures twice[k] == once[k] {
      if i < |lines| {
        NginxLineFacts(Indent(lines[k]), key, v);
      } else if h < |lines| {
        if k <= h { assert r[k] == lines[k]; } else if k > h + 1 { assert r[k] == lines[k - 1]; }
      }
    }
  }

  /** nginx put after put. */
  lemma NginxPutPut(content: string, key: string, v: string, w: string)
    requires IsKey(key) && IsValue(v) && IsValue(w)
    ensures ReplaceNginx(ReplaceNginx(content, key, v), key, w) == ReplaceNginx(content, key, w)
  {
    hide NginxReplaced, NginxLines, FindNginxIn, Split;
    var lines := Split(content, '\n');
    SplitParts(content, '\n');
    NginxJoin(lines, key, v);
    NginxJoin(lines, key, w);
    NginxEdited(lines, key, v);
    SplitJoin(NginxLines(lines, key, v), '\n');
    NginxTwice(lines, key, v, w);
  }
}
