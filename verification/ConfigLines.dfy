/** Which lines an edit changes, and where new ones go, line by line of the texts before and after
    (handlers/software.go). */
module ConfigLines {
  import opened ConfigEdit
  import opened GoStrings

  predicate SetsIni(line: string, key: string) {
    key + " =" <= TrimSpace(line) || key + "=" <= TrimSpace(line)
  }

  lemma IniLinesEdited(lines: seq<string>, key: string, value: string)
    ensures var edited := IniReplaced(lines, key, value);
            if exists i :: 0 <= i < |lines| && SetsIni(lines[i], key) then
              |edited| == |lines|
              && forall i :: 0 <= i < |lines| ==>
                   edited[i] == if SetsIni(lines[i], key) then key + " = " + value else lines[i]
            else edited == lines + ["", "; WP Panel \U{2014} WordPress optimization", key + " = " + value]
  {
    hide TrimSpace;
    assert forall l :: IniMatch(l, key) == SetsIni(l, key);
    hide IniMatch, SetsIni;
    var i := First(lines, l => IniMatch(l, key));
    if i < |lines| { assert SetsIni(lines[i], key); }
  }

  /** php.ini: every line that sets the key is replaced, duplicates included, and no other line changes; a new
      setting goes to the end, below a blank line and a note. */
  lemma IniEdit(content: string, key: string, value: string)
    requires IsKey(key) && IsValue(value)
    ensures var before, after := Split(content, '\n'), Split(ReplaceIni(content, key, value), '\n');
            if exists i :: 0 <= i < |before| && SetsIni(before[i], key) then
              |after| == |before|
              && forall i :: 0 <= i < |before| ==>
                   after[i] == if SetsIni(before[i], key) then key + " = " + value else before[i]
            else after == before + ["", "; WP Panel \U{2014} WordPress optimization", key + " = " + value]
  {
    hide IniReplaced, Split, FindIniIn, SetsIni;
    var lines := Split(content, '\n');
    SplitParts(content, '\n');
    IniLines(lines, key, value);
    SplitJoin(IniReplaced(lines, key, value), '\n');
    IniLinesEdited(lines, key, value);
  }

  predicate SetsNginx(line: string, key: string) {
    key <= TrimSpace(line) && |Fields(TrimSpace(line))| >= 2
  }

  /** `h` is the first line that opens the http block. */
  ghost predicate HttpOpensAt(lines: seq<string>, h: nat) {
    h < |lines| && Contains(lines[h], "http {") && forall k :: 0 <= k < h ==> !Contains(lines[k], "http {")
  }

  lemma NginxLinesEdited(lines: seq<string>, key: string, value: string)
    ensures var edited := NginxLines(lines, key, value);
            var setting := key + " " + value + ";";
            if exists i :: 0 <= i < |lines| && SetsNginx(lines[i], key) then
              |edited| == |lines|
              && forall i :: 0 <= i < |lines| ==>
                   edited[i] == if SetsNginx(lines[i], key) then Indent(lines[i]) + setting else lines[i]
            else
              && (forall h: nat :: HttpOpensAt(lines, h) ==>
                    edited == lines[..h + 1] + ["    " + setting] + lines[h + 1..])
              && ((forall i :: 0 <= i < |lines| ==> !Contains(lines[i], "http {")) ==> edited == lines + [setting])
  {
    hide TrimSpace, Fields, Contains, Indent;
    assert forall l :: NginxMatch(l, key) == SetsNginx(l, key);
    assert forall l :: OpensHttp(l) == Contains(l, "http {");
    hide NginxMatch, SetsNginx, OpensHttp;
    var i := First(lines, l => NginxMatch(l, key));
    if i < |lines| { assert SetsNginx(lines[i], key); }
    forall h: nat | HttpOpensAt(lines, h) ensures First(lines, l => OpensHttp(l)) == h {
      FirstIs(lines, l => OpensHttp(l), h);
    }
  }

  /** nginx.conf: every line that sets the key is replaced behind its own indentation, and no other line
      changes; a new setting goes right below the first line that opens the http block, or to the end. */
  lemma NginxEdit(content: string, key: string, value: string)
    requires IsKey(key) && IsValue(value)
    ensures var before, after := Split(content, '\n'), Split(ReplaceNginx(content, key, value), '\n');
            var setting := key + " " + value + ";";
            if exists i :: 0 <= i < |before| && SetsNginx(before[i], key) then
              |after| == |before|
              && forall i :: 0 <= i < |before| ==>
                   after[i] == if SetsNginx(before[i], key) then Indent(before[i]) + setting else before[i]
            else
              && (forall h: nat :: HttpOpensAt(before, h) ==>
                    after == before[..h + 1] + ["    " + setting] + before[h + 1..])
              && ((forall i :: 0 <= i < |before| ==> !Contains(before[i], "http {")) ==> after == before + [setting])
  {
    hide NginxReplaced, NginxLines, Split, FindNginxIn, SetsNginx, HttpOpensAt, Indent, Contains;
    var lines := Split(content, '\n');
    SplitParts(content, '\n');
    NginxJoin(lines, key, value);
    NginxEdited(lines, key, value);
    SplitJoin(NginxLines(lines, key, value), '\n');
    NginxLinesEdited(lines, key, value);
  }

  predicate SetsRedis(line: string, key: string) {
    !("#" <= TrimSpace(line)) && |Fields(TrimSpace(line))| >= 2 && Fields(TrimSpace(line))[0] == key
  }

  /** Line `i` is the first that sets the key. */
  ghost predicate SetsRedisAt(lines: seq<string>, key: string, i: nat) {
    i < |lines| && SetsRedis(lines[i], key) && forall k :: 0 <= k < i ==> !SetsRedis(lines[k], key)
  }

  predicate LeftOver(line: string) {
    ";" <= TrimSpace(line) || "maxmemory =" <= TrimSpace(line)
  }

  /** The lines that are not left over, in order. */
  function Kept(lines: seq<string>): seq<string> {
    if lines == [] then [] else (if LeftOver(lines[0]) then [] else [lines[0]]) + Kept(lines[1..])
  }

  lemma {:induction false} FilteredAppend(a: string, lines: seq<string>)
    ensures RedisFiltered([a] + lines) == (if LeftOver(a) then [] else [a]) + RedisFiltered(lines)
    decreases |lines|
  {
    hide TrimSpace;
    assert LeftOver(a) == RedisStray(a);
    hide LeftOver, RedisStray;
    if lines == [] {
      assert [a] + lines == [a] && [a][..0] == [];
    } else {
      var n := |lines| - 1;
      FilteredAppend(a, lines[..n]);
      assert ([a] + lines)[..n + 1] == [a] + lines[..n];
    }
  }

  lemma {:induction false} FilteredIsKept(lines: seq<string>)
    ensures RedisFiltered(lines) == Kept(lines)
  {
    if lines != [] {
      hide RedisFiltered, LeftOver;
      FilteredIsKept(lines[1..]);
      FilteredAppend(lines[0], lines[1..]);
      assert lines == [lines[0]] + lines[1..];
    }
  }

  lemma RedisLinesEdited(lines: seq<string>, key: string, value: string)
    ensures var edited := RedisReplaced(lines, key, value);
            && (forall i: nat :: SetsRedisAt(lines, key, i) ==>
                  edited == lines[i := Indent(lines[i]) + (key + " " + value)])
            && ((forall i :: 0 <= i < |lines| ==> !SetsRedis(lines[i], key)) ==>
                  edited == lines + ["", "# WP Panel", key + " " + value])
  {
    hide TrimSpace, Fields, Indent;
    assert forall l :: RedisMatch(l, key) == SetsRedis(l, key);
    hide RedisMatch, SetsRedis;
    forall i: nat | SetsRedisAt(lines, key, i)
      ensures First(lines, l => RedisMatch(l, key)) == i {
      FirstIs(lines, l => RedisMatch(l, key), i);
    }
  }

  /** redis.conf: left-over lines go; of the others only the first that sets the key is replaced, behind its
      own indentation; a new setting goes to the end, below a blank line and a note. */
  lemma RedisEdit(content: string, key: string, value: string)
    requires IsKey(key) && IsValue(value)
    ensures var before, after := Kept(Split(content, '\n')), Split(ReplaceRedis(content, key, value), '\n');
            && (forall i: nat :: SetsRedisAt(before, key, i) ==>
                  after == before[i := Indent(before[i]) + (key + " " + value)])
            && ((forall i :: 0 <= i < |before| ==> !SetsRedis(before[i], key)) ==>
                  after == before + ["", "# WP Panel", key + " " + value])
  {
    hide RedisReplaced, FindRedisIn, RedisStray, Split, SetsRedis, SetsRedisAt, Indent, Kept;
    var lines := RedisFiltered(Split(content, '\n'));
    SplitParts(content, '\n');
    FilteredIsKept(Split(content, '\n'));
    RedisLines(lines, key, value);
    SplitJoin(RedisReplaced(lines, key, value), '\n');
    RedisLinesEdited(lines, key, value);
  }

  // ---------- Reading ----------

  /** Line `i` is the first that sets the key and is no comment. */
  ghost predicate ReadsIniAt(lines: seq<string>, key: string, i: nat) {
    && i < |lines| && SetsIni(lines[i], key) && !(";" <= TrimSpace(lines[i])) && !("#" <= TrimSpace(lines[i]))
    && forall k :: 0 <= k < i && SetsIni(lines[k], key) ==> ";" <= TrimSpace(lines[k]) || "#" <= TrimSpace(lines[k])
  }

  /** php.ini: the value read is what follows the first equals sign of that line, trimmed. */
  lemma IniRead(content: string, key: string, i: nat, front: string, rest: string)
    requires ReadsIniAt(Split(content, '\n'), key, i)
    requires TrimSpace(Split(content, '\n')[i]) == front + ['='] + rest && '=' !in front
    ensures FindIni(content, key) == TrimSpace(rest)
  {
    hide Split, TrimSpace, Index;
    var lines := Split(content, '\n');
    FirstIs(lines, l => IniCounts(l, key), i);
    IndexOfChar(front, '=', rest);
    assert (front + ['='] + rest)[|front| + 1..] == rest;
  }

  /** redis.conf: the word behind the key, or behind an equals sign that stands alone. */
  lemma RedisRead(content: string, key: string, i: nat)
    requires SetsRedisAt(Split(content, '\n'), key, i)
    ensures var fields := Fields(TrimSpace(Split(content, '\n')[i]));
            FindRedis(content, key) == if |fields| >= 3 && fields[1] == "=" then fields[2] else fields[1]
  {
    hide Split, TrimSpace, Fields;
    FirstIs(Split(content, '\n'), l => RedisMatch(l, key), i);
  }

  ghost predicate SetsNginxAt(lines: seq<string>, key: string, i: nat) {
    i < |lines| && SetsNginx(lines[i], key) && forall k :: 0 <= k < i ==> !SetsNginx(lines[k], key)
  }

  /** nginx.conf: the second word of that line, without its closing semicolon. */
  lemma NginxRead(content: string, key: string, i: nat, value: string)
    requires SetsNginxAt(Split(content, '\n'), key, i) && value != "" && value[|value| - 1] != ';'
    requires Fields(TrimSpace(Split(content, '\n')[i]))[1] in {value, value + ";"}
    ensures FindNginx(content, key) == value
  {
    hide Split, TrimSpace, Fields;
    FirstIs(Split(content, '\n'), l => NginxMatch(l, key), i);
    SemicolonsOff(value);
    assert TrimSemicolons(value) == value;
  }
}
