/** The byte-at-a-time restore filter (executor/backup.go), run over arbitrary reads into a sink that may
    fail, and its refinement of the batch filter. */
module RestoreStream {
  import opened RestoreFilter

  /** io.Writer: a write that fails may have passed on part of its bytes. */
  class Sink {
    const reliable: bool
    var written: string

    constructor (reliable: bool)
      ensures written == "" && this.reliable == reliable
    {
      this.reliable := reliable;
      written := "";
    }

    method Write(p: string) returns (ok: bool)
      modifies this
      ensures ok ==> written == old(written) + p
      ensures reliable ==> ok
      ensures old(written) <= written <= old(written) + p
    {
      var n: nat :| n <= |p|;
      ok := *;
      if reliable { n := |p|; }
      ok := reliable || (ok && n == |p|);
      written := written + p[..n];
    }

    /** The closure flushHeld: nothing held means nothing written. */
    method Flush(held: string) returns (ok: bool)
      modifies this
      ensures ok ==> written == old(written) + held
      ensures reliable ==> ok
      ensures old(written) <= written <= old(written) + held
    {
      ok := true;
      if held != "" { ok := Write(held); }
    }
  }

  function Concat(chunks: seq<string>): string {
    if chunks == [] then "" else chunks[0] + Concat(chunks[1..])
  }

  /** The quote state spelled by the four Boolean variables. */
  function QuoteOf(single: bool, double: bool, backtick: bool, escaped: bool): Quote {
    if single then Single(escaped) else if double then Double(escaped) else if backtick then Backtick else Plain
  }

  /** What is still to be written for a statement that is not over, or for the next one, when `todo` is
      the input not yet read. */
  function Owed(inStatement: bool, decided: bool, skip: bool, held: string, q: Quote, todo: string): string {
    if !inStatement then Filter(todo)
    else if !decided then Filter(held + todo)
    else
      var e := BodyEnd(q, todo);
      (if skip then "" else todo[..e]) + Filter(todo[e..])
  }

  lemma Regroup(a: string, b: string, c: string)
    ensures (a + b) + c == a + (b + c) && a + b <= a + (b + c) && a <= a + (b + c)
  {
  }

  /** One byte of prefix mode. */
  lemma HeadStep(held: string, b: char, todo: string)
    requires held != "" ==> !Blank(held[0])
    requires held == "" ==> !Blank(b)
    requires Unsettled(held)
    ensures var p := held + [b];
            var e := BodyEnd(Plain, todo);
            p != "" && !Blank(p[0]) && held + ([b] + todo) == p + todo &&
            if !Settles(p, |p|) then Unsettled(p)
            else Filter(p + todo) ==
                 if Decide(p) != Skip then p + (todo[..e] + Filter(todo[e..]))
                 else if b == ';' then Filter(todo)
                 else Filter(todo[e..])
  {
    hide Decide, EncodedLen, Filter;
    var p := held + [b];
    UnsettledGrows(held, b);
    if Settles(p, |p|) { FilterFromHead(p, todo); }
  }

  /** One byte of body mode. */
  lemma BodyStep(q: Quote, b: char, todo: string)
    ensures var s := [b] + todo;
            var e := BodyEnd(q, s);
            if q == Plain && b == ';' then s[..e] == [b] && s[e..] == todo
            else var e' := BodyEnd(Lex(q, b), todo); s[..e] == [b] + todo[..e'] && s[e..] == todo[e'..]
  {
    var s := [b] + todo;
    assert s[0] == b && s[1..] == todo;
  }

  lemma UnsettledIsShort(p: string)
    requires Unsettled(p)
    ensures |p| < MAX_STATEMENT_PREFIX && EncodedLen(p) < MAX_STATEMENT_PREFIX
  {
    hide Decide;
    assert p != "" ==> !Settles(p, |p|);
    assert p[..|p|] == p;
  }

  /** The local variables of writeSanitizedRestoreSQL. */
  class Machine {
    const dst: Sink
    var prefix: string
    var held: string
    var inStatement: bool
    var skipStatement: bool
    var decisionMade: bool
    var inSingle: bool
    var inDouble: bool
    var inBacktick: bool
    var escaped: bool
    ghost var peakHeld: nat

    ghost predicate Valid()
      reads this
    {
      && QuotesAgree()
      && (!inStatement ==> !skipStatement && held == "" && Q() == Plain)
      && (inStatement && !decisionMade ==>
            !skipStatement && Q() == Plain && held == prefix && held != "" && !Blank(held[0]) && Unsettled(held))
      && (inStatement && decisionMade && !skipStatement ==> held == "")
      && |held| <= peakHeld <= MAX_STATEMENT_PREFIX
    }

    ghost function Q(): Quote
      reads this
    {
      QuoteOf(inSingle, inDouble, inBacktick, escaped)
    }

    ghost function Owes(todo: string): string
      reads this
    {
      Owed(inStatement, decisionMade, skipStatement, held, Q(), todo)
    }

    constructor (dst: Sink)
      ensures Valid() && !inStatement && this.dst == dst
    {
      this.dst := dst;
      prefix, held := "", "";
      inStatement, skipStatement, decisionMade := false, false, false;
      inSingle, inDouble, inBacktick, escaped := false, false, false, false;
      peakHeld := 0;
    }

    method EndStatement()
      modifies this
      ensures !inStatement && !skipStatement && !decisionMade && prefix == "" && held == ""
      ensures peakHeld == old(peakHeld)
      ensures inSingle == old(inSingle) && inDouble == old(inDouble) && inBacktick == old(inBacktick)
              && escaped == old(escaped)
    {
      inStatement := false;
      skipStatement := false;
      decisionMade := false;
      prefix := "";
      held := "";
    }

    /** The fate of the statement is known: what was held goes out or is forgotten. */
    method Settle(skip: bool, b: char, ghost todo: string, ghost goal: string) returns (ok: bool)
      requires inStatement && !decisionMade && !skipStatement
      requires !inSingle && !inDouble && !inBacktick && !escaped
      requires |held| <= peakHeld <= MAX_STATEMENT_PREFIX
      requires var e := BodyEnd(Plain, todo);
               goal == if !skip then held + (todo[..e] + Filter(todo[e..]))
                       else if b == ';' then Filter(todo) else Filter(todo[e..])
      modifies this, dst
      ensures ok ==> Valid() && dst.written + Owes(todo) == old(dst.written) + goal
      ensures dst.reliable ==> ok
      ensures old(dst.written) <= dst.written <= old(dst.written) + goal
      ensures peakHeld <= MAX_STATEMENT_PREFIX
    {
      hide Decide, EncodedLen, Filter, BodyEnd, Unsettled;
      ghost var e := BodyEnd(Plain, todo);
      assert "" + Filter(todo[e..]) == Filter(todo[e..]);
      decisionMade := true;
      skipStatement := skip;
      Regroup(dst.written, held, todo[..e] + Filter(todo[e..]));
      if !skipStatement {
        ok := dst.Flush(held);
        if !ok { return; }
        held := "";
      }
      if skipStatement && b == ';' {
        EndStatement();
      }
      return true;
    }

    /** A byte of prefix mode; `held` is empty exactly when it is the first of its statement. */
    method FeedHead(b: char, ghost todo: string) returns (ok: bool)
      requires inStatement && !decisionMade && !skipStatement
      requires held == prefix && Unsettled(held)
      requires if held == "" then !Blank(b) else !Blank(held[0])
      requires !inSingle && !inDouble && !inBacktick && !escaped
      requires |held| <= peakHeld <= MAX_STATEMENT_PREFIX
      modifies this, dst
      ensures ok ==> Valid() && dst.written + Owes(todo) == old(dst.written) + Filter(old(held) + ([b] + todo))
      ensures dst.reliable ==> ok
      ensures old(dst.written) <= dst.written <= old(dst.written) + Filter(old(held) + ([b] + todo))
      ensures peakHeld <= MAX_STATEMENT_PREFIX
    {
      hide Decide, EncodedLen, Filter, BodyEnd, Unsettled;
      UnsettledIsShort(held);
      HeadStep(held, b, todo);
      ghost var goal := Filter(held + ([b] + todo));
      prefix := prefix + [b];
      held := held + [b];
      peakHeld := if |held| > peakHeld then |held| else peakHeld;
      assert prefix[..|prefix|] == prefix;
      var decision := Decide(prefix);
      if decision != Undecided {
        ok := Settle(decision == Skip, b, todo, goal);
        return;
      }
      if EncodedLen(prefix) >= MAX_STATEMENT_PREFIX {
        ok := Settle(false, b, todo, goal);
        return;
      }
      return true;
    }

    ghost predicate QuotesAgree()
      reads this
    {
      && !(inSingle && inDouble) && !(inSingle && inBacktick) && !(inDouble && inBacktick)
      && (escaped ==> inSingle || inDouble)
    }

    /** The quote bookkeeping at the end of the byte loop; true when the byte ends the statement. */
    method Advance(b: char) returns (ends: bool)
      requires QuotesAgree()
      modifies this`inSingle, this`inDouble, this`inBacktick, this`escaped
      ensures QuotesAgree()
      ensures ends == (old(Q()) == Plain && b == ';')
      ensures Q() == Lex(old(Q()), b)
    {
      ends := false;
      if inSingle || inDouble {
        if escaped {
          escaped := false;
        } else if b == '\\' {
          escaped := true;
        } else if inSingle && b == '\'' {
          inSingle := false;
        } else if inDouble && b == '"' {
          inDouble := false;
        }
      } else if inBacktick {
        if b == '`' { inBacktick := false; }
      } else {
        if b == '\'' {
          inSingle := true;
        } else if b == '"' {
          inDouble := true;
        } else if b == '`' {
          inBacktick := true;
        } else if b == ';' {
          ends := true;
        }
      }
    }

    /** A byte of a statement whose fate is known. */
    method FeedBody(b: char, ghost todo: string) returns (ok: bool)
      requires Valid() && inStatement && decisionMade
      modifies this, dst
      ensures ok ==> Valid() && dst.written + Owes(todo) == old(dst.written) + old(Owes([b] + todo))
      ensures dst.reliable ==> ok
      ensures old(dst.written) <= dst.written <= old(dst.written) + old(Owes([b] + todo))
      ensures peakHeld <= MAX_STATEMENT_PREFIX
    {
      hide Decide, EncodedLen, Filter, BodyEnd, Unsettled;
      BodyStep(Q(), b, todo);
      ghost var rest := if Q() == Plain && b == ';' then "" else todo[..BodyEnd(Lex(Q(), b), todo)];
      ghost var next := if Q() == Plain && b == ';' then Filter(todo) else Filter(todo[BodyEnd(Lex(Q(), b), todo)..]);
      assert Owes([b] + todo) == (if skipStatement then "" else [b] + rest) + next;
      Regroup(dst.written, [b], rest + next);
      assert ([b] + rest) + next == [b] + (rest + next);
      if !skipStatement {
        ok := dst.Flush(held);
        if !ok { return; }
        held := "";
        ok := dst.Write([b]);
        if !ok { return; }
      }
      assert dst.written + ((if skipStatement then "" else rest) + next) == old(dst.written) + old(Owes([b] + todo));
      var ends := Advance(b);
      if ends {
        assert (if skipStatement then "" else rest) + next == next;
        assert Lex(Plain, ';') == Plain;
        EndStatement();
      }
      return true;
    }

    /** The body of the byte loop. */
    method Feed(b: char, ghost todo: string) returns (ok: bool)
      requires Valid()
      modifies this, dst
      ensures ok ==> Valid() && dst.written + Owes(todo) == old(dst.written) + old(Owes([b] + todo))
      ensures dst.reliable ==> ok
      ensures old(dst.written) <= dst.written <= old(dst.written) + old(Owes([b] + todo))
      ensures peakHeld <= MAX_STATEMENT_PREFIX
    {
      hide Decide, EncodedLen, Filter, BodyEnd;
      var outside := !inSingle && !inDouble && !inBacktick;
      if outside && !inStatement {
        if Blank(b) {
          FilterBlank(b, todo);
          ok := dst.Write([b]);
          return;
        }
        inStatement := true;
        skipStatement := false;
        decisionMade := false;
        prefix := "";
        held := "";
        assert "" + ([b] + todo) == [b] + todo;
      }
      if inStatement && outside && !decisionMade { UnsettledIsShort(prefix); }
      if inStatement && outside && !decisionMade && EncodedLen(prefix) < MAX_STATEMENT_PREFIX {
        ok := FeedHead(b, todo);
      } else {
        ok := FeedBody(b, todo);
      }
    }

    /** What happens at the end of the file. */
    method Finish() returns (ok: bool)
      requires Valid()
      modifies this, dst
      ensures ok ==> dst.written == old(dst.written) + old(Owes(""))
      ensures dst.reliable ==> ok
      ensures old(dst.written) <= dst.written <= old(dst.written) + old(Owes(""))
    {
      hide Decide, EncodedLen;
      ok := true;
      assert held + "" == held;
      if inStatement && !decisionMade { FilterUnsettled(held); }
      if !skipStatement {
        ok := dst.Flush(held);
        held := "";
      }
    }

    /** One read. */
    method FeedAll(data: string, ghost later: string) returns (ok: bool)
      requires Valid()
      modifies this, dst
      ensures ok ==> Valid() && dst.written + Owes(later) == old(dst.written) + old(Owes(data + later))
      ensures dst.reliable ==> ok
      ensures old(dst.written) <= dst.written <= old(dst.written) + old(Owes(data + later))
      ensures peakHeld <= MAX_STATEMENT_PREFIX
    {
      hide *;
      ghost var total := dst.written + Owes(data + later);
      assert data[0..] + later == data + later;
      HoldsLittle();
      for i := 0 to |data|
        invariant Valid() && peakHeld <= MAX_STATEMENT_PREFIX
        invariant dst.written + Owes(data[i..] + later) == total
        invariant old(dst.written) <= dst.written
      {
        assert data[i..] + later == [data[i]] + (data[i + 1..] + later);
        ok := Feed(data[i], data[i + 1..] + later);
        if !ok { return; }
      }
      assert data[|data|..] + later == later;
      return true;
    }

    lemma HoldsLittle()
      requires Valid()
      ensures peakHeld <= MAX_STATEMENT_PREFIX
    {
    }
  }

  /** What is still to be read before read number `r`. */
  ghost function Unread(chunks: seq<string>, r: nat, last: string): string {
    if r <= |chunks| then Concat(chunks[r..]) + last else ""
  }

  lemma UnreadAtFirst(chunks: seq<string>, last: string)
    ensures Unread(chunks, 0, last) == Concat(chunks) + last
  {
    assert chunks[0..] == chunks;
  }

  lemma UnreadAtLast(chunks: seq<string>, last: string)
    ensures Unread(chunks, |chunks| + 1, last) == ""
  {
  }

  lemma UnreadNext(chunks: seq<string>, r: nat, last: string)
    requires r <= |chunks|
    ensures Unread(chunks, r, last) == (if r < |chunks| then chunks[r] else last) + Unread(chunks, r + 1, last)
  {
    if r < |chunks| {
      assert chunks[r..][1..] == chunks[r + 1..];
    } else {
      assert chunks[r..] == [];
    }
  }

  /** writeSanitizedRestoreSQL. The reader delivers `chunks` and then `last`, the latter together with the
      end of the file or, when `readFails`, with an error. However the input is cut into reads, what is
      written is what the batch filter leaves of it; a failing reader or sink leaves a prefix of that. */
  method WriteSanitized(dst: Sink, chunks: seq<string>, last: string, readFails: bool)
    returns (ok: bool, ghost peakHeld: nat)
    modifies dst
    ensures ok ==> !readFails && dst.written == old(dst.written) + Filter(Concat(chunks) + last)
    ensures dst.reliable && !readFails ==> ok
    ensures old(dst.written) <= dst.written <= old(dst.written) + Filter(Concat(chunks) + last)
    ensures peakHeld <= MAX_STATEMENT_PREFIX
  {
    hide Decide, EncodedLen, Filter, BodyEnd, Unsettled, Unread;
    var m := new Machine(dst);
    UnreadAtFirst(chunks, last);
    ghost var total := old(dst.written) + Filter(Concat(chunks) + last);
    var r := 0;
    while r <= |chunks|
      invariant r <= |chunks| + 1
      invariant m.dst == dst && fresh(m) && m.Valid()
      invariant dst.written + m.Owes(Unread(chunks, r, last)) == total
      invariant old(dst.written) <= dst.written
    {
      UnreadNext(chunks, r, last);
      var data := if r < |chunks| then chunks[r] else last;
      ok := m.FeedAll(data, Unread(chunks, r + 1, last));
      if !ok { return false, m.peakHeld; }
      r := r + 1;
    }
    UnreadAtLast(chunks, last);
    if readFails { return false, m.peakHeld; }
    peakHeld := m.peakHeld;
    ok := m.Finish();
  }
}
