/** The schema upgrade chain (database/upgrades.go): what one start-up may do to the database, stopped
    by an error or a crash at any statement, and what any sequence of start-ups amounts to. */
module Upgrades {
  import opened GoStrings

  datatype Option<T> = None | Some(value: T)

  /** A column, as (table, column). */
  type Column = (string, string)

  /** One step of an upgrade: ALTER TABLE … ADD COLUMN, CREATE TABLE IF NOT EXISTS, any other SQL statement,
      or the closing Go function with the columns it makes sure of, in tables the migrations have made. */
  datatype Step =
    | AddColumn(table: string, column: string)
    | CreateTable(table: string, columns: set<string>)
    | Other
    | Migrate(adds: set<Column>)

  /** `steps` lists the SQL statements in order, then the function if there is one. */
  datatype Upgrade = Upgrade(version: string, steps: seq<Step>)

  const BASELINE := "1.0.0"

  predicate HasTable(columns: set<Column>, table: string) {
    exists c :: c in columns && c.0 == table
  }

  /** The columns after a step is carried out. A table that exists is left as it is. */
  function Run(columns: set<Column>, s: Step): set<Column> {
    match s
    case AddColumn(t, c) => columns + {(t, c)}
    case CreateTable(t, cs) => if HasTable(columns, t) then columns else columns + set c | c in cs :: (t, c)
    case Other => columns
    case Migrate(adds) => columns + adds
  }

  /** The columns once the first `n` steps are carried out. */
  function StepsRun(columns: set<Column>, steps: seq<Step>, n: nat): set<Column>
    requires n <= |steps|
  {
    if n == 0 then columns else Run(StepsRun(columns, steps, n - 1), steps[n - 1])
  }

  /** The columns after the upgrades from `p` up to but not including `k`. */
  function ChainRun(columns: set<Column>, ups: seq<Upgrade>, p: nat, k: nat): set<Column>
    requires p <= k <= |ups|
    decreases k
  {
    if p == k then columns else StepsRun(ChainRun(columns, ups, p, k - 1), ups[k - 1].steps, |ups[k - 1].steps|)
  }

  /** Each of the first `n` steps can be carried out: no column is added to a missing table. */
  ghost predicate Feasible(columns: set<Column>, steps: seq<Step>, n: nat)
    requires n <= |steps|
  {
    forall i :: 0 <= i < n && steps[i].AddColumn? ==> HasTable(StepsRun(columns, steps, i), steps[i].table)
  }

  /** `done` steps were carried out on `before`; of a function that failed, some columns may be there. */
  ghost predicate PartlyRun(before: set<Column>, steps: seq<Step>, done: nat, after: set<Column>) {
    && done <= |steps| && Feasible(before, steps, done)
    && StepsRun(before, steps, done) <= after
    && after <= StepsRun(before, steps, if done < |steps| && steps[done].Migrate? then done + 1 else done)
  }

  /** LatestVersion. */
  function Latest(ups: seq<Upgrade>): string {
    if |ups| == 0 then BASELINE else ups[|ups| - 1].version
  }

  function FirstAlter(steps: seq<Step>): Option<Column> {
    if steps == [] then None
    else if steps[0].AddColumn? then Some((steps[0].table, steps[0].column))
    else FirstAlter(steps[1..])
  }

  /** newInstallCanary: the first added column of the last upgrade that adds one. */
  function Canary(ups: seq<Upgrade>): Option<Column> {
    if ups == [] then None
    else
      var c := FirstAlter(ups[|ups| - 1].steps);
      if c.Some? then c else Canary(ups[..|ups| - 1])
  }

  function Lower(s: string): string {
    if s == "" then "" else [if 'A' <= s[0] <= 'Z' then (s[0] as int + 32) as char else s[0]] + Lower(s[1..])
  }

  predicate IsBeta(v: string) {
    Contains(Lower(v), "beta")
  }

  /** One attempt at an upgrade: how many of its steps were carried out, and whether its version row was
      written. */
  datatype Attempt = Attempt(index: nat, done: nat, recorded: bool)

  /** `versions` are the rows of schema_version, oldest first (timestamps never decrease);
      `attempts` is the history of what was executed. */
  datatype Db = Db(versions: seq<string>, columns: set<Column>, attempts: seq<Attempt>)

  /** The latest row, or the empty string. */
  function Current(versions: seq<string>): string {
    if versions == [] then "" else versions[|versions| - 1]
  }

  function Find(ups: seq<Upgrade>, v: string): (r: nat)
    ensures r <= |ups|
    ensures r < |ups| ==> ups[r].version == v
    ensures forall i :: 0 <= i < r ==> ups[i].version != v
  {
    if ups == [] || ups[0].version == v then 0 else 1 + Find(ups[1..], v)
  }

  datatype Place = Unknown | At(next: nat)

  /** The index of the first upgrade still to run for a database at version `v`. */
  function PlaceOf(ups: seq<Upgrade>, v: string): (r: Place)
    ensures r.At? ==> r.next <= |ups|
  {
    if v == "" || v == BASELINE then At(0)
    else if Find(ups, v) < |ups| then At(Find(ups, v) + 1)
    else Unknown
  }

  predicate LooksFresh(ups: seq<Upgrade>, d: Db) {
    Current(d.versions) == "" && Canary(ups).Some? && Canary(ups).value in d.columns
  }

  /** The start-up knows what to do: the database is fresh, a beta, or at a version of the list. */
  predicate Known(ups: seq<Upgrade>, d: Db) {
    var v := Current(d.versions);
    LooksFresh(ups, d) || (v != "" && IsBeta(v)) || PlaceOf(ups, v).At?
  }

  function Versions(ups: seq<Upgrade>): seq<string> {
    if ups == [] then [] else [ups[0].version] + Versions(ups[1..])
  }

  function Completed(ups: seq<Upgrade>, p: nat, k: nat): seq<Attempt>
    requires p <= k <= |ups|
    decreases k
  {
    if p == k then [] else Completed(ups, p, k - 1) + [Attempt(k - 1, |ups[k - 1].steps|, true)]
  }

  /** The chain was entered at `p`; `p..k` were completed and recorded, and `done` steps of upgrade `k` were
      carried out. `tail` is the row written when no row was counted. */
  ghost predicate AppliedUpTo(ups: seq<Upgrade>, a: Db, p: nat, b: Db, ok: bool, k: nat, done: nat, tail: seq<string>) {
    && p <= k <= |ups|
    && (if k < |ups| then !ok && PartlyRun(ChainRun(a.columns, ups, p, k), ups[k].steps, done, b.columns)
        else b.columns == ChainRun(a.columns, ups, p, k))
    && (tail == [] || (k == |ups| && tail == [Latest(ups)]))
    && b.versions == a.versions + Versions(ups[p..k]) + tail
    && b.attempts == a.attempts + Completed(ups, p, k) + (if k < |ups| then [Attempt(k, done, false)] else [])
    && (ok ==> b.versions != [])
  }

  ghost predicate Applied(ups: seq<Upgrade>, a: Db, p: nat, b: Db, ok: bool) {
    exists k, done, tail :: AppliedUpTo(ups, a, p, b, ok, k, done, tail)
  }

  /** Everything one call of RunUpgrades can do: `ok` is a nil return; otherwise it returned an error or
      the process died. */
  ghost predicate Startup(ups: seq<Upgrade>, a: Db, b: Db, ok: bool) {
    || (!ok && b == a)
    || (if LooksFresh(ups, a) then
          ok && b == a.(versions := a.versions + [Latest(ups)])
        else if Current(a.versions) != "" && IsBeta(Current(a.versions)) then
          || (!ok && b == a.(versions := []))
          || Applied(ups, a.(versions := [BASELINE]), 0, b, ok)
        else
          var place := PlaceOf(ups, Current(a.versions));
          place.At? && Applied(ups, a, place.next, b, ok))
  }

  /** What the maintained list guarantees: distinct versions, none of them empty, the baseline or a beta. */
  ghost predicate WellFormed(ups: seq<Upgrade>) {
    && (forall i, j :: 0 <= i < j < |ups| ==> ups[i].version != ups[j].version)
    && (forall i :: 0 <= i < |ups| ==> ups[i].version != "" && ups[i].version != BASELINE && !IsBeta(ups[i].version))
    && !IsBeta(BASELINE)
  }

  // ---------- The runner ----------

  datatype Outcome = Fine | Error | Crash

  /** `reliable`: no statement fails and the process survives. */
  class Database {
    const reliable: bool
    var versions: seq<string>
    var columns: set<Column>
    ghost var attempts: seq<Attempt>

    ghost function View(): Db
      reads this
    {
      Db(versions, columns, attempts)
    }

    /** One statement sent to SQLite: it works, returns an error, or the process dies first. */
    method Call() returns (o: Outcome)
      ensures reliable ==> o == Fine
    {
      o := *;
      if reliable { o := Fine; }
    }

    /** Whether the step was carried out. A column that exists already is skipped and counts as done, a
        column of a missing table is an error, and a function that fails may have added some of its columns. */
    method RunStep(s: Step) returns (done: bool)
      modifies this`columns
      ensures done ==> columns == Run(old(columns), s) && (s.AddColumn? ==> HasTable(old(columns), s.table))
      ensures !done ==> old(columns) <= columns <= if s.Migrate? then Run(old(columns), s) else old(columns)
      ensures reliable && (s.AddColumn? ==> HasTable(old(columns), s.table)) ==> done
      // Told by the statement: a table that exists keeps its columns when it is created again.
      ensures s.Other? || (s.CreateTable? && HasTable(old(columns), s.table)) ==> columns == old(columns)
      ensures done && s.CreateTable? && !HasTable(old(columns), s.table) ==>
                columns == old(columns) + set c | c in s.columns :: (s.table, c)
      ensures done && s.AddColumn? ==> columns == old(columns) + {(s.table, s.column)}
      ensures done && s.Migrate? ==> columns == old(columns) + s.adds
    {
      var o := Call();
      if s.AddColumn? {
        if (s.table, s.column) in columns { return o == Fine; }
        if !HasTable(columns, s.table) { return false; }
      }
      done := o == Fine;
      if done {
        columns := Run(columns, s);
      } else if s.Migrate? {
        var part: set<Column> :| part <= Run(columns, s);
        columns := columns + part;
      }
    }

    /** The body of the upgrade loop for one entry. */
    method RunOne(ups: seq<Upgrade>, k: nat) returns (ok: bool, ghost done: nat)
      requires k < |ups|
      modifies this
      ensures PartlyRun(old(columns), ups[k].steps, done, columns)
      ensures ok ==> done == |ups[k].steps| && versions == old(versions) + [ups[k].version]
      ensures !ok ==> versions == old(versions)
      ensures attempts == old(attempts) + [Attempt(k, done, ok)]
      ensures reliable && AltersExist(ups[k].steps, old(columns)) ==> ok
    {
      hide Run;
      var steps := ups[k].steps;
      var j := 0;
      while j < |steps|
        invariant j <= |steps|
        invariant versions == old(versions) && attempts == old(attempts)
        invariant columns == StepsRun(old(columns), steps, j) && Feasible(old(columns), steps, j)
      {
        StepsRunKeepsTables(old(columns), steps, j);
        var fine := RunStep(steps[j]);
        if !fine {
          attempts := attempts + [Attempt(k, j, false)];
          return false, j;
        }
        j := j + 1;
      }
      var o := Call();
      if o != Fine {
        attempts := attempts + [Attempt(k, j, false)];
        return false, j;
      }
      versions := versions + [ups[k].version];
      attempts := attempts + [Attempt(k, j, true)];
      return true, j;
    }

    /** RunUpgrades. */
    method RunUpgrades(ups: seq<Upgrade>) returns (ok: bool)
      requires WellFormed(ups)
      modifies this
      ensures Startup(ups, old(View()), View(), ok)
      ensures ok ==> Known(ups, old(View()))
      ensures reliable && AllAltersExist(ups, old(columns)) ==> (ok <==> Known(ups, old(View())))
    {
      hide IsBeta;
      ghost var a := View();
      var o := Call();  // CREATE TABLE IF NOT EXISTS schema_version
      if o != Fine { return false; }
      o := Call();
      if o != Fine { return false; }
      var current := Current(versions);
      if current == "" && Canary(ups).Some? {
        o := Call();
        if o != Fine { return false; }
        if Canary(ups).value in columns {
          o := Call();
          if o != Fine { return false; }
          versions := versions + [Latest(ups)];
          return true;
        }
      }
      if current != "" && IsBeta(current) {
        o := Call();
        if o == Crash { return false; }
        if o == Fine {
          versions := [];
          o := Call();
          if o == Crash { return false; }
          if o == Fine {
            versions := [BASELINE];
            current := BASELINE;
          }
        }
      }
      if current != "" && current != BASELINE && current != Latest(ups) {
        var found := Find(ups, current) < |ups|;
        if !found { return false; }
      }
      ok := ApplyFrom(ups, current);
    }

    /** One entry of a chain entered at `p`. */
    method ApplyOne(ups: seq<Upgrade>, i: nat, ghost a: Db, ghost p: nat) returns (ok: bool)
      requires p <= i < |ups|
      requires versions == a.versions + Versions(ups[p..i])
      requires columns == ChainRun(a.columns, ups, p, i)
      requires attempts == a.attempts + Completed(ups, p, i)
      modifies this
      ensures ok ==> versions == a.versions + Versions(ups[p..i + 1])
      ensures ok ==> columns == ChainRun(a.columns, ups, p, i + 1)
      ensures ok ==> attempts == a.attempts + Completed(ups, p, i + 1)
      ensures !ok ==> Applied(ups, a, p, View(), false)
      ensures reliable && AltersExist(ups[i].steps, old(columns)) ==> ok
    {
      hide Versions, StepsRun, AltersExist;
      ghost var done;
      ok, done := RunOne(ups, i);
      if !ok {
        assert AppliedUpTo(ups, a, p, View(), false, i, done, []);
        return;
      }
      VersionsAppend(ups, p, i);
    }

    /** The loop over the list, starting after `current`, and the closing row count. */
    method ApplyFrom(ups: seq<Upgrade>, current: string) returns (ok: bool)
      requires current == Current(versions) || (current != "" && IsBeta(current))
      requires PlaceOf(ups, current).At?
      modifies this
      ensures Applied(ups, old(View()), PlaceOf(ups, current).next, View(), ok)
      ensures reliable && AllAltersExist(ups, old(columns)) ==> ok
    {
      hide IsBeta, Applied;
      ghost var p := PlaceOf(ups, current).next;
      ghost var a := View();
      var applied := current == "" || current == BASELINE;
      var i := 0;
      while i < |ups|
        invariant i <= |ups|
        invariant applied == (i >= p)
        invariant !applied ==> View() == a
        invariant applied ==> versions == a.versions + Versions(ups[p..i])
        invariant applied ==> columns == ChainRun(a.columns, ups, p, i)
        invariant applied ==> attempts == a.attempts + Completed(ups, p, i)
      {
        if !applied {
          if ups[i].version == current { applied := true; }
          i := i + 1;
          continue;
        }
        if AllAltersExist(ups, a.columns) { ChainRunKeepsTables(a.columns, ups, p, i); }
        ok := ApplyOne(ups, i, a, p);
        if !ok { return; }
        i := i + 1;
      }
      assert ups[p..] == ups[p..i];
      ok := RecordLatest(ups, a, p);
    }

    /** The closing row count: an empty table gets the latest version. */
    method RecordLatest(ups: seq<Upgrade>, ghost a: Db, ghost p: nat) returns (ok: bool)
      requires p <= |ups|
      requires versions == a.versions + Versions(ups[p..])
      requires columns == ChainRun(a.columns, ups, p, |ups|)
      requires attempts == a.attempts + Completed(ups, p, |ups|)
      modifies this
      ensures Applied(ups, a, p, View(), ok)
      ensures reliable ==> ok
    {
      hide Completed, ChainRun, Versions;
      assert ups[p..|ups|] == ups[p..];
      var o := Call();  // SELECT COUNT(*): an error leaves the count at zero
      if o == Crash {
        assert AppliedUpTo(ups, a, p, View(), false, |ups|, 0, []);
        return false;
      }
      var count := if o == Fine then |versions| else 0;
      if count == 0 {
        o := Call();
        if o != Fine {
          assert AppliedUpTo(ups, a, p, View(), false, |ups|, 0, []);
          return false;
        }
        versions := versions + [Latest(ups)];
        assert AppliedUpTo(ups, a, p, View(), true, |ups|, 0, [Latest(ups)]);
        return true;
      }
      assert AppliedUpTo(ups, a, p, View(), true, |ups|, 0, []);
      return true;
    }
  }

  /** Every table an ADD COLUMN of the steps needs exists. */
  ghost predicate AltersExist(steps: seq<Step>, columns: set<Column>) {
    forall i :: 0 <= i < |steps| && steps[i].AddColumn? ==> HasTable(columns, steps[i].table)
  }

  ghost predicate AllAltersExist(ups: seq<Upgrade>, columns: set<Column>) {
    forall k :: 0 <= k < |ups| ==> AltersExist(ups[k].steps, columns)
  }

  /** No step takes a column or a table away. */
  lemma {:induction false} StepsRunKeepsTables(columns: set<Column>, steps: seq<Step>, n: nat)
    requires n <= |steps|
    ensures columns <= StepsRun(columns, steps, n)
    ensures forall t :: HasTable(columns, t) ==> HasTable(StepsRun(columns, steps, n), t)
    decreases n
  {
    if n > 0 { StepsRunKeepsTables(columns, steps, n - 1); }
  }

  lemma {:induction false} ChainRunKeepsTables(columns: set<Column>, ups: seq<Upgrade>, p: nat, k: nat)
    requires p <= k <= |ups|
    ensures columns <= ChainRun(columns, ups, p, k)
    ensures forall t :: HasTable(columns, t) ==> HasTable(ChainRun(columns, ups, p, k), t)
    decreases k
  {
    hide StepsRun;
    if p < k {
      ChainRunKeepsTables(columns, ups, p, k - 1);
      StepsRunKeepsTables(ChainRun(columns, ups, p, k - 1), ups[k - 1].steps, |ups[k - 1].steps|);
    }
  }

  lemma {:induction false} VersionsConcat(xs: seq<Upgrade>, ys: seq<Upgrade>)
    ensures Versions(xs + ys) == Versions(xs) + Versions(ys)
  {
    if xs == [] {
      assert xs + ys == ys;
    } else {
      assert (xs + ys)[1..] == xs[1..] + ys;
      assert Versions(xs + ys) == [xs[0].version] + Versions(xs[1..] + ys);
      assert Versions(xs) == [xs[0].version] + Versions(xs[1..]);
      hide Versions;
      VersionsConcat(xs[1..], ys);
    }
  }

  lemma VersionsAppend(ups: seq<Upgrade>, p: nat, i: nat)
    requires p <= i < |ups|
    ensures Versions(ups[p..i + 1]) == Versions(ups[p..i]) + [ups[i].version]
  {
    assert ups[p..i + 1] == ups[p..i] + [ups[i]];
    VersionsConcat(ups[p..i], [ups[i]]);
    assert [ups[i]][1..] == [];
  }
}
