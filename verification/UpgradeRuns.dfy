/** Runs of the schema upgrade chain: any sequence of start-ups, each stopped anywhere or completed
    (database/upgrades.go). */
module UpgradeRuns {
  import opened GoStrings
  import opened Upgrades

  /** CREATE TABLE IF NOT EXISTS for the tables `part` of the current schema; existing tables stay. */
  function Made(schema: set<Column>, part: set<string>, columns: set<Column>): set<Column> {
    columns + set c | c in schema && c.0 in part && !HasTable(columns, c.0)
  }

  /** RunMigrations, which every start-up runs first, carried to its end. */
  function Migrated(schema: set<Column>, columns: set<Column>): set<Column> {
    columns + set c | c in schema && !HasTable(columns, c.0)
  }

  /** One start of the panel: stopped during the migrations, or on to the upgrades. */
  ghost predicate PanelStart(schema: set<Column>, ups: seq<Upgrade>, a: Db, b: Db, ok: bool) {
    || (!ok && exists part :: b == a.(columns := Made(schema, part, a.columns)))
    || Startup(ups, a.(columns := Migrated(schema, a.columns)), b, ok)
  }

  /** At its next start-up the installation is taken for a fresh one. */
  predicate Mistaken(schema: set<Column>, ups: seq<Upgrade>, d: Db) {
    LooksFresh(ups, d.(columns := Migrated(schema, d.columns)))
  }

  ghost predicate IsRun(schema: set<Column>, ups: seq<Upgrade>, trace: seq<Db>, oks: seq<bool>) {
    && |trace| == |oks| + 1
    && forall i :: 0 <= i < |oks| ==> PanelStart(schema, ups, trace[i], trace[i + 1], oks[i])
  }

  /** How many of the first `n` steps can be carried out before one adds a column to a missing table. */
  function Doable(columns: set<Column>, steps: seq<Step>, n: nat): (m: nat)
    requires n <= |steps|
    ensures m <= n
  {
    if n == 0 then 0
    else
      var m := Doable(columns, steps, n - 1);
      if m == n - 1 && (steps[m].AddColumn? ==> HasTable(StepsRun(columns, steps, m), steps[m].table)) then n else m
  }

  /** The columns the first upgrade can reach from `columns`. */
  function FirstReaches(ups: seq<Upgrade>, columns: set<Column>): set<Column> {
    if ups == [] then columns else StepsRun(columns, ups[0].steps, Doable(columns, ups[0].steps, |ups[0].steps|))
  }

  /** Neither the migrations nor the first upgrade make the canary column. */
  predicate CanarySafe(schema: set<Column>, ups: seq<Upgrade>, columns: set<Column>) {
    Canary(ups).Some? ==> Canary(ups).value !in FirstReaches(ups, Migrated(schema, columns))
  }

  /** An existing installation whose first pending upgrade is `p`. When no version row will say so (there is
      none, or it is a beta row about to be replaced), the canary column must stay away. */
  ghost predicate Legacy(schema: set<Column>, ups: seq<Upgrade>, d: Db, p: nat) {
    var v := Current(d.versions);
    && (v == "" ==> d.versions == [])
    && (if v != "" && IsBeta(v) then p == 0 else PlaceOf(ups, v) == At(p))
    && (v == "" || IsBeta(v) ==> CanarySafe(schema, ups, d.columns))
  }

  /** What a completed step leaves: its column, its table, or its function's columns. */
  predicate Delivered(columns: set<Column>, s: Step) {
    match s
    case AddColumn(t, c) => (t, c) in columns
    case CreateTable(t, cs) => cs != {} ==> HasTable(columns, t)
    case Other => true
    case Migrate(adds) => adds <= columns
  }

  ghost predicate AllDelivered(columns: set<Column>, ups: seq<Upgrade>, p: nat, k: nat)
    requires k <= |ups|
  {
    forall i, j :: p <= i < k && 0 <= j < |ups[i].steps| ==> Delivered(columns, ups[i].steps[j])
  }

  /** The attempts at upgrades made since the start: in list order from `p`, moving on exactly when an
      attempt was recorded, and recorded only when every step was carried out; `k` is next. */
  ghost predicate History(ups: seq<Upgrade>, p: nat, k: nat, h: seq<Attempt>) {
    && p <= k <= |ups|
    && (forall i :: 0 <= i < |h| ==> Proper(ups, h[i]))
    && (forall i :: 0 < i < |h| ==> h[i].index == After(h[i - 1]))
    && (if h == [] then k == p else h[0].index == p && k == After(h[|h| - 1]))
  }

  ghost predicate Proper(ups: seq<Upgrade>, a: Attempt) {
    a.index < |ups| && a.done <= |ups[a.index].steps| && (a.recorded ==> a.done == |ups[a.index].steps|)
  }

  function After(a: Attempt): nat {
    if a.recorded then a.index + 1 else a.index
  }

  function Recorded(h: seq<Attempt>): seq<nat> {
    if h == [] then []
    else Recorded(h[..|h| - 1]) + if h[|h| - 1].recorded then [h[|h| - 1].index] else []
  }

  function Range(p: nat, k: nat): seq<nat>
    requires p <= k
    decreases k
  {
    if p == k then [] else Range(p, k - 1) + [k - 1]
  }

  lemma HistoryAppend(ups: seq<Upgrade>, p: nat, k: nat, h: seq<Attempt>, a: Attempt)
    requires History(ups, p, k, h) && Proper(ups, a) && a.index == k
    ensures History(ups, p, After(a), h + [a])
  {
  }

  lemma {:induction false} HistoryCompleted(ups: seq<Upgrade>, p: nat, h: seq<Attempt>, j: nat, k: nat)
    requires History(ups, p, j, h) && j <= k <= |ups|
    ensures History(ups, p, k, h + Completed(ups, j, k))
    decreases k
  {
    if j == k {
      assert h + [] == h;
    } else {
      HistoryCompleted(ups, p, h, j, k - 1);
      var a := Attempt(k - 1, |ups[k - 1].steps|, true);
      HistoryAppend(ups, p, k - 1, h + Completed(ups, j, k - 1), a);
      assert h + Completed(ups, j, k) == h + Completed(ups, j, k - 1) + [a];
    }
  }

  /** The upgrades recorded are exactly those from the starting point up to the next one, in order. */
  lemma {:induction false} RecordedInOrder(ups: seq<Upgrade>, p: nat, k: nat, h: seq<Attempt>)
    requires History(ups, p, k, h)
    ensures Recorded(h) == Range(p, k)
    decreases |h|
  {
    if h != [] {
      var h' := h[..|h| - 1];
      var last := h[|h| - 1];
      var k' := if h' == [] then p else After(h'[|h'| - 1]);
      assert last.index == k';
      IndexFromStart(ups, p, k, h, |h| - 1);
      assert History(ups, p, k', h');
      RecordedInOrder(ups, p, k', h');
    }
  }

  lemma {:induction false} IndexFromStart(ups: seq<Upgrade>, p: nat, k: nat, h: seq<Attempt>, i: nat)
    requires History(ups, p, k, h) && i < |h|
    ensures p <= h[i].index
    decreases i
  {
    if i > 0 { IndexFromStart(ups, p, k, h, i - 1); }
  }

  /** A recorded upgrade is never attempted again. */
  lemma {:induction false} RecordedNeverRunsAgain(ups: seq<Upgrade>, p: nat, k: nat, h: seq<Attempt>, i: nat, j: nat)
    requires History(ups, p, k, h) && i < j < |h|
    ensures h[i].index <= h[j].index
    ensures h[i].recorded ==> h[i].index < h[j].index
    decreases j
  {
    if i + 1 < j { RecordedNeverRunsAgain(ups, p, k, h, i, j - 1); }
  }

  // ---------- The invariant of a run ----------

  /** `d` has `k` as its next upgrade, having been entered at `p` from `s`. */
  ghost predicate Holds(schema: set<Column>, ups: seq<Upgrade>, s: Db, p: nat, d: Db, k: nat, h: seq<Attempt>) {
    && Legacy(schema, ups, d, k)
    && d.attempts == s.attempts + h
    && History(ups, p, k, h)
    && s.columns <= d.columns && AllDelivered(d.columns, ups, p, k)
  }

  lemma {:induction false} FindUnique(ups: seq<Upgrade>, i: nat)
    requires WellFormed(ups) && i < |ups|
    ensures Find(ups, ups[i].version) == i
  {
    var r := Find(ups, ups[i].version);
    assert r <= i;
  }

  /** Every version row the chain writes places the database right after that upgrade. */
  lemma PlaceAfter(ups: seq<Upgrade>, k: nat)
    requires WellFormed(ups) && 0 < k <= |ups|
    ensures PlaceOf(ups, ups[k - 1].version) == At(k)
  {
    FindUnique(ups, k - 1);
  }

  lemma {:induction false} VersionsLast(ups: seq<Upgrade>, p: nat, k: nat)
    requires p < k <= |ups|
    ensures Versions(ups[p..k]) != [] && Current(Versions(ups[p..k])) == ups[k - 1].version
  {
    VersionsAppend(ups, p, k - 1);
  }

  // ---------- What the steps leave ----------

  lemma DeliveredMore(columns: set<Column>, more: set<Column>, s: Step)
    requires Delivered(columns, s) && columns <= more
    ensures Delivered(more, s)
  {
  }

  lemma {:induction false} StepsDeliver(columns: set<Column>, steps: seq<Step>, n: nat)
    requires n <= |steps|
    ensures forall j :: 0 <= j < n ==> Delivered(StepsRun(columns, steps, n), steps[j])
    decreases n
  {
    if n > 0 {
      StepsDeliver(columns, steps, n - 1);
      var before, after := StepsRun(columns, steps, n - 1), StepsRun(columns, steps, n);
      RunDelivers(before, steps[n - 1]);
      forall j | 0 <= j < n - 1 ensures Delivered(after, steps[j]) { DeliveredMore(before, after, steps[j]); }
    }
  }

  lemma RunDelivers(columns: set<Column>, s: Step)
    ensures Delivered(Run(columns, s), s) && columns <= Run(columns, s)
  {
    if s.CreateTable? && s.columns != {} && !HasTable(columns, s.table) {
      var c :| c in s.columns;
      assert (s.table, c) in Run(columns, s);
    }
  }

  /** The step names the column to add. */
  predicate Adds(s: Step, c: Column) {
    (s.AddColumn? && c == (s.table, s.column)) || (s.Migrate? && c in s.adds)
  }

  lemma {:induction false} TableAfterSteps(columns: set<Column>, steps: seq<Step>, n: nat, c: Column)
    requires n <= |steps| && HasTable(columns, c.0)
    ensures HasTable(StepsRun(columns, steps, n), c.0)
    ensures c in StepsRun(columns, steps, n) <==> c in columns || exists j :: 0 <= j < n && Adds(steps[j], c)
    decreases n
  {
    if n > 0 {
      hide StepsRun, HasTable;
      TableAfterSteps(columns, steps, n - 1, c);
      OneStepAdds(columns, steps, n, c);
    }
  }

  lemma OneStepAdds(columns: set<Column>, steps: seq<Step>, n: nat, c: Column)
    requires 0 < n <= |steps| && HasTable(StepsRun(columns, steps, n - 1), c.0)
    ensures HasTable(StepsRun(columns, steps, n), c.0)
    ensures c in StepsRun(columns, steps, n) <==> c in StepsRun(columns, steps, n - 1) || Adds(steps[n - 1], c)
  {
    var before := StepsRun(columns, steps, n - 1);
    RunDelivers(before, steps[n - 1]);
    var e :| e in before && e.0 == c.0;
    assert e in Run(before, steps[n - 1]);
  }

  /** A table that exists gets from a chain of upgrades exactly the columns that its steps name: creating the
      table again adds nothing. */
  lemma {:induction false} TableAfterChain(columns: set<Column>, ups: seq<Upgrade>, p: nat, k: nat, c: Column)
    requires p <= k <= |ups| && HasTable(columns, c.0)
    ensures HasTable(ChainRun(columns, ups, p, k), c.0)
    ensures c in ChainRun(columns, ups, p, k) <==>
            c in columns
            || exists i, j :: p <= i < k && 0 <= j < |ups[i].steps| && Adds(ups[i].steps[j], c)
    decreases k
  {
    if p < k {
      hide StepsRun, HasTable, Adds;
      TableAfterChain(columns, ups, p, k - 1, c);
      var before, steps := ChainRun(columns, ups, p, k - 1), ups[k - 1].steps;
      TableAfterSteps(before, steps, |steps|, c);
      if j :| 0 <= j < |steps| && Adds(steps[j], c) { assert Adds(ups[k - 1].steps[j], c); }
    }
  }

  lemma AllDeliveredMore(columns: set<Column>, more: set<Column>, ups: seq<Upgrade>, p: nat, k: nat)
    requires k <= |ups| && AllDelivered(columns, ups, p, k) && columns <= more
    ensures AllDelivered(more, ups, p, k)
  {
    forall i, j | p <= i < k && 0 <= j < |ups[i].steps| ensures Delivered(more, ups[i].steps[j]) {
      DeliveredMore(columns, more, ups[i].steps[j]);
    }
  }

  lemma {:induction false} ChainDelivers(columns: set<Column>, ups: seq<Upgrade>, p: nat, k: nat)
    requires p <= k <= |ups|
    ensures AllDelivered(ChainRun(columns, ups, p, k), ups, p, k)
    decreases k
  {
    hide Delivered, StepsRun;
    if p < k {
      var before, steps := ChainRun(columns, ups, p, k - 1), ups[k - 1].steps;
      ChainDelivers(columns, ups, p, k - 1);
      StepsRunKeepsTables(before, steps, |steps|);
      AllDeliveredMore(before, ChainRun(columns, ups, p, k), ups, p, k - 1);
      StepsDeliver(before, steps, |steps|);
    }
  }

  // ---------- The canary over repeated attempts ----------

  ghost predicate MoreTables(a: set<Column>, b: set<Column>) {
    forall t :: HasTable(a, t) ==> HasTable(b, t)
  }

  /** Running the same step with more tables there adds nothing that it did not add before. */
  lemma RunAgain(a: set<Column>, b: set<Column>, extra: set<Column>, s: Step)
    requires MoreTables(a, b) && b <= a + extra
    ensures MoreTables(Run(a, s), Run(b, s)) && Run(b, s) <= Run(a, s) + extra
  {
    forall t | HasTable(Run(a, s), t) ensures HasTable(Run(b, s), t) {
      var c :| c in Run(a, s) && c.0 == t;
      if c in a {
        assert HasTable(a, t);
        var e :| e in b && e.0 == t;
        assert e in Run(b, s);
      } else if s.CreateTable? {
        if HasTable(b, t) {
          var e :| e in b && e.0 == t;
          assert e in Run(b, s);
        } else {
          assert c in Run(b, s);
        }
      } else {
        assert c in Run(b, s);
      }
    }
    if s.CreateTable? && !HasTable(b, s.table) { assert !HasTable(a, s.table); }
  }

  lemma {:induction false} StepsRunAgain(a: set<Column>, b: set<Column>, extra: set<Column>, steps: seq<Step>, n: nat)
    requires n <= |steps| && MoreTables(a, b) && b <= a + extra
    ensures MoreTables(StepsRun(a, steps, n), StepsRun(b, steps, n))
    ensures StepsRun(b, steps, n) <= StepsRun(a, steps, n) + extra
    decreases n
  {
    hide Run;
    if n > 0 {
      StepsRunAgain(a, b, extra, steps, n - 1);
      RunAgain(StepsRun(a, steps, n - 1), StepsRun(b, steps, n - 1), extra, steps[n - 1]);
    }
  }

  lemma {:induction false} DoableIsFeasible(columns: set<Column>, steps: seq<Step>, n: nat)
    requires n <= |steps|
    ensures Feasible(columns, steps, Doable(columns, steps, n))
    ensures forall d: nat :: d <= n && Feasible(columns, steps, d) ==> d <= Doable(columns, steps, n)
    decreases n
  {
    hide StepsRun, HasTable;
    if n > 0 {
      DoableIsFeasible(columns, steps, n - 1);
      forall d: nat | d <= n && Feasible(columns, steps, d) ensures d <= Doable(columns, steps, n) {
        if d == n {
          assert Feasible(columns, steps, n - 1);
        }
      }
    }
  }

  lemma {:induction false} StepsRunGrows(columns: set<Column>, steps: seq<Step>, n: nat, m: nat)
    requires n <= m <= |steps|
    ensures StepsRun(columns, steps, n) <= StepsRun(columns, steps, m)
    decreases m
  {
    if n < m { StepsRunGrows(columns, steps, n, m - 1); }
  }

  /** An interrupted attempt stays within what the steps can reach. */
  lemma PartlyReached(before: set<Column>, steps: seq<Step>, done: nat, after: set<Column>)
    requires PartlyRun(before, steps, done, after)
    ensures before <= after <= StepsRun(before, steps, Doable(before, steps, |steps|))
  {
    hide StepsRun, HasTable;
    var d := Doable(before, steps, |steps|);
    DoableIsFeasible(before, steps, |steps|);
    StepsRunKeepsTables(before, steps, done);
    if done < |steps| && steps[done].Migrate? {
      assert Feasible(before, steps, done + 1);
      StepsRunGrows(before, steps, done + 1, d);
    } else {
      StepsRunGrows(before, steps, done, d);
    }
  }

  /** The next version row after upgrades `j..k` were applied. */
  lemma CurrentAfter(ups: seq<Upgrade>, versions: seq<string>, j: nat, k: nat, tail: seq<string>)
    requires WellFormed(ups) && j <= k <= |ups|
    requires tail == [] || (k == |ups| && tail == [Latest(ups)])
    requires Current(versions) == "" ==> versions == []
    requires PlaceOf(ups, Current(versions)) == At(j)
    ensures var after := versions + Versions(ups[j..k]) + tail;
            && PlaceOf(ups, Current(after)) == At(k)
            && (Current(after) == "" ==> after == [])
            && (Current(after) == "" || IsBeta(Current(after)) ==> Current(after) == Current(versions) && j == k)
            && (k == |ups| && after != [] ==>
               Current(after) == Latest(ups) || (j == k && Current(after) == Current(versions)))
  {
    hide IsBeta, PlaceOf, Versions, WellFormed, Latest, Current;
    var more := Versions(ups[j..k]);
    LatestIsPlaced(ups);
    CurrentLast(versions, more, tail);
    if tail == [] {
      if j < k {
        VersionsLast(ups, j, k);
        EntryPlace(ups, k);
      } else {
        NoVersions(ups, j);
      }
    }
  }

  lemma NoVersions(ups: seq<Upgrade>, j: nat)
    requires j <= |ups|
    ensures Versions(ups[j..j]) == []
  {
  }

  lemma CurrentLast(versions: seq<string>, more: seq<string>, tail: seq<string>)
    ensures var after := versions + more + tail;
            if tail != [] then after != [] && Current(after) == tail[|tail| - 1]
            else if more != [] then after != [] && Current(after) == Current(more)
            else after == versions
  {
  }

  lemma EntryPlace(ups: seq<Upgrade>, k: nat)
    requires WellFormed(ups) && 0 < k <= |ups|
    ensures var v := ups[k - 1].version;
            PlaceOf(ups, v) == At(k) && v != "" && !IsBeta(v) && (k == |ups| ==> v == Latest(ups))
  {
    hide IsBeta, Find;
    PlaceAfter(ups, k);
  }

  lemma LatestIsPlaced(ups: seq<Upgrade>)
    requires WellFormed(ups)
    ensures PlaceOf(ups, Latest(ups)) == At(|ups|) && Latest(ups) != "" && !IsBeta(Latest(ups))
  {
    hide IsBeta, Find;
    if |ups| > 0 { EntryPlace(ups, |ups|); }
  }

  lemma AppliedHistory(ups: seq<Upgrade>, p: nat, j: nat, h: seq<Attempt>, k: nat, done: nat)
    returns (g: seq<Attempt>)
    requires History(ups, p, j, h) && j <= k <= |ups| && (k < |ups| ==> done <= |ups[k].steps|)
    ensures g == Completed(ups, j, k) + if k < |ups| then [Attempt(k, done, false)] else []
    ensures History(ups, p, k, h + g)
  {
    hide History, Completed;
    HistoryCompleted(ups, p, h, j, k);
    g := Completed(ups, j, k);
    if k < |ups| {
      var last := Attempt(k, done, false);
      HistoryAppend(ups, p, k, h + g, last);
      assert h + (g + [last]) == h + g + [last];
      g := g + [last];
    } else {
      assert g + [] == g;
    }
  }

  /** The migrations have nothing left to do. */
  ghost predicate Complete(schema: set<Column>, columns: set<Column>) {
    forall c :: c in schema ==> HasTable(columns, c.0)
  }

  lemma MigratedIsComplete(schema: set<Column>, columns: set<Column>)
    ensures Complete(schema, Migrated(schema, columns)) && columns <= Migrated(schema, columns)
    ensures Migrated(schema, Migrated(schema, columns)) == Migrated(schema, columns)
  {
    var m := Migrated(schema, columns);
    forall c | c in schema ensures HasTable(m, c.0) {
      if HasTable(columns, c.0) {
        var e :| e in columns && e.0 == c.0;
        assert e in m;
      } else {
        assert c in m;
      }
    }
  }

  lemma CompleteStays(schema: set<Column>, columns: set<Column>, more: set<Column>)
    requires Complete(schema, columns) && columns <= more
    ensures Complete(schema, more) && Migrated(schema, more) == more
  {
    forall c | c in schema ensures HasTable(more, c.0) {
      var e :| e in columns && e.0 == c.0;
      assert e in more;
    }
  }

  /** Migrations stopped on the way are made up for by the next start. */
  lemma MadeThenMigrated(schema: set<Column>, part: set<string>, columns: set<Column>)
    ensures Migrated(schema, Made(schema, part, columns)) == Migrated(schema, columns)
  {
    var m := Made(schema, part, columns);
    forall c | c in schema ensures HasTable(m, c.0) <==> HasTable(columns, c.0) || c.0 in part {
      if HasTable(columns, c.0) {
        var e :| e in columns && e.0 == c.0;
        assert e in m;
      } else if c.0 in part {
        assert c in m;
      }
    }
  }

  /** An interrupted first upgrade cannot get further in a later attempt. */
  lemma StuckAgain(a: set<Column>, b: set<Column>, steps: seq<Step>)
    requires a <= b <= StepsRun(a, steps, Doable(a, steps, |steps|)) && MoreTables(a, b)
    ensures StepsRun(b, steps, Doable(b, steps, |steps|)) <= StepsRun(a, steps, Doable(a, steps, |steps|))
  {
    hide StepsRun;
    var n, d := Doable(a, steps, |steps|), Doable(b, steps, |steps|);
    DoableIsFeasible(a, steps, |steps|);
    DoableIsFeasible(b, steps, |steps|);
    StepsRunAgain(a, b, b, steps, n);
    SubsetTables(StepsRun(b, steps, n), StepsRun(a, steps, n));
    assert n < d ==> Feasible(a, steps, n + 1);
    StepsRunAgain(a, b, b, steps, d);
    StepsRunGrows(a, steps, d, n);
  }

  lemma AttemptIsSafe(schema: set<Column>, ups: seq<Upgrade>, a: set<Column>, done: nat, b: set<Column>)
    requires ups != [] && Complete(schema, a) && PartlyRun(a, ups[0].steps, done, b)
    requires CanarySafe(schema, ups, a)
    ensures CanarySafe(schema, ups, b)
  {
    hide StepsRun, Doable, Canary;
    CompleteStays(schema, a, a);
    PartlyReached(a, ups[0].steps, done, b);
    CompleteStays(schema, a, b);
    SubsetTables(a, b);
    StuckAgain(a, b, ups[0].steps);
  }

  lemma SubsetTables(a: set<Column>, b: set<Column>)
    requires a <= b
    ensures MoreTables(a, b)
  {
    forall t | HasTable(a, t) ensures HasTable(b, t) {
      var c :| c in a && c.0 == t;
      assert c in b;
    }
  }

  lemma AppliedColumns(ups: seq<Upgrade>, a: Db, j: nat, b: Db, ok: bool, k: nat, done: nat, tail: seq<string>)
    requires AppliedUpTo(ups, a, j, b, ok, k, done, tail)
    ensures ChainRun(a.columns, ups, j, k) <= b.columns && a.columns <= b.columns
  {
    hide StepsRun;
    ChainRunKeepsTables(a.columns, ups, j, k);
    if k < |ups| { StepsRunKeepsTables(ChainRun(a.columns, ups, j, k), ups[k].steps, done); }
  }

  lemma AppliedDelivers(ups: seq<Upgrade>, p: nat, a: Db, j: nat, b: Db, ok: bool, k: nat, done: nat, tail: seq<string>)
    requires AppliedUpTo(ups, a, j, b, ok, k, done, tail) && AllDelivered(a.columns, ups, p, j)
    ensures AllDelivered(b.columns, ups, p, k)
  {
    hide Delivered;
    AppliedColumns(ups, a, j, b, ok, k, done, tail);
    AllDeliveredMore(a.columns, b.columns, ups, p, j);
    ChainDelivers(a.columns, ups, j, k);
    AllDeliveredMore(ChainRun(a.columns, ups, j, k), b.columns, ups, j, k);
  }

  lemma AppliedIsSafe(schema: set<Column>, ups: seq<Upgrade>, a: Db, b: Db, ok: bool, done: nat, tail: seq<string>)
    requires AppliedUpTo(ups, a, 0, b, ok, 0, done, tail)
    requires Complete(schema, a.columns) && CanarySafe(schema, ups, a.columns)
    ensures CanarySafe(schema, ups, b.columns)
  {
    hide StepsRun, FirstReaches;
    if ups == [] {
      assert Canary(ups).None?;
    } else {
      hide Canary, CanarySafe;
      AttemptIsSafe(schema, ups, a.columns, done, b.columns);
    }
  }

  lemma AppliedKeeps(schema: set<Column>, ups: seq<Upgrade>, s: Db, p: nat, a: Db, j: nat, h: seq<Attempt>, b: Db,
      ok: bool)
    returns (k: nat, g: seq<Attempt>)
    requires WellFormed(ups) && Complete(schema, a.columns)
    requires Holds(schema, ups, s, p, a, j, h)
    requires !(Current(a.versions) != "" && IsBeta(Current(a.versions)))
    requires Applied(ups, a, j, b, ok)
    ensures Holds(schema, ups, s, p, b, k, h + g)
    ensures ok ==> k == |ups| && Current(b.versions) == Latest(ups)
  {
    hide IsBeta, History, Completed, Canary, ChainRun, StepsRun, Versions, PlaceOf, Latest, CanarySafe,
         AllDelivered, Complete, PartlyRun;
    var done, tail;
    k, done, tail :| AppliedUpTo(ups, a, j, b, ok, k, done, tail);
    assert j <= k <= |ups| by { assert AppliedUpTo(ups, a, j, b, ok, k, done, tail); }
    CurrentAfter(ups, a.versions, j, k, tail);
    DoneIsBounded(ups, a, j, b, ok, k, done, tail);
    g := AppliedHistory(ups, p, j, h, k, done);
    assert b.attempts == s.attempts + (h + g);
    AppliedColumns(ups, a, j, b, ok, k, done, tail);
    AppliedDelivers(ups, p, a, j, b, ok, k, done, tail);
    if Current(b.versions) == "" {
      PlaceOfEmpty(ups);
      AppliedIsSafe(schema, ups, a, b, ok, done, tail);
    }
    if ok && Current(b.versions) != Latest(ups) {
      LatestPlace(ups, Current(b.versions));
    }
  }

  lemma DoneIsBounded(ups: seq<Upgrade>, a: Db, j: nat, b: Db, ok: bool, k: nat, done: nat, tail: seq<string>)
    requires AppliedUpTo(ups, a, j, b, ok, k, done, tail)
    ensures k < |ups| ==> done <= |ups[k].steps|
  {
  }

  lemma PlaceOfEmpty(ups: seq<Upgrade>)
    ensures PlaceOf(ups, "") == At(0)
  {
  }

  lemma LatestPlace(ups: seq<Upgrade>, v: string)
    requires PlaceOf(ups, v) == At(|ups|) && v != ""
    ensures v == Latest(ups)
  {
  }

  lemma MigratedKeeps(schema: set<Column>, ups: seq<Upgrade>, s: Db, p: nat, d: Db, k: nat, h: seq<Attempt>)
    requires Holds(schema, ups, s, p, d, k, h)
    ensures Holds(schema, ups, s, p, d.(columns := Migrated(schema, d.columns)), k, h)
    ensures Complete(schema, Migrated(schema, d.columns))
  {
    hide IsBeta, Delivered, FirstReaches;
    MigratedIsComplete(schema, d.columns);
    AllDeliveredMore(d.columns, Migrated(schema, d.columns), ups, p, k);
  }

  lemma MadeKeeps(schema: set<Column>, part: set<string>, ups: seq<Upgrade>, s: Db, p: nat, d: Db, k: nat,
      h: seq<Attempt>)
    requires Holds(schema, ups, s, p, d, k, h)
    ensures Holds(schema, ups, s, p, d.(columns := Made(schema, part, d.columns)), k, h)
  {
    hide IsBeta, Delivered, FirstReaches;
    MadeThenMigrated(schema, part, d.columns);
    AllDeliveredMore(d.columns, Made(schema, part, d.columns), ups, p, k);
  }

  /** A database that can be told from a fresh one is. */
  lemma LegacyIsNotMistaken(schema: set<Column>, ups: seq<Upgrade>, d: Db, k: nat)
    requires Legacy(schema, ups, d, k)
    ensures !Mistaken(schema, ups, d)
  {
    hide IsBeta, StepsRun, Doable, Canary;
    if Current(d.versions) == "" && ups != [] {
      var m := Migrated(schema, d.columns);
      StepsRunKeepsTables(m, ups[0].steps, Doable(m, ups[0].steps, |ups[0].steps|));
    }
  }

  lemma StartKeeps(schema: set<Column>, ups: seq<Upgrade>, s: Db, p: nat, a: Db, j: nat, h: seq<Attempt>, b: Db,
      ok: bool)
    returns (k: nat, g: seq<Attempt>)
    requires WellFormed(ups)
    requires Holds(schema, ups, s, p, a, j, h) && PanelStart(schema, ups, a, b, ok)
    ensures Holds(schema, ups, s, p, b, k, h + g)
    ensures ok ==> k == |ups| && Current(b.versions) == Latest(ups)
  {
    hide IsBeta, CanarySafe, Complete, AllDelivered, History;
    k, g := j, [];
    assert h + [] == h;
    if !ok && exists part :: b == a.(columns := Made(schema, part, a.columns)) {
      var part :| b == a.(columns := Made(schema, part, a.columns));
      MadeKeeps(schema, part, ups, s, p, a, j, h);
      return;
    }
    MigratedKeeps(schema, ups, s, p, a, j, h);
    LegacyIsNotMistaken(schema, ups, a, j);
    var m := a.(columns := Migrated(schema, a.columns));
    if ok || b != m {
      var v := Current(m.versions);
      if v != "" && IsBeta(v) {
        if !(!ok && b == m.(versions := [])) {
          var n := m.(versions := [BASELINE]);
          assert Holds(schema, ups, s, p, n, 0, h);
          k, g := AppliedKeeps(schema, ups, s, p, n, 0, h, b, ok);
        }
      } else {
        k, g := AppliedKeeps(schema, ups, s, p, m, j, h, b, ok);
      }
    }
  }

  lemma HoldsAtStart(schema: set<Column>, ups: seq<Upgrade>, s: Db, p: nat)
    requires Legacy(schema, ups, s, p)
    ensures Holds(schema, ups, s, p, s, p, [])
  {
    hide IsBeta, CanarySafe;
    assert s.attempts + [] == s.attempts;
  }

  lemma {:induction false} RunKeeps(schema: set<Column>, ups: seq<Upgrade>, trace: seq<Db>, oks: seq<bool>, p: nat)
    returns (k: nat, h: seq<Attempt>)
    requires WellFormed(ups) && IsRun(schema, ups, trace, oks) && Legacy(schema, ups, trace[0], p)
    ensures forall i :: 0 <= i < |trace| ==> !Mistaken(schema, ups, trace[i])
    ensures Holds(schema, ups, trace[0], p, trace[|trace| - 1], k, h)
    ensures oks != [] && oks[|oks| - 1] ==> k == |ups| && Current(trace[|trace| - 1].versions) == Latest(ups)
    decreases |oks|
  {
    hide Legacy, Holds, Mistaken, Startup, Migrated, Latest, WellFormed;
    if oks == [] {
      k, h := p, [];
      HoldsAtStart(schema, ups, trace[0], p);
      LegacyIsNotMistaken(schema, ups, trace[0], p);
    } else {
      var n := |oks| - 1;
      var early, earlyOks := trace[..n + 1], oks[..n];
      assert early[0] == trace[0] && early[|early| - 1] == trace[n];
      k, h := RunKeeps(schema, ups, early, earlyOks, p);
      assert PanelStart(schema, ups, trace[n], trace[n + 1], oks[n]);
      var g;
      k, g := StartKeeps(schema, ups, trace[0], p, trace[n], k, h, trace[n + 1], oks[n]);
      h := h + g;
      HoldsLegacy(schema, ups, trace[0], p, trace[n + 1], k, h);
      LegacyIsNotMistaken(schema, ups, trace[n + 1], k);
      forall i | 0 <= i < |trace| ensures !Mistaken(schema, ups, trace[i]) {
        if i <= n { assert early[i] == trace[i]; }
      }
    }
  }

  lemma HoldsLegacy(schema: set<Column>, ups: seq<Upgrade>, s: Db, p: nat, d: Db, k: nat, h: seq<Attempt>)
    requires Holds(schema, ups, s, p, d, k, h)
    ensures Legacy(schema, ups, d, k)
  {
  }

  /** Any sequence of start-ups of an existing installation, each stopped at any statement: it is never
      taken for a fresh install; the attempts form one history in list order from the first pending
      upgrade; and once a start-up succeeds, every pending upgrade has been completed and recorded
      exactly once, what its steps leave is there, and the database is at the latest version. */
  lemma UpgradeChainIsCrashSafe(schema: set<Column>, ups: seq<Upgrade>, trace: seq<Db>, oks: seq<bool>, p: nat)
    returns (k: nat, h: seq<Attempt>)
    requires WellFormed(ups) && IsRun(schema, ups, trace, oks) && Legacy(schema, ups, trace[0], p)
    ensures forall i :: 0 <= i < |trace| ==> !Mistaken(schema, ups, trace[i])
    ensures var last := trace[|trace| - 1];
            && last.attempts == trace[0].attempts + h && History(ups, p, k, h) && Recorded(h) == Range(p, k)
            && Legacy(schema, ups, last, k)
            && trace[0].columns <= last.columns && AllDelivered(last.columns, ups, p, k)
            && (oks != [] && oks[|oks| - 1] ==> k == |ups| && Current(last.versions) == Latest(ups))
  {
    hide IsBeta, Mistaken, Migrated, Canary, IsRun, CanarySafe, AllDelivered;
    k, h := RunKeeps(schema, ups, trace, oks, p);
    RecordedInOrder(ups, p, k, h);
  }

  // ---------- When the canary misleads ----------

  /** Some sequence of start-ups, stopped somewhere, leads to a start-up that takes `d` for a fresh install. */
  ghost predicate CanBeMistaken(schema: set<Column>, ups: seq<Upgrade>, d: Db) {
    exists trace, oks ::
      IsRun(schema, ups, trace, oks) && trace[0] == d && Mistaken(schema, ups, trace[|trace| - 1])
  }

  /** An existing installation without version rows, or at a beta version, can be mistaken for a fresh one
      if and only if the migrations or the first upgrade make the canary column. */
  lemma MistakenIff(schema: set<Column>, ups: seq<Upgrade>, d: Db)
    requires WellFormed(ups) && Canary(ups).Some?
    requires d.versions == [] || (Current(d.versions) != "" && IsBeta(Current(d.versions)))
    ensures CanBeMistaken(schema, ups, d) <==> !CanarySafe(schema, ups, d.columns)
  {
    hide IsBeta, CanarySafe, Mistaken, WellFormed, Canary;
    if CanarySafe(schema, ups, d.columns) {
      PlaceOfEmpty(ups);
      assert Legacy(schema, ups, d, 0);
      forall trace, oks | IsRun(schema, ups, trace, oks) && trace[0] == d
        ensures !Mistaken(schema, ups, trace[|trace| - 1])
      {
        var _, _ := RunKeeps(schema, ups, trace, oks, 0);
      }
    } else if d.versions == [] {
      var trace, oks := MistakenRun(schema, ups, d);
    } else {
      var m := d.(columns := Migrated(schema, d.columns));
      var e := m.(versions := []);
      assert PanelStart(schema, ups, d, e, false) by {
        EmptyIsNotBeta();
        assert !LooksFresh(ups, m);
      }
      SafeAfterMigrations(schema, ups, d.columns);
      var trace, oks := MistakenRun(schema, ups, e);
      RunLonger(schema, ups, d, false, trace, oks);
    }
  }

  lemma EmptyIsNotBeta()
    ensures Current([]) == ""
  {
  }

  lemma SafeAfterMigrations(schema: set<Column>, ups: seq<Upgrade>, columns: set<Column>)
    ensures CanarySafe(schema, ups, Migrated(schema, columns)) == CanarySafe(schema, ups, columns)
  {
    hide FirstReaches, Canary, Migrated;
    MigratedIsComplete(schema, columns);
  }

  lemma RunLonger(schema: set<Column>, ups: seq<Upgrade>, d: Db, ok: bool, trace: seq<Db>, oks: seq<bool>)
    requires IsRun(schema, ups, trace, oks) && PanelStart(schema, ups, d, trace[0], ok)
    ensures IsRun(schema, ups, [d] + trace, [ok] + oks)
    ensures ([d] + trace)[0] == d && ([d] + trace)[|[d] + trace| - 1] == trace[|trace| - 1]
  {
    hide PanelStart;
    var t, o := [d] + trace, [ok] + oks;
    forall i | 0 <= i < |o| ensures PanelStart(schema, ups, t[i], t[i + 1], o[i]) {
      if i > 0 { assert PanelStart(schema, ups, trace[i - 1], trace[i], oks[i - 1]); }
    }
  }

  /** The run that misleads: the first upgrade gets as far as it can, unrecorded. */
  lemma MistakenRun(schema: set<Column>, ups: seq<Upgrade>, d: Db) returns (trace: seq<Db>, oks: seq<bool>)
    requires d.versions == [] && Canary(ups).Some? && !CanarySafe(schema, ups, d.columns)
    ensures IsRun(schema, ups, trace, oks) && trace[0] == d && Mistaken(schema, ups, trace[|trace| - 1])
  {
    hide Canary, StepsRun, Doable;
    var m := d.(columns := Migrated(schema, d.columns));
    MigratedIsComplete(schema, d.columns);
    if Mistaken(schema, ups, d) {
      trace, oks := [d], [];
    } else {
      FirstNeedsUpgrades(ups, m.columns);
      var steps := ups[0].steps;
      var n := Doable(m.columns, steps, |steps|);
      var b := Db([], StepsRun(m.columns, steps, n), d.attempts + [Attempt(0, n, false)]);
      DoableIsFeasible(m.columns, steps, |steps|);
      StopsAt(ups, m, n, b);
      trace, oks := [d, b], [false];
      StepsRunKeepsTables(m.columns, steps, n);
      CompleteStays(schema, m.columns, b.columns);
    }
  }

  lemma FirstNeedsUpgrades(ups: seq<Upgrade>, columns: set<Column>)
    requires FirstReaches(ups, columns) != columns
    ensures ups != []
  {
  }

  lemma StopsAt(ups: seq<Upgrade>, m: Db, n: nat, b: Db)
    requires ups != [] && m.versions == [] && n <= |ups[0].steps| && Feasible(m.columns, ups[0].steps, n)
    requires b == Db([], StepsRun(m.columns, ups[0].steps, n), m.attempts + [Attempt(0, n, false)])
    requires !LooksFresh(ups, m)
    ensures Startup(ups, m, b, false)
  {
    hide Canary, LooksFresh, Feasible;
    if n < |ups[0].steps| { StepsRunGrows(m.columns, ups[0].steps, n, n + 1); }
    assert ups[0..0] == [];
    assert AppliedUpTo(ups, m, 0, b, false, 0, n, []);
  }

  /** A fresh install is stamped with the latest version and runs no upgrade. */
  lemma FreshInstallRunsNothing(schema: set<Column>, ups: seq<Upgrade>, d: Db, b: Db, ok: bool)
    requires Canary(ups).Some? && Canary(ups).value in schema
    requires d.versions == [] && !HasTable(d.columns, Canary(ups).value.0)
    requires PanelStart(schema, ups, d, b, ok)
    ensures b.attempts == d.attempts
    ensures ok ==> b.versions == [Latest(ups)]
    ensures !ok ==> b.versions == []
  {
    hide IsBeta, Canary;
  }
}
