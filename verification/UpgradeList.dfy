/** The maintained list of upgrades (database/upgrades.go), with the columns each step creates. */
module UpgradeList {
  import opened GoStrings
  import opened Upgrades
  import opened UpgradeRuns

  const REMOTE_BACKUP := {
    "id", "enabled", "backup_type", "host", "port", "username", "auth_type", "password", "ssh_key", "remote_path",
    "keep_local", "s3_endpoint", "s3_bucket", "s3_region", "s3_access_key_id", "s3_secret_key", "s3_path_prefix",
    "created_at", "updated_at"
  }

  const UPGRADES: seq<Upgrade> := [
    Upgrade("1.0.1", [Migrate({})]),
    Upgrade("1.0.2", [AddColumn("websites", "xmlrpc_enabled")]),
    Upgrade("1.0.3", [AddColumn("cron_jobs", "running"), Other]),
    Upgrade("1.0.4", [Migrate({})]),
    Upgrade("1.0.5", [Other]),
    Upgrade("1.0.6", [Other]),
    Upgrade("1.0.7", [AddColumn("websites", "wp_debug_enabled"), AddColumn("websites", "wp_post_revisions"),
                      AddColumn("websites", "wp_memory_limit")]),
    Upgrade("1.0.8", [Other, Other]),
    Upgrade("1.0.9", [Other]),
    Upgrade("1.0.10", [Migrate({})]),
    Upgrade("1.0.11", [Other]),
    Upgrade("1.0.12", [CreateTable("cdn_realip_groups",
                                   {"id", "name", "provider", "header_name", "ip_ranges", "builtin", "enabled",
                                    "description", "created_at", "updated_at"}), Other,
                       CreateTable("website_cdn_realip_groups", {"website_id", "group_id", "created_at"}), Other,
                       Other, Other, Migrate({("websites", "cdn_realip_enabled")})]),
    Upgrade("1.0.13", [Other, Other, Other, Other, Other]),
    Upgrade("1.0.14", [Migrate({("websites", "ssl_last_error")})]),
    Upgrade("1.0.15", [Other, Other, Other, Other, Other, Other, Other, Other, Other, Other,
                       Other, Other, Other, Other, Other]),
    Upgrade("1.0.16", [Migrate({("websites", "ssl_export_enabled")})]),
    Upgrade("1.0.17", [Migrate({("websites", "document_root_subdir")})]),
    Upgrade("1.0.18", [CreateTable("ai_settings", {"id", "enabled", "provider", "base_url", "model", "api_key",
                                                  "timeout_seconds", "created_at", "updated_at"}), Other,
                       CreateTable("ai_sessions",
                                   {"id", "site_id", "symptom", "status", "risk_level", "summary", "report_json",
                                    "raw_text", "prompt_chars", "response_chars", "error_message", "created_at",
                                    "updated_at"}), Other, Other]),
    Upgrade("1.0.19", [CreateTable("ai_messages",
                                   {"id", "session_id", "role", "content", "prompt_chars", "response_chars",
                                    "error_message", "created_at"}), Other]),
    Upgrade("1.0.20", [CreateTable("remote_backup_settings", REMOTE_BACKUP), Other,
                       AddColumn("remote_backup_settings", "backup_type"),
                       AddColumn("remote_backup_settings", "s3_endpoint"),
                       AddColumn("remote_backup_settings", "s3_bucket"),
                       AddColumn("remote_backup_settings", "s3_region"),
                       AddColumn("remote_backup_settings", "s3_access_key_id"),
                       AddColumn("remote_backup_settings", "s3_secret_key"),
                       AddColumn("remote_backup_settings", "s3_path_prefix")])
  ]

  /** The number behind the last dot, for versions "1.0.n" with n below 100. */
  function Patch(v: string): int {
    if |v| == 5 then v[4] as int - '0' as int
    else if |v| == 6 then 10 * (v[4] as int - '0' as int) + (v[5] as int - '0' as int)
    else -1
  }

  predicate NoLetterB(v: string) {
    forall i :: 0 <= i < |v| ==> v[i] != 'b' && v[i] != 'B'
  }

  ghost predicate BetaAt(v: string, i: nat) {
    i + 4 <= |v| && v[i] in "bB" && v[i + 1] in "eE" && v[i + 2] in "tT" && v[i + 3] in "aA"
  }

  lemma {:induction false} LowerAt(v: string)
    ensures |Lower(v)| == |v|
    ensures forall i :: 0 <= i < |v| ==>
              Lower(v)[i] == if 'A' <= v[i] <= 'Z' then (v[i] as int + 32) as char else v[i]
    decreases |v|
  {
    if v != "" { LowerAt(v[1..]); }
  }

  /** A version is a beta exactly if it has the four letters somewhere, in any case. */
  lemma BetaIff(v: string)
    ensures IsBeta(v) <==> exists i: nat :: BetaAt(v, i)
  {
    LowerAt(v);
    var l := Lower(v);
    forall i: nat ensures OccursAt(l, "beta", i) <==> BetaAt(v, i) {
      if i + 4 <= |l| {
        var four := l[i..i + 4];
        assert four[0] == l[i] && four[1] == l[i + 1] && four[2] == l[i + 2] && four[3] == l[i + 3];
        assert four == "beta" <==> four[0] == 'b' && four[1] == 'e' && four[2] == 't' && four[3] == 'a';
      }
    }
  }

  lemma NotBeta(v: string)
    requires NoLetterB(v)
    ensures !IsBeta(v)
  {
    BetaIff(v);
  }

  /** The maintained list meets what the crash-safety result asks of a list: its versions can tell its
      entries apart; and an installation whose version rows do not tell is safe exactly when the migrations
      do not make the canary column, a column of the last entry's table. */
  lemma MaintainedListIsSafeIff(schema: set<Column>, columns: set<Column>)
    ensures WellFormed(UPGRADES) && Latest(UPGRADES) == "1.0.20"
    ensures Canary(UPGRADES) == Some(("remote_backup_settings", "backup_type"))
    ensures CanarySafe(schema, UPGRADES, columns) <==>
            ("remote_backup_settings", "backup_type") !in columns
            && (("remote_backup_settings", "backup_type") in schema ==> HasTable(columns, "remote_backup_settings"))
  {
    hide IsBeta, WellFormed, Canary, HasTable;
    WellNumbered();
    CanaryOfList();
    FirstEntry(Migrated(schema, columns));
  }

  lemma CanaryOfList()
    ensures Canary(UPGRADES) == Some(("remote_backup_settings", "backup_type"))
  {
    hide IsBeta;
    var steps := UPGRADES[19].steps;
    assert !steps[0].AddColumn? && !steps[1].AddColumn?;
    assert FirstAlter(steps) == FirstAlter(steps[1..]) == FirstAlter(steps[1..][1..]);
  }

  /** The first entry adds no column. */
  lemma FirstEntry(columns: set<Column>)
    ensures FirstReaches(UPGRADES, columns) == columns
  {
    var steps := UPGRADES[0].steps;
    assert steps == [Migrate({})];
    assert Doable(columns, steps, 0) == 0 && Doable(columns, steps, 1) == 1;
    assert StepsRun(columns, steps, 0) == columns;
    assert StepsRun(columns, steps, 1) == columns + {};
  }

  /** A beta installation from before the canary's table existed: one start stopped after the beta rows were
      deleted, and the next start records the latest version without having run a single upgrade. */
  lemma BetaSkipsEveryUpgrade(schema: set<Column>, columns: set<Column>) returns (trace: seq<Db>)
    requires ("remote_backup_settings", "backup_type") in schema && !HasTable(columns, "remote_backup_settings")
    ensures |trace| == 3 && trace[0] == Db(["1.0.0-beta1"], columns, [])
    ensures IsRun(schema, UPGRADES, trace, [false, true])
    ensures trace[2].versions == ["1.0.20"] && trace[2].attempts == []
  {
    hide IsBeta, WellFormed, Canary;
    var canary := ("remote_backup_settings", "backup_type");
    MaintainedListIsSafeIff(schema, columns);
    var m := Migrated(schema, columns);
    MigratedIsComplete(schema, columns);
    assert canary in m;
    BetaOne();
    var d, e := Db(["1.0.0-beta1"], columns, []), Db([], m, []);
    trace := [d, e, Db(["1.0.20"], m, [])];
    assert PanelStart(schema, UPGRADES, d, e, false);
    assert e.columns == Migrated(schema, e.columns);
    assert LooksFresh(UPGRADES, e);
    assert [] + [Latest(UPGRADES)] == ["1.0.20"];
    assert PanelStart(schema, UPGRADES, e, trace[2], true);
  }

  /** The same for an installation that has no version rows at all. */
  lemma OldInstallationIsMistaken(schema: set<Column>, columns: set<Column>)
    requires ("remote_backup_settings", "backup_type") in schema && !HasTable(columns, "remote_backup_settings")
    ensures Mistaken(schema, UPGRADES, Db([], columns, []))
  {
    hide IsBeta, WellFormed, Canary;
    MaintainedListIsSafeIff(schema, columns);
  }

  lemma BetaOne()
    ensures IsBeta("1.0.0-beta1") && Current(["1.0.0-beta1"]) == "1.0.0-beta1"
  {
    hide IsBeta;
    var v := "1.0.0-beta1";
    assert v[6..10] == "beta";
    BetaInside(v, 6);
  }

  lemma BetaInside(v: string, i: nat)
    requires i + 4 <= |v| && v[i..i + 4] == "beta"
    ensures IsBeta(v)
  {
    BetaIff(v);
    forall k | 0 <= k < 4 ensures v[i + k] == "beta"[k] { assert v[i..i + 4][k] == v[i + k]; }
    assert v[i + 0] == 'b';
    assert BetaAt(v, i);
  }

  lemma Numbered()
    ensures forall i :: 0 <= i < |UPGRADES| ==> Patch(UPGRADES[i].version) == i + 1
  {
  }

  lemma NoBetas()
    ensures forall i :: 0 <= i < |UPGRADES| ==> NoLetterB(UPGRADES[i].version)
  {
  }

  lemma WellNumbered()
    ensures WellFormed(UPGRADES)
  {
    hide IsBeta;
    NotBeta(BASELINE);
    assert Patch(BASELINE) == 0 && Patch("") == -1;
    hide Patch, NoLetterB;
    Numbered();
    NoBetas();
    forall i | 0 <= i < |UPGRADES| ensures !IsBeta(UPGRADES[i].version) { NotBeta(UPGRADES[i].version); }
    assert forall i, j :: 0 <= i < j < |UPGRADES| ==> Patch(UPGRADES[i].version) < Patch(UPGRADES[j].version);
  }
}
