/** One panel update and its watchdog, run over the disk of PanelUpdate (executor/panel_update_runner.go). */
module PanelUpdateRun {
  import opened PanelUpdate
  import Versions

  datatype Result = Updated | Failed

  /** Every moment recorded since `from` keeps the promise. */
  ghost predicate SafeSince(j: Job, h: seq<Moment>, from: nat) {
    from <= |h| && forall i :: from <= i < |h| ==> Safe(j, h[i])
  }

  /** Work on any other path leaves the old binary installed. */
  lemma TouchedKeepsOld(j: Job, d: Disk, from: nat, before: Moment, path: string)
    requires d.Touched(from, before, path) && path != INSTALL && OldInstalled(j, before.files)
    ensures SafeSince(j, d.history, from)
  {
    forall i | from <= i < |d.history| ensures Safe(j, d.history[i]) {
      assert SameBut(before.files, d.history[i].files, path);
    }
  }

  /** The names cleanupPanelUpdateBackups may remove: backups of the binary and of the database. */
  predicate IsBackup(j: Job, path: string) {
    INSTALL + ".bak." <= path || DbBackupPath(j, "") <= path
  }

  /** The live database is none of the files that an update works on. */
  predicate ProperDb(j: Job, dbPath: string) {
    !IsBackup(j, dbPath) && dbPath !in {INSTALL, STAGED, j.planPath, j.backup, j.binary, j.sha, j.sig}
  }

  predicate IsLive(files: Files, dbPath: string) {
    dbPath in files && files[dbPath].Bytes?
  }

  lemma DbBackupIsBackup(j: Job, stamp: string)
    ensures IsBackup(j, DbBackupPath(j, stamp)) && DbBackupPath(j, stamp) != ""
  {
    assert DbBackupPath(j, "") + stamp == DbBackupPath(j, stamp);
  }

  /** Download the binary, its checksum and its signature, verify and preflight. */
  method Download(d: Disk, j: Job, release: Release) returns (ok: bool)
    requires ProperPaths(j) && OldInstalled(j, d.files) && !d.restoring
    modifies d`files, d`history
    ensures old(d.history) <= d.history && SafeSince(j, d.history, old(|d.history|))
    ensures OldInstalled(j, d.files)
    ensures ok ==> Holds(d.files, j.binary, Bytes(release.binary)) && Genuine(j.checks, release)
    ensures d.reliable && Genuine(j.checks, release) ==> ok
    ensures forall p :: p !in {j.binary, j.sha, j.sig} ==> SameFile(old(d.files), d.files, p)
  {
    ghost var before := d.Now();
    ok := d.Fetch(j.binary, release.binary);
    TouchedKeepsOld(j, d, old(|d.history|), before, j.binary);
    if !ok { return; }
    ghost var n, middle := |d.history|, d.Now();
    ok := d.Fetch(j.sha, release.sha);
    TouchedKeepsOld(j, d, n, middle, j.sha);
    if !ok { return; }
    n, middle := |d.history|, d.Now();
    ok := d.Fetch(j.sig, release.sig);
    TouchedKeepsOld(j, d, n, middle, j.sig);
    if !ok { return; }
    var binary, sha, sig := d.files[j.binary].data, d.files[j.sha].data, d.files[j.sig].data;
    if !j.checks.signature(sha, sig) { return false; }
    if !j.checks.checksum(binary, sha) { return false; }
    if !j.checks.preflight(binary) { return false; }
    ok := d.Attempt();  // systemd-run present, enough disk space
  }

  /** Backup of the old binary and of the database, as it is at that moment. */
  method BackUp(d: Disk, j: Job, stamp: string, dbPath: string) returns (ok: bool, backupDb: string)
    requires ProperPaths(j) && OldInstalled(j, d.files) && !d.restoring
    modifies d`files, d`history
    ensures old(d.history) <= d.history && SafeSince(j, d.history, old(|d.history|))
    ensures OldInstalled(j, d.files)
    ensures forall p :: p !in {j.backup, DbBackupPath(j, stamp)} ==> SameFile(old(d.files), d.files, p)
    ensures ok ==> Holds(d.files, j.backup, Bytes(j.current))
    ensures ok ==> backupDb == if j.hasConfig then DbBackupPath(j, stamp) else ""
    ensures ok && j.hasConfig && dbPath != j.backup && dbPath in old(d.files) && old(d.files)[dbPath].Bytes? ==>
              Holds(d.files, backupDb, old(d.files)[dbPath])
    ensures d.reliable ==> ok
  {
    hide Safe, Verified;
    ghost var n, before := |d.history|, d.Now();
    backupDb := "";
    ok := d.Copy(INSTALL, j.backup);
    TouchedKeepsOld(j, d, n, before, j.backup);
    if !ok || !j.hasConfig { return; }
    backupDb := DbBackupPath(j, stamp);
    n, before := |d.history|, d.Now();
    var dump: string := *;
    if dbPath in d.files && d.files[dbPath].Bytes? { dump := d.files[dbPath].data; }
    ok := d.Fetch(backupDb, dump);
    TouchedKeepsOld(j, d, n, before, backupDb);
    if !ok { return; }
    ok := d.Attempt();  // integrity check
  }

  /** The new binary is staged beside the installed one. */
  method StageBinary(d: Disk, j: Job) returns (ok: bool)
    requires ProperPaths(j) && OldInstalled(j, d.files) && !d.restoring
    requires j.binary in d.files && d.files[j.binary].Bytes?
    modifies d`files, d`history
    ensures old(d.history) <= d.history && SafeSince(j, d.history, old(|d.history|))
    ensures SameBut(old(d.files), d.files, STAGED)
    ensures ok ==> Holds(d.files, STAGED, old(d.files)[j.binary])
    ensures d.reliable ==> ok
  {
    ghost var n, before := |d.history|, d.Now();
    d.Remove(STAGED);
    assert d.Touched(n, before, STAGED);
    TouchedKeepsOld(j, d, n, before, STAGED);
    n, before := |d.history|, d.Now();
    ok := d.Copy(j.binary, STAGED);
    TouchedKeepsOld(j, d, n, before, STAGED);
    if !ok {
      n, before := |d.history|, d.Now();
      d.Remove(STAGED);
      assert d.Touched(n, before, STAGED);
      TouchedKeepsOld(j, d, n, before, STAGED);
    }
  }

  /** Backups, the plan, and the staged copy. */
  method Stage(d: Disk, j: Job, stamp: string, dbPath: string) returns (ok: bool)
    requires ProperPaths(j) && OldInstalled(j, d.files) && !d.restoring
    requires j.binary in d.files && d.files[j.binary].Bytes?
    modifies d`files, d`history
    ensures old(d.history) <= d.history && SafeSince(j, d.history, old(|d.history|))
    ensures OldInstalled(j, d.files)
    ensures ok ==> Holds(d.files, STAGED, old(d.files)[j.binary])
    ensures ok ==> Holds(d.files, j.backup, Bytes(j.current))
    ensures d.reliable ==> ok
    ensures ok && j.useWatchdog && j.hasConfig ==> Recoverable(j, d.files)
    ensures ok && j.useWatchdog && j.hasConfig && ProperDb(j, dbPath) && IsLive(old(d.files), dbPath) ==>
              DbRecoverable(j, d.files, dbPath, old(d.files)[dbPath])
    ensures ProperDb(j, dbPath) ==> SameFile(old(d.files), d.files, dbPath)
  {
    hide Safe, Verified;
    var backupDb;
    ok, backupDb := BackUp(d, j, stamp, dbPath);
    DbBackupIsBackup(j, stamp);
    assert SameFile(old(d.files), d.files, j.binary);
    assert ProperDb(j, dbPath) ==> SameFile(old(d.files), d.files, dbPath);
    if !ok { return; }
    if j.useWatchdog && j.hasConfig {
      ok := WritePlanTwice(d, j, RollbackPlan(j.target, j.backup, backupDb));
      if !ok { return; }
    }
    ok := StageBinary(d, j);
  }

  method WritePlanTwice(d: Disk, j: Job, plan: RollbackPlan) returns (ok: bool)
    requires ProperPaths(j) && OldInstalled(j, d.files) && !d.restoring
    modifies d`files, d`history
    ensures old(d.history) <= d.history && SafeSince(j, d.history, old(|d.history|))
    ensures SameBut(old(d.files), d.files, j.planPath)
    ensures ok ==> Holds(d.files, j.planPath, Plan(plan))
    ensures d.reliable ==> ok
  {
    ghost var n, before := |d.history|, d.Now();
    ok := d.WritePlan(j.planPath, plan);
    TouchedKeepsOld(j, d, n, before, j.planPath);
    if !ok { return; }
    ghost var first := d.files;
    n, before := |d.history|, d.Now();
    ok := d.WritePlan(j.planPath, plan);
    TouchedKeepsOld(j, d, n, before, j.planPath);
    SameButTrans(old(d.files), first, d.files, j.planPath);
  }

  /** A rollback copy: the one time the installed path may be torn. The flag stays up when it fails. */
  method RollBack(d: Disk, j: Job, source: string) returns (ok: bool)
    requires source != INSTALL
    requires !d.restoring
    modifies d`files, d`history, d`restoring
    ensures old(d.history) <= d.history
    ensures forall i :: old(|d.history|) <= i < |d.history| ==> d.history[i].healthy == d.healthy
    ensures forall i :: old(|d.history|) <= i < |d.history| ==> SameBut(old(d.files), d.history[i].files, INSTALL)
    ensures forall i :: old(|d.history|) <= i < |d.history| ==>
              d.history[i].restoring
                  || (ok && source in old(d.files) && Holds(d.history[i].files, INSTALL, old(d.files)[source]))
    ensures SameBut(old(d.files), d.files, INSTALL)
    ensures d.restoring == !ok
    ensures ok ==> source in old(d.files) && Holds(d.files, INSTALL, old(d.files)[source])
    ensures d.reliable && source in old(d.files) && old(d.files)[source].Bytes? ==> ok
  {
    d.restoring := true;
    ok := d.Copy(source, INSTALL);
    if ok {
      d.restoring := false;
      d.history := d.history + [d.Now()];
    }
  }

  /** The rename, and what follows when permissions or the watchdog then fail. */
  method Swap(d: Disk, j: Job, ghost release: Release) returns (r: Result)
    requires ProperPaths(j) && OldInstalled(j, d.files) && !d.restoring && !d.healthy
    requires Holds(d.files, STAGED, Bytes(release.binary)) && Genuine(j.checks, release)
    requires Holds(d.files, j.backup, Bytes(j.current))
    requires j.useWatchdog && j.hasConfig ==> Recoverable(j, d.files)
    modifies d`files, d`history, d`restoring
    ensures old(d.history) <= d.history && SafeSince(j, d.history, old(|d.history|))
    ensures r.Updated? ==> !d.restoring && Safe(j, d.Now()) && Holds(d.files, INSTALL, Bytes(release.binary))
                           && (j.useWatchdog && j.hasConfig ==> Recoverable(j, d.files))
    ensures r.Failed? && !d.restoring ==> OldInstalled(j, d.files)
    ensures d.reliable ==> r.Updated?
    ensures forall p :: p !in {INSTALL, STAGED} ==> SameFile(old(d.files), d.files, p)
  {
    var ok := d.Rename(STAGED, INSTALL);
    if !ok {
      d.Remove(STAGED);
      return Failed;
    }
    assert Verified(j.checks, release.binary);
    assert Safe(j, d.Now());
    assert SafeSince(j, d.history, old(|d.history|));
    ok := d.Attempt();  // chmod
    if !ok {
      ok := RollBack(d, j, j.backup);
      return Failed;
    }
    if j.useWatchdog && j.hasConfig {
      ok := d.Attempt();  // systemd-run
      if !ok {
        ok := RollBack(d, j, j.backup);
        return Failed;
      }
    }
    return Updated;
  }

  /** Work on the installed and the staged path leaves the database and its recorded copy alone. */
  lemma DbStaysRecoverable(j: Job, a: Files, b: Files, dbPath: string)
    requires ProperPaths(j) && forall p :: p !in {INSTALL, STAGED} ==> SameFile(a, b, p)
    ensures ProperDb(j, dbPath) ==> SameFile(a, b, dbPath)
    ensures forall db :: DbRecoverable(j, a, dbPath, db) ==> DbRecoverable(j, b, dbPath, db)
  {
    assert SameFile(a, b, j.planPath);
    forall db | DbRecoverable(j, a, dbPath, db) ensures DbRecoverable(j, b, dbPath, db) {
      assert SameFile(a, b, a[j.planPath].plan.backupDb);
    }
  }

  /** ExecutePanelUpdate. At every crash point outside a rollback copy the installed path holds the
      complete old binary or a complete verified one, and while it holds a new one under watchdog the old
      binary's backup and a plan naming it are on disk; the plan names a copy of the database, too. Only a
      later, genuine release is ever installed;
      without failing calls exactly such a one is; and a failed update leaves the old binary installed
      unless the rollback copy itself failed. */
  method ExecutePanelUpdate(d: Disk, j: Job, stamp: string, release: Release, dbPath: string) returns (r: Result)
    requires ProperPaths(j) && OldInstalled(j, d.files) && !d.restoring && !d.healthy
    modifies d`files, d`history, d`restoring
    ensures old(d.history) <= d.history && SafeSince(j, d.history, old(|d.history|))
    ensures r.Updated? ==> Versions.Compare(j.target, j.currentVersion) > 0 && Genuine(j.checks, release)
    ensures r.Updated? ==> j.checks.signature(release.sha, release.sig)
                           && j.checks.checksum(release.binary, release.sha) && j.checks.preflight(release.binary)
    ensures d.reliable && Versions.Compare(j.target, j.currentVersion) > 0 && Genuine(j.checks, release) ==> r.Updated?
    ensures r.Updated? ==> !d.restoring && Safe(j, d.Now()) && Holds(d.files, INSTALL, Bytes(release.binary))
                           && (j.useWatchdog && j.hasConfig ==> Recoverable(j, d.files))
    ensures r.Failed? && !d.restoring ==> OldInstalled(j, d.files)
    ensures ProperDb(j, dbPath) ==> SameFile(old(d.files), d.files, dbPath)
    ensures r.Updated? && j.useWatchdog && j.hasConfig && ProperDb(j, dbPath) && IsLive(old(d.files), dbPath) ==>
              DbRecoverable(j, d.files, dbPath, old(d.files)[dbPath])
    ensures Versions.Compare(j.target, j.currentVersion) <= 0 ==> d.history == old(d.history) && d.files == old(d.files)
  {
    hide Safe, Genuine;
    var ok := d.Attempt();  // a release was found
    if !ok { return Failed; }
    var newer := Versions.CompareVersions(j.target, j.currentVersion);
    if newer <= 0 { return Failed; }
    ok := d.Attempt();  // it has all its assets, and a temporary directory was made
    if !ok { return Failed; }
    ok := Download(d, j, release);
    assert ProperDb(j, dbPath) ==> SameFile(old(d.files), d.files, dbPath);
    if !ok { return Failed; }
    ok := Stage(d, j, stamp, dbPath);
    assert ProperDb(j, dbPath) ==> SameFile(old(d.files), d.files, dbPath);
    if !ok { return Failed; }
    ghost var staged := d.files;
    r := Swap(d, j, release);
    DbStaysRecoverable(j, staged, d.files, dbPath);
  }

  // ---------- The watchdog ----------

  lemma InstallIsNoBackup(j: Job)
    requires ProperPaths(j)
    ensures !IsBackup(j, INSTALL)
  {
    var p := DbBackupPath(j, "");
    assert p <= INSTALL ==> DbBackupPath(j, INSTALL[|p|..]) == INSTALL;
  }

  /** Everything recorded since `from` has the flags of `now` and the files that are no backups. */
  ghost predicate KeepsOthers(j: Job, h: seq<Moment>, from: nat, now: Moment) {
    from <= |h|
    && forall i :: from <= i < |h| ==>
         h[i].healthy == now.healthy && h[i].restoring == now.restoring && SameOthers(j, now.files, h[i].files)
  }

  ghost predicate SameOthers(j: Job, a: Files, b: Files) {
    forall p :: !IsBackup(j, p) ==> (p in a <==> p in b) && (p in a ==> a[p] == b[p])
  }

  /** cleanupPanelUpdateBackups: whichever old backups it decides on. */
  method CleanUp(d: Disk, j: Job)
    modifies d`files, d`history
    ensures old(d.history) <= d.history && KeepsOthers(j, d.history, old(|d.history|), old(d.Now()))
    ensures SameOthers(j, old(d.files), d.files)
  {
    var victims: seq<string> := *;
    for i := 0 to |victims|
      invariant old(d.history) <= d.history && KeepsOthers(j, d.history, old(|d.history|), old(d.Now()))
      invariant SameOthers(j, old(d.files), d.files)
    {
      if IsBackup(j, victims[i]) { d.Remove(victims[i]); }
    }
  }

  /** What the watchdog promises at one moment: it drops the plan only once the health check has passed or
      the old binary is back, and it touches the installed path only in a rollback copy. */
  ghost predicate Guarded(j: Job, m: Moment) {
    Safe(j, m) && (!m.restoring && j.planPath !in m.files ==> m.healthy || OldInstalled(j, m.files))
  }

  ghost predicate GuardedSince(j: Job, h: seq<Moment>, from: nat) {
    from <= |h| && forall i :: from <= i < |h| ==> Guarded(j, h[i])
  }

  /** RunUpdateWatchdog, started by a finished update. `readable` is the plan being read, `checks` are the
      health checks that fit before the deadline, `dbBroken` says whether the database is unusable after a
      rollback, `dbPath` is the live database. It reports success exactly when a check passes; otherwise
      the old binary is back unless the rollback copy failed; and without failing calls the plan is gone
      afterwards and a broken database replaced by its backup. */
  method RunUpdateWatchdog(d: Disk, j: Job, readable: bool, checks: seq<bool>, dbBroken: bool, dbPath: string)
    returns (passed: bool)
    requires ProperPaths(j) && j.useWatchdog && j.hasConfig
    requires !d.restoring && !d.healthy && Recoverable(j, d.files) && Installed(j, d.files)
    requires !IsBackup(j, j.planPath) && dbPath !in {INSTALL, j.planPath, j.backup}
    modifies d`files, d`history, d`restoring, d`healthy
    ensures old(d.history) <= d.history && GuardedSince(j, d.history, old(|d.history|))
    ensures passed <==> readable && true in checks
    ensures !readable ==> d.Now() == old(d.Now())
    ensures passed ==> d.healthy && Holds(d.files, INSTALL, old(d.files)[INSTALL])
    ensures readable && !passed ==> !d.healthy && (d.restoring || OldInstalled(j, d.files))
    ensures d.reliable && readable ==> !d.restoring && j.planPath !in d.files
    ensures d.restoring || Installed(j, d.files)
    ensures var db := old(d.files)[j.planPath].plan.backupDb;
            d.reliable && readable && !passed && dbBroken && Usable(db, dbPath, old(d.files)) ==>
              Holds(d.files, dbPath, old(d.files)[db])
    ensures (passed || !dbBroken) && !IsBackup(j, dbPath) ==> SameFile(old(d.files), d.files, dbPath)
  {
    if !readable { return false; }
    var plan := d.files[j.planPath].plan;
    for i := 0 to |checks|
      invariant d.Now() == old(d.Now()) && d.history == old(d.history)
      invariant true !in checks[..i]
    {
      assert checks[..i + 1] == checks[..i] + [checks[i]];
      if checks[i] {
        d.healthy := true;
        Finish(d, j);
        return true;
      }
    }
    assert checks[..|checks|] == checks;
    var ok := RollBack(d, j, plan.backup);
    assert GuardedSince(j, d.history, old(|d.history|)) by {
      forall k | old(|d.history|) <= k < |d.history| ensures Guarded(j, d.history[k]) {
        if !d.history[k].restoring { assert OldInstalled(j, d.history[k].files); }
      }
    }
    if !ok { return false; }
    RestoreDatabase(d, j, plan.backupDb, dbPath, dbBroken);
    d.Remove(j.planPath);
    return false;
  }

  /** The end of a watchdog that has seen the new version healthy. */
  method Finish(d: Disk, j: Job)
    requires ProperPaths(j) && !d.restoring && d.healthy && Installed(j, d.files) && !IsBackup(j, j.planPath)
    modifies d`files, d`history
    ensures old(d.history) <= d.history && GuardedSince(j, d.history, old(|d.history|))
    ensures Holds(d.files, INSTALL, old(d.files)[INSTALL])
    ensures d.reliable ==> j.planPath !in d.files
    ensures forall p :: p != j.planPath && !IsBackup(j, p) ==> SameFile(old(d.files), d.files, p)
  {
    ghost var n := |d.history|;
    CleanUp(d, j);
    InstallIsNoBackup(j);
    assert GuardedSince(j, d.history, n);
    d.Remove(j.planPath);
  }

  /** A backup that a rollback can put in the live database's place. */
  ghost predicate Usable(backupDb: string, dbPath: string, files: Files) {
    && backupDb !in {"", INSTALL, dbPath} && backupDb in files && files[backupDb].Bytes?
  }

  /** restoreDBFile, when the database itself turns out unusable. */
  method RestoreDatabase(d: Disk, j: Job, backupDb: string, dbPath: string, needed: bool)
    requires !d.restoring && OldInstalled(j, d.files) && dbPath != INSTALL
    modifies d`files, d`history
    ensures old(d.history) <= d.history && GuardedSince(j, d.history, old(|d.history|))
    ensures OldInstalled(j, d.files)
    ensures !needed ==> d.files == old(d.files)
    ensures d.reliable && needed && Usable(backupDb, dbPath, old(d.files)) ==>
              Holds(d.files, dbPath, old(d.files)[backupDb])
  {
    if needed && backupDb != "" && backupDb != dbPath {
      ghost var n, before := |d.history|, d.Now();
      var ok := d.Copy(backupDb, dbPath);
      forall i | n <= i < |d.history| ensures Guarded(j, d.history[i]) {
        assert SameBut(before.files, d.history[i].files, dbPath);
      }
    }
  }

  /** The whole transaction: an update, the new version's start, which leaves `changed` as the database, and the
      watchdog. A rollback over a broken database brings back both the old binary and the old database. */
  method UpdateAndWatch(d: Disk, j: Job, stamp: string, release: Release, changed: string, readable: bool,
                        checks: seq<bool>, dbBroken: bool, dbPath: string)
    returns (r: Result, passed: bool)
    requires ProperPaths(j) && OldInstalled(j, d.files) && !d.restoring && !d.healthy
    requires !IsBackup(j, j.planPath) && dbPath !in {INSTALL, j.planPath, j.backup}
    modifies d`files, d`history, d`restoring, d`healthy
    ensures old(d.history) <= d.history && SafeSince(j, d.history, old(|d.history|))
    ensures d.restoring || Installed(j, d.files)
    ensures r.Failed? && !d.restoring ==> OldInstalled(j, d.files)
    ensures r.Updated? && j.useWatchdog && j.hasConfig && readable && !d.restoring ==>
              Holds(d.files, INSTALL, Bytes(if true in checks then release.binary else j.current))
    ensures r.Updated? && j.useWatchdog && j.hasConfig && readable && d.reliable
            && ProperDb(j, dbPath) && IsLive(old(d.files), dbPath) ==>
              Holds(d.files, dbPath, if true !in checks && dbBroken then old(d.files)[dbPath] else Bytes(changed))
  {
    hide Verified, Genuine;
    passed := false;
    r := ExecutePanelUpdate(d, j, stamp, release, dbPath);
    if r.Updated? {
      ghost var n := |d.history|;
      d.Put(dbPath, Bytes(changed));
      assert Safe(j, d.Now()) && SafeSince(j, d.history, n);
      if j.useWatchdog && j.hasConfig {
        n := |d.history|;
        passed := RunUpdateWatchdog(d, j, readable, checks, dbBroken, dbPath);
        assert GuardedSince(j, d.history, n);
      }
    }
  }
}
