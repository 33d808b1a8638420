/** The panel's self-update and the watchdog that follows it (executor/panel_update_runner.go), as steps
    over a small disk. Every step that touches the disk records the state it leaves, so that "at every
    crash point" reads: at every moment of the history. */
module PanelUpdate {

  datatype File = Bytes(data: string) | Plan(plan: RollbackPlan)

  datatype RollbackPlan = RollbackPlan(target: string, backup: string, backupDb: string)

  type Files = map<string, File>

  /** `restoring`: a rollback copy over the installed path is under way, or was left unfinished.
      `healthy`: the watchdog has seen the health check pass. */
  datatype Moment = Moment(files: Files, restoring: bool, healthy: bool)

  const INSTALL := "/usr/local/bin/wp-panel"
  const STAGED := "/usr/local/bin/wp-panel.new"

  /** The three checks a download must pass, as opaque predicates. */
  datatype Checks = Checks(signature: (string, string) -> bool, checksum: (string, string) -> bool,
      preflight: string -> bool)

  /** What the download yields. */
  datatype Release = Release(binary: string, sha: string, sig: string)

  predicate Genuine(c: Checks, r: Release) {
    c.signature(r.sha, r.sig) && c.checksum(r.binary, r.sha) && c.preflight(r.binary)
  }

  ghost predicate Verified(c: Checks, binary: string) {
    exists r: Release :: Genuine(c, r) && r.binary == binary
  }

  /** Two disks differ at most at `path`. */
  ghost predicate SameBut(a: Files, b: Files, path: string) {
    forall p :: p != path ==> (p in a <==> p in b) && (p in a ==> a[p] == b[p])
  }

  ghost predicate SameFile(a: Files, b: Files, path: string) {
    (path in a <==> path in b) && (path in a ==> a[path] == b[path])
  }

  lemma SameButTrans(a: Files, b: Files, c: Files, path: string)
    requires SameBut(a, b, path) && SameBut(b, c, path)
    ensures SameBut(a, c, path)
  {
  }

  ghost predicate Holds(files: Files, path: string, f: File) {
    path in files && files[path] == f
  }

  /** What one update works on. */
  datatype Job = Job(checks: Checks, current: string, binary: string, sha: string, sig: string, dbDir: string,
                     planPath: string, backup: string, currentVersion: string, target: string, useWatchdog: bool,
                     hasConfig: bool)

  /** The work files live outside the installed, staged, backup and plan paths, and these four differ. */
  ghost predicate ProperPaths(j: Job) {
    && j.backup != INSTALL && j.backup != STAGED
    && j.planPath !in {INSTALL, STAGED, j.backup}
    && {j.binary, j.sha, j.sig} !! {INSTALL, STAGED, j.backup, j.planPath}
    && j.binary != j.sha && j.binary != j.sig && j.sha != j.sig
    && |j.dbDir| > 0
    && forall name :: DbBackupPath(j, name) !in {INSTALL, STAGED, j.backup, j.planPath, j.binary}
  }

  function DbBackupPath(j: Job, name: string): string {
    j.dbDir + "/panel_" + name
  }

  /** The installed path holds the complete old binary, or a complete one that passed all checks. */
  ghost predicate Installed(j: Job, files: Files) {
    INSTALL in files && files[INSTALL].Bytes?
    && (files[INSTALL].data == j.current || Verified(j.checks, files[INSTALL].data))
  }

  /** The old binary's backup and a plan that names it are on disk. */
  ghost predicate Recoverable(j: Job, files: Files) {
    Holds(files, j.backup, Bytes(j.current)) && j.planPath in files && files[j.planPath].Plan?
    && files[j.planPath].plan.backup == j.backup
  }

  ghost predicate OldInstalled(j: Job, files: Files) {
    Holds(files, INSTALL, Bytes(j.current))
  }

  /** The plan names a copy of the database that holds `db`. */
  ghost predicate DbRecoverable(j: Job, files: Files, dbPath: string, db: File) {
    && j.planPath in files && files[j.planPath].Plan?
    && var copy := files[j.planPath].plan.backupDb;
       copy !in {"", INSTALL, STAGED, dbPath, j.planPath} && Holds(files, copy, db)
  }

  /** The promise at one moment. */
  ghost predicate Safe(j: Job, m: Moment) {
    !m.restoring ==>
      && Installed(j, m.files)
      && (!OldInstalled(j, m.files) && j.useWatchdog && j.hasConfig && !m.healthy ==> Recoverable(j, m.files))
  }

  /** `reliable`: no operating system call fails. */
  class Disk {
    const reliable: bool
    var files: Files
    ghost var restoring: bool
    ghost var healthy: bool
    ghost var history: seq<Moment>

    ghost function Now(): Moment
      reads this
    {
      Moment(files, restoring, healthy)
    }

    /** Everything recorded since `from` differs from `before` at most at `path`, flags unchanged. */
    ghost predicate Touched(from: nat, before: Moment, path: string)
      reads this
    {
      && from <= |history|
      && forall i :: from <= i < |history| ==>
           && SameBut(before.files, history[i].files, path)
           && history[i].restoring == before.restoring && history[i].healthy == before.healthy
    }

    /** Any operating system call may fail without effect. */
    method Attempt() returns (ok: bool)
      ensures reliable ==> ok
    {
      ok := *;
      if reliable { ok := true; }
    }

    method Put(path: string, f: File)
      modifies this`files, this`history
      ensures files == old(files)[path := f] && SameBut(old(files), files, path)
      ensures history == old(history) + [Now()]
    {
      files := files[path := f];
      history := history + [Now()];
    }

    /** os.Remove; failures are ignored by every caller. */
    method Remove(path: string)
      modifies this`files, this`history
      ensures SameBut(old(files), files, path)
      ensures path in files ==> files == old(files)
      ensures reliable ==> path !in files
      ensures history == old(history) + [Now()]
    {
      var ok := Attempt();
      if ok { files := files - {path}; }
      history := history + [Now()];
    }

    /** os.Rename replaces the target in one step. */
    method Rename(src: string, dst: string) returns (ok: bool)
      requires src in files && src != dst
      modifies this`files, this`history
      ensures !ok ==> files == old(files)
      ensures ok ==> files == old(files)[dst := old(files)[src]] - {src}
      ensures reliable ==> ok
      ensures history == old(history) + [Now()]
    {
      ok := Attempt();
      if ok { files := files[dst := files[src]] - {src}; }
      history := history + [Now()];
    }

    /** copyPanelFile: truncates the destination, copies piece by piece, and removes the destination when
        anything goes wrong after that. */
    method Copy(src: string, dst: string) returns (ok: bool)
      requires src != dst
      modifies this`files, this`history
      ensures old(history) <= history && Touched(old(|history|), old(Now()), dst)
      ensures SameBut(old(files), files, dst)
      ensures ok ==> src in old(files) && old(files)[src].Bytes? && Holds(files, dst, old(files)[src])
      ensures reliable && src in old(files) && old(files)[src].Bytes? ==> ok
    {
      ok := Attempt();
      if !ok || src !in files || files[src].Plan? { return false; }
      ok := Attempt();
      if !ok { return; }
      var data := files[src].data;
      ok := CopyData(data, dst);
      if ok {
        ok := Attempt();  // close and chmod
        if ok { return; }
      }
      ghost var torn := files;
      Remove(dst);
      SameButTrans(old(files), torn, files, dst);
      ok := false;
    }

    method CopyData(data: string, dst: string) returns (ok: bool)
      modifies this`files, this`history
      ensures old(history) <= history && Touched(old(|history|), old(Now()), dst)
      ensures SameBut(old(files), files, dst)
      ensures ok ==> Holds(files, dst, Bytes(data))
      ensures reliable ==> ok
    {
      hide SameBut;
      Put(dst, Bytes(""));
      var n := 0;
      while n < |data|
        invariant n <= |data|
        invariant old(history) <= history && Touched(old(|history|), old(Now()), dst)
        invariant SameBut(old(files), files, dst)
        invariant Holds(files, dst, Bytes(data[..n]))
      {
        var more: nat :| 0 < more <= |data| - n;
        ok := Attempt();
        if !ok { return; }
        n := n + more;
        ghost var before := files;
        Put(dst, Bytes(data[..n]));
        SameButTrans(old(files), before, files, dst);
      }
      assert data[..n] == data;
      ok := true;
    }

    /** os.WriteFile: the old content is gone before the new one is complete. */
    method WritePlan(path: string, plan: RollbackPlan) returns (ok: bool)
      modifies this`files, this`history
      ensures old(history) <= history && Touched(old(|history|), old(Now()), path)
      ensures SameBut(old(files), files, path)
      ensures ok ==> Holds(files, path, Plan(plan))
      ensures reliable ==> ok
    {
      ok := Attempt();
      if !ok { return; }
      Put(path, Bytes(""));
      ok := Attempt();
      if !ok { return; }
      Put(path, Plan(plan));
    }

    /** A file fetched or produced by another program; a failed one is removed again. */
    method Fetch(path: string, data: string) returns (ok: bool)
      modifies this`files, this`history
      ensures old(history) <= history && Touched(old(|history|), old(Now()), path)
      ensures SameBut(old(files), files, path)
      ensures ok ==> Holds(files, path, Bytes(data))
      ensures reliable ==> ok
    {
      ok := Attempt();
      if ok {
        Put(path, Bytes(data));
        return;
      }
      var part: string := *;
      Put(path, Bytes(part));
      Remove(path);
    }
  }
}
