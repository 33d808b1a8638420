/** Applying the rate limits to the nginx files, with a backup that is put back when anything fails
    (executor/rate_limit.go). Every file operation may fail; a failed write may leave anything. */
module RateLimitFiles {
  import opened RateLimit

  type Files = map<string, string>

  datatype Backup = Backup(path: string, present: bool, content: string)

  const RATE_CONF := "/etc/nginx/conf.d/wppanel-ratelimit.conf"
  const BOT_CONF := "/etc/nginx/conf.d/wppanel-botlimit.conf"
  const STATUS_CONF := "/etc/nginx/conf.d/wppanel-limit-status.conf"
  const SITES := "/etc/nginx/sites-available/"

  /** The contents of the three generated files. */
  datatype Generated = Generated(status: string, rate: string, bot: string)

  datatype Outcome = Applied | RolledBack

  /** What a failed write leaves; a failed removal leaves the file. */
  datatype Damage = Untouched | Torn(text: string)

  /** What goes wrong in one application: whether the sites can be listed, for the backup and for the
      rewriting; the files that cannot be read, for either; those that cannot be written or removed, at
      first and when they are put back; and whether nginx takes the result. */
  datatype Faults = Faults(listed: bool, relisted: bool, unreadable: set<string>, stubborn: map<string, Damage>,
                           lost: map<string, Damage>, accepted: bool)

  function SitePaths(names: seq<string>): (paths: seq<string>)
    ensures |paths| == |names| && forall i :: 0 <= i < |names| ==> paths[i] == SITES + names[i]
  {
    if names == [] then [] else SitePaths(names[..|names| - 1]) + [SITES + names[|names| - 1]]
  }

  /** The files that are saved first; the sites only if their directory could be listed. */
  function SavedPaths(names: seq<string>, listed: bool): seq<string> {
    [RATE_CONF, BOT_CONF, STATUS_CONF] + if listed then SitePaths(names) else []
  }

  /** The files saved as they are; one that cannot be read counts as absent. */
  ghost predicate Saves(bs: seq<Backup>, paths: seq<string>, files: Files, unreadable: set<string>) {
    && |bs| == |paths|
    && forall i :: 0 <= i < |bs| ==>
         && bs[i].path == paths[i]
         && (bs[i].present <==> paths[i] in files && paths[i] !in unreadable)
         && (bs[i].present ==> bs[i].content == files[paths[i]])
  }

  predicate Generates(p: string) {
    p == RATE_CONF || p == BOT_CONF || p == STATUS_CONF
  }

  datatype Content = Absent | Text(text: string)

  function At(files: Files, p: string): Content {
    if p in files then Text(files[p]) else Absent
  }

  /** A file that held `was` after one write or removal. */
  function Written(was: Content, q: string, wanted: Content, failing: map<string, Damage>): Content {
    if q !in failing then wanted
    else if wanted.Text? && failing[q].Torn? then Text(failing[q].text) else was
  }

  /** A generated file after the three writes, which stop at the first that fails. */
  function Conf(was: Content, q: string, p: Settings, g: Generated, f: Faults): Content {
    if q == STATUS_CONF then Written(was, q, Text(g.status), f.stubborn)
    else if STATUS_CONF in f.stubborn then was
    else if q == RATE_CONF then Written(was, q, if p.ipEnabled then Text(g.rate) else Absent, f.stubborn)
    else if p.ipEnabled && RATE_CONF in f.stubborn then was
    else Written(was, q, if p.botEnabled then Text(g.bot) else Absent, f.stubborn)
  }

  /** A site after the rewriting, which passes over those that are absent or cannot be read. */
  function Rewritten(was: Content, q: string, p: Settings, f: Faults): Content {
    if was.Absent? || q in f.unreadable then was else Written(was, q, Text(Rewrite(was.text, p)), f.stubborn)
  }

  /** A saved file that held `now` after the backup is put back: one that could not be read was saved as
      absent. */
  function PutBack(before: Files, now: Content, q: string, f: Faults): Content {
    Written(now, q, if q in f.unreadable then Absent else At(before, q), f.lost)
  }

  /** The first `i` sites rewritten, and nothing else. */
  ghost predicate SitesRewritten(before: Files, files: Files, paths: seq<string>, p: Settings, f: Faults) {
    forall q :: At(files, q) == if q in paths then Rewritten(At(before, q), q, p, f) else At(before, q)
  }

  lemma NoneRewritten(files: Files, p: Settings, f: Faults)
    ensures SitesRewritten(files, files, [], p, f)
  {
  }

  lemma OneMoreRewritten(before: Files, mid: Files, after: Files, paths: seq<string>, path: string, p: Settings,
      f: Faults)
    requires SitesRewritten(before, mid, paths, p, f) && path !in paths
    requires forall q :: At(after, q) == if q == path then Rewritten(At(mid, q), q, p, f) else At(mid, q)
    ensures SitesRewritten(before, after, paths + [path], p, f)
  {
    hide Rewritten;
  }

  class NginxFiles {
    var files: Files

    constructor (files: Files)
      ensures this.files == files
    {
      this.files := files;
    }

    /** os.WriteFile. */
    method WriteFile(path: string, text: string, failing: map<string, Damage>) returns (ok: bool)
      modifies this
      ensures ok <==> path !in failing
      ensures forall q ::
                At(files, q) ==
                if q == path then Written(At(old(files), q), q, Text(text), failing) else At(old(files), q)
    {
      ok := path !in failing;
      if ok {
        files := files[path := text];
      } else if failing[path].Torn? {
        files := files[path := failing[path].text];
      }
    }

    /** os.Remove. */
    method Remove(path: string, failing: map<string, Damage>)
      modifies this
      ensures forall q ::
                At(files, q) == if q == path then Written(At(old(files), q), q, Absent, failing) else At(old(files), q)
    {
      if path !in failing { files := files - {path}; }
    }

    /** backupRateLimitFiles. */
    method BackUp(paths: seq<string>, unreadable: set<string>) returns (bs: seq<Backup>)
      ensures Saves(bs, paths, files, unreadable)
    {
      bs := [];
      for i := 0 to |paths|
        invariant Saves(bs, paths[..i], files, unreadable)
      {
        if paths[i] in files && paths[i] !in unreadable {
          bs := bs + [Backup(paths[i], true, files[paths[i]])];
        } else {
          bs := bs + [Backup(paths[i], false, "")];
        }
      }
      assert paths[..|paths|] == paths;
    }

    /** restoreRateLimitFiles. */
    method Restore(bs: seq<Backup>, f: Faults, ghost paths: seq<string>, ghost before: Files)
      requires Saves(bs, paths, before, f.unreadable) && forall i, j :: 0 <= i < j < |paths| ==> paths[i] != paths[j]
      modifies this
      ensures forall q ::
                At(files, q) == if q in paths then PutBack(before, At(old(files), q), q, f) else At(old(files), q)
    {
      hide PutBack;
      for i := 0 to |bs|
        invariant forall q ::
                    At(files, q) ==
                    if q in paths[..i] then PutBack(before, At(old(files), q), q, f) else At(old(files), q)
      {
        ghost var was := files;
        assert paths[..i + 1] == paths[..i] + [paths[i]];
        assert paths[i] !in paths[..i];
        PutBackIs(before, At(files, paths[i]), bs, paths, i, f);
        if bs[i].present {
          var _ := WriteFile(bs[i].path, bs[i].content, f.lost);
        } else {
          Remove(bs[i].path, f.lost);
        }
      }
      assert paths[..|bs|] == paths;
    }

    /** rewriteRateLimitDirectivesToSites: a site that cannot be read is passed over, and a failed write goes
        unnoticed. */
    method RewriteSites(names: seq<string>, p: Settings, f: Faults)
      requires forall i, j :: 0 <= i < j < |names| ==> names[i] != names[j]
      modifies this
      ensures SitesRewritten(old(files), files, if f.relisted then SitePaths(names) else [], p, f)
    {
      hide SitesRewritten, SitePaths, Rewritten;
      NoneRewritten(files, p, f);
      if !f.relisted { return; }
      ghost var paths := SitePaths(names);
      for i := 0 to |names|
        invariant SitesRewritten(old(files), files, paths[..i], p, f)
      {
        assert paths[..i + 1] == paths[..i] + [paths[i]];
        SitePathsDiffer(names, i);
        ghost var was := files;
        RewriteSite(SITES + names[i], p, f);
        OneMoreRewritten(old(files), was, files, paths[..i], paths[i], p, f);
      }
      assert paths[..|names|] == paths;
    }

    method RewriteSite(path: string, p: Settings, f: Faults)
      modifies this
      ensures forall q :: At(files, q) == if q == path then Rewritten(At(old(files), q), q, p, f) else At(old(files), q)
    {
      hide Rewrite;
      if path in f.unreadable || path !in files { return; }
      var text := RewriteDirectives(files[path], p);
      var _ := WriteFile(path, text, f.stubborn);
    }

    /** ensureCombinedRateLimits. It applies exactly when the wanted generated files can be written and nginx
        takes the result; every site that can be read and written is then rewritten. Otherwise the saved
        files are put back, and every file is as it was exactly if `Undoable`. Other files are never
        touched. */
    method Apply(names: seq<string>, p: Settings, g: Generated, f: Faults) returns (o: Outcome)
      requires forall i, j :: 0 <= i < j < |names| ==> names[i] != names[j]
      modifies this
      ensures o.Applied? <==> Writable(p, f) && f.accepted
      ensures o.Applied? ==> forall q :: At(files, q) == Midway(old(files), q, names, p, g, f)
      ensures o.Applied? ==> ConfsWritten(files, p, g, f)
      ensures o.RolledBack? ==> forall q :: At(files, q) == Ending(old(files), q, names, p, g, f)
      ensures o.RolledBack? ==> (files == old(files) <==> Undoable(old(files), names, p, g, f))
    {
      hide Rewrite, Rewritten, Writable, ConfsWritten, Conf, SavedPaths, SitePaths, Written, PutBack, Undoable,
           Undone, Saves;
      ghost var before := files;
      var paths := SavedPaths(names, f.listed);
      SavedPathsDiffer(names, f.listed);
      SitesAreNotGenerated(names);
      var bs := BackUp(paths, f.unreadable);
      var ok := WriteConfs(p, g, f);
      if ok {
        RewriteSites(names, p, f);
        if f.accepted {  // nginx -t, then the reload
          ConfsThere(before, files, names, p, g, f);
          return Applied;
        }
      }
      Restore(bs, f, paths, before);
      UndoneIff(before, files, names, p, g, f);
      return RolledBack;
    }

    /** The three generated files. */
    method WriteConfs(p: Settings, g: Generated, f: Faults) returns (ok: bool)
      modifies this
      ensures forall q ::
                At(files, q) == if Generates(q) then Conf(At(old(files), q), q, p, g, f) else At(old(files), q)
      ensures ok <==> Writable(p, f)
    {
      hide Written;
      ConfsDiffer();
      ok := WriteFile(STATUS_CONF, g.status, f.stubborn);
      if !ok { return; }
      if p.ipEnabled {
        ok := WriteFile(RATE_CONF, g.rate, f.stubborn);
        if !ok { return; }
      } else {
        Remove(RATE_CONF, f.stubborn);
      }
      if p.botEnabled {
        ok := WriteFile(BOT_CONF, g.bot, f.stubborn);
      } else {
        Remove(BOT_CONF, f.stubborn);
      }
    }
  }

  /** A file when the new configuration is in place, or when its generation has stopped. */
  function Midway(before: Files, q: string, names: seq<string>, p: Settings, g: Generated, f: Faults): Content {
    var was := At(before, q);
    if Generates(q) then Conf(was, q, p, g, f)
    else if q in SitePaths(names) && f.relisted && Writable(p, f) then Rewritten(was, q, p, f) else was
  }

  /** A file after a rollback. */
  function Ending(before: Files, q: string, names: seq<string>, p: Settings, g: Generated, f: Faults): Content {
    var now := Midway(before, q, names, p, g, f);
    if q in SavedPaths(names, f.listed) then PutBack(before, now, q, f) else now
  }

  /** A rollback leaves the file as it was: not saved, it was not changed; saved, it was absent or readable;
      and if putting it back fails, nothing is left to undo, or the torn text is the old one. */
  predicate Undone(before: Files, q: string, names: seq<string>, p: Settings, g: Generated, f: Faults) {
    var changed := Midway(before, q, names, p, g, f) != At(before, q);
    if q !in SavedPaths(names, f.listed) then !changed
    else if q !in f.lost then q in before ==> q !in f.unreadable
    else if q in before && q !in f.unreadable && f.lost[q].Torn? then f.lost[q].text == before[q]
    else !changed
  }

  ghost predicate Undoable(before: Files, names: seq<string>, p: Settings, g: Generated, f: Faults) {
    forall q :: Undone(before, q, names, p, g, f)
  }

  lemma EndingIsUndone(before: Files, q: string, names: seq<string>, p: Settings, g: Generated, f: Faults)
    ensures Ending(before, q, names, p, g, f) == At(before, q) <==> Undone(before, q, names, p, g, f)
  {
    hide Midway, SavedPaths;
  }

  lemma SameFiles(a: Files, b: Files)
    ensures a == b <==> forall q :: At(a, q) == At(b, q)
  {
    if forall q :: At(a, q) == At(b, q) {
      assert forall q :: q in a <==> At(a, q).Text?;
      assert forall q :: q in b <==> At(b, q).Text?;
      assert forall q :: q in a ==> At(a, q) == Text(a[q]);
      assert forall q :: q in b ==> At(b, q) == Text(b[q]);
    }
  }

  lemma UndoneIff(before: Files, after: Files, names: seq<string>, p: Settings, g: Generated, f: Faults)
    requires forall q :: At(after, q) == Ending(before, q, names, p, g, f)
    ensures after == before <==> Undoable(before, names, p, g, f)
  {
    hide Ending, Undone, At;
    SameFiles(after, before);
    forall q ensures At(after, q) == At(before, q) <==> Undone(before, q, names, p, g, f) {
      EndingIsUndone(before, q, names, p, g, f);
    }
  }

  /** When whatever is put back can be, a rollback leaves every file as it was if and only if no saved file
      existed unread and, should the sites not have been listed for the backup, the rewriting left those it
      listed afterwards as they were. */
  lemma UndoableIff(before: Files, names: seq<string>, p: Settings, g: Generated, f: Faults)
    requires f.lost == map[]
    ensures Undoable(before, names, p, g, f) <==>
            && (forall q :: q in SavedPaths(names, f.listed) && q in before ==> q !in f.unreadable)
            && (f.listed || !f.relisted || !Writable(p, f) || forall q :: q in SitePaths(names) && q in before ==>
                  Rewritten(At(before, q), q, p, f) == At(before, q))
  {
    hide Rewritten, Conf, Writable, SitePaths;
    SitesAreNotGenerated(names);
    var saved := SavedPaths(names, f.listed);
    forall q ensures Undone(before, q, names, p, g, f) <==>
                     if q in saved then q in before ==> q !in f.unreadable
                     else Midway(before, q, names, p, g, f) == At(before, q)
    {
    }
    forall q | q !in saved
      ensures Midway(before, q, names, p, g, f) ==
              if q in SitePaths(names) && f.relisted && Writable(p, f) then Rewritten(At(before, q), q, p, f)
              else At(before, q)
    {
      assert !Generates(q);
    }
    if !f.listed { assert forall q :: q in SitePaths(names) ==> q !in saved; }
    forall q | q !in before ensures Rewritten(At(before, q), q, p, f) == At(before, q) {
      AbsentStays(q, p, f);
    }
  }

  lemma AbsentStays(q: string, p: Settings, f: Faults)
    ensures Rewritten(Absent, q, p, f) == Absent
  {
  }

  /** A first failing input: a generated file that exists but cannot be read, and a new one that nginx
      rejects. The rollback removes it. */
  method UnreadFileIsRemoved(text: string, p: Settings, g: Generated) returns (d: NginxFiles)
    ensures STATUS_CONF !in d.files
  {
    hide Undoable, Rewrite, Rewritten, SavedPaths, Conf;
    d := new NginxFiles(map[STATUS_CONF := text]);
    var f := Faults(true, true, {STATUS_CONF}, map[], map[], false);
    assert STATUS_CONF in SavedPaths([], true) by { Saved(); }
    var o := d.Apply([], p, g, f);
    assert At(d.files, STATUS_CONF) == Absent;
  }

  lemma Saved()
    ensures forall listed, names :: STATUS_CONF in SavedPaths(names, listed)
  {
    forall listed: bool, names ensures STATUS_CONF in SavedPaths(names, listed) {
      assert SavedPaths(names, listed)[2] == STATUS_CONF;
    }
  }

  /** A second one: the sites cannot be listed for the backup, but can for the rewriting, and nginx rejects
      the result. The rollback leaves the site rewritten. */
  method LateSiteStaysRewritten(name: string, text: string, p: Settings, g: Generated) returns (d: NginxFiles)
    ensures At(d.files, SITES + name) == Text(Rewrite(text, p))
  {
    hide Undoable, Rewrite, SavedPaths, Conf, SitePaths;
    var site := SITES + name;
    d := new NginxFiles(map[site := text]);
    var f := Faults(false, true, {}, map[], map[], false);
    assert SitePaths([name])[0] == site;
    SitesAreNotGenerated([name]);
    assert site !in SavedPaths([name], false) by { Unsaved(site, [name]); }
    var o := d.Apply([name], p, g, f);
  }

  lemma Unsaved(q: string, names: seq<string>)
    requires !Generates(q)
    ensures q !in SavedPaths(names, false)
  {
  }

  /** Every generated file that is wanted can be written. */
  predicate Writable(p: Settings, f: Faults) {
    STATUS_CONF !in f.stubborn && (p.ipEnabled ==> RATE_CONF !in f.stubborn)
        && (p.botEnabled ==> BOT_CONF !in f.stubborn)
  }

  /** The wanted generated files hold their text, and the others are gone if they could be removed. */
  ghost predicate ConfsWritten(files: Files, p: Settings, g: Generated, f: Faults) {
    && At(files, STATUS_CONF) == Text(g.status)
    && (p.ipEnabled ==> At(files, RATE_CONF) == Text(g.rate))
    && (p.botEnabled ==> At(files, BOT_CONF) == Text(g.bot))
    && (!p.ipEnabled && RATE_CONF !in f.stubborn ==> At(files, RATE_CONF) == Absent)
    && (!p.botEnabled && BOT_CONF !in f.stubborn ==> At(files, BOT_CONF) == Absent)
  }

  lemma ConfsThere(before: Files, after: Files, names: seq<string>, p: Settings, g: Generated, f: Faults)
    requires Writable(p, f) && forall q :: Generates(q) ==> At(after, q) == Midway(before, q, names, p, g, f)
    ensures ConfsWritten(after, p, g, f)
  {
    hide SitePaths, Rewritten;
    ConfsDiffer();
    assert Generates(STATUS_CONF) && Generates(RATE_CONF) && Generates(BOT_CONF);
  }

  lemma PutBackIs(before: Files, now: Content, bs: seq<Backup>, paths: seq<string>, i: nat, f: Faults)
    requires i < |bs| && Saves(bs, paths, before, f.unreadable)
    ensures PutBack(before, now, paths[i], f) ==
            Written(now, paths[i], if bs[i].present then Text(bs[i].content) else Absent, f.lost)
    ensures bs[i].path == paths[i]
  {
  }

  lemma ConfsDiffer()
    ensures RATE_CONF != BOT_CONF && RATE_CONF != STATUS_CONF && BOT_CONF != STATUS_CONF
  {
    assert RATE_CONF[26] == 'r' && BOT_CONF[26] == 'b' && STATUS_CONF[26] == 'l';
  }

  lemma SitePathsDiffer(names: seq<string>, i: nat)
    requires i < |names| && forall i, j :: 0 <= i < j < |names| ==> names[i] != names[j]
    ensures SitePaths(names)[i] !in SitePaths(names)[..i]
  {
    forall j | 0 <= j < i ensures SITES + names[j] != SITES + names[i] {
      assert (SITES + names[j])[|SITES|..] == names[j] && (SITES + names[i])[|SITES|..] == names[i];
    }
  }

  lemma SitesAreNotGenerated(names: seq<string>)
    ensures forall q :: q in SitePaths(names) ==> !Generates(q)
  {
    forall i | 0 <= i < |names| ensures !Generates(SitePaths(names)[i]) {
      assert (SITES + names[i])[11] == 's';
      assert RATE_CONF[11] == BOT_CONF[11] == STATUS_CONF[11] == 'c';
    }
  }

  lemma SavedPathsDiffer(names: seq<string>, listed: bool)
    requires forall i, j :: 0 <= i < j < |names| ==> names[i] != names[j]
    ensures var paths := SavedPaths(names, listed);
            forall i, j :: 0 <= i < j < |paths| ==> paths[i] != paths[j]
  {
    ConfsDiffer();
    SitesAreNotGenerated(names);
    var sites, paths := SitePaths(names), SavedPaths(names, listed);
    forall i, j | 0 <= i < j < |paths| ensures paths[i] != paths[j] {
      if i >= 3 {
        SitePathsDiffer(names, j - 3);
        assert sites[i - 3] in sites[..j - 3];
      } else if j >= 3 {
        assert paths[j] == sites[j - 3] && sites[j - 3] in sites;
        assert Generates(paths[i]);
      }
    }
  }
}
