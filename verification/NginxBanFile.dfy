/** Adding and removing a banned address, and replacing the whole set, on the file nginx reads
    (executor/nginx_ban.go). The lock that serialises these calls is taken as held. */
module NginxBanFile {
  import opened GoStrings
  import opened NginxBan

  datatype Content = Absent | Text(text: string)

  /** `Rejected`: the new file failed `nginx -t`. `Stale`: the file is in place, the reload failed. */
  datatype Outcome = Success | Invalid | IoError | Rejected | Stale

  /** How undoing a rejected file goes: the old content is written back, or the new file removed when there
      is none; or the call fails, and a write that fails may leave anything. */
  datatype Undoing = Works | Untouched | Torn(text: string)

  /** Which of the calls in between succeed: reading the old file (twice), making the directory, putting the
      new file in place, `nginx -t`, the undoing, and the reload. */
  datatype Calls = Calls(listed: bool, directory: bool, saved: bool, placed: bool, accepted: bool, undoing: Undoing,
                         reloaded: bool)

  /** What nginx would ban. */
  function Banned(valid: Validator, c: Content): set<string> {
    match c
    case Absent => {}
    case Text(t) => BannedIn(valid, t)
  }

  /** The file is the generated one for these addresses. */
  ghost predicate IsRendering(members: set<string>, c: Content) {
    c.Text? && exists entries :: Listing(entries, members) && c.text == Render(entries)
  }

  lemma OneRendering(members: set<string>, entries: seq<string>)
    requires Listing(entries, members)
    ensures forall c: Content :: IsRendering(members, c) <==> c == Text(Render(entries))
  {
    hide Listing, Render;
    forall c: Content | IsRendering(members, c) ensures c == Text(Render(entries)) {
      var others :| Listing(others, members) && c.text == Render(others);
      ListingIsUnique(entries, others, members);
    }
  }

  /** The old file was there and has been read. */
  predicate Held(was: Content, c: Calls) {
    was.Text? && c.saved
  }

  /** An edit gets as far as the test of the new file, or finds it in place already. */
  predicate Reaches(valid: Validator, ip: string, was: Content, c: Calls) {
    valid(ip) && (c.listed || was.Absent?) && c.directory && c.placed
  }

  /** What a rejected file leaves, `was` being there before. */
  ghost predicate Rollback(members: set<string>, was: Content, after: Content, c: Calls) {
    if c.undoing.Works? then after == if Held(was, c) then was else Absent
    else if Held(was, c) && c.undoing.Torn? then after == Text(c.undoing.text)
    else IsRendering(members, after)
  }

  /** A rejected file is undone: the old one had been read and is written back, or there was none and the new
      one is removed. Should the undoing fail, it takes the old text to be what is left. */
  ghost predicate Undone(members: set<string>, was: Content, c: Calls) {
    if c.undoing.Works? then was.Absent? || c.saved
    else if Held(was, c) then c.undoing.Torn? && Text(c.undoing.text) == was
    else IsRendering(members, was)
  }

  lemma RollbackIff(members: set<string>, entries: seq<string>, was: Content, after: Content, c: Calls)
    requires Listing(entries, members) && Rollback(members, was, after, c)
    requires !(Held(was, c) && IsRendering(members, was))
    ensures after == was <==> Undone(members, was, c)
  {
    hide IsRendering, Listing, Render;
    OneRendering(members, entries);
  }

  lemma RenderedBack(valid: Validator, ips: map<string, bool>, entries: seq<string>)
    requires Sane(valid) && Listing(entries, Members(valid, ips))
    ensures BannedIn(valid, Render(entries)) == Members(valid, ips)
  {
    hide BannedIn, Render;
    ReadBack(valid, entries);
    assert (set ip | ip in entries) == Members(valid, ips);
  }

  class BanFile {
    var content: Content

    constructor (content: Content)
      ensures this.content == content
    {
      this.content := content;
    }

    /** readNginxBannedIPs. */
    method Read(valid: Validator, readable: bool) returns (ok: bool, ips: map<string, bool>)
      ensures ok <==> readable || content.Absent?
      ensures ok ==> ips.Keys == Banned(valid, content) && forall ip :: ip in ips ==> ips[ip]
    {
      hide LineBans;
      ips := map[];
      if content.Absent? || !readable { return content.Absent?, ips; }
      var lines := Split(content.text, '\n');
      for i := 0 to |lines|
        invariant ips.Keys == LinesBan(valid, lines[..i]) && forall ip :: ip in ips ==> ips[ip]
      {
        assert lines[..i + 1][..i] == lines[..i];
        var found := LineBans(valid, lines[i]);
        ips := ips + map ip | ip in found :: true;
      }
      assert lines[..|lines|] == lines;
      ok := true;
    }

    /** writeNginxBannedIPs. A rejected file leaves the file as it was exactly if `Undone`. */
    method Write(valid: Validator, ips: map<string, bool>, reload: bool, c: Calls) returns (o: Outcome)
      requires Sane(valid)
      modifies this
      ensures o.Success? || o.Stale? ==> content.Text? && BannedIn(valid, content.text) == Members(valid, ips)
      ensures o.IoError? ==> content == old(content)
      ensures o.Rejected? ==> Rollback(Members(valid, ips), old(content), content, c)
      ensures o.Rejected? ==> (content == old(content) <==> Undone(Members(valid, ips), old(content), c))
      ensures o.Success? || o.Stale? ==> IsRendering(Members(valid, ips), content)
      ensures o == if !c.directory then IoError
                   else if c.saved && IsRendering(Members(valid, ips), old(content)) then Success
                   else if !c.placed then IoError
                   else if !reload then Success
                   else if !c.accepted then Rejected
                   else if !c.reloaded then Stale else Success
    {
      hide IsRendering, Listing, BannedIn, Render, Undone, Members;
      if !c.directory { return IoError; }
      var hadOld := content.Text? && c.saved;
      var saved := content;
      var entries := SortedEntries(valid, ips);
      var text := Render(entries);
      RenderedBack(valid, ips, entries);
      OneRendering(Members(valid, ips), entries);
      if hadOld && content.text == text { return Success; }
      if !c.placed { return IoError; }
      content := Text(text);
      if !reload { return Success; }
      if !c.accepted {
        Undo(saved, hadOld, c.undoing);
        RollbackIff(Members(valid, ips), entries, saved, content, c);
        return Rejected;
      }
      if !c.reloaded { return Stale; }
      return Success;
    }

    /** The undoing of a rejected file. */
    method Undo(saved: Content, hadOld: bool, u: Undoing)
      modifies this
      ensures content == if u.Works? then if hadOld then saved else Absent
                         else if hadOld && u.Torn? then Text(u.text) else old(content)
    {
      if hadOld {
        match u
        case Works => content := saved;
        case Untouched =>
        case Torn(text) => content := Text(text);
      } else if u.Works? {
        content := Absent;
      }
    }

    /** updateNginxBannedIPs, behind AddNginxBan and RemoveNginxBan: on any existing file the banned set
        changes by exactly the one address; when every call works it does change; and a rejected file is
        undone as for `Write`. */
    method Update(valid: Validator, raw: string, banned: bool, c: Calls) returns (o: Outcome)
      requires Sane(valid)
      modifies this
      ensures var ip := TrimSpace(raw);
              var before := Banned(valid, old(content));
              var wanted := if banned then before + {ip} else before - {ip};
              && (o.Invalid? <==> !valid(ip))
              && (o.Success? || o.Stale? ==> Banned(valid, content) == wanted)
              && (o.Invalid? || o.IoError? ==> content == old(content))
              && (o.Rejected? ==> Rollback(wanted, old(content), content, c))
              && (o.Rejected? ==> (content == old(content) <==> Undone(wanted, old(content), c)))
              && (Reaches(valid, ip, old(content), c) && c.accepted && c.reloaded ==> o.Success?)
              && (o.Rejected? <==> Reaches(valid, ip, old(content), c) && !c.accepted
                                   && !(c.saved && IsRendering(wanted, old(content))))
    {
      hide BannedIn, Rollback, Undone, IsRendering;
      var ip := TrimSpace(raw);
      if !valid(ip) { return Invalid; }
      var ok, ips := Read(valid, c.listed);
      if !ok { return IoError; }
      ghost var before := Banned(valid, content);
      BannedAreValid(valid, content);
      if banned {
        ips := ips[ip := true];
      } else {
        ips := ips - {ip};
      }
      assert Members(valid, ips) == if banned then before + {ip} else before - {ip};
      o := Write(valid, ips, true, c);
    }

    /** ReplaceNginxBannedIPs. */
    method Replace(valid: Validator, ips: map<string, bool>, c: Calls) returns (o: Outcome)
      requires Sane(valid)
      modifies this
      ensures !o.Invalid?
      ensures o.Success? || o.Stale? ==> Banned(valid, content) == Members(valid, ips)
      ensures o.IoError? ==> content == old(content)
      ensures o.Rejected? ==> (content == old(content) <==> Undone(Members(valid, ips), old(content), c))
    {
      o := Write(valid, ips, true, c);
    }
  }

  /** A file that is read for its addresses but not for its text, and an edit of it that nginx rejects: every
      call after that works, and the file is gone. */
  method RejectedEditRemovesFile(valid: Validator, text: string, ip: string) returns (f: BanFile, o: Outcome)
    requires Sane(valid) && valid(TrimSpace(ip))
    ensures o.Rejected? && f.content.Absent?
  {
    hide IsRendering;
    f := new BanFile(Text(text));
    o := f.Update(valid, ip, true, Calls(true, true, false, true, false, Works, true));
  }

  lemma BannedAreValid(valid: Validator, c: Content)
    ensures forall ip :: ip in Banned(valid, c) ==> valid(ip)
  {
    if c.Text? { LinesBanValid(valid, Split(c.text, '\n')); }
  }

  /** Adding a banned address and removing it again, both with success, restores the set. */
  method AddThenRemove(f: BanFile, valid: Validator, ip: string, c: Calls, e: Calls) returns (both: bool)
    requires Sane(valid) && TrimSpace(ip) !in Banned(valid, f.content)
    modifies f
    ensures both ==> Banned(valid, f.content) == old(Banned(valid, f.content))
  {
    var a := f.Update(valid, ip, true, c);
    if !a.Success? { return false; }
    var b := f.Update(valid, ip, false, e);
    both := b.Success?;
  }
}
