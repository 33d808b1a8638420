/** The ban table over runs of reported bans and reconciliations (executor/fail2ban.go): the escalation ladder,
    and how long a ban stays. */
module BanLadder {
  import opened Fail2ban

  /** Any number of changes, each seen with the table before and after it. */
  ghost predicate IsRun(states: seq<seq<Row>>, events: seq<Event>) {
    |states| == |events| + 1 && forall i :: 0 <= i < |events| ==> Change(states[i], events[i], states[i + 1])
  }

  lemma RunPrefix(states: seq<seq<Row>>, events: seq<Event>)
    requires IsRun(states, events) && events != []
    ensures var n := |events| - 1;
            IsRun(states[..n + 1], events[..n]) && Change(states[n], events[n], states[n + 1])
  {
    hide Change;
    var n := |events| - 1;
    forall i | 0 <= i < n ensures Change(states[..n + 1][i], events[..n][i], states[..n + 1][i + 1]) {
      assert Change(states[i], events[i], states[i + 1]);
    }
  }

  function OfIp(rows: seq<Row>, ip: string): (r: seq<Row>)
    ensures forall i :: 0 <= i < |r| ==> r[i].ip == ip
  {
    if rows == [] then []
    else OfIp(rows[..|rows| - 1], ip) + if rows[|rows| - 1].ip == ip then [rows[|rows| - 1]] else []
  }

  /** Each ban less than a day after the one before it, and not before it. */
  ghost predicate CloseTogether(own: seq<Row>) {
    forall i :: 0 < i < |own| ==> own[i - 1].bannedAt <= own[i].bannedAt < own[i - 1].bannedAt + DAY
  }

  /** The level of the k-th consecutive ban, counted from zero. */
  function Ladder(k: nat): int {
    if k == 0 then 2 else if k < 3 then 3 else 5
  }

  /** An address's history is that of its own rows. */
  lemma {:induction false} RecentOfIp(rows: seq<Row>, ip: string, since: int)
    ensures Recent(rows, ip, since) == Recent(OfIp(rows, ip), ip, since)
  {
    if rows != [] {
      var n := |rows| - 1;
      RecentOfIp(rows[..n], ip, since);
      var own := OfIp(rows[..n], ip);
      if rows[n].ip == ip {
        var o := own + [rows[n]];
        assert o[..|own|] == own && o == OfIp(rows, ip) && o[|own|] == rows[n];
      } else {
        assert OfIp(rows, ip) == own;
      }
    }
  }

  /** The rows of one address, each at the level of its place in the ladder. */
  ghost predicate Climbs(own: seq<Row>, ip: string) {
    forall i :: 0 <= i < |own| ==>
      own[i].ip == ip && own[i].level == Ladder(i) && own[i].expires == ExpiryOf(own[i].level, own[i].bannedAt)
  }

  lemma {:induction false} RecentKeepsLast(rows: seq<Row>, ip: string, since: int)
    requires rows != [] && rows[|rows| - 1].ip == ip && rows[|rows| - 1].bannedAt > since
    ensures Recent(rows, ip, since) == Recent(rows[..|rows| - 1], ip, since) + [rows[|rows| - 1]]
  {
  }

  /** The next ban on the ladder. */
  lemma NextRung(own: seq<Row>, ip: string, now: int)
    requires Climbs(own, ip) && CloseTogether(own)
    requires own != [] ==> own[|own| - 1].bannedAt <= now < own[|own| - 1].bannedAt + DAY
    ensures NextLevel(own, ip, now) == Ladder(|own|)
  {
    hide Recent, CountSevere, MaxLevel;
    var n := |own|;
    NoHistory(ip, now);
    if n > 0 {
      RecentKeepsLast(own, ip, now - DAY);
      SevereOnLadder(own, ip, now);
    }
  }

  lemma NoHistory(ip: string, now: int)
    ensures NextLevel([], ip, now) == 2
  {
  }

  /** Two severe bans of the last month are needed for the last rung. */
  lemma SevereOnLadder(own: seq<Row>, ip: string, now: int)
    requires Climbs(own, ip) && CloseTogether(own) && own != []
    requires own[|own| - 1].bannedAt <= now < own[|own| - 1].bannedAt + DAY
    ensures SevereBans(own, ip, now) >= 2 <==> |own| >= 3
  {
    hide Recent, CountSevere;
    var n, since := |own|, now - 30 * DAY;
    var last := own[n - 1];
    var before := own[..n - 1];
    RecentKeepsLast(own, ip, since);
    RecentOfNone(ip, since);
    if n == 1 {
      assert before == [];
      assert Recent(own, ip, since) == [last];
      SevereOfTwo([], last, last);
    } else {
      var prior, early := own[n - 2], before[..n - 2];
      RecentKeepsLast(before, ip, since);
      SevereOfTwo(Recent(early, ip, since), prior, last);
      if n == 2 { assert early == []; }
    }
  }

  lemma RecentOfNone(ip: string, since: int)
    ensures Recent([], ip, since) == [] && CountSevere([]) == 0
  {
  }

  lemma SevereOfTwo(rows: seq<Row>, a: Row, b: Row)
    ensures CountSevere(rows + [a] + [b]) ==
            CountSevere(rows) + (if a.level >= 3 then 1 else 0) + (if b.level >= 3 then 1 else 0)
    ensures CountSevere([b]) == if b.level >= 3 then 1 else 0
  {
    assert (rows + [a] + [b])[..|rows| + 1] == rows + [a];
    assert (rows + [a])[..|rows|] == rows;
    assert [b][..0] == [];
  }

  lemma {:induction false} NextLevelOfIp(rows: seq<Row>, ip: string, now: int)
    ensures NextLevel(rows, ip, now) == NextLevel(OfIp(rows, ip), ip, now)
  {
    RecentOfIp(rows, ip, now - DAY);
    RecentOfIp(rows, ip, now - 30 * DAY);
  }

  // ---------- The next ban, counted out ----------

  ghost function BansSince(rows: seq<Row>, ip: string, since: int): set<int> {
    set i | 0 <= i < |rows| && rows[i].ip == ip && rows[i].bannedAt > since
  }

  ghost function SevereSince(rows: seq<Row>, ip: string, since: int): set<int> {
    set i | 0 <= i < |rows| && rows[i].ip == ip && rows[i].bannedAt > since && rows[i].level >= 3
  }

  lemma {:induction false} RecentCounts(rows: seq<Row>, ip: string, since: int)
    ensures |Recent(rows, ip, since)| == |BansSince(rows, ip, since)|
    ensures CountSevere(Recent(rows, ip, since)) == |SevereSince(rows, ip, since)|
  {
    hide CountSevere, BansSince, SevereSince;
    if rows == [] {
      NoneSince(ip, since);
    } else {
      var n := |rows| - 1;
      RecentCounts(rows[..n], ip, since);
      SinceMore(rows, ip, since);
      SevereMore(Recent(rows[..n], ip, since), rows[n]);
    }
  }

  lemma NoneSince(ip: string, since: int)
    ensures BansSince([], ip, since) == {} && SevereSince([], ip, since) == {} && CountSevere([]) == 0
  {
  }

  lemma SevereMore(rows: seq<Row>, r: Row)
    ensures CountSevere(rows + [r]) == CountSevere(rows) + if r.level >= 3 then 1 else 0
    ensures CountSevere(rows + []) == CountSevere(rows)
  {
    assert (rows + [r])[..|rows|] == rows;
    assert rows + [] == rows;
  }

  lemma SinceMore(rows: seq<Row>, ip: string, since: int)
    requires rows != []
    ensures var n := |rows| - 1;
            var counts := rows[n].ip == ip && rows[n].bannedAt > since;
            && |BansSince(rows, ip, since)| == |BansSince(rows[..n], ip, since)| + (if counts then 1 else 0)
            && |SevereSince(rows, ip, since)| ==
               |SevereSince(rows[..n], ip, since)| + if counts && rows[n].level >= 3 then 1 else 0
  {
    var n := |rows| - 1;
    var counts := rows[n].ip == ip && rows[n].bannedAt > since;
    OneMoreMember(BansSince(rows[..n], ip, since), BansSince(rows, ip, since), n, counts);
    OneMoreMember(SevereSince(rows[..n], ip, since), SevereSince(rows, ip, since), n, counts && rows[n].level >= 3);
  }

  lemma OneMoreMember(a: set<int>, b: set<int>, n: int, more: bool)
    requires n !in a && forall i :: i in b <==> i in a || (more && i == n)
    ensures |b| == |a| + if more then 1 else 0
  {
    var c := a + if more then {n} else {};
    assert forall i: int :: i in c <==> i in b;
    assert b == c;
  }

  lemma NoneRecent(rows: seq<Row>, ip: string, since: int)
    requires Recent(rows, ip, since) == []
    ensures MaxLevel(Recent(rows, ip, since)) == 0
  {
  }

  /** The ladder's rule, counted out over all rows ever written: without a ban of the last 24 hours ten minutes
      at level 2, else a day at level 3, or for ever at level 5 if two of the last 30 days were severe. */
  lemma NextBan(rows: seq<Row>, ip: string, jail: string, now: int)
    ensures var r := NewRow(rows, ip, jail, now);
            var bans := BansSince(rows, ip, now - 86400);
            && r.ip == ip && r.jail == jail && !r.manual && !r.closed && r.bannedAt == now && r.count == |bans| + 1
            && (r.level, r.expires) ==
               if bans == {} then (2, Until(now + 600))
               else if |SevereSince(rows, ip, now - 2592000)| < 2 then (3, Until(now + 86400))
               else (5, Never)
  {
    hide Recent, CountSevere, MaxLevel, BansSince, SevereSince;
    RecentCounts(rows, ip, now - 86400);
    RecentCounts(rows, ip, now - 2592000);
    if BansSince(rows, ip, now - 86400) == {} { NoneRecent(rows, ip, now - 86400); }
  }

  // ---------- Closing a row does not change what it counts for ----------

  /** The same bans, whichever of them are closed. */
  ghost predicate SameBans(a: seq<Row>, b: seq<Row>) {
    |a| == |b| && forall i :: 0 <= i < |a| ==> a[i].(closed := false) == b[i].(closed := false)
  }

  lemma SameSplit(a: seq<Row>, b: seq<Row>)
    requires SameBans(a, b) && a != []
    ensures |b| == |a| && SameBans(a[..|a| - 1], b[..|a| - 1])
    ensures a[|a| - 1].(closed := false) == b[|a| - 1].(closed := false)
  {
  }

  lemma SameAppend(a: seq<Row>, b: seq<Row>, r: Row, s: Row)
    requires SameBans(a, b) && r.(closed := false) == s.(closed := false)
    ensures SameBans(a + [r], b + [s])
  {
  }

  lemma SameSymmetric(a: seq<Row>, b: seq<Row>)
    requires SameBans(a, b)
    ensures SameBans(b, a)
  {
  }

  lemma {:induction false} RecentSame(a: seq<Row>, b: seq<Row>, ip: string, since: int)
    requires SameBans(a, b)
    ensures SameBans(Recent(a, ip, since), Recent(b, ip, since))
  {
    SameLength(a, b);
    if a != [] {
      hide SameBans;
      var n := |a| - 1;
      SameSplit(a, b);
      RecentSame(a[..n], b[..n], ip, since);
      SameFields(a[n], b[n]);
      SameAppend(Recent(a[..n], ip, since), Recent(b[..n], ip, since), a[n], b[n]);
      assert Recent(a[..n], ip, since) + [] == Recent(a[..n], ip, since);
      assert Recent(b[..n], ip, since) + [] == Recent(b[..n], ip, since);
    }
  }

  lemma SameFields(r: Row, s: Row)
    requires r.(closed := false) == s.(closed := false)
    ensures r.ip == s.ip && r.level == s.level && r.bannedAt == s.bannedAt && r.manual == s.manual
            && r.expires == s.expires
  {
  }

  lemma {:induction false} LevelsSame(a: seq<Row>, b: seq<Row>)
    requires SameBans(a, b)
    ensures MaxLevel(a) == MaxLevel(b) && CountSevere(a) == CountSevere(b)
  {
    if a != [] {
      var n := |a| - 1;
      assert a[n].(closed := false) == b[n].(closed := false);
      LevelsSame(a[..n], b[..n]);
    }
  }

  /** A closed ban counts like an open one: closing rows changes no address's next level. */
  lemma NextLevelSame(a: seq<Row>, b: seq<Row>, ip: string, now: int)
    requires SameBans(a, b)
    ensures NextLevel(a, ip, now) == NextLevel(b, ip, now)
  {
    hide SameBans, Recent, MaxLevel, CountSevere;
    RecentSame(a, b, ip, now - DAY);
    RecentSame(a, b, ip, now - 30 * DAY);
    LevelsSame(Recent(a, ip, now - DAY), Recent(b, ip, now - DAY));
    LevelsSame(Recent(a, ip, now - 30 * DAY), Recent(b, ip, now - 30 * DAY));
    SameLength(Recent(a, ip, now - DAY), Recent(b, ip, now - DAY));
  }

  lemma SameLength(a: seq<Row>, b: seq<Row>)
    requires SameBans(a, b)
    ensures |a| == |b|
  {
  }

  lemma {:induction false} OfIpSame(a: seq<Row>, b: seq<Row>, ip: string)
    requires SameBans(a, b)
    ensures SameBans(OfIp(a, ip), OfIp(b, ip))
  {
    SameLength(a, b);
    if a != [] {
      hide SameBans;
      var n := |a| - 1;
      SameSplit(a, b);
      OfIpSame(a[..n], b[..n], ip);
      SameFields(a[n], b[n]);
      SameAppend(OfIp(a[..n], ip), OfIp(b[..n], ip), a[n], b[n]);
      assert OfIp(a[..n], ip) + [] == OfIp(a[..n], ip);
      assert OfIp(b[..n], ip) + [] == OfIp(b[..n], ip);
    }
  }

  lemma {:induction false} OfIpIgnoresOthers(before: seq<Row>, after: seq<Row>, ip: string)
    requires before <= after && forall i :: |before| <= i < |after| ==> after[i].ip != ip
    ensures OfIp(after, ip) == OfIp(before, ip)
    decreases |after|
  {
    if |before| < |after| {
      var n := |after| - 1;
      assert after[n].ip != ip;
      OfIpIgnoresOthers(before, after[..n], ip);
    } else {
      assert before == after;
    }
  }

  /** A ban at the level that the history of its address calls for, and of that level's length. */
  ghost predicate Fits(before: seq<Row>, row: Row) {
    row.level == NextLevel(before, row.ip, row.bannedAt) && row.expires == ExpiryOf(row.level, row.bannedAt)
  }

  /** One more ban of the address, at the level its history called for. */
  ghost predicate OneMore(before: seq<Row>, after: seq<Row>, ip: string) {
    exists row: Row :: row.ip == ip && Fits(before, row) && SameBans(after, OfIp(before, ip) + [row])
  }

  lemma RecordedBan(before: seq<Row>, row: Row, ip: string)
    requires row == NewRow(before, row.ip, row.jail, row.bannedAt)
    ensures if row.ip == ip then OneMore(before, OfIp(before + [row], ip), ip)
            else SameBans(OfIp(before, ip), OfIp(before + [row], ip))
  {
    assert (before + [row])[..|before|] == before;
  }

  /** The inserts of one reconciliation add at most one ban of an address. */
  lemma OpenedBan(before: seq<Row>, grown: seq<Row>, jails: map<string, string>, now: int, ip: string)
    requires before <= grown && Opened(before, grown, jails, now)
    ensures SameBans(OfIp(before, ip), OfIp(grown, ip)) || OneMore(before, OfIp(grown, ip), ip)
  {
    hide Opened, NextLevel, OfIp, SameBans, Fits;
    SameSelf(OfIp(grown, ip));
    if k :| |before| <= k < |grown| && grown[k].ip == ip {
      OpenedRow(before, grown, jails, now, k);
      OfIpIgnoresOthers(before, grown[..k], ip);
      OfIpIgnoresOthers(grown[..k + 1], grown, ip);
      OfIpLast(grown[..k + 1], ip);
      assert grown[..k + 1][..k] == grown[..k];
    } else {
      OfIpIgnoresOthers(before, grown, ip);
    }
  }

  lemma OpenedRow(before: seq<Row>, grown: seq<Row>, jails: map<string, string>, now: int, k: nat)
    requires Opened(before, grown, jails, now) && |before| <= k < |grown|
    ensures Fits(before, grown[k])
    ensures forall i :: |before| <= i < |grown| && i != k ==> grown[i].ip != grown[k].ip
  {
    hide HasOpen, NextLevel, PreviousBans, ExpiryOf;
  }

  lemma SameSelf(a: seq<Row>)
    ensures SameBans(a, a)
  {
  }

  lemma OfIpLast(rows: seq<Row>, ip: string)
    requires rows != [] && rows[|rows| - 1].ip == ip
    ensures OfIp(rows, ip) == OfIp(rows[..|rows| - 1], ip) + [rows[|rows| - 1]]
  {
  }

  lemma ClosedSame(grown: seq<Row>, after: seq<Row>, e: Event)
    requires e.Swept? && Closed(grown, after, e)
    ensures SameBans(grown, after)
  {
  }

  lemma SameTrans(a: seq<Row>, b: seq<Row>, c: seq<Row>)
    requires SameBans(a, b) && SameBans(b, c)
    ensures SameBans(a, c)
  {
  }

  /** One change leaves an address's bans, or adds one at the level its history calls for. */
  lemma BansAfterChange(before: seq<Row>, e: Event, after: seq<Row>, ip: string)
    requires Change(before, e, after)
    ensures SameBans(OfIp(before, ip), OfIp(after, ip)) || OneMore(before, OfIp(after, ip), ip)
  {
    hide Opened, Closed, OfIp, SameBans, NextLevel, Fits;
    match e
    case Recorded(who, jail, now) => RecordedBan(before, NewRow(before, who, jail, now), ip);
    case Swept(jails, now, queried, failing) =>
      var grown :| before <= grown && Opened(before, grown, jails, now) && Closed(grown, after, e);
      OpenedBan(before, grown, jails, now, ip);
      ClosedSame(grown, after, e);
      OfIpSame(grown, after, ip);
      var own, more := OfIp(grown, ip), OfIp(after, ip);
      if SameBans(OfIp(before, ip), own) {
        SameTrans(OfIp(before, ip), own, more);
      } else {
        var row: Row :| row.ip == ip && Fits(before, row) && SameBans(own, OfIp(before, ip) + [row]);
        SameSymmetric(own, more);
        SameTrans(more, own, OfIp(before, ip) + [row]);
      }
  }

  lemma ClimbOn(own: seq<Row>, row: Row, more: seq<Row>, ip: string)
    requires Climbs(own, ip) && row.ip == ip && row.level == Ladder(|own|) && SameBans(more, own + [row])
    requires row.expires == ExpiryOf(row.level, row.bannedAt)
    ensures Climbs(more, ip)
  {
    hide ExpiryOf;
    forall i | 0 <= i < |more|
        ensures more[i].ip == ip && more[i].level == Ladder(i)
                && more[i].expires == ExpiryOf(more[i].level, more[i].bannedAt) {
      assert more[i].(closed := false) == (own + [row])[i].(closed := false);
    }
  }

  lemma ClimbSame(own: seq<Row>, more: seq<Row>, ip: string)
    requires SameBans(own, more)
    ensures Climbs(own, ip) ==> Climbs(more, ip)
    ensures CloseTogether(more) ==> CloseTogether(own)
  {
    forall i | 0 <= i < |more|
        ensures own[i].ip == more[i].ip && own[i].level == more[i].level && own[i].bannedAt == more[i].bannedAt
                && own[i].expires == more[i].expires {
      assert own[i].(closed := false) == more[i].(closed := false);
    }
  }

  lemma CloseTogetherSplit(own: seq<Row>, row: Row, more: seq<Row>)
    requires CloseTogether(more) && SameBans(more, own + [row])
    ensures CloseTogether(own)
    ensures own != [] ==> own[|own| - 1].bannedAt <= row.bannedAt < own[|own| - 1].bannedAt + DAY
  {
    var all := own + [row];
    assert forall i :: 0 <= i < |all| ==> more[i].(closed := false) == all[i].(closed := false);
    assert forall i :: 0 <= i < |all| ==> more[i].bannedAt == all[i].bannedAt;
    assert forall i :: 0 <= i < |own| ==> all[i] == own[i];
    assert all[|own|] == row;
  }

  /** Over any run of reported bans and reconciliations, whatever is closed and whoever else is banned in
      between: the bans of an address without history that follow each other within a day have the levels
      2, 3, 3, and then 5 for ever. */
  lemma {:induction false} LadderOverRuns(states: seq<seq<Row>>, events: seq<Event>, ip: string)
    requires IsRun(states, events) && OfIp(states[0], ip) == [] && CloseTogether(OfIp(states[|events|], ip))
    ensures Climbs(OfIp(states[|events|], ip), ip)
    decreases |events|
  {
    hide OfIp, Change, SameBans, Climbs, CloseTogether, NextLevel, Ladder;
    if events == [] {
      NoRungs(ip);
    } else {
      var n := |events| - 1;
      RunPrefix(states, events);
      var before, own, more := states[n], OfIp(states[n], ip), OfIp(states[n + 1], ip);
      assert states[..n + 1][|events[..n]|] == before && states[..n + 1][0] == states[0];
      BansAfterChange(before, events[n], states[n + 1], ip);
      if SameBans(own, more) {
        ClimbSame(own, more, ip);
        LadderOverRuns(states[..n + 1], events[..n], ip);
      } else {
        var row: Row :| row.ip == ip && Fits(before, row) && SameBans(more, own + [row]);
        CloseTogetherSplit(own, row, more);
        LadderOverRuns(states[..n + 1], events[..n], ip);
        NextLevelOfIp(before, ip, row.bannedAt);
        NextRung(own, ip, row.bannedAt);
        ClimbOn(own, row, more, ip);
      }
    }
  }

  /** In numbers: the first ban lasts ten minutes, the next two a day, every later one for ever. */
  lemma BansGetLonger(states: seq<seq<Row>>, events: seq<Event>, ip: string, i: nat)
    requires IsRun(states, events) && OfIp(states[0], ip) == [] && CloseTogether(OfIp(states[|events|], ip))
    requires i < |OfIp(states[|events|], ip)|
    ensures var ban := OfIp(states[|events|], ip)[i];
            (ban.level, ban.expires) ==
            if i == 0 then (2, Until(ban.bannedAt + 600))
            else if i <= 2 then (3, Until(ban.bannedAt + 86400)) else (5, Never)
  {
    hide CloseTogether, OfIp, IsRun;
    LadderOverRuns(states, events, ip);
  }

  lemma NoRungs(ip: string)
    ensures Climbs([], ip)
  {
  }

  /** Over such a run the levels of the address never go down. */
  lemma LevelsNeverDecrease(states: seq<seq<Row>>, events: seq<Event>, ip: string, i: nat, j: nat)
    requires IsRun(states, events) && OfIp(states[0], ip) == [] && CloseTogether(OfIp(states[|events|], ip))
    requires i <= j < |OfIp(states[|events|], ip)|
    ensures OfIp(states[|events|], ip)[i].level <= OfIp(states[|events|], ip)[j].level
  {
    hide CloseTogether, OfIp, IsRun;
    LadderOverRuns(states, events, ip);
  }

  // ---------- How long a ban stays ----------

  /** The change gives no ground to close row `k`, or fails to close it. */
  predicate Spares(e: Event, k: nat, row: Row) {
    e.Swept? && e.queried ==> k in e.failing || Justified(row, e.jails.Keys, e.now)
  }

  lemma RowAfterChange(before: seq<Row>, e: Event, after: seq<Row>, k: nat)
    requires Change(before, e, after) && k < |before|
    ensures k < |after| && after[k].(closed := false) == before[k].(closed := false)
    ensures !after[k].closed <==> !before[k].closed && Spares(e, k, before[k])
  {
    hide Opened, NewRow;
    if e.Swept? {
      var grown :| before <= grown && Opened(before, grown, e.jails, e.now) && Closed(grown, after, e);
      assert grown[k] == before[k];
    }
  }

  /** A ban stays open over a run exactly if every reconciliation in it finds the address live, or the ban
      unexpired and manual or severe, or fails to close it; nothing else about it changes. */
  lemma {:induction false} StaysOpenIff(states: seq<seq<Row>>, events: seq<Event>, k: nat)
    requires IsRun(states, events) && k < |states[0]| && !states[0][k].closed
    ensures k < |states[|events|]| && states[|events|][k].(closed := false) == states[0][k]
    ensures !states[|events|][k].closed <==> forall i :: 0 <= i < |events| ==> Spares(events[i], k, states[0][k])
    decreases |events|
  {
    hide Change, Spares;
    if events != [] {
      var n := |events| - 1;
      RunPrefix(states, events);
      assert states[..n + 1][|events[..n]|] == states[n] && states[..n + 1][0] == states[0];
      StaysOpenIff(states[..n + 1], events[..n], k);
      RowAfterChange(states[n], events[n], states[n + 1], k);
      SparesSame(events[n], k, states[n][k], states[0][k]);
      assert forall i :: 0 <= i < n ==> events[..n][i] == events[i];
    }
  }

  lemma SparesSame(e: Event, k: nat, a: Row, b: Row)
    requires a.(closed := false) == b.(closed := false)
    ensures Spares(e, k, a) == Spares(e, k, b)
  {
    SameFields(a, b);
  }

  /** A permanent ban survives every run. */
  lemma PermanentBansSurvive(states: seq<seq<Row>>, events: seq<Event>, k: nat)
    requires IsRun(states, events) && k < |states[0]| && !states[0][k].closed
    requires states[0][k].expires.Never? && (states[0][k].level >= 3 || states[0][k].manual)
    ensures k < |states[|events|]| && states[|events|][k] == states[0][k]
  {
    hide Change;
    StaysOpenIff(states, events, k);
    var row := states[|events|][k];
    assert row == row.(closed := row.closed) == states[0][k].(closed := row.closed);
  }
}
