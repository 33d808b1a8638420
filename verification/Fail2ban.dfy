/** The ban table, the escalation ladder and the reconciliation with fail2ban (executor/fail2ban.go). Times
    are seconds on one clock. */
module Fail2ban {

  import opened GoStrings

  const DAY := 86400
  const SHORT_BAN := 600

  datatype Expiry = Never | Until(time: int)

  /** A row of firewall_bans; `closed` is unbanned_at being set. */
  datatype Row = Row(ip: string, level: int, jail: string, manual: bool, bannedAt: int, expires: Expiry, count: nat,
      closed: bool)

  /** isWebBanSource. */
  predicate IsWebSource(jail: string) {
    jail == "wppanel" || jail == "wppanel-404" || jail == "manual"
  }

  predicate Expired(r: Row, now: int) {
    r.expires.Until? && r.expires.time <= now
  }

  // ---------- History ----------

  /** Rows of `ip` later than `since`. */
  function Recent(rows: seq<Row>, ip: string, since: int): (r: seq<Row>)
    ensures forall i :: 0 <= i < |r| ==> r[i] in rows && r[i].ip == ip && r[i].bannedAt > since
  {
    if rows == [] then []
    else
      var n := |rows| - 1;
      Recent(rows[..n], ip, since) + if rows[n].ip == ip && rows[n].bannedAt > since then [rows[n]] else []
  }

  function MaxLevel(rows: seq<Row>): int {
    if rows == [] then 0
    else
      var n := |rows| - 1;
      var m := MaxLevel(rows[..n]);
      if rows[n].level > m then rows[n].level else m
  }

  function CountSevere(rows: seq<Row>): nat {
    if rows == [] then 0 else CountSevere(rows[..|rows| - 1]) + if rows[|rows| - 1].level >= 3 then 1 else 0
  }

  /** countBanHistory: the bans of the last 24 hours and the highest level among them. */
  function PreviousBans(rows: seq<Row>, ip: string, now: int): nat {
    |Recent(rows, ip, now - DAY)|
  }

  function PreviousMaxLevel(rows: seq<Row>, ip: string, now: int): int {
    MaxLevel(Recent(rows, ip, now - DAY))
  }

  /** countLevel3: severe bans of the last 30 days. */
  function SevereBans(rows: seq<Row>, ip: string, now: int): nat {
    CountSevere(Recent(rows, ip, now - 30 * DAY))
  }

  /** The level of the next automatic ban. */
  function NextLevel(rows: seq<Row>, ip: string, now: int): int {
    if PreviousMaxLevel(rows, ip, now) >= 2 || PreviousBans(rows, ip, now) > 0
    then if SevereBans(rows, ip, now) >= 2 then 5 else 3
    else 2
  }

  function ExpiryOf(level: int, now: int): Expiry {
    if level == 2 then Until(now + SHORT_BAN) else if level == 3 then Until(now + DAY) else Never
  }

  function NewRow(rows: seq<Row>, ip: string, jail: string, now: int): Row {
    var level := NextLevel(rows, ip, now);
    Row(ip, level, jail, false, now, ExpiryOf(level, now), PreviousBans(rows, ip, now) + 1, false)
  }

  /** normalizeFail2banJail and its fallbacks. */
  function JailFor(jail: string, detected: string): string {
    var j := TrimSpace(jail);
    if j == "wppanel" || j == "wppanel-404" || j == "wppanel-sshd" then j
    else if detected == "" then "wppanel" else detected
  }

  // ---------- Reconciliation ----------

  /** What `fail2ban-client status` said about one jail. */
  datatype Reading = Unread | Listed(ips: seq<string>)

  function Live(r: Reading): set<string> {
    match r
    case Unread => {}
    case Listed(ips) => set ip | ip in ips
  }

  lemma LiveIsListed(r: Reading)
    ensures forall ip :: ip in Live(r) <==> r.Listed? && ip in r.ips
  {
  }

  lemma ListedNone(ips: seq<string>)
    ensures Live(Listed(ips[..0])) == {}
  {
  }

  lemma ListedMore(ips: seq<string>, i: nat)
    requires i < |ips|
    ensures Live(Listed(ips[..i + 1])) == Live(Listed(ips[..i])) + {ips[i]}
  {
    assert ips[..i + 1] == ips[..i] + [ips[i]];
  }

  /** A row that reconciliation leaves open. */
  predicate Justified(r: Row, live: set<string>, now: int) {
    r.ip in live || (!Expired(r, now) && (r.manual || r.level >= 3))
  }

  predicate HasOpen(rows: seq<Row>, ip: string) {
    exists i :: 0 <= i < |rows| && rows[i].ip == ip && !rows[i].closed
  }

  datatype Push = NoPush | Pushed(ips: set<string>)

  /** Rows appended by one reconciliation: each for a live address without an open row, none twice, each at
      the level its history calls for, in the jail that reported it. */
  ghost predicate Opened(before: seq<Row>, after: seq<Row>, jails: map<string, string>, now: int) {
    && |before| <= |after|
    && (forall i :: |before| <= i < |after| ==>
          after[i].ip in jails && !HasOpen(before, after[i].ip)
          && after[i] == NewRow(before, after[i].ip, jails[after[i].ip], now))
    && (forall i, j :: |before| <= i < j < |after| ==> after[i].ip != after[j].ip)
  }

  /** Every live address with the first jail that listed it. */
  ghost predicate ReportedBy(web: Reading, web404: Reading, ssh: Reading, jails: map<string, string>) {
    && jails.Keys == Live(web) + Live(web404) + Live(ssh)
    && forall ip :: ip in jails ==>
         jails[ip] ==
         if ip in Live(web) then "wppanel" else if ip in Live(web404) then "wppanel-404" else "wppanel-sshd"
  }

  /** One merge: the first report stands. */
  ghost predicate Merged(before: map<string, string>, after: map<string, string>, ips: set<string>, jail: string) {
    after.Keys == before.Keys + ips && forall ip :: ip in after ==>
        after[ip] == if ip in before then before[ip] else jail
  }

  lemma MergedNothing(before: map<string, string>, jail: string)
    ensures Merged(before, before, {}, jail)
  {
  }

  lemma MergedMore(before: map<string, string>, after: map<string, string>, ips: set<string>, ip: string, jail: string)
    requires Merged(before, after, ips, jail)
    ensures Merged(before, if ip in after then after else after[ip := jail], ips + {ip}, jail)
  {
  }

  lemma FirstReports(none: map<string, string>, a: map<string, string>, b: map<string, string>, c: map<string, string>,
                     x: set<string>, y: set<string>, z: set<string>, j: string, k: string, l: string)
    requires none == map[] && Merged(none, a, x, j) && Merged(a, b, y, k) && Merged(b, c, z, l)
    ensures c.Keys == x + y + z
    ensures forall ip :: ip in c ==> c[ip] == if ip in x then j else if ip in y then k else l
  {
    assert a.Keys == x;
  }

  /** Of `ips`, exactly those without an open row whose insert does not fail have a new row. */
  ghost predicate Reported(before: seq<Row>, after: seq<Row>, ips: set<string>, unopened: set<string>) {
    forall ip :: ip in ips ==> (HasNew(before, after, ip) <==> !HasOpen(before, ip) && ip !in unopened)
  }

  ghost predicate HasNew(before: seq<Row>, after: seq<Row>, ip: string) {
    exists i :: |before| <= i < |after| && after[i].ip == ip
  }

  /** Between two inserts: `todo` are the live addresses still to be looked at. */
  ghost predicate Inserting(before: seq<Row>, rows: seq<Row>, jails: map<string, string>, todo: set<string>, now: int,
                            unopened: set<string>) {
    && todo <= jails.Keys && before <= rows && Opened(before, rows, jails, now)
    && (forall i :: |before| <= i < |rows| ==> rows[i].ip !in todo)
    && Reported(before, rows, jails.Keys - todo, unopened)
  }

  lemma NothingInserted(rows: seq<Row>, jails: map<string, string>, now: int, unopened: set<string>)
    ensures Inserting(rows, rows, jails, jails.Keys, now, unopened)
  {
  }

  lemma TodoIsLive(before: seq<Row>, rows: seq<Row>, jails: map<string, string>, todo: set<string>, now: int,
      unopened: set<string>)
    requires Inserting(before, rows, jails, todo, now, unopened)
    ensures todo <= jails.Keys
  {
  }

  lemma AllInserted(before: seq<Row>, rows: seq<Row>, jails: map<string, string>, now: int, unopened: set<string>)
    requires Inserting(before, rows, jails, {}, now, unopened)
    ensures before <= rows && Opened(before, rows, jails, now) && Reported(before, rows, jails.Keys, unopened)
  {
    assert jails.Keys - {} == jails.Keys;
  }

  /** One turn of the insert loop. */
  lemma InsertingMore(before: seq<Row>, mid: seq<Row>, after: seq<Row>, jails: map<string, string>, todo: set<string>,
                      ip: string, now: int, unopened: set<string>)
    requires Inserting(before, mid, jails, todo, now, unopened) && ip in todo
    requires after == if HasOpen(mid, ip) || ip in unopened then mid else mid + [NewRow(mid, ip, jails[ip], now)]
    ensures Inserting(before, after, jails, todo - {ip}, now, unopened)
  {
    hide HasOpen, NewRow, Opened, Reported;
    NewRowIsOf(mid, ip, jails[ip], now);
    OtherRowsDoNotMatter(before, mid, ip, now);
    if after != mid { OpenedMore(before, mid, jails, ip, now); }
    ReportedMore(before, mid, after, jails.Keys - todo, unopened, ip);
    assert jails.Keys - (todo - {ip}) == (jails.Keys - todo) + {ip};
  }

  lemma NewRowIsOf(rows: seq<Row>, ip: string, jail: string, now: int)
    ensures NewRow(rows, ip, jail, now).ip == ip
  {
  }

  lemma ReportedMore(before: seq<Row>, mid: seq<Row>, after: seq<Row>, ips: set<string>, unopened: set<string>,
      ip: string)
    requires Reported(before, mid, ips, unopened) && before <= mid
    requires forall i :: |before| <= i < |mid| ==> mid[i].ip != ip
    requires if HasOpen(before, ip) || ip in unopened then after == mid
             else mid <= after && |after| == |mid| + 1 && after[|mid|].ip == ip
    ensures Reported(before, after, ips + {ip}, unopened)
  {
    hide HasOpen;
    forall x | x in ips && x != ip ensures HasNew(before, mid, x) <==> HasNew(before, after, x) {
      if i :| |before| <= i < |mid| && mid[i].ip == x { assert after[i].ip == x; }
      if i :| |before| <= i < |after| && after[i].ip == x { assert i < |mid| && mid[i].ip == x; }
    }
  }

  class BanTable {
    var rows: seq<Row>

    constructor (rows: seq<Row>)
      ensures this.rows == rows
    {
      this.rows := rows;
    }

    /** One jail's listing merged into the three accumulators; the first jail to report an address keeps
        it. */
    method Merge(jail: string, reading: Reading, jails0: map<string, string>, web0: set<string>)
      returns (jails: map<string, string>, web: set<string>)
      ensures Merged(jails0, jails, Live(reading), jail)
      ensures web == if jail == "wppanel" || jail == "wppanel-404" then web0 + Live(reading) else web0
    {
      jails, web := jails0, web0;
      MergedNothing(jails0, jail);
      if reading.Unread? { return; }
      var isWeb := jail == "wppanel" || jail == "wppanel-404";
      var ips := reading.ips;
      ListedNone(ips);
      for i := 0 to |ips|
        invariant Merged(jails0, jails, Live(Listed(ips[..i])), jail)
        invariant web == if isWeb then web0 + Live(Listed(ips[..i])) else web0
      {
        hide Merged, Live;
        ListedMore(ips, i);
        MergedMore(jails0, jails, Live(Listed(ips[..i])), ips[i], jail);
        if ips[i] !in jails { jails := jails[ips[i] := jail]; }
        if isWeb { web := web + {ips[i]}; }
      }
      assert ips[..|ips|] == ips;
    }

    /** The loop over the three jails. */
    method Gather(web: Reading, web404: Reading, ssh: Reading) returns (jails: map<string, string>, webSet: set<string>)
      ensures ReportedBy(web, web404, ssh, jails) && webSet == Live(web) + Live(web404)
    {
      hide Live, Merged;
      ghost var none: map<string, string> := map[];
      ghost var first, second;
      jails, webSet := Merge("wppanel", web, map[], {});
      first := jails;
      assert webSet == Live(web);
      jails, webSet := Merge("wppanel-404", web404, jails, webSet);
      second := jails;
      jails, webSet := Merge("wppanel-sshd", ssh, jails, webSet);
      FirstReports(none, first, second, jails, Live(web), Live(web404), Live(ssh), "wppanel", "wppanel-404",
          "wppanel-sshd");
    }

    method Insert(ip: string, jail: string, now: int, fails: bool)
      modifies this
      ensures rows == if fails then old(rows) else old(rows) + [NewRow(old(rows), ip, jail, now)]
    {
      if !fails { rows := rows + [NewRow(rows, ip, jail, now)]; }
    }

    /** The insert loop over the live addresses, in any order; `unopened` are the addresses whose insert
        fails. */
    method OpenRows(jails: map<string, string>, now: int, unopened: set<string>)
      modifies this
      ensures old(rows) <= rows && Opened(old(rows), rows, jails, now)
      ensures Reported(old(rows), rows, jails.Keys, unopened)
    {
      hide Inserting, HasOpen, Opened, Reported, NewRow;
      NothingInserted(rows, jails, now, unopened);
      var todo := jails.Keys;
      while todo != {}
        invariant Inserting(old(rows), rows, jails, todo, now, unopened)
        decreases |todo|
      {
        var ip :| ip in todo;
        ghost var was := rows;
        TodoIsLive(old(rows), rows, jails, todo, now, unopened);
        if !HasOpen(rows, ip) { Insert(ip, jails[ip], now, ip in unopened); }
        InsertingMore(old(rows), was, rows, jails, todo, ip, now, unopened);
        todo := todo - {ip};
      }
      AllInserted(old(rows), rows, jails, now, unopened);
    }

    /** The pass over the open rows: which to close, and which web addresses stay banned. */
    method Review(live: set<string>, web0: set<string>, now: int) returns (web: set<string>, expired: seq<nat>)
      ensures expired == ToClose(rows, live, now)
      ensures web == web0 + WebOpen(rows, live, now)
    {
      web := web0;
      expired := [];
      for i := 0 to |rows|
        invariant expired == ToClose(rows[..i], live, now)
        invariant web == web0 + WebOpen(rows[..i], live, now)
      {
        assert rows[..i + 1][..i] == rows[..i];
        var r := rows[i];
        if r.closed { continue; }
        if r.ip in live {
          if IsWebSource(r.jail) { web := web + {r.ip}; }
          continue;
        }
        if r.manual {
          if r.expires.Until? && !(r.expires.time > now) {
            expired := expired + [i];
            continue;
          }
          if IsWebSource(r.jail) { web := web + {r.ip}; }
          continue;
        }
        if r.level >= 3 {
          if r.expires.Never? || r.expires.time > now {
            if IsWebSource(r.jail) { web := web + {r.ip}; }
            continue;
          }
        }
        expired := expired + [i];
      }
      assert rows[..|rows|] == rows;
    }

    /** The closing updates; those of the rows in `failing` fail. */
    method CloseRows(expired: seq<nat>, failing: set<nat>)
      requires forall i: nat :: i in expired ==> i < |rows|
      modifies this
      ensures |rows| == |old(rows)|
      ensures forall i: nat :: i < |rows| ==>
                rows[i] == if i in expired && i !in failing then old(rows)[i].(closed := true) else old(rows)[i]
    {
      for k := 0 to |expired|
        invariant |rows| == |old(rows)|
        invariant forall i: nat :: i < |rows| ==>
                    rows[i] ==
                    if i in expired[..k] && i !in failing then old(rows)[i].(closed := true) else old(rows)[i]
      {
        var i := expired[k];
        assert i in expired;
        assert expired[..k + 1] == expired[..k] + [i];
        if i !in failing { rows := rows[i := rows[i].(closed := true)]; }
      }
      assert expired[..|expired|] == expired;
    }

    /** RecordFail2banBan, called back by fail2ban: a row is added whatever rows are open. `detected` is the
        jail found to hold the address when the caller named none. */
    method Record(valid: string -> bool, raw: string, jail: string, detected: string, now: int, fails: bool)
        returns (ok: bool)
      modifies this
      ensures ok <==> valid(TrimSpace(raw)) && !fails
      ensures rows == if ok then old(rows) + [NewRow(old(rows), TrimSpace(raw), JailFor(jail, detected), now)]
              else old(rows)
      ensures ok ==> Change(old(rows), Recorded(TrimSpace(raw), JailFor(jail, detected), now), rows)
      ensures ok ==>
                var known := TrimSpace(jail) in {"wppanel", "wppanel-404", "wppanel-sshd"};
                rows[|rows| - 1].jail ==
                if known then TrimSpace(jail) else if detected != "" then detected else "wppanel"
    {
      var ip := TrimSpace(raw);
      if !valid(ip) { return false; }
      Insert(ip, JailFor(jail, detected), now, fails);
      ok := !fails;
    }

    /** The second half of a reconciliation. */
    method Settle(live: set<string>, web0: set<string>, now: int, failing: set<nat>) returns (web: set<string>)
      modifies this
      ensures Reconciled(old(rows), rows, live, now, Stuck(old(rows), live, now, failing))
      ensures web == web0 + WebOpen(old(rows), live, now)
    {
      hide Justified, ToClose, WebOpen;
      var expired;
      web, expired := Review(live, web0, now);
      ToCloseMembers(rows, live, now);
      CloseRows(expired, failing);
    }

    /** SyncFail2banBans, on what the three jails list, when the inserts of `unopened` and the closing
        updates of `failing` fail and the open rows can be read or not. `jails` says which jail reported
        each live address, `grown` are the rows after the inserts. */
    method Sync(web: Reading, web404: Reading, ssh: Reading, now: int, unopened: set<string>, queried: bool,
        failing: set<nat>)
      returns (push: Push, ghost jails: map<string, string>, ghost grown: seq<Row>)
      modifies this
      ensures ReportedBy(web, web404, ssh, jails)
      ensures old(rows) <= grown && Opened(old(rows), grown, jails, now)
              && Reported(old(rows), grown, jails.Keys, unopened)
      ensures !queried ==> push.NoPush? && rows == grown
      ensures queried ==> Reconciled(grown, rows, jails.Keys, now, Stuck(grown, jails.Keys, now, failing))
      ensures queried ==> forall i: nat :: i < |grown| ==>
                (!rows[i].closed <==> !grown[i].closed && (i in failing || Justified(grown[i], jails.Keys, now)))
      ensures Change(old(rows), Swept(jails, now, queried, failing), rows)
      ensures push.Pushed? ==> push.ips == Live(web) + Live(web404) + WebOpen(grown, jails.Keys, now)
      ensures queried && push.NoPush? ==> web.Unread? && web404.Unread? && WebOpen(grown, jails.Keys, now) == {}
      // Of the listed addresses exactly those all whose bans are closed get a new one, unless its insert fails.
      ensures forall ip :: ip in jails ==>
                ((exists i: nat :: |old(rows)| <= i < |grown| && grown[i].ip == ip) <==>
                 ip !in unopened && forall i: nat :: i < |old(rows)| && old(rows)[i].ip == ip ==> old(rows)[i].closed)
      // A new ban is booked for the first of the three jails that lists its address.
      ensures forall i: nat :: |old(rows)| <= i < |grown| ==>
                if web.Listed? && grown[i].ip in web.ips then grown[i].jail == "wppanel"
                else if web404.Listed? && grown[i].ip in web404.ips then grown[i].jail == "wppanel-404"
                else grown[i].jail == "wppanel-sshd" && ssh.Listed? && grown[i].ip in ssh.ips
      // What a web jail lists is pushed.
      ensures queried && web.Listed? ==> push.Pushed? && forall ip :: ip in web.ips ==> ip in push.ips
      ensures queried && web404.Listed? ==> push.Pushed? && forall ip :: ip in web404.ips ==> ip in push.ips
      // A ban by hand or by a web jail stays open and is pushed while its address is listed by any jail, and
      // while it has not expired if it is manual or severe.
      ensures queried ==>
                forall i: nat | i < |grown| && !grown[i].closed
                  && (grown[i].jail == "manual" || grown[i].jail == "wppanel" || grown[i].jail == "wppanel-404")
                  && (grown[i].ip in jails || ((grown[i].manual || grown[i].level >= 3)
                                               && (grown[i].expires.Until? ==> grown[i].expires.time > now)))
                :: !rows[i].closed && push.Pushed? && grown[i].ip in push.ips
      // Nothing else is pushed, no SSH ban in particular.
      ensures push.Pushed? ==>
                forall ip | ip in push.ips
                  && (web.Listed? ==> ip !in web.ips) && (web404.Listed? ==> ip !in web404.ips)
                :: exists i: nat | i < |grown| ::
                  grown[i].ip == ip && !rows[i].closed
                  && (grown[i].jail == "manual" || grown[i].jail == "wppanel" || grown[i].jail == "wppanel-404")
      // A ban whose address no jail lists is closed when it has expired, or is automatic and below level 3.
      ensures queried ==>
                forall i: nat | i < |grown| && i !in failing && grown[i].ip !in jails
                  && ((grown[i].expires.Until? && grown[i].expires.time <= now)
                      || (!grown[i].manual && grown[i].level < 3))
                :: rows[i].closed
    {
      hide Opened, Reported, Reconciled, WebOpen, Live, Stuck, IsWebSource, Justified, ReportedBy, StaysOpenForWeb;
      var ipJails, webSet := Gather(web, web404, ssh);
      var webRead := web.Listed? || web404.Listed?;
      jails := ipJails;
      OpenRows(ipJails, now, unopened);
      grown := rows;
      BookedJails(old(rows), grown, web, web404, ssh, jails, now);
      NewBans(old(rows), grown, jails, unopened);
      push := NoPush;
      if !queried { return; }
      webSet := Settle(ipJails.Keys, webSet, now, failing);
      StaysOpen(grown, rows, jails.Keys, now, failing);
      WebBansStay(grown, web, web404, jails.Keys, now);
      if webRead || webSet != {} { push := Pushed(webSet); }
    }
  }

  /** A report by fail2ban that was recorded, or a reconciliation: `failing` are the rows whose closing update
      fails, and the open rows can be read or not. */
  datatype Event = Recorded(ip: string, jail: string, now: int)
                 | Swept(jails: map<string, string>, now: int, queried: bool, failing: set<nat>)

  /** One change of the table. */
  ghost predicate Change(before: seq<Row>, e: Event, after: seq<Row>) {
    match e
    case Recorded(ip, jail, now) => after == before + [NewRow(before, ip, jail, now)]
    case Swept(jails, now, queried, failing) =>
      exists grown :: before <= grown && Opened(before, grown, jails, now) && Closed(grown, after, e)
  }

  ghost predicate Closed(grown: seq<Row>, after: seq<Row>, e: Event)
    requires e.Swept?
  {
    if e.queried then Reconciled(grown, after, e.jails.Keys, e.now, Stuck(grown, e.jails.Keys, e.now, e.failing))
    else after == grown
  }

  /** The rows that stay open only because their closing update fails. */
  ghost function Stuck(rows: seq<Row>, live: set<string>, now: int, failing: set<nat>): set<nat> {
    set i | i in failing && i < |rows| && !rows[i].closed && !Justified(rows[i], live, now)
  }

  /** The rows a review finds no ground to keep open. */
  function ToClose(rows: seq<Row>, live: set<string>, now: int): seq<nat> {
    if rows == [] then []
    else
      var n := |rows| - 1;
      ToClose(rows[..n], live, now) + if !rows[n].closed && !Justified(rows[n], live, now) then [n] else []
  }

  lemma {:induction false} ToCloseMembers(rows: seq<Row>, live: set<string>, now: int)
    ensures forall i: nat :: i in ToClose(rows, live, now) <==>
            i < |rows| && !rows[i].closed && !Justified(rows[i], live, now)
  {
    if rows != [] {
      var n := |rows| - 1;
      ToCloseMembers(rows[..n], live, now);
      assert forall i :: 0 <= i < n ==> rows[..n][i] == rows[i];
    }
  }

  /** `after` is `grown` with every open row that is not justified closed, except the stuck ones. */
  ghost predicate Reconciled(grown: seq<Row>, after: seq<Row>, live: set<string>, now: int, stuck: set<nat>) {
    && |after| == |grown|
    && (forall i :: i in stuck ==> i < |grown| && !grown[i].closed && !Justified(grown[i], live, now))
    && (forall i: nat :: i < |grown| ==>
          after[i] == if !grown[i].closed && !Justified(grown[i], live, now) && i !in stuck
                      then grown[i].(closed := true) else grown[i])
  }

  /** An address of an open row with a web source. */
  ghost predicate OpenWebRow(rows: seq<Row>, except: set<nat>, ip: string) {
    exists i: nat :: i < |rows| && i !in except && !rows[i].closed && rows[i].ip == ip && IsWebSource(rows[i].jail)
  }

  /** The set pushed to nginx: live in a web jail, or the address of a row still open afterwards that has a
      web source. */
  lemma PushedSetMatchesTable(grown: seq<Row>, after: seq<Row>, webLive: set<string>, live: set<string>, now: int,
      stuck: set<nat>)
    requires Reconciled(grown, after, live, now, stuck)
    ensures forall ip :: ip in webLive + WebOpen(grown, live, now) <==> ip in webLive || OpenWebRow(after, stuck, ip)
  {
    forall ip ensures ip in WebOpen(grown, live, now) <==> OpenWebRow(after, stuck, ip) {
      WebOpenMembers(grown, live, now, ip);
      if ip in WebOpen(grown, live, now) {
        var i: nat :| StaysOpenForWeb(grown, live, now, ip, i);
        assert after[i] == grown[i];
      }
      if OpenWebRow(after, stuck, ip) {
        var i: nat :| i < |after| && i !in stuck && !after[i].closed && after[i].ip == ip && IsWebSource(after[i].jail);
        assert after[i] == grown[i];
        assert StaysOpenForWeb(grown, live, now, ip, i);
      }
    }
  }

  /** With every closing update done, the pushed set misses an open web row's address exactly never; a
      stuck row is missed exactly when it has a web source and its address is not pushed for another
      reason. */
  lemma MissedOpenRowIffStuck(grown: seq<Row>, after: seq<Row>, webLive: set<string>, live: set<string>, now: int,
      stuck: set<nat>)
    requires Reconciled(grown, after, live, now, stuck)
    ensures (forall ip :: OpenWebRow(after, {}, ip) ==> ip in webLive + WebOpen(grown, live, now)) <==>
            (forall i :: i in stuck && IsWebSource(grown[i].jail) ==>
               grown[i].ip in webLive || OpenWebRow(after, stuck, grown[i].ip))
  {
    PushedSetMatchesTable(grown, after, webLive, live, now, stuck);
    var pushed := webLive + WebOpen(grown, live, now);
    forall i | i in stuck && IsWebSource(grown[i].jail) ensures OpenWebRow(after, {}, grown[i].ip) {
      assert after[i] == grown[i];
    }
    forall ip | OpenWebRow(after, {}, ip)
      ensures ip in pushed || exists i :: i in stuck && IsWebSource(grown[i].jail) && grown[i].ip == ip && ip !in pushed
    {
      var i: nat :| i < |after| && !after[i].closed && after[i].ip == ip && IsWebSource(after[i].jail);
      if i !in stuck { assert OpenWebRow(after, stuck, ip); }
    }
  }

  /** A row stays open exactly if it is live, or unexpired and manual or severe, or its update fails. */
  lemma StaysOpen(grown: seq<Row>, after: seq<Row>, live: set<string>, now: int, failing: set<nat>)
    requires Reconciled(grown, after, live, now, Stuck(grown, live, now, failing))
    ensures |after| == |grown|
    ensures forall i: nat :: i < |grown| ==>
              (!after[i].closed <==> !grown[i].closed && (i in failing || Justified(grown[i], live, now)))
  {
  }

  lemma NewBans(before: seq<Row>, grown: seq<Row>, jails: map<string, string>, unopened: set<string>)
    requires Reported(before, grown, jails.Keys, unopened)
    ensures forall ip :: ip in jails ==>
              ((exists i: nat :: |before| <= i < |grown| && grown[i].ip == ip) <==>
               ip !in unopened && forall i: nat :: i < |before| && before[i].ip == ip ==> before[i].closed)
  {
    forall ip | ip in jails
      ensures HasNew(before, grown, ip) <==>
              ip !in unopened && forall i: nat :: i < |before| && before[i].ip == ip ==> before[i].closed {
      assert ip in jails.Keys;
    }
    assert forall ip :: HasNew(before, grown, ip) <==>
                        exists i: nat :: |before| <= i < |grown| && grown[i].ip == ip;
  }

  lemma BookedJails(before: seq<Row>, grown: seq<Row>, web: Reading, web404: Reading, ssh: Reading,
                    jails: map<string, string>, now: int)
    requires ReportedBy(web, web404, ssh, jails) && Opened(before, grown, jails, now)
    ensures forall i: nat :: |before| <= i < |grown| ==>
              if web.Listed? && grown[i].ip in web.ips then grown[i].jail == "wppanel"
              else if web404.Listed? && grown[i].ip in web404.ips then grown[i].jail == "wppanel-404"
              else grown[i].jail == "wppanel-sshd" && ssh.Listed? && grown[i].ip in ssh.ips
  {
    hide NextLevel, ExpiryOf, PreviousBans, HasOpen, Live;
    LiveIsListed(web);
    LiveIsListed(web404);
    LiveIsListed(ssh);
    forall i: nat | |before| <= i < |grown|
      ensures if web.Listed? && grown[i].ip in web.ips then grown[i].jail == "wppanel"
              else if web404.Listed? && grown[i].ip in web404.ips then grown[i].jail == "wppanel-404"
              else grown[i].jail == "wppanel-sshd" && ssh.Listed? && grown[i].ip in ssh.ips {
      var ip := grown[i].ip;
      assert grown[i] == NewRow(before, ip, jails[ip], now);
      assert ip in jails.Keys;
    }
  }

  /** The pushed addresses, jail by jail. */
  lemma WebBansStay(grown: seq<Row>, web: Reading, web404: Reading, live: set<string>, now: int)
    ensures forall i: nat | i < |grown| && !grown[i].closed && Justified(grown[i], live, now)
              && (grown[i].jail == "manual" || grown[i].jail == "wppanel" || grown[i].jail == "wppanel-404")
            :: grown[i].ip in WebOpen(grown, live, now)
    ensures forall ip | ip in WebOpen(grown, live, now) ::
              exists i: nat | i < |grown| ::
                grown[i].ip == ip && !grown[i].closed && Justified(grown[i], live, now)
                && (grown[i].jail == "manual" || grown[i].jail == "wppanel" || grown[i].jail == "wppanel-404")
    ensures forall r :: Justified(r, live, now) <==>
              r.ip in live || ((r.manual || r.level >= 3) && (r.expires.Until? ==> r.expires.time > now))
    ensures forall ip :: ip in Live(web) <==> web.Listed? && ip in web.ips
    ensures forall ip :: ip in Live(web404) <==> web404.Listed? && ip in web404.ips
  {
    hide WebOpen, Justified, Live;
    LiveIsListed(web);
    LiveIsListed(web404);
    forall i: nat | i < |grown| && !grown[i].closed && Justified(grown[i], live, now)
        && (grown[i].jail == "manual" || grown[i].jail == "wppanel" || grown[i].jail == "wppanel-404")
      ensures grown[i].ip in WebOpen(grown, live, now) {
      WebOpenMembers(grown, live, now, grown[i].ip);
      assert StaysOpenForWeb(grown, live, now, grown[i].ip, i);
    }
    forall ip | ip in WebOpen(grown, live, now)
      ensures exists i: nat | i < |grown| ::
                grown[i].ip == ip && !grown[i].closed && Justified(grown[i], live, now)
                && (grown[i].jail == "manual" || grown[i].jail == "wppanel" || grown[i].jail == "wppanel-404") {
      WebOpenMembers(grown, live, now, ip);
      var i: nat :| StaysOpenForWeb(grown, live, now, ip, i);
    }
    forall r ensures Justified(r, live, now) <==>
        r.ip in live || ((r.manual || r.level >= 3) && (r.expires.Until? ==> r.expires.time > now)) {
      JustifiedIff(r, live, now);
    }
  }

  lemma JustifiedIff(r: Row, live: set<string>, now: int)
    ensures Justified(r, live, now) <==>
            r.ip in live || ((r.manual || r.level >= 3) && (r.expires.Until? ==> r.expires.time > now))
  {
  }

  lemma OpenedIsLive(before: seq<Row>, after: seq<Row>, jails: map<string, string>, now: int, i: nat)
    requires Opened(before, after, jails, now) && |before| <= i < |after|
    ensures after[i].ip in jails
  {
  }

  lemma NoneOpened(before: seq<Row>, after: seq<Row>, jails: map<string, string>, now: int)
    requires before <= after && Opened(before, after, jails, now) && jails.Keys == {}
    ensures after == before
  {
    if |before| < |after| {
      OpenedIsLive(before, after, jails, now, |before|);
      assert false;
    }
  }

  /** A failed update, seen from nginx: the open row of an expired ban by a web jail, and a pushed set without
      its address. */
  method StuckRowIsMissed(ip: string) returns (table: BanTable, push: Push)
    ensures OpenWebRow(table.rows, {}, ip) && push == Pushed({})
  {
    var row := Row(ip, 2, "wppanel", false, 0, Until(SHORT_BAN), 1, false);
    table := new BanTable([row]);
    ghost var jails, grown;
    push, jails, grown := table.Sync(Listed([]), Listed([]), Listed([]), DAY, {}, true, {0});
    NoneOpened([row], grown, jails, DAY);
    assert grown[..0] == [];
    assert table.rows[0] == row;
  }

  /** Addresses of the rows that a review keeps open and that have a web source. */
  function WebOpen(rows: seq<Row>, live: set<string>, now: int): set<string> {
    if rows == [] then {}
    else
      var n := |rows| - 1;
      WebOpen(rows[..n], live, now)
      + if !rows[n].closed && Justified(rows[n], live, now) && IsWebSource(rows[n].jail) then {rows[n].ip} else {}
  }

  ghost predicate StaysOpenForWeb(rows: seq<Row>, live: set<string>, now: int, ip: string, i: nat) {
    i < |rows| && !rows[i].closed && Justified(rows[i], live, now) && rows[i].ip == ip && IsWebSource(rows[i].jail)
  }

  lemma {:induction false} WebOpenMembers(rows: seq<Row>, live: set<string>, now: int, ip: string)
    ensures ip in WebOpen(rows, live, now) <==> exists i: nat :: StaysOpenForWeb(rows, live, now, ip, i)
  {
    if rows != [] {
      var n := |rows| - 1;
      WebOpenMembers(rows[..n], live, now, ip);
      assert forall i: nat :: i < n ==>
             StaysOpenForWeb(rows[..n], live, now, ip, i) == StaysOpenForWeb(rows, live, now, ip, i);
      if exists i: nat :: StaysOpenForWeb(rows, live, now, ip, i) {
        var i: nat :| StaysOpenForWeb(rows, live, now, ip, i);
        assert i < n ==> StaysOpenForWeb(rows[..n], live, now, ip, i);
      }
      if ip in WebOpen(rows[..n], live, now) {
        var i: nat :| StaysOpenForWeb(rows[..n], live, now, ip, i);
        assert StaysOpenForWeb(rows, live, now, ip, i);
      }
      assert ip in WebOpen(rows, live, now) && ip !in WebOpen(rows[..n], live, now) ==>
             StaysOpenForWeb(rows, live, now, ip, n);
    }
  }

  /** One more row for a live address without an open row. */
  lemma OpenedMore(before: seq<Row>, after: seq<Row>, jails: map<string, string>, ip: string, now: int)
    requires before <= after && Opened(before, after, jails, now)
    requires ip in jails && !HasOpen(before, ip)
             && NewRow(after, ip, jails[ip], now) == NewRow(before, ip, jails[ip], now)
    requires forall i :: |before| <= i < |after| ==> after[i].ip != ip
    ensures before <= after + [NewRow(after, ip, jails[ip], now)]
    ensures Opened(before, after + [NewRow(after, ip, jails[ip], now)], jails, now)
  {
    hide HasOpen, NextLevel, PreviousBans, ExpiryOf;
    var row := NewRow(after, ip, jails[ip], now);
    var more := after + [row];
    assert row.ip == ip;
    assert forall i :: 0 <= i < |after| ==> more[i] == after[i];
  }

  /** Rows of other addresses leave an address's history alone. */
  lemma {:induction false} OtherRowsDoNotMatter(before: seq<Row>, after: seq<Row>, ip: string, now: int)
    requires before <= after && forall i :: |before| <= i < |after| ==> after[i].ip != ip
    ensures NewRow(after, ip, "", now) == NewRow(before, ip, "", now)
    ensures forall jail :: NewRow(after, ip, jail, now) == NewRow(before, ip, jail, now)
    ensures HasOpen(after, ip) <==> HasOpen(before, ip)
  {
    RecentIgnoresOthers(before, after, ip, now - DAY);
    RecentIgnoresOthers(before, after, ip, now - 30 * DAY);
  }

  lemma {:induction false} RecentIgnoresOthers(before: seq<Row>, after: seq<Row>, ip: string, since: int)
    requires before <= after && forall i :: |before| <= i < |after| ==> after[i].ip != ip
    ensures Recent(after, ip, since) == Recent(before, ip, since)
    decreases |after|
  {
    if |before| < |after| {
      var n := |after| - 1;
      assert after[n].ip != ip;
      RecentIgnoresOthers(before, after[..n], ip, since);
    } else {
      assert before == after;
    }
  }
}
