/** The alert rules' debounce machine (executor/alert_monitor.go): one rule, checked once a minute or so.
    Times are seconds; one check reads the clock once. */
module AlertMonitor {

  const MINUTE := 60
  const RECOVERY_QUIET := 5 * MINUTE

  datatype Clock = Unset | At(time: int)

  /** What one check may cause: an alert, a repeated alert, or a recovery, which is announced or not. */
  datatype Event = Quiet | Alert | Resend | Recovered(announced: bool)

  /** One check: whether the rule is enabled and whether its condition holds. */
  datatype Tick = Tick(enabled: bool, instant: bool, time: int)

  /** alertResendInterval. */
  function ResendInterval(key: string): int {
    if key == "alert_system_update" || key == "alert_panel_update" then 24 * 60 * MINUTE else 30 * MINUTE
  }

  class AlertRule {
    const key: string
    const threshold: int
    var pendingSince: Clock
    var lastFired: Clock
    var firing: bool
    ghost var ticks: seq<Tick>

    /** The fields say what the whole history of checks says. */
    ghost predicate Valid()
      reads this
    {
      && InOrder(ticks)
      && firing == Sustained(ticks, threshold)
      && (threshold > 0 ==> pendingSince == Since(ticks))
      && (firing ==> lastFired.At? && ticks != [] && lastFired.time <= ticks[|ticks| - 1].time)
    }

    constructor (key: string, threshold: int)
      ensures Valid() && ticks == [] && lastFired.Unset? && this.key == key && this.threshold == threshold
    {
      this.key, this.threshold := key, threshold;
      pendingSince, lastFired, firing := Unset, Unset, false;
      ticks := [];
    }

    /** sustainedFiring. */
    method SustainedFiring(instant: bool, now: int) returns (r: bool)
      modifies this`pendingSince
      ensures threshold <= 0 ==> r == instant
      ensures threshold > 0 ==>
                pendingSince ==
                (if !instant then Unset else if old(pendingSince).Unset? then At(now) else old(pendingSince))
                && r == (instant && old(pendingSince).At? && now - old(pendingSince).time >= threshold)
    {
      if threshold <= 0 {
        if !instant { pendingSince := Unset; }
        return instant;
      }
      if !instant {
        pendingSince := Unset;
        return false;
      }
      if pendingSince.Unset? {
        pendingSince := At(now);
        return false;
      }
      return now - pendingSince.time >= threshold;
    }

    /** One rule's turn in runChecks. An alert is raised exactly when the condition becomes sustained, a
        recovery recorded exactly when an enabled rule's condition stops being so; repeated alerts are more
        than an interval after the alert before; and short alerts of thresholded rules recover silently. */
    method Check(enabled: bool, instant: bool, now: int) returns (e: Event)
      requires Valid() && (ticks != [] ==> ticks[|ticks| - 1].time <= now)
      modifies this
      ensures Valid() && ticks == old(ticks) + [Tick(enabled, instant, now)]
      ensures e.Alert? <==> Sustained(ticks, threshold) && !Sustained(old(ticks), threshold)
      ensures e.Recovered? <==> enabled && !Sustained(ticks, threshold) && Sustained(old(ticks), threshold)
      ensures e.Recovered? ==> (e.announced <==> threshold <= 0 || now - old(lastFired.time) > RECOVERY_QUIET)
      ensures e.Resend? <==> Sustained(ticks, threshold) && Sustained(old(ticks), threshold)
                             && now - old(lastFired.time) > ResendInterval(key)
      ensures lastFired == if e.Alert? || e.Resend? then At(now) else old(lastFired)
    {
      hide Since, Sustained, Streak;
      StreakStep(ticks, Tick(enabled, instant, now), threshold);
      ticks := ticks + [Tick(enabled, instant, now)];
      e := Quiet;
      if !enabled {
        firing := false;
        pendingSince := Unset;
        return;
      }
      var sustained := SustainedFiring(instant, now);
      if sustained && !firing {
        firing := true;
        lastFired := At(now);
        e := Alert;
      } else if !sustained && firing {
        firing := false;
        e := Recovered(now - lastFired.time > RECOVERY_QUIET || threshold <= 0);
      } else if sustained && firing {
        if now - lastFired.time > ResendInterval(key) {
          lastFired := At(now);
          e := Resend;
        }
      }
    }
  }

  predicate InOrder(ticks: seq<Tick>) {
    forall i, j :: 0 <= i < j < |ticks| ==> ticks[i].time <= ticks[j].time
  }

  /** How many of the last checks in a row found the rule enabled and its condition true. */
  function Streak(ticks: seq<Tick>): (n: nat)
    ensures n <= |ticks|
    ensures forall i :: |ticks| - n <= i < |ticks| ==> ticks[i].enabled && ticks[i].instant
    ensures n < |ticks| ==> !(ticks[|ticks| - n - 1].enabled && ticks[|ticks| - n - 1].instant)
  {
    if ticks == [] then 0
    else
      var last := ticks[|ticks| - 1];
      if last.enabled && last.instant then Streak(ticks[..|ticks| - 1]) + 1 else 0
  }

  /** When the present unbroken run of true checks began. */
  function Since(ticks: seq<Tick>): Clock {
    var n := Streak(ticks);
    if n > 0 then At(ticks[|ticks| - n].time) else Unset
  }

  /** The condition has held without a break for at least the threshold. */
  predicate Sustained(ticks: seq<Tick>, threshold: int) {
    Since(ticks).At? && ticks != [] && ticks[|ticks| - 1].time - Since(ticks).time >= threshold
  }

  /** From check `i` on the rule was enabled and its condition true every time. */
  ghost predicate TrueFrom(ticks: seq<Tick>, i: nat) {
    i < |ticks| && forall j :: i <= j < |ticks| ==> ticks[j].enabled && ticks[j].instant
  }

  /** Told by the checks alone: the condition has held from some check on that is at least the threshold before
      the last one. */
  lemma SustainedIff(ticks: seq<Tick>, threshold: int)
    requires InOrder(ticks)
    ensures Sustained(ticks, threshold) <==>
            exists i: nat :: TrueFrom(ticks, i) && ticks[|ticks| - 1].time - ticks[i].time >= threshold
  {
    var n := |ticks| - Streak(ticks);
    assert forall i: nat :: TrueFrom(ticks, i) ==> n <= i;
    assert n < |ticks| ==> TrueFrom(ticks, n);
  }

  /** One more check, in time order: the run goes on, starts now, or ends. */
  lemma StreakStep(ticks: seq<Tick>, t: Tick, threshold: int)
    requires InOrder(ticks) && (ticks != [] ==> ticks[|ticks| - 1].time <= t.time)
    ensures InOrder(ticks + [t])
    ensures Since(ticks + [t]) ==
            if !(t.enabled && t.instant) then Unset else if Since(ticks).Unset? then At(t.time) else Since(ticks)
    ensures Sustained(ticks + [t], threshold) <==>
            t.enabled && t.instant && (threshold <= 0 || (Since(ticks).At? && t.time - Since(ticks).time >= threshold))
  {
    var more := ticks + [t];
    assert more[..|ticks|] == ticks;
    assert Streak(more) == if t.enabled && t.instant then Streak(ticks) + 1 else 0;
    assert Streak(ticks) > 0 ==> more[|more| - (Streak(ticks) + 1)] == ticks[|ticks| - Streak(ticks)];
  }

  /** Check k of a run raises an alert exactly when the condition becomes sustained there, and a recovery
      exactly when it stops being so while the rule is enabled. */
  ghost predicate Told(e: Event, ticks: seq<Tick>, k: nat, threshold: int)
    requires k < |ticks|
  {
    && (e.Alert? <==> Sustained(ticks[..k + 1], threshold) && !Sustained(ticks[..k], threshold))
    && (e.Recovered? <==> ticks[k].enabled && !Sustained(ticks[..k + 1], threshold) && Sustained(ticks[..k], threshold))
  }

  predicate Notifies(e: Event) {
    e.Alert? || e.Resend?
  }

  /** Every notification before check `k` is more than `gap` ago. */
  ghost predicate LongAgo(events: seq<Event>, ticks: seq<Tick>, k: nat, gap: int)
    requires k <= |events| && k < |ticks|
  {
    forall i :: 0 <= i < k && Notifies(events[i]) ==> ticks[k].time - ticks[i].time > gap
  }

  /** An alert that goes on is repeated exactly when every notification before is more than the interval
      ago, and a recovery announced exactly when the rule has no threshold or every one is minutes ago. */
  ghost predicate Timed(events: seq<Event>, ticks: seq<Tick>, k: nat, threshold: int, interval: int)
    requires k < |events| && k < |ticks|
  {
    && (events[k].Resend? <==> Sustained(ticks[..k + 1], threshold) && Sustained(ticks[..k], threshold)
                               && LongAgo(events, ticks, k, interval))
    && (events[k].Recovered? ==> (events[k].announced <==> threshold <= 0 || LongAgo(events, ticks, k, 300)))
  }

  /** The last notification, if there is one, was at `last`. */
  ghost predicate LastAt(events: seq<Event>, ticks: seq<Tick>, last: Clock)
    requires |events| <= |ticks|
  {
    && (last.At? ==> exists i :: 0 <= i < |events| && Notifies(events[i]) && ticks[i].time == last.time)
    && forall i :: 0 <= i < |events| && Notifies(events[i]) ==> last.At? && ticks[i].time <= last.time
  }

  lemma LastDecides(events: seq<Event>, ticks: seq<Tick>, last: Clock, gap: int)
    requires |events| < |ticks| && LastAt(events, ticks, last)
    ensures LongAgo(events, ticks, |events|, gap) <==> last.Unset? || ticks[|events|].time - last.time > gap
  {
  }

  lemma LongAgoStays(events: seq<Event>, e: Event, ticks: seq<Tick>, k: nat, gap: int)
    requires k <= |events| < |ticks|
    ensures LongAgo(events + [e], ticks, k, gap) == LongAgo(events, ticks, k, gap)
  {
    assert forall i :: 0 <= i < k ==> (events + [e])[i] == events[i];
  }

  lemma TimedStays(events: seq<Event>, e: Event, ticks: seq<Tick>, k: nat, threshold: int, interval: int)
    requires k < |events| < |ticks| && Timed(events, ticks, k, threshold, interval)
    ensures Timed(events + [e], ticks, k, threshold, interval)
  {
    hide LongAgo, Sustained;
    LongAgoStays(events, e, ticks, k, interval);
    LongAgoStays(events, e, ticks, k, 300);
  }

  lemma LastNext(events: seq<Event>, e: Event, ticks: seq<Tick>, last: Clock)
    requires |events| < |ticks| && InOrder(ticks) && LastAt(events, ticks, last)
    ensures LastAt(events + [e], ticks, if Notifies(e) then At(ticks[|events|].time) else last)
  {
    var more := events + [e];
    assert more[|events|] == e;
    if i :| 0 <= i < |events| && Notifies(events[i]) && last.At? && ticks[i].time == last.time {
      assert more[i] == events[i];
    }
  }

  /** A whole run of checks, in time order: every event is determined by the checks up to it. */
  method Run(key: string, threshold: int, ticks: seq<Tick>) returns (events: seq<Event>)
    requires InOrder(ticks)
    ensures |events| == |ticks|
    ensures forall k :: 0 <= k < |ticks| ==> Told(events[k], ticks, k, threshold)
    ensures var interval := if key == "alert_system_update" || key == "alert_panel_update" then 86400 else 1800;
            forall k :: 0 <= k < |ticks| ==> Timed(events, ticks, k, threshold, interval)
  {
    hide Sustained, Since, Streak, AlertRule.Valid, ResendInterval, Told, Timed, LongAgo, LastAt;
    var rule := new AlertRule(key, threshold);
    events := [];
    NothingYet(ticks);
    for k := 0 to |ticks|
      invariant rule.Valid() && rule.ticks == ticks[..k] && rule.threshold == threshold && rule.key == key
                && fresh(rule)
      invariant |events| == k && LastAt(events, ticks, rule.lastFired)
      invariant forall i :: 0 <= i < k ==> Told(events[i], ticks, i, threshold)
      invariant forall i :: 0 <= i < k ==> Timed(events, ticks, i, threshold, ResendInterval(key))
    {
      assert ticks[..k + 1] == ticks[..k] + [ticks[k]];
      assert k > 0 ==> ticks[..k][k - 1] == ticks[k - 1];
      ghost var was, last := events, rule.lastFired;
      SustainedFired(rule);
      var e := rule.Check(ticks[k].enabled, ticks[k].instant, ticks[k].time);
      events := events + [e];
      ItIsTold(e, ticks, k, threshold);
      ItIsTimed(was, e, ticks, k, threshold, ResendInterval(key), last);
      LastNext(was, e, ticks, last);
      forall i | 0 <= i < k ensures Timed(events, ticks, i, threshold, ResendInterval(key)) {
        TimedStays(was, e, ticks, i, threshold, ResendInterval(key));
      }
    }
    IntervalOf(key);
  }

  lemma IntervalOf(key: string)
    ensures ResendInterval(key) == if key == "alert_system_update" || key == "alert_panel_update" then 86400 else 1800
  {
  }

  lemma NothingYet(ticks: seq<Tick>)
    ensures LastAt([], ticks, Unset)
  {
  }

  /** A sustained condition has been notified. */
  lemma SustainedFired(rule: AlertRule)
    requires rule.Valid()
    ensures Sustained(rule.ticks, rule.threshold) ==> rule.lastFired.At?
  {
  }

  lemma ItIsTold(e: Event, ticks: seq<Tick>, k: nat, threshold: int)
    requires k < |ticks|
    requires e.Alert? <==> Sustained(ticks[..k + 1], threshold) && !Sustained(ticks[..k], threshold)
    requires e.Recovered? <==>
             ticks[k].enabled && !Sustained(ticks[..k + 1], threshold) && Sustained(ticks[..k], threshold)
    ensures Told(e, ticks, k, threshold)
  {
  }

  lemma ItIsTimed(events: seq<Event>, e: Event, ticks: seq<Tick>, k: nat, threshold: int, interval: int, last: Clock)
    requires k == |events| < |ticks| && LastAt(events, ticks, last)
    requires Sustained(ticks[..k], threshold) ==> last.At?
    requires e.Recovered? ==> Sustained(ticks[..k], threshold)
    requires e.Recovered? && last.At? ==>
             (e.announced <==> threshold <= 0 || ticks[k].time - last.time > RECOVERY_QUIET)
    requires e.Resend? <==> Sustained(ticks[..k + 1], threshold) && Sustained(ticks[..k], threshold)
                            && last.At? && ticks[k].time - last.time > interval
    ensures Timed(events + [e], ticks, k, threshold, interval)
  {
    hide Sustained, LongAgo;
    LongAgoStays(events, e, ticks, k, interval);
    LongAgoStays(events, e, ticks, k, 300);
    LastDecides(events, ticks, last, interval);
    LastDecides(events, ticks, last, 300);
    assert (events + [e])[k] == e;
  }
}
