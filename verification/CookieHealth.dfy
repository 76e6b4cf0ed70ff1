/**
  The cookie health monitor: a verdict cache in front of a probe, and an alert machine behind it. `probe`
  says what the site answers for a cookie at a moment; the time limit of the token is part of it.
 */
module CookieHealth {
  import opened Outcomes

  datatype Verdict = Verdict(healthy: bool, checkedAt: real)

  type Probe = (string, real) -> bool

  /** A missing cookie is unhealthy without a probe. */
  function Checked(probe: Probe, cookie: string, at: real): Verdict {
    Verdict(cookie != "" && probe(cookie, at), at)
  }

  // ---- the alert machine ----

  /** `None` before the first handled verdict. */
  datatype Alarm = Alarm(lastHealthy: Option<bool>, lastAlert: real)

  const QUIET := Alarm(None, 0.0)

  /** A verdict as it is handled: the clock, whether there is a notifier, whether sending works. */
  datatype Handling = Handling(healthy: bool, now: real, notifier: bool, sends: bool)

  predicate TriesAlert(cooldown: real, a: Alarm, h: Handling) {
    h.notifier && a.lastHealthy != Some(false) && !h.healthy && h.now - a.lastAlert >= cooldown
  }

  predicate SendsAlert(cooldown: real, a: Alarm, h: Handling) {
    TriesAlert(cooldown, a, h) && h.sends
  }

  predicate TriesRecovery(a: Alarm, h: Handling) {
    h.notifier && a.lastHealthy == Some(false) && h.healthy
  }

  function Handled(cooldown: real, a: Alarm, h: Handling): Alarm {
    Alarm(Some(h.healthy), if SendsAlert(cooldown, a, h) then h.now else a.lastAlert)
  }

  // ---- the checker ----

  datatype Checker = Checker(cookie: string, lastCheck: real, cached: Option<Verdict>, alarm: Alarm)

  function AtLeast60(seconds: real): (s: real)
    ensures s >= 60.0 && s >= seconds && (s == 60.0 || s == seconds)
  {
    if seconds > 60.0 then seconds else 60.0
  }

  predicate NeedsCheck(interval: real, c: Checker, now: real) {
    c.cookie == "" || now - c.lastCheck >= interval
  }

  predicate ServesCached(interval: real, c: Checker, force: bool, now: real) {
    !force && !NeedsCheck(interval, c, now) && c.cached.Some?
  }

  function WithCookie(c: Checker, value: string): Checker {
    c.(cookie := value, lastCheck := 0.0, cached := None)
  }

  /** What a check meets: whether it is forced, its clock readings, a refreshed cookie if the cascade finds one. */
  datatype Check = Check(force: bool, now: real, probeAt: real, refreshed: Option<string>, reprobeAt: real,
                         doneAt: real, handledAt: real, notifier: bool, sends: bool)

  function AfterSync(interval: real, probe: Probe, c: Checker, k: Check): Checker {
    if ServesCached(interval, c, k.force, k.now) then c
    else c.(lastCheck := k.doneAt, cached := Some(Checked(probe, c.cookie, k.probeAt)))
  }

  function SyncVerdict(interval: real, probe: Probe, c: Checker, k: Check): Verdict {
    if ServesCached(interval, c, k.force, k.now) then c.cached.value else Checked(probe, c.cookie, k.probeAt)
  }

  /** The cascade runs only for an unhealthy verdict, and its success changes the cookie. */
  predicate Refreshes(probe: Probe, c: Checker, k: Check) {
    !Checked(probe, c.cookie, k.probeAt).healthy && k.refreshed.Some?
  }

  function Probed(probe: Probe, c: Checker, k: Check): (Checker, Verdict) {
    if Refreshes(probe, c, k) then
      (WithCookie(c, k.refreshed.value), Checked(probe, k.refreshed.value, k.reprobeAt))
    else (c, Checked(probe, c.cookie, k.probeAt))
  }

  function HandlingOf(v: Verdict, k: Check): Handling {
    Handling(v.healthy, k.handledAt, k.notifier, k.sends)
  }

  function AfterAsync(interval: real, cooldown: real, probe: Probe, c: Checker, k: Check): Checker {
    if ServesCached(interval, c, k.force, k.now) then c
    else
      var (next, v) := Probed(probe, c, k);
      next.(lastCheck := k.doneAt, cached := Some(v), alarm := Handled(cooldown, c.alarm, HandlingOf(v, k)))
  }

  function AsyncVerdict(interval: real, probe: Probe, c: Checker, k: Check): Verdict {
    if ServesCached(interval, c, k.force, k.now) then c.cached.value else Probed(probe, c, k).1
  }

  class CookieHealthChecker {
    const checkInterval: real
    const alertCooldown: real
    var cookieText: string
    var lastCheckTs: real
    var cachedResult: Option<Verdict>
    var lastHealthy: Option<bool>
    var lastAlertTs: real

    function Model(): Checker
      reads this
    {
      Checker(cookieText, lastCheckTs, cachedResult, Alarm(lastHealthy, lastAlertTs))
    }

    constructor (cookieText: string, checkIntervalSeconds: real, alertCooldownSeconds: real)
      ensures Model() == Checker(cookieText, 0.0, None, QUIET)
      ensures checkInterval == AtLeast60(checkIntervalSeconds) && alertCooldown == AtLeast60(alertCooldownSeconds)
    {
      checkInterval, alertCooldown := AtLeast60(checkIntervalSeconds), AtLeast60(alertCooldownSeconds);
      this.cookieText, lastCheckTs, cachedResult := cookieText, 0.0, None;
      lastHealthy, lastAlertTs := None, 0.0;
    }

    method SetCookieText(value: string)
      modifies this
      ensures Model() == WithCookie(old(Model()), value)
    {
      cookieText, lastCheckTs, cachedResult := value, 0.0, None;
    }

    method CheckSync(probe: Probe, k: Check) returns (v: Verdict)
      modifies `lastCheckTs, `cachedResult
      ensures Model() == AfterSync(checkInterval, probe, old(Model()), k)
      ensures v == SyncVerdict(checkInterval, probe, old(Model()), k)
    {
      if !k.force && !(cookieText == "" || k.now - lastCheckTs >= checkInterval) && cachedResult.Some? {
        return cachedResult.value;
      }
      v := Checked(probe, cookieText, k.probeAt);
      lastCheckTs := k.doneAt;
      cachedResult := Some(v);
    }

    method CheckAsync(probe: Probe, k: Check) returns (v: Verdict, alertSent: bool, recoveryTried: bool)
      modifies this
      ensures Model() == AfterAsync(checkInterval, alertCooldown, probe, old(Model()), k)
      ensures v == AsyncVerdict(checkInterval, probe, old(Model()), k)
      ensures var uncached := !ServesCached(checkInterval, old(Model()), k.force, k.now);
              && alertSent == (uncached && SendsAlert(alertCooldown, old(Model().alarm), HandlingOf(v, k)))
              && recoveryTried == (uncached && TriesRecovery(old(Model().alarm), HandlingOf(v, k)))
    {
      if !k.force && !(cookieText == "" || k.now - lastCheckTs >= checkInterval) && cachedResult.Some? {
        return cachedResult.value, false, false;
      }
      v := Checked(probe, cookieText, k.probeAt);
      if !v.healthy {
        if k.refreshed.Some? {
          SetCookieText(k.refreshed.value);
          v := Checked(probe, cookieText, k.reprobeAt);
        }
      }
      lastCheckTs := k.doneAt;
      cachedResult := Some(v);
      alertSent, recoveryTried := HandleStateChange(v.healthy, k.handledAt, k.notifier, k.sends);
    }

    method HandleStateChange(healthy: bool, now: real, notifier: bool, sends: bool)
      returns (alertSent: bool, recoveryTried: bool)
      modifies `lastHealthy, `lastAlertTs
      ensures Model().alarm == Handled(alertCooldown, old(Model().alarm), Handling(healthy, now, notifier, sends))
      ensures alertSent == SendsAlert(alertCooldown, old(Model().alarm), Handling(healthy, now, notifier, sends))
      ensures recoveryTried == TriesRecovery(old(Model().alarm), Handling(healthy, now, notifier, sends))
    {
      var prev := lastHealthy;
      lastHealthy := Some(healthy);
      alertSent, recoveryTried := false, false;
      if !notifier {
        return;
      }
      if prev != Some(false) && !healthy {
        if now - lastAlertTs >= alertCooldown {
          if sends {
            lastAlertTs := now;
            alertSent := true;
          }
        }
      } else if prev == Some(false) && healthy {
        recoveryTried := true;
      }
    }
  }

  // ---- alert traces ----

  function AlarmAfter(cooldown: real, hs: seq<Handling>): Alarm {
    if hs == [] then QUIET else Handled(cooldown, AlarmAfter(cooldown, hs[..|hs| - 1]), hs[|hs| - 1])
  }

  predicate AlertAt(cooldown: real, hs: seq<Handling>, i: nat)
    requires i < |hs|
  {
    SendsAlert(cooldown, AlarmAfter(cooldown, hs[..i]), hs[i])
  }

  predicate RecoveryAt(cooldown: real, hs: seq<Handling>, i: nat)
    requires i < |hs|
  {
    TriesRecovery(AlarmAfter(cooldown, hs[..i]), hs[i])
  }

  ghost predicate Forward(hs: seq<Handling>) {
    forall i, j :: 0 <= i < j < |hs| ==> hs[i].now <= hs[j].now
  }

  lemma AlarmNext(cooldown: real, hs: seq<Handling>, n: nat)
    requires n < |hs|
    ensures AlarmAfter(cooldown, hs[..n + 1]) == Handled(cooldown, AlarmAfter(cooldown, hs[..n]), hs[n])
  {
    assert hs[..n + 1][..n] == hs[..n];
  }

  /** Recovery is attempted exactly when a healthy verdict directly follows an unhealthy one. */
  lemma RecoveryExactly(cooldown: real, hs: seq<Handling>, i: nat)
    requires i < |hs|
    ensures RecoveryAt(cooldown, hs, i) <==> hs[i].notifier && hs[i].healthy && i > 0 && !hs[i - 1].healthy
  {
    if i > 0 {
      AlarmNext(cooldown, hs, i - 1);
    }
  }

  /**
    An alert is only ever tried for the first unhealthy verdict of a stretch; one that is suppressed or fails
    is not made up for.
   */
  lemma AlertOnlyOnEdge(cooldown: real, hs: seq<Handling>, i: nat)
    requires i < |hs|
    ensures TriesAlert(cooldown, AlarmAfter(cooldown, hs[..i]), hs[i]) <==>
            && hs[i].notifier && !hs[i].healthy && (i == 0 || hs[i - 1].healthy)
            && hs[i].now - AlarmAfter(cooldown, hs[..i]).lastAlert >= cooldown
  {
    if i > 0 {
      AlarmNext(cooldown, hs, i - 1);
    }
  }

  lemma {:induction false} LastAlertSince(cooldown: real, hs: seq<Handling>, i: nat, n: nat)
    requires i < n <= |hs| && Forward(hs) && AlertAt(cooldown, hs, i)
    ensures hs[i].now <= AlarmAfter(cooldown, hs[..n]).lastAlert
    decreases n
  {
    AlarmNext(cooldown, hs, n - 1);
    if n > i + 1 {
      LastAlertSince(cooldown, hs, i, n - 1);
      assert hs[i].now <= hs[n - 1].now;
    }
  }

  lemma {:induction false} RecoveredBetween(cooldown: real, hs: seq<Handling>, i: nat, n: nat) returns (m: nat)
    requires i < n <= |hs| && !hs[i].healthy && hs[n - 1].healthy
    ensures i < m < n && hs[m].healthy && !hs[m - 1].healthy
    decreases n
  {
    if !hs[n - 2].healthy {
      m := n - 1;
    } else {
      m := RecoveredBetween(cooldown, hs, i, n - 1);
    }
  }

  /**
    Over every run two sent alerts are at least the cooldown apart, and between them lies a healthy
    verdict that ends an unhealthy stretch, for which recovery was attempted if there was a notifier.
   */
  lemma AlertsAreApart(cooldown: real, hs: seq<Handling>, i: nat, j: nat)
    requires i < j < |hs| && Forward(hs) && AlertAt(cooldown, hs, i) && AlertAt(cooldown, hs, j)
    ensures hs[j].now - hs[i].now >= cooldown
    ensures exists m :: i < m < j && hs[m].healthy && (hs[m].notifier ==> RecoveryAt(cooldown, hs, m))
  {
    LastAlertSince(cooldown, hs, i, j);
    AlertOnlyOnEdge(cooldown, hs, j);
    AlertOnlyOnEdge(cooldown, hs, i);
    assert i < j - 1;
    var m := RecoveredBetween(cooldown, hs, i, j);
    RecoveryExactly(cooldown, hs, m);
  }

  // ---- single checks, by what they meet ----

  /** A forced check probes, and so does one whose verdict is old or missing; it keeps the verdict and the time. */
  lemma CheckProbes(interval: real, cooldown: real, probe: Probe, c: Checker, k: Check)
    requires c.cookie != "" && (k.force || k.now - c.lastCheck >= interval || c.cached.None?)
    ensures var v := Verdict(probe(c.cookie, k.probeAt), k.probeAt);
            && SyncVerdict(interval, probe, c, k) == v
            && AfterSync(interval, probe, c, k) == Checker(c.cookie, k.doneAt, Some(v), c.alarm)
            && (v.healthy || k.refreshed.None? ==>
                  && AsyncVerdict(interval, probe, c, k) == v
                  && AfterAsync(interval, cooldown, probe, c, k).cookie == c.cookie
                  && AfterAsync(interval, cooldown, probe, c, k).lastCheck == k.doneAt
                  && AfterAsync(interval, cooldown, probe, c, k).cached == Some(v))
  {
  }

  /** Otherwise the kept verdict is the answer, and nothing changes. */
  lemma FreshVerdictIsServed(interval: real, cooldown: real, probe: Probe, c: Checker, k: Check, v: Verdict)
    requires c.cookie != "" && !k.force && k.now - c.lastCheck < interval && c.cached == Some(v)
    ensures SyncVerdict(interval, probe, c, k) == v && AfterSync(interval, probe, c, k) == c
    ensures AsyncVerdict(interval, probe, c, k) == v && AfterAsync(interval, cooldown, probe, c, k) == c
  {
  }

  /** Without a cookie every check says unhealthy, whatever was kept and whatever the site would answer. */
  lemma MissingCookieIsUnhealthy(interval: real, probe: Probe, c: Checker, k: Check)
    requires c.cookie == ""
    ensures SyncVerdict(interval, probe, c, k) == Verdict(false, k.probeAt)
    ensures k.refreshed.None? ==> AsyncVerdict(interval, probe, c, k) == Verdict(false, k.probeAt)
  {
  }

  /** A refreshed cookie takes the place of an unhealthy one and is probed itself. */
  lemma RefreshedCookieIsProbed(interval: real, cooldown: real, probe: Probe, c: Checker, k: Check, value: string)
    requires k.force || c.cookie == "" || k.now - c.lastCheck >= interval || c.cached.None?
    requires (c.cookie == "" || !probe(c.cookie, k.probeAt)) && k.refreshed == Some(value) && value != ""
    ensures var v := Verdict(probe(value, k.reprobeAt), k.reprobeAt);
            && AsyncVerdict(interval, probe, c, k) == v
            && AfterAsync(interval, cooldown, probe, c, k).cookie == value
            && AfterAsync(interval, cooldown, probe, c, k).cached == Some(v)
            && AfterAsync(interval, cooldown, probe, c, k).alarm.lastHealthy == Some(v.healthy)
  {
  }

  /** The time of the last alert: that of the latest alert sent so far, or zero. */
  ghost predicate LastAlertIs(cooldown: real, hs: seq<Handling>, n: nat)
    requires n <= |hs|
  {
    var last := AlarmAfter(cooldown, hs[..n]).lastAlert;
    && (forall j :: 0 <= j < n && AlertAt(cooldown, hs, j) ==> hs[j].now <= last)
    && ((exists j :: 0 <= j < n && AlertAt(cooldown, hs, j) && hs[j].now == last) ||
        (last == 0.0 && forall j :: 0 <= j < n ==> !AlertAt(cooldown, hs, j)))
  }

  lemma {:induction false} LastAlert(cooldown: real, hs: seq<Handling>, n: nat)
    requires n <= |hs| && Forward(hs)
    ensures LastAlertIs(cooldown, hs, n)
  {
    if n == 0 {
      NoAlertYet(cooldown, hs);
    } else {
      LastAlert(cooldown, hs, n - 1);
      NextLastAlert(cooldown, hs, n - 1);
    }
  }

  lemma NoAlertYet(cooldown: real, hs: seq<Handling>)
    ensures LastAlertIs(cooldown, hs, 0)
  {
    assert hs[..0] == [];
  }

  lemma NextLastAlert(cooldown: real, hs: seq<Handling>, n: nat)
    requires n < |hs| && Forward(hs) && LastAlertIs(cooldown, hs, n)
    ensures LastAlertIs(cooldown, hs, n + 1)
  {
    if AlertAt(cooldown, hs, n) {
      NewLastAlert(cooldown, hs, n);
    } else {
      SameLastAlert(cooldown, hs, n);
    }
  }

  lemma NewLastAlert(cooldown: real, hs: seq<Handling>, n: nat)
    requires n < |hs| && Forward(hs) && AlertAt(cooldown, hs, n)
    ensures LastAlertIs(cooldown, hs, n + 1)
  {
    AlarmNext(cooldown, hs, n);
  }

  lemma SameLastAlert(cooldown: real, hs: seq<Handling>, n: nat)
    requires n < |hs| && LastAlertIs(cooldown, hs, n) && !AlertAt(cooldown, hs, n)
    ensures LastAlertIs(cooldown, hs, n + 1)
  {
    AlarmNext(cooldown, hs, n);
  }

  /**
    An alert is sent exactly for the first unhealthy verdict of a stretch, with a notifier that can send,
    and not within the cooldown of an alert sent before: one whose sending failed neither counts nor silences.
   */
  lemma AlertSentExactly(cooldown: real, hs: seq<Handling>, i: nat)
    requires i < |hs| && Forward(hs)
    ensures AlertAt(cooldown, hs, i) <==>
            && hs[i].notifier && hs[i].sends && !hs[i].healthy && (i == 0 || hs[i - 1].healthy)
            && (forall j :: 0 <= j < i && AlertAt(cooldown, hs, j) ==> hs[i].now - hs[j].now >= cooldown)
            && (hs[i].now >= cooldown || exists j :: 0 <= j < i && AlertAt(cooldown, hs, j))
  {
    AlertOnlyOnEdge(cooldown, hs, i);
    LastAlert(cooldown, hs, i);
    if exists j :: 0 <= j < i && AlertAt(cooldown, hs, j) {
      var j :| 0 <= j < i && AlertAt(cooldown, hs, j) && hs[j].now == AlarmAfter(cooldown, hs[..i]).lastAlert;
    }
  }

  // ---- the verdict cache ----

  datatype Event = SetCookie(value: string) | Sync(k: Check) | Async(k: Check)

  function AfterEvent(interval: real, cooldown: real, probe: Probe, c: Checker, e: Event): Checker {
    match e
    case SetCookie(value) => WithCookie(c, value)
    case Sync(k) => AfterSync(interval, probe, c, k)
    case Async(k) => AfterAsync(interval, cooldown, probe, c, k)
  }

  function CheckerAfter(interval: real, cooldown: real, probe: Probe, cookie: string, events: seq<Event>): Checker {
    if events == [] then Checker(cookie, 0.0, None, QUIET)
    else AfterEvent(interval, cooldown, probe, CheckerAfter(interval, cooldown, probe, cookie, events[..|events| - 1]),
                    events[|events| - 1])
  }

  /** A check takes at most `slow` from its probe to the moment it notes as its time. */
  predicate Timely(e: Event, slow: real) {
    e.SetCookie? || (e.k.probeAt <= e.k.doneAt <= e.k.probeAt + slow &&
                     e.k.reprobeAt <= e.k.doneAt <= e.k.reprobeAt + slow)
  }

  ghost predicate CacheIsRight(probe: Probe, c: Checker, slow: real) {
    c.cached.Some? ==>
      && c.cached.value == Checked(probe, c.cookie, c.cached.value.checkedAt)
      && c.lastCheck - slow <= c.cached.value.checkedAt <= c.lastCheck
  }

  lemma {:induction false} CacheAlwaysRight(interval: real, cooldown: real, probe: Probe, cookie: string,
                                            events: seq<Event>, slow: real)
    requires forall e :: e in events ==> Timely(e, slow)
    ensures CacheIsRight(probe, CheckerAfter(interval, cooldown, probe, cookie, events), slow)
  {
    if events != [] {
      var before, e := events[..|events| - 1], events[|events| - 1];
      assert events == before + [e];
      assert e in events && forall x :: x in before ==> x in events;
      CacheAlwaysRight(interval, cooldown, probe, cookie, before, slow);
    }
  }

  /**
    In every sequential run a check answers for the cookie that the checker then holds, never for an
    earlier one: the verdict is what the probe says of that cookie at the verdict's own time, and a
    cached one is younger than the interval, up to the time a probe takes.
   */
  lemma VerdictsAreCurrent(interval: real, cooldown: real, probe: Probe, cookie: string, events: seq<Event>,
                           k: Check, slow: real)
    requires forall e :: e in events ==> Timely(e, slow)
    ensures var c := CheckerAfter(interval, cooldown, probe, cookie, events);
            var a, s := AsyncVerdict(interval, probe, c, k), SyncVerdict(interval, probe, c, k);
            && a == Checked(probe, AfterAsync(interval, cooldown, probe, c, k).cookie, a.checkedAt)
            && s == Checked(probe, c.cookie, s.checkedAt)
            && (ServesCached(interval, c, k.force, k.now) ==> a == s && k.now - a.checkedAt < interval + slow)
  {
    CacheAlwaysRight(interval, cooldown, probe, cookie, events, slow);
  }

  /** The verdicts that a run hands to the alert machine: those of its uncached asynchronous checks. */
  function HandledIn(interval: real, cooldown: real, probe: Probe, cookie: string, events: seq<Event>): seq<Handling> {
    if events == [] then []
    else
      var before, e := events[..|events| - 1], events[|events| - 1];
      var c := CheckerAfter(interval, cooldown, probe, cookie, before);
      var earlier := HandledIn(interval, cooldown, probe, cookie, before);
      if e.Async? && !ServesCached(interval, c, e.k.force, e.k.now)
      then earlier + [HandlingOf(AsyncVerdict(interval, probe, c, e.k), e.k)] else earlier
  }

  /** Cookie changes, synchronous checks and cached answers leave the alert machine alone. */
  lemma {:induction false} AlarmFollowsChecks(interval: real, cooldown: real, probe: Probe, cookie: string,
                                              events: seq<Event>)
    ensures CheckerAfter(interval, cooldown, probe, cookie, events).alarm ==
            AlarmAfter(cooldown, HandledIn(interval, cooldown, probe, cookie, events))
  {
    if events != [] {
      var before, e := events[..|events| - 1], events[|events| - 1];
      AlarmFollowsChecks(interval, cooldown, probe, cookie, before);
      var earlier := HandledIn(interval, cooldown, probe, cookie, before);
      var c := CheckerAfter(interval, cooldown, probe, cookie, before);
      if e.Async? {
        var h := HandlingOf(AsyncVerdict(interval, probe, c, e.k), e.k);
        assert (earlier + [h])[..|earlier|] == earlier;
      }
    }
  }
}
