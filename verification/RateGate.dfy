/**
  The rate gate of the compliance guard. An attempt reads the clock before it takes the lock, so the
  readings of a run can be in any order.
 */
module RateGate {

  /** One attempt as it enters the lock: its key, the reading it made before, and the interval in force. */
  datatype Attempt = Attempt(key: string, now: real, minInterval: int)

  type Window = map<string, real>

  function LastAction(w: Window, key: string): real {
    if key in w then w[key] else 0.0
  }

  /** The whole seconds that an attempt is told to wait; zero admits it. */
  function Remaining(w: Window, a: Attempt): (n: nat) {
    var left := a.minInterval as real - (a.now - LastAction(w, a.key));
    if left > 0.0 then left.Floor else 0
  }

  function Admitted(w: Window, a: Attempt): bool {
    Remaining(w, a) == 0
  }

  function After(w: Window, a: Attempt): Window {
    if Admitted(w, a) then w[a.key := a.now] else w
  }

  datatype Mode = Block | Warn

  datatype Verdict = Verdict(allowed: bool, blocked: bool, warn: bool)

  datatype Rules = Rules(mode: Mode, publishInterval: int, polishCooldown: int)

  class ComplianceGuard {
    var rules: Rules
    var lastActionAt: Window

    constructor (rules: Rules)
      ensures this.rules == rules && lastActionAt == map[]
    {
      this.rules, lastActionAt := rules, map[];
    }

    method Reload(rules: Rules)
      modifies `rules
      ensures this.rules == rules
    {
      this.rules := rules;
    }

    method EnforceMinInterval(key: string, now: real, minInterval: int) returns (allowed: bool, remaining: nat)
      modifies `lastActionAt
      ensures lastActionAt == After(old(lastActionAt), Attempt(key, now, minInterval))
      ensures remaining == Remaining(old(lastActionAt), Attempt(key, now, minInterval))
      ensures allowed <==> remaining == 0
    {
      var last := if key in lastActionAt then lastActionAt[key] else 0.0;
      var left := minInterval as real - (now - last);
      remaining := if left > 0.0 then left.Floor else 0;
      if remaining > 0 {
        return false, remaining;
      }
      lastActionAt := lastActionAt[key := now];
      return true, 0;
    }

    /** In warning mode a refused publish is let through, but does not move the window. */
    method EvaluatePublishRate(key: string, now: real) returns (v: Verdict)
      modifies `lastActionAt
      ensures lastActionAt == After(old(lastActionAt), Attempt(key, now, rules.publishInterval))
      ensures v.blocked == !v.allowed &&
              v.warn == (v.allowed && !Admitted(old(lastActionAt), Attempt(key, now, rules.publishInterval)))
      ensures v.allowed == (rules.mode.Warn? || Admitted(old(lastActionAt), Attempt(key, now, rules.publishInterval)))
    {
      var allowed, _ := EnforceMinInterval(key, now, rules.publishInterval);
      return if allowed then Verdict(true, false, false)
        else if rules.mode == Warn then Verdict(true, false, true)
        else Verdict(false, true, false);
    }

    method EvaluateBatchPolishRate(key: string, now: real) returns (v: Verdict)
      modifies `lastActionAt
      ensures lastActionAt == After(old(lastActionAt), Attempt(key, now, rules.polishCooldown))
      ensures v.blocked == !v.allowed &&
              v.warn == (v.allowed && !Admitted(old(lastActionAt), Attempt(key, now, rules.polishCooldown)))
      ensures v.allowed == (rules.mode.Warn? || Admitted(old(lastActionAt), Attempt(key, now, rules.polishCooldown)))
    {
      var allowed, _ := EnforceMinInterval(key, now, rules.polishCooldown);
      return if allowed then Verdict(true, false, false)
        else if rules.mode == Warn then Verdict(true, false, true)
        else Verdict(false, true, false);
    }
  }

  // ---- one attempt ----

  /**
    An attempt is admitted exactly when more than the interval less one second has passed: the wait is cut to
    whole seconds.
   */
  lemma AdmittedExactly(w: Window, a: Attempt)
    ensures Admitted(w, a) <==> a.now - LastAction(w, a.key) > (a.minInterval - 1) as real
    ensures a.key in w ==> (Admitted(w, a) <==> a.now - w[a.key] > (a.minInterval - 1) as real)
    ensures a.key !in w ==> (Admitted(w, a) <==> a.now > (a.minInterval - 1) as real)
  {
  }

  /** The wait that a refusal reports is the least whole number of seconds after which the same attempt is admitted. */
  lemma ReportedWaitIsExact(w: Window, a: Attempt, seconds: nat)
    ensures Admitted(w, a.(now := a.now + seconds as real)) <==> seconds >= Remaining(w, a)
  {
    var left := a.minInterval as real - (a.now - LastAction(w, a.key));
    AdmittedExactly(w, a.(now := a.now + seconds as real));
    assert left - 1.0 < left.Floor as real <= left;
  }

  // ---- any run of attempts ----

  function WindowAfter(attempts: seq<Attempt>): Window {
    if attempts == [] then map[]
    else After(WindowAfter(attempts[..|attempts| - 1]), attempts[|attempts| - 1])
  }

  /** The admitted attempts of one key, in the order in which they took the lock. */
  function AdmittedOf(attempts: seq<Attempt>, key: string): seq<Attempt> {
    if attempts == [] then []
    else
      var before, a := attempts[..|attempts| - 1], attempts[|attempts| - 1];
      var earlier := AdmittedOf(before, key);
      if a.key == key && Admitted(WindowAfter(before), a) then earlier + [a] else earlier
  }

  /** Each attempt is more than its interval, less one second, after the one before it. */
  predicate Spaced(r: seq<Attempt>) {
    r == [] ||
    (Spaced(r[..|r| - 1]) &&
     (|r| >= 2 ==> r[|r| - 1].now - r[|r| - 2].now > (r[|r| - 1].minInterval - 1) as real))
  }

  /** The window of a key is its last admitted attempt: refusals and other keys do not move it. */
  lemma {:induction false} WindowIsLastAdmitted(attempts: seq<Attempt>, key: string)
    ensures var r := AdmittedOf(attempts, key);
            && (key in WindowAfter(attempts) <==> r != [])
            && (r != [] ==> WindowAfter(attempts)[key] == r[|r| - 1].now)
  {
    if attempts != [] {
      WindowIsLastAdmitted(attempts[..|attempts| - 1], key);
    }
  }

  /**
    In any run a further attempt is admitted exactly when more than its interval less one second has passed
    since the last admitted one of its key, or since the zero of the clock.
   */
  lemma NextIsAdmittedExactly(attempts: seq<Attempt>, a: Attempt)
    ensures var r := AdmittedOf(attempts, a.key);
            var since := if r == [] then 0.0 else r[|r| - 1].now;
            AdmittedOf(attempts + [a], a.key)
            == if a.now - since > (a.minInterval - 1) as real then r + [a] else r
  {
    assert (attempts + [a])[..|attempts|] == attempts;
    WindowIsLastAdmitted(attempts, a.key);
    AdmittedExactly(WindowAfter(attempts), a);
  }

  lemma {:induction false} AdmittedAreAttempts(attempts: seq<Attempt>, key: string)
    ensures forall a :: a in AdmittedOf(attempts, key) ==> a in attempts && a.key == key
  {
    if attempts != [] {
      var before, a := attempts[..|attempts| - 1], attempts[|attempts| - 1];
      assert attempts == before + [a];
      AdmittedAreAttempts(before, key);
    }
  }

  /**
    In every run, whatever the order of the clock readings and however the intervals change, admitted actions
    of a key are spaced.
   */
  lemma {:induction false} AlwaysSpaced(attempts: seq<Attempt>, key: string)
    ensures Spaced(AdmittedOf(attempts, key))
  {
    if attempts != [] {
      var before, a := attempts[..|attempts| - 1], attempts[|attempts| - 1];
      AlwaysSpaced(before, key);
      if a.key == key && Admitted(WindowAfter(before), a) {
        WindowIsLastAdmitted(before, key);
        AdmittedExactly(WindowAfter(before), a);
      }
    }
  }

  lemma {:induction false} SpacedPair(r: seq<Attempt>, i: nat)
    requires Spaced(r) && i + 1 < |r|
    ensures r[i + 1].now - r[i].now > (r[i + 1].minInterval - 1) as real
  {
    if i + 2 < |r| {
      SpacedPair(r[..|r| - 1], i);
    }
  }

  lemma {:induction false} Spans(r: seq<Attempt>, n: int, i: nat, k: nat)
    requires Spaced(r) && 1 <= k && i + k < |r|
    requires forall a :: a in r ==> a.minInterval == n
    ensures r[i + k].now - r[i].now > (k * (n - 1)) as real
    decreases k
  {
    SpacedPair(r, i + k - 1);
    assert r[i + k] in r;
    if k > 1 {
      Spans(r, n, i, k - 1);
    }
  }

  /**
    For an interval fixed at `n` >= 1 the admitted actions of a key ascend in time, and `k` steps among
    them span more than `k * (n - 1)` seconds.
   */
  lemma FixedIntervalSpan(attempts: seq<Attempt>, key: string, n: int, i: nat, k: nat)
    requires n >= 1 && forall a :: a in attempts ==> a.minInterval == n
    requires 1 <= k && i + k < |AdmittedOf(attempts, key)|
    ensures var r := AdmittedOf(attempts, key);
            r[i + k].now - r[i].now > (k * (n - 1)) as real && r[i + k].now > r[i].now
  {
    AlwaysSpaced(attempts, key);
    AdmittedAreAttempts(attempts, key);
    Spans(AdmittedOf(attempts, key), n, i, k);
    NotNegative(k, n - 1);
  }

  lemma NotNegative(k: nat, d: nat)
    ensures (k * d) as real >= 0.0
  {
    assert k * d >= 0;
  }

  predicate OnWholeSeconds(a: Attempt) {
    a.now == a.now.Floor as real
  }

  lemma WholeGap(a: real, b: real, n: int)
    requires a == a.Floor as real && b == b.Floor as real && b - a > (n - 1) as real
    ensures b - a >= n as real
  {
    assert b - a == (b.Floor - a.Floor) as real;
    assert b.Floor - a.Floor > n - 1;
  }

  /** On a clock of whole seconds the spacing is the full interval. */
  lemma WholeSecondSpacing(attempts: seq<Attempt>, key: string, i: nat)
    requires forall a :: a in attempts ==> OnWholeSeconds(a)
    requires i + 1 < |AdmittedOf(attempts, key)|
    ensures var r := AdmittedOf(attempts, key);
            r[i + 1].now - r[i].now >= r[i + 1].minInterval as real
  {
    var r := AdmittedOf(attempts, key);
    AlwaysSpaced(attempts, key);
    AdmittedAreAttempts(attempts, key);
    SpacedPair(r, i);
    assert r[i] in r && r[i + 1] in r;
    WholeGap(r[i].now, r[i + 1].now, r[i + 1].minInterval);
  }

  /** On a finer clock it is not: two actions can come any fraction of a second early. */
  lemma EarlyByAFraction(key: string, n: int, first: real, early: real)
    requires n >= 1 && first >= n as real && 0.0 < early < 1.0
    ensures var attempts := [Attempt(key, first, n), Attempt(key, first + n as real - early, n)];
            AdmittedOf(attempts, key) == attempts
  {
    var a, b := Attempt(key, first, n), Attempt(key, first + n as real - early, n);
    assert [a, b][..1] == [a] && [a][..0] == [];
    assert AdmittedOf([a], key) == [a] && WindowAfter([a]) == map[key := first];
    AdmittedExactly(WindowAfter([a]), b);
    assert [a] + [b] == [a, b];
  }

  /** The attempts of one key. */
  function OnlyKey(attempts: seq<Attempt>, key: string): seq<Attempt> {
    if attempts == [] then []
    else
      var before, a := OnlyKey(attempts[..|attempts| - 1], key), attempts[|attempts| - 1];
      if a.key == key then before + [a] else before
  }

  /** What is admitted for a key depends on the attempts of that key alone. */
  lemma {:induction false} KeysAreIndependent(attempts: seq<Attempt>, key: string)
    ensures AdmittedOf(attempts, key) == AdmittedOf(OnlyKey(attempts, key), key)
  {
    if attempts != [] {
      var before, a := attempts[..|attempts| - 1], attempts[|attempts| - 1];
      KeysAreIndependent(before, key);
      var only := OnlyKey(before, key);
      if a.key == key {
        assert (only + [a])[..|only|] == only;
        WindowIsLastAdmitted(before, key);
        WindowIsLastAdmitted(only, key);
        assert LastAction(WindowAfter(before), key) == LastAction(WindowAfter(only), key);
      }
    }
  }
}
