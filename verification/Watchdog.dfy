/** The watchdog of the dashboard server: restarts of dead modules, limited by a cooldown. */
module Watchdog {

  const COOLDOWN: real := 1800.0
  const MAX_RESTARTS: int := 3
  const MODULES: seq<string> := ["presales", "operations", "aftersales"]

  // ---- the reported status ----

  datatype Item = Item(name: string, status: string)

  /** What the status call reports: alive flags by module, a list of modules, or something else. */
  datatype Status = ByName(alive: map<string, bool>) | Listed(items: seq<Item>) | Unreadable

  ghost predicate Running(status: Status, mod: string) {
    match status
    case ByName(alive) => mod in alive && alive[mod]
    case Listed(items) => Item(mod, "running") in items
    case Unreadable => false
  }

  method IsRunning(status: Status, mod: string) returns (running: bool)
    ensures running == Running(status, mod)
    ensures status.ByName? ==> running == (mod in status.alive && status.alive[mod])
    ensures status.Listed? ==>
              (running <==> exists i :: 0 <= i < |status.items| && status.items[i] == Item(mod, "running"))
    ensures status.Unreadable? ==> !running
  {
    match status {
      case ByName(alive) =>
        return mod in alive && alive[mod];
      case Listed(items) =>
        for i := 0 to |items|
          invariant Item(mod, "running") !in items[..i]
        {
          if items[i].name == mod && items[i].status == "running" {
            assert items[i] == Item(mod, "running");
            return true;
          }
        }
        assert items[..|items|] == items;
        return false;
      case Unreadable =>
        return false;
    }
  }

  // ---- one module ----

  datatype Track = Track(count: int, last: real)

  const START := Track(0, 0.0)

  /** One visit to a module: the clock before, what was found, whether a start succeeds, the clock after it. */
  datatype Visit = Visit(now: real, running: bool, starts: bool, after: real)

  predicate Silenced(t: Track, v: Visit) {
    t.count >= MAX_RESTARTS && v.now - t.last < COOLDOWN
  }

  predicate Attempts(t: Track, v: Visit) {
    !Silenced(t, v) && !v.running
  }

  predicate Restarts(t: Track, v: Visit) {
    Attempts(t, v) && v.starts
  }

  function Visited(t: Track, v: Visit): Track {
    if Silenced(t, v) then t
    else
      var count := if v.now - t.last >= COOLDOWN then 0 else t.count;
      if Restarts(t, v) then Track(count + 1, v.after) else Track(count, t.last)
  }

  predicate Notifies(t: Track, v: Visit) {
    Attempts(t, v) && Visited(t, v).count >= MAX_RESTARTS
  }

  /** Everything a tick asks of its surroundings. */
  datatype Tick = Tick(statusRaises: bool, status: Status, now: string -> real, starts: string -> bool,
                       after: string -> real)

  ghost function VisitOf(tick: Tick, mod: string): Visit {
    Visit(tick.now(mod), Running(tick.status, mod), tick.starts(mod), tick.after(mod))
  }

  class WatchdogLoop {
    var restartCounts: map<string, int>
    var lastRestartAt: map<string, real>

    ghost predicate Valid()
      reads this
    {
      forall m :: m in MODULES ==> m in restartCounts && m in lastRestartAt
    }

    ghost function TrackOf(mod: string): Track
      reads this
      requires Valid() && mod in MODULES
    {
      Track(restartCounts[mod], lastRestartAt[mod])
    }

    constructor ()
      ensures Valid() && forall m :: m in MODULES ==> TrackOf(m) == START
    {
      restartCounts := map m | m in MODULES :: 0;
      lastRestartAt := map m | m in MODULES :: 0.0;
    }

    /** One pass over all modules; `notices` are the modules a cooldown notice was sent for. */
    method RunTick(tick: Tick) returns (notices: set<string>)
      requires Valid()
      modifies this
      ensures Valid()
      ensures forall m :: m in MODULES ==>
                TrackOf(m) == if tick.statusRaises then old(TrackOf(m)) else Visited(old(TrackOf(m)), VisitOf(tick, m))
      ensures forall m :: m in notices <==>
                !tick.statusRaises && m in MODULES && Notifies(old(TrackOf(m)), VisitOf(tick, m))
    {
      notices := {};
      if tick.statusRaises {
        return;
      }
      for i := 0 to |MODULES|
        invariant Valid()
        invariant forall m :: m in MODULES[..i] ==> TrackOf(m) == Visited(old(TrackOf(m)), VisitOf(tick, m))
        invariant forall m :: m in MODULES && m !in MODULES[..i] ==> TrackOf(m) == old(TrackOf(m))
        invariant forall m :: m in notices <==> m in MODULES[..i] && Notifies(old(TrackOf(m)), VisitOf(tick, m))
      {
        var mod := MODULES[i];
        NamesDiffer(i);
        var notify := VisitModule(tick, mod);
        if notify {
          notices := notices + {mod};
        }
      }
      assert MODULES[..|MODULES|] == MODULES;
    }

    method VisitModule(tick: Tick, mod: string) returns (notify: bool)
      requires Valid() && mod in MODULES
      modifies this
      ensures Valid() && TrackOf(mod) == Visited(old(TrackOf(mod)), VisitOf(tick, mod))
      ensures forall m :: m in MODULES && m != mod ==> TrackOf(m) == old(TrackOf(m))
      ensures notify == Notifies(old(TrackOf(mod)), VisitOf(tick, mod))
    {
      var nowTs := tick.now(mod);
      var cnt := restartCounts[mod];
      var last := lastRestartAt[mod];
      if cnt >= MAX_RESTARTS && nowTs - last < COOLDOWN {
        return false;
      }
      if nowTs - last >= COOLDOWN {
        restartCounts := restartCounts[mod := 0];
      }
      var modRunning := IsRunning(tick.status, mod);
      notify := false;
      if !modRunning {
        if tick.starts(mod) {
          restartCounts := restartCounts[mod := restartCounts[mod] + 1];
          lastRestartAt := lastRestartAt[mod := tick.after(mod)];
        }
        notify := restartCounts[mod] >= MAX_RESTARTS;
      }
    }
  }

  lemma NamesDiffer(i: nat)
    requires i < |MODULES|
    ensures MODULES[i] !in MODULES[..i] && MODULES[..i + 1] == MODULES[..i] + [MODULES[i]]
  {
    assert |MODULES[0]| == 8 && |MODULES[1]| == 10 && |MODULES[2]| == 10;
    assert MODULES[1][0] == 'o' && MODULES[2][0] == 'a';
  }

  // ---- any run of visits to one module ----

  function After(visits: seq<Visit>): Track {
    if visits == [] then START else Visited(After(visits[..|visits| - 1]), visits[|visits| - 1])
  }

  /** The clock readings of the successful restarts, in order. */
  function RestartTimes(visits: seq<Visit>): seq<real> {
    if visits == [] then []
    else
      var before, v := visits[..|visits| - 1], visits[|visits| - 1];
      if Restarts(After(before), v) then RestartTimes(before) + [v.after] else RestartTimes(before)
  }

  /** The clock never goes back. */
  predicate WellTimed(visits: seq<Visit>) {
    visits == [] ||
    var before, v := visits[..|visits| - 1], visits[|visits| - 1];
    WellTimed(before) && v.now <= v.after && (before != [] ==> before[|before| - 1].after <= v.now)
  }

  /** The times ascend, and among any four consecutive ones two neighbours are at least the cooldown apart. */
  predicate Paused(r: seq<real>) {
    r == [] ||
    var n := |r|;
    && Paused(r[..n - 1])
    && (n >= 2 ==> r[n - 2] <= r[n - 1])
    && (n >= 4 ==>
          r[n - 1] - r[n - 2] >= COOLDOWN || r[n - 2] - r[n - 3] >= COOLDOWN || r[n - 3] - r[n - 4] >= COOLDOWN)
  }

  /** The count against the restarts made: before the counted ones lies a pause of at least the cooldown. */
  ghost predicate Counts(t: Track, r: seq<real>, clock: real) {
    && 0 <= t.count <= MAX_RESTARTS && t.count <= |r|
    && (r != [] ==> t.last == r[|r| - 1] && t.last <= clock)
    && (r == [] ==> t.last == 0.0)
    && (0 < t.count < |r| ==> r[|r| - t.count] - r[|r| - t.count - 1] >= COOLDOWN)
    && (t.count == 0 && r != [] ==> clock - t.last >= COOLDOWN)
  }

  lemma VisitCounts(t: Track, r: seq<real>, clock: real, v: Visit)
    requires Counts(t, r, clock) && clock <= v.now <= v.after && Paused(r)
    ensures var r' := if Restarts(t, v) then r + [v.after] else r;
            Counts(Visited(t, v), r', v.after) && Paused(r')
  {
    if Restarts(t, v) {
      assert (r + [v.after])[..|r|] == r;
    }
  }

  lemma {:induction false} CountIsRight(visits: seq<Visit>)
    requires WellTimed(visits) && visits != []
    ensures Counts(After(visits), RestartTimes(visits), visits[|visits| - 1].after)
    ensures Paused(RestartTimes(visits))
  {
    var before, v := visits[..|visits| - 1], visits[|visits| - 1];
    if before == [] {
      VisitCounts(START, [], v.now, v);
    } else {
      CountIsRight(before);
      VisitCounts(After(before), RestartTimes(before), before[|before| - 1].after, v);
    }
  }

  lemma {:induction false} FourSpan(r: seq<real>, i: nat)
    requires Paused(r) && i + 3 < |r|
    ensures r[i] <= r[i + 1] <= r[i + 2] <= r[i + 3] && r[i + 3] - r[i] >= COOLDOWN
  {
    var n := |r|;
    if i + 3 < n - 1 {
      FourSpan(r[..n - 1], i);
    } else {
      assert r[..n - 1][..n - 2] == r[..n - 2];
      assert Paused(r[..n - 2]);
    }
  }

  /**
    The sliding window. In every run any four consecutive successful restarts of a module span at least
    half an hour, so that no shorter window holds more than three.
   */
  lemma AtMostThreePerWindow(visits: seq<Visit>, i: nat)
    requires WellTimed(visits) && i + 3 < |RestartTimes(visits)|
    ensures RestartTimes(visits)[i + 3] - RestartTimes(visits)[i] >= 1800.0
  {
    CountIsRight(visits);
    FourSpan(RestartTimes(visits), i);
  }

  /** A notice is sent exactly when a restart brings the count to the maximum. */
  lemma NoticeExactly(visits: seq<Visit>, v: Visit)
    requires WellTimed(visits + [v])
    ensures Notifies(After(visits), v) <==>
            Restarts(After(visits), v) && After(visits + [v]).count == 3
  {
    assert (visits + [v])[..|visits|] == visits;
    if visits != [] {
      CountIsRight(visits);
    }
    CountIsRight(visits + [v]);
  }

  /**
    A module that is down is left alone exactly between a third restart and the end of the cooldown; the
    first visit after that tries again, whatever happened in between.
   */
  lemma LeftAloneExactly(visits: seq<Visit>, v: Visit)
    requires WellTimed(visits + [v]) && !v.running
    ensures !Attempts(After(visits), v) <==>
            && After(visits).count == 3 && RestartTimes(visits) != []
            && v.now - RestartTimes(visits)[|RestartTimes(visits)| - 1] < 1800.0
  {
    assert (visits + [v])[..|visits|] == visits;
    if visits != [] {
      CountIsRight(visits);
    }
  }

  // ---- one visit, by what happens in it ----

  /** Whether the module was left in peace for half an hour, so that its count begins again. */
  predicate Rested(t: Track, now: real) {
    now - t.last >= 1800.0
  }

  /** With three restarts behind it and less than half an hour since the last, a module is left alone. */
  lemma LeftAlone(t: Track, v: Visit)
    requires t.count >= 3 && !Rested(t, v.now)
    ensures Visited(t, v) == t && !Notifies(t, v)
  {
  }

  /** A running module and a failing start leave the count, or bring it to zero after half an hour, and the time. */
  lemma NothingCounted(t: Track, v: Visit)
    requires v.running || !v.starts
    ensures Visited(t, v) == if Rested(t, v.now) then Track(0, t.last) else t
    ensures RestartTimes([v]) == [] && (t.count < 3 ==> !Notifies(t, v))
  {
    assert [v][..0] == [];
  }

  /** A start that succeeds counts one more, at the time after it; the third sends a notice. */
  lemma StartCounted(t: Track, v: Visit)
    requires !v.running && v.starts && (t.count < 3 || Rested(t, v.now))
    ensures Visited(t, v) == Track(if Rested(t, v.now) then 1 else t.count + 1, v.after)
    ensures Notifies(t, v) <==> !Rested(t, v.now) && t.count >= 2
  {
  }

  /** The restart times get the time of a visit exactly when its start succeeds and the module is not left alone. */
  lemma RestartsAreTimed(visits: seq<Visit>, v: Visit)
    ensures RestartTimes(visits + [v])
            == if !v.running && v.starts && (After(visits).count < 3 || Rested(After(visits), v.now))
               then RestartTimes(visits) + [v.after] else RestartTimes(visits)
  {
    assert (visits + [v])[..|visits|] == visits;
  }

  /** The modules that are watched. */
  lemma ThreeModules(m: string)
    ensures m in MODULES <==> m == "presales" || m == "operations" || m == "aftersales"
  {
    assert MODULES[0] == "presales" && MODULES[1] == "operations" && MODULES[2] == "aftersales";
  }
}
