/**
  Reloading: explicit reloads, and reads that reload when the dashboard's file has changed. A load reads
  the file at one moment and notes its modification time at a later one.
 */
module ConfigReload {
  import opened Outcomes
  import opened Json
  import opened LayeredConfig

  /** A reload that fails leaves the configuration as it was. */
  function Reloaded(conv: Convert, cfg: Config, src: Sources): Config {
    var loaded := Loaded(conv, src);
    if loaded.Success? then loaded.value else cfg
  }

  function AfterReloads(conv: Convert, cfg: Config, run: seq<Sources>): Config {
    if run == [] then cfg else Reloaded(conv, AfterReloads(conv, cfg, run[..|run| - 1]), run[|run| - 1])
  }

  /**
    After any run of reloads the configuration is what the last successful one loaded, with nothing left
    from any other; `i` is -1, and the configuration the first one, if all fail.
   */
  lemma {:induction false} LastGoodLoad(conv: Convert, cfg: Config, run: seq<Sources>, i: int)
    requires -1 <= i < |run| && (i >= 0 ==> Loaded(conv, run[i]).Success?)
    requires forall j :: i < j < |run| ==> Loaded(conv, run[j]).Failure?
    ensures AfterReloads(conv, cfg, run) == if i < 0 then cfg else Loaded(conv, run[i]).value
  {
    if i < |run| - 1 {
      var front := run[..|run| - 1];
      assert forall j :: 0 <= j < |front| ==> front[j] == run[j];
      assert Loaded(conv, run[|run| - 1]).Failure?;
      LastGoodLoad(conv, cfg, front, i);
    }
  }

  // ---- reads and reloads ----

  const CHECK_INTERVAL: real := 5.0

  /** The configuration, when the file's time was last looked at, and the file time that it stands for. */
  datatype Store = Store(config: Config, lastCheck: real, fileTime: real)

  const START := Store(map[], 0.0, 0.0)

  /**
    A load: what it meets; the time of the version of the dashboard's file that it reads, if it comes to
    that; and the time that it finds when it notes it after a success. `None` stands for a missing file.
   */
  datatype Load = Load(src: Sources, read: Option<real>, noted: Option<real>)

  /** The load opens the dashboard's file: the file before it and the variables were read without an error. */
  predicate Reaches(load: Load) {
    load.src.fileExists ==> load.src.yaml.Success? && load.src.dotenv.None?
  }

  function FileTime(mtime: Option<real>): real {
    if mtime.Some? then mtime.value else 0.0
  }

  /** `seen`: the file's time at a look; `load`: the load that a read makes if it reloads. */
  datatype Event =
    | Read(now: real, seen: Option<real>, load: Load)
    | Explicit(load: Load)

  predicate Looks(st: Store, e: Event) {
    e.Read? && e.now - st.lastCheck >= CHECK_INTERVAL
  }

  /** A look that sees another time than the noted one attempts a reload, if that time is later. */
  predicate Attempts(st: Store, e: Event) {
    Looks(st, e) && e.seen.Some? && e.seen.value > st.fileTime
  }

  /** The event makes its load. */
  predicate Makes(st: Store, e: Event) {
    e.Explicit? || Attempts(st, e)
  }

  /** An automatic reload notes the time that it saw before it loads, so that a failed one leaves it noted. */
  function After(conv: Convert, st: Store, e: Event): Store {
    var checked := if Looks(st, e) then e.now else st.lastCheck;
    if !Makes(st, e) then st.(lastCheck := checked)
    else
      Store(Reloaded(conv, st.config, e.load.src), checked,
            if Loaded(conv, e.load.src).Success? then FileTime(e.load.noted)
            else if e.Read? then e.seen.value
            else st.fileTime)
  }

  function AfterEvents(conv: Convert, st: Store, es: seq<Event>): Store {
    if es == [] then st else After(conv, AfterEvents(conv, st, es[..|es| - 1]), es[|es| - 1])
  }

  /** The loads that a run makes, in order. */
  function Loads(conv: Convert, st: Store, es: seq<Event>): seq<Load> {
    if es == [] then []
    else
      var before, e := es[..|es| - 1], es[|es| - 1];
      Loads(conv, st, before) + if Makes(AfterEvents(conv, st, before), e) then [e.load] else []
  }

  function SourcesOf(loads: seq<Load>): seq<Sources> {
    if loads == [] then [] else SourcesOf(loads[..|loads| - 1]) + [loads[|loads| - 1].src]
  }

  /** The configuration is always the one that the loads made so far give: nothing else changes it. */
  lemma {:induction false} OnlyLoadsChange(conv: Convert, st: Store, es: seq<Event>)
    ensures AfterEvents(conv, st, es).config == AfterReloads(conv, st.config, SourcesOf(Loads(conv, st, es)))
  {
    if es != [] {
      var before, e := es[..|es| - 1], es[|es| - 1];
      OnlyLoadsChange(conv, st, before);
      var earlier := Loads(conv, st, before);
      if Makes(AfterEvents(conv, st, before), e) {
        assert (earlier + [e.load])[..|earlier|] == earlier;
        var run := SourcesOf(earlier);
        assert (run + [e.load.src])[..|run|] == run;
      } else {
        assert earlier + [] == earlier;
      }
    }
  }

  /** The error that an automatic reload raises to the reader: none of the operating system. */
  function Raised(conv: Convert, load: Load): Option<Error> {
    var loaded := Loaded(conv, load.src);
    if loaded.Failure? && loaded.error != DotenvDenied then Some(loaded.error) else None
  }

  // ---- single reads and reloads, by what they meet ----

  /** Five seconds after the last look a later version is seen; if its load succeeds, that is the configuration. */
  lemma NewVersionIsInForce(conv: Convert, st: Store, now: real, version: real, load: Load)
    requires now - st.lastCheck >= 5.0 && version > st.fileTime && Loaded(conv, load.src).Success?
    ensures After(conv, st, Read(now, Some(version), load))
            == Store(Loaded(conv, load.src).value, now, if load.noted.Some? then load.noted.value else 0.0)
  {
  }

  /** If its load fails, the configuration stays and the version is noted as if it had been loaded. */
  lemma FailedVersionIsNoted(conv: Convert, st: Store, now: real, version: real, load: Load)
    requires now - st.lastCheck >= 5.0 && version > st.fileTime && Loaded(conv, load.src).Failure?
    ensures After(conv, st, Read(now, Some(version), load)) == Store(st.config, now, version)
    ensures Raised(conv, load).None? <==> Loaded(conv, load.src).error.DotenvDenied?
    ensures Raised(conv, load).Some? ==> Raised(conv, load).value == Loaded(conv, load.src).error
  {
  }

  /** A read within five seconds changes nothing, and one that sees no later version the time of the look alone. */
  lemma OtherReadsKeepAll(conv: Convert, st: Store, now: real, seen: Option<real>, load: Load)
    ensures now - st.lastCheck < 5.0 ==> After(conv, st, Read(now, seen, load)) == st
    ensures now - st.lastCheck >= 5.0 && (seen.Some? ==> seen.value <= st.fileTime) ==>
              After(conv, st, Read(now, seen, load)) == Store(st.config, now, st.fileTime)
  {
  }

  /** An explicit reload loads whatever the times are; one that fails changes nothing. */
  lemma ExplicitReload(conv: Convert, st: Store, load: Load)
    ensures After(conv, st, Explicit(load))
            == if Loaded(conv, load.src).Success?
               then Store(Loaded(conv, load.src).value, st.lastCheck,
                          if load.noted.Some? then load.noted.value else 0.0)
               else st
  {
  }

  // ---- how often reads reload ----

  /** The reads that attempt a reload, in order. */
  function Attempted(conv: Convert, st: Store, es: seq<Event>): seq<Event> {
    if es == [] then []
    else
      var before, e := es[..|es| - 1], es[|es| - 1];
      Attempted(conv, st, before) + if Attempts(AfterEvents(conv, st, before), e) then [e] else []
  }

  /** No successful load turns the noted time back, nor notes an earlier one than its read saw. */
  predicate Forward(conv: Convert, st: Store, es: seq<Event>) {
    es == [] ||
    var before, e := es[..|es| - 1], es[|es| - 1];
    && Forward(conv, st, before)
    && var now := AfterEvents(conv, st, before);
    (Makes(now, e) && Loaded(conv, e.load.src).Success? ==>
       FileTime(e.load.noted) >= if e.Read? then e.seen.value else now.fileTime)
  }

  lemma {:induction false} AttemptsSoFar(conv: Convert, st: Store, es: seq<Event>, i: nat)
    requires Forward(conv, st, es) && i < |Attempted(conv, st, es)|
    ensures var e, end := Attempted(conv, st, es)[i], AfterEvents(conv, st, es);
            e.Read? && e.seen.Some? && e.seen.value <= end.fileTime && e.now <= end.lastCheck
  {
    var before := es[..|es| - 1];
    if i < |Attempted(conv, st, before)| {
      AttemptsSoFar(conv, st, before, i);
    }
  }

  /**
    Reads try each version of the dashboard's file at most once, whether its load succeeds or fails, and
    two attempts are at least five seconds apart, on any clock and with any explicit reloads in between.
   */
  lemma {:induction false} EachVersionOnce(conv: Convert, st: Store, es: seq<Event>, i: nat, j: nat)
    requires Forward(conv, st, es) && i < j < |Attempted(conv, st, es)|
    ensures var a, b := Attempted(conv, st, es)[i], Attempted(conv, st, es)[j];
            && a.Read? && b.Read? && a.seen.Some? && b.seen.Some?
            && a.seen.value < b.seen.value && b.now - a.now >= 5.0
  {
    var before := es[..|es| - 1];
    if j < |Attempted(conv, st, before)| {
      EachVersionOnce(conv, st, before, i, j);
    } else {
      AttemptsSoFar(conv, st, before, i);
    }
  }

  /**
    If the file is missing when its time is noted, zero is noted, and the same version is tried again once
    the file is back: the assumption of `EachVersionOnce` is needed.
   */
  lemma MissingFileRetries(conv: Convert, s1: Sources, load: Load)
    requires Loaded(conv, s1).Success?
    ensures var a, b := Read(10.0, Some(1.0), Load(s1, Some(1.0), None)), Read(20.0, Some(1.0), load);
            !Forward(conv, START, [a, b]) && Attempted(conv, START, [a, b]) == [a, b]
  {
    var a, b := Read(10.0, Some(1.0), Load(s1, Some(1.0), None)), Read(20.0, Some(1.0), load);
    FirstTwo(conv, a, b);
    assert After(conv, START, a) == Store(Loaded(conv, s1).value, 10.0, 0.0);
    assert !Forward(conv, START, [a]);
    assert Attempted(conv, START, [a]) == [a];
    assert Attempted(conv, START, [a, b]) == [a] + [b];
  }

  lemma FirstTwo(conv: Convert, a: Event, b: Event)
    ensures [a, b][..1] == [a] && [a][..0] == [] && AfterEvents(conv, START, []) == START
    ensures AfterEvents(conv, START, [a]) == After(conv, START, a)
    ensures AfterEvents(conv, START, [a, b]) == After(conv, After(conv, START, a), b)
  {
    assert [a, b][..1] == [a] && [a][..0] == [];
  }

  // ---- which versions are read ----

  /** The latest file time that the run has come across. */
  function Latest(conv: Convert, st: Store, es: seq<Event>): real {
    if es == [] then 0.0
    else
      var before, e := es[..|es| - 1], es[|es| - 1];
      LatestAt(conv, AfterEvents(conv, st, before), e, Latest(conv, st, before))
  }

  /** A success comes across the file's time last when it notes it, a failed load when it reads the file, if it does. */
  function LatestAt(conv: Convert, st: Store, e: Event, latest: real): real {
    if Makes(st, e) && Loaded(conv, e.load.src).Success? then FileTime(e.load.noted)
    else if Makes(st, e) && Reaches(e.load) then FileTime(e.load.read)
    else if Looks(st, e) && e.seen.Some? then e.seen.value
    else latest
  }

  /** The file is there at every look, and its time never goes back: at a look, when it is read, when it is noted. */
  predicate Ordered(conv: Convert, st: Store, es: seq<Event>) {
    es == [] ||
    var before, e := es[..|es| - 1], es[|es| - 1];
    Ordered(conv, st, before) && OrderedAt(conv, AfterEvents(conv, st, before), e, Latest(conv, st, before))
  }

  predicate OrderedAt(conv: Convert, st: Store, e: Event, latest: real) {
    && (Looks(st, e) ==> e.seen.Some? && e.seen.value > 0.0 && e.seen.value >= latest)
    && (Makes(st, e) && Reaches(e.load) ==>
          && FileTime(e.load.read) >= (if e.Read? then e.seen.value else latest)
          && (Loaded(conv, e.load.src).Success? ==> FileTime(e.load.noted) >= FileTime(e.load.read)))
  }

  /** The event makes a load that reads the dashboard's file. */
  predicate ReadsFile(st: Store, e: Event) {
    Makes(st, e) && Reaches(e.load)
  }

  /** The last load of the run that read the dashboard's file. */
  function LastReader(conv: Convert, st: Store, es: seq<Event>): Option<Load> {
    if es == [] then None
    else
      var before, e := es[..|es| - 1], es[|es| - 1];
      if ReadsFile(AfterEvents(conv, st, before), e) then Some(e.load) else LastReader(conv, st, before)
  }

  /** Some load of the run has read this version of the dashboard's file, or a later one. */
  predicate WasRead(conv: Convert, st: Store, es: seq<Event>, version: real) {
    es != [] &&
    var before, e := es[..|es| - 1], es[|es| - 1];
    || WasRead(conv, st, before, version)
    || (ReadsFile(AfterEvents(conv, st, before), e) && FileTime(e.load.read) >= version)
  }

  /** Some read of the run saw this version or a later one, and its load failed before it came to the file. */
  predicate Balked(conv: Convert, st: Store, es: seq<Event>, version: real) {
    es != [] &&
    var before, e := es[..|es| - 1], es[|es| - 1];
    || Balked(conv, st, before, version)
    || (Attempts(AfterEvents(conv, st, before), e) && !Reaches(e.load) && e.seen.value >= version)
  }

  /** A successful load that read an older version noted this one, or a later one, afterwards. */
  predicate Overlooks(conv: Convert, load: Load, version: real) {
    Loaded(conv, load.src).Success? && FileTime(load.read) < version <= FileTime(load.noted)
  }

  lemma SuccessReaches(conv: Convert, load: Load)
    requires Loaded(conv, load.src).Success?
    ensures Reaches(load)
  {
  }

  /** The noted time is explained by the last reader, or by a read whose load did not come to the file. */
  ghost predicate Explained(conv: Convert, es: seq<Event>) {
    var time, last := AfterEvents(conv, START, es).fileTime, LastReader(conv, START, es);
    || time == 0.0
    || (last.Some? && Loaded(conv, last.value.src).Success? && time <= FileTime(last.value.noted))
    || (last.Some? && time <= FileTime(last.value.read))
    || Balked(conv, START, es, time)
  }

  lemma TimeIsLatest(conv: Convert, st: Store, e: Event, latest: real)
    requires st.fileTime <= latest && OrderedAt(conv, st, e, latest)
    ensures After(conv, st, e).fileTime <= LatestAt(conv, st, e, latest)
    ensures latest <= LatestAt(conv, st, e, latest)
  {
    if Makes(st, e) && Loaded(conv, e.load.src).Success? {
      SuccessReaches(conv, e.load);
    }
  }

  lemma {:induction false} NotedSoFar(conv: Convert, es: seq<Event>)
    requires Ordered(conv, START, es)
    ensures AfterEvents(conv, START, es).fileTime <= Latest(conv, START, es)
    ensures var last := LastReader(conv, START, es);
            last.Some? ==> FileTime(last.value.read) <= Latest(conv, START, es)
  {
    if es != [] {
      var before, e := es[..|es| - 1], es[|es| - 1];
      NotedSoFar(conv, before);
      TimeIsLatest(conv, AfterEvents(conv, START, before), e, Latest(conv, START, before));
      if Makes(AfterEvents(conv, START, before), e) && Loaded(conv, e.load.src).Success? {
        SuccessReaches(conv, e.load);
      }
    }
  }

  /** The last reader read the latest version of all. */
  lemma {:induction false} LastReaderIsLatest(conv: Convert, es: seq<Event>, version: real)
    requires Ordered(conv, START, es)
    ensures var last := LastReader(conv, START, es);
            WasRead(conv, START, es, version) <==> last.Some? && FileTime(last.value.read) >= version
  {
    if es != [] {
      var before, e := es[..|es| - 1], es[|es| - 1];
      LastReaderIsLatest(conv, before, version);
      NotedSoFar(conv, before);
    }
  }

  lemma ExplainedNext(conv: Convert, before: seq<Event>, e: Event)
    requires Ordered(conv, START, before + [e]) && Explained(conv, before)
    ensures Explained(conv, before + [e])
  {
    assert (before + [e])[..|before|] == before;
    NotedSoFar(conv, before);
    var st := AfterEvents(conv, START, before);
    if Makes(st, e) && Loaded(conv, e.load.src).Success? {
      SuccessReaches(conv, e.load);
    }
  }

  lemma {:induction false} AlwaysExplained(conv: Convert, es: seq<Event>)
    requires Ordered(conv, START, es)
    ensures Explained(conv, es)
  {
    if es != [] {
      var before, e := es[..|es| - 1], es[|es| - 1];
      assert es == before + [e];
      AlwaysExplained(conv, before);
      ExplainedNext(conv, before, e);
    }
  }

  /**
    At every look of every run. A look that attempts leaves the version that it sees read exactly if its own
    load comes to the file, or an earlier one read that version already. A look that does not attempt has
    an unread version before it exactly if all loads so far read older ones and the last of them succeeded
    and noted this one, or some read that saw this one failed before it came to the file.
   */
  lemma ReadExactly(conv: Convert, es: seq<Event>, e: Event)
    requires Ordered(conv, START, es + [e]) && Looks(AfterEvents(conv, START, es), e)
    ensures e.seen.Some?
    ensures var v, last := e.seen.value, LastReader(conv, START, es);
            WasRead(conv, START, es + [e], v) <==>
            if Attempts(AfterEvents(conv, START, es), e) then
              Reaches(e.load) || WasRead(conv, START, es, v)
            else
              !(|| (last.Some? && Overlooks(conv, last.value, v))
                || ((last.Some? ==> FileTime(last.value.read) < v) && Balked(conv, START, es, v)))
  {
    assert (es + [e])[..|es|] == es;
    NotedSoFar(conv, es);
    AlwaysExplained(conv, es);
    LastReaderIsLatest(conv, es, e.seen.value);
    assert !Attempts(AfterEvents(conv, START, es), e) ==> AfterEvents(conv, START, es).fileTime == e.seen.value;
  }

  // ---- runs without an unread version ----

  /** Successful loads note the version that they read, and the loads of reads come to the file. */
  predicate Clean(conv: Convert, st: Store, es: seq<Event>) {
    es == [] ||
    var before, e := es[..|es| - 1], es[|es| - 1];
    && Clean(conv, st, before)
    && (Makes(AfterEvents(conv, st, before), e) ==>
          && (e.Read? ==> Reaches(e.load))
          && (Loaded(conv, e.load.src).Success? ==> FileTime(e.load.noted) == FileTime(e.load.read)))
  }

  lemma {:induction false} CleanSoFar(conv: Convert, es: seq<Event>, version: real)
    requires Clean(conv, START, es)
    ensures !Balked(conv, START, es, version)
    ensures var last := LastReader(conv, START, es);
            last.Some? && Loaded(conv, last.value.src).Success? ==>
              FileTime(last.value.noted) == FileTime(last.value.read)
  {
    if es != [] {
      CleanSoFar(conv, es[..|es| - 1], version);
    }
  }

  /** In such runs every look finds its version read, or reads it. */
  lemma NothingOverlooked(conv: Convert, es: seq<Event>, e: Event)
    requires Ordered(conv, START, es + [e]) && Looks(AfterEvents(conv, START, es), e)
    requires Clean(conv, START, es + [e])
    ensures e.seen.Some? && WasRead(conv, START, es + [e], e.seen.value)
  {
    assert (es + [e])[..|es|] == es;
    ReadExactly(conv, es, e);
    CleanSoFar(conv, es, e.seen.value);
  }

  // ---- versions that stay unread ----

  /** Nothing newer than the noted time is seen, and explicit reloads fail. */
  predicate NothingNew(conv: Convert, time: real, es: seq<Event>) {
    forall i :: 0 <= i < |es| ==>
      match es[i]
      case Read(_, seen, _) => seen.Some? ==> seen.value <= time
      case Explicit(load) => Loaded(conv, load.src).Failure?
  }

  lemma {:induction false} NoNewerVersion(conv: Convert, st: Store, es: seq<Event>)
    requires NothingNew(conv, st.fileTime, es)
    ensures AfterEvents(conv, st, es).config == st.config && AfterEvents(conv, st, es).fileTime == st.fileTime
  {
    if es != [] {
      var before := es[..|es| - 1];
      assert forall i :: 0 <= i < |before| ==> before[i] == es[i];
      NoNewerVersion(conv, st, before);
    }
  }

  /**
    A failed automatic reload is not made up for: until the dashboard's file changes again, or an explicit
    reload succeeds, every read answers from the old configuration, even when a load would succeed by now.
   */
  lemma FailureIsFinal(conv: Convert, st: Store, e: Event, es: seq<Event>)
    requires Attempts(st, e) && Loaded(conv, e.load.src).Failure?
    requires NothingNew(conv, e.seen.value, es)
    ensures AfterEvents(conv, After(conv, st, e), es).config == st.config
  {
    NoNewerVersion(conv, After(conv, st, e), es);
  }

  /** A version that a successful load overlooked is not made up for either, under the same conditions. */
  lemma OverlookedStays(conv: Convert, st: Store, e: Event, es: seq<Event>)
    requires Makes(st, e) && Loaded(conv, e.load.src).Success?
    requires NothingNew(conv, FileTime(e.load.noted), es)
    ensures AfterEvents(conv, After(conv, st, e), es).config == Loaded(conv, e.load.src).value
  {
    NoNewerVersion(conv, After(conv, st, e), es);
  }

  /** The file changes to version 2 while a read loads version 1: the next look sees version 2 and does not read it. */
  lemma LateWriteIsOverlooked(conv: Convert, s1: Sources, load: Load)
    requires Loaded(conv, s1).Success?
    ensures var a, b := Read(10.0, Some(1.0), Load(s1, Some(1.0), Some(2.0))), Read(20.0, Some(2.0), load);
            && Ordered(conv, START, [a, b]) && Looks(AfterEvents(conv, START, [a]), b)
            && !WasRead(conv, START, [a, b], 2.0)
            && AfterEvents(conv, START, [a, b]).config == Loaded(conv, s1).value
  {
    var a, b := Read(10.0, Some(1.0), Load(s1, Some(1.0), Some(2.0))), Read(20.0, Some(2.0), load);
    OverlookingLoad(conv, s1);
    FirstTwo(conv, a, b);
  }

  lemma OverlookingLoad(conv: Convert, s1: Sources)
    requires Loaded(conv, s1).Success?
    ensures var a := Read(10.0, Some(1.0), Load(s1, Some(1.0), Some(2.0)));
            && After(conv, START, a) == AfterEvents(conv, START, [a]) == Store(Loaded(conv, s1).value, 10.0, 2.0)
            && Ordered(conv, START, [a]) && Latest(conv, START, [a]) == 2.0 && !WasRead(conv, START, [a], 2.0)
  {
    var a := Read(10.0, Some(1.0), Load(s1, Some(1.0), Some(2.0)));
    FirstTwo(conv, a, a);
    SuccessReaches(conv, a.load);
    assert Ordered(conv, START, []) && Latest(conv, START, []) == 0.0 && !WasRead(conv, START, [], 2.0);
  }

  /** An explicit reload in between that fails on the file before it changes nothing: version 2 is still unread. */
  lemma FailedReloadReadsNothing(conv: Convert, s1: Sources, bad: Load, load: Load)
    requires Loaded(conv, s1).Success? && !Reaches(bad)
    ensures var a, b := Read(10.0, Some(1.0), Load(s1, Some(1.0), Some(2.0))), Explicit(bad);
            var c := Read(20.0, Some(2.0), load);
            && Ordered(conv, START, [a, b] + [c]) && Looks(AfterEvents(conv, START, [a, b]), c)
            && !WasRead(conv, START, [a, b] + [c], 2.0)
            && AfterEvents(conv, START, [a, b] + [c]).config == Loaded(conv, s1).value
  {
    var a, b := Read(10.0, Some(1.0), Load(s1, Some(1.0), Some(2.0))), Explicit(bad);
    var c := Read(20.0, Some(2.0), load);
    OverlookingLoad(conv, s1);
    FirstTwo(conv, a, b);
    assert ([a, b] + [c])[..2] == [a, b];
    assert Loaded(conv, bad.src).Failure?;
    assert AfterEvents(conv, START, [a, b]) == AfterEvents(conv, START, [a]);
    assert Ordered(conv, START, [a, b]) && Latest(conv, START, [a, b]) == 2.0 && !WasRead(conv, START, [a, b], 2.0);
  }

  /** A read whose load fails on the file before it notes version 1 unread: the next look does not read it either. */
  lemma BalkedVersionStays(conv: Convert, bad: Load, load: Load)
    requires !Reaches(bad)
    ensures var a, b := Read(10.0, Some(1.0), bad), Read(20.0, Some(1.0), load);
            && Ordered(conv, START, [a, b]) && Looks(AfterEvents(conv, START, [a]), b)
            && !WasRead(conv, START, [a, b], 1.0) && AfterEvents(conv, START, [a, b]).config == START.config
  {
    var a, b := Read(10.0, Some(1.0), bad), Read(20.0, Some(1.0), load);
    FirstTwo(conv, a, b);
    assert Loaded(conv, bad.src).Failure?;
    assert Ordered(conv, START, []) && Latest(conv, START, []) == 0.0 && !WasRead(conv, START, [], 1.0);
    assert After(conv, START, a) == Store(START.config, 10.0, 1.0);
    assert Ordered(conv, START, [a]) && Latest(conv, START, [a]) == 1.0 && !WasRead(conv, START, [a], 1.0);
  }
}
