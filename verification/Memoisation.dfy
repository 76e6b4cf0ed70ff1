/** The `cached` decorator returns what the function it wraps would return. */
module Memoisation {
  import opened Outcomes
  import opened LruCache
  import opened MultiLevelCache

  /** What can happen to a manager whose entries are all written by decorated calls of one function. */
  datatype Event =
    | Call(arg: Arg, ttl: Option<real>, m: Meets)
    | Get(key: Key, raises: bool, t1: real, t2: real, t3: real)
    | Forget(key: Key, fault: RedisFault)
    | Clear(matching: set<Key>, fault: RedisFault)

  function After(cfg: Config, f: Arg -> Stored, keyOf: Arg -> Key, s: Levels, e: Event): Levels {
    match e
    case Call(arg, ttl, m) => AfterCall(cfg, s, f, keyOf, arg, ttl, m)
    case Get(key, raises, t1, t2, t3) => AfterLookup(cfg, s, key, raises, t1, t2, t3)
    case Forget(key, fault) => AfterDelete(s, key, fault)
    case Clear(matching, fault) => AfterInvalidate(s, matching, fault)
  }

  function State(cfg: Config, redis: bool, f: Arg -> Stored, keyOf: Arg -> Key, events: seq<Event>): Levels {
    if events == [] then MultiLevelCache.Start(cfg, redis)
    else After(cfg, f, keyOf, State(cfg, redis, f, keyOf, events[..|events| - 1]), events[|events| - 1])
  }

  /** Calls that share a key share their result, whenever that result can be cached at all. */
  ghost predicate KeysRespect(f: Arg -> Stored, keyOf: Arg -> Key) {
    forall a, b :: keyOf(a) == keyOf(b) && f(a).Some? ==> f(b) == f(a)
  }

  /** After any events, a decorated call that returns, returns what `f` returns. */
  ghost predicate Transparent(cfg: Config, redis: bool, f: Arg -> Stored, keyOf: Arg -> Key) {
    forall events, arg, ttl, m ::
      var r := CallResult(cfg, State(cfg, redis, f, keyOf, events), f, keyOf, arg, ttl, m);
      r.Success? ==> r.value == f(arg)
  }

  ghost predicate Right(f: Arg -> Stored, keyOf: Arg -> Key, key: Key, v: Stored) {
    v.Some? ==> forall a :: keyOf(a) == key ==> f(a) == v
  }

  /** Both levels hold only results of the function, whether or not they have expired. */
  ghost predicate AllRight(f: Arg -> Stored, keyOf: Arg -> Key, s: Levels) {
    && (s.l1.Some? ==>
          && s.l1.value.ttl.Keys == s.l1.value.cache.Keys
          && forall k :: k in s.l1.value.cache ==> Right(f, keyOf, k, s.l1.value.cache[k]))
    && (s.l2.Some? ==> forall k :: k in s.l2.value ==> Right(f, keyOf, k, s.l2.value[k].value))
  }

  lemma SetKeepsRight(cfg: Config, f: Arg -> Stored, keyOf: Arg -> Key, s: L1State, key: Key, v: Stored, now: real)
    requires AllRight(f, keyOf, Levels(Some(s), None)) && Right(f, keyOf, key, v)
    ensures AllRight(f, keyOf, Levels(Some(AfterSet(s, cfg.l1MaxSize, key, v, now, cfg.l1Ttl)), None))
  {
  }

  lemma LookupKeepsRight(cfg: Config, f: Arg -> Stored, keyOf: Arg -> Key, s: Levels, key: Key,
                         raises: bool, t1: real, t2: real, t3: real)
    requires AllRight(f, keyOf, s)
    ensures AllRight(f, keyOf, AfterLookup(cfg, s, key, raises, t1, t2, t3))
    ensures Right(f, keyOf, key, LookupResult(cfg, s, key, raises, t1, t2))
  {
    if s.l1.Some? {
      var looked := AfterGet(s.l1.value, key, t1);
      var data := L2Answer(cfg, s, key, raises, t2);
      if data.Some? {
        SetKeepsRight(cfg, f, keyOf, looked, key, data.value, t3);
      }
    }
  }

  lemma StoreKeepsRight(cfg: Config, f: Arg -> Stored, keyOf: Arg -> Key, s: Levels, key: Key, v: Stored,
                        ttl: Option<real>, fault: RedisFault, t1: real, t2: real)
    requires AllRight(f, keyOf, s) && Right(f, keyOf, key, v)
    ensures AllRight(f, keyOf, AfterStore(cfg, s, key, v, ttl, fault, t1, t2))
  {
    if s.l1.Some? {
      SetKeepsRight(cfg, f, keyOf, s.l1.value, key, v, t1);
    }
  }

  lemma EventKeepsRight(cfg: Config, f: Arg -> Stored, keyOf: Arg -> Key, s: Levels, e: Event)
    requires KeysRespect(f, keyOf) && AllRight(f, keyOf, s)
    ensures AllRight(f, keyOf, After(cfg, f, keyOf, s, e))
  {
    match e {
      case Call(arg, ttl, m) =>
        LookupKeepsRight(cfg, f, keyOf, s, keyOf(arg), m.raises, m.t1, m.t2, m.t3);
        var looked := AfterLookup(cfg, s, keyOf(arg), m.raises, m.t1, m.t2, m.t3);
        StoreKeepsRight(cfg, f, keyOf, looked, keyOf(arg), f(arg), ttl, m.fault, m.t4, m.t5);
      case Get(key, raises, t1, t2, t3) => LookupKeepsRight(cfg, f, keyOf, s, key, raises, t1, t2, t3);
      case Forget(key, fault) =>
      case Clear(matching, fault) =>
    }
  }

  lemma {:induction false} AlwaysRight(cfg: Config, redis: bool, f: Arg -> Stored, keyOf: Arg -> Key,
                                       events: seq<Event>)
    requires KeysRespect(f, keyOf)
    ensures AllRight(f, keyOf, State(cfg, redis, f, keyOf, events))
  {
    if events != [] {
      var before := events[..|events| - 1];
      AlwaysRight(cfg, redis, f, keyOf, before);
      EventKeepsRight(cfg, f, keyOf, State(cfg, redis, f, keyOf, before), events[|events| - 1]);
    }
  }

  /** Memoisation agrees with the function, across hits, evictions, expiries, back-fills, clears and
    Redis errors, on any clock. */
  lemma MemoSound(cfg: Config, redis: bool, f: Arg -> Stored, keyOf: Arg -> Key)
    requires KeysRespect(f, keyOf)
    ensures Transparent(cfg, redis, f, keyOf)
  {
    forall events, arg, ttl, m
      ensures var r := CallResult(cfg, State(cfg, redis, f, keyOf, events), f, keyOf, arg, ttl, m);
              r.Success? ==> r.value == f(arg)
    {
      AlwaysRight(cfg, redis, f, keyOf, events);
      var s := State(cfg, redis, f, keyOf, events);
      LookupKeepsRight(cfg, f, keyOf, s, keyOf(arg), m.raises, m.t1, m.t2, m.t3);
    }
  }

  /** A call that meets no error succeeds: with the value still held, and otherwise with the result of the function. */
  lemma CallsWork(cfg: Config, s: Levels, f: Arg -> Stored, keyOf: Arg -> Key, arg: Arg, ttl: Option<real>, m: Meets)
    requires !m.raises && m.fault == NoFault
    requires (if ttl.Some? && ttl.value != 0.0 then ttl.value else cfg.l2Ttl) >= 1.0
    ensures var found := LookupResult(cfg, s, keyOf(arg), false, m.t1, m.t2);
            CallResult(cfg, s, f, keyOf, arg, ttl, m) == Success(if found.Some? then found else f(arg))
  {
  }

  /** On a miss the result of the function is in memory for one memory lifetime from its set on. */
  lemma CallIsKept(cfg: Config, s: Levels, f: Arg -> Stored, keyOf: Arg -> Key, arg: Arg, ttl: Option<real>,
                   m: Meets, t: real)
    requires s.l1.Some? && LookupResult(cfg, s, keyOf(arg), m.raises, m.t1, m.t2).None?
    requires !LookupRaises(cfg, s, keyOf(arg), m.raises, m.t1) && t <= m.t4 + cfg.l1Ttl
    ensures L1Answer(AfterCall(cfg, s, f, keyOf, arg, ttl, m), keyOf(arg), t) == f(arg)
  {
    var looked := AfterLookup(cfg, s, keyOf(arg), m.raises, m.t1, m.t2, m.t3);
    SetIsServed(looked.l1.value, cfg.l1MaxSize, keyOf(arg), f(arg), m.t4, cfg.l1Ttl, t);
  }

  /** An error of Redis is the result of the call that meets it. */
  lemma CallsRaise(cfg: Config, s: Levels, f: Arg -> Stored, keyOf: Arg -> Key, arg: Arg, ttl: Option<real>, m: Meets)
    requires s.l1.None? && s.l2.Some? && cfg.enableL2
    ensures m.raises ==> CallResult(cfg, s, f, keyOf, arg, ttl, m) == Failure(RedisError)
    ensures !m.raises && m.fault != NoFault && LookupResult(cfg, s, keyOf(arg), false, m.t1, m.t2).None? ==>
              CallResult(cfg, s, f, keyOf, arg, ttl, m).Failure?
  {
  }

  const ZERO := Meets(0.0, 0.0, 0.0, 0.0, 0.0, false, NoFault)

  /** A call of `b` right after a call of `a` with the same key is answered with the result of `a`. */
  lemma CollisionIsServed(cfg: Config, redis: bool, f: Arg -> Stored, keyOf: Arg -> Key, a: Arg, b: Arg)
    requires cfg.enableL1 && cfg.l1Ttl >= 0.0
    requires keyOf(a) == keyOf(b) && f(a).Some?
    ensures CallResult(cfg, State(cfg, redis, f, keyOf, [Call(a, None, ZERO)]), f, keyOf, b, None, ZERO)
            == Success(f(a))
  {
    var start := MultiLevelCache.Start(cfg, redis);
    assert [Call(a, None, ZERO)][..0] == [];
    assert State(cfg, redis, f, keyOf, [Call(a, None, ZERO)]) == After(cfg, f, keyOf, start, Call(a, None, ZERO));
    assert LookupResult(cfg, start, keyOf(a), false, 0.0, 0.0).None?;
    OneEntry(cfg.l1MaxSize, keyOf(a), f(a), 0.0, cfg.l1Ttl, cfg.l1Ttl + 1.0);
  }

  /** Exactly the key functions that keep differing results apart make the decorator transparent. */
  lemma MemoExact(cfg: Config, redis: bool, f: Arg -> Stored, keyOf: Arg -> Key)
    requires cfg.enableL1 && cfg.l1Ttl >= 0.0
    ensures Transparent(cfg, redis, f, keyOf) <==> KeysRespect(f, keyOf)
  {
    if KeysRespect(f, keyOf) {
      MemoSound(cfg, redis, f, keyOf);
    } else {
      var a, b :| keyOf(a) == keyOf(b) && f(a).Some? && f(b) != f(a);
      CollisionIsServed(cfg, redis, f, keyOf, a, b);
    }
  }

  // ---- functions that are no coroutines ----

  predicate Empty(s: Levels) {
    && (s.l1.Some? ==> s.l1.value.cache == map[])
    && (s.l2.Some? ==> s.l2.value == map[])
  }

  lemma {:induction false} NothingIsStored(cfg: Config, redis: bool, ops: seq<Op>)
    requires forall i :: 0 <= i < |ops| ==> !ops[i].Store?
    ensures Empty(MultiLevelCache.Run(cfg, redis, ops))
  {
    if ops != [] {
      var before := ops[..|ops| - 1];
      assert forall i :: 0 <= i < |before| ==> before[i] == ops[i];
      NothingIsStored(cfg, redis, before);
    }
  }

  /**
    For a function that is no coroutine the decorator never works: in every run of its calls, and of reads,
    deletes and invalidations, each call raises, since none of them stores anything.
   */
  lemma PlainAlwaysRaises(cfg: Config, redis: bool, ops: seq<Op>, key: Key, m: Meets)
    requires forall i :: 0 <= i < |ops| ==> !ops[i].Store?
    ensures PlainResult(cfg, MultiLevelCache.Run(cfg, redis, ops), key, m).Failure?
  {
    NothingIsStored(cfg, redis, ops);
  }
}
