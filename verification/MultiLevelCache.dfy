/**
  The cache manager: the memory level in front of a Redis level, with back-fill of the first from the
  second. Times are the clock readings a call makes, in the order in which it makes them.
 */
module MultiLevelCache {
  import opened Outcomes
  import opened LruCache

  datatype Config = Config(l1Ttl: real, l2Ttl: real, l1MaxSize: int, enableL1: bool, enableL2: bool)

  /** What Redis holds for a key; it answers for the key until `expiry`. */
  datatype Entry = Entry(value: Stored, expiry: real)

  /** Both levels; a level that is switched off, or has no client, is `None`. */
  datatype Levels = Levels(l1: Option<L1State>, l2: Option<map<Key, Entry>>)

  function Start(cfg: Config, redis: bool): Levels {
    Levels(if cfg.enableL1 then Some(EMPTY) else None, if redis then Some(map[]) else None)
  }

  /** Python's `int` of a float. */
  function Truncate(r: real): int {
    if r >= 0.0 then r.Floor else -((-r).Floor)
  }

  /** The lifetime in seconds that a set asks of Redis: an absent or zero argument means the default. */
  function L2Seconds(cfg: Config, l2Ttl: Option<real>): int {
    Truncate(if l2Ttl.Some? && l2Ttl.value != 0.0 then l2Ttl.value else cfg.l2Ttl)
  }

  predicate UsesL2(cfg: Config, s: Levels) {
    s.l2.Some? && cfg.enableL2
  }

  /** What a Redis command runs into: nothing, an error before it took effect, or an error after it did. */
  datatype RedisFault = NoFault | Refused | Unacknowledged

  function RedisGet(l2: map<Key, Entry>, key: Key, now: real): Option<Stored> {
    if key in l2 && now < l2[key].expiry then Some(l2[key].value) else None
  }

  // ---- what each operation does to the two levels ----

  function L1Answer(s: Levels, key: Key, now: real): Stored {
    if s.l1.Some? then GetResult(s.l1.value, key, now) else None
  }

  /** `raises`: the Redis read fails. */
  function L2Answer(cfg: Config, s: Levels, key: Key, raises: bool, now: real): Option<Stored> {
    if UsesL2(cfg, s) && !raises then RedisGet(s.l2.value, key, now) else None
  }

  function L1AfterGet(l1: Option<L1State>, key: Key, now: real): Option<L1State> {
    if l1.Some? then Some(AfterGet(l1.value, key, now)) else None
  }

  function L1AfterSet(cfg: Config, l1: Option<L1State>, key: Key, value: Stored, now: real): Option<L1State> {
    if l1.Some? then Some(AfterSet(l1.value, cfg.l1MaxSize, key, value, now, cfg.l1Ttl)) else None
  }

  function L1AfterDelete(l1: Option<L1State>, key: Key): Option<L1State> {
    if l1.Some? then Some(Removed(l1.value, key)) else None
  }

  /** `t1`: the memory lookup; `t2`: the Redis lookup; `t3`: the back-fill. */
  function AfterLookup(cfg: Config, s: Levels, key: Key, raises: bool, t1: real, t2: real, t3: real): Levels {
    var looked := s.(l1 := L1AfterGet(s.l1, key, t1));
    if L1Answer(s, key, t1).Some? then looked
    else
      var data := L2Answer(cfg, s, key, raises, t2);
      if data.Some? then looked.(l1 := L1AfterSet(cfg, looked.l1, key, data.value, t3)) else looked
  }

  function LookupResult(cfg: Config, s: Levels, key: Key, raises: bool, t1: real, t2: real): Stored {
    if L1Answer(s, key, t1).Some? then L1Answer(s, key, t1)
    else
      var data := L2Answer(cfg, s, key, raises, t2);
      if data.Some? then data.value else None
  }

  /** An error of Redis reaches the caller when memory did not answer. */
  predicate LookupRaises(cfg: Config, s: Levels, key: Key, raises: bool, t1: real) {
    UsesL2(cfg, s) && raises && L1Answer(s, key, t1).None?
  }

  /** Redis refuses a lifetime below one second; the memory level is written before that. */
  predicate Accepted(cfg: Config, l2Ttl: Option<real>) {
    L2Seconds(cfg, l2Ttl) >= 1
  }

  /** The set reaches Redis, if Redis is in use. */
  predicate StoreTaken(cfg: Config, s: Levels, l2Ttl: Option<real>, fault: RedisFault) {
    UsesL2(cfg, s) ==> Accepted(cfg, l2Ttl) && !fault.Refused?
  }

  function StoreError(cfg: Config, s: Levels, l2Ttl: Option<real>, fault: RedisFault): Option<Error> {
    if !UsesL2(cfg, s) then None
    else if !Accepted(cfg, l2Ttl) then Some(InvalidExpireTime)
    else if fault.NoFault? then None
    else Some(RedisError)
  }

  function AfterStore(cfg: Config, s: Levels, key: Key, value: Stored, l2Ttl: Option<real>, fault: RedisFault,
                      t1: real, t2: real): Levels {
    var stored := s.(l1 := L1AfterSet(cfg, s.l1, key, value, t1));
    if UsesL2(cfg, s) && StoreTaken(cfg, s, l2Ttl, fault) then
      stored.(l2 := Some(s.l2.value[key := Entry(value, t2 + L2Seconds(cfg, l2Ttl) as real)]))
    else stored
  }

  /** The memory level is cleared before Redis is asked. */
  function AfterDelete(s: Levels, key: Key, fault: RedisFault): Levels {
    Levels(L1AfterDelete(s.l1, key), if s.l2.Some? && !fault.Refused? then Some(s.l2.value - {key}) else s.l2)
  }

  /** `matching`: the keys that the scan for the pattern reports. Only Redis is cleared. */
  function AfterInvalidate(s: Levels, matching: set<Key>, fault: RedisFault): Levels {
    if s.l2.Some? && !fault.Refused? then s.(l2 := Some(s.l2.value - matching)) else s
  }

  datatype Error = InvalidExpireTime | RedisError | NotAwaitable

  // ---- the memoising decorator ----

  /** The arguments of a decorated call, as the JSON text that its key is built from. */
  type Arg = string

  /**
    What one decorated call meets: the clock readings of its lookup and of its set, whether the Redis read
    raises, and the fault of the Redis write.
   */
  datatype Meets = Meets(t1: real, t2: real, t3: real, t4: real, t5: real, raises: bool, fault: RedisFault)

  function AfterCall(cfg: Config, s: Levels, f: Arg -> Stored, keyOf: Arg -> Key, arg: Arg, ttl: Option<real>,
                     m: Meets): Levels {
    var looked := AfterLookup(cfg, s, keyOf(arg), m.raises, m.t1, m.t2, m.t3);
    if LookupRaises(cfg, s, keyOf(arg), m.raises, m.t1) || LookupResult(cfg, s, keyOf(arg), m.raises, m.t1, m.t2).Some?
    then looked
    else AfterStore(cfg, looked, keyOf(arg), f(arg), ttl, m.fault, m.t4, m.t5)
  }

  function CallResult(cfg: Config, s: Levels, f: Arg -> Stored, keyOf: Arg -> Key, arg: Arg, ttl: Option<real>,
                      m: Meets): Result<Stored, Error> {
    var found := LookupResult(cfg, s, keyOf(arg), m.raises, m.t1, m.t2);
    var error := StoreError(cfg, s, ttl, m.fault);
    if LookupRaises(cfg, s, keyOf(arg), m.raises, m.t1) then Failure(RedisError)
    else if found.Some? then Success(found)
    else if error.None? then Success(f(arg))
    else Failure(error.value)
  }

  /** A call of a decorated function that is no coroutine: on a miss the wrapper awaits its result, which raises. */
  function PlainResult(cfg: Config, s: Levels, key: Key, m: Meets): Result<Stored, Error> {
    var found := LookupResult(cfg, s, key, m.raises, m.t1, m.t2);
    if LookupRaises(cfg, s, key, m.raises, m.t1) then Failure(RedisError)
    else if found.Some? then Success(found)
    else Failure(NotAwaitable)
  }

  class Manager {
    const config: Config
    const l1: L1MemoryCache?
    var l2: Option<map<Key, Entry>>

    ghost predicate Valid()
      reads this
    {
      && (l1 != null <==> config.enableL1)
      && (l1 != null ==> l1.maxSize == config.l1MaxSize)
    }

    ghost function Model(): Levels
      reads this, l1
    {
      Levels(if l1 != null then Some(l1.Model()) else None, l2)
    }

    constructor (config: Config, redis: bool)
      ensures Valid() && Model() == Start(config, redis) && this.config == config
      ensures l1 != null ==> fresh(l1)
    {
      this.config := config;
      if config.enableL1 {
        var cache := new L1MemoryCache(config.l1MaxSize);
        l1 := cache;
      } else {
        l1 := null;
      }
      l2 := if redis then Some(map[]) else None;
    }

    method Get(key: Key, raises: bool, t1: real, t2: real, t3: real) returns (r: Result<Stored, Error>)
      requires Valid()
      modifies this, l1
      ensures Valid() && Model() == AfterLookup(config, old(Model()), key, raises, t1, t2, t3)
      ensures r == if LookupRaises(config, old(Model()), key, raises, t1) then Failure(RedisError)
                   else Success(LookupResult(config, old(Model()), key, raises, t1, t2))
    {
      if l1 != null {
        var value := l1.Get(key, t1);
        if value.Some? {
          return Success(value);
        }
      }
      if l2.Some? && config.enableL2 {
        if raises {
          return Failure(RedisError);
        }
        var data := RedisGet(l2.value, key, t2);
        if data.Some? {
          if l1 != null {
            l1.Set(key, data.value, t3, config.l1Ttl);
          }
          return Success(data.value);
        }
      }
      return Success(None);
    }

    method Set(key: Key, value: Stored, l2Ttl: Option<real>, fault: RedisFault, t1: real, t2: real)
      returns (error: Option<Error>)
      requires Valid()
      modifies this, l1
      ensures Valid() && Model() == AfterStore(config, old(Model()), key, value, l2Ttl, fault, t1, t2)
      ensures error == StoreError(config, old(Model()), l2Ttl, fault)
      ensures old(l2).Some? && config.enableL2 ==>
                (error == Some(InvalidExpireTime) <==>
                 (if l2Ttl.Some? && l2Ttl.value != 0.0 then l2Ttl.value else config.l2Ttl) < 1.0)
    {
      if l1 != null {
        l1.Set(key, value, t1, config.l1Ttl);
      }
      if l2.Some? && config.enableL2 {
        var ttl := if l2Ttl.Some? && l2Ttl.value != 0.0 then l2Ttl.value else config.l2Ttl;
        var seconds := Truncate(ttl);
        if seconds < 1 {
          return Some(InvalidExpireTime);
        }
        if !fault.Refused? {
          l2 := Some(l2.value[key := Entry(value, t2 + seconds as real)]);
        }
        return if fault.NoFault? then None else Some(RedisError);
      }
      return None;
    }

    /** One call through the `cached` decorator: `f` is the function, `keyOf` builds the cache key. */
    method CachedCall(f: Arg -> Stored, keyOf: Arg -> Key, arg: Arg, ttl: Option<real>, m: Meets)
      returns (r: Result<Stored, Error>)
      requires Valid()
      modifies this, l1
      ensures Valid() && Model() == AfterCall(config, old(Model()), f, keyOf, arg, ttl, m)
      ensures r == CallResult(config, old(Model()), f, keyOf, arg, ttl, m)
    {
      var cacheKey := keyOf(arg);
      var cachedValue := Get(cacheKey, m.raises, m.t1, m.t2, m.t3);
      if cachedValue.Failure? || cachedValue.value.Some? {
        return cachedValue;
      }
      var result := f(arg);
      var error := Set(cacheKey, result, ttl, m.fault, m.t4, m.t5);
      return if error.None? then Success(result) else Failure(error.value);
    }

    /** One call of a decorated function that is no coroutine. */
    method PlainCall(keyOf: Arg -> Key, arg: Arg, m: Meets) returns (r: Result<Stored, Error>)
      requires Valid()
      modifies this, l1
      ensures Valid() && Model() == AfterLookup(config, old(Model()), keyOf(arg), m.raises, m.t1, m.t2, m.t3)
      ensures r == PlainResult(config, old(Model()), keyOf(arg), m)
    {
      var cachedValue := Get(keyOf(arg), m.raises, m.t1, m.t2, m.t3);
      if cachedValue.Failure? || cachedValue.value.Some? {
        return cachedValue;
      }
      return Failure(NotAwaitable);
    }

    method Delete(key: Key, fault: RedisFault) returns (error: Option<Error>)
      requires Valid()
      modifies this, l1
      ensures Valid() && Model() == AfterDelete(old(Model()), key, fault)
      ensures error.Some? <==> l2.Some? && !fault.NoFault?
    {
      if l1 != null {
        l1.Delete(key);
      }
      error := None;
      if l2.Some? {
        if !fault.Refused? {
          l2 := Some(l2.value - {key});
        }
        error := if fault.NoFault? then None else Some(RedisError);
      }
    }

    /** A fault is one of the scan or of the delete; the scan takes no effect. */
    method InvalidatePattern(matching: set<Key>, fault: RedisFault) returns (r: Result<nat, Error>)
      requires Valid()
      requires l2.Some? ==> matching <= l2.value.Keys
      modifies this
      ensures Valid() && Model() == AfterInvalidate(old(Model()), matching, fault)
      ensures r == if l2.None? then Success(0) else if fault.NoFault? then Success(|matching|) else Failure(RedisError)
    {
      if l2.None? {
        return Success(0);
      }
      if matching != {} && !fault.Refused? {
        l2 := Some(l2.value - matching);
      }
      assert l2.value - {} == l2.value;
      return if fault.NoFault? then Success(|matching|) else Failure(RedisError);
    }
  }

  // ---- runs ----

  datatype Op =
    | Lookup(key: Key, raises: bool, t1: real, t2: real, t3: real)
    | Store(key: Key, value: Stored, l2Ttl: Option<real>, fault: RedisFault, t1: real, t2: real)
    | Delete(key: Key, fault: RedisFault, t: real)
    | Invalidate(matching: set<Key>, fault: RedisFault, t: real)
  {
    function Begin(): real {
      match this
      case Lookup(_, _, t1, _, _) => t1
      case Store(_, _, _, _, t1, _) => t1
      case Delete(_, _, t) => t
      case Invalidate(_, _, t) => t
    }

    function End(): real {
      match this
      case Lookup(_, _, _, _, t3) => t3
      case Store(_, _, _, _, _, t2) => t2
      case Delete(_, _, t) => t
      case Invalidate(_, _, t) => t
    }
  }

  function Step(cfg: Config, s: Levels, op: Op): Levels {
    match op
    case Lookup(key, raises, t1, t2, t3) => AfterLookup(cfg, s, key, raises, t1, t2, t3)
    case Store(key, value, ttl, fault, t1, t2) => AfterStore(cfg, s, key, value, ttl, fault, t1, t2)
    case Delete(key, fault, _) => AfterDelete(s, key, fault)
    case Invalidate(matching, fault, _) => AfterInvalidate(s, matching, fault)
  }

  function Run(cfg: Config, redis: bool, ops: seq<Op>): Levels {
    if ops == [] then Start(cfg, redis)
    else Step(cfg, Run(cfg, redis, ops[..|ops| - 1]), ops[|ops| - 1])
  }

  /** The clock readings of an operation ascend; a back-fill follows its Redis read within `lag`. */
  predicate Lasts(op: Op, lag: real) {
    && (op.Lookup? ==> op.t1 <= op.t2 <= op.t3 <= op.t2 + lag)
    && (op.Store? ==> op.t1 <= op.t2)
  }

  /** One sequential client on a clock that never goes back. */
  predicate WellTimed(ops: seq<Op>, lag: real) {
    ops == [] ||
    var before, op := ops[..|ops| - 1], ops[|ops| - 1];
    && WellTimed(before, lag)
    && (before != [] ==> before[|before| - 1].End() <= op.Begin())
    && Lasts(op, lag)
  }

  /** The operation takes effect in Redis, if Redis is in use; reads and invalidations need not. */
  predicate Taken(cfg: Config, redis: bool, op: Op) {
    match op
    case Store(_, _, ttl, fault, _, _) => StoreTaken(cfg, Start(cfg, redis), ttl, fault)
    case Delete(_, fault, _) => UsesL2(cfg, Start(cfg, redis)) ==> !fault.Refused?
    case _ => true
  }

  predicate AllTaken(cfg: Config, redis: bool, ops: seq<Op>) {
    forall i :: 0 <= i < |ops| ==> Taken(cfg, redis, ops[i])
  }

  /** An invalidation that covers the key and takes effect. */
  predicate Clears(op: Op, key: Key) {
    op.Invalidate? && !op.fault.Refused? && key in op.matching
  }

  /** The position of the last set of `key` that no delete of `key` follows. */
  function LastStore(ops: seq<Op>, key: Key): Option<nat> {
    if ops == [] then None
    else
      var before, op := ops[..|ops| - 1], ops[|ops| - 1];
      if op.Store? && op.key == key then Some(|before|)
      else if op.Delete? && op.key == key then None
      else LastStore(before, key)
  }

  /** How long the back-filled copy of a value may outlive its set: once through each level. */
  function L1Life(cfg: Config): real {
    if cfg.l1Ttl > 0.0 then cfg.l1Ttl else 0.0
  }

  function L2Life(cfg: Config, redis: bool, op: Op): real
    requires op.Store?
  {
    if redis && cfg.enableL2 then L2Seconds(cfg, op.l2Ttl) as real else 0.0
  }

  /** `value` is what the last set of `key` stored, and a copy of it that expires then is not too old. */
  ghost predicate InDate(cfg: Config, redis: bool, ops: seq<Op>, lag: real, key: Key, value: Stored, expiry: real) {
    && LastStore(ops, key).Some?
    && var j := LastStore(ops, key).value;
    && j < |ops| && ops[j].Store? && ops[j].key == key
    && ops[j].value == value
    && expiry <= ops[j].t2 + L2Life(cfg, redis, ops[j]) + L1Life(cfg) + lag
    && (forall m :: j < m < |ops| && Clears(ops[m], key) ==>
          expiry <= ops[m].t + L1Life(cfg))
  }

  /** A Redis entry ends with its own lifetime and does not survive an invalidation. */
  ghost predicate InDateL2(cfg: Config, redis: bool, ops: seq<Op>, key: Key, e: Entry) {
    && LastStore(ops, key).Some?
    && var j := LastStore(ops, key).value;
    && j < |ops| && ops[j].Store? && ops[j].key == key
    && ops[j].value == e.value
    && e.expiry <= ops[j].t2 + L2Life(cfg, redis, ops[j])
    && (forall m :: j < m < |ops| ==> !Clears(ops[m], key))
  }

  function Now(ops: seq<Op>): real
    requires ops != []
  {
    ops[|ops| - 1].End()
  }

  /** A memory entry, if the key has one. */
  ghost predicate EntryRight(cfg: Config, redis: bool, ops: seq<Op>, lag: real, key: Key, s: L1State) {
    key in s.cache ==>
      && key in s.ttl && ops != []
      && InDate(cfg, redis, ops, lag, key, s.cache[key], s.ttl[key])
      && s.ttl[key] <= Now(ops) + L1Life(cfg)
  }

  ghost predicate EntryRightL2(cfg: Config, redis: bool, ops: seq<Op>, key: Key, l2: map<Key, Entry>) {
    key in l2 ==> InDateL2(cfg, redis, ops, key, l2[key])
  }

  ghost predicate CoherentIn(cfg: Config, redis: bool, ops: seq<Op>, lag: real, s: Levels) {
    && (s.l2.Some? <==> redis)
    && (s.l1.Some? ==>
          && s.l1.value.ttl.Keys == s.l1.value.cache.Keys
          && forall k :: EntryRight(cfg, redis, ops, lag, k, s.l1.value))
    && (UsesL2(cfg, s) ==> forall k :: EntryRightL2(cfg, redis, ops, k, s.l2.value))
  }

  ghost predicate Coherent(cfg: Config, redis: bool, ops: seq<Op>, lag: real) {
    CoherentIn(cfg, redis, ops, lag, Run(cfg, redis, ops))
  }

  // ---- a lookup never answers with a stale value ----

  /** A get, a delete or an eviction leaves the entries that remain as they were. */
  predicate Within(t: L1State, s: L1State) {
    && t.ttl.Keys == t.cache.Keys
    && forall k :: k in t.cache ==> k in s.cache && k in s.ttl && t.cache[k] == s.cache[k] && t.ttl[k] == s.ttl[k]
  }

  lemma EntriesAfterEviction(s: L1State, maxSize: int, key: Key)
    requires s.ttl.Keys == s.cache.Keys
    ensures Within(MakeRoom(s, maxSize, key), s)
  {
  }

  lemma StillInDate(cfg: Config, redis: bool, before: seq<Op>, op: Op, lag: real, key: Key, value: Stored, expiry: real)
    requires InDate(cfg, redis, before, lag, key, value, expiry)
    requires !(op.Store? && op.key == key) && !(op.Delete? && op.key == key)
    requires Clears(op, key) ==> expiry <= op.t + L1Life(cfg)
    ensures InDate(cfg, redis, before + [op], lag, key, value, expiry)
  {
    assert (before + [op])[..|before|] == before;
  }

  lemma StillInDateL2(cfg: Config, redis: bool, before: seq<Op>, op: Op, key: Key, e: Entry)
    requires InDateL2(cfg, redis, before, key, e)
    requires !(op.Store? && op.key == key) && !(op.Delete? && op.key == key)
    requires !Clears(op, key)
    ensures InDateL2(cfg, redis, before + [op], key, e)
  {
    assert (before + [op])[..|before|] == before;
  }

  lemma JustStored(cfg: Config, redis: bool, before: seq<Op>, op: Op, lag: real)
    requires op.Store? && op.t1 <= op.t2 && lag >= 0.0
    requires L2Life(cfg, redis, op) >= 0.0
    ensures InDate(cfg, redis, before + [op], lag, op.key, op.value, op.t1 + cfg.l1Ttl)
    ensures InDateL2(cfg, redis, before + [op], op.key, Entry(op.value, op.t2 + L2Life(cfg, redis, op)))
  {
  }

  /** The entry of `k`, if `t` has one, is that of `s`. */
  predicate SameEntry(t: L1State, s: L1State, k: Key) {
    k in t.cache ==> k in t.ttl && k in s.cache && k in s.ttl && t.cache[k] == s.cache[k] && t.ttl[k] == s.ttl[k]
  }

  lemma KeptEntry(cfg: Config, redis: bool, before: seq<Op>, op: Op, lag: real, k: Key, s: L1State, t: L1State)
    requires EntryRight(cfg, redis, before, lag, k, s) && SameEntry(t, s, k)
    requires Lasts(op, lag) && (before != [] ==> Now(before) <= op.Begin())
    requires !(op.Store? && op.key == k) && !(op.Delete? && op.key == k)
    ensures EntryRight(cfg, redis, before + [op], lag, k, t)
  {
    if k in t.cache {
      StillInDate(cfg, redis, before, op, lag, k, s.cache[k], s.ttl[k]);
    }
  }

  /** After a set the key has the new entry, unless it was evicted, and every other entry is the one before. */
  lemma EntryAfterSet(s: L1State, maxSize: int, key: Key, value: Stored, now: real, ttl: real, k: Key)
    requires s.ttl.Keys == s.cache.Keys
    ensures var t := AfterSet(s, maxSize, key, value, now, ttl);
            && t.ttl.Keys == t.cache.Keys
            && (k in t.cache ==>
                  if k == key then t.cache[k] == value && t.ttl[k] == now + ttl else SameEntry(t, s, k))
  {
    EntriesAfterEviction(s, maxSize, key);
  }

  lemma NotBackfilled(cfg: Config, s: Levels, op: Op, k: Key)
    requires op.Lookup? && s.l1.Some? && s.l1.value.ttl.Keys == s.l1.value.cache.Keys
    requires k != op.key || L1Answer(s, op.key, op.t1).Some? || L2Answer(cfg, s, op.key, op.raises, op.t2).None?
    ensures SameEntry(Step(cfg, s, op).l1.value, s.l1.value, k)
  {
    var looked, data := AfterGet(s.l1.value, op.key, op.t1), L2Answer(cfg, s, op.key, op.raises, op.t2);
    if L1Answer(s, op.key, op.t1).None? && data.Some? {
      EntryAfterSet(looked, cfg.l1MaxSize, op.key, data.value, op.t3, cfg.l1Ttl, k);
    }
  }

  lemma Backfilled(cfg: Config, s: Levels, op: Op)
    requires op.Lookup? && s.l1.Some? && s.l1.value.ttl.Keys == s.l1.value.cache.Keys
    requires L1Answer(s, op.key, op.t1).None? && L2Answer(cfg, s, op.key, op.raises, op.t2).Some?
    ensures var t := Step(cfg, s, op).l1.value;
            op.key in t.cache ==>
              && op.key in t.ttl && t.ttl[op.key] == op.t3 + cfg.l1Ttl
              && t.cache[op.key] == L2Answer(cfg, s, op.key, op.raises, op.t2).value
  {
    var looked, data := AfterGet(s.l1.value, op.key, op.t1), L2Answer(cfg, s, op.key, op.raises, op.t2);
    EntryAfterSet(looked, cfg.l1MaxSize, op.key, data.value, op.t3, cfg.l1Ttl, op.key);
  }

  lemma LookedUpEntry(cfg: Config, redis: bool, before: seq<Op>, op: Op, lag: real, k: Key, s: Levels)
    requires op.Lookup? && s.l1.Some? && s.l1.value.ttl.Keys == s.l1.value.cache.Keys
    requires EntryRight(cfg, redis, before, lag, k, s.l1.value)
    requires UsesL2(cfg, s) ==> EntryRightL2(cfg, redis, before, k, s.l2.value)
    requires Lasts(op, lag) && (before != [] ==> Now(before) <= op.Begin())
    ensures EntryRight(cfg, redis, before + [op], lag, k, Step(cfg, s, op).l1.value)
  {
    if k == op.key && L1Answer(s, op.key, op.t1).None? && L2Answer(cfg, s, op.key, op.raises, op.t2).Some? {
      Backfilled(cfg, s, op);
    } else {
      NotBackfilled(cfg, s, op, k);
      KeptEntry(cfg, redis, before, op, lag, k, s.l1.value, Step(cfg, s, op).l1.value);
    }
  }

  lemma StoredOwn(cfg: Config, redis: bool, before: seq<Op>, op: Op, lag: real, s: L1State)
    requires s.ttl.Keys == s.cache.Keys && op.Store? && lag >= 0.0 && op.t1 <= op.t2 && L2Life(cfg, redis, op) >= 0.0
    ensures EntryRight(cfg, redis, before + [op], lag, op.key,
                       AfterSet(s, cfg.l1MaxSize, op.key, op.value, op.t1, cfg.l1Ttl))
  {
    EntryAfterSet(s, cfg.l1MaxSize, op.key, op.value, op.t1, cfg.l1Ttl, op.key);
    JustStored(cfg, redis, before, op, lag);
    assert Now(before + [op]) == op.t2;
  }

  lemma StoredOther(cfg: Config, redis: bool, before: seq<Op>, op: Op, lag: real, k: Key, s: L1State)
    requires s.ttl.Keys == s.cache.Keys && op.Store? && k != op.key
    requires EntryRight(cfg, redis, before, lag, k, s)
    requires Lasts(op, lag) && (before != [] ==> Now(before) <= op.Begin())
    ensures EntryRight(cfg, redis, before + [op], lag, k,
                       AfterSet(s, cfg.l1MaxSize, op.key, op.value, op.t1, cfg.l1Ttl))
  {
    var t := AfterSet(s, cfg.l1MaxSize, op.key, op.value, op.t1, cfg.l1Ttl);
    EntryAfterSet(s, cfg.l1MaxSize, op.key, op.value, op.t1, cfg.l1Ttl, k);
    assert SameEntry(t, s, k);
    KeptEntry(cfg, redis, before, op, lag, k, s, t);
  }

  lemma StoreStep(cfg: Config, s: Levels, op: Op)
    requires op.Store? && s.l1.Some?
    ensures Step(cfg, s, op).l1 == Some(AfterSet(s.l1.value, cfg.l1MaxSize, op.key, op.value, op.t1, cfg.l1Ttl))
  {
  }

  lemma StoredEntry(cfg: Config, redis: bool, before: seq<Op>, op: Op, lag: real, k: Key, s: Levels)
    requires s.l1.Some? && s.l1.value.ttl.Keys == s.l1.value.cache.Keys && op.Store? && lag >= 0.0
    requires EntryRight(cfg, redis, before, lag, k, s.l1.value)
    requires Lasts(op, lag) && (before != [] ==> Now(before) <= op.Begin()) && L2Life(cfg, redis, op) >= 0.0
    ensures EntryRight(cfg, redis, before + [op], lag, k, Step(cfg, s, op).l1.value)
  {
    StoreStep(cfg, s, op);
    if k == op.key {
      StoredOwn(cfg, redis, before, op, lag, s.l1.value);
    } else {
      StoredOther(cfg, redis, before, op, lag, k, s.l1.value);
    }
  }

  lemma DroppedEntry(cfg: Config, redis: bool, before: seq<Op>, op: Op, lag: real, k: Key, s: Levels)
    requires s.l1.Some? && EntryRight(cfg, redis, before, lag, k, s.l1.value) && (op.Delete? || op.Invalidate?)
    requires before != [] ==> Now(before) <= op.Begin()
    ensures EntryRight(cfg, redis, before + [op], lag, k, Step(cfg, s, op).l1.value)
  {
    if !(op.Delete? && op.key == k) {
      KeptEntry(cfg, redis, before, op, lag, k, s.l1.value, Step(cfg, s, op).l1.value);
    }
  }

  lemma StepEntry(cfg: Config, redis: bool, before: seq<Op>, op: Op, lag: real, k: Key, s: Levels)
    requires CoherentIn(cfg, redis, before, lag, s) && s.l1.Some? && lag >= 0.0
    requires Lasts(op, lag) && (before != [] ==> Now(before) <= op.Begin()) && Taken(cfg, redis, op)
    ensures EntryRight(cfg, redis, before + [op], lag, k, Step(cfg, s, op).l1.value)
  {
    assert EntryRight(cfg, redis, before, lag, k, s.l1.value);
    assert UsesL2(cfg, s) ==> EntryRightL2(cfg, redis, before, k, s.l2.value);
    match op {
      case Lookup(_, _, _, _, _) => LookedUpEntry(cfg, redis, before, op, lag, k, s);
      case Store(_, _, _, _, _, _) =>
        StoredEntry(cfg, redis, before, op, lag, k, s);
      case Delete(_, _, _) => DroppedEntry(cfg, redis, before, op, lag, k, s);
      case Invalidate(_, _, _) => DroppedEntry(cfg, redis, before, op, lag, k, s);
    }
  }

  lemma StepEntryL2(cfg: Config, redis: bool, before: seq<Op>, op: Op, lag: real, k: Key, s: Levels)
    requires CoherentIn(cfg, redis, before, lag, s) && UsesL2(cfg, s) && lag >= 0.0
    requires Lasts(op, lag) && Taken(cfg, redis, op)
    ensures EntryRightL2(cfg, redis, before + [op], k, Step(cfg, s, op).l2.value)
  {
    assert EntryRightL2(cfg, redis, before, k, s.l2.value);
    if k in Step(cfg, s, op).l2.value {
      if op.Store? && op.key == k {
        JustStored(cfg, redis, before, op, lag);
      } else {
        StillInDateL2(cfg, redis, before, op, k, s.l2.value[k]);
      }
    }
  }

  lemma KeysInStep(cfg: Config, s: Levels, op: Op)
    requires s.l1.Some? && s.l1.value.ttl.Keys == s.l1.value.cache.Keys
    ensures Step(cfg, s, op).l1.Some? && Step(cfg, s, op).l1.value.ttl.Keys == Step(cfg, s, op).l1.value.cache.Keys
  {
    if op.Lookup? {
      var data := L2Answer(cfg, s, op.key, op.raises, op.t2);
      if data.Some? {
        var looked := AfterGet(s.l1.value, op.key, op.t1);
        EntryAfterSet(looked, cfg.l1MaxSize, op.key, data.value, op.t3, cfg.l1Ttl, op.key);
      }
    } else if op.Store? {
      EntryAfterSet(s.l1.value, cfg.l1MaxSize, op.key, op.value, op.t1, cfg.l1Ttl, op.key);
    }
  }

  lemma CoherentStep(cfg: Config, redis: bool, before: seq<Op>, op: Op, lag: real, s: Levels)
    requires CoherentIn(cfg, redis, before, lag, s) && lag >= 0.0
    requires Lasts(op, lag) && (before != [] ==> Now(before) <= op.Begin()) && Taken(cfg, redis, op)
    ensures CoherentIn(cfg, redis, before + [op], lag, Step(cfg, s, op))
  {
    if s.l1.Some? {
      KeysInStep(cfg, s, op);
      forall k ensures EntryRight(cfg, redis, before + [op], lag, k, Step(cfg, s, op).l1.value) {
        StepEntry(cfg, redis, before, op, lag, k, s);
      }
    }
    if UsesL2(cfg, s) {
      forall k ensures EntryRightL2(cfg, redis, before + [op], k, Step(cfg, s, op).l2.value) {
        StepEntryL2(cfg, redis, before, op, lag, k, s);
      }
    }
  }

  lemma {:induction false} AlwaysCoherent(cfg: Config, redis: bool, ops: seq<Op>, lag: real)
    requires WellTimed(ops, lag) && AllTaken(cfg, redis, ops) && lag >= 0.0
    ensures Coherent(cfg, redis, ops, lag)
  {
    if ops != [] {
      var before, op := ops[..|ops| - 1], ops[|ops| - 1];
      assert ops == before + [op];
      AlwaysCoherent(cfg, redis, before, lag);
      CoherentStep(cfg, redis, before, op, lag, Run(cfg, redis, before));
    }
  }

  /** The set at `j` is the last of the key, and no delete of the key follows it. */
  predicate IsLastStore(ops: seq<Op>, key: Key, j: int) {
    && 0 <= j < |ops| && ops[j].Store? && ops[j].key == key
    && forall m :: j < m < |ops| ==> !(ops[m].Store? && ops[m].key == key) && !(ops[m].Delete? && ops[m].key == key)
  }

  lemma {:induction false} LastStoreIsLast(ops: seq<Op>, key: Key)
    ensures LastStore(ops, key).Some? ==> IsLastStore(ops, key, LastStore(ops, key).value)
  {
    if ops != [] {
      LastStoreIsLast(ops[..|ops| - 1], key);
    }
  }

  lemma {:induction false} LastStoreIsOnly(ops: seq<Op>, key: Key, j: int)
    requires IsLastStore(ops, key, j)
    ensures LastStore(ops, key) == Some(j)
  {
    var before := ops[..|ops| - 1];
    if j < |before| {
      assert forall m :: 0 <= m < |before| ==> before[m] == ops[m];
      assert !(ops[|before|].Store? && ops[|before|].key == key);
      assert !(ops[|before|].Delete? && ops[|before|].key == key);
      LastStoreIsOnly(before, key, j);
    }
  }

  lemma ServedIsLast(cfg: Config, redis: bool, ops: seq<Op>, op: Op, lag: real)
    requires WellTimed(ops + [op], lag) && AllTaken(cfg, redis, ops) && lag >= 0.0
    requires op.Lookup? && LookupResult(cfg, Run(cfg, redis, ops), op.key, op.raises, op.t1, op.t2).Some?
    ensures LastStore(ops, op.key).Some?
    ensures ValueAt(ops, LastStore(ops, op.key).value)
            == LookupResult(cfg, Run(cfg, redis, ops), op.key, op.raises, op.t1, op.t2)
  {
    assert (ops + [op])[..|ops|] == ops;
    AlwaysCoherent(cfg, redis, ops, lag);
    var s := Run(cfg, redis, ops);
    if L1Answer(s, op.key, op.t1).Some? {
      assert EntryRight(cfg, redis, ops, lag, op.key, s.l1.value);
    } else {
      assert EntryRightL2(cfg, redis, ops, op.key, s.l2.value);
    }
  }

  /** The lifetime of a set that Redis takes: the whole seconds that the caller gives, or those of the configuration. */
  lemma LifeInSeconds(cfg: Config, redis: bool, op: Op)
    requires op.Store? && Taken(cfg, redis, op)
    ensures L2Life(cfg, redis, op) ==
            if !redis || !cfg.enableL2 then 0.0
            else if op.l2Ttl.Some? && op.l2Ttl.value != 0.0 then op.l2Ttl.value.Floor as real
            else cfg.l2Ttl.Floor as real
  {
  }

  /**
    The staleness bound. In every run in which the sets and deletes take effect, whatever else fails, a
    value that a lookup returns is the one stored by the last set of the key, no delete of the key came
    after that set, the set is at most one Redis lifetime and one memory lifetime old (plus the time the
    run's back-fills may take), and an invalidation that cleared the key is at most one memory lifetime old.
   */
  lemma NeverStale(cfg: Config, redis: bool, ops: seq<Op>, op: Op, lag: real)
    requires WellTimed(ops + [op], lag) && AllTaken(cfg, redis, ops) && lag >= 0.0
    requires op.Lookup? && LookupResult(cfg, Run(cfg, redis, ops), op.key, op.raises, op.t1, op.t2).Some?
    ensures exists j :: IsLastStore(ops, op.key, j) && StaleBy(cfg, redis, ops, op, lag, j)
              && ops[j].value == LookupResult(cfg, Run(cfg, redis, ops), op.key, op.raises, op.t1, op.t2)
  {
    assert (ops + [op])[..|ops|] == ops;
    AlwaysCoherent(cfg, redis, ops, lag);
    LastStoreIsLast(ops, op.key);
    ServedIsLast(cfg, redis, ops, op, lag);
    var s := Run(cfg, redis, ops);
    var j := LastStore(ops, op.key).value;
    LifeInSeconds(cfg, redis, ops[j]);
    if L1Answer(s, op.key, op.t1).Some? {
      assert EntryRight(cfg, redis, ops, lag, op.key, s.l1.value);
    } else {
      assert EntryRightL2(cfg, redis, ops, op.key, s.l2.value);
    }
    assert StaleBy(cfg, redis, ops, op, lag, j);
  }

  /** The bounds on the age of what a lookup finds, in the seconds of the caller and of the configuration. */
  predicate StaleBy(cfg: Config, redis: bool, ops: seq<Op>, op: Op, lag: real, j: int)
    requires op.Lookup? && 0 <= j < |ops| && ops[j].Store?
  {
    var last := ops[j];
    var found := if L1Answer(Run(cfg, redis, ops), op.key, op.t1).Some? then op.t1 else op.t2;
    var inMemory := if cfg.l1Ttl > 0.0 then cfg.l1Ttl else 0.0;
    var inRedis := if !redis || !cfg.enableL2 then 0.0
                   else if last.l2Ttl.Some? && last.l2Ttl.value != 0.0 then last.l2Ttl.value.Floor as real
                   else cfg.l2Ttl.Floor as real;
    && found <= last.t2 + inRedis + inMemory + lag
    && forall m :: j < m < |ops| && ops[m].Invalidate? && !ops[m].fault.Refused? && op.key in ops[m].matching ==>
         found <= ops[m].t + inMemory
  }

  // ---- how long a set is served, and when it raises ----

  /**
    A set that Redis takes is found until the whole seconds that the caller gives are over, as far as memory
    does not answer: it is off, or its own lifetime is over.
   */
  lemma LifetimeGiven(cfg: Config, s: Levels, key: Key, v: Json, x: real, fault: RedisFault, t1: real, t2: real,
                      t: real)
    requires s.l2.Some? && cfg.enableL2 && x >= 1.0 && fault != Refused
    requires s.l1.None? || t1 + cfg.l1Ttl < t
    ensures LookupResult(cfg, AfterStore(cfg, s, key, Some(v), Some(x), fault, t1, t2), key, false, t, t)
         == if t < t2 + x.Floor as real then Some(v) else None
    ensures StoreError(cfg, s, Some(x), fault) == if fault == NoFault then None else Some(RedisError)
  {
    if s.l1.Some? {
      SetIsServed(s.l1.value, cfg.l1MaxSize, key, Some(v), t1, cfg.l1Ttl, t);
    }
  }

  /** Without a lifetime, or with zero, the one of the configuration counts. */
  lemma LifetimeDefault(cfg: Config, s: Levels, key: Key, v: Json, ttl: Option<real>, fault: RedisFault,
                        t1: real, t2: real, t: real)
    requires s.l2.Some? && cfg.enableL2 && cfg.l2Ttl >= 1.0 && fault != Refused
    requires ttl == None || ttl == Some(0.0)
    requires s.l1.None? || t1 + cfg.l1Ttl < t
    ensures LookupResult(cfg, AfterStore(cfg, s, key, Some(v), ttl, fault, t1, t2), key, false, t, t)
         == if t < t2 + cfg.l2Ttl.Floor as real then Some(v) else None
    ensures StoreError(cfg, s, ttl, fault) == if fault == NoFault then None else Some(RedisError)
  {
    if s.l1.Some? {
      SetIsServed(s.l1.value, cfg.l1MaxSize, key, Some(v), t1, cfg.l1Ttl, t);
    }
  }

  /** Below one second the set raises, and Redis keeps what it had. */
  lemma LifetimeTooShort(cfg: Config, s: Levels, key: Key, v: Stored, ttl: Option<real>, fault: RedisFault, t1: real,
                         t2: real)
    requires s.l2.Some? && cfg.enableL2
    requires if ttl.Some? && ttl.value != 0.0 then ttl.value < 1.0 else cfg.l2Ttl < 1.0
    ensures StoreError(cfg, s, ttl, fault) == Some(InvalidExpireTime)
    ensures AfterStore(cfg, s, key, v, ttl, fault, t1, t2).l2 == s.l2
  {
  }

  /** While its memory lifetime lasts a set is served from there, whatever Redis does. */
  lemma MemoryServes(cfg: Config, s: Levels, key: Key, v: Json, ttl: Option<real>, fault: RedisFault, t1: real,
                     t2: real, raises: bool, t: real)
    requires s.l1.Some? && t <= t1 + cfg.l1Ttl
    ensures LookupResult(cfg, AfterStore(cfg, s, key, Some(v), ttl, fault, t1, t2), key, raises, t, t) == Some(v)
    ensures !LookupRaises(cfg, AfterStore(cfg, s, key, Some(v), ttl, fault, t1, t2), key, raises, t)
    ensures s.l2.None? || !cfg.enableL2 ==> StoreError(cfg, s, ttl, fault) == None
  {
    SetIsServed(s.l1.value, cfg.l1MaxSize, key, Some(v), t1, cfg.l1Ttl, t);
  }

  /** A failing Redis raises exactly where it is asked: it is in use, and memory holds no live value. */
  lemma RaisesExactly(cfg: Config, s: Levels, key: Key, raises: bool, t: real)
    requires s.l1.Some? ==> s.l1.value.ttl.Keys == s.l1.value.cache.Keys
    ensures LookupRaises(cfg, s, key, raises, t) <==>
            && raises && s.l2.Some? && cfg.enableL2
            && !(s.l1.Some? && key in s.l1.value.cache && t <= s.l1.value.ttl[key] && s.l1.value.cache[key].Some?)
  {
  }

  /** After a delete that Redis takes nothing is found, at any time. */
  lemma DeletedIsNotFound(cfg: Config, s: Levels, key: Key, fault: RedisFault, t1: real, t2: real)
    requires fault != Refused
    ensures LookupResult(cfg, AfterDelete(s, key, fault), key, false, t1, t2) == None
  {
  }

  /** A lookup that Redis answers copies the value into memory, where it lives one memory lifetime from then on. */
  lemma BackfillLives(cfg: Config, s: Levels, key: Key, t1: real, t2: real, t3: real, t: real)
    requires s.l1.Some? && L1Answer(s, key, t1).None? && t3 <= t
    requires UsesL2(cfg, s) && key in s.l2.value && t2 < s.l2.value[key].expiry && s.l2.value[key].value.Some?
    ensures LookupResult(cfg, s, key, false, t1, t2) == s.l2.value[key].value
    ensures L1Answer(AfterLookup(cfg, s, key, false, t1, t2, t3), key, t)
         == if t <= t3 + cfg.l1Ttl then s.l2.value[key].value else None
  {
    SetIsServed(AfterGet(s.l1.value, key, t1), cfg.l1MaxSize, key, s.l2.value[key].value, t3, cfg.l1Ttl, t);
  }

  lemma RunTwo(cfg: Config, redis: bool, a: Op, b: Op)
    ensures Run(cfg, redis, [a, b]) == Step(cfg, Step(cfg, Start(cfg, redis), a), b)
  {
    assert [a, b][..1] == [a];
    assert Run(cfg, redis, [a]) == Step(cfg, Run(cfg, redis, []), a) by {
      assert [a][..0] == [];
    }
  }

  lemma WellTimedThree(a: Op, b: Op, c: Op, lag: real)
    requires Lasts(a, lag) && Lasts(b, lag) && Lasts(c, lag)
    requires a.End() <= b.Begin() && b.End() <= c.Begin()
    ensures WellTimed([a, b] + [c], lag)
  {
    assert [a, b] + [c] == [a, b, c];
    assert [a, b, c][..2] == [a, b] && [a, b][..1] == [a] && [a][..0] == [];
    assert [b][..0] == [] && [c][..0] == [];
    assert WellTimed([a, b], lag);
  }

  lemma OneEntry(maxSize: int, key: Key, v: Stored, now: real, ttl: real, late: real)
    requires ttl < late
    ensures AfterSet(EMPTY, maxSize, key, v, now, ttl) == L1State(map[key := v], map[key := now + ttl], [key])
    ensures AfterGet(L1State(map[key := v], map[key := ttl], [key]), key, late) == EMPTY
  {
    assert MakeRoom(EMPTY, maxSize, key) == EMPTY;
    assert RemoveFirst([], key) == [];
    assert RemoveFirst([key], key) == [];
  }

  function TightRun(cfg: Config, key: Key, v: Json, refill: real): seq<Op> {
    [Store(key, Some(v), None, NoFault, 0.0, 0.0), Lookup(key, false, refill, refill, refill)]
  }

  lemma TightRunIsLegal(cfg: Config, key: Key, v: Json, refill: real, read: real)
    requires L2Seconds(cfg, None) >= 1 && 0.0 <= refill <= read
    ensures WellTimed(TightRun(cfg, key, v, refill) + [Lookup(key, false, read, read, read)], 0.0)
    ensures AllTaken(cfg, true, TightRun(cfg, key, v, refill))
  {
    WellTimedThree(Store(key, Some(v), None, NoFault, 0.0, 0.0), Lookup(key, false, refill, refill, refill),
                   Lookup(key, false, read, read, read), 0.0);
  }

  /**
    The bound of `NeverStale` is met: in this legal run a value stored at time 0 and back-filled at any
    moment `refill` before it leaves Redis is still served one memory lifetime after that.
   */
  lemma BoundIsTight(cfg: Config, key: Key, v: Json, refill: real, read: real)
    requires cfg.enableL1 && cfg.enableL2 && L2Seconds(cfg, None) >= 1
    requires 0.0 <= cfg.l1Ttl < refill < L2Seconds(cfg, None) as real && read == refill + cfg.l1Ttl
    ensures LookupResult(cfg, Run(cfg, true, TightRun(cfg, key, v, refill)), key, false, read, read) == Some(v)
  {
    RunTwo(cfg, true, Store(key, Some(v), None, NoFault, 0.0, 0.0), Lookup(key, false, refill, refill, refill));
    FirstStored(cfg, key, v);
    Refilled(cfg, key, v, refill);
  }

  function OnlyEntry(key: Key, v: Json, expiry: real): L1State {
    L1State(map[key := Some(v)], map[key := expiry], [key])
  }

  lemma FirstStored(cfg: Config, key: Key, v: Json)
    requires cfg.enableL1 && cfg.enableL2 && L2Seconds(cfg, None) >= 1
    ensures Step(cfg, Start(cfg, true), Store(key, Some(v), None, NoFault, 0.0, 0.0)) ==
            Levels(Some(OnlyEntry(key, v, cfg.l1Ttl)), Some(map[key := Entry(Some(v), L2Seconds(cfg, None) as real)]))
  {
    OneEntry(cfg.l1MaxSize, key, Some(v), 0.0, cfg.l1Ttl, cfg.l1Ttl + 1.0);
  }

  lemma Refilled(cfg: Config, key: Key, v: Json, t: real)
    requires cfg.enableL2 && cfg.l1Ttl < t < L2Seconds(cfg, None) as real
    ensures var l2 := Some(map[key := Entry(Some(v), L2Seconds(cfg, None) as real)]);
            Step(cfg, Levels(Some(OnlyEntry(key, v, cfg.l1Ttl)), l2), Lookup(key, false, t, t, t)) ==
            Levels(Some(OnlyEntry(key, v, t + cfg.l1Ttl)), l2)
  {
    OneEntry(cfg.l1MaxSize, key, Some(v), t, cfg.l1Ttl, t);
  }

  lemma UntouchedEntry(cfg: Config, s: Levels, key: Key, v: Stored, expiry: real, t: real)
    requires UsesL2(cfg, s) && key in s.l2.value && s.l2.value[key] == Entry(v, expiry) && t < expiry
    requires L1Answer(s, key, t).None?
    ensures LookupResult(cfg, s, key, false, t, t) == v
  {
  }

  /**
    A set that Redis does not take, for its lifetime or for an error, breaks the rule that lookups answer
    with the last value set: the earlier value comes back once the memory level has forgotten the new one.
   */
  lemma RefusedSetResurrects(cfg: Config, key: Key, v1: Json, v2: Json, good: Option<real>, bad: Option<real>,
                             fault: RedisFault, t: real)
    requires cfg.enableL2 && !StoreTaken(cfg, Start(cfg, true), bad, fault)
    requires L1Life(cfg) < t < L2Seconds(cfg, good) as real
    ensures var ops := [Store(key, Some(v1), good, NoFault, 0.0, 0.0), Store(key, Some(v2), bad, fault, 0.0, 0.0)];
            && WellTimed(ops + [Lookup(key, false, t, t, t)], 0.0)
            && LastStore(ops, key) == Some(1)
            && LookupResult(cfg, Run(cfg, true, ops), key, false, t, t) == Some(v1)
  {
    var a, b := Store(key, Some(v1), good, NoFault, 0.0, 0.0), Store(key, Some(v2), bad, fault, 0.0, 0.0);
    WellTimedThree(a, b, Lookup(key, false, t, t, t), 0.0);
    RunTwo(cfg, true, a, b);
    var s1 := Step(cfg, Start(cfg, true), a);
    var s2 := Step(cfg, s1, b);
    assert s2.l2 == s1.l2;
    UntouchedEntry(cfg, s2, key, Some(v1), L2Seconds(cfg, good) as real, t);
  }

  /** A delete that Redis does not take removes the memory entry and then fails: the deleted value is served again. */
  lemma FailedDeleteResurrects(cfg: Config, key: Key, v: Json, good: Option<real>, t: real)
    requires cfg.enableL2 && 0.0 <= t < L2Seconds(cfg, good) as real
    ensures var ops := [Store(key, Some(v), good, NoFault, 0.0, 0.0), Delete(key, Refused, 0.0)];
            && WellTimed(ops + [Lookup(key, false, t, t, t)], 0.0)
            && LastStore(ops, key) == None
            && LookupResult(cfg, Run(cfg, true, ops), key, false, t, t) == Some(v)
  {
    var a, b := Store(key, Some(v), good, NoFault, 0.0, 0.0), Delete(key, Refused, 0.0);
    WellTimedThree(a, b, Lookup(key, false, t, t, t), 0.0);
    RunTwo(cfg, true, a, b);
    var s2 := Step(cfg, Step(cfg, Start(cfg, true), a), b);
    UntouchedEntry(cfg, s2, key, Some(v), L2Seconds(cfg, good) as real, t);
  }

  // ---- exactly which operations keep lookups right ----

  /** The sets, by lifetime and fault, and the faults of deletes that occur in a deployment. */
  datatype Use = Use(sets: (Option<real>, RedisFault) -> bool, deletes: RedisFault -> bool)

  predicate Occurs(use: Use, op: Op) {
    match op
    case Store(_, _, ttl, fault, _, _) => use.sets(ttl, fault)
    case Delete(_, fault, _) => use.deletes(fault)
    case _ => true
  }

  /** In every run of these operations a lookup that finds a value finds that of the last set, with no delete since. */
  ghost predicate ServesLast(cfg: Config, use: Use) {
    forall ops, op, lag :: ServesIn(cfg, use, ops, op, lag)
  }

  predicate ServesIn(cfg: Config, use: Use, ops: seq<Op>, op: Op, lag: real) {
    WellTimed(ops + [op], lag) && lag >= 0.0 && op.Lookup? && (forall i :: 0 <= i < |ops| ==> Occurs(use, ops[i])) ==>
      var found := LookupResult(cfg, Run(cfg, true, ops), op.key, op.raises, op.t1, op.t2);
      found.Some? ==> exists j :: 0 <= j < |ops| && IsLastStore(ops, op.key, j) && ops[j].value == found
  }

  function ValueAt(ops: seq<Op>, j: nat): Stored {
    if j < |ops| && ops[j].Store? then ops[j].value else None
  }

  predicate SetsTaken(cfg: Config, use: Use, ttl: Option<real>, fault: RedisFault) {
    use.sets(ttl, fault) ==> Accepted(cfg, ttl) && !fault.Refused?
  }

  /**
    With Redis in use and some set that outlives the memory level there, lookups are right in every run
    exactly when every set and every delete that occurs takes effect.
   */
  lemma ServesLastExactly(cfg: Config, use: Use, good: Option<real>)
    requires cfg.enableL2 && use.sets(good, NoFault) && L1Life(cfg) < L2Seconds(cfg, good) as real
    ensures ServesLast(cfg, use) <==> (forall ttl, fault :: SetsTaken(cfg, use, ttl, fault)) && !use.deletes(Refused)
  {
    if (forall ttl, fault :: SetsTaken(cfg, use, ttl, fault)) && !use.deletes(Refused) {
      forall ops, op, lag ensures ServesIn(cfg, use, ops, op, lag) {
        TakenServes(cfg, use, ops, op, lag);
      }
    } else {
      UntakenMisleads(cfg, use, good);
    }
  }

  lemma TakenServes(cfg: Config, use: Use, ops: seq<Op>, op: Op, lag: real)
    requires (forall ttl, fault :: SetsTaken(cfg, use, ttl, fault)) && !use.deletes(Refused)
    ensures ServesIn(cfg, use, ops, op, lag)
  {
    if WellTimed(ops + [op], lag) && lag >= 0.0 && op.Lookup? && (forall i :: 0 <= i < |ops| ==> Occurs(use, ops[i]))
       && LookupResult(cfg, Run(cfg, true, ops), op.key, op.raises, op.t1, op.t2).Some?
    {
      forall i | 0 <= i < |ops| ensures Taken(cfg, true, ops[i]) {
        if ops[i].Store? {
          assert SetsTaken(cfg, use, ops[i].l2Ttl, ops[i].fault);
        }
      }
      ServedIsLast(cfg, true, ops, op, lag);
      LastStoreIsLast(ops, op.key);
      assert IsLastStore(ops, op.key, LastStore(ops, op.key).value);
    }
  }

  lemma UntakenMisleads(cfg: Config, use: Use, good: Option<real>)
    requires cfg.enableL2 && use.sets(good, NoFault) && L1Life(cfg) < L2Seconds(cfg, good) as real
    requires use.deletes(Refused) || exists ttl, fault :: !SetsTaken(cfg, use, ttl, fault)
    ensures !ServesLast(cfg, use)
  {
    var t := (L1Life(cfg) + L2Seconds(cfg, good) as real) / 2.0;
    if use.deletes(Refused) {
      DeleteMisleads(cfg, use, good, t);
    } else {
      var ttl, fault :| !SetsTaken(cfg, use, ttl, fault);
      SetMisleads(cfg, use, good, ttl, fault, t);
    }
  }

  lemma DeleteMisleads(cfg: Config, use: Use, good: Option<real>, t: real)
    requires cfg.enableL2 && use.sets(good, NoFault) && use.deletes(Refused)
    requires 0.0 <= t < L2Seconds(cfg, good) as real
    ensures !ServesLast(cfg, use)
  {
    FailedDeleteResurrects(cfg, "key", "1", good, t);
    var ops := [Store("key", Some("1"), good, NoFault, 0.0, 0.0), Delete("key", Refused, 0.0)];
    assert Occurs(use, ops[0]) && Occurs(use, ops[1]);
    forall j | IsLastStore(ops, "key", j) ensures false {
      LastStoreIsOnly(ops, "key", j);
    }
    assert !ServesIn(cfg, use, ops, Lookup("key", false, t, t, t), 0.0);
  }

  lemma SetMisleads(cfg: Config, use: Use, good: Option<real>, ttl: Option<real>, fault: RedisFault, t: real)
    requires cfg.enableL2 && use.sets(good, NoFault) && !SetsTaken(cfg, use, ttl, fault)
    requires L1Life(cfg) < t < L2Seconds(cfg, good) as real
    ensures !ServesLast(cfg, use)
  {
    RefusedSetResurrects(cfg, "key", "1", "2", good, ttl, fault, t);
    var ops := [Store("key", Some("1"), good, NoFault, 0.0, 0.0), Store("key", Some("2"), ttl, fault, 0.0, 0.0)];
    assert Occurs(use, ops[0]) && Occurs(use, ops[1]);
    forall j | IsLastStore(ops, "key", j) ensures ops[j].value == Some("2") {
      LastStoreIsOnly(ops, "key", j);
    }
    assert !ServesIn(cfg, use, ops, Lookup("key", false, t, t, t), 0.0);
  }
}
