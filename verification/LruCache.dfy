/**
  The in-process cache level: a least-recently-used cache whose entries expire.
  Three structures (values, expiry times, access order) are kept in step in place.
 */
module LruCache {
  import opened Outcomes

  type Key = string
  type Json = string

  /** A cached value; `None` is Python's `None`, which a caller may store. */
  type Stored = Option<Json>

  datatype L1State = L1State(cache: map<Key, Stored>, ttl: map<Key, real>, order: seq<Key>)

  const EMPTY := L1State(map[], map[], [])

  /** No key occurs twice. */
  ghost predicate Unique(s: seq<Key>) {
    s == [] || (s[|s| - 1] !in s[..|s| - 1] && Unique(s[..|s| - 1]))
  }

  ghost predicate InStep(s: L1State) {
    && Unique(s.order)
    && (forall k :: k in s.order <==> k in s.cache)
    && s.ttl.Keys == s.cache.Keys
  }

  /** The bound on the number of entries: a size below one acts like one. */
  function Capacity(maxSize: int): (c: nat)
    ensures c >= 1 && (maxSize >= 1 ==> c == maxSize)
  {
    if maxSize >= 1 then maxSize else 1
  }

  // ---- what each operation does to the three structures ----

  /** Python's `list.remove`, doing nothing when the key is absent. */
  function RemoveFirst(s: seq<Key>, k: Key): seq<Key> {
    if s == [] then [] else if s[0] == k then s[1..] else [s[0]] + RemoveFirst(s[1..], k)
  }

  function Touch(s: seq<Key>, k: Key): seq<Key> {
    RemoveFirst(s, k) + [k]
  }

  function Removed(s: L1State, k: Key): L1State {
    L1State(s.cache - {k}, s.ttl - {k}, RemoveFirst(s.order, k))
  }

  function Evicted(s: L1State): L1State {
    if s.order == [] then s
    else Removed(s.(order := s.order[1..]), s.order[0])
  }

  predicate Expired(s: L1State, k: Key, now: real) {
    now > if k in s.ttl then s.ttl[k] else 0.0
  }

  predicate Hit(s: L1State, k: Key, now: real) {
    k in s.cache && !Expired(s, k, now)
  }

  function AfterGet(s: L1State, k: Key, now: real): L1State {
    if k !in s.cache then s
    else if Expired(s, k, now) then Removed(s, k)
    else s.(order := Touch(s.order, k))
  }

  function GetResult(s: L1State, k: Key, now: real): Stored {
    if Hit(s, k, now) then s.cache[k] else None
  }

  function MakeRoom(s: L1State, maxSize: int, k: Key): L1State {
    if |s.cache| >= maxSize && k !in s.cache then Evicted(s) else s
  }

  function AfterSet(s: L1State, maxSize: int, k: Key, v: Stored, now: real, ttl: real): L1State {
    var room := MakeRoom(s, maxSize, k);
    L1State(room.cache[k := v], room.ttl[k := now + ttl], Touch(room.order, k))
  }

  /**
    The cache object, with its three structures updated in place. `AlwaysInStep` says what every run of
    its methods keeps.
   */
  class L1MemoryCache {
    const maxSize: int
    var cache: map<Key, Stored>
    var ttl: map<Key, real>
    var accessOrder: seq<Key>

    function Model(): L1State
      reads this
    {
      L1State(cache, ttl, accessOrder)
    }

    constructor (maxSize: int)
      ensures this.maxSize == maxSize && Model() == EMPTY
    {
      this.maxSize := maxSize;
      cache, ttl, accessOrder := map[], map[], [];
    }

    method Get(key: Key, now: real) returns (value: Stored)
      modifies this
      ensures Model() == AfterGet(old(Model()), key, now)
      ensures value == GetResult(old(Model()), key, now)
    {
      value := None;
      if key in cache {
        if now > (if key in ttl then ttl[key] else 0.0) {
          Remove(key);
        } else {
          RemoveAbsent(accessOrder, key);
          if key in accessOrder {
            accessOrder := RemoveFirst(accessOrder, key);
          }
          accessOrder := accessOrder + [key];
          value := cache[key];
        }
      }
    }

    method Set(key: Key, value: Stored, now: real, ttlSeconds: real)
      modifies this
      ensures Model() == AfterSet(old(Model()), maxSize, key, value, now, ttlSeconds)
    {
      if |cache| >= maxSize && key !in cache {
        EvictOldest();
      }
      cache := cache[key := value];
      ttl := ttl[key := now + ttlSeconds];
      RemoveAbsent(accessOrder, key);
      if key in accessOrder {
        accessOrder := RemoveFirst(accessOrder, key);
      }
      accessOrder := accessOrder + [key];
    }

    method Delete(key: Key)
      modifies this
      ensures Model() == Removed(old(Model()), key)
    {
      Remove(key);
    }

    method Clear()
      modifies this
      ensures Model() == EMPTY
    {
      cache, ttl, accessOrder := map[], map[], [];
    }

    method Remove(key: Key)
      modifies this
      ensures Model() == Removed(old(Model()), key)
    {
      cache := cache - {key};
      ttl := ttl - {key};
      RemoveAbsent(accessOrder, key);
      if key in accessOrder {
        accessOrder := RemoveFirst(accessOrder, key);
      }
    }

    method EvictOldest()
      modifies this
      ensures Model() == Evicted(old(Model()))
    {
      if accessOrder != [] {
        var oldest := accessOrder[0];
        accessOrder := accessOrder[1..];
        Remove(oldest);
      }
    }
  }

  // ---- what is served ----

  /** A value is served from its set until its lifetime is over, the last moment included. */
  lemma SetIsServed(s: L1State, maxSize: int, k: Key, v: Stored, now: real, ttl: real, t: real)
    ensures GetResult(AfterSet(s, maxSize, k, v, now, ttl), k, t) == if t <= now + ttl then v else None
  {
  }

  /** A set leaves what is served of every other key that it does not evict. */
  lemma OthersAreServed(s: L1State, maxSize: int, k: Key, v: Stored, now: real, ttl: real, other: Key, t: real)
    requires other != k && other in AfterSet(s, maxSize, k, v, now, ttl).cache && s.ttl.Keys == s.cache.Keys
    ensures GetResult(AfterSet(s, maxSize, k, v, now, ttl), other, t) == GetResult(s, other, t)
  {
  }

  /** A set drops nothing unless the key is new and the cache full, and then the oldest key of the order alone. */
  lemma SetDrops(s: L1State, maxSize: int, k: Key, v: Stored, now: real, ttl: real, other: Key)
    requires other != k && other in s.cache
    ensures other !in AfterSet(s, maxSize, k, v, now, ttl).cache <==>
            k !in s.cache && |s.cache| >= maxSize && s.order != [] && other == s.order[0]
  {
  }

  /** A deleted key is not served, and nothing else changes. */
  lemma DeletedIsGone(s: L1State, k: Key, other: Key, t: real)
    ensures GetResult(Removed(s, k), k, t) == None
    ensures other != k ==> GetResult(Removed(s, k), other, t) == GetResult(s, other, t)
  {
  }

  /** A get forgets the entry that it finds expired, and otherwise changes no entry. */
  lemma GetForgetsExpired(s: L1State, k: Key, t: real, other: Key)
    requires k in s.cache && k in s.ttl
    ensures k in AfterGet(s, k, t).cache <==> t <= s.ttl[k]
    ensures GetResult(s, k, t) == if t <= s.ttl[k] then s.cache[k] else None
    ensures other != k ==> (other in AfterGet(s, k, t).cache <==> other in s.cache)
  {
  }

  // ---- histories ----

  datatype L1Op =
    | OpGet(key: Key, now: real)
    | OpSet(key: Key, value: Stored, now: real, ttl: real)
    | OpDelete(key: Key)
    | OpClear

  function Apply(s: L1State, maxSize: int, op: L1Op): L1State {
    match op
    case OpGet(k, now) => AfterGet(s, k, now)
    case OpSet(k, v, now, ttl) => AfterSet(s, maxSize, k, v, now, ttl)
    case OpDelete(k) => Removed(s, k)
    case OpClear => EMPTY
  }

  function Run(maxSize: int, ops: seq<L1Op>): L1State {
    if ops == [] then EMPTY else Apply(Run(maxSize, ops[..|ops| - 1]), maxSize, ops[|ops| - 1])
  }

  predicate IsTouch(s: L1State, op: L1Op) {
    op.OpSet? || (op.OpGet? && Hit(s, op.key, op.now))
  }

  /** The keys touched by a set or a hit, oldest first, with repetitions. */
  function Touches(maxSize: int, ops: seq<L1Op>): seq<Key> {
    if ops == [] then []
    else
      var before, op := ops[..|ops| - 1], ops[|ops| - 1];
      var h := Touches(maxSize, before);
      if IsTouch(Run(maxSize, before), op) then h + [op.key] else h
  }

  /** A set, or a get that does not find its entry expired. */
  predicate TouchesOnly(s: L1State, op: L1Op) {
    op.OpSet? || (op.OpGet? && (op.key in s.cache ==> Hit(s, op.key, op.now)))
  }

  /** No operation of the history deletes an entry or finds one expired. */
  predicate OnlyTouches(maxSize: int, ops: seq<L1Op>) {
    ops == [] ||
    var before := ops[..|ops| - 1];
    OnlyTouches(maxSize, before) && TouchesOnly(Run(maxSize, before), ops[|ops| - 1])
  }

  /** The distinct keys touched since the last touch of `k`. */
  function TouchedAfter(h: seq<Key>, k: Key): set<Key> {
    if h == [] || h[|h| - 1] == k then {}
    else TouchedAfter(h[..|h| - 1], k) + {h[|h| - 1]}
  }

  /** `k` is among the last `n` distinct keys of `h`: fewer than `n` others were touched after it. */
  predicate AmongLast(h: seq<Key>, n: nat, k: Key) {
    k in h && |TouchedAfter(h, k)| < n
  }

  // ---- lists read from the end ----

  lemma Snoc(s: seq<Key>, x: Key)
    ensures (s + [x])[..|s|] == s
    ensures Unique(s + [x]) <==> x !in s && Unique(s)
    ensures forall k :: TouchedAfter(s + [x], k) == if x == k then {} else TouchedAfter(s, k) + {x}
  {
    assert (s + [x])[..|s|] == s;
  }

  lemma {:induction false} RemoveSnoc(s: seq<Key>, x: Key, k: Key)
    ensures RemoveFirst(s + [x], k) ==
            if k in s then RemoveFirst(s, k) + [x] else if x == k then s else s + [x]
  {
    if s == [] {
      assert [x][1..] == [];
      assert RemoveFirst([x][1..], k) == [];
    } else {
      assert (s + [x])[1..] == s[1..] + [x];
      if s[0] != k {
        RemoveSnoc(s[1..], x, k);
        assert s == [s[0]] + s[1..];
      }
    }
  }

  lemma {:induction false} RemoveMembers(s: seq<Key>, k: Key, x: Key)
    requires Unique(s)
    ensures x in RemoveFirst(s, k) <==> x in s && x != k
  {
    if s != [] {
      var before, last := s[..|s| - 1], s[|s| - 1];
      assert s == before + [last];
      RemoveMembers(before, k, x);
      RemoveSnoc(before, last, k);
    }
  }

  lemma RemoveLast(before: seq<Key>, k: Key)
    requires k !in before
    ensures RemoveFirst(before + [k], k) == before && RemoveFirst(before, k) == before
  {
    RemoveSnoc(before, k, k);
    RemoveAbsent(before, k);
  }

  lemma RemoveEarlier(before: seq<Key>, last: Key, k: Key)
    requires k != last
    ensures RemoveFirst(before + [last], k) == RemoveFirst(before, k) + [last]
  {
    RemoveSnoc(before, last, k);
    RemoveAbsent(before, k);
  }

  lemma {:induction false} RemoveTouches(s: seq<Key>, k: Key, x: Key)
    requires Unique(s) && x != k
    ensures TouchedAfter(RemoveFirst(s, k), x) == TouchedAfter(s, x) - {k}
  {
    if s != [] {
      var before, last := s[..|s| - 1], s[|s| - 1];
      assert s == before + [last];
      RemoveTouches(before, k, x);
      SnocOne(before, last, x);
      if last == k {
        RemoveLast(before, k);
      } else {
        RemoveEarlier(before, last, k);
        SnocOne(RemoveFirst(before, k), last, x);
      }
    }
  }

  lemma SnocOne(s: seq<Key>, x: Key, k: Key)
    ensures TouchedAfter(s + [x], k) == if x == k then {} else TouchedAfter(s, k) + {x}
  {
    assert (s + [x])[..|s|] == s;
  }

  lemma RemoveKeepsOne(s: seq<Key>, k: Key, x: Key)
    requires Unique(s)
    ensures x in RemoveFirst(s, k) <==> x in s && x != k
    ensures x != k ==> TouchedAfter(RemoveFirst(s, k), x) == TouchedAfter(s, x) - {k}
  {
    RemoveMembers(s, k, x);
    if x != k {
      RemoveTouches(s, k, x);
    }
  }

  lemma {:induction false} RemoveUnique(s: seq<Key>, k: Key)
    requires Unique(s)
    ensures Unique(RemoveFirst(s, k))
  {
    if s != [] {
      var before, last := s[..|s| - 1], s[|s| - 1];
      assert s == before + [last];
      RemoveUnique(before, k);
      RemoveSnoc(before, last, k);
      RemoveKeepsOne(before, k, last);
      Snoc(RemoveFirst(before, k), last);
    }
  }

  lemma RemoveKeeps(s: seq<Key>, k: Key)
    requires Unique(s)
    ensures Unique(RemoveFirst(s, k))
    ensures forall x :: x in RemoveFirst(s, k) <==> x in s && x != k
    ensures forall x :: x != k ==> TouchedAfter(RemoveFirst(s, k), x) == TouchedAfter(s, x) - {k}
  {
    RemoveUnique(s, k);
    forall x: Key {
      RemoveKeepsOne(s, k, x);
    }
  }

  lemma {:induction false} RemoveAbsent(s: seq<Key>, k: Key)
    ensures k !in s ==> RemoveFirst(s, k) == s
  {
    if s != [] && k !in s {
      RemoveAbsent(s[1..], k);
      assert s == [s[0]] + s[1..];
    }
  }

  /** What the oldest key of a list says about the rest. */
  lemma {:induction false} PopOldest(s: seq<Key>)
    requires Unique(s) && s != []
    ensures Unique(s[1..]) && s[0] !in s[1..]
    ensures forall k :: k in s[1..] ==> TouchedAfter(s[1..], k) == TouchedAfter(s, k)
    ensures forall k :: k in s[1..] <==> k in TouchedAfter(s, s[0])
  {
    var before, last := s[..|s| - 1], s[|s| - 1];
    assert s == before + [last];
    Snoc(before, last);
    if before == [] {
      assert s[1..] == [];
    } else {
      PopOldest(before);
      assert before == [s[0]] + before[1..];
      assert s[1..] == before[1..] + [last];
      Snoc(before[1..], last);
    }
  }

  lemma {:induction false} KeyCount(s: seq<Key>, keys: set<Key>)
    requires Unique(s) && forall k :: k in s <==> k in keys
    ensures |s| == |keys|
  {
    if s == [] {
      assert keys == {};
    } else {
      var before, last := s[..|s| - 1], s[|s| - 1];
      assert s == before + [last];
      KeyCount(before, keys - {last});
    }
  }

  lemma {:induction false} FewerAfter(s: seq<Key>, k: Key)
    requires k in s
    ensures |TouchedAfter(s, k)| < |s|
  {
    var before, last := s[..|s| - 1], s[|s| - 1];
    assert s == before + [last];
    if last != k {
      FewerAfter(before, k);
    }
  }

  // ---- the invariants ----

  lemma TouchInStep(s: L1State, k: Key, v: Stored, expiry: real)
    requires InStep(s)
    ensures InStep(L1State(s.cache[k := v], s.ttl[k := expiry], Touch(s.order, k)))
  {
    RemoveKeeps(s.order, k);
    Snoc(RemoveFirst(s.order, k), k);
  }

  lemma RemovedFits(s: L1State, maxSize: int, k: Key)
    requires InStep(s) && |s.cache| <= Capacity(maxSize)
    ensures InStep(Removed(s, k)) && |Removed(s, k).cache| <= Capacity(maxSize)
  {
    RemoveKeeps(s.order, k);
    assert Removed(s, k).cache.Keys == s.cache.Keys - {k};
    assert |s.cache.Keys - {k}| <= |s.cache.Keys|;
  }

  lemma EvictedInStep(s: L1State)
    requires InStep(s) && s.order != []
    ensures InStep(Evicted(s)) && Evicted(s).order == s.order[1..]
    ensures Evicted(s).cache == s.cache - {s.order[0]}
  {
    PopOldest(s.order);
    RemoveAbsent(s.order[1..], s.order[0]);
    assert s.order == [s.order[0]] + s.order[1..];
  }

  lemma FullRoomFits(s: L1State, k: Key)
    requires InStep(s) && k !in s.cache && s.order != []
    ensures InStep(Evicted(s)) && |Evicted(s).cache.Keys + {k}| == |s.cache|
  {
    EvictedInStep(s);
    assert |s.cache.Keys - {s.order[0]}| == |s.cache| - 1;
    assert Evicted(s).cache.Keys == s.cache.Keys - {s.order[0]};
  }

  lemma MakeRoomFits(s: L1State, maxSize: int, k: Key)
    requires InStep(s) && |s.cache| <= Capacity(maxSize)
    ensures InStep(MakeRoom(s, maxSize, k))
    ensures |MakeRoom(s, maxSize, k).cache.Keys + {k}| <= Capacity(maxSize)
  {
    if k in s.cache {
      assert s.cache.Keys + {k} == s.cache.Keys;
    } else if s.order != [] {
      FullRoomFits(s, k);
      assert |s.cache.Keys + {k}| == |s.cache| + 1;
    } else {
      assert s.cache.Keys == {};
    }
  }

  lemma InsertFits(room: L1State, maxSize: int, k: Key, v: Stored, expiry: real)
    requires InStep(room) && |room.cache.Keys + {k}| <= Capacity(maxSize)
    ensures InStep(L1State(room.cache[k := v], room.ttl[k := expiry], Touch(room.order, k)))
    ensures |room.cache[k := v]| <= Capacity(maxSize)
  {
    TouchInStep(room, k, v, expiry);
    assert room.cache[k := v].Keys == room.cache.Keys + {k};
  }

  lemma GetFits(s: L1State, maxSize: int, k: Key, now: real)
    requires InStep(s) && |s.cache| <= Capacity(maxSize)
    ensures InStep(AfterGet(s, k, now)) && |AfterGet(s, k, now).cache| <= Capacity(maxSize)
  {
    if k in s.cache {
      RemovedFits(s, maxSize, k);
      HitInStep(s, k);
    }
  }

  lemma HitInStep(s: L1State, k: Key)
    requires InStep(s) && k in s.cache
    ensures InStep(s.(order := Touch(s.order, k)))
  {
    TouchInStep(s, k, s.cache[k], s.ttl[k]);
    assert s.cache[k := s.cache[k]] == s.cache && s.ttl[k := s.ttl[k]] == s.ttl;
  }

  lemma SetFits(s: L1State, maxSize: int, k: Key, v: Stored, now: real, ttl: real)
    requires InStep(s) && |s.cache| <= Capacity(maxSize)
    ensures InStep(AfterSet(s, maxSize, k, v, now, ttl))
    ensures |AfterSet(s, maxSize, k, v, now, ttl).cache| <= Capacity(maxSize)
  {
    MakeRoomFits(s, maxSize, k);
    InsertFits(MakeRoom(s, maxSize, k), maxSize, k, v, now + ttl);
  }

  /** One operation keeps the three structures in step and within the bound. */
  lemma StepKeepsInStep(s: L1State, maxSize: int, op: L1Op)
    requires InStep(s) && |s.cache| <= Capacity(maxSize)
    ensures InStep(Apply(s, maxSize, op)) && |Apply(s, maxSize, op).cache| <= Capacity(maxSize)
  {
    match op {
      case OpGet(k, now) => GetFits(s, maxSize, k, now);
      case OpSet(k, v, now, ttl) => SetFits(s, maxSize, k, v, now, ttl);
      case OpDelete(k) => RemovedFits(s, maxSize, k);
      case OpClear =>
    }
  }

  /** In every history the three structures hold the same keys, once each, and at most the bound. */
  lemma {:induction false} AlwaysInStep(maxSize: int, ops: seq<L1Op>)
    ensures InStep(Run(maxSize, ops))
    ensures |Run(maxSize, ops).cache| == |Run(maxSize, ops).order| <= Capacity(maxSize)
  {
    if ops != [] {
      AlwaysInStep(maxSize, ops[..|ops| - 1]);
      StepKeepsInStep(Run(maxSize, ops[..|ops| - 1]), maxSize, ops[|ops| - 1]);
    }
    KeyCount(Run(maxSize, ops).order, Run(maxSize, ops).cache.Keys);
  }

  // ---- exact least-recently-used contents ----

  /** The access order against the history of touches. */
  ghost predicate Tracks(order: seq<Key>, h: seq<Key>, cap: nat) {
    && (forall k :: k in order ==> k in h && TouchedAfter(h, k) == TouchedAfter(order, k))
    && (forall k :: k in h && k !in order ==>
          |order| == cap && (forall x :: x in order ==> x in TouchedAfter(h, k)))
  }

  lemma TouchOne(order: seq<Key>, h: seq<Key>, k: Key, x: Key)
    requires Unique(order) && k in order
    ensures x in Touch(order, k) <==> x in order
    ensures x in order && x in h && TouchedAfter(h, x) == TouchedAfter(order, x) ==>
              x in h + [k] && TouchedAfter(h + [k], x) == TouchedAfter(Touch(order, k), x)
  {
    RemoveKeepsOne(order, k, x);
    Snoc(RemoveFirst(order, k), k);
    Snoc(h, k);
  }

  lemma TouchOther(order: seq<Key>, h: seq<Key>, cap: nat, k: Key, x: Key)
    requires Unique(order) && k in order && Tracks(order, h, cap) && x in h + [k] && x !in Touch(order, k)
    ensures |Touch(order, k)| == cap && forall y :: y in Touch(order, k) ==> y in TouchedAfter(h + [k], x)
  {
    TouchOne(order, h, k, x);
    TouchOne(order, h, k, k);
    TouchLength(order, k);
    Snoc(h, k);
    forall y | y in Touch(order, k) ensures y in TouchedAfter(h + [k], x) {
      TouchOne(order, h, k, y);
    }
  }

  lemma TrackTouch(order: seq<Key>, h: seq<Key>, cap: nat, k: Key)
    requires Unique(order) && k in order && Tracks(order, h, cap)
    ensures Tracks(Touch(order, k), h + [k], cap)
  {
    forall x | x in Touch(order, k)
      ensures x in h + [k] && TouchedAfter(h + [k], x) == TouchedAfter(Touch(order, k), x)
    {
      TouchOne(order, h, k, x);
    }
    forall x | x in h + [k] && x !in Touch(order, k)
      ensures |Touch(order, k)| == cap && forall y :: y in Touch(order, k) ==> y in TouchedAfter(h + [k], x)
    {
      TouchOther(order, h, cap, k, x);
    }
  }

  lemma {:induction false} TouchLength(s: seq<Key>, k: Key)
    requires k in s
    ensures |Touch(s, k)| == |s|
  {
    if s[0] != k {
      TouchLength(s[1..], k);
    }
  }

  lemma TrackNew(order: seq<Key>, h: seq<Key>, cap: nat, k: Key)
    requires Unique(order) && k !in order && Tracks(order, h, cap) && |order| < cap
    ensures Tracks(order + [k], h + [k], cap)
  {
    Snoc(order, k);
    Snoc(h, k);
  }

  lemma TrackEvict(order: seq<Key>, h: seq<Key>, cap: nat, k: Key)
    requires Unique(order) && k !in order && Tracks(order, h, cap) && |order| == cap && order != []
    ensures Tracks(order[1..] + [k], h + [k], cap)
  {
    assert order == [order[0]] + order[1..];
    PopOldest(order);
    Snoc(order[1..], k);
    Snoc(h, k);
  }

  lemma TrackStep(s: L1State, maxSize: int, op: L1Op, h: seq<Key>)
    requires InStep(s) && |s.cache| <= Capacity(maxSize) && Tracks(s.order, h, Capacity(maxSize))
    requires TouchesOnly(s, op)
    ensures Tracks(Apply(s, maxSize, op).order,
                   if IsTouch(s, op) then h + [op.key] else h, Capacity(maxSize))
  {
    KeyCount(s.order, s.cache.Keys);
    if op.key in s.cache {
      TrackTouch(s.order, h, Capacity(maxSize), op.key);
    } else if op.OpSet? {
      RemoveAbsent(s.order, op.key);
      if |s.order| < Capacity(maxSize) {
        TrackNew(s.order, h, Capacity(maxSize), op.key);
      } else {
        EvictedInStep(s);
        RemoveAbsent(s.order[1..], op.key);
        TrackEvict(s.order, h, Capacity(maxSize), op.key);
      }
    }
  }

  lemma {:induction false} OrderTracksTouches(maxSize: int, ops: seq<L1Op>)
    requires OnlyTouches(maxSize, ops)
    ensures Tracks(Run(maxSize, ops).order, Touches(maxSize, ops), Capacity(maxSize))
  {
    if ops != [] {
      var before, op := ops[..|ops| - 1], ops[|ops| - 1];
      OrderTracksTouches(maxSize, before);
      AlwaysInStep(maxSize, before);
      TrackStep(Run(maxSize, before), maxSize, op, Touches(maxSize, before));
    }
  }

  /**
    While nothing is deleted or expires, the keys held are exactly the last `Capacity` distinct keys
    touched by a set or a hit.
   */
  lemma ExactLru(maxSize: int, ops: seq<L1Op>, k: Key)
    requires OnlyTouches(maxSize, ops)
    ensures k in Run(maxSize, ops).cache <==> AmongLast(Touches(maxSize, ops), Capacity(maxSize), k)
  {
    var s, h := Run(maxSize, ops), Touches(maxSize, ops);
    AlwaysInStep(maxSize, ops);
    OrderTracksTouches(maxSize, ops);
    if k in s.order {
      FewerAfter(s.order, k);
    } else if k in h {
      KeyCount(s.order, s.cache.Keys);
      assert s.cache.Keys <= TouchedAfter(h, k);
      SubsetSize(s.cache.Keys, TouchedAfter(h, k));
    }
  }

  lemma {:induction false} SubsetSize(a: set<Key>, b: set<Key>)
    requires a <= b
    ensures |a| <= |b|
  {
    if a != {} {
      var x :| x in a;
      SubsetSize(a - {x}, b - {x});
    }
  }

  // ---- what is evicted, in any history ----

  /** A later place in the access order means a later touch. */
  ghost predicate ByRecency(order: seq<Key>, h: seq<Key>) {
    forall k :: k in order ==> k in h && TouchedAfter(order, k) <= TouchedAfter(h, k)
  }

  lemma RecencyTouch(order: seq<Key>, h: seq<Key>, k: Key)
    requires Unique(order) && ByRecency(order, h)
    ensures ByRecency(Touch(order, k), h + [k])
  {
    RemoveKeeps(order, k);
    Snoc(RemoveFirst(order, k), k);
    Snoc(h, k);
  }

  lemma RecencyRemove(order: seq<Key>, h: seq<Key>, k: Key)
    requires Unique(order) && ByRecency(order, h)
    ensures ByRecency(RemoveFirst(order, k), h)
  {
    RemoveKeeps(order, k);
  }

  lemma RecencyEvict(s: L1State, h: seq<Key>)
    requires InStep(s) && s.order != [] && ByRecency(s.order, h)
    ensures InStep(Evicted(s)) && ByRecency(Evicted(s).order, h)
  {
    EvictedInStep(s);
    PopOldest(s.order);
    assert s.order == [s.order[0]] + s.order[1..];
  }

  lemma RecencyStep(s: L1State, maxSize: int, op: L1Op, h: seq<Key>)
    requires InStep(s) && ByRecency(s.order, h)
    ensures ByRecency(Apply(s, maxSize, op).order, if IsTouch(s, op) then h + [op.key] else h)
  {
    match op {
      case OpGet(k, now) =>
        RecencyTouch(s.order, h, k);
        RecencyRemove(s.order, h, k);
      case OpSet(k, v, now, ttl) =>
        if s.order != [] {
          RecencyEvict(s, h);
        }
        RecencyTouch(MakeRoom(s, maxSize, k).order, h, k);
      case OpDelete(k) =>
        RecencyRemove(s.order, h, k);
      case OpClear =>
    }
  }

  lemma {:induction false} OrderIsByRecency(maxSize: int, ops: seq<L1Op>)
    ensures ByRecency(Run(maxSize, ops).order, Touches(maxSize, ops))
  {
    if ops != [] {
      var before := ops[..|ops| - 1];
      OrderIsByRecency(maxSize, before);
      AlwaysInStep(maxSize, before);
      RecencyStep(Run(maxSize, before), maxSize, ops[|ops| - 1], Touches(maxSize, before));
    }
  }

  lemma EvictedKeys(s: L1State)
    requires InStep(s) && s.order != []
    ensures forall k :: k in Evicted(s).cache <==> k in s.cache && k in TouchedAfter(s.order, s.order[0])
    ensures forall k :: k in s.cache && k !in Evicted(s).cache ==> k == s.order[0]
  {
    EvictedInStep(s);
    PopOldest(s.order);
    assert s.order == [s.order[0]] + s.order[1..];
  }

  /** In a list by recency the keys after the oldest are the present ones that were touched after it. */
  lemma AfterOldest(s: L1State, h: seq<Key>, k: Key)
    requires InStep(s) && s.order != [] && ByRecency(s.order, h)
    ensures s.order[0] in h
    ensures k in s.cache ==> (k in TouchedAfter(s.order, s.order[0]) <==> k in TouchedAfter(h, s.order[0]))
  {
    PopOldest(s.order);
    NotAfterItself(h, s.order[0]);
    assert s.order == [s.order[0]] + s.order[1..];
  }

  /**
    In every history, deletes and expiry included, the key that an eviction drops is the one whose last
    touch is the oldest, and nothing else is dropped.
   */
  lemma EvictsLeastRecent(maxSize: int, ops: seq<L1Op>, victim: Key, k: Key)
    requires victim in Run(maxSize, ops).cache && victim !in Evicted(Run(maxSize, ops)).cache
    ensures victim in Touches(maxSize, ops)
    ensures k in Evicted(Run(maxSize, ops)).cache <==>
            k in Run(maxSize, ops).cache && k in TouchedAfter(Touches(maxSize, ops), victim)
  {
    AlwaysInStep(maxSize, ops);
    OrderIsByRecency(maxSize, ops);
    EvictedKeys(Run(maxSize, ops));
    AfterOldest(Run(maxSize, ops), Touches(maxSize, ops), k);
  }

  lemma {:induction false} NotAfterItself(h: seq<Key>, k: Key)
    ensures k !in TouchedAfter(h, k)
  {
    if h != [] && h[|h| - 1] != k {
      NotAfterItself(h[..|h| - 1], k);
    }
  }
}
