/** Two cache layers: a local cache in each instance and one shared Redis. How stale a value can be,
    and when a write becomes visible everywhere. Times are whole nanoseconds. */
module LayeredCache {
  import opened Collections

  type Value = string

  /** A cached value. `version` is history: which write of the key it came from. */
  datatype Entry = Entry(version: nat, value: Value, expiresAt: int)

  type Layer = map<string, Entry>

  /** History of a key: a Set (or, without a value, a Delete), by whom and when, whether it reached
      Redis, and its Redis TTL. */
  datatype Write = Write(who: nat, at: int, shared: bool, value: Option<Value>, ttl: int)

  // ----- the operations on one instance and Redis -----

  function Fresh(layer: Layer, key: string, now: int): Option<Entry> {
    if key in layer && now < layer[key].expiresAt then Some(layer[key]) else None
  }

  /** What a Get returns: the local entry while fresh, else what Redis has. */
  function GetResult(local: Layer, redis: Layer, up: bool, key: string, now: int): Option<Entry> {
    if Fresh(local, key, now).Some? then Fresh(local, key, now)
    else if up then Fresh(redis, key, now)
    else None
  }

  /** The local layer after a Get: a value found in Redis is kept for the local TTL. */
  function LocalAfterGet(local: Layer, redis: Layer, up: bool, key: string, now: int, localTTL: int): Layer {
    if Fresh(local, key, now).Some? then local
    else if up && Fresh(redis, key, now).Some? then
      local[key := Fresh(redis, key, now).value.(expiresAt := now + localTTL)]
    else local - {key}
  }

  /** The local lifetime of a Set: the local TTL, or a shorter explicit TTL. */
  function LocalLife(localTTL: int, ttl: Option<int>): int {
    if ttl.Some? && ttl.value < localTTL then ttl.value else localTTL
  }

  function RedisLife(timeout: int, ttl: Option<int>): int {
    if ttl.Some? then ttl.value else timeout
  }

  function LocalAfterSet(local: Layer, key: string, version: nat, value: Value, now: int, localTTL: int,
                         ttl: Option<int>): Layer {
    local[key := Entry(version, value, now + LocalLife(localTTL, ttl))]
  }

  function RedisAfterSet(redis: Layer, up: bool, key: string, version: nat, value: Value, now: int, timeout: int,
                         ttl: Option<int>): Layer {
    if up then redis[key := Entry(version, value, now + RedisLife(timeout, ttl))] else redis
  }

  function RedisAfterDelete(redis: Layer, up: bool, key: string): Layer {
    if up then redis - {key} else redis
  }

  function LogIn(logs: map<string, seq<Write>>, key: string): seq<Write> {
    if key in logs then logs[key] else []
  }

  function Logged(logs: map<string, seq<Write>>, key: string, w: Write): map<string, seq<Write>> {
    logs[key := LogIn(logs, key) + [w]]
  }

  function AfterCleanup(local: Layer, now: int): Layer {
    map key | key in local && now <= local[key].expiresAt :: local[key]
  }

  // ----- all instances together -----

  datatype Config = Config(localTTL: int, timeout: int)

  predicate ValidConfig(cfg: Config) { cfg.localTTL > 0 && cfg.timeout > 0 }

  datatype Caches = Caches(now: int, redis: Layer, locals: map<nat, Layer>, logs: map<string, seq<Write>>)

  datatype Action =
    | Get(i: nat, key: string, up: bool)
    | Set(i: nat, key: string, up: bool, value: Value, ttl: Option<int>)
    | Delete(i: nat, key: string, up: bool)
    | Cleanup(i: nat)
    | Wait(d: nat)

  const COLD := Caches(0, map[], map[], map[])

  predicate Allowed(a: Action) {
    a.Set? && a.ttl.Some? ==> a.ttl.value > 0
  }

  function LocalOf(s: Caches, i: nat): Layer {
    if i in s.locals then s.locals[i] else map[]
  }

  function LogOf(s: Caches, key: string): seq<Write> { LogIn(s.logs, key) }

  function Apply(cfg: Config, s: Caches, a: Action): Caches {
    match a
    case Get(i, key, up) =>
      s.(locals := s.locals[i := LocalAfterGet(LocalOf(s, i), s.redis, up, key, s.now, cfg.localTTL)])
    case Set(i, key, up, value, ttl) =>
      var v := |LogOf(s, key)|;
      s.(locals := s.locals[i := LocalAfterSet(LocalOf(s, i), key, v, value, s.now, cfg.localTTL, ttl)],
         redis := RedisAfterSet(s.redis, up, key, v, value, s.now, cfg.timeout, ttl),
         logs := Logged(s.logs, key, Write(i, s.now, up, Some(value), RedisLife(cfg.timeout, ttl))))
    case Delete(i, key, up) =>
      s.(locals := s.locals[i := LocalOf(s, i) - {key}],
         redis := RedisAfterDelete(s.redis, up, key),
         logs := Logged(s.logs, key, Write(i, s.now, up, None, 1)))
    case Cleanup(i) => s.(locals := s.locals[i := AfterCleanup(LocalOf(s, i), s.now)])
    case Wait(d) => s.(now := s.now + d)
  }

  function Run(cfg: Config, s: Caches, actions: seq<Action>): Caches
    decreases |actions|
  {
    if actions == [] then s else Apply(cfg, Run(cfg, s, actions[..|actions| - 1]), actions[|actions| - 1])
  }

  // ----- the invariant, for one key -----

  predicate FromLog(log: seq<Write>, e: Entry) {
    e.version < |log| && log[e.version].value == Some(e.value)
  }

  ghost predicate NoSharedAfter(log: seq<Write>, v: nat) {
    forall j :: v < j < |log| ==> !log[j].shared
  }

  ghost predicate LogOk(log: seq<Write>, now: int) {
    forall j :: 0 <= j < |log| ==> log[j].at <= now && log[j].ttl > 0
  }

  /** Redis holds the last write that reached it, if that is a Set. */
  ghost predicate RedisOk(log: seq<Write>, redis: Layer, key: string) {
    && (key in redis ==>
          var e := redis[key];
          FromLog(log, e) && log[e.version].shared && NoSharedAfter(log, e.version) &&
          e.expiresAt == log[e.version].at + log[e.version].ttl)
    && forall v: nat :: v < |log| && log[v].shared && NoSharedAfter(log, v) && log[v].value.Some? ==>
      key in redis && redis[key].version == v
  }

  /** A local entry never outlives a later shared write by more than the local TTL, and is never
      older than the instance's own shared writes. */
  ghost predicate LocalOk(log: seq<Write>, local: Layer, key: string, i: nat, localTTL: int, now: int) {
    key in local ==>
      var e := local[key];
      && FromLog(log, e)
      && e.expiresAt <= now + localTTL
      && e.expiresAt < log[e.version].at + log[e.version].ttl + localTTL
      && forall j :: e.version < j < |log| && log[j].shared ==> log[j].who != i && e.expiresAt <= log[j].at + localTTL
  }

  ghost predicate KeyOk(cfg: Config, s: Caches, key: string) {
    LogOk(LogOf(s, key), s.now) && RedisOk(LogOf(s, key), s.redis, key)
  }

  ghost predicate Inv(cfg: Config, s: Caches) {
    && (forall key :: KeyOk(cfg, s, key))
    && forall i, key :: LocalOk(LogOf(s, key), LocalOf(s, i), key, i, cfg.localTTL, s.now)
  }

  // ----- each step keeps it -----

  /** Some instance writes: the other instances' entries stay within bounds. */
  lemma WriteKeepsOthers(log: seq<Write>, w: Write, local: Layer, key: string, i: nat, localTTL: int, now: int)
    requires LocalOk(log, local, key, i, localTTL, now) && w.at == now && w.who != i
    ensures LocalOk(log + [w], local, key, i, localTTL, now)
  {
  }

  lemma {:induction false} SharedWrite(log: seq<Write>, w: Write, redis: Layer, key: string, now: int)
    requires LogOk(log, now) && RedisOk(log, redis, key) && w.at == now && w.ttl > 0
    ensures LogOk(log + [w], now)
    ensures w.shared && w.value.Some? ==>
      RedisOk(log + [w], redis[key := Entry(|log|, w.value.value, now + w.ttl)], key)
    ensures w.shared && w.value.None? ==> RedisOk(log + [w], redis - {key}, key)
  {
    var all := log + [w];
    assert all[|log|] == w;
    assert w.shared ==> forall v: nat :: v < |log| ==> !NoSharedAfter(all, v);
  }

  lemma {:induction false} LocalWrite(log: seq<Write>, w: Write, redis: Layer, key: string, now: int)
    requires RedisOk(log, redis, key) && !w.shared
    ensures RedisOk(log + [w], redis, key)
  {
    var all := log + [w];
    assert all[|log|] == w;
    forall v: nat | v < |log|
      ensures NoSharedAfter(all, v) <==> NoSharedAfter(log, v)
    {
      if NoSharedAfter(all, v) {
        forall j | v < j < |log|
          ensures !log[j].shared
        {
          assert !all[j].shared;
        }
      }
    }
  }

  lemma {:induction false} OwnSet(log: seq<Write>, w: Write, local: Layer, key: string, i: nat, localTTL: int, now: int,
                                  life: int)
    requires w.at == now && w.value.Some? && w.ttl > 0 && 0 < life <= localTTL
    ensures LocalOk(log + [w], local[key := Entry(|log|, w.value.value, now + life)], key, i, localTTL, now)
  {
    assert (log + [w])[|log|] == w;
  }

  /** A value read from Redis and kept locally. */
  lemma Refill(log: seq<Write>, redis: Layer, local: Layer, key: string, i: nat, localTTL: int, now: int)
    requires LogOk(log, now) && RedisOk(log, redis, key) && Fresh(redis, key, now).Some? && localTTL > 0
    ensures LocalOk(log, local[key := redis[key].(expiresAt := now + localTTL)], key, i, localTTL, now)
  {
  }

  lemma {:induction false} GetKeepsInv(cfg: Config, s: Caches, i: nat, key: string, up: bool)
    requires ValidConfig(cfg) && Inv(cfg, s)
    ensures Inv(cfg, Apply(cfg, s, Get(i, key, up)))
  {
    var t := Apply(cfg, s, Get(i, key, up));
    forall k
      ensures KeyOk(cfg, t, k)
    {
      assert KeyOk(cfg, s, k);
    }
    forall j, k
      ensures LocalOk(LogOf(t, k), LocalOf(t, j), k, j, cfg.localTTL, t.now)
    {
      assert LocalOk(LogOf(s, k), LocalOf(s, j), k, j, cfg.localTTL, s.now);
      if j == i && k == key && up && Fresh(s.redis, key, s.now).Some? {
        assert KeyOk(cfg, s, key);
        Refill(LogOf(s, key), s.redis, LocalOf(s, i), key, i, cfg.localTTL, s.now);
      }
    }
  }

  lemma {:induction false} SetKeepsInv(cfg: Config, s: Caches, i: nat, key: string, up: bool, value: Value,
                                       ttl: Option<int>)
    requires ValidConfig(cfg) && Inv(cfg, s) && Allowed(Set(i, key, up, value, ttl))
    ensures Inv(cfg, Apply(cfg, s, Set(i, key, up, value, ttl)))
  {
    var t := Apply(cfg, s, Set(i, key, up, value, ttl));
    var log := LogOf(s, key);
    var w := Write(i, s.now, up, Some(value), RedisLife(cfg.timeout, ttl));
    forall k
      ensures KeyOk(cfg, t, k)
    {
      assert KeyOk(cfg, s, k);
      if k == key {
        SharedWrite(log, w, s.redis, key, s.now);
        if !up {
          LocalWrite(log, w, s.redis, key, s.now);
        }
      }
    }
    forall j, k
      ensures LocalOk(LogOf(t, k), LocalOf(t, j), k, j, cfg.localTTL, t.now)
    {
      assert LocalOk(LogOf(s, k), LocalOf(s, j), k, j, cfg.localTTL, s.now);
      if k == key {
        if j == i {
          OwnSet(log, w, LocalOf(s, i), key, i, cfg.localTTL, s.now, LocalLife(cfg.localTTL, ttl));
        } else {
          WriteKeepsOthers(log, w, LocalOf(s, j), key, j, cfg.localTTL, s.now);
        }
      }
    }
  }

  lemma {:induction false} DeleteKeepsInv(cfg: Config, s: Caches, i: nat, key: string, up: bool)
    requires ValidConfig(cfg) && Inv(cfg, s)
    ensures Inv(cfg, Apply(cfg, s, Delete(i, key, up)))
  {
    var t := Apply(cfg, s, Delete(i, key, up));
    var log := LogOf(s, key);
    var w := Write(i, s.now, up, None, 1);
    forall k
      ensures KeyOk(cfg, t, k)
    {
      assert KeyOk(cfg, s, k);
      if k == key {
        SharedWrite(log, w, s.redis, key, s.now);
        if !up {
          LocalWrite(log, w, s.redis, key, s.now);
        }
      }
    }
    forall j, k
      ensures LocalOk(LogOf(t, k), LocalOf(t, j), k, j, cfg.localTTL, t.now)
    {
      assert LocalOk(LogOf(s, k), LocalOf(s, j), k, j, cfg.localTTL, s.now);
      if k == key && j != i {
        WriteKeepsOthers(log, w, LocalOf(s, j), key, j, cfg.localTTL, s.now);
      }
    }
  }

  lemma {:induction false} QuietKeepsInv(cfg: Config, s: Caches, a: Action)
    requires Inv(cfg, s) && (a.Cleanup? || a.Wait?)
    ensures Inv(cfg, Apply(cfg, s, a))
  {
    var t := Apply(cfg, s, a);
    forall k
      ensures KeyOk(cfg, t, k)
    {
      assert KeyOk(cfg, s, k);
    }
    forall j, k
      ensures LocalOk(LogOf(t, k), LocalOf(t, j), k, j, cfg.localTTL, t.now)
    {
      assert LocalOk(LogOf(s, k), LocalOf(s, j), k, j, cfg.localTTL, s.now);
    }
  }

  lemma {:induction false} StepKeepsInv(cfg: Config, s: Caches, a: Action)
    requires ValidConfig(cfg) && Inv(cfg, s) && Allowed(a)
    ensures Inv(cfg, Apply(cfg, s, a))
  {
    match a
    case Get(i, key, up) => GetKeepsInv(cfg, s, i, key, up);
    case Set(i, key, up, value, ttl) => SetKeepsInv(cfg, s, i, key, up, value, ttl);
    case Delete(i, key, up) => DeleteKeepsInv(cfg, s, i, key, up);
    case Cleanup(_) => QuietKeepsInv(cfg, s, a);
    case Wait(_) => QuietKeepsInv(cfg, s, a);
  }

  ghost predicate AllAllowed(actions: seq<Action>) {
    forall k :: 0 <= k < |actions| ==> Allowed(actions[k])
  }

  lemma {:induction false} RunKeepsInv(cfg: Config, actions: seq<Action>)
    requires ValidConfig(cfg) && AllAllowed(actions)
    ensures Inv(cfg, Run(cfg, COLD, actions))
  {
    if actions != [] {
      var n := |actions| - 1;
      RunKeepsInv(cfg, actions[..n]);
      StepKeepsInv(cfg, Run(cfg, COLD, actions[..n]), actions[n]);
    }
  }

  // ----- what a Get returns, in every reachable state -----

  /** A value served was set less than its Redis TTL plus the local TTL ago (in whole nanoseconds, at
      most their sum less two); and every later write that reached Redis is by another instance and
      less than the local TTL old. */
  lemma {:induction false} ServedIsRecent(cfg: Config, actions: seq<Action>, i: nat, key: string, up: bool)
    requires ValidConfig(cfg) && AllAllowed(actions)
    ensures var s := Run(cfg, COLD, actions);
      var log := LogOf(s, key);
      var served := GetResult(LocalOf(s, i), s.redis, up, key, s.now);
      served.Some? ==>
        && FromLog(log, served.value)
        && s.now - log[served.value.version].at <= log[served.value.version].ttl + cfg.localTTL - 2
        && forall j :: served.value.version < j < |log| && log[j].shared ==>
          log[j].who != i && s.now < log[j].at + cfg.localTTL
  {
    RunKeepsInv(cfg, actions);
    var s := Run(cfg, COLD, actions);
    assert KeyOk(cfg, s, key);
    assert LocalOk(LogOf(s, key), LocalOf(s, i), key, i, cfg.localTTL, s.now);
  }

  /** While Redis is up, a miss means that the last write that reached Redis is a Delete or has
      outlived its TTL. */
  lemma {:induction false} MissMeansGone(cfg: Config, actions: seq<Action>, i: nat, key: string, v: nat)
    requires ValidConfig(cfg) && AllAllowed(actions)
    requires var s := Run(cfg, COLD, actions); var log := LogOf(s, key);
      v < |log| && log[v].shared && NoSharedAfter(log, v) && GetResult(LocalOf(s, i), s.redis, true, key, s.now) == None
    ensures var s := Run(cfg, COLD, actions); var w := LogOf(s, key)[v];
      w.value == None || s.now >= w.at + w.ttl
  {
    RunKeepsInv(cfg, actions);
    assert KeyOk(cfg, Run(cfg, COLD, actions), key);
  }

  /** The bound is exact: one instance sets, another reads just before Redis drops the value, and
      serves its copy until just before that expires. */
  lemma {:induction false} StalenessIsReached(cfg: Config, key: string, value: Value)
    requires ValidConfig(cfg)
    ensures var actions := [Set(0, key, true, value, None), Wait(cfg.timeout - 1), Get(1, key, true),
      Wait(cfg.localTTL - 1)];
      var s := Run(cfg, COLD, actions);
      && GetResult(LocalOf(s, 1), s.redis, true, key, s.now) == Some(Entry(0, value, s.now + 1))
      && LogOf(s, key) == [Write(0, 0, true, Some(value), cfg.timeout)] && s.now == cfg.timeout + cfg.localTTL - 2
  {
    var a, b, c, d := Set(0, key, true, value, None), Wait(cfg.timeout - 1), Get(1, key, true), Wait(cfg.localTTL - 1);
    FourSteps(cfg, a, b, c, d);
  }

  /** The other bound is exact too: an instance that has just read the old value serves it until one
      nanosecond before the local TTL has passed since another instance's write. */
  lemma {:induction false} VisibilityIsReached(cfg: Config, key: string, before: Value, after: Value)
    requires ValidConfig(cfg)
    ensures var actions := [Set(0, key, true, before, None), Get(1, key, true), Set(0, key, true, after, None),
      Wait(cfg.localTTL - 1)];
      var s := Run(cfg, COLD, actions);
      && GetResult(LocalOf(s, 1), s.redis, true, key, s.now) == Some(Entry(0, before, s.now + 1))
      && |LogOf(s, key)| == 2 && LogOf(s, key)[1].value == Some(after) && LogOf(s, key)[1].shared
      && s.now == LogOf(s, key)[1].at + cfg.localTTL - 1
  {
    var a, b, c, d := Set(0, key, true, before, None), Get(1, key, true), Set(0, key, true, after, None),
      Wait(cfg.localTTL - 1);
    FourSteps(cfg, a, b, c, d);
  }

  lemma {:induction false} FourSteps(cfg: Config, a: Action, b: Action, c: Action, d: Action)
    ensures Run(cfg, COLD, [a, b, c, d]) == Apply(cfg, Apply(cfg, Apply(cfg, Apply(cfg, COLD, a), b), c), d)
  {
    assert [a, b, c, d][..3] == [a, b, c] && [a, b, c][..2] == [a, b] && [a, b][..1] == [a] && [a][..0] == [];
    assert Run(cfg, COLD, [a]) == Apply(cfg, COLD, a);
    assert Run(cfg, COLD, [a, b]) == Apply(cfg, Apply(cfg, COLD, a), b);
    assert Run(cfg, COLD, [a, b, c]) == Apply(cfg, Apply(cfg, Apply(cfg, COLD, a), b), c);
  }

  // ----- the objects -----

  /** The shared layer. `logs` is bookkeeping: the history the theorems speak of. */
  class RedisCache {
    const timeout: int
    var entries: Layer
    var logs: map<string, seq<Write>>

    constructor (timeout: int)
      ensures this.timeout == timeout && entries == map[] && logs == map[]
    {
      this.timeout := timeout;
      entries, logs := map[], map[];
    }
  }

  /** One instance: its local layer in front of the shared one. */
  class MultiLayerCache {
    const id: nat
    const localTTL: int
    const redis: RedisCache
    var localCache: Layer

    constructor (id: nat, redis: RedisCache, localTTL: int)
      ensures this.id == id && this.redis == redis && localCache == map[]
      ensures this.localTTL == if localTTL == 0 then 60_000_000_000 else localTTL
    {
      this.id, this.redis, localCache := id, redis, map[];
      this.localTTL := if localTTL == 0 then 60_000_000_000 else localTTL;
    }

    method Get(key: string, now: int, up: bool) returns (found: Option<Entry>)
      modifies this
      ensures key in old(localCache) && now < old(localCache)[key].expiresAt ==>
        found == Some(old(localCache)[key]) && localCache == old(localCache)
      ensures !(key in old(localCache) && now < old(localCache)[key].expiresAt) ==>
        && (found.Some? <==> up && key in redis.entries && now < redis.entries[key].expiresAt)
        && (found.Some? ==> found == Some(redis.entries[key].(expiresAt := now + localTTL)))
        && localCache == if found.Some? then old(localCache)[key := found.value] else old(localCache) - {key}
      ensures found.Some? <==> GetResult(old(localCache), redis.entries, up, key, now).Some?
      ensures found.Some? ==>
        found.value.version == GetResult(old(localCache), redis.entries, up, key, now).value.version
      ensures found.Some? ==> found.value.value == GetResult(old(localCache), redis.entries, up, key, now).value.value
      ensures localCache == LocalAfterGet(old(localCache), redis.entries, up, key, now, localTTL)
    {
      if key in localCache {
        var entry := localCache[key];
        if now < entry.expiresAt {
          return Some(entry);
        }
        localCache := localCache - {key};
      }
      if up && key in redis.entries && now < redis.entries[key].expiresAt {
        var entry := redis.entries[key].(expiresAt := now + localTTL);
        localCache := localCache[key := entry];
        return Some(entry);
      }
      return None;
    }

    method Set(key: string, value: Value, ttl: Option<int>, now: int, up: bool)
      modifies this, redis
      ensures var v := |LogIn(old(redis.logs), key)|;
        && localCache == LocalAfterSet(old(localCache), key, v, value, now, localTTL, ttl)
        && redis.entries == RedisAfterSet(old(redis.entries), up, key, v, value, now, redis.timeout, ttl)
        && redis.logs == Logged(old(redis.logs), key, Write(id, now, up, Some(value), RedisLife(redis.timeout, ttl)))
    {
      var version := |LogIn(redis.logs, key)|;
      var localExpiry := localTTL;
      if ttl.Some? && ttl.value < localExpiry {
        localExpiry := ttl.value;
      }
      localCache := localCache[key := Entry(version, value, now + localExpiry)];
      var expiration := redis.timeout;
      if ttl.Some? {
        expiration := ttl.value;
      }
      if up {
        redis.entries := redis.entries[key := Entry(version, value, now + expiration)];
      }
      redis.logs := Logged(redis.logs, key, Write(id, now, up, Some(value), expiration));
    }

    method Delete(key: string, now: int, up: bool)
      modifies this, redis
      ensures localCache == old(localCache) - {key}
      ensures redis.entries == RedisAfterDelete(old(redis.entries), up, key)
      ensures redis.logs == Logged(old(redis.logs), key, Write(id, now, up, None, 1))
    {
      localCache := localCache - {key};
      if up {
        redis.entries := redis.entries - {key};
      }
      redis.logs := Logged(redis.logs, key, Write(id, now, up, None, 1));
    }

    /** One sweep of the cleanup loop, in whatever order the entries are visited. */
    method Cleanup(now: int)
      modifies this
      ensures localCache == AfterCleanup(old(localCache), now)
      ensures forall k :: k in localCache <==> k in old(localCache) && now <= old(localCache)[k].expiresAt
      ensures forall k :: k in localCache ==> localCache[k] == old(localCache)[k]
    {
      var rest := localCache.Keys;
      while rest != {}
        invariant forall k :: k in localCache <==>
          k in old(localCache) && (k in rest || now <= old(localCache)[k].expiresAt)
        invariant forall k :: k in localCache ==> localCache[k] == old(localCache)[k]
        decreases rest
      {
        var key :| key in rest;
        if key in localCache && now > localCache[key].expiresAt {
          localCache := localCache - {key};
        }
        rest := rest - {key};
      }
    }
  }
}
