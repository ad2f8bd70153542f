/** When a Get must find the value and when it must not, over the operations of a run. */
module CacheHits {
  import opened Collections
  import opened LayeredCache

  /** The action sets or deletes the key through instance `i`. */
  predicate Writes(a: Action, i: nat, key: string) {
    (a.Set? || a.Delete?) && a.i == i && a.key == key
  }

  /** The action may also change the instance's entry by reading Redis. */
  predicate Touches(a: Action, i: nat, key: string) {
    Writes(a, i, key) || (a.Get? && a.i == i && a.key == key && a.up)
  }

  /** The action changes what Redis has for the key. */
  predicate WritesShared(a: Action, key: string) {
    (a.Set? || a.Delete?) && a.key == key && a.up
  }

  ghost predicate NoneOf(p: Action -> bool, actions: seq<Action>) {
    forall a :: a in actions ==> !p(a)
  }

  /** The last action for which `p` holds is at position `k`. */
  ghost predicate LastAt(p: Action -> bool, actions: seq<Action>, k: nat) {
    k < |actions| && p(actions[k]) && NoneOf(p, actions[k + 1..])
  }

  lemma {:induction false} RunFrom(cfg: Config, actions: seq<Action>, k: nat)
    requires k <= |actions|
    ensures Run(cfg, COLD, actions) == Run(cfg, Run(cfg, COLD, actions[..k]), actions[k..])
    decreases |actions|
  {
    if k < |actions| {
      var n := |actions| - 1;
      RunFrom(cfg, actions[..n], k);
      assert actions[..n][..k] == actions[..k];
      assert actions[k..][..n - k] == actions[..n][k..];
    } else {
      assert actions[..k] == actions;
    }
  }

  /** The state right after the action at `k`, from which the rest runs. */
  lemma {:induction false} RunAfter(cfg: Config, actions: seq<Action>, k: nat)
    requires k < |actions|
    ensures Run(cfg, COLD, actions) ==
      Run(cfg, Apply(cfg, Run(cfg, COLD, actions[..k]), actions[k]), actions[k + 1..])
  {
    RunFrom(cfg, actions, k + 1);
    assert actions[..k + 1][..k] == actions[..k];
  }

  // ----- what stays in the layers -----

  lemma {:induction false} StepKeepsEntry(cfg: Config, s: Caches, a: Action, i: nat, key: string)
    requires key in LocalOf(s, i) && !Writes(a, i, key) && s.now < LocalOf(s, i)[key].expiresAt
    ensures key in LocalOf(Apply(cfg, s, a), i) && LocalOf(Apply(cfg, s, a), i)[key] == LocalOf(s, i)[key]
    ensures s.now <= Apply(cfg, s, a).now
  {
  }

  lemma {:induction false} StepBringsNoEntry(cfg: Config, s: Caches, a: Action, i: nat, key: string)
    requires !Touches(a, i, key)
    ensures key in LocalOf(Apply(cfg, s, a), i) ==>
      key in LocalOf(s, i) && LocalOf(Apply(cfg, s, a), i)[key] == LocalOf(s, i)[key]
  {
  }

  /** A local entry stays until it expires, whatever the others do, while its instance neither sets
      nor deletes the key. */
  lemma {:induction false} EntryStays(cfg: Config, s: Caches, actions: seq<Action>, i: nat, key: string)
    requires key in LocalOf(s, i) && NoneOf(a => Writes(a, i, key), actions)
    requires Run(cfg, s, actions).now < LocalOf(s, i)[key].expiresAt
    ensures key in LocalOf(Run(cfg, s, actions), i)
    ensures LocalOf(Run(cfg, s, actions), i)[key] == LocalOf(s, i)[key]
    decreases |actions|
  {
    if actions != [] {
      var n := |actions| - 1;
      assert forall a :: a in actions[..n] ==> a in actions;
      assert actions[n] in actions;
      assert Run(cfg, s, actions[..n]).now <= Run(cfg, s, actions).now;
      EntryStays(cfg, s, actions[..n], i, key);
      StepKeepsEntry(cfg, Run(cfg, s, actions[..n]), actions[n], i, key);
    }
  }

  /** What is in Redis stays there, expired or not, until the key is written through. */
  lemma {:induction false} SharedStays(cfg: Config, s: Caches, actions: seq<Action>, key: string)
    requires NoneOf(a => WritesShared(a, key), actions)
    ensures key in Run(cfg, s, actions).redis <==> key in s.redis
    ensures key in s.redis ==> Run(cfg, s, actions).redis[key] == s.redis[key]
    decreases |actions|
  {
    if actions != [] {
      var n := |actions| - 1;
      assert forall a :: a in actions[..n] ==> a in actions;
      SharedStays(cfg, s, actions[..n], key);
      assert actions[n] in actions;
    }
  }

  /** Without a read of Redis the instance can only lose its entry. */
  lemma {:induction false} NoEntryComes(cfg: Config, s: Caches, actions: seq<Action>, i: nat, key: string)
    requires NoneOf(a => Touches(a, i, key), actions)
    ensures key in LocalOf(Run(cfg, s, actions), i) ==>
      key in LocalOf(s, i) && LocalOf(Run(cfg, s, actions), i)[key] == LocalOf(s, i)[key]
    decreases |actions|
  {
    if actions != [] {
      var n := |actions| - 1;
      assert forall a :: a in actions[..n] ==> a in actions;
      assert actions[n] in actions;
      NoEntryComes(cfg, s, actions[..n], i, key);
      StepBringsNoEntry(cfg, Run(cfg, s, actions[..n]), actions[n], i, key);
    }
  }

  // ----- what a Get returns -----

  /** A value set through the instance is returned for the local TTL, or a shorter TTL of its own,
      with Redis up or down, until the instance writes the key again. */
  lemma {:induction false} OwnValueIsServed(cfg: Config, actions: seq<Action>, k: nat, i: nat, key: string, up: bool)
    requires ValidConfig(cfg) && LastAt(a => Writes(a, i, key), actions, k) && actions[k].Set?
    requires var at := Run(cfg, COLD, actions[..k]).now; var ttl := actions[k].ttl;
      Run(cfg, COLD, actions).now < at + if ttl.Some? then Min(cfg.localTTL, ttl.value) else cfg.localTTL
    ensures var s := Run(cfg, COLD, actions);
      var served := GetResult(LocalOf(s, i), s.redis, up, key, s.now);
      && key in LocalOf(s, i) && s.now < LocalOf(s, i)[key].expiresAt
      && served.Some? && served.value.value == LocalOf(s, i)[key].value == actions[k].value
  {
    var after := Apply(cfg, Run(cfg, COLD, actions[..k]), actions[k]);
    RunAfter(cfg, actions, k);
    EntryStays(cfg, after, actions[k + 1..], i, key);
  }

  /** A value that a Get had to fetch from Redis is returned for the local TTL. */
  lemma {:induction false} FetchedValueIsServed(cfg: Config, actions: seq<Action>, k: nat, i: nat, key: string,
                                                up: bool)
    requires ValidConfig(cfg) && k < |actions| && actions[k] == Get(i, key, true)
    requires NoneOf(a => Writes(a, i, key), actions[k + 1..])
    requires var s := Run(cfg, COLD, actions[..k]);
      && (key in LocalOf(s, i) ==> s.now >= LocalOf(s, i)[key].expiresAt)
      && key in s.redis && s.now < s.redis[key].expiresAt
      && Run(cfg, COLD, actions).now < s.now + cfg.localTTL
    ensures var s := Run(cfg, COLD, actions);
      var served := GetResult(LocalOf(s, i), s.redis, up, key, s.now);
      && key in LocalOf(s, i) && s.now < LocalOf(s, i)[key].expiresAt
      && served.Some? && served.value.value == LocalOf(s, i)[key].value
      && served.value.value == Run(cfg, COLD, actions[..k]).redis[key].value
  {
    var after := Apply(cfg, Run(cfg, COLD, actions[..k]), actions[k]);
    RunAfter(cfg, actions, k);
    EntryStays(cfg, after, actions[k + 1..], i, key);
  }

  /** With Redis down, an instance that has not read the key from Redis since its Set returns it
      exactly until its lifetime ends. */
  lemma {:induction false} OwnValueIff(cfg: Config, actions: seq<Action>, k: nat, i: nat, key: string)
    requires ValidConfig(cfg) && LastAt(a => Touches(a, i, key), actions, k) && actions[k].Set?
    ensures var at := Run(cfg, COLD, actions[..k]).now; var ttl := actions[k].ttl;
      var s := Run(cfg, COLD, actions);
      GetResult(LocalOf(s, i), s.redis, false, key, s.now).Some? <==>
      s.now < at + if ttl.Some? then Min(cfg.localTTL, ttl.value) else cfg.localTTL
  {
    var after := Apply(cfg, Run(cfg, COLD, actions[..k]), actions[k]);
    var rest := actions[k + 1..];
    RunAfter(cfg, actions, k);
    NoEntryComes(cfg, after, rest, i, key);
    if Run(cfg, COLD, actions).now < LocalOf(after, i)[key].expiresAt {
      assert NoneOf(a => Writes(a, i, key), rest) by {
        assert forall a :: a in rest ==> !Touches(a, i, key);
      }
      EntryStays(cfg, after, rest, i, key);
    }
  }

  /** With Redis down, an instance that deleted the key and has not read it from Redis since misses. */
  lemma {:induction false} OwnDeleteMisses(cfg: Config, actions: seq<Action>, k: nat, i: nat, key: string)
    requires ValidConfig(cfg) && LastAt(a => Touches(a, i, key), actions, k) && actions[k].Delete?
    ensures var s := Run(cfg, COLD, actions); GetResult(LocalOf(s, i), s.redis, false, key, s.now) == None
  {
    RunAfter(cfg, actions, k);
    NoEntryComes(cfg, Apply(cfg, Run(cfg, COLD, actions[..k]), actions[k]), actions[k + 1..], i, key);
  }

  /** An instance without a fresh entry of its own finds the last value set through Redis, exactly
      until its TTL, or Redis's, has passed. */
  lemma {:induction false} SharedValueIff(cfg: Config, actions: seq<Action>, k: nat, i: nat, key: string)
    requires ValidConfig(cfg) && LastAt(a => WritesShared(a, key), actions, k) && actions[k].Set?
    requires var s := Run(cfg, COLD, actions); key in LocalOf(s, i) ==> s.now >= LocalOf(s, i)[key].expiresAt
    ensures var at := Run(cfg, COLD, actions[..k]).now; var ttl := actions[k].ttl;
      var s := Run(cfg, COLD, actions);
      var served := GetResult(LocalOf(s, i), s.redis, true, key, s.now);
      && (served.Some? <==> s.now < at + if ttl.Some? then ttl.value else cfg.timeout)
      && (served.Some? ==> served.value.value == actions[k].value)
  {
    RunAfter(cfg, actions, k);
    SharedStays(cfg, Apply(cfg, Run(cfg, COLD, actions[..k]), actions[k]), actions[k + 1..], key);
  }

  /** After a Delete that reached Redis, an instance without a fresh entry of its own misses. */
  lemma {:induction false} SharedDeleteMisses(cfg: Config, actions: seq<Action>, k: nat, i: nat, key: string, up: bool)
    requires ValidConfig(cfg) && LastAt(a => WritesShared(a, key), actions, k) && actions[k].Delete?
    requires var s := Run(cfg, COLD, actions); key in LocalOf(s, i) ==> s.now >= LocalOf(s, i)[key].expiresAt
    ensures var s := Run(cfg, COLD, actions); GetResult(LocalOf(s, i), s.redis, up, key, s.now) == None
  {
    RunAfter(cfg, actions, k);
    SharedStays(cfg, Apply(cfg, Run(cfg, COLD, actions[..k]), actions[k]), actions[k + 1..], key);
  }
}
