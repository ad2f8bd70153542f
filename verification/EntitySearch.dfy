/** The entity layer's token index and its counting intersection. */
module EntitySearch {
  import opened Collections

  datatype Entity = Entity(id: nat, tokens: seq<string>)

  /** The token table: one row for each token, the latest one inserted. */
  type Index = map<string, seq<nat>>

  // ----- tokens of a text -----

  const PUNCTUATION := ".,;:!?\"'()[]{}@#$%^&*+-=<>"

  predicate IsPunctuation(c: char) { c in PUNCTUATION }

  function TrimPunctuation(s: string): string { Trim(IsPunctuation, s) }

  /** A query word is used without its outer punctuation. */
  lemma {:induction false} TrimPunctuationIs(s: string) returns (i: nat, j: nat)
    ensures i <= j <= |s| && TrimPunctuation(s) == s[i..j]
    ensures forall k :: 0 <= k < i || j <= k < |s| ==> IsPunctuation(s[k])
    ensures i < j ==> !IsPunctuation(s[i]) && !IsPunctuation(s[j - 1])
  {
    i, j := TrimIs(IsPunctuation, s);
  }

  predicate NumericOnly(s: string) {
    forall i :: 0 <= i < |s| ==> '0' <= s[i] <= '9'
  }

  predicate Usable(token: string) {
    2 <= |token| <= 50 && !NumericOnly(token)
  }

  /** The usable words of a text, given as its lower-case words, each once. */
  method ExtractTokens(words: seq<string>) returns (tokens: seq<string>)
    ensures Distinct(tokens)
    ensures forall t :: t in tokens <==>
      && 2 <= |t| <= 50 && (exists k :: 0 <= k < |t| && !('0' <= t[k] <= '9'))
      && exists k :: 0 <= k < |words| && TrimPunctuation(words[k]) == t
  {
    var tokenMap: set<string> := {};
    for i := 0 to |words|
      invariant forall t :: t in tokenMap <==> Usable(t) && exists k :: 0 <= k < i && TrimPunctuation(words[k]) == t
    {
      var word := TrimPunctuation(words[i]);
      if Usable(word) {
        tokenMap := tokenMap + {word};
      }
    }
    tokens := [];
    var rest := tokenMap;
    while rest != {}
      invariant Distinct(tokens) && rest <= tokenMap
      invariant forall t :: t in tokens <==> t in tokenMap && t !in rest
      decreases rest
    {
      var token :| token in rest;
      DistinctSnoc(tokens, token);
      tokens := tokens + [token];
      rest := rest - {token};
    }
  }

  // ----- indexing one batch -----

  predicate Has(e: Entity, token: string) { token in e.tokens }

  /** The ids of the entities with a token, in the batch's order, once for each occurrence. */
  function IdsFor(entities: seq<Entity>, token: string): seq<nat> {
    if entities == [] then []
    else
      var n := |entities| - 1;
      IdsFor(entities[..n], token) + Repeated(entities[n], token, |entities[n].tokens|)
  }

  /** The entity's id for each occurrence of the token among its first `n` tokens. */
  function Repeated(e: Entity, token: string, n: nat): seq<nat>
    requires n <= |e.tokens|
  {
    if n == 0 then [] else Repeated(e, token, n - 1) + if e.tokens[n - 1] == token then [e.id] else []
  }

  function ListIn(index: Index, token: string): seq<nat> {
    if token in index then index[token] else []
  }

  ghost predicate MapsTo(m: Index, token: string, ids: seq<nat>) {
    ListIn(m, token) == ids && (token in m <==> ids != [])
  }

  /** The map after the first `k` tokens of an entity. */
  ghost predicate Extends(n: Index, m: Index, e: Entity, k: nat, token: string)
    requires k <= |e.tokens|
  {
    MapsTo(n, token, ListIn(m, token) + Repeated(e, token, k))
  }

  ghost predicate NoEmptyList(m: Index) {
    forall t :: t in m ==> m[t] != []
  }

  lemma {:induction false} ExtendsNext(n: Index, m: Index, e: Entity, k: nat, token: string)
    requires k < |e.tokens| && Extends(n, m, e, k, token)
    ensures Extends(n[e.tokens[k] := ListIn(n, e.tokens[k]) + [e.id]], m, e, k + 1, token)
  {
    var ids, more := ListIn(m, token), Repeated(e, token, k);
    assert Repeated(e, token, k + 1) == more + if e.tokens[k] == token then [e.id] else [];
    assert ids + (more + [e.id]) == ids + more + [e.id];
    assert more + [] == more;
  }

  ghost predicate ExtendsAll(n: Index, m: Index, e: Entity, k: nat)
    requires k <= |e.tokens|
  {
    forall t :: Extends(n, m, e, k, t)
  }

  lemma {:induction false} ExtendsAllNext(n: Index, m: Index, e: Entity, k: nat)
    requires k < |e.tokens| && ExtendsAll(n, m, e, k)
    ensures ExtendsAll(n[e.tokens[k] := ListIn(n, e.tokens[k]) + [e.id]], m, e, k + 1)
  {
    var next, after := n[e.tokens[k] := ListIn(n, e.tokens[k]) + [e.id]], k + 1;
    forall t
      ensures Extends(next, m, e, after, t)
    {
      assert Extends(n, m, e, k, t);
      ExtendsNext(n, m, e, k, t);
    }
  }

  lemma {:induction false} ExtendsNone(m: Index, e: Entity)
    requires NoEmptyList(m)
    ensures ExtendsAll(m, m, e, 0)
  {
    forall t
      ensures Extends(m, m, e, 0, t)
    {
      assert ListIn(m, t) + [] == ListIn(m, t);
      assert Repeated(e, t, 0) == [];
    }
  }

  method AddEntity(m: Index, e: Entity) returns (n: Index)
    requires NoEmptyList(m)
    ensures ExtendsAll(n, m, e, |e.tokens|)
  {
    n := m;
    ExtendsNone(m, e);
    for k := 0 to |e.tokens|
      invariant ExtendsAll(n, m, e, k)
    {
      ExtendsAllNext(n, m, e, k);
      var token := e.tokens[k];
      n := n[token := ListIn(n, token) + [e.id]];
    }
  }

  ghost predicate IsTokenMap(m: Index, entities: seq<Entity>) {
    forall t :: MapsTo(m, t, IdsFor(entities, t))
  }

  lemma {:induction false} TokenMapNext(before: Index, after: Index, entities: seq<Entity>, e: Entity)
    requires IsTokenMap(before, entities) && ExtendsAll(after, before, e, |e.tokens|)
    ensures IsTokenMap(after, entities + [e])
  {
    var all := entities + [e];
    assert all[..|entities|] == entities;
    forall t
      ensures MapsTo(after, t, IdsFor(all, t))
    {
      assert MapsTo(before, t, IdsFor(entities, t));
      assert Extends(after, before, e, |e.tokens|, t);
    }
  }

  method BuildTokenMap(entities: seq<Entity>) returns (m: Index)
    ensures forall t :: MapsTo(m, t, IdsFor(entities, t))
  {
    m := map[];
    for i := 0 to |entities|
      invariant IsTokenMap(m, entities[..i])
    {
      forall t | t in m
        ensures m[t] != []
      {
        assert MapsTo(m, t, IdsFor(entities[..i], t));
      }
      var next := AddEntity(m, entities[i]);
      TokenMapNext(m, next, entities[..i], entities[i]);
      assert entities[..i + 1] == entities[..i] + [entities[i]];
      m := next;
    }
    assert entities[..|entities|] == entities;
  }

  ghost predicate DistinctIds(entities: seq<Entity>) {
    forall i, j :: 0 <= i < j < |entities| ==> entities[i].id != entities[j].id
  }

  ghost predicate DistinctTokens(entities: seq<Entity>) {
    forall i :: 0 <= i < |entities| ==> Distinct(entities[i].tokens)
  }

  ghost predicate HasToken(entities: seq<Entity>, id: nat, token: string) {
    exists i :: 0 <= i < |entities| && entities[i].id == id && Has(entities[i], token)
  }

  lemma {:induction false} RepeatedNone(e: Entity, token: string, n: nat)
    requires n <= |e.tokens| && forall k :: 0 <= k < n ==> e.tokens[k] != token
    ensures Repeated(e, token, n) == []
  {
    if n > 0 {
      RepeatedNone(e, token, n - 1);
    }
  }

  lemma {:induction false} RepeatedAt(e: Entity, token: string, n: nat, k: nat)
    requires k < n <= |e.tokens| && Distinct(e.tokens) && e.tokens[k] == token
    ensures Repeated(e, token, n) == [e.id]
  {
    if k < n - 1 {
      RepeatedAt(e, token, n - 1, k);
    } else {
      RepeatedNone(e, token, n - 1);
    }
  }

  lemma {:induction false} RepeatedOnce(e: Entity, token: string, n: nat)
    requires n <= |e.tokens| && Distinct(e.tokens)
    ensures Repeated(e, token, n) == if token in e.tokens[..n] then [e.id] else []
  {
    if k :| 0 <= k < n && e.tokens[k] == token {
      RepeatedAt(e, token, n, k);
      assert e.tokens[..n][k] == token;
    } else {
      RepeatedNone(e, token, n);
    }
  }

  lemma {:induction false} HasTokenSnoc(entities: seq<Entity>, id: nat, token: string)
    requires entities != []
    ensures var n := |entities| - 1;
      HasToken(entities, id, token) <==>
        HasToken(entities[..n], id, token) || (entities[n].id == id && Has(entities[n], token))
  {
    var n := |entities| - 1;
    if HasToken(entities[..n], id, token) {
      var i :| 0 <= i < n && entities[..n][i].id == id && Has(entities[..n][i], token);
      assert entities[i].id == id && Has(entities[i], token);
    }
    if HasToken(entities, id, token) {
      var i :| 0 <= i < |entities| && entities[i].id == id && Has(entities[i], token);
      assert i < n ==> entities[..n][i].id == id && Has(entities[..n][i], token);
    }
  }

  /** A token's list names exactly the entities with the token, each once. */
  lemma {:induction false} ListsAreSets(entities: seq<Entity>, token: string)
    requires DistinctIds(entities) && DistinctTokens(entities)
    ensures Distinct(IdsFor(entities, token))
    ensures forall id :: id in IdsFor(entities, token) <==> HasToken(entities, id, token)
  {
    if entities != [] {
      var n := |entities| - 1;
      var e := entities[n];
      ListsAreSets(entities[..n], token);
      RepeatedOnce(e, token, |e.tokens|);
      assert e.tokens[..|e.tokens|] == e.tokens;
      assert !HasToken(entities[..n], e.id, token);
      forall id
        ensures id in IdsFor(entities, token) <==> HasToken(entities, id, token)
      {
        HasTokenSnoc(entities, id, token);
      }
    }
  }

  // ----- the counting intersection -----

  function Occurrences(ids: seq<nat>, id: nat): nat {
    if ids == [] then 0 else Occurrences(ids[..|ids| - 1], id) + if ids[|ids| - 1] == id then 1 else 0
  }

  /** The count of an id of the first list after the lists from 1 to `n - 1`. */
  function CountIn(sets: seq<seq<nat>>, n: nat, id: nat): nat
    requires 1 <= n <= |sets|
  {
    if n == 1 then 1 else CountIn(sets, n - 1, id) + Occurrences(sets[n - 1], id)
  }

  /** The map counts, for the ids of the first list, what has been met so far. */
  ghost predicate CountsTo(common: map<nat, nat>, sets: seq<seq<nat>>, n: nat, ids: seq<nat>)
    requires 1 <= n <= |sets|
  {
    && (forall id :: id in common <==> id in sets[0])
    && forall id :: id in common ==> common[id] == CountIn(sets, n, id) + Occurrences(ids, id)
  }

  method CountList(common: map<nat, nat>, sets: seq<seq<nat>>, i: nat) returns (next: map<nat, nat>)
    requires 1 <= i < |sets| && CountsTo(common, sets, i, [])
    ensures CountsTo(next, sets, i + 1, [])
  {
    next := common;
    for k := 0 to |sets[i]|
      invariant CountsTo(next, sets, i, sets[i][..k])
    {
      var id := sets[i][k];
      assert sets[i][..k + 1][..k] == sets[i][..k];
      if id in next {
        next := next[id := next[id] + 1];
      }
    }
    assert sets[i][..|sets[i]|] == sets[i];
  }

  /** Intersect by counting; exactly what it returns, for any lists. */
  method IntersectEntityIDs(sets: seq<seq<nat>>) returns (result: seq<nat>)
    ensures |sets| == 0 ==> result == []
    ensures |sets| == 1 ==> result == sets[0]
    ensures |sets| > 1 ==>
      Distinct(result) && forall id :: id in result <==> id in sets[0] && CountIn(sets, |sets|, id) == |sets|
  {
    if |sets| == 0 {
      return [];
    }
    if |sets| == 1 {
      return sets[0];
    }
    var common: map<nat, nat> := map id | id in sets[0] :: 1;
    for i := 1 to |sets|
      invariant CountsTo(common, sets, i, [])
    {
      common := CountList(common, sets, i);
    }
    result := [];
    var rest := common.Keys;
    while rest != {}
      invariant rest <= common.Keys && Distinct(result)
      invariant forall id :: id in result <==> id in common && id !in rest && common[id] == |sets|
      decreases rest
    {
      var id :| id in rest;
      if common[id] == |sets| {
        DistinctSnoc(result, id);
        result := result + [id];
      }
      rest := rest - {id};
    }
  }

  lemma {:induction false} OccursOnce(ids: seq<nat>, id: nat)
    requires Distinct(ids)
    ensures Occurrences(ids, id) == if id in ids then 1 else 0
  {
    if ids != [] {
      OccursOnce(ids[..|ids| - 1], id);
    }
  }

  ghost predicate AllDistinct(sets: seq<seq<nat>>) {
    forall i :: 0 <= i < |sets| ==> Distinct(sets[i])
  }

  ghost predicate InAll(sets: seq<seq<nat>>, n: nat, id: nat)
    requires n <= |sets|
  {
    forall i :: 0 <= i < n ==> id in sets[i]
  }

  /** The lists after the first are duplicate-free; ids repeated in the first count once anyway. */
  ghost predicate LaterDistinct(sets: seq<seq<nat>>) {
    forall i :: 1 <= i < |sets| ==> Distinct(sets[i])
  }

  /** With duplicate-free later lists the count is full exactly for the ids in every list. */
  lemma {:induction false} CountingIntersects(sets: seq<seq<nat>>, n: nat, id: nat)
    requires 1 <= n <= |sets| && LaterDistinct(sets) && id in sets[0]
    ensures CountIn(sets, n, id) <= n && (CountIn(sets, n, id) == n <==> InAll(sets, n, id))
  {
    if n > 1 {
      CountingIntersects(sets, n - 1, id);
      OccursOnce(sets[n - 1], id);
      assert InAll(sets, n, id) <==> InAll(sets, n - 1, id) && id in sets[n - 1];
    }
  }

  lemma {:induction false} OccursAtLeast(ids: seq<nat>, i: nat)
    requires i < |ids|
    ensures Occurrences(ids, ids[i]) >= 1
  {
    if i < |ids| - 1 {
      OccursAtLeast(ids[..|ids| - 1], i);
    }
  }

  lemma {:induction false} OccursTwice(ids: seq<nat>, i: nat, j: nat)
    requires i < j < |ids| && ids[i] == ids[j]
    ensures Occurrences(ids, ids[i]) >= 2
  {
    var n := |ids| - 1;
    if j < n {
      OccursTwice(ids[..n], i, j);
    } else {
      OccursAtLeast(ids[..n], i);
    }
  }

  lemma {:induction false} PairCount(first: seq<nat>, list: seq<nat>, id: nat)
    ensures CountIn([first, list], 2, id) == 1 + Occurrences(list, id)
  {
    assert CountIn([first, list], 1, id) == 1;
  }

  /** Counting against a list is intersecting with it, whatever the first list, exactly when the list
      is duplicate-free. */
  lemma {:induction false} CountingIntersectsIff(list: seq<nat>)
    ensures (forall first, id :: id in first ==> (CountIn([first, list], 2, id) == 2 <==> id in list)) <==>
      Distinct(list)
  {
    if Distinct(list) {
      forall first, id | id in first
        ensures CountIn([first, list], 2, id) == 2 <==> id in list
      {
        PairCount(first, list, id);
        OccursOnce(list, id);
      }
    } else {
      var i, j :| 0 <= i < j < |list| && list[i] == list[j];
      OccursTwice(list, i, j);
      PairCount([list[i]], list, list[i]);
      assert list[i] in [list[i]] && list[i] in list;
    }
  }

  /** Duplicates can also make up for a list that lacks the id: 1 is counted three times. */
  lemma {:induction false} DuplicatesMislead()
    ensures var sets := [[1], [1, 1], [2]]; CountIn(sets, 3, 1) == 3 && 1 in sets[0] && 1 !in sets[2]
  {
    var sets: seq<seq<nat>> := [[1], [1, 1], [2]];
    assert [1, 1][..1] == [1] && Occurrences([1], 1) == 1;
    assert Occurrences(sets[1], 1) == 2 && Occurrences(sets[2], 1) == 0;
    assert CountIn(sets, 2, 1) == 3;
  }

  // ----- the repository -----

  ghost predicate QueryToken(words: seq<string>, token: string) {
    Usable(token) && exists k :: 0 <= k < |words| && TrimPunctuation(words[k]) == token
  }

  method QueryTokens(words: seq<string>) returns (query: seq<string>)
    ensures forall t :: t in query <==> QueryToken(words, t)
  {
    query := ExtractTokens(words);
  }

  ghost predicate DistinctLists(index: Index) {
    forall t :: Distinct(ListIn(index, t))
  }

  /** Some query token is indexed, and the id is listed for each one that is. */
  ghost predicate Found(index: Index, words: seq<string>, id: nat) {
    && (exists t :: QueryToken(words, t) && ListIn(index, t) != [])
    && forall t :: QueryToken(words, t) && ListIn(index, t) != [] ==> id in ListIn(index, t)
  }

  /** The token table after one more batch: its lists replace those of the same tokens. */
  ghost predicate Replaced(after: Index, before: Index, entities: seq<Entity>) {
    forall t :: ListIn(after, t) == if IdsFor(entities, t) != [] then IdsFor(entities, t) else ListIn(before, t)
  }

  /** What a search with failing token lookups sees: those tokens look unindexed. */
  function Readable(index: Index, failing: set<string>): Index {
    map t | t in index && t !in failing :: index[t]
  }

  class EntityRepository {
    // search_entities by id, and search_tokens by token
    var entities: map<nat, Entity>
    var tokens: Index
    const enabled: bool

    constructor (enabled: bool)
      ensures this.enabled == enabled && entities == map[] && tokens == map[]
    {
      this.enabled := enabled;
      entities, tokens := map[], map[];
    }

    /** Index one batch with two sends; a refused send leaves what was sent before it. A disabled
        repository reports success without a send. */
    method BulkIndexEntities(batch: seq<Entity>, entitiesOk: bool, tokensOk: bool) returns (ok: bool)
      modifies this
      ensures ok <==> !enabled || batch == [] || (entitiesOk && tokensOk)
      ensures !enabled ==> entities == old(entities) && tokens == old(tokens)
      ensures enabled && entitiesOk ==>
        forall id :: id in entities <==> id in old(entities) || exists e :: e in batch && e.id == id
      ensures enabled && entitiesOk ==> forall id :: id in entities ==>
        (exists e :: e in batch && e.id == id && entities[id] == e) ||
          ((forall e :: e in batch ==> e.id != id) && id in old(entities) && entities[id] == old(entities)[id])
      ensures !entitiesOk && batch != [] ==> entities == old(entities)
      ensures enabled && ok ==> Replaced(tokens, old(tokens), batch)
      ensures !ok ==> tokens == old(tokens)
    {
      if !enabled || |batch| == 0 {
        return true;
      }
      if !entitiesOk {
        return false;
      }
      for i := 0 to |batch|
        invariant tokens == old(tokens)
        invariant forall id :: id in entities <==> id in old(entities) || exists e :: e in batch[..i] && e.id == id
        invariant forall id :: id in entities ==>
          (exists e :: e in batch[..i] && e.id == id && entities[id] == e) ||
            ((forall e :: e in batch[..i] ==> e.id != id) && id in old(entities) && entities[id] == old(entities)[id])
      {
        assert batch[..i + 1] == batch[..i] + [batch[i]];
        entities := entities[batch[i].id := batch[i]];
      }
      assert batch[..|batch|] == batch;
      if !tokensOk {
        return false;
      }
      var tokenEntityMap := BuildTokenMap(batch);
      forall t
        ensures ListIn(tokens + tokenEntityMap, t) ==
          if IdsFor(batch, t) != [] then IdsFor(batch, t) else ListIn(tokens, t)
      {
        assert MapsTo(tokenEntityMap, t, IdsFor(batch, t));
      }
      tokens := tokens + tokenEntityMap;
      ok := true;
    }

    /** The ids common to all indexed query tokens, provided the lists are duplicate-free; an error
        when the repository is disabled or the text has no usable word. A token whose lookup fails
        counts as not indexed. */
    method SearchIds(words: seq<string>, failing: set<string>) returns (ids: seq<nat>, ok: bool)
      ensures ok <==> enabled && exists t :: QueryToken(words, t)
      ensures !ok ==> ids == []
      ensures enabled && DistinctLists(tokens) ==>
        Distinct(ids) && forall id :: id in ids <==> Found(Readable(tokens, failing), words, id)
    {
      if !enabled {
        return [], false;
      }
      var query := QueryTokens(words);
      if |query| == 0 {
        return [], false;
      }
      assert query[0] in query;
      ok := true;
      var index := Readable(tokens, failing);
      var sets := GatherSets(index, query);
      ids := IntersectEntityIDs(sets);
      if DistinctLists(tokens) {
        assert forall t :: ListIn(index, t) == [] || ListIn(index, t) == ListIn(tokens, t);
        GatheredMeansFound(index, query, words, sets);
        IntersectionIs(sets, ids);
      }
    }

    /** The rows of the common ids: at most `2 * limit` of them are looked up, and the first `limit`
        whose rows are found and decode are returned; the count is that of the ids looked up. */
    method SearchThreeLayer(words: seq<string>, failing: set<string>, shown: set<nat>, limit: nat)
      returns (results: seq<nat>, count: nat, ok: bool, ghost common: seq<nat>)
      ensures ok <==> enabled && exists t :: QueryToken(words, t)
      ensures !ok ==> common == []
      ensures enabled && DistinctLists(tokens) ==>
        Distinct(common) && forall id :: id in common <==> Found(Readable(tokens, failing), words, id)
      ensures count == Min(|common|, 2 * limit)
      ensures results == Take(Filter((id: nat) => id in shown, Take(common, 2 * limit)), limit)
    {
      var commonEntityIDs;
      commonEntityIDs, ok := SearchIds(words, failing);
      common := commonEntityIDs;
      if |commonEntityIDs| > limit * 2 {
        commonEntityIDs := commonEntityIDs[..limit * 2];
      }
      count := |commonEntityIDs|;
      results := RowsOf(commonEntityIDs, shown, limit);
    }
  }

  /** Look the rows up one by one until there are enough. */
  method RowsOf(ids: seq<nat>, shown: set<nat>, limit: nat) returns (results: seq<nat>)
    ensures results == Take(Filter((id: nat) => id in shown, ids), limit)
  {
    var p := (id: nat) => id in shown;
    results := [];
    for i := 0 to |ids|
      invariant results == Filter(p, ids[..i]) && |results| <= limit
    {
      if |results| >= limit {
        assert ids == ids[..i] + ids[i..];
        FilterAppend(p, ids[..i], ids[i..]);
        return;
      }
      assert ids[..i + 1][..i] == ids[..i];
      if ids[i] in shown {
        results := results + [ids[i]];
      }
    }
    assert ids[..|ids|] == ids;
  }

  lemma {:induction false} IntersectionIs(sets: seq<seq<nat>>, ids: seq<nat>)
    requires AllDistinct(sets)
    requires |sets| == 0 ==> ids == []
    requires |sets| == 1 ==> ids == sets[0]
    requires |sets| > 1 ==>
      Distinct(ids) && forall id :: id in ids <==> id in sets[0] && CountIn(sets, |sets|, id) == |sets|
    ensures Distinct(ids) && forall id :: id in ids <==> sets != [] && InAll(sets, |sets|, id)
  {
    forall id
      ensures id in ids <==> sets != [] && InAll(sets, |sets|, id)
    {
      if |sets| > 0 && id in sets[0] {
        CountingIntersects(sets, |sets|, id);
      }
    }
  }

  ghost predicate IsListOf(index: Index, query: seq<string>, ids: seq<nat>, token: string) {
    token in query && ids != [] && ids == ListIn(index, token)
  }

  ghost predicate IsSomeList(index: Index, query: seq<string>, ids: seq<nat>) {
    exists t :: IsListOf(index, query, ids, t)
  }

  ghost predicate Gathered(index: Index, query: seq<string>, sets: seq<seq<nat>>) {
    && (forall k :: 0 <= k < |sets| ==> IsSomeList(index, query, sets[k]))
    && forall t :: t in query && ListIn(index, t) != [] ==> ListIn(index, t) in sets
  }

  /** The non-empty lists of the query tokens. */
  method GatherSets(index: Index, query: seq<string>) returns (sets: seq<seq<nat>>)
    ensures Gathered(index, query, sets)
  {
    sets := [];
    for i := 0 to |query|
      invariant Gathered(index, query[..i], sets)
    {
      var entityIDs := ListIn(index, query[i]);
      var more := sets;
      if |entityIDs| > 0 {
        more := sets + [entityIDs];
      }
      GatheredSnoc(index, query[..i], query[i], sets, query[..i + 1], more);
      sets := more;
    }
    assert query[..|query|] == query;
  }

  lemma {:induction false} GatheredSnoc(index: Index, query: seq<string>, token: string, sets: seq<seq<nat>>,
                                        all: seq<string>, more: seq<seq<nat>>)
    requires Gathered(index, query, sets) && all == query + [token]
    requires more == sets + if ListIn(index, token) != [] then [ListIn(index, token)] else []
    ensures Gathered(index, all, more)
  {
    forall t | t in all && ListIn(index, t) != []
      ensures ListIn(index, t) in more
    {
      if t in query {
        assert ListIn(index, t) in sets;
      } else {
        assert t == token && more[|sets|] == ListIn(index, token);
      }
    }
    forall k | 0 <= k < |more|
      ensures IsSomeList(index, all, more[k])
    {
      if k < |sets| {
        assert IsSomeList(index, query, sets[k]);
        var t :| IsListOf(index, query, sets[k], t);
        assert IsListOf(index, all, more[k], t);
      } else {
        assert all[|query|] == token;
        assert IsListOf(index, all, more[k], token);
      }
    }
  }

  lemma {:induction false} GatheredMeansFound(index: Index, query: seq<string>, words: seq<string>, sets: seq<seq<nat>>)
    requires DistinctLists(index) && Gathered(index, query, sets)
    requires forall t :: t in query <==> QueryToken(words, t)
    ensures AllDistinct(sets)
    ensures forall id :: Found(index, words, id) <==> sets != [] && InAll(sets, |sets|, id)
  {
    forall k | 0 <= k < |sets|
      ensures Distinct(sets[k])
    {
      assert IsSomeList(index, query, sets[k]);
      var t :| IsListOf(index, query, sets[k], t);
    }
    forall id
      ensures Found(index, words, id) <==> sets != [] && InAll(sets, |sets|, id)
    {
      FoundInAll(index, query, words, sets, id);
    }
  }

  lemma {:induction false} FoundInAll(index: Index, query: seq<string>, words: seq<string>, sets: seq<seq<nat>>,
                                      id: nat)
    requires Gathered(index, query, sets) && forall t :: t in query <==> QueryToken(words, t)
    ensures Found(index, words, id) <==> sets != [] && InAll(sets, |sets|, id)
  {
    if Found(index, words, id) {
      forall k | 0 <= k < |sets|
        ensures id in sets[k]
      {
        assert IsSomeList(index, query, sets[k]);
        var t :| IsListOf(index, query, sets[k], t);
      }
      var t :| QueryToken(words, t) && ListIn(index, t) != [];
      assert t in query;
    }
    if sets != [] && InAll(sets, |sets|, id) {
      assert IsSomeList(index, query, sets[0]);
      var t :| IsListOf(index, query, sets[0], t);
      assert QueryToken(words, t);
      forall t | QueryToken(words, t) && ListIn(index, t) != []
        ensures id in ListIn(index, t)
      {
        assert t in query;
        var k :| 0 <= k < |sets| && sets[k] == ListIn(index, t);
      }
    }
  }

  // ----- what a search finds -----

  /** After one batch of entities with distinct ids, a search finds exactly the entities that have
      every query token occurring in the batch. */
  lemma {:induction false} OneBatchSearch(index: Index, entities: seq<Entity>, words: seq<string>, id: nat)
    requires DistinctIds(entities) && DistinctTokens(entities) && Replaced(index, map[], entities)
    ensures DistinctLists(index)
    ensures Found(index, words, id) <==>
      && (exists t, x :: QueryToken(words, t) && HasToken(entities, x, t))
      && forall t :: QueryToken(words, t) && (exists x :: HasToken(entities, x, t)) ==> HasToken(entities, id, t)
  {
    forall t
      ensures Distinct(ListIn(index, t))
      ensures ListIn(index, t) != [] <==> exists x :: HasToken(entities, x, t)
      ensures id in ListIn(index, t) <==> HasToken(entities, id, t)
    {
      ListsAreSets(entities, t);
      assert ListIn(index, t) == IdsFor(entities, t);
      if ListIn(index, t) != [] {
        assert ListIn(index, t)[0] in IdsFor(entities, t);
      }
    }
  }

  /** Across batches the latest list of a token replaces the one before: an entity indexed earlier is
      still listed exactly when the latest batch with the token names it again. */
  lemma {:induction false} LatestBatchReplaces(before: Index, after: Index, entities: seq<Entity>, token: string,
                                               id: nat)
    requires DistinctIds(entities) && DistinctTokens(entities) && Replaced(after, before, entities)
    requires id in ListIn(before, token)
    ensures id in ListIn(after, token) <==>
      (forall x :: !HasToken(entities, x, token)) || HasToken(entities, id, token)
  {
    ListsAreSets(entities, token);
    if IdsFor(entities, token) != [] {
      assert IdsFor(entities, token)[0] in IdsFor(entities, token);
    }
  }
}
