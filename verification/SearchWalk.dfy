/** Following the search cursor page after page: order, completeness, and exactly what the walk
    delivers when some matching ids are tombstoned or belong to no registered table. */
module SearchWalk {
  import opened Collections
  import opened GlobalIds
  import opened SearchIndex
  import opened SearchPaging

  /** What one call of the search sees: the index, the registry's current listing order, and what it
      fails to read. */
  datatype Snapshot = Snapshot(store: Store, tables: seq<string>, down: Unread)

  ghost function LiveAt(fnv: HashFn, at: Snapshot, query: seq<string>, limit: nat, cursor: Option<nat>): seq<nat>
    requires query != []
  {
    LiveWindow(fnv, at.tables, at.down, at.store, Matching(fnv, at.store, query), limit, cursor)
  }

  /** All ids delivered by following NextCursor, one index snapshot per page. */
  ghost function Delivered(fnv: HashFn, query: seq<string>, limit: nat, pages: seq<Snapshot>,
                           cursor: Option<nat>): seq<nat>
    requires query != []
  {
    if pages == [] then []
    else
      var live := LiveAt(fnv, pages[0], query, limit, cursor);
      if 0 < limit < |live| then
        live[..limit] + Delivered(fnv, query, limit, pages[1..], Some(live[limit - 1]))
      else
        Take(live, limit)
  }

  /** What one call returned. */
  datatype Answer = Answer(page: seq<Hit>, next: Option<nat>, hasMore: bool)

  /** Answers of calls that follow one another's NextCursor, as long as there is one and there are
      snapshots left. */
  ghost predicate Answers(fnv: HashFn, query: seq<string>, limit: nat, pages: seq<Snapshot>, cursor: Option<nat>,
                          answers: seq<Answer>)
    requires query != []
    decreases |pages|
  {
    if pages == [] then answers == []
    else
      && answers != []
      && var at, a := pages[0], answers[0];
         && IsPage(fnv, at.tables, at.down, at.store, LiveAt(fnv, at, query, limit, cursor), limit,
                   a.page, a.next, a.hasMore)
         && if a.next.Some? then Answers(fnv, query, limit, pages[1..], a.next, answers[1..])
            else answers[1..] == []
  }

  function Shown(answers: seq<Answer>): seq<nat> {
    if answers == [] then [] else Ids(answers[0].page) + Shown(answers[1..])
  }

  /** The next answer continues after the last row shown. */
  lemma {:induction false} AnswerContinues(fnv: HashFn, at: Snapshot, live: seq<nat>, limit: nat, a: Answer)
    requires IsPage(fnv, at.tables, at.down, at.store, live, limit, a.page, a.next, a.hasMore)
    ensures a.next == if 0 < limit < |live| then Some(live[limit - 1]) else None
  {
    assert |a.page| == |Ids(a.page)| == |Take(live, limit)|;
    if 0 < limit < |live| {
      assert a.page[limit - 1].globalId == Ids(a.page)[limit - 1];
    }
  }

  /** The rows of the answers together are the ids delivered. */
  lemma {:induction false} AnswersDeliver(fnv: HashFn, query: seq<string>, limit: nat, pages: seq<Snapshot>,
                                          cursor: Option<nat>, answers: seq<Answer>)
    requires query != [] && Answers(fnv, query, limit, pages, cursor, answers)
    ensures Shown(answers) == Delivered(fnv, query, limit, pages, cursor)
    decreases |pages|
  {
    if pages != [] {
      var live, a, rest := LiveAt(fnv, pages[0], query, limit, cursor), answers[0], answers[1..];
      AnswerContinues(fnv, pages[0], live, limit, a);
      assert Shown(answers) == Take(live, limit) + Shown(rest);
      if a.next.Some? {
        AnswersDeliver(fnv, query, limit, pages[1..], a.next, rest);
      } else {
        assert rest == [] && Shown(rest) == [];
      }
    }
  }

  ghost predicate AllBelow(ids: seq<nat>, cursor: Option<nat>) {
    cursor.Some? ==> forall id :: id in ids ==> id < cursor.value
  }

  lemma {:induction false} WindowBelow(ids: set<nat>, cursor: Option<nat>, n: nat)
    ensures AllBelow(Window(ids, cursor, n), cursor)
  {
    var sorted := SortDesc(Below(ids, cursor));
    SortDescMembers(Below(ids, cursor));
    assert forall id :: id in Take(sorted, n) ==> id in sorted;
  }

  lemma {:induction false} FilterBelow(p: nat -> bool, ids: seq<nat>, cursor: Option<nat>)
    requires Descending(ids) && AllBelow(ids, cursor)
    ensures Descending(Filter(p, ids)) && AllBelow(Filter(p, ids), cursor)
  {
    FilterDescending(p, ids);
    FilterMembers(p, ids);
  }

  lemma {:induction false} LiveAtBelow(fnv: HashFn, at: Snapshot, query: seq<string>, limit: nat, cursor: Option<nat>)
    requires query != []
    ensures Descending(LiveAt(fnv, at, query, limit, cursor)) && AllBelow(LiveAt(fnv, at, query, limit, cursor), cursor)
  {
    var matching := Matching(fnv, at.store, query);
    WindowDescends(matching, cursor, limit + 1);
    WindowBelow(matching, cursor, limit + 1);
    FilterBelow((id: nat) => Live(fnv, at.tables, at.down, at.store, id), Window(matching, cursor, limit + 1), cursor);
  }

  lemma {:induction false} TakeBelow(ids: seq<nat>, n: nat, cursor: Option<nat>)
    requires Descending(ids) && AllBelow(ids, cursor)
    ensures Descending(Take(ids, n)) && AllBelow(Take(ids, n), cursor)
  {
    assert forall id :: id in Take(ids, n) ==> id in ids;
  }

  lemma {:induction false} DescendingConcat(a: seq<nat>, b: seq<nat>)
    requires Descending(a) && Descending(b) && a != []
    requires forall id :: id in b ==> id < a[|a| - 1]
    ensures Descending(a + b)
  {
    forall i, j | 0 <= i < j < |a + b|
      ensures (a + b)[i] > (a + b)[j]
    {
      if i < |a| <= j {
        assert (a + b)[j] in b;
        assert a[i] >= a[|a| - 1];
      }
    }
  }

  lemma {:induction false} PageThenRest(page: seq<nat>, rest: seq<nat>, cursor: Option<nat>)
    requires page != [] && Descending(page) && Descending(rest) && AllBelow(page, cursor)
    requires AllBelow(rest, Some(page[|page| - 1]))
    ensures Descending(page + rest) && AllBelow(page + rest, cursor)
  {
    DescendingConcat(page, rest);
    assert page[|page| - 1] in page;
    assert forall id :: id in page + rest <==> id in page || id in rest;
  }

  /** Following the cursor never repeats an id and never goes up, however the index, its
      tombstones and the registry change between the pages. */
  lemma {:induction false} WalkDescends(fnv: HashFn, query: seq<string>, limit: nat, pages: seq<Snapshot>,
                                        cursor: Option<nat>)
    requires query != []
    ensures Descending(Delivered(fnv, query, limit, pages, cursor)) &&
      AllBelow(Delivered(fnv, query, limit, pages, cursor), cursor)
    decreases |pages|
  {
    if pages != [] {
      var live := LiveAt(fnv, pages[0], query, limit, cursor);
      LiveAtBelow(fnv, pages[0], query, limit, cursor);
      TakeBelow(live, limit, cursor);
      var page := Take(live, limit);
      if 0 < limit < |live| {
        var last := live[limit - 1];
        WalkDescends(fnv, query, limit, pages[1..], Some(last));
        var rest := Delivered(fnv, query, limit, pages[1..], Some(last));
        PageThenRest(page, rest, cursor);
        assert Delivered(fnv, query, limit, pages, cursor) == page + rest;
      } else {
        assert Delivered(fnv, query, limit, pages, cursor) == page;
      }
    }
  }

  // ----- ids that stay are delivered -----

  /** The walk ends: some page reports no more. */
  ghost predicate Ends(fnv: HashFn, query: seq<string>, limit: nat, pages: seq<Snapshot>, cursor: Option<nat>)
    requires query != []
    decreases |pages|
  {
    && pages != []
    && var live := LiveAt(fnv, pages[0], query, limit, cursor);
       0 < limit < |live| ==> Ends(fnv, query, limit, pages[1..], Some(live[limit - 1]))
  }

  /** The id matches at every page, and at every page all matches are live. */
  ghost predicate StaysLive(fnv: HashFn, query: seq<string>, pages: seq<Snapshot>, id: nat)
    requires query != []
  {
    forall i :: 0 <= i < |pages| ==>
      var at := pages[i];
      && id in Matching(fnv, at.store, query)
      && forall m :: m in Matching(fnv, at.store, query) ==> Live(fnv, at.tables, at.down, at.store, m)
  }

  /** A window of live matches is not thinned out. */
  lemma {:induction false} AllLiveWindow(fnv: HashFn, at: Snapshot, query: seq<string>, limit: nat, cursor: Option<nat>)
    requires query != []
    requires forall m :: m in Matching(fnv, at.store, query) ==> Live(fnv, at.tables, at.down, at.store, m)
    ensures LiveAt(fnv, at, query, limit, cursor) == Window(Matching(fnv, at.store, query), cursor, limit + 1)
  {
    var matching := Matching(fnv, at.store, query);
    var window := Window(matching, cursor, limit + 1);
    SortDescMembers(Below(matching, cursor));
    assert forall m :: m in window ==> m in SortDesc(Below(matching, cursor));
    FilterAll((id: nat) => Live(fnv, at.tables, at.down, at.store, id), window);
  }

  /** A matching id below the cursor is on the page, or below all of it with more to come. */
  lemma {:induction false} InWindowOrBelow(matching: set<nat>, cursor: Option<nat>, limit: nat, id: nat)
    requires limit > 0 && id in Below(matching, cursor)
    ensures var window := Window(matching, cursor, limit + 1);
      id in Take(window, limit) || (|window| > limit && id < window[limit - 1])
  {
    var ids := SortDesc(Below(matching, cursor));
    SortDescMembers(Below(matching, cursor));
    SortDescSorts(Below(matching, cursor));
    var k :| 0 <= k < |ids| && ids[k] == id;
    if k < limit {
      assert Take(Take(ids, limit + 1), limit)[k] == id;
    }
  }

  lemma {:induction false} StaysLiveLater(fnv: HashFn, query: seq<string>, pages: seq<Snapshot>, id: nat)
    requires query != [] && pages != [] && StaysLive(fnv, query, pages, id)
    ensures StaysLive(fnv, query, pages[1..], id)
  {
    assert forall i :: 0 <= i < |pages[1..]| ==> pages[1..][i] == pages[i + 1];
  }

  /** Over an index that changes between the pages: while all matches are live, an id that matches at
      every page of a walk that ends is delivered; by WalkDescends exactly once. */
  lemma {:induction false} StableMatchDelivered(fnv: HashFn, query: seq<string>, limit: nat, pages: seq<Snapshot>,
                                                cursor: Option<nat>, id: nat)
    requires query != [] && limit > 0 && Ends(fnv, query, limit, pages, cursor)
    requires StaysLive(fnv, query, pages, id) && (cursor.Some? ==> id < cursor.value)
    ensures id in Delivered(fnv, query, limit, pages, cursor)
    decreases |pages|
  {
    var live := LiveAt(fnv, pages[0], query, limit, cursor);
    AllLiveWindow(fnv, pages[0], query, limit, cursor);
    InWindowOrBelow(Matching(fnv, pages[0].store, query), cursor, limit, id);
    if id !in Take(live, limit) {
      StaysLiveLater(fnv, query, pages, id);
      StableMatchDelivered(fnv, query, limit, pages[1..], Some(live[limit - 1]), id);
    }
  }

  // ----- the walk over an index that does not change -----

  /** The walk as a function of the descending list of remaining matching ids. */
  function ListWalk(live: nat -> bool, ids: seq<nat>, limit: nat): seq<nat>
    requires limit > 0
  {
    var found := Filter(live, Take(ids, limit + 1));
    if |found| > limit then found[..limit] + ListWalk(live, ids[limit..], limit) else found
  }

  /** `d` is the position of the first id that is not live, or the end of the list. */
  ghost predicate FirstDead(live: nat -> bool, ids: seq<nat>, d: nat) {
    && d <= |ids|
    && (forall i :: 0 <= i < d ==> live(ids[i]))
    && (d < |ids| ==> !live(ids[d]))
  }

  /** The end of the first page window that contains position `d`; page k's window covers the
      positions from k * limit to (k + 1) * limit, both included. */
  function WindowEnd(d: nat, limit: nat): (end: nat)
    requires limit > 0
    ensures d < end && limit < end
  {
    if d <= limit then limit + 1 else limit + WindowEnd(d - limit, limit)
  }

  /** How many of `n` matching ids the walk ever looks at, when the first dead one is at `d`. The
      page whose `limit + 1` ids include it looks complete, so the walk stops there. */
  function StopsAt(d: nat, n: nat, limit: nat): (r: nat)
    requires limit > 0
    ensures r <= n
  {
    if d >= n then n else Min(WindowEnd(d, limit), n)
  }

  lemma {:induction false} FilterAll<T>(p: T -> bool, xs: seq<T>)
    requires forall x :: x in xs ==> p(x)
    ensures Filter(p, xs) == xs
  {
    if xs != [] {
      var n := |xs| - 1;
      assert xs[n] in xs;
      FilterAll(p, xs[..n]);
      assert xs == xs[..n] + [xs[n]];
    }
  }

  lemma {:induction false} FilterShorter<T>(p: T -> bool, xs: seq<T>, k: nat)
    requires k < |xs| && !p(xs[k])
    ensures |Filter(p, xs)| < |xs|
  {
    if k < |xs| - 1 {
      FilterShorter(p, xs[..|xs| - 1], k);
    }
  }

  lemma FirstDeadLater(live: nat -> bool, ids: seq<nat>, d: nat, k: nat)
    requires FirstDead(live, ids, d) && k <= d
    ensures FirstDead(live, ids[k..], d - k)
  {
  }

  lemma {:induction false} DeadEndsWalk(live: nat -> bool, ids: seq<nat>, limit: nat, d: nat)
    requires 0 < limit < |ids| && FirstDead(live, ids, d) && d <= limit
    ensures Delivers(live, ids, limit, limit + 1)
  {
    FilterShorter(live, ids[..limit + 1], d);
    assert Take(ids, limit + 1) == ids[..limit + 1];
  }

  lemma {:induction false} FullWindowContinues(live: nat -> bool, ids: seq<nat>, limit: nat, d: nat)
    requires 0 < limit < |ids| && FirstDead(live, ids, d) && limit < d
    ensures ListWalk(live, ids, limit) == ids[..limit] + ListWalk(live, ids[limit..], limit)
  {
    LivePrefix(live, ids, limit + 1, d);
    assert Take(ids, limit + 1) == ids[..limit + 1];
    assert ids[..limit + 1][..limit] == ids[..limit];
  }

  lemma StopsLater(d: nat, n: nat, limit: nat)
    requires 0 < limit < n && limit < d
    ensures StopsAt(d, n, limit) == limit + StopsAt(d - limit, n - limit, limit)
  {
  }

  /** The walk delivers exactly the live ones of the first `r` ids. */
  ghost predicate Delivers(live: nat -> bool, ids: seq<nat>, limit: nat, r: nat)
    requires limit > 0
  {
    r <= |ids| && ListWalk(live, ids, limit) == Filter(live, ids[..r])
  }

  lemma {:induction false} ContinuedDelivers(live: nat -> bool, ids: seq<nat>, limit: nat, d: nat, r: nat)
    requires 0 < limit < |ids| && FirstDead(live, ids, d) && limit < d
    requires Delivers(live, ids[limit..], limit, r)
    ensures Delivers(live, ids, limit, limit + r)
  {
    FullWindowContinues(live, ids, limit, d);
    PrependLive(live, ids, limit, r, d);
  }

  lemma {:induction false} ShortListDelivers(live: nat -> bool, ids: seq<nat>, limit: nat)
    requires limit > 0 && |ids| <= limit
    ensures Delivers(live, ids, limit, |ids|)
  {
    assert ids[..|ids|] == ids;
  }

  lemma StopsEarly(d: nat, n: nat, limit: nat)
    requires limit > 0 && d <= n
    ensures n <= limit ==> StopsAt(d, n, limit) == n
    ensures d <= limit < n ==> StopsAt(d, n, limit) == limit + 1
  {
  }

  lemma {:induction false} EndsEarly(live: nat -> bool, ids: seq<nat>, limit: nat, d: nat)
    requires limit > 0 && FirstDead(live, ids, d) && (|ids| <= limit || d <= limit)
    ensures Delivers(live, ids, limit, StopsAt(d, |ids|, limit))
  {
    StopsEarly(d, |ids|, limit);
    if |ids| <= limit {
      ShortListDelivers(live, ids, limit);
    } else {
      DeadEndsWalk(live, ids, limit, d);
    }
  }

  lemma {:induction false} WalkStops(live: nat -> bool, ids: seq<nat>, limit: nat, d: nat, stop: nat)
    requires limit > 0 && FirstDead(live, ids, d) && stop == StopsAt(d, |ids|, limit)
    ensures Delivers(live, ids, limit, stop)
    decreases |ids|
  {
    if |ids| <= limit || d <= limit {
      EndsEarly(live, ids, limit, d);
    } else {
      var later := StopsAt(d - limit, |ids| - limit, limit);
      StopsLater(d, |ids|, limit);
      FirstDeadLater(live, ids, d, limit);
      WalkStops(live, ids[limit..], limit, d - limit, later);
      ContinuedDelivers(live, ids, limit, d, later);
    }
  }

  /** The walk delivers exactly the live ids among those it looks at. */
  lemma {:induction false} WalkDelivers(live: nat -> bool, ids: seq<nat>, limit: nat, d: nat)
    requires limit > 0 && FirstDead(live, ids, d)
    ensures ListWalk(live, ids, limit) == Filter(live, ids[..StopsAt(d, |ids|, limit)])
  {
    WalkStops(live, ids, limit, d, StopsAt(d, |ids|, limit));
  }

  lemma {:induction false} LivePrefix(live: nat -> bool, ids: seq<nat>, k: nat, d: nat)
    requires FirstDead(live, ids, d) && k <= d
    ensures Filter(live, ids[..k]) == ids[..k]
  {
    forall x | x in ids[..k]
      ensures live(x)
    {
      var i :| 0 <= i < k && ids[i] == x;
    }
    FilterAll(live, ids[..k]);
  }

  lemma {:induction false} PrependLive(live: nat -> bool, ids: seq<nat>, k: nat, r: nat, d: nat)
    requires k + r <= |ids| && FirstDead(live, ids, d) && k <= d
    ensures Filter(live, ids[..k + r]) == ids[..k] + Filter(live, ids[k..][..r])
  {
    LivePrefix(live, ids, k, d);
    FilterAppend(live, ids[..k], ids[k..][..r]);
    assert ids[..k + r] == ids[..k] + ids[k..][..r];
  }

  /** All live matching ids are delivered exactly when none lies where the walk never looks. */
  lemma {:induction false} WalkCompleteIff(live: nat -> bool, ids: seq<nat>, limit: nat, d: nat)
    requires limit > 0 && FirstDead(live, ids, d)
    ensures ListWalk(live, ids, limit) == Filter(live, ids) <==>
      forall i :: StopsAt(d, |ids|, limit) <= i < |ids| ==> !live(ids[i])
  {
    var r := StopsAt(d, |ids|, limit);
    WalkDelivers(live, ids, limit, d);
    FilterAppend(live, ids[..r], ids[r..]);
    assert ids == ids[..r] + ids[r..];
    if forall i :: r <= i < |ids| ==> !live(ids[i]) {
      FilterNone(live, ids[r..]);
    } else {
      var i :| r <= i < |ids| && live(ids[i]);
      FilterMembers(live, ids[r..]);
      assert ids[r..][i - r] in ids[r..];
    }
  }

  // ----- the cursor walk is the list walk -----

  /** All ids delivered by following NextCursor over one snapshot. */
  ghost function StaticWalk(live: nat -> bool, matching: set<nat>, limit: nat, cursor: Option<nat>): seq<nat>
    requires limit > 0
    decreases Below(matching, cursor)
  {
    var found := Filter(live, Window(matching, cursor, limit + 1));
    if |found| > limit then
      WindowNext(live, matching, limit, cursor);
      found[..limit] + StaticWalk(live, matching, limit, Some(found[limit - 1]))
    else found
  }

  /** A full window is all live, and the next page's ids are those after the first `limit`. */
  lemma {:induction false} WindowNext(live: nat -> bool, matching: set<nat>, limit: nat, cursor: Option<nat>)
    requires limit > 0 && |Filter(live, Window(matching, cursor, limit + 1))| > limit
    ensures var ids := SortDesc(Below(matching, cursor));
      var found := Filter(live, Window(matching, cursor, limit + 1));
      && |ids| > limit && found[..limit] == ids[..limit]
      && SortDesc(Below(matching, Some(found[limit - 1]))) == ids[limit..]
      && Below(matching, Some(found[limit - 1])) < Below(matching, cursor)
  {
    var below := Below(matching, cursor);
    var ids := SortDesc(below);
    var window := Window(matching, cursor, limit + 1);
    FullWindowLive(live, window);
    SortDescSorts(below);
    SortDescMembers(below);
    var last := ids[limit - 1];
    assert last in ids;
    SuffixBelow(matching, cursor, limit);
  }

  /** The ids below the last one of a page are those listed after it. */
  lemma {:induction false} SuffixBelow(matching: set<nat>, cursor: Option<nat>, k: nat)
    requires 0 < k <= |SortDesc(Below(matching, cursor))|
    ensures var ids := SortDesc(Below(matching, cursor)); SortDesc(Below(matching, Some(ids[k - 1]))) == ids[k..]
  {
    var below := Below(matching, cursor);
    var ids := SortDesc(below);
    SortDescSorts(below);
    SortDescMembers(below);
    var after := Below(matching, Some(ids[k - 1]));
    assert ids[k - 1] in ids;
    SortDescSorts(after);
    SortDescMembers(after);
    forall id
      ensures id in after <==> id in ids[k..]
    {
      InSuffix(ids, k, id);
    }
    DescendingUnique(SortDesc(after), ids[k..]);
  }

  lemma {:induction false} InSuffix(ids: seq<nat>, k: nat, id: nat)
    requires Descending(ids) && 0 < k <= |ids|
    ensures id in ids[k..] <==> id in ids && id < ids[k - 1]
  {
    if id in ids && id < ids[k - 1] {
      var i :| 0 <= i < |ids| && ids[i] == id;
      assert i >= k;
      assert ids[k..][i - k] == id;
    }
  }

  lemma {:induction false} FullWindowLive(live: nat -> bool, window: seq<nat>)
    requires |Filter(live, window)| == |window|
    ensures Filter(live, window) == window
  {
    if k :| 0 <= k < |window| && !live(window[k]) {
      FilterShorter(live, window, k);
    }
    FilterAll(live, window);
  }

  lemma {:induction false} StaticWalkIsListWalk(live: nat -> bool, matching: set<nat>, limit: nat, cursor: Option<nat>)
    requires limit > 0
    ensures StaticWalk(live, matching, limit, cursor) == ListWalk(live, SortDesc(Below(matching, cursor)), limit)
    decreases Below(matching, cursor)
  {
    var found := Filter(live, Window(matching, cursor, limit + 1));
    if |found| > limit {
      WindowNext(live, matching, limit, cursor);
      StaticWalkIsListWalk(live, matching, limit, Some(found[limit - 1]));
    }
  }

  lemma {:induction false} SmallerSet(a: set<nat>, b: set<nat>)
    requires a < b
    ensures |a| < |b|
  {
    var x :| x in b && x !in a;
    assert x in b - a;
    assert b == a + (b - a);
  }

  ghost predicate Unchanged(pages: seq<Snapshot>, at: Snapshot) {
    forall i :: 0 <= i < |pages| ==> pages[i] == at
  }

  /** Following the cursor over an unchanging index, for enough pages, is the static walk. */
  lemma {:induction false} UnchangedWalk(fnv: HashFn, at: Snapshot, query: seq<string>, limit: nat,
                                         pages: seq<Snapshot>, cursor: Option<nat>)
    requires limit > 0 && query != [] && Unchanged(pages, at)
    requires |Below(Matching(fnv, at.store, query), cursor)| < |pages|
    ensures var live := (id: nat) => Live(fnv, at.tables, at.down, at.store, id);
      Delivered(fnv, query, limit, pages, cursor) == StaticWalk(live, Matching(fnv, at.store, query), limit, cursor)
    decreases |pages|
  {
    var live := (id: nat) => Live(fnv, at.tables, at.down, at.store, id);
    var matching := Matching(fnv, at.store, query);
    var found := LiveAt(fnv, at, query, limit, cursor);
    assert found == Filter(live, Window(matching, cursor, limit + 1));
    if |found| > limit {
      WindowNext(live, matching, limit, cursor);
      var next := Some(found[limit - 1]);
      SmallerSet(Below(matching, next), Below(matching, cursor));
      UnchangedWalk(fnv, at, query, limit, pages[1..], next);
    }
  }

  /** Over an unchanging index with no tombstoned or unknown id among the matches, the pages
      together are exactly all matching ids, each once, in descending order. */
  lemma {:induction false} SearchWalkComplete(fnv: HashFn, at: Snapshot, query: seq<string>, limit: nat,
                                              pages: seq<Snapshot>)
    requires limit > 0 && query != [] && Unchanged(pages, at)
    requires |Matching(fnv, at.store, query)| < |pages|
    requires forall id :: id in Matching(fnv, at.store, query) ==> Live(fnv, at.tables, at.down, at.store, id)
    ensures Delivered(fnv, query, limit, pages, None) == SortDesc(Matching(fnv, at.store, query))
  {
    var live := (id: nat) => Live(fnv, at.tables, at.down, at.store, id);
    var matching := Matching(fnv, at.store, query);
    var ids := SortDesc(matching);
    UnchangedWalk(fnv, at, query, limit, pages, None);
    StaticWalkIsListWalk(live, matching, limit, None);
    SortDescMembers(matching);
    forall i | 0 <= i < |ids|
      ensures live(ids[i])
    {
      assert ids[i] in ids;
    }
    WalkCompleteIff(live, ids, limit, |ids|);
    FilterAll(live, ids);
  }

  /** The exact condition: the pages deliver every live matching id exactly when no live one lies
      beyond the page window that contains the first tombstoned or unknown match. */
  lemma {:induction false} SearchWalkCompleteIff(fnv: HashFn, at: Snapshot, query: seq<string>, limit: nat,
                                                 pages: seq<Snapshot>, d: nat)
    requires limit > 0 && query != [] && Unchanged(pages, at)
    requires |Matching(fnv, at.store, query)| < |pages|
    requires FirstDead((id: nat) => Live(fnv, at.tables, at.down, at.store, id),
      SortDesc(Matching(fnv, at.store, query)), d)
    ensures var ids := SortDesc(Matching(fnv, at.store, query));
      Delivered(fnv, query, limit, pages, None) ==
        Filter((id: nat) => Live(fnv, at.tables, at.down, at.store, id), ids) <==>
      forall i :: StopsAt(d, |ids|, limit) <= i < |ids| ==> !Live(fnv, at.tables, at.down, at.store, ids[i])
  {
    var live := (id: nat) => Live(fnv, at.tables, at.down, at.store, id);
    var matching := Matching(fnv, at.store, query);
    UnchangedWalk(fnv, at, query, limit, pages, None);
    StaticWalkIsListWalk(live, matching, limit, None);
    WalkCompleteIff(live, SortDesc(matching), limit, d);
  }
}
