/** Paged search over the bitmap index: ids in descending order, one page per call, continued
    from the last id of the page before. */
module SearchPaging {
  import opened Collections
  import opened GlobalIds
  import opened SearchIndex

  /** A search result row, rebuilt from the packed id and the main row behind it. */
  datatype Hit = Hit(globalId: nat, table: string, localId: nat, record: Record)

  // ----- descending lists of ids -----

  ghost predicate Descending(ids: seq<nat>) {
    forall i, j :: 0 <= i < j < |ids| ==> ids[i] > ids[j]
  }

  /** The elements of a set from the largest down. */
  ghost function SortDesc(ids: set<nat>): seq<nat> {
    if ids == {} then [] else [MaxOf(ids)] + SortDesc(ids - {MaxOf(ids)})
  }

  lemma {:induction false} SortDescMembers(ids: set<nat>)
    ensures forall x :: x in SortDesc(ids) <==> x in ids
  {
    if ids != {} {
      SortDescMembers(ids - {MaxOf(ids)});
    }
  }

  lemma {:induction false} SortDescSorts(ids: set<nat>)
    ensures Descending(SortDesc(ids))
  {
    if ids != {} {
      var rest := ids - {MaxOf(ids)};
      SortDescSorts(rest);
      SortDescMembers(rest);
      forall j | 0 <= j < |SortDesc(rest)|
        ensures SortDesc(rest)[j] < MaxOf(ids)
      {
        assert SortDesc(rest)[j] in SortDesc(rest);
      }
    }
  }

  /** A descending list is determined by its elements. */
  lemma {:induction false} DescendingUnique(a: seq<nat>, b: seq<nat>)
    requires Descending(a) && Descending(b) && Elements(a) == Elements(b)
    ensures a == b
  {
    assert (a != [] ==> a[0] in Elements(b)) && (b != [] ==> b[0] in Elements(a));
    if a != [] {
      assert a[0] in Elements(b);
      assert b[0] in Elements(a);
      assert forall x :: x in Elements(a[1..]) <==> x in Elements(a) && x != a[0];
      assert forall x :: x in Elements(b[1..]) <==> x in Elements(b) && x != b[0];
      DescendingUnique(a[1..], b[1..]);
    }
  }

  function Below(ids: set<nat>, cursor: Option<nat>): set<nat> {
    if cursor.None? then ids else set id | id in ids && id < cursor.value
  }

  /** SELECT id WHERE id < cursor ORDER BY id DESC LIMIT n. */
  ghost function Window(ids: set<nat>, cursor: Option<nat>, n: nat): seq<nat> {
    Take(SortDesc(Below(ids, cursor)), n)
  }

  method LargestOf(ids: set<nat>) returns (m: nat)
    requires ids != {}
    ensures m == MaxOf(ids)
  {
    m :| m in ids;
    var rest := ids - {m};
    while rest != {}
      invariant rest <= ids && m in ids
      invariant forall x :: x in ids ==> x in rest || x <= m
      decreases rest
    {
      var x :| x in rest;
      if m < x {
        m := x;
      }
      rest := rest - {x};
    }
  }

  method QueryIds(ids: set<nat>, cursor: Option<nat>, n: nat) returns (r: seq<nat>)
    ensures r == Window(ids, cursor, n)
  {
    r := [];
    var rest := Below(ids, cursor);
    while rest != {} && |r| < n
      invariant |r| <= n && SortDesc(Below(ids, cursor)) == r + SortDesc(rest)
      decreases rest
    {
      var m := LargestOf(rest);
      assert r + SortDesc(rest) == (r + [m]) + SortDesc(rest - {m});
      r := r + [m];
      rest := rest - {m};
    }
    assert rest == {} ==> r + SortDesc(rest) == r;
  }

  // ----- looking up the rows -----

  /** The registered table a packed id belongs to. */
  function TableOf(fnv: HashFn, tables: seq<string>, id: nat): string {
    GetTableName(fnv, tables, ExtractTableId(id))
  }

  /** What a call fails to read: tables whose lookup query fails, and ids whose row does not scan or
      decode. */
  datatype Unread = Unread(tables: set<string>, rows: set<nat>)

  /** The id leads to a main row of a registered table that is not deleted and that is read. */
  predicate Live(fnv: HashFn, tables: seq<string>, down: Unread, s: Store, id: nat) {
    var table := TableOf(fnv, tables, id);
    && table != "unknown" && table !in down.tables && id !in down.rows
    && RowKey(table, id) in s.main && !s.main[RowKey(table, id)].deleted
  }

  /** An id is shown exactly when it is that of a row of some registered table, by the table's id,
      whose main row is not deleted, and both the table and the row are read. */
  lemma {:induction false} LiveIff(fnv: HashFn, tables: seq<string>, down: Unread, s: Store, id: nat)
    requires DistinctTableIds(fnv, set t | t in tables) && "unknown" !in tables
    ensures Live(fnv, tables, down, s, id) <==>
      exists t :: t in tables && TableId(fnv, t) == ExtractTableId(id) &&
        t !in down.tables && id !in down.rows && RowKey(t, id) in s.main && !s.main[RowKey(t, id)].deleted
  {
    if t :| t in tables && TableId(fnv, t) == ExtractTableId(id) {
      GetTableNameFinds(fnv, tables, t);
    } else {
      GetTableNameMisses(fnv, tables, ExtractTableId(id));
    }
  }

  lemma {:induction false} GetTableNameMisses(fnv: HashFn, tables: seq<string>, tableId: nat)
    requires forall t :: t in tables ==> TableId(fnv, t) != tableId
    ensures GetTableName(fnv, tables, tableId) == "unknown"
  {
    if tables != [] {
      GetTableNameMisses(fnv, tables[1..], tableId);
    }
  }

  /** The hit is the live row of its id. */
  predicate IsHit(fnv: HashFn, tables: seq<string>, down: Unread, s: Store, h: Hit) {
    && Live(fnv, tables, down, s, h.globalId)
    && h.table == TableOf(fnv, tables, h.globalId)
    && h.localId == ExtractLocalId(h.globalId)
    && h.record == s.main[RowKey(h.table, h.globalId)]
  }

  function Ids(hits: seq<Hit>): seq<nat> {
    seq(|hits|, i requires 0 <= i < |hits| => hits[i].globalId)
  }

  predicate OfTable(fnv: HashFn, tables: seq<string>, table: string, id: nat) {
    TableOf(fnv, tables, id) == table
  }

  function GroupOf(groups: map<string, seq<nat>>, table: string): seq<nat> {
    if table in groups then groups[table] else []
  }

  /** The ids of one table, in order. */
  function IdsOf(fnv: HashFn, tables: seq<string>, table: string, ids: seq<nat>): seq<nat> {
    Filter((id: nat) => OfTable(fnv, tables, table, id), ids)
  }

  lemma {:induction false} IdsOfSnoc(fnv: HashFn, tables: seq<string>, table: string, ids: seq<nat>, i: nat)
    requires i < |ids|
    ensures IdsOf(fnv, tables, table, ids[..i + 1]) ==
      IdsOf(fnv, tables, table, ids[..i]) + if OfTable(fnv, tables, table, ids[i]) then [ids[i]] else []
  {
    assert ids[..i + 1][..i] == ids[..i];
  }

  /** Group ids by table; ids of unregistered tables are dropped. */
  method GroupByTable(fnv: HashFn, tables: seq<string>, ids: seq<nat>) returns (idsByTable: map<string, seq<nat>>)
    ensures "unknown" !in idsByTable
    ensures forall t :: t != "unknown" ==> GroupOf(idsByTable, t) == IdsOf(fnv, tables, t, ids)
  {
    idsByTable := map[];
    for i := 0 to |ids|
      invariant "unknown" !in idsByTable
      invariant forall t :: t != "unknown" ==> GroupOf(idsByTable, t) == IdsOf(fnv, tables, t, ids[..i])
    {
      var table := TableOf(fnv, tables, ids[i]);
      var before := idsByTable;
      if table != "unknown" {
        idsByTable := idsByTable[table := GroupOf(idsByTable, table) + [ids[i]]];
      }
      forall t | t != "unknown"
        ensures GroupOf(idsByTable, t) == IdsOf(fnv, tables, t, ids[..i + 1])
      {
        IdsOfSnoc(fnv, tables, t, ids, i);
        assert GroupOf(before, t) == IdsOf(fnv, tables, t, ids[..i]);
      }
    }
    assert ids[..|ids|] == ids;
  }

  /** No two hits share an id. */
  ghost predicate DistinctHits(hits: seq<Hit>) {
    forall i, j :: 0 <= i < j < |hits| ==> hits[i].globalId != hits[j].globalId
  }

  lemma DistinctAppend(a: seq<Hit>, b: seq<Hit>)
    requires DistinctHits(a) && DistinctHits(b)
    requires forall x, y :: x in a && y in b ==> x.globalId != y.globalId
    ensures DistinctHits(a + b)
  {
  }

  /** The lookup query of one table: the live rows among the given ids, none when the query fails; a
      row that does not scan or decode is passed over. */
  method LookUp(fnv: HashFn, tables: seq<string>, down: Unread, s: Store, table: string, ids: seq<nat>)
    returns (hits: seq<Hit>)
    requires table != "unknown" && forall id :: id in ids ==> OfTable(fnv, tables, table, id)
    requires Descending(ids)
    ensures forall h :: h in hits <==> h.globalId in ids && IsHit(fnv, tables, down, s, h)
    ensures DistinctHits(hits)
  {
    hits := [];
    if table in down.tables {
      assert forall id :: id in ids ==> TableOf(fnv, tables, id) == table;
      return;
    }
    for i := 0 to |ids|
      invariant forall h :: h in hits <==> h.globalId in ids[..i] && IsHit(fnv, tables, down, s, h)
      invariant DistinctHits(hits)
    {
      var id := ids[i];
      assert forall x :: x in ids[..i + 1] <==> x in ids[..i] || x == id;
      assert OfTable(fnv, tables, table, id);
      var key := RowKey(table, id);
      if key in s.main && !s.main[key].deleted && id !in down.rows {
        var h := Hit(id, table, ExtractLocalId(id), s.main[key]);
        assert forall x :: x in hits ==> x.globalId > id;
        DistinctAppend(hits, [h]);
        hits := hits + [h];
      }
    }
    assert ids[..|ids|] == ids;
  }

  lemma {:induction false} IdsOfMembers(fnv: HashFn, tables: seq<string>, table: string, ids: seq<nat>)
    ensures forall id :: id in IdsOf(fnv, tables, table, ids) <==> id in ids && OfTable(fnv, tables, table, id)
  {
    FilterMembers((id: nat) => OfTable(fnv, tables, table, id), ids);
  }

  lemma {:induction false} FilterDescending(p: nat -> bool, ids: seq<nat>)
    requires Descending(ids)
    ensures Descending(Filter(p, ids))
  {
    if ids != [] {
      var n := |ids| - 1;
      FilterDescending(p, ids[..n]);
      FilterMembers(p, ids[..n]);
      assert forall x :: x in ids[..n] ==> x > ids[n];
      assert forall k :: 0 <= k < |Filter(p, ids[..n])| ==> Filter(p, ids[..n])[k] in ids[..n];
    }
  }

  /** Fetch the rows of all tables, whichever order the lookups finish in. */
  method FetchHits(fnv: HashFn, tables: seq<string>, down: Unread, s: Store, ids: seq<nat>)
    returns (hits: seq<Hit>)
    requires Descending(ids)
    ensures forall h :: h in hits <==> h.globalId in ids && IsHit(fnv, tables, down, s, h)
    ensures DistinctHits(hits)
  {
    var idsByTable := GroupByTable(fnv, tables, ids);
    var finished: set<string> := {};
    hits := [];
    while idsByTable.Keys - finished != {}
      invariant finished <= idsByTable.Keys
      invariant forall h :: h in hits <==> h.globalId in ids && IsHit(fnv, tables, down, s, h) && h.table in finished
      invariant DistinctHits(hits)
      decreases idsByTable.Keys - finished
    {
      var table :| table in idsByTable.Keys - finished;
      IdsOfMembers(fnv, tables, table, ids);
      assert GroupOf(idsByTable, table) == idsByTable[table];
      FilterDescending((id: nat) => OfTable(fnv, tables, table, id), ids);
      var found := LookUp(fnv, tables, down, s, table, idsByTable[table]);
      DistinctAppend(hits, found);
      hits := hits + found;
      finished := finished + {table};
    }
    forall h: Hit | h.globalId in ids && IsHit(fnv, tables, down, s, h)
      ensures h.table in finished
    {
      IdsOfMembers(fnv, tables, h.table, ids);
      assert h.globalId in GroupOf(idsByTable, h.table);
    }
  }

  // ----- sorting and cutting the page -----

  /** Sort by packed id, descending. */
  method SortHits(hits: seq<Hit>) returns (r: seq<Hit>)
    requires DistinctHits(hits)
    ensures |r| == |hits| && Elements(r) == Elements(hits) && Descending(Ids(r))
  {
    r := [];
    for i := 0 to |hits|
      invariant |r| == i && Elements(r) == Elements(hits[..i]) && Descending(Ids(r))
    {
      var k := 0;
      while k < |r| && r[k].globalId > hits[i].globalId
        invariant 0 <= k <= |r| && forall j :: 0 <= j < k ==> r[j].globalId > hits[i].globalId
      {
        k := k + 1;
      }
      InsertKeepsOrder(hits, r, k, i);
      r := r[..k] + [hits[i]] + r[k..];
    }
    assert hits[..|hits|] == hits;
  }

  lemma {:induction false} InsertElements(hits: seq<Hit>, r: seq<Hit>, k: nat, i: nat)
    requires i < |hits| && k <= |r| && Elements(r) == Elements(hits[..i])
    ensures Elements(r[..k] + [hits[i]] + r[k..]) == Elements(hits[..i + 1])
  {
    assert r == r[..k] + r[k..];
    ElementsAppend(r[..k], r[k..]);
    ElementsAppend(r[..k], [hits[i]]);
    ElementsAppend(r[..k] + [hits[i]], r[k..]);
    PrefixSnoc(hits, i);
    ElementsAppend(hits[..i], [hits[i]]);
  }

  lemma {:induction false} InsertKeepsOrder(hits: seq<Hit>, r: seq<Hit>, k: nat, i: nat)
    requires DistinctHits(hits) && i < |hits| && k <= |r|
    requires Elements(r) == Elements(hits[..i]) && Descending(Ids(r))
    requires forall j :: 0 <= j < k ==> r[j].globalId > hits[i].globalId
    requires k < |r| ==> r[k].globalId <= hits[i].globalId
    ensures var s := r[..k] + [hits[i]] + r[k..]; Elements(s) == Elements(hits[..i + 1]) && Descending(Ids(s))
  {
    var s := r[..k] + [hits[i]] + r[k..];
    InsertElements(hits, r, k, i);
    forall j | k <= j < |r|
      ensures r[j].globalId < hits[i].globalId
    {
      assert Ids(r)[k] >= Ids(r)[j];
      assert r[j] in Elements(r);
      var m :| 0 <= m < i && hits[m] == r[j];
    }
    forall a, b | 0 <= a < b < |s|
      ensures Ids(s)[a] > Ids(s)[b]
    {
      var a' := if a < k then a else a - 1;
      var b' := if b < k then b else b - 1;
      if a != k && b != k {
        assert Ids(r)[a'] > Ids(r)[b'];
      }
    }
  }

  // ----- the search -----

  /** The live ones among the first `limit + 1` matching ids below the cursor. */
  ghost function LiveWindow(fnv: HashFn, tables: seq<string>, down: Unread, s: Store, matching: set<nat>,
                            limit: nat, cursor: Option<nat>): seq<nat> {
    Filter((id: nat) => Live(fnv, tables, down, s, id), Window(matching, cursor, limit + 1))
  }

  /** A page shows the first `limit` rows of its live window; more follow when there is one more. */
  ghost predicate IsPage(fnv: HashFn, tables: seq<string>, down: Unread, s: Store, live: seq<nat>, limit: nat,
                         page: seq<Hit>, next: Option<nat>, hasMore: bool)
  {
    && Ids(page) == Take(live, limit)
    && (forall h :: h in page ==> IsHit(fnv, tables, down, s, h))
    && (hasMore <==> |live| > limit)
    && next == if hasMore && page != [] then Some(page[|page| - 1].globalId) else None
  }

  ghost function Matching(fnv: HashFn, s: Store, query: seq<string>): set<nat>
    requires query != []
  {
    set p | p in s.postings && Selected(fnv, s, query, p.globalId) :: p.globalId
  }

  lemma {:induction false} MatchingSelected(fnv: HashFn, s: Store, query: seq<string>, ids: set<nat>)
    requires query != [] && forall id :: id in ids <==> Selected(fnv, s, query, id)
    ensures ids == Matching(fnv, s, query)
  {
    assert query[0] in query;
    forall id | Selected(fnv, s, query, id)
      ensures id in Matching(fnv, s, query)
    {
      assert Posting(HashToken(fnv, query[0]), id) in s.postings;
    }
  }

  /** One page of the search; an error when the bitmap query fails. */
  method SearchFullHistoryBitmap(fnv: HashFn, tables: seq<string>, down: Unread, s: Store, query: seq<string>,
                                 limit: nat, cursor: Option<nat>, bitmapOk: bool)
    returns (page: seq<Hit>, next: Option<nat>, hasMore: bool, ok: bool)
    ensures ok <==> query == [] || bitmapOk
    ensures query == [] || !ok ==> page == [] && next == None && !hasMore
    ensures query != [] && ok ==>
      IsPage(fnv, tables, down, s, LiveWindow(fnv, tables, down, s, Matching(fnv, s, query), limit, cursor), limit,
        page, next, hasMore)
  {
    if query == [] {
      return [], None, false, true;
    }
    if !bitmapOk {
      return [], None, false, false;
    }
    ok := true;
    var matching := IntersectBitmaps(fnv, s, query);
    MatchingSelected(fnv, s, query, matching);
    var globalIds := QueryIds(matching, cursor, limit + 1);
    WindowDescends(matching, cursor, limit + 1);
    var hits := FetchHits(fnv, tables, down, s, globalIds);
    var sorted := SortHits(hits);
    assert forall h :: h in Elements(sorted) <==> h in Elements(hits);
    SortedAreLive(fnv, tables, down, s, globalIds, sorted);
    page, next, hasMore := CutPage(fnv, tables, down, s, sorted, limit);
  }

  /** Cut the sorted rows to the page size and remember where to continue. */
  method CutPage(fnv: HashFn, tables: seq<string>, down: Unread, s: Store, sorted: seq<Hit>, limit: nat)
    returns (page: seq<Hit>, next: Option<nat>, hasMore: bool)
    requires forall h :: h in sorted ==> IsHit(fnv, tables, down, s, h)
    ensures IsPage(fnv, tables, down, s, Ids(sorted), limit, page, next, hasMore)
  {
    hasMore := |sorted| > limit;
    page := sorted;
    if hasMore {
      page := page[..limit];
    }
    next := None;
    if |page| > 0 {
      var lastGlobalId := page[|page| - 1].globalId;
      if hasMore {
        next := Some(lastGlobalId);
      }
    }
  }

  lemma {:induction false} WindowDescends(ids: set<nat>, cursor: Option<nat>, n: nat)
    ensures Descending(Window(ids, cursor, n))
  {
    SortDescSorts(Below(ids, cursor));
  }

  lemma {:induction false} SortedAreLive(fnv: HashFn, tables: seq<string>, down: Unread, s: Store, ids: seq<nat>,
                                         sorted: seq<Hit>)
    requires Descending(ids) && Descending(Ids(sorted))
    requires forall h :: h in Elements(sorted) <==> h.globalId in ids && IsHit(fnv, tables, down, s, h)
    ensures Ids(sorted) == Filter((id: nat) => Live(fnv, tables, down, s, id), ids)
  {
    var p := (id: nat) => Live(fnv, tables, down, s, id);
    FilterMembers(p, ids);
    FilterDescending(p, ids);
    forall id
      ensures id in Ids(sorted) <==> id in Filter(p, ids)
    {
      if id in Ids(sorted) {
        var i :| 0 <= i < |sorted| && Ids(sorted)[i] == id;
        assert sorted[i] in Elements(sorted);
      }
      if id in Filter(p, ids) {
        var table := TableOf(fnv, tables, id);
        var h := Hit(id, table, ExtractLocalId(id), s.main[RowKey(table, id)]);
        assert IsHit(fnv, tables, down, s, h);
        assert h in Elements(sorted);
        var i :| 0 <= i < |sorted| && sorted[i] == h;
        assert Ids(sorted)[i] == id;
      }
    }
    DescendingUnique(Ids(sorted), Filter(p, ids));
  }
}
