/** A search walk that stops early: a concrete index in which a tombstone hides a live match. */
module SearchStops {
  import opened Collections
  import opened GlobalIds
  import opened SearchIndex
  import opened SearchPaging
  import opened SearchWalk

  const TABLE := "t"
  const QUERY := ["ab"]

  /** Three rows with the same token are indexed, then the newest is deleted. */
  const ROWS := [Record(1, ["ab"], false), Record(2, ["ab"], false), Record(3, ["ab"], false)]
  const HISTORY := [Bulk("t", ROWS, 3), Delete("t", 3)]

  const ALL_READ := Unread({}, {})

  ghost function Index(fnv: HashFn): Snapshot {
    Snapshot(StoreAfter(fnv, HISTORY), [TABLE], ALL_READ)
  }

  function Id(fnv: HashFn, key: nat): nat { RowId(fnv, TABLE, key) }

  lemma {:induction false} IndexIs(fnv: HashFn)
    ensures var s := Index(fnv).store;
      && s.main == MainRows(fnv, TABLE, ROWS) + map[RowKey(TABLE, Id(fnv, 3)) := Record(3, [], true)]
      && s.postings == Postings(fnv, TABLE, ROWS)
  {
    var one := [Bulk("t", ROWS, 3)];
    assert one[..0] == [];
    assert StoreAfter(fnv, one[..0]) == EMPTY_STORE;
    assert StoreAfter(fnv, one) == AfterBulk(fnv, EMPTY_STORE, TABLE, ROWS, 3);
    assert HISTORY[..1] == one;
    assert StoreAfter(fnv, one).main == MainRows(fnv, TABLE, ROWS);
  }

  lemma {:induction false} IdsOrdered(fnv: HashFn)
    ensures Descending([Id(fnv, 3), Id(fnv, 2), Id(fnv, 1)])
  {
    PackOrder(TableId(fnv, TABLE), 2, 3);
    PackOrder(TableId(fnv, TABLE), 1, 2);
  }

  lemma {:induction false} MatchingIs(fnv: HashFn)
    ensures Matching(fnv, Index(fnv).store, QUERY) == {Id(fnv, 3), Id(fnv, 2), Id(fnv, 1)}
  {
    var s := Index(fnv).store;
    var hash := HashToken(fnv, "ab");
    IndexIs(fnv);
    forall key | key in {1, 2, 3}
      ensures Posting(hash, Id(fnv, key)) in s.postings
    {
      var r := ROWS[key - 1];
      assert r in ROWS && "ab" in r.tokens;
      assert hash in TokenHashes(fnv, r.tokens);
    }
    forall p | p in s.postings
      ensures p.globalId in {Id(fnv, 3), Id(fnv, 2), Id(fnv, 1)} && p.hash == hash
    {
      var r :| r in ROWS && Carries(fnv, TABLE, r, p);
    }
    assert forall q :: q in QUERY <==> q == "ab";
  }

  lemma {:induction false} SortedMatches(fnv: HashFn)
    ensures SortDesc(Matching(fnv, Index(fnv).store, QUERY)) == [Id(fnv, 3), Id(fnv, 2), Id(fnv, 1)]
  {
    var matching := Matching(fnv, Index(fnv).store, QUERY);
    var ids := [Id(fnv, 3), Id(fnv, 2), Id(fnv, 1)];
    MatchingIs(fnv);
    IdsOrdered(fnv);
    SortDescMembers(matching);
    SortDescSorts(matching);
    DescendingUnique(SortDesc(matching), ids);
  }

  lemma {:induction false} LiveIs(fnv: HashFn, key: nat)
    requires 1 <= key <= 3
    ensures Live(fnv, [TABLE], ALL_READ, Index(fnv).store, Id(fnv, key)) <==> key != 3
  {
    RowIdRoundTrip(fnv, [TABLE], TABLE, key);
    IndexIs(fnv);
    var k := RowKey(TABLE, Id(fnv, key));
    MainRowsKeys(fnv, TABLE, ROWS);
    assert ROWS[key - 1] in ROWS;
    assert k in MainRows(fnv, TABLE, ROWS);
    UnpackPack(TableId(fnv, TABLE), key);
    UnpackPack(TableId(fnv, TABLE), 3);
  }

  /** With one row a page, the first page looks at rows 3 and 2, shows row 2 and reports no more: row
      1 matches and is live, and no walk over this index, however long, delivers it. */
  lemma {:induction false} LiveMatchNeverShown(fnv: HashFn, pages: seq<Snapshot>)
    requires Unchanged(pages, Index(fnv)) && |pages| > 3
    ensures Id(fnv, 1) in Matching(fnv, Index(fnv).store, QUERY)
    ensures Live(fnv, [TABLE], ALL_READ, Index(fnv).store, Id(fnv, 1))
    ensures Delivered(fnv, QUERY, 1, pages, None) == [Id(fnv, 2)] && Id(fnv, 1) != Id(fnv, 2)
  {
    var at := Index(fnv);
    var live := (id: nat) => Live(fnv, at.tables, at.down, at.store, id);
    var matching := Matching(fnv, at.store, QUERY);
    var ids := [Id(fnv, 3), Id(fnv, 2), Id(fnv, 1)];
    MatchingIs(fnv);
    SortedMatches(fnv);
    LiveIs(fnv, 1);
    LiveIs(fnv, 2);
    LiveIs(fnv, 3);
    assert |matching| <= 3;
    UnchangedWalk(fnv, at, QUERY, 1, pages, None);
    StaticWalkIsListWalk(live, matching, 1, None);
    WalkDelivers(live, ids, 1, 0);
    OneOfTwo(live, Id(fnv, 3), Id(fnv, 2));
    assert ids[..2] == [Id(fnv, 3), Id(fnv, 2)];
    PackOrder(TableId(fnv, TABLE), 1, 2);
  }

  lemma {:induction false} OneOfTwo(live: nat -> bool, x: nat, y: nat)
    requires !live(x) && live(y)
    ensures Filter(live, [x, y]) == [y]
  {
    assert [x, y][..1] == [x] && [x][..0] == [];
    assert Filter(live, [x]) == [];
  }
}
