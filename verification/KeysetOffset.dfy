/** Over a table that does not change, the cursor walk is LIMIT/OFFSET paging; and the two ways in
    which a walk goes wrong when the cursor cannot hold its place. */
module KeysetOffset {
  import opened Collections
  import opened KeysetQuery
  import opened KeysetBuilders
  import opened KeysetPaging
  import opened KeysetWalk
  import opened JsonNumbers

  /** LIMIT n OFFSET o over a sorted listing. */
  function OffsetPage(listing: seq<Row>, limit: nat, offset: nat): seq<Row> {
    if offset <= |listing| then Take(listing[offset..], limit) else []
  }

  /** The filtered rows of the table in the order of the pages. */
  ghost predicate IsListing(schema: Option<Schema>, p: Params, table: set<Row>, listing: seq<Row>) {
    && Ascending(OrderBy(schema, p), listing)
    && Elements(listing) == set row | row in table && Matches(p.filters, row)
  }

  ghost predicate Static(pages: seq<Page>, table: set<Row>) {
    forall i :: 0 <= i < |pages| ==> pages[i].table == table
  }

  /** A row that comes before all others. */
  lemma {:induction false} LeastOf(order: seq<Term>, rows: set<Row>) returns (m: Row)
    requires rows != {}
    requires forall a, b :: a in rows && b in rows && a != b ==> Before(order, a, b) || Before(order, b, a)
    ensures m in rows && forall r :: r in rows && r != m ==> Before(order, m, r)
    decreases rows
  {
    m :| m in rows;
    if rows != {m} {
      var least := LeastOf(order, rows - {m});
      if Before(order, least, m) {
        m := least;
      } else {
        forall r | r in rows && r != m
          ensures Before(order, m, r)
        {
          if r != least {
            BeforeTransitive(order, m, least, r);
          }
        }
      }
    }
  }

  /** Rows that the order tells apart can be listed. */
  lemma {:induction false} ListRows(order: seq<Term>, rows: set<Row>) returns (listing: seq<Row>)
    requires forall a, b :: a in rows && b in rows && a != b ==> Before(order, a, b) || Before(order, b, a)
    ensures Ascending(order, listing) && Elements(listing) == rows
    decreases rows
  {
    listing := [];
    if rows != {} {
      var m := LeastOf(order, rows);
      var rest := ListRows(order, rows - {m});
      assert forall r :: r in rest ==> r in Elements(rest);
      ElementsAppend([m], rest);
      listing := [m] + rest;
    }
  }

  /** A keyed table has a listing. */
  lemma {:induction false} ListingExists(schema: Option<Schema>, p: Params, table: set<Row>) returns (listing: seq<Row>)
    requires Keyed(schema, p, table)
    ensures IsListing(schema, p, table, listing)
  {
    var rows := set row | row in table && Matches(p.filters, row);
    forall a, b | a in rows && b in rows && a != b
      ensures Before(OrderBy(schema, p), a, b) || Before(OrderBy(schema, p), b, a)
    {
      TotalOn(schema, p, table, a, b);
    }
    listing := ListRows(OrderBy(schema, p), rows);
  }

  // ----- the answer to a query over a listing is its prefix -----

  lemma {:induction false} AscendingTail(order: seq<Term>, listing: seq<Row>)
    requires listing != [] && Ascending(order, listing)
    ensures listing[0] !in listing[1..] && Elements(listing[1..]) == Elements(listing) - {listing[0]}
  {
    if listing[0] in listing[1..] {
      var j :| 1 <= j < |listing| && listing[j] == listing[0];
      BeforeIrreflexive(order, listing[0]);
      assert false;
    }
    assert listing == [listing[0]] + listing[1..];
  }

  lemma {:induction false} FirstOfAnswer(order: seq<Term>, listing: seq<Row>, n: nat, rows: seq<Row>)
    requires Ascending(order, listing) && IsAnswer(order, Elements(listing), n, rows)
    requires listing != [] && rows != []
    ensures rows[0] == listing[0]
  {
    var first := listing[0];
    assert rows[0] in Elements(listing);
    assert first in Elements(listing) && rows[0] in rows;
    assert rows[0] == first || !Before(order, first, rows[0]) by {
      if first in rows {
        var j :| 0 <= j < |rows| && rows[j] == first;
      }
    }
    var k :| 0 <= k < |listing| && listing[k] == rows[0];
  }

  lemma {:induction false} AnswerOfListing(order: seq<Term>, listing: seq<Row>, n: nat, rows: seq<Row>)
    requires Ascending(order, listing) && IsAnswer(order, Elements(listing), n, rows)
    ensures rows == Take(listing, n)
    decreases n
  {
    ListingSize(order, listing);
    if n > 0 && listing != [] {
      FirstOfAnswer(order, listing, n, rows);
      AscendingTail(order, listing);
      AnswerTail(order, Elements(listing), n, rows);
      AnswerOfListing(order, listing[1..], n - 1, rows[1..]);
    }
  }

  lemma {:induction false} ListingSize(order: seq<Term>, listing: seq<Row>)
    requires Ascending(order, listing)
    ensures |Elements(listing)| == |listing|
  {
    forall i, j | 0 <= i < j < |listing|
      ensures listing[i] != listing[j]
    {
      BeforeIrreflexive(order, listing[i]);
      assert Before(order, listing[i], listing[j]);
    }
    DistinctSize(listing);
  }

  lemma {:induction false} TailElements(rows: seq<Row>)
    requires rows != [] && Distinct(rows)
    ensures Elements(rows[1..]) == Elements(rows) - {rows[0]}
  {
    assert rows == [rows[0]] + rows[1..];
    assert rows[0] !in rows[1..];
  }

  lemma {:induction false} AnswerTail(order: seq<Term>, matching: set<Row>, n: nat, rows: seq<Row>)
    requires IsAnswer(order, matching, n, rows) && rows != [] && n > 0
    ensures IsAnswer(order, matching - {rows[0]}, n - 1, rows[1..])
  {
    assert rows[0] in rows;
    TailElements(rows);
    assert matching - {rows[0]} - Elements(rows[1..]) == matching - Elements(rows);
    assert forall r :: r in rows[1..] ==> r in Elements(rows[1..]);
    assert forall r :: r in Elements(rows) ==> r in rows;
  }

  lemma {:induction false} AscendingSuffix(order: seq<Term>, listing: seq<Row>, k: nat)
    requires 0 < k <= |listing| && Ascending(order, listing)
    ensures Ascending(order, listing[k..])
    ensures Elements(listing[k..]) == set r | r in listing && Before(order, listing[k - 1], r)
  {
    forall r
      ensures r in listing[k..] <==> r in listing && Before(order, listing[k - 1], r)
    {
      if r in listing[k..] {
        var i :| k <= i < |listing| && listing[i] == r;
      }
      if r in listing && Before(order, listing[k - 1], r) {
        var i :| 0 <= i < |listing| && listing[i] == r;
        BeforeIrreflexive(order, r);
        assert i < k - 1 ==> Before(order, r, listing[k - 1]);
        BeforeAsymmetric(order, listing[k - 1], r);
        assert listing[k..][i - k] == r;
      }
    }
  }

  // ----- page by page -----

  function Start(i: nat, limit: nat): nat { if i == 0 then 0 else Start(i - 1, limit) + limit }

  lemma {:induction false} StartIs(i: nat, limit: nat)
    ensures Start(i, limit) == i * limit
  {
    if i > 0 {
      StartIs(i - 1, limit);
      assert i * limit == (i - 1) * limit + limit;
    }
  }

  /** The rows page `i` chooses from are those of the listing after the first `i` pages. */
  lemma {:induction false} StaticAt(schema: Option<Schema>, p: Params, table: set<Row>, pages: seq<Page>,
                                    listing: seq<Row>, i: nat)
    requires KeyedWalk(schema, p, pages) && Static(pages, table)
    requires IsListing(schema, p, table, listing) && i < |pages|
    ensures Start(i, p.limit) <= |listing| && OffsetOf(pages[i].cursor) == Start(i, p.limit)
    ensures Remaining(schema, p, table, pages[i].cursor) == Elements(listing[Start(i, p.limit)..])
    ensures i > 0 ==> Start(i, p.limit) < |listing|
  {
    assert Step(schema, p, pages, i);
    if i == 0 {
      assert listing[0..] == listing;
    } else {
      StaticAt(schema, p, table, pages, listing, i - 1);
      StaticNext(schema, p, table, pages, listing, i, Start(i - 1, p.limit));
    }
  }

  lemma {:induction false} StaticNext(schema: Option<Schema>, p: Params, table: set<Row>, pages: seq<Page>,
                                      listing: seq<Row>, i: nat, k: nat)
    requires KeyedWalk(schema, p, pages) && Static(pages, table)
    requires IsListing(schema, p, table, listing) && 0 < i < |pages| && k <= |listing|
    requires OffsetOf(pages[i - 1].cursor) == k &&
      Remaining(schema, p, table, pages[i - 1].cursor) == Elements(listing[k..])
    ensures k + p.limit < |listing| && OffsetOf(pages[i].cursor) == k + p.limit
    ensures Remaining(schema, p, table, pages[i].cursor) == Elements(listing[k + p.limit..])
  {
    assert Step(schema, p, pages, i - 1);
    StaticPage(schema, p, listing, pages[i - 1], k);
    PageContinues(schema, p, pages, i);
    var data := pages[i - 1].data;
    assert data[|data| - 1] == listing[k + p.limit - 1];
    SameRemaining(schema, p, table, listing, pages[i].cursor, k + p.limit);
  }

  lemma {:induction false} SameRemaining(schema: Option<Schema>, p: Params, table: set<Row>, listing: seq<Row>,
                                         cursor: Option<Cursor>, k: nat)
    requires IsListing(schema, p, table, listing) && 0 < k <= |listing|
    requires Remaining(schema, p, table, cursor) ==
      set row | row in table && Matches(p.filters, row) && Before(OrderBy(schema, p), listing[k - 1], row)
    ensures Remaining(schema, p, table, cursor) == Elements(listing[k..])
  {
    AscendingSuffix(OrderBy(schema, p), listing, k);
    assert forall r :: r in listing <==> r in Elements(listing);
  }

  lemma {:induction false} StaticPage(schema: Option<Schema>, p: Params, listing: seq<Row>, page: Page, k: nat)
    requires IsPage(schema, p, page) && k <= |listing| && Ascending(OrderBy(schema, p), listing)
    requires Remaining(schema, p, page.table, page.cursor) == Elements(listing[k..])
    ensures page.data == OffsetPage(listing, p.limit, k)
    ensures page.hasMore <==> k + p.limit < |listing|
  {
    AnswerOfListing(OrderBy(schema, p), listing[k..], p.limit, page.data);
    ListingSize(OrderBy(schema, p), listing[k..]);
  }

  /** Page `i` is exactly LIMIT limit OFFSET i * limit, its cursor counts the rows before it, and it
      reports more rows exactly when some are left. */
  lemma {:induction false} StaticWalkIsOffsetPaging(schema: Option<Schema>, p: Params, table: set<Row>,
                                                    pages: seq<Page>, listing: seq<Row>, i: nat)
    requires KeyedWalk(schema, p, pages) && Static(pages, table)
    requires IsListing(schema, p, table, listing) && i < |pages|
    ensures pages[i].data == OffsetPage(listing, p.limit, i * p.limit)
    ensures OffsetOf(pages[i].cursor) == i * p.limit
    ensures pages[i].hasMore <==> (i + 1) * p.limit < |listing|
  {
    StartIs(i, p.limit);
    StartIs(i + 1, p.limit);
    StaticAt(schema, p, table, pages, listing, i);
    assert Step(schema, p, pages, i);
    StaticPage(schema, p, listing, pages[i], Start(i, p.limit));
  }

  /** What a page's cursor counts is what was delivered before it, and a completed walk delivers the
      whole listing. */
  lemma {:induction false} OffsetCountsDelivered(schema: Option<Schema>, p: Params, table: set<Row>, pages: seq<Page>,
                                                 listing: seq<Row>, n: nat)
    requires KeyedWalk(schema, p, pages) && Static(pages, table)
    requires IsListing(schema, p, table, listing) && n <= |pages|
    ensures Delivered(pages, n) == Take(listing, Start(n, p.limit))
    ensures n < |pages| ==> OffsetOf(pages[n].cursor) == |Delivered(pages, n)|
  {
    if n > 0 {
      OffsetCountsDelivered(schema, p, table, pages, listing, n - 1);
      StaticAt(schema, p, table, pages, listing, n - 1);
      assert Step(schema, p, pages, n - 1);
      var k := Start(n - 1, p.limit);
      StaticPage(schema, p, listing, pages[n - 1], k);
      TakeMore(listing, k, p.limit);
    }
    if n < |pages| {
      StaticAt(schema, p, table, pages, listing, n);
    }
  }

  lemma TakeMore(listing: seq<Row>, k: nat, limit: nat)
    requires k <= |listing|
    ensures Take(listing, k) + OffsetPage(listing, limit, k) == Take(listing, k + limit)
  {
  }

  /** The last page of a completed walk ends the listing. */
  lemma {:induction false} LastPage(schema: Option<Schema>, p: Params, table: set<Row>, pages: seq<Page>,
                                    listing: seq<Row>, m: nat)
    requires KeyedWalk(schema, p, pages) && Static(pages, table)
    requires IsListing(schema, p, table, listing) && m < |pages| && !pages[m].hasMore
    ensures |listing| <= Start(m, p.limit) + p.limit
    ensures m > 0 ==> Start(m, p.limit) < |listing|
  {
    StaticAt(schema, p, table, pages, listing, m);
    assert Step(schema, p, pages, m);
    StaticPage(schema, p, listing, pages[m], Start(m, p.limit));
  }

  /** A completed walk delivers the whole listing. */
  lemma {:induction false} CompletedDeliversAll(schema: Option<Schema>, p: Params, table: set<Row>, pages: seq<Page>,
                                                listing: seq<Row>)
    requires KeyedWalk(schema, p, pages) && Static(pages, table)
    requires IsListing(schema, p, table, listing) && Completed(pages)
    ensures Delivered(pages, |pages|) == listing
  {
    LastPage(schema, p, table, pages, listing, |pages| - 1);
    OffsetCountsDelivered(schema, p, table, pages, listing, |pages|);
  }

  /** A completed walk has max(1, ceil(n / limit)) pages. */
  lemma {:induction false} PageCount(schema: Option<Schema>, p: Params, table: set<Row>, pages: seq<Page>,
                                     listing: seq<Row>)
    requires KeyedWalk(schema, p, pages) && Static(pages, table)
    requires IsListing(schema, p, table, listing) && Completed(pages)
    ensures |pages| == Max(1, (|listing| + p.limit - 1) / p.limit)
  {
    LastPage(schema, p, table, pages, listing, |pages| - 1);
    CeilingIs(|listing|, p.limit, |pages|);
  }

  lemma {:induction false} CeilingIs(n: nat, limit: nat, m: nat)
    requires limit > 0 && m > 0 && n <= Start(m, limit) && (m > 1 ==> Start(m - 1, limit) < n)
    ensures m == Max(1, (n + limit - 1) / limit)
  {
    StartIs(m, limit);
    StartIs(m - 1, limit);
    if n == 0 {
      assert (limit - 1) / limit == 0;
    } else {
      QuotientIs(n + limit - 1, limit, m);
    }
  }

  lemma {:induction false} QuotientIs(a: nat, limit: nat, m: nat)
    requires limit > 0 && m * limit <= a < m * limit + limit
    ensures a / limit == m
  {
    var q, r := a / limit, a % limit;
    assert a == q * limit + r;
    assert (q - m) * limit == q * limit - m * limit;
    SmallMultiple(q - m, limit, a - m * limit - r);
  }

  lemma {:induction false} SmallMultiple(k: int, limit: nat, b: int)
    requires limit > 0 && k * limit == b && 0 - limit < b < limit
    ensures k == 0
  {
    assert k >= 1 ==> (k - 1) * limit >= 0;
    assert k <= -1 ==> (-1 - k) * limit >= 0;
    assert (k - 1) * limit == b - limit && (-1 - k) * limit == 0 - limit - b;
  }

  /** Over an unchanging table a walk is LIMIT/OFFSET paging through one listing of it: every page is
      its slice, and a completed walk delivers the listing in max(1, ceil(n / limit)) pages. */
  lemma {:induction false} WalkIsOffsetPaging(schema: Option<Schema>, p: Params, table: set<Row>, pages: seq<Page>)
    returns (listing: seq<Row>)
    requires KeyedWalk(schema, p, pages) && Static(pages, table) && pages != []
    ensures IsListing(schema, p, table, listing)
    ensures forall i :: 0 <= i < |pages| ==> pages[i].data == OffsetPage(listing, p.limit, i * p.limit)
    ensures Completed(pages) ==>
      Delivered(pages, |pages|) == listing && |pages| == Max(1, (|listing| + p.limit - 1) / p.limit)
  {
    assert Keyed(schema, p, pages[0].table);
    listing := ListingExists(schema, p, table);
    forall i | 0 <= i < |pages|
      ensures pages[i].data == OffsetPage(listing, p.limit, i * p.limit)
    {
      StaticWalkIsOffsetPaging(schema, p, table, pages, listing, i);
    }
    if Completed(pages) {
      CompletedDeliversAll(schema, p, table, pages, listing);
      PageCount(schema, p, table, pages, listing);
    }
  }

  // ----- when the cursor cannot hold its place -----

  /** Without a primary key the cursor is ignored and every page starts over: a walk over an
      unchanging table completes exactly when its matching rows fit one page. */
  lemma {:induction false} NoKeyCompletesIff(schema: Option<Schema>, p: Params, table: set<Row>, pages: seq<Page>)
    requires (schema == None || schema.value.primaryKey == []) && Static(pages, table) && IsWalk(schema, p, pages) &&
      pages != []
    ensures Completed(pages) <==> |set row | row in table && Matches(p.filters, row)| <= p.limit
  {
    var n := |pages| - 1;
    assert Step(schema, p, pages, n);
    assert Remaining(schema, p, table, pages[n].cursor) == set row | row in table && Matches(p.filters, row);
  }

  /** The decoded cursor keeps its place for every possible row exactly when all its sort values
      survive the round trip through a double, whatever the order: by the key or by a custom column
      and the key, ascending or descending. */
  lemma {:induction false} CursorKeepsPlaceIff(order: seq<Term>, c: Cursor)
    requires HasColumns(order, c.record)
    ensures (forall row :: Before(order, Decoded(c).record, row) <==> Before(order, c.record, row)) <==>
      ExactOn(order, c.record)
  {
    if ExactOn(order, c.record) {
      forall row: Row
        ensures Before(order, Decoded(c).record, row) <==> Before(order, c.record, row)
      {
        DecodedBefore(order, c, row);
      }
    } else {
      var k :| 0 <= k < |order| && Float64(c.record[order[k].col]) != c.record[order[k].col];
      var sent, read := c.record, Decoded(c).record;
      BeforeTotal(order, sent, read, k);
      BeforeIrreflexive(order, sent);
      BeforeIrreflexive(order, read);
      assert Before(order, read, sent) != Before(order, sent, sent) ||
        Before(order, read, read) != Before(order, sent, read);
    }
  }
}
