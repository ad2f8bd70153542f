/** Following the cursor of the dynamic repository page after page, over a table that rows are
    inserted into and deleted from between the pages. */
module KeysetWalk {
  import opened Collections
  import opened KeysetQuery
  import opened KeysetBuilders
  import opened KeysetPaging
  import opened JsonNumbers

  /** The cursor as the next request reads it: numbers come back as doubles. */
  function Decoded(c: Cursor): Cursor {
    Cursor(map col | col in c.record :: Float64(c.record[col]), c.offset)
  }

  /** Page `i` continues where the page before it ended; the first has no cursor. */
  ghost predicate Step(schema: Option<Schema>, p: Params, pages: seq<Page>, i: nat)
    requires i < |pages|
  {
    && IsPage(schema, p, pages[i])
    && if i == 0 then pages[0].cursor == None
       else pages[i - 1].next.Some? && pages[i].cursor == Some(Decoded(pages[i - 1].next.value))
  }

  ghost predicate IsWalk(schema: Option<Schema>, p: Params, pages: seq<Page>) {
    forall i :: 0 <= i < |pages| ==> Step(schema, p, pages, i)
  }

  /** The walk ended because a page reported no more rows. */
  ghost predicate Completed(pages: seq<Page>) {
    pages != [] && !pages[|pages| - 1].hasMore
  }

  /** The rows of the first `n` pages. */
  function Delivered(pages: seq<Page>, n: nat): seq<Row>
    requires n <= |pages|
  {
    if n == 0 then [] else Delivered(pages, n - 1) + pages[n - 1].data
  }

  // ----- what the walk relies on -----

  /** A table whose key column identifies its rows, with all sort columns present. */
  ghost predicate Keyed(schema: Option<Schema>, p: Params, table: set<Row>) {
    && schema.Some? && schema.value.primaryKey != []
    && (forall r :: r in table ==> HasColumns(OrderBy(schema, p), r) && schema.value.primaryKey[0] in r)
    && (forall a, b :: a in table && b in table ==>
          a[schema.value.primaryKey[0]] == b[schema.value.primaryKey[0]] ==> a == b)
  }

  /** The sort values of the row survive being written to JSON and read back. */
  predicate ExactOn(order: seq<Term>, row: Row) {
    forall i :: 0 <= i < |order| ==> order[i].col in row && Float64(row[order[i].col]) == row[order[i].col]
  }

  /** A walk over tables that are keyed each for itself; rows may be inserted, deleted and updated
      between the pages. Cursor values survive. */
  ghost predicate KeyedWalk(schema: Option<Schema>, p: Params, pages: seq<Page>) {
    && p.limit > 0 && IsWalk(schema, p, pages)
    && (forall i :: 0 <= i < |pages| ==> Keyed(schema, p, pages[i].table))
    && (forall i :: 0 <= i < |pages| && pages[i].next.Some? ==> ExactOn(OrderBy(schema, p), pages[i].next.value.record))
  }

  ghost predicate Ascending(order: seq<Term>, rows: seq<Row>) {
    forall i, j :: 0 <= i < j < |rows| ==> Before(order, rows[i], rows[j])
  }

  lemma {:induction false} KeyColumn(schema: Option<Schema>, p: Params)
    requires schema.Some? && schema.value.primaryKey != []
    ensures var order := OrderBy(schema, p); order != [] && order[|order| - 1].col == schema.value.primaryKey[0]
  {
  }

  lemma {:induction false} TotalOn(schema: Option<Schema>, p: Params, table: set<Row>, a: Row, b: Row)
    requires Keyed(schema, p, table) && a in table && b in table && a != b
    ensures Before(OrderBy(schema, p), a, b) || Before(OrderBy(schema, p), b, a)
  {
    KeyColumn(schema, p);
    BeforeTotal(OrderBy(schema, p), a, b, |OrderBy(schema, p)| - 1);
  }

  lemma {:induction false} DecodedBefore(order: seq<Term>, c: Cursor, row: Row)
    requires ExactOn(order, c.record)
    ensures Before(order, Decoded(c).record, row) <==> Before(order, c.record, row)
  {
    if order != [] {
      assert order[0].col in c.record;
      forall i | 0 <= i < |order[1..]|
        ensures order[1..][i].col in c.record && Float64(c.record[order[1..][i].col]) == c.record[order[1..][i].col]
      {
        assert order[1..][i] == order[i + 1];
      }
      DecodedBefore(order[1..], c, row);
    }
  }

  lemma DecodedPositioned(schema: Option<Schema>, p: Params, c: Cursor)
    requires schema.Some? && schema.value.primaryKey != [] && ExactOn(OrderBy(schema, p), c.record)
    ensures Positioned(schema, p, Some(Decoded(c)))
  {
  }

  /** Rows of a page, strictly ascending. */
  lemma {:induction false} PageAscends(schema: Option<Schema>, p: Params, page: Page)
    requires Keyed(schema, p, page.table) && IsPage(schema, p, page)
    ensures Ascending(OrderBy(schema, p), page.data) && forall r :: r in page.data ==> r in page.table
  {
    assert forall r :: r in page.data ==> r in Remaining(schema, p, page.table, page.cursor);
    forall i, j | 0 <= i < j < |page.data|
      ensures Before(OrderBy(schema, p), page.data[i], page.data[j])
    {
      assert page.data[i] in page.data && page.data[j] in page.data;
      TotalOn(schema, p, page.table, page.data[i], page.data[j]);
    }
  }

  /** Page `i` is chosen from the rows strictly after the last row of the page before. */
  lemma {:induction false} PageContinues(schema: Option<Schema>, p: Params, pages: seq<Page>, i: nat)
    requires KeyedWalk(schema, p, pages) && 0 < i < |pages|
    ensures var last := pages[i - 1].data;
      && |last| == p.limit && last[|last| - 1] in pages[i - 1].table
      && pages[i - 1].hasMore
      && OffsetOf(pages[i].cursor) == p.limit + OffsetOf(pages[i - 1].cursor)
      && Remaining(schema, p, pages[i].table, pages[i].cursor) ==
           set row | row in pages[i].table && Matches(p.filters, row) &&
             Before(OrderBy(schema, p), last[|last| - 1], row)
  {
    assert Step(schema, p, pages, i) && Step(schema, p, pages, i - 1);
    var data := pages[i - 1].data;
    PageAscends(schema, p, pages[i - 1]);
    var c := pages[i - 1].next.value;
    assert data[|data| - 1] in data;
    DecodedPositioned(schema, p, c);
    forall row: Row
      ensures Before(OrderBy(schema, p), Decoded(c).record, row) <==> Before(OrderBy(schema, p), c.record, row)
    {
      DecodedBefore(OrderBy(schema, p), c, row);
    }
  }

  /** The rows of page `i` come after the last row of the page before. */
  lemma {:induction false} PageAfter(schema: Option<Schema>, p: Params, pages: seq<Page>, i: nat)
    requires KeyedWalk(schema, p, pages) && 0 < i < |pages|
    ensures var last := pages[i - 1].data;
      last != [] && forall r :: r in pages[i].data ==> Before(OrderBy(schema, p), last[|last| - 1], r)
  {
    PageContinues(schema, p, pages, i);
    assert Step(schema, p, pages, i);
  }

  // ----- the order of everything delivered -----

  /** Everything a walk delivers is strictly ascending in the page order: no row content comes
      twice, whatever is inserted, deleted or updated between the pages. */
  lemma {:induction false} DeliveredAscends(schema: Option<Schema>, p: Params, pages: seq<Page>, n: nat)
    requires KeyedWalk(schema, p, pages) && n <= |pages|
    ensures Ascending(OrderBy(schema, p), Delivered(pages, n))
  {
    if n > 0 {
      DeliveredAscends(schema, p, pages, n - 1);
      assert Step(schema, p, pages, n - 1);
      PageAscends(schema, p, pages[n - 1]);
      if n > 1 {
        PageAfter(schema, p, pages, n - 1);
        JoinAscending(OrderBy(schema, p), Delivered(pages, n - 2), pages[n - 2].data, pages[n - 1].data);
      }
    }
  }

  lemma {:induction false} JoinAscending(order: seq<Term>, a: seq<Row>, b: seq<Row>, c: seq<Row>)
    requires Ascending(order, a + b) && Ascending(order, c) && b != []
    requires forall r :: r in c ==> Before(order, b[|b| - 1], r)
    ensures Ascending(order, a + b + c)
  {
    var ab := a + b;
    var last := b[|b| - 1];
    assert ab[|ab| - 1] == last;
    forall i, j | 0 <= i < |ab| <= j < |ab + c|
      ensures Before(order, ab[i], (ab + c)[j])
    {
      assert (ab + c)[j] in c;
      if i < |ab| - 1 {
        BeforeTransitive(order, ab[i], last, (ab + c)[j]);
      }
    }
  }

  // ----- rows that stay are returned -----

  ghost predicate Stays(p: Params, pages: seq<Page>, row: Row) {
    && (forall col :: col in p.filters ==> col in row && row[col] == p.filters[col])
    && forall i :: 0 <= i < |pages| ==> row in pages[i].table
  }

  /** A remaining row is on the page, or comes after all of it and more pages follow. */
  lemma {:induction false} OnPageOrLater(schema: Option<Schema>, p: Params, page: Page, row: Row)
    requires Keyed(schema, p, page.table) && IsPage(schema, p, page)
    requires row in Remaining(schema, p, page.table, page.cursor) && row !in page.data
    ensures page.hasMore && forall r :: r in page.data ==> Before(OrderBy(schema, p), r, row)
  {
    var remaining := Remaining(schema, p, page.table, page.cursor);
    DistinctSize(page.data);
    assert |remaining| <= p.limit ==> Elements(page.data) == remaining by {
      if |remaining| <= p.limit {
        SubsetSize(Elements(page.data), remaining);
      }
    }
    assert row in remaining - Elements(page.data);
    PageAscends(schema, p, page);
    forall r | r in page.data
      ensures Before(OrderBy(schema, p), r, row)
    {
      TotalOn(schema, p, page.table, r, row);
    }
  }

  lemma {:induction false} DeliveredOrAhead(schema: Option<Schema>, p: Params, pages: seq<Page>, row: Row, n: nat)
    requires KeyedWalk(schema, p, pages) && Stays(p, pages, row) && n < |pages|
    ensures row in Delivered(pages, n) || row in Remaining(schema, p, pages[n].table, pages[n].cursor)
  {
    assert Step(schema, p, pages, n);
    if n > 0 {
      DeliveredOrAhead(schema, p, pages, row, n - 1);
      PageContinues(schema, p, pages, n);
      if row !in Delivered(pages, n) {
        assert Step(schema, p, pages, n - 1);
        OnPageOrLater(schema, p, pages[n - 1], row);
        var data := pages[n - 1].data;
        assert data[|data| - 1] in data;
      }
    }
  }

  /** Every row present and unchanged through the whole completed walk is returned, whatever happens
      to the other rows; by DeliveredAscends exactly once. */
  lemma {:induction false} StableRowDelivered(schema: Option<Schema>, p: Params, pages: seq<Page>, row: Row)
    requires KeyedWalk(schema, p, pages) && Completed(pages) && Stays(p, pages, row)
    ensures row in Delivered(pages, |pages|)
  {
    var n := |pages| - 1;
    DeliveredOrAhead(schema, p, pages, row, n);
    if row !in Delivered(pages, n) && row !in pages[n].data {
      assert Step(schema, p, pages, n);
      OnPageOrLater(schema, p, pages[n], row);
    }
  }

  /** A row delivered comes only once. */
  lemma {:induction false} RowOnce(schema: Option<Schema>, p: Params, pages: seq<Page>, i: nat, j: nat)
    requires KeyedWalk(schema, p, pages) && i < j < |Delivered(pages, |pages|)|
    ensures Delivered(pages, |pages|)[i] != Delivered(pages, |pages|)[j]
  {
    var d := Delivered(pages, |pages|);
    DeliveredAscends(schema, p, pages, |pages|);
    BeforeIrreflexive(OrderBy(schema, p), d[i]);
    assert Before(OrderBy(schema, p), d[i], d[j]);
  }

  /** Nothing else is returned: each row came from the table of its page and matches the filters. */
  lemma {:induction false} DeliveredMatches(schema: Option<Schema>, p: Params, pages: seq<Page>, n: nat, row: Row)
    requires IsWalk(schema, p, pages) && n <= |pages| && row in Delivered(pages, n)
    ensures forall col :: col in p.filters ==> col in row && row[col] == p.filters[col]
    ensures exists i :: 0 <= i < n && row in pages[i].table && row in pages[i].data
  {
    assert Step(schema, p, pages, n - 1);
    if row !in pages[n - 1].data {
      DeliveredMatches(schema, p, pages, n - 1, row);
    }
  }
}
