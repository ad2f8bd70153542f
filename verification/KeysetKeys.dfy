/** When a key can come twice: a row that is updated between two pages can move past the cursor and
    be returned again, under exactly those queries whose order the key does not decide. */
module KeysetKeys {
  import opened Collections
  import opened KeysetQuery
  import opened KeysetBuilders
  import opened KeysetPaging
  import opened KeysetWalk
  import opened JsonNumbers

  ghost predicate RepeatsKey(key: string, rows: seq<Row>) {
    exists i, j :: 0 <= i < j < |rows| && key in rows[i] && key in rows[j] && rows[i][key] == rows[j][key]
  }

  /** No row of a later page's table has moved forward, in the page order, from where its key stood. */
  ghost predicate NeverForward(schema: Option<Schema>, p: Params, pages: seq<Page>)
    requires schema.Some? && schema.value.primaryKey != []
  {
    var key := schema.value.primaryKey[0];
    forall i, j, a, b :: 0 <= i <= j < |pages| && a in pages[i].table && b in pages[j].table ==>
      key in a && key in b && a[key] == b[key] ==> !Before(OrderBy(schema, p), a, b)
  }

  /** Where a delivered row came from. */
  lemma {:induction false} DeliveredFrom(schema: Option<Schema>, p: Params, pages: seq<Page>, n: nat, i: nat)
    returns (k: nat)
    requires IsWalk(schema, p, pages) && n <= |pages| && i < |Delivered(pages, n)|
    ensures k < n && Delivered(pages, n)[i] in pages[k].table && Matches(p.filters, Delivered(pages, n)[i])
    ensures forall m :: k < m < n ==> |Delivered(pages, m)| > i
    ensures i >= |Delivered(pages, k)|
  {
    assert Step(schema, p, pages, n - 1);
    if i < |Delivered(pages, n - 1)| {
      k := DeliveredFrom(schema, p, pages, n - 1, i);
    } else {
      k := n - 1;
      assert Delivered(pages, n)[i] in pages[n - 1].data;
    }
  }

  /** Without forward moves no key comes twice; in particular when rows are only inserted and deleted. */
  lemma {:induction false} NoKeyTwice(schema: Option<Schema>, p: Params, pages: seq<Page>)
    requires KeyedWalk(schema, p, pages) && schema.Some? && schema.value.primaryKey != []
    requires NeverForward(schema, p, pages)
    ensures !RepeatsKey(schema.value.primaryKey[0], Delivered(pages, |pages|))
  {
    var d := Delivered(pages, |pages|);
    DeliveredAscends(schema, p, pages, |pages|);
    forall i, j | 0 <= i < j < |d|
      ensures Before(OrderBy(schema, p), d[i], d[j])
      ensures exists a, b :: 0 <= a <= b < |pages| && d[i] in pages[a].table && d[j] in pages[b].table
    {
      var a := DeliveredFrom(schema, p, pages, |pages|, i);
      var b := DeliveredFrom(schema, p, pages, |pages|, j);
    }
  }

  // ----- the exact condition -----

  /** The key decides the order among matching rows: it is the only sort term, or a filter fixes the
      sort column or the key itself. */
  predicate KeyDecides(schema: Option<Schema>, p: Params)
    requires schema.Some? && schema.value.primaryKey != []
  {
    |OrderBy(schema, p)| == 1 || p.sortBy in p.filters || schema.value.primaryKey[0] in p.filters
  }

  /** Of matching rows with one key, none comes before another when the key or the sort column
      decides. */
  lemma {:induction false} SameKeyNotBefore(schema: Option<Schema>, p: Params, a: Row, b: Row)
    requires schema.Some? && schema.value.primaryKey != [] && Matches(p.filters, a) && Matches(p.filters, b)
    requires |OrderBy(schema, p)| == 1 || p.sortBy in p.filters
    requires var key := schema.value.primaryKey[0]; key in a && key in b && a[key] == b[key]
    ensures !Before(OrderBy(schema, p), a, b)
  {
    var order := OrderBy(schema, p);
    var key := schema.value.primaryKey[0];
    if |order| == 1 {
      assert order == [order[0]];
      OneTerm(order[0], a, b);
    } else {
      assert order[1..] == [Term(key, order[1].desc)];
      OneTerm(order[1], a, b);
    }
  }

  /** With the key fixed by a filter at most one row matches, so the first page is the last. */
  lemma {:induction false} FixedKeyOneRow(schema: Option<Schema>, p: Params, pages: seq<Page>)
    requires KeyedWalk(schema, p, pages) && pages != [] && schema.Some? && schema.value.primaryKey != []
    requires schema.value.primaryKey[0] in p.filters
    ensures |pages| == 1 && |pages[0].data| <= 1
  {
    assert Step(schema, p, pages, 0);
    assert |pages| > 1 ==> Step(schema, p, pages, 1);
    var remaining := Remaining(schema, p, pages[0].table, pages[0].cursor);
    AtMostOne(remaining);
  }

  lemma {:induction false} AtMostOne(rows: set<Row>)
    requires forall a, b :: a in rows && b in rows ==> a == b
    ensures |rows| <= 1
  {
    if rows != {} {
      var r :| r in rows;
      assert rows == {r};
    }
  }

  lemma {:induction false} KeyDecidesNoRepeat(schema: Option<Schema>, p: Params, pages: seq<Page>)
    requires KeyedWalk(schema, p, pages) && schema.Some? && schema.value.primaryKey != [] && KeyDecides(schema, p)
    ensures !RepeatsKey(schema.value.primaryKey[0], Delivered(pages, |pages|))
  {
    var key := schema.value.primaryKey[0];
    var d := Delivered(pages, |pages|);
    if |OrderBy(schema, p)| == 1 || p.sortBy in p.filters {
      DeliveredAscends(schema, p, pages, |pages|);
      forall i, j | 0 <= i < j < |d| && key in d[i] && key in d[j]
        ensures d[i][key] != d[j][key]
      {
        DeliveredMatches(schema, p, pages, |pages|, d[i]);
        DeliveredMatches(schema, p, pages, |pages|, d[j]);
        assert Before(OrderBy(schema, p), d[i], d[j]);
        if d[i][key] == d[j][key] {
          SameKeyNotBefore(schema, p, d[i], d[j]);
        }
      }
    } else if pages != [] {
      FixedKeyOneRow(schema, p, pages);
      assert Delivered(pages, 0) == [];
    }
  }

  // ----- the walk that repeats a key -----

  /** A matching row with the given sort value and key. */
  function RowAt(schema: Option<Schema>, p: Params, x: int, v: int): Row
    requires schema.Some? && schema.value.primaryKey != []
  {
    p.filters[p.sortBy := x][schema.value.primaryKey[0] := v]
  }

  /** What the construction needs: a custom sort, not by the key, with neither column filtered. */
  ghost predicate Free(schema: Option<Schema>, p: Params) {
    schema.Some? && schema.value.primaryKey != [] && p.limit > 0 && !KeyDecides(schema, p)
  }

  lemma {:induction false} TwoTermOrder(schema: Option<Schema>, p: Params)
    requires Free(schema, p)
    ensures var desc := p.sortDir == "desc"; var key := schema.value.primaryKey[0];
      p.sortBy != key && OrderBy(schema, p) == [Term(p.sortBy, desc), Term(key, desc)]
  {
  }

  lemma {:induction false} RowsCompare(schema: Option<Schema>, p: Params, x: int, v: int, y: int, w: int)
    requires Free(schema, p)
    ensures Before(OrderBy(schema, p), RowAt(schema, p, x, v), RowAt(schema, p, y, w)) <==>
      if p.sortDir == "desc" then y < x || (y == x && w < v) else x < y || (x == y && v < w)
  {
    TwoTermOrder(schema, p);
    var desc, key := p.sortDir == "desc", schema.value.primaryKey[0];
    assert OrderBy(schema, p)[1..] == [Term(key, desc)];
    OneTerm(Term(key, desc), RowAt(schema, p, x, v), RowAt(schema, p, y, w));
  }

  lemma {:induction false} RowAtFits(schema: Option<Schema>, p: Params, x: int, v: int)
    requires Free(schema, p)
    ensures Matches(p.filters, RowAt(schema, p, x, v)) && HasColumns(OrderBy(schema, p), RowAt(schema, p, x, v))
    ensures var r := RowAt(schema, p, x, v); var key := schema.value.primaryKey[0];
      key in r && r[key] == v && p.sortBy in r && r[p.sortBy] == x
  {
    TwoTermOrder(schema, p);
  }

  /** The key of the `i`-th row of a full page that ends with key 0; `limit` gives the row after it. */
  function KeyAt(p: Params, i: int): int {
    if p.sortDir == "desc" then p.limit - 1 - i else i - (p.limit - 1)
  }

  function Rows(schema: Option<Schema>, p: Params, n: nat): seq<Row>
    requires schema.Some? && schema.value.primaryKey != []
  {
    seq(n, i => RowAt(schema, p, 0, KeyAt(p, i)))
  }

  /** The first page: full, with one more row behind it. */
  ghost function FirstPage(schema: Option<Schema>, p: Params): Page
    requires Free(schema, p)
  {
    var data := Rows(schema, p, p.limit);
    Page(Elements(Rows(schema, p, p.limit + 1)), None, data, true, Some(Cursor(data[p.limit - 1], p.limit)))
  }

  /** The second page: the last row delivered, updated to a sort value beyond the cursor. */
  ghost function SecondPage(schema: Option<Schema>, p: Params): Page
    requires Free(schema, p)
  {
    var moved := RowAt(schema, p, if p.sortDir == "desc" then -1 else 1, 0);
    Page({moved}, Some(Decoded(FirstPage(schema, p).next.value)), [moved], false, None)
  }

  lemma {:induction false} RowsOrdered(schema: Option<Schema>, p: Params, n: nat, i: nat, j: nat)
    requires Free(schema, p) && i < j < n
    ensures var rows := Rows(schema, p, n); rows[i] != rows[j] && !Before(OrderBy(schema, p), rows[j], rows[i])
  {
    RowsCompare(schema, p, 0, KeyAt(p, j), 0, KeyAt(p, i));
    RowAtFits(schema, p, 0, KeyAt(p, i));
    RowAtFits(schema, p, 0, KeyAt(p, j));
  }

  lemma {:induction false} RowsListed(schema: Option<Schema>, p: Params, n: nat)
    requires Free(schema, p)
    ensures Distinct(Rows(schema, p, n)) && Sorted(OrderBy(schema, p), Rows(schema, p, n)) &&
      |Elements(Rows(schema, p, n))| == n
  {
    var rows := Rows(schema, p, n);
    forall i, j | 0 <= i < j < |rows|
      ensures rows[i] != rows[j] && !Before(OrderBy(schema, p), rows[j], rows[i])
    {
      RowsOrdered(schema, p, n, i, j);
    }
    DistinctSize(rows);
  }

  /** The extra row is the only one not on the page, and comes after all of it. */
  lemma {:induction false} ExtraRow(schema: Option<Schema>, p: Params)
    requires Free(schema, p)
    ensures Elements(Rows(schema, p, p.limit + 1)) ==
      Elements(Rows(schema, p, p.limit)) + {RowAt(schema, p, 0, KeyAt(p, p.limit))}
    ensures forall y :: y in Rows(schema, p, p.limit) ==>
      !Before(OrderBy(schema, p), RowAt(schema, p, 0, KeyAt(p, p.limit)), y)
  {
    var all, data, extra := Rows(schema, p, p.limit + 1), Rows(schema, p, p.limit),
      RowAt(schema, p, 0, KeyAt(p, p.limit));
    assert all == data + [extra];
    ElementsAppend(data, [extra]);
    forall y | y in data
      ensures !Before(OrderBy(schema, p), extra, y)
    {
      var i :| 0 <= i < p.limit && data[i] == y;
      RowsOrdered(schema, p, p.limit + 1, i, p.limit);
    }
  }

  lemma {:induction false} AnswerWithExtra(order: seq<Term>, data: seq<Row>, extra: Row)
    requires Distinct(data) && Sorted(order, data) && |Elements(data) + {extra}| == |data| + 1
    requires forall y :: y in data ==> !Before(order, extra, y)
    ensures IsAnswer(order, Elements(data) + {extra}, |data|, data)
  {
    assert Elements(data) + {extra} - Elements(data) <= {extra};
    assert forall r :: r in data ==> r in Elements(data);
  }

  lemma {:induction false} FirstPageAnswer(schema: Option<Schema>, p: Params)
    requires Free(schema, p)
    ensures IsAnswer(OrderBy(schema, p), FirstPage(schema, p).table, p.limit, FirstPage(schema, p).data)
    ensures |FirstPage(schema, p).table| == p.limit + 1
  {
    RowsListed(schema, p, p.limit);
    RowsListed(schema, p, p.limit + 1);
    ExtraRow(schema, p);
    var page := FirstPage(schema, p);
    assert page.data == Rows(schema, p, p.limit) && page.table == Elements(Rows(schema, p, p.limit + 1));
    AnswerWithExtra(OrderBy(schema, p), Rows(schema, p, p.limit), RowAt(schema, p, 0, KeyAt(p, p.limit)));
  }

  lemma {:induction false} FirstTableKeyed(schema: Option<Schema>, p: Params)
    requires Free(schema, p)
    ensures Keyed(schema, p, FirstPage(schema, p).table)
    ensures forall r :: r in FirstPage(schema, p).table ==> Matches(p.filters, r)
  {
    var key := schema.value.primaryKey[0];
    forall r | r in FirstPage(schema, p).table
      ensures key in r && r == RowAt(schema, p, 0, r[key]) && HasColumns(OrderBy(schema, p), r) && Matches(p.filters, r)
    {
      var all := Rows(schema, p, p.limit + 1);
      var i :| 0 <= i < |all| && all[i] == r;
      RowAtFits(schema, p, 0, KeyAt(p, i));
    }
  }

  lemma {:induction false} FirstStep(schema: Option<Schema>, p: Params)
    requires Free(schema, p)
    ensures IsPage(schema, p, FirstPage(schema, p))
  {
    var page := FirstPage(schema, p);
    FirstPageAnswer(schema, p);
    FirstTableKeyed(schema, p);
    assert Remaining(schema, p, page.table, None) == page.table;
  }

  lemma {:induction false} CursorRow(schema: Option<Schema>, p: Params)
    requires Free(schema, p)
    ensures FirstPage(schema, p).next.value.record == RowAt(schema, p, 0, 0)
    ensures ExactOn(OrderBy(schema, p), RowAt(schema, p, 0, 0))
  {
    assert KeyAt(p, p.limit - 1) == 0;
    TwoTermOrder(schema, p);
    RowAtFits(schema, p, 0, 0);
    ExactBelow(0);
  }

  lemma {:induction false} SecondStep(schema: Option<Schema>, p: Params)
    requires Free(schema, p)
    ensures IsPage(schema, p, SecondPage(schema, p)) && Keyed(schema, p, SecondPage(schema, p).table)
  {
    var page := SecondPage(schema, p);
    var x := if p.sortDir == "desc" then -1 else 1;
    var moved := RowAt(schema, p, x, 0);
    RowAtFits(schema, p, x, 0);
    CursorRow(schema, p);
    DecodedPositioned(schema, p, FirstPage(schema, p).next.value);
    DecodedBefore(OrderBy(schema, p), FirstPage(schema, p).next.value, moved);
    RowsCompare(schema, p, 0, 0, x, 0);
    assert Remaining(schema, p, page.table, page.cursor) == {moved};
    BeforeIrreflexive(OrderBy(schema, p), moved);
    assert Elements([moved]) == {moved};
  }

  ghost function MovedWalk(schema: Option<Schema>, p: Params): seq<Page>
    requires Free(schema, p)
  {
    [FirstPage(schema, p), SecondPage(schema, p)]
  }

  lemma {:induction false} MovedWalkKeyed(schema: Option<Schema>, p: Params)
    requires Free(schema, p)
    ensures KeyedWalk(schema, p, MovedWalk(schema, p))
  {
    var pages := MovedWalk(schema, p);
    FirstStep(schema, p);
    FirstTableKeyed(schema, p);
    SecondStep(schema, p);
    CursorRow(schema, p);
    assert Step(schema, p, pages, 0) && Step(schema, p, pages, 1);
  }

  lemma {:induction false} MovedWalkDelivers(schema: Option<Schema>, p: Params)
    requires Free(schema, p)
    ensures var pages := MovedWalk(schema, p);
      Delivered(pages, |pages|) == FirstPage(schema, p).data + SecondPage(schema, p).data
  {
    var pages := MovedWalk(schema, p);
    assert Delivered(pages, 0) == [];
    assert Delivered(pages, 1) == FirstPage(schema, p).data;
  }

  /** A delivered row whose sort value moves beyond the cursor is returned again. */
  lemma {:induction false} MovedRowRepeats(schema: Option<Schema>, p: Params)
    requires Free(schema, p)
    ensures var pages := MovedWalk(schema, p);
      KeyedWalk(schema, p, pages) && Completed(pages) &&
        RepeatsKey(schema.value.primaryKey[0], Delivered(pages, |pages|))
  {
    var pages := MovedWalk(schema, p);
    MovedWalkKeyed(schema, p);
    MovedWalkDelivers(schema, p);
    CursorRow(schema, p);
    RowAtFits(schema, p, 0, 0);
    RowAtFits(schema, p, if p.sortDir == "desc" then -1 else 1, 0);
    var d := Delivered(pages, |pages|);
    assert d[p.limit - 1] == RowAt(schema, p, 0, 0) && d[p.limit] == SecondPage(schema, p).data[0];
  }

  /** For rows that are inserted, deleted and updated at will: no walk of a query ever returns a key
      twice exactly when the key decides its order. */
  lemma {:induction false} NoKeyTwiceIff(schema: Option<Schema>, p: Params)
    requires schema.Some? && schema.value.primaryKey != [] && p.limit > 0
    ensures (forall pages :: KeyedWalk(schema, p, pages) ==>
      !RepeatsKey(schema.value.primaryKey[0], Delivered(pages, |pages|)))
       <==> KeyDecides(schema, p)
  {
    if KeyDecides(schema, p) {
      forall pages | KeyedWalk(schema, p, pages)
        ensures !RepeatsKey(schema.value.primaryKey[0], Delivered(pages, |pages|))
      {
        KeyDecidesNoRepeat(schema, p, pages);
      }
    } else {
      MovedRowRepeats(schema, p);
    }
  }
}
