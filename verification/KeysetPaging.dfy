/** One page of the dynamic repository: running the built query and cutting the page. */
module KeysetPaging {
  import opened Collections
  import opened KeysetQuery
  import opened KeysetBuilders

  // ----- what the database answers -----

  /** No later row comes before an earlier one. */
  ghost predicate Sorted(order: seq<Term>, rows: seq<Row>) {
    forall i, j :: 0 <= i < j < |rows| ==> !Before(order, rows[j], rows[i])
  }

  /** Rows left out do not come before rows returned. */
  ghost predicate Leads(order: seq<Term>, rows: seq<Row>, rest: set<Row>) {
    forall x, y :: x in rest && y in rows ==> !Before(order, x, y)
  }

  /** The first `n` of the matching rows in some listing that respects the ORDER BY. */
  ghost predicate IsAnswer(order: seq<Term>, matching: set<Row>, n: nat, rows: seq<Row>) {
    && Distinct(rows) && Sorted(order, rows)
    && (forall r :: r in rows ==> r in matching)
    && |rows| == Min(n, |matching|)
    && Leads(order, rows, matching - Elements(rows))
  }

  /** A row no other row comes before. */
  method FirstOf(order: seq<Term>, rows: set<Row>) returns (m: Row)
    requires rows != {}
    ensures m in rows && forall x :: x in rows ==> !Before(order, x, m)
  {
    m :| m in rows;
    BeforeIrreflexive(order, m);
    var rest := rows - {m};
    while rest != {}
      invariant rest <= rows && m in rows
      invariant forall x :: x in rows ==> x in rest || !Before(order, x, m)
      decreases rest
    {
      var x :| x in rest;
      if Before(order, x, m) {
        forall y | y in rows && y !in rest - {x}
          ensures !Before(order, y, x)
        {
          BeforeIrreflexive(order, x);
          if Before(order, y, x) {
            BeforeTransitive(order, y, x, m);
          }
        }
        m := x;
      }
      rest := rest - {x};
    }
  }

  lemma AnswerSnoc(order: seq<Term>, rows: seq<Row>, m: Row, rest: set<Row>)
    requires Distinct(rows) && Sorted(order, rows) && Leads(order, rows, rest)
    requires m in rest && m !in rows && forall x :: x in rest ==> !Before(order, x, m)
    ensures Distinct(rows + [m]) && Sorted(order, rows + [m]) && Leads(order, rows + [m], rest - {m})
  {
  }

  function Limit(q: Query, args: seq<int>): nat {
    if 1 <= q.limit <= |args| && args[q.limit - 1] >= 0 then args[q.limit - 1] else 0
  }

  /** SELECT ... WHERE ... ORDER BY ... LIMIT over a set of rows. */
  method Execute(q: Query, args: seq<int>, table: set<Row>) returns (rows: seq<Row>)
    ensures IsAnswer(q.order, (set row | row in table && WhereHolds(q.where, args, row)), Limit(q, args), rows)
  {
    var matching := set row | row in table && WhereHolds(q.where, args, row);
    var rest := matching;
    rows := [];
    while rest != {} && |rows| < Limit(q, args)
      invariant |rows| <= Limit(q, args) && rest == matching - Elements(rows)
      invariant forall r :: r in rows ==> r in matching
      invariant Distinct(rows) && Sorted(q.order, rows) && Leads(q.order, rows, rest)
      decreases rest
    {
      var m := FirstOf(q.order, rest);
      AnswerSnoc(q.order, rows, m, rest);
      rows := rows + [m];
      rest := rest - {m};
    }
    DistinctSize(rows);
    assert matching == Elements(rows) + rest;
  }

  lemma {:induction false} AnswerPrefix(order: seq<Term>, matching: set<Row>, n: nat, k: nat, rows: seq<Row>)
    requires IsAnswer(order, matching, n, rows) && k <= n
    ensures IsAnswer(order, matching, k, Take(rows, k))
  {
    var cut := Take(rows, k);
    assert forall i :: 0 <= i < |cut| ==> cut[i] == rows[i] && rows[i] in Elements(cut);
    forall x, y | x in matching - Elements(cut) && y in cut
      ensures !Before(order, x, y)
    {
      if x in rows {
        var i :| 0 <= i < |rows| && rows[i] == x;
        var j :| 0 <= j < |cut| && cut[j] == y;
        assert i >= |cut|;
      }
    }
  }

  // ----- one page -----

  datatype Page = Page(table: set<Row>, cursor: Option<Cursor>, data: seq<Row>, hasMore: bool, next: Option<Cursor>)

  /** The rows a page is chosen from: those matching the filters, strictly after the cursor. */
  ghost function Remaining(schema: Option<Schema>, p: Params, table: set<Row>, cursor: Option<Cursor>): set<Row> {
    set row | row in table && Matches(p.filters, row) &&
      (Positioned(schema, p, cursor) ==> Before(OrderBy(schema, p), cursor.value.record, row))
  }

  function OffsetOf(cursor: Option<Cursor>): int { if cursor.Some? then cursor.value.offset else 0 }

  /** The page holds the first `limit` of the remaining rows; `hasMore` tells whether any are left;
      the next cursor is the last row with the rows counted so far. */
  ghost predicate IsPage(schema: Option<Schema>, p: Params, page: Page) {
    var remaining := Remaining(schema, p, page.table, page.cursor);
    && IsAnswer(OrderBy(schema, p), remaining, p.limit, page.data)
    && (page.hasMore <==> |remaining| > p.limit)
    && page.next == (if page.hasMore && page.data != []
       then Some(Cursor(page.data[|page.data| - 1], p.limit + OffsetOf(page.cursor))) else None)
  }

  /** Build the query and run it. */
  method QueryRows(schema: Option<Schema>, p: Params, table: set<Row>, cursor: Option<Cursor>) returns (rows: seq<Row>)
    ensures IsAnswer(OrderBy(schema, p), Remaining(schema, p, table, cursor), p.limit + 1, rows)
  {
    var query, args := BuildQuery(schema, p, cursor);
    rows := Execute(query, args, table);
    assert Remaining(schema, p, table, cursor) == set row | row in table && WhereHolds(query.where, args, row);
  }

  /** Fetch one page, unless the query fails. A cursor that does not decode is no cursor. */
  method GetRecords(schema: Option<Schema>, p: Params, table: set<Row>, cursor: Option<Cursor>, queryOk: bool)
    returns (data: seq<Row>, next: Option<Cursor>, hasMore: bool, ok: bool)
    ensures ok <==> queryOk
    ensures ok ==> IsPage(schema, p, Page(table, cursor, data, hasMore, next))
    ensures !ok ==> data == [] && next == None && !hasMore
  {
    ok := queryOk;
    if !ok {
      return [], None, false, false;
    }
    var rows := QueryRows(schema, p, table, cursor);
    ghost var remaining := Remaining(schema, p, table, cursor);
    var records := [];
    var i := 0;
    while i < |rows| && |records| < p.limit + 1
      invariant 0 <= i <= |rows| && records == rows[..i]
    {
      records := records + [rows[i]];
      i := i + 1;
    }
    assert records == rows;
    hasMore := |records| > p.limit;
    AnswerPrefix(OrderBy(schema, p), remaining, p.limit + 1, p.limit, rows);
    if hasMore {
      records := records[..p.limit];
    }
    next := None;
    if hasMore && |records| > 0 {
      var newOffset := p.limit;
      if cursor.Some? {
        newOffset := newOffset + cursor.value.offset;
      }
      next := Some(Cursor(records[|records| - 1], newOffset));
    }
    data := records;
  }
}
