/** In which order rows come, in terms of their values: the direction of every sort column and of
    the key behind it. */
module KeysetOrder {
  import opened Collections
  import opened KeysetQuery
  import opened KeysetBuilders
  import opened KeysetPaging
  import opened KeysetWalk

  /** The rows differ in one of the columns, and in the first such column `a` comes before `b`. */
  predicate FirstDiffers(cols: seq<string>, desc: bool, a: Row, b: Row)
    requires HasAll(cols, a) && HasAll(cols, b)
  {
    exists i :: 0 <= i < |cols| && Precedes(a[cols[i]], b[cols[i]], desc) &&
      forall j :: 0 <= j < i ==> a[cols[j]] == b[cols[j]]
  }

  lemma {:induction false} TermsOnValues(cols: seq<string>, desc: bool, a: Row, b: Row)
    requires HasAll(cols, a) && HasAll(cols, b)
    ensures Before(Terms(cols, desc), a, b) <==> FirstDiffers(cols, desc, a, b)
  {
    if cols != [] {
      var rest := cols[1..];
      assert Terms(cols, desc)[1..] == Terms(rest, desc);
      TermsOnValues(rest, desc, a, b);
      if a[cols[0]] == b[cols[0]] {
        DiffersLater(cols, desc, a, b);
      }
    }
  }

  lemma {:induction false} DiffersLater(cols: seq<string>, desc: bool, a: Row, b: Row)
    requires cols != [] && HasAll(cols, a) && HasAll(cols, b) && a[cols[0]] == b[cols[0]]
    ensures FirstDiffers(cols, desc, a, b) <==> FirstDiffers(cols[1..], desc, a, b)
  {
    var rest := cols[1..];
    if FirstDiffers(cols, desc, a, b) {
      var i :| 0 <= i < |cols| && Precedes(a[cols[i]], b[cols[i]], desc) &&
        forall j :: 0 <= j < i ==> a[cols[j]] == b[cols[j]];
      assert forall j :: 0 <= j < i - 1 ==> rest[j] == cols[j + 1];
      assert rest[i - 1] == cols[i];
    }
    if FirstDiffers(rest, desc, a, b) {
      var i :| 0 <= i < |rest| && Precedes(a[rest[i]], b[rest[i]], desc) &&
        forall j :: 0 <= j < i ==> a[rest[j]] == b[rest[j]];
      assert cols[i + 1] == rest[i];
      forall j | 0 <= j < i + 1
        ensures a[cols[j]] == b[cols[j]]
      {
        assert j > 0 ==> cols[j] == rest[j - 1];
      }
    }
  }

  // ----- the dynamic repository -----

  /** Everything a walk delivers: without a usable sort column the keys go up; with one its values
      go the requested way, and where they are equal so do the keys. */
  lemma {:induction false} DeliveredInOrder(schema: Schema, p: Params, pages: seq<Page>, i: nat, j: nat)
    requires KeyedWalk(Some(schema), p, pages) && i < j < |Delivered(pages, |pages|)|
    ensures var a, b := Delivered(pages, |pages|)[i], Delivered(pages, |pages|)[j];
      var key := schema.primaryKey[0];
      if p.sortBy != "" && p.sortBy in schema.sortable then CustomBefore(a, b, p.sortBy, key, p.sortDir == "desc")
      else key in a && key in b && a[key] < b[key]
  {
    var rows := Delivered(pages, |pages|);
    DeliveredAscends(Some(schema), p, pages, |pages|);
    assert Before(OrderBy(Some(schema), p), rows[i], rows[j]);
    DeliveredHasColumns(schema, p, pages, |pages|, rows[i]);
    DeliveredHasColumns(schema, p, pages, |pages|, rows[j]);
    OrderOnValues(schema, p, rows[i], rows[j]);
  }

  lemma {:induction false} DeliveredHasColumns(schema: Schema, p: Params, pages: seq<Page>, n: nat, row: Row)
    requires KeyedWalk(Some(schema), p, pages) && n <= |pages| && row in Delivered(pages, n)
    ensures schema.primaryKey[0] in row
    ensures p.sortBy != "" && p.sortBy in schema.sortable ==> p.sortBy in row
  {
    DeliveredMatches(Some(schema), p, pages, n, row);
    var i :| 0 <= i < n && row in pages[i].table && row in pages[i].data;
    assert Keyed(Some(schema), p, pages[i].table);
    assert p.sortBy != "" && p.sortBy in schema.sortable ==> OrderBy(Some(schema), p)[0].col == p.sortBy;
  }

  /** One page, over any table: without a usable sort column no later row has a smaller key; with one
      no later row comes first in the requested direction. */
  lemma {:induction false} PageInOrder(schema: Schema, p: Params, page: Page, i: nat, j: nat)
    requires IsPage(Some(schema), p, page) && i < j < |page.data| && schema.primaryKey != []
    requires schema.primaryKey[0] in page.data[i] && schema.primaryKey[0] in page.data[j]
    requires p.sortBy != "" && p.sortBy in schema.sortable ==> p.sortBy in page.data[i] && p.sortBy in page.data[j]
    ensures var a, b := page.data[i], page.data[j]; var key := schema.primaryKey[0];
      if p.sortBy != "" && p.sortBy in schema.sortable then !CustomBefore(b, a, p.sortBy, key, p.sortDir == "desc")
      else a[key] <= b[key]
  {
    OrderOnValues(schema, p, page.data[j], page.data[i]);
  }

  // ----- the other two builders -----

  /** The schema-driven query: the sort column unless it is none or in the key, then the key columns,
      all in the requested direction. */
  lemma {:induction false} SelectInOrder(schema: Schema, p: SelectParams, a: Row, b: Row)
    requires schema.primaryKey != []
    requires var cols := (if p.sortBy != "" && p.sortBy in schema.sortable && p.sortBy !in schema.primaryKey
        then [p.sortBy] else []) + schema.primaryKey;
      HasAll(cols, a) && HasAll(cols, b)
    ensures var cols := (if p.sortBy != "" && p.sortBy in schema.sortable && p.sortBy !in schema.primaryKey
        then [p.sortBy] else []) + schema.primaryKey;
      Before(Terms(SortColumns(schema.primaryKey, SortColumn(schema, p.sortBy)), p.desc), a, b) <==>
        FirstDiffers(cols, p.desc, a, b)
  {
    var cols := SortColumns(schema.primaryKey, SortColumn(schema, p.sortBy));
    assert schema.primaryKey[0] in schema.primaryKey;
    TermsOnValues(cols, p.desc, a, b);
  }

  /** The fixed-schema query: one of the five sort columns, otherwise the id, then the id. */
  lemma {:induction false} RecordsInOrder(p: RecordParams, a: Row, b: Row)
    requires var col := if p.sortBy in {"created_at", "updated_at", "name", "category"} then p.sortBy else "id";
      "id" in a && "id" in b && col in a && col in b
    ensures var col := if p.sortBy in {"created_at", "updated_at", "name", "category"} then p.sortBy else "id";
      Before(RecordOrder(RecordSort(p.sortBy), p.desc), a, b) <==> CustomBefore(a, b, col, "id", p.desc)
  {
    var cols := [RecordSort(p.sortBy), "id"];
    assert Terms(cols, p.desc) == RecordOrder(RecordSort(p.sortBy), p.desc);
    TermsOnValues(cols, p.desc, a, b);
    if FirstDiffers(cols, p.desc, a, b) {
      var i :| 0 <= i < |cols| && Precedes(a[cols[i]], b[cols[i]], p.desc) &&
        forall j :: 0 <= j < i ==> a[cols[j]] == b[cols[j]];
      assert i == 1 ==> a[cols[0]] == b[cols[0]];
    }
    assert cols[0] == RecordSort(p.sortBy) && cols[1] == "id";
  }
}
