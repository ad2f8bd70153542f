/** The three query builders: the schema-driven one with composite keys, the dynamic repository's
    and the fixed-schema repository's. Each is proved to select the filtered rows strictly after
    the cursor's row in the very order it sorts by. */
module KeysetBuilders {
  import opened Collections
  import opened KeysetQuery

  /** What the registry knows of a table. */
  datatype Schema = Schema(primaryKey: seq<string>, sortable: set<string>)

  datatype Built = Built(query: Query, args: seq<int>) | TableNotFound | NoPrimaryKey | BadCursor

  // ----- conditions keep their meaning when arguments are added -----

  predicate AtomsBounded(atoms: seq<Atom>, n: nat) {
    forall i :: 0 <= i < |atoms| ==> 1 <= atoms[i].arg <= n
  }

  predicate CondBounded(cond: Cond, n: nat) {
    forall i :: 0 <= i < |cond| ==> AtomsBounded(cond[i], n)
  }

  /** All placeholders are among the first `n` arguments. */
  predicate WhereBounded(where: seq<Cond>, n: nat) {
    forall i :: 0 <= i < |where| ==> CondBounded(where[i], n)
  }

  lemma {:induction false} AtomsExtend(atoms: seq<Atom>, args: seq<int>, more: seq<int>, row: Row)
    requires AtomsBounded(atoms, |args|)
    ensures AtomsBounded(atoms, |args + more|) && (AllHold(atoms, args + more, row) <==> AllHold(atoms, args, row))
  {
    forall i | 0 <= i < |atoms|
      ensures AtomHolds(atoms[i], args + more, row) <==> AtomHolds(atoms[i], args, row)
    {
    }
  }

  lemma {:induction false} CondExtend(cond: Cond, args: seq<int>, more: seq<int>, row: Row)
    requires CondBounded(cond, |args|)
    ensures CondBounded(cond, |args + more|) && (Holds(cond, args + more, row) <==> Holds(cond, args, row))
  {
    forall i | 0 <= i < |cond|
      ensures AtomsBounded(cond[i], |args + more|) &&
        (AllHold(cond[i], args + more, row) <==> AllHold(cond[i], args, row))
    {
      AtomsExtend(cond[i], args, more, row);
    }
  }

  lemma {:induction false} WhereExtend(where: seq<Cond>, args: seq<int>, more: seq<int>, row: Row)
    requires WhereBounded(where, |args|)
    ensures WhereBounded(where, |args + more|) &&
      (WhereHolds(where, args + more, row) <==> WhereHolds(where, args, row))
  {
    forall i | 0 <= i < |where|
      ensures CondBounded(where[i], |args + more|) &&
        (Holds(where[i], args + more, row) <==> Holds(where[i], args, row))
    {
      CondExtend(where[i], args, more, row);
    }
  }

  lemma {:induction false} WhereSnoc(where: seq<Cond>, cond: Cond, args: seq<int>, row: Row)
    ensures WhereHolds(where + [cond], args, row) <==> WhereHolds(where, args, row) && Holds(cond, args, row)
  {
    var all := where + [cond];
    assert all[|where|] == cond;
    assert forall i :: 0 <= i < |where| ==> all[i] == where[i];
    if WhereHolds(all, args, row) {
      assert forall i :: 0 <= i < |where| ==> Holds(all[i], args, row);
    }
  }

  lemma {:induction false} AddCondition(where: seq<Cond>, args: seq<int>, cond: Cond, more: seq<int>, row: Row)
    requires WhereBounded(where, |args|)
    ensures WhereHolds(where + [cond], args + more, row) <==>
      WhereHolds(where, args, row) && Holds(cond, args + more, row)
  {
    WhereExtend(where, args, more, row);
    WhereSnoc(where, cond, args + more, row);
  }

  lemma {:induction false} AddBounded(where: seq<Cond>, args: seq<int>, cond: Cond, more: seq<int>)
    requires WhereBounded(where, |args|) && CondBounded(cond, |args + more|)
    ensures WhereBounded(where + [cond], |args + more|)
  {
    WhereExtend(where, args, more, map[]);
  }

  // ----- filters -----

  predicate MatchesOn(filters: map<string, int>, cols: set<string>, row: Row) {
    forall c :: c in cols && c in filters ==> c in row && row[c] == filters[c]
  }

  /** The row has the wanted value in every filter column. */
  predicate Matches(filters: map<string, int>, row: Row) {
    MatchesOn(filters, filters.Keys, row)
  }

  lemma {:induction false} FilterAtom(col: string, val: int, args: seq<int>, row: Row)
    ensures Holds([[Atom(col, Eq, |args| + 1)]], args + [val], row) <==> col in row && row[col] == val
  {
    var atom := Atom(col, Eq, |args| + 1);
    var cond := [[atom]];
    assert cond[0][0] == atom;
    assert AllHold(cond[0], args + [val], row) <==> AtomHolds(atom, args + [val], row);
  }

  /** Add an equality for every filter, in whatever order the map is enumerated. */
  method AddFilters(where: seq<Cond>, args: seq<int>, filters: map<string, int>)
    returns (all: seq<Cond>, bound: seq<int>)
    requires WhereBounded(where, |args|)
    ensures WhereBounded(all, |bound|) && |bound| == |args| + |filters|
    ensures forall row :: WhereHolds(all, bound, row) <==> WhereHolds(where, args, row) && Matches(filters, row)
  {
    all, bound := where, args;
    var rest := filters.Keys;
    while rest != {}
      invariant rest <= filters.Keys && WhereBounded(all, |bound|) && |bound| + |rest| == |args| + |filters|
      invariant forall row :: WhereHolds(all, bound, row) <==>
        WhereHolds(where, args, row) && MatchesOn(filters, filters.Keys - rest, row)
      decreases rest
    {
      var col :| col in rest;
      var cond := [[Atom(col, Eq, |bound| + 1)]];
      forall row: Row
        ensures WhereHolds(all + [cond], bound + [filters[col]], row) <==>
          WhereHolds(where, args, row) && MatchesOn(filters, filters.Keys - (rest - {col}), row)
      {
        AddCondition(all, bound, cond, [filters[col]], row);
        FilterAtom(col, filters[col], bound, row);
        MatchesMore(filters, filters.Keys - rest, filters.Keys - (rest - {col}), col, row);
      }
      AddBounded(all, bound, cond, [filters[col]]);
      all := all + [cond];
      bound := bound + [filters[col]];
      rest := rest - {col};
    }
    assert filters.Keys - {} == filters.Keys;
  }

  lemma MatchesMore(filters: map<string, int>, cols: set<string>, more: set<string>, col: string, row: Row)
    requires more == cols + {col} && col in filters
    ensures MatchesOn(filters, more, row) <==> MatchesOn(filters, cols, row) && col in row && row[col] == filters[col]
  {
  }

  // ----- the schema-driven builder -----

  datatype CursorValue = CursorValue(col: string, value: int)

  /** The cursor of a request: absent, not decodable, or columns whose values may fail to parse as
      their column's type. */
  datatype RawCursor = NoCursor | Undecodable | Decodable(values: seq<RawValue>)
  datatype RawValue = RawValue(col: string, parsed: Option<int>)

  predicate Parses(raw: RawCursor) {
    match raw
    case NoCursor => true
    case Undecodable => false
    case Decodable(values) => forall i :: 0 <= i < |values| ==> values[i].parsed.Some?
  }

  function ParsedCursor(raw: RawCursor): seq<CursorValue>
    requires Parses(raw)
  {
    if raw.NoCursor? then []
    else
      seq(|raw.values|,
          i requires 0 <= i < |raw.values| => CursorValue(raw.values[i].col, raw.values[i].parsed.value))
  }

  datatype SelectParams = SelectParams(limit: int, sortBy: string, desc: bool, filters: map<string, Option<int>>)

  function Cols(cursor: seq<CursorValue>): seq<string> {
    seq(|cursor|, i requires 0 <= i < |cursor| => cursor[i].col)
  }

  function Vals(cursor: seq<CursorValue>): seq<int> {
    seq(|cursor|, i requires 0 <= i < |cursor| => cursor[i].value)
  }

  /** The sort column unless it belongs to the key, then the key columns. */
  function SortColumns(primaryKey: seq<string>, sortColumn: string): seq<string> {
    (if sortColumn == "" || sortColumn in primaryKey then [] else [sortColumn]) + primaryKey
  }

  predicate HasAll(cols: seq<string>, row: Row) {
    forall i :: 0 <= i < |cols| ==> cols[i] in row
  }

  /** The row's values of the columns. */
  function CursorOf(cols: seq<string>, row: Row): seq<CursorValue>
    requires HasAll(cols, row)
  {
    seq(|cols|, i requires 0 <= i < |cols| => CursorValue(cols[i], row[cols[i]]))
  }

  lemma CursorOfSnoc(cols: seq<string>, i: nat, row: Row)
    requires HasAll(cols, row) && i < |cols|
    ensures CursorOf(cols[..i + 1], row) == CursorOf(cols[..i], row) + [CursorValue(cols[i], row[cols[i]])]
  {
  }

  /** Remember the row's values of exactly the columns that order the pages; nothing for an unknown
      table. */
  method EncodeCursor(schema: Option<Schema>, row: Row, sortColumn: string) returns (cursor: Option<seq<CursorValue>>)
    requires schema.Some? ==> HasAll(SortColumns(schema.value.primaryKey, sortColumn), row)
    ensures cursor ==
      if schema.Some? then Some(CursorOf(SortColumns(schema.value.primaryKey, sortColumn), row)) else None
  {
    if schema == None {
      return None;
    }
    var values := EncodeValues(schema.value.primaryKey, row, sortColumn);
    cursor := Some(values);
  }

  /** The value of a sort column outside the key, then the values of the key. */
  method EncodeValues(primaryKey: seq<string>, row: Row, sortColumn: string) returns (values: seq<CursorValue>)
    requires HasAll(SortColumns(primaryKey, sortColumn), row)
    ensures values == CursorOf(SortColumns(primaryKey, sortColumn), row)
  {
    var cols := SortColumns(primaryKey, sortColumn);
    var isPK := IsKeyColumn(primaryKey, sortColumn);
    values := [];
    if sortColumn != "" && !isPK {
      assert cols[0] == sortColumn;
      values := [CursorValue(sortColumn, row[sortColumn])];
    }
    var lead := |values|;
    assert values == CursorOf(cols[..lead], row);
    for i := 0 to |primaryKey|
      invariant values == CursorOf(cols[..lead + i], row)
    {
      var pk := primaryKey[i];
      assert cols[lead + i] == pk;
      CursorOfSnoc(cols, lead + i, row);
      values := values + [CursorValue(pk, row[pk])];
    }
    assert cols[..|cols|] == cols;
  }

  method IsKeyColumn(primaryKey: seq<string>, col: string) returns (isPK: bool)
    ensures isPK <==> col in primaryKey
  {
    isPK := false;
    for i := 0 to |primaryKey|
      invariant isPK <==> col in primaryKey[..i]
    {
      isPK := isPK || col == primaryKey[i];
    }
    assert primaryKey[..|primaryKey|] == primaryKey;
  }

  /** The page size the fixed-schema and the schema-driven builder settle on. */
  function PageSize(limit: int): nat {
    if limit <= 0 || limit > 50 then 20 else limit
  }

  function SortColumn(schema: Schema, sortBy: string): string
    requires schema.primaryKey != []
  {
    if sortBy != "" && sortBy in schema.sortable then sortBy else schema.primaryKey[0]
  }

  /** The filters that are used: not blank, on a sortable column. */
  function Usable(filters: map<string, Option<int>>, sortable: set<string>): map<string, int> {
    map c | c in filters && filters[c].Some? && c in sortable :: filters[c].value
  }

  /** A row matches the filters used when it has the wanted values of the sortable columns. */
  lemma {:induction false} UsableFilters(filters: map<string, Option<int>>, sortable: set<string>, row: Row)
    ensures Matches(Usable(filters, sortable), row) <==>
      forall c :: c in filters && c in sortable && filters[c].Some? ==> c in row && row[c] == filters[c].value
  {
  }

  /** The query counts its arguments right: LIMIT takes the last one. */
  ghost predicate WellBound(q: Query, args: seq<int>, limit: nat) {
    WhereBounded(q.where, |args|) && q.limit == |args| && args != [] && args[|args| - 1] == limit + 1
  }

  lemma {:induction false} BranchesBounded(cols: seq<string>, op: Op, n: nat, start: nat, m: nat)
    requires n <= |cols| && 1 <= start && start + Tri(n) <= m + 1
    ensures CondBounded(Branches(cols, op, n, start), m)
  {
    if n > 0 {
      BranchesBounded(cols, op, n - 1, start, m);
    }
  }

  /** Close the query with LIMIT, bound to one row more than the page. */
  lemma {:induction false} LimitKeepsWhere(where: seq<Cond>, args: seq<int>, limit: nat)
    requires WhereBounded(where, |args|)
    ensures WhereBounded(where, |args| + 1)
    ensures forall row :: WhereHolds(where, args + [limit + 1], row) <==> WhereHolds(where, args, row)
  {
    forall row: Row
      ensures WhereBounded(where, |args + [limit + 1]|)
      ensures WhereHolds(where, args + [limit + 1], row) <==> WhereHolds(where, args, row)
    {
      WhereExtend(where, args, [limit + 1], row);
    }
  }

  /** The cursor condition of the schema-driven builder, when there is a cursor. */
  method AddCursor(cursor: seq<CursorValue>, desc: bool) returns (where: seq<Cond>, args: seq<int>)
    ensures WhereBounded(where, |args|)
    ensures forall row :: WhereHolds(where, args, row) <==>
      (cursor != [] ==> After(Terms(Cols(cursor), desc), Vals(cursor), row))
  {
    where, args := [], [];
    if cursor != [] {
      var cond, cursorArgs, next := BuildCursorCondition(Cols(cursor), Vals(cursor), desc, 1);
      BranchesBounded(Cols(cursor), StrictOp(desc), |cursor|, 1, |cursorArgs|);
      where, args := [cond.value], cursorArgs;
      forall row: Row
        ensures WhereHolds(where, args, row) <==> After(Terms(Cols(cursor), desc), Vals(cursor), row)
      {
        GeneralForm(Cols(cursor), Vals(cursor), desc, [], row);
        assert [] + args == args;
        assert WhereHolds(where, args, row) <==> Holds(where[0], args, row);
      }
    }
  }

  method BuildSelectQuery(schema: Option<Schema>, p: SelectParams, raw: RawCursor) returns (r: Built)
    ensures r == TableNotFound <==> schema == None
    ensures r == NoPrimaryKey <==> schema.Some? && schema.value.primaryKey == []
    ensures r == BadCursor <==> schema.Some? && schema.value.primaryKey != [] && !Parses(raw)
    ensures r.Built? ==> r.args != [] && r.args[|r.args| - 1] == if 1 <= p.limit <= 50 then p.limit + 1 else 21
    ensures r.Built? ==>
      && WellBound(r.query, r.args, PageSize(p.limit))
      && r.query.order == Terms(SortColumns(schema.value.primaryKey, SortColumn(schema.value, p.sortBy)), p.desc)
      && forall row :: WhereHolds(r.query.where, r.args, row) <==>
           && Matches(Usable(p.filters, schema.value.sortable), row)
           && (ParsedCursor(raw) != [] ==> After(Terms(Cols(ParsedCursor(raw)), p.desc), Vals(ParsedCursor(raw)), row))
  {
    if schema == None {
      return TableNotFound;
    }
    var table := schema.value;
    if |table.primaryKey| == 0 {
      return NoPrimaryKey;
    }
    if !Parses(raw) {
      return BadCursor;
    }
    var sortBy := SortColumn(table, p.sortBy);
    var where, args := AddCursor(ParsedCursor(raw), p.desc);
    where, args := AddFilters(where, args, Usable(p.filters, table.sortable));
    var limit := PageSize(p.limit);
    LimitKeepsWhere(where, args, limit);
    r := Built(Query(where, Terms(SortColumns(table.primaryKey, sortBy), p.desc), |args| + 1), args + [limit + 1]);
  }

  /** A cursor taken from a row continues strictly after that row in the order of the next query,
      for keys of any number of columns. */
  lemma {:induction false} CursorContinues(schema: Schema, sortColumn: string, desc: bool, last: Row, row: Row)
    requires HasAll(SortColumns(schema.primaryKey, sortColumn), last)
    ensures var cursor := CursorOf(SortColumns(schema.primaryKey, sortColumn), last);
      After(Terms(Cols(cursor), desc), Vals(cursor), row) <==>
        Before(Terms(SortColumns(schema.primaryKey, sortColumn), desc), last, row)
  {
    var cursor := CursorOf(SortColumns(schema.primaryKey, sortColumn), last);
    assert Cols(cursor) == SortColumns(schema.primaryKey, sortColumn);
    var order := Terms(Cols(cursor), desc);
    assert HasColumns(order, last);
    assert Position(order, last) == Vals(cursor);
    AfterIsBefore(order, last, row);
  }

  // ----- the fixed-schema repository -----

  const SORT_COLUMNS := {"id", "created_at", "updated_at", "name", "category"}
  const FILTER_COLUMNS := {"category", "status", "name"}

  datatype RecordParams = RecordParams(limit: int, sortBy: string, desc: bool, filters: map<string, Option<int>>)

  /** The decoded cursor: the id, the sort value as text, and as a time when it parses as one. */
  datatype RecordCursor = RecordCursor(id: int, text: int, time: Option<int>)

  datatype RecordQuery = RecordQuery(query: Query, args: seq<int>) | InvalidCursor | InvalidTimestamp

  function RecordSort(sortBy: string): string {
    if sortBy != "" && sortBy in SORT_COLUMNS then sortBy else "id"
  }

  predicate IsTime(sortBy: string) { sortBy == "created_at" || sortBy == "updated_at" }

  /** Its ORDER BY: the sort column, then always the id. */
  function RecordOrder(sortBy: string, desc: bool): seq<Term> {
    [Term(sortBy, desc), Term("id", desc)]
  }

  function SortValue(sortBy: string, c: RecordCursor): int
    requires IsTime(sortBy) ==> c.time.Some?
  {
    if IsTime(sortBy) then c.time.value else c.text
  }

  /** The cursor was taken from row `last`. */
  predicate RecordCursorOf(sortBy: string, c: RecordCursor, last: Row) {
    && sortBy in last && "id" in last && c.id == last["id"]
    && if IsTime(sortBy) then c.time == Some(last[sortBy]) else c.text == last[sortBy]
  }

  /** The query of the fixed-schema repository; `cursor` is None when it does not decode. */
  method BuildRecordsQuery(p: RecordParams, cursor: Option<Option<RecordCursor>>) returns (r: RecordQuery)
    ensures r == InvalidCursor <==> cursor == None
    ensures r == InvalidTimestamp <==>
      && cursor.Some? && cursor.value.Some? && cursor.value.value.time == None
      && (p.sortBy == "created_at" || p.sortBy == "updated_at")
    ensures r.RecordQuery? ==> r.args != [] && r.args[|r.args| - 1] == if 1 <= p.limit <= 50 then p.limit + 1 else 21
    ensures r.RecordQuery? ==>
      WellBound(r.query, r.args, PageSize(p.limit)) && r.query.order == RecordOrder(RecordSort(p.sortBy), p.desc)
    ensures r.RecordQuery? && cursor.value == None ==>
      forall row :: WhereHolds(r.query.where, r.args, row) <==>
        Matches(Usable(p.filters, {"category", "status", "name"}), row)
    ensures r.RecordQuery? && cursor.value.Some? ==>
      forall row, last :: RecordCursorOf(RecordSort(p.sortBy), cursor.value.value, last) ==>
        (WhereHolds(r.query.where, r.args, row) <==>
          Matches(Usable(p.filters, {"category", "status", "name"}), row) && Before(r.query.order, last, row))
  {
    if cursor == None {
      return InvalidCursor;
    }
    var sortBy := RecordSort(p.sortBy);
    var where: seq<Cond>, args: seq<int> := [], [];
    if cursor.value.Some? {
      var c := cursor.value.value;
      if IsTime(sortBy) && c.time == None {
        return InvalidTimestamp;
      }
      if sortBy == "id" {
        where := [[[Atom("id", StrictOp(p.desc), 1)]]];
        args := [c.id];
      } else {
        where := [TwoColumnForm(sortBy, "id", p.desc, 1)];
        args := [SortValue(sortBy, c), c.id];
      }
      forall row, last | RecordCursorOf(sortBy, c, last)
        ensures WhereHolds(where, args, row) <==> Before(RecordOrder(sortBy, p.desc), last, row)
      {
        RecordCondition(sortBy, p.desc, c, last, row);
      }
    }
    where, args := AddFilters(where, args, Usable(p.filters, FILTER_COLUMNS));
    LimitKeepsWhere(where, args, PageSize(p.limit));
    r := RecordQuery(Query(where, RecordOrder(sortBy, p.desc), |args| + 1), args + [PageSize(p.limit) + 1]);
  }

  lemma {:induction false} OneCondition(cond: Cond, args: seq<int>, row: Row)
    ensures WhereHolds([cond], args, row) <==> Holds(cond, args, row)
  {
    assert [cond][0] == cond;
  }

  lemma {:induction false} OneAtom(atom: Atom, args: seq<int>, row: Row)
    ensures Holds([[atom]], args, row) <==> AtomHolds(atom, args, row)
  {
    var cond := [[atom]];
    assert cond[0][0] == atom;
    assert AllHold(cond[0], args, row) <==> AtomHolds(atom, args, row);
  }

  /** Both shapes of the condition say "after the last row", also when the sort column is the id
      and the ORDER BY names it twice. */
  lemma {:induction false} RecordCondition(sortBy: string, desc: bool, c: RecordCursor, last: Row, row: Row)
    requires RecordCursorOf(sortBy, c, last)
    ensures sortBy == "id" ==>
      (WhereHolds([[[Atom("id", StrictOp(desc), 1)]]], [c.id], row) <==> Before(RecordOrder(sortBy, desc), last, row))
    ensures WhereHolds([TwoColumnForm(sortBy, "id", desc, 1)], [SortValue(sortBy, c), c.id], row) <==>
      Before(RecordOrder(sortBy, desc), last, row)
  {
    var order := RecordOrder(sortBy, desc);
    assert order[1..] == [Term("id", desc)] && order[1..][1..] == [];
    if sortBy == "id" {
      var atom := Atom("id", StrictOp(desc), 1);
      OneCondition([[atom]], [c.id], row);
      OneAtom(atom, [c.id], row);
      assert !Before(order[1..][1..], last, row);
    }
    OneCondition(TwoColumnForm(sortBy, "id", desc, 1), [SortValue(sortBy, c), c.id], row);
    TwoColumnIsAfter(sortBy, "id", desc, SortValue(sortBy, c), c.id, [], row);
    assert [] + [SortValue(sortBy, c), c.id] == [SortValue(sortBy, c), c.id];
    AfterIsBefore(order, last, row);
    assert Position(order, last) == [SortValue(sortBy, c), c.id];
  }

  // ----- the dynamic repository -----

  datatype Params = Params(limit: nat, sortBy: string, sortDir: string, filters: map<string, int>)

  /** A decoded cursor: the last record of the page before and the rows delivered so far. */
  datatype Cursor = Cursor(record: Row, offset: int)

  predicate CustomSort(schema: Option<Schema>, p: Params) {
    p.sortBy != "" && schema.Some? && p.sortBy in schema.value.sortable
  }

  /** The ORDER BY: a custom sort column with the key as tiebreaker, or the key ascending. */
  function OrderBy(schema: Option<Schema>, p: Params): seq<Term> {
    var desc := p.sortDir == "desc";
    var hasKey := schema.Some? && schema.value.primaryKey != [];
    if CustomSort(schema, p) then
      [Term(p.sortBy, desc)] +
        if hasKey && p.sortBy != schema.value.primaryKey[0] then [Term(schema.value.primaryKey[0], desc)] else []
    else if hasKey then [Term(schema.value.primaryKey[0], false)]
    else []
  }

  /** The first value comes before the second one. */
  predicate Precedes(x: int, y: int, desc: bool) { if desc then y < x else x < y }

  /** A custom sort: the sort column, then the key, both in the requested direction. */
  predicate CustomBefore(a: Row, b: Row, sortBy: string, key: string, desc: bool) {
    && sortBy in a && sortBy in b && key in a && key in b
    && (Precedes(a[sortBy], b[sortBy], desc) || (a[sortBy] == b[sortBy] && Precedes(a[key], b[key], desc)))
  }

  lemma {:induction false} OrderOnValues(schema: Schema, p: Params, a: Row, b: Row)
    requires schema.primaryKey != [] && schema.primaryKey[0] in a && schema.primaryKey[0] in b
    ensures !(p.sortBy != "" && p.sortBy in schema.sortable) ==>
      (Before(OrderBy(Some(schema), p), a, b) <==> a[schema.primaryKey[0]] < b[schema.primaryKey[0]])
    ensures p.sortBy != "" && p.sortBy in schema.sortable && p.sortBy in a && p.sortBy in b ==>
      (Before(OrderBy(Some(schema), p), a, b) <==>
        CustomBefore(a, b, p.sortBy, schema.primaryKey[0], p.sortDir == "desc"))
  {
    var key, desc := schema.primaryKey[0], p.sortDir == "desc";
    OneTerm(Term(key, false), a, b);
    OneTerm(Term(key, desc), a, b);
    OneTerm(Term(p.sortBy, desc), a, b);
    assert [Term(p.sortBy, desc), Term(key, desc)][1..] == [Term(key, desc)];
    assert [Term(p.sortBy, desc)] + [Term(key, desc)] == [Term(p.sortBy, desc), Term(key, desc)];
    assert [Term(p.sortBy, desc)] + [] == [Term(p.sortBy, desc)];
  }

  predicate HasFilterValues(filters: map<string, int>, row: Row) {
    forall col :: col in filters ==> col in row && row[col] == filters[col]
  }

  /** The row has the key, and the custom sort column if there is one. */
  predicate HasSortColumns(schema: Schema, p: Params, row: Row)
    requires schema.primaryKey != []
  {
    schema.primaryKey[0] in row && (p.sortBy != "" && p.sortBy in schema.sortable ==> p.sortBy in row)
  }

  /** By a larger key, or in the custom sort. */
  predicate ComesAfter(schema: Schema, p: Params, record: Row, row: Row)
    requires schema.primaryKey != [] && HasSortColumns(schema, p, record) && HasSortColumns(schema, p, row)
  {
    var key := schema.primaryKey[0];
    if p.sortBy != "" && p.sortBy in schema.sortable then
      CustomBefore(record, row, p.sortBy, key, p.sortDir == "desc")
    else
      record[key] < row[key]
  }

  /** The rows chosen have the filters' values and come after the record. */
  ghost predicate ChosenAfter(schema: Schema, p: Params, record: Row, where: seq<Cond>, args: seq<int>)
    requires schema.primaryKey != [] && HasSortColumns(schema, p, record)
  {
    forall row: Row :: HasSortColumns(schema, p, row) ==>
      (WhereHolds(where, args, row) <==> HasFilterValues(p.filters, row) && ComesAfter(schema, p, record, row))
  }

  lemma {:induction false} ChosenOnValues(schema: Schema, p: Params, record: Row, where: seq<Cond>, args: seq<int>)
    requires schema.primaryKey != [] && HasSortColumns(schema, p, record)
    requires forall row :: WhereHolds(where, args, row) <==>
      Matches(p.filters, row) && Before(OrderBy(Some(schema), p), record, row)
    ensures ChosenAfter(schema, p, record, where, args)
  {
    forall row: Row | HasSortColumns(schema, p, row)
      ensures WhereHolds(where, args, row) <==>
        HasFilterValues(p.filters, row) && ComesAfter(schema, p, record, row)
    {
      OrderOnValues(schema, p, record, row);
    }
  }

  /** The cursor restricts the query: the table has a key and the record has the sort columns. */
  predicate Positioned(schema: Option<Schema>, p: Params, cursor: Option<Cursor>) {
    && cursor.Some? && schema.Some? && schema.value.primaryKey != []
    && HasColumns(OrderBy(schema, p), cursor.value.record)
  }

  /** The table has a key, and the cursor's record has it and the custom sort column. */
  predicate HasPlace(schema: Option<Schema>, p: Params, cursor: Option<Cursor>) {
    && cursor.Some? && schema.Some? && schema.value.primaryKey != []
    && HasSortColumns(schema.value, p, cursor.value.record)
  }

  lemma {:induction false} PositionedIff(schema: Option<Schema>, p: Params, cursor: Option<Cursor>)
    ensures Positioned(schema, p, cursor) <==> HasPlace(schema, p, cursor)
  {
    if cursor.Some? && schema.Some? && schema.value.primaryKey != [] {
      if CustomSort(schema, p) {
        PositionedCustom(schema.value, p, cursor.value);
      } else {
        assert OrderBy(schema, p)[0].col == schema.value.primaryKey[0];
      }
    }
  }

  /** Restrict the filtered rows to those after the cursor's record. */
  method AddPlace(schema: Option<Schema>, p: Params, cursor: Option<Cursor>, filters: seq<Cond>, bound: seq<int>)
    returns (where: seq<Cond>, args: seq<int>)
    requires WhereBounded(filters, |bound|)
    requires forall row :: WhereHolds(filters, bound, row) <==> Matches(p.filters, row)
    ensures WhereBounded(where, |args|)
    ensures forall row :: WhereHolds(where, args, row) <==>
      && Matches(p.filters, row)
      && (Positioned(schema, p, cursor) ==> Before(OrderBy(schema, p), cursor.value.record, row))
  {
    where, args := filters, bound;
    if cursor.Some? && schema.Some? && |schema.value.primaryKey| > 0 {
      var cond, values := DynamicCondition(schema.value, p, cursor.value, args);
      if cond.Some? {
        forall row: Row
          ensures WhereHolds(where + [cond.value], args + values, row) <==>
            Matches(p.filters, row) && Before(OrderBy(schema, p), cursor.value.record, row)
        {
          AddCondition(where, args, cond.value, values, row);
        }
        AddBounded(where, args, cond.value, values);
        where := where + [cond.value];
        args := args + values;
      }
    }
  }

  method BuildQuery(schema: Option<Schema>, p: Params, cursor: Option<Cursor>) returns (q: Query, args: seq<int>)
    ensures WellBound(q, args, p.limit) && q.order == OrderBy(schema, p)
    ensures forall row :: WhereHolds(q.where, args, row) <==>
      Matches(p.filters, row) && (Positioned(schema, p, cursor) ==> Before(q.order, cursor.value.record, row))
    ensures HasPlace(schema, p, cursor) ==> ChosenAfter(schema.value, p, cursor.value.record, q.where, args)
    ensures !HasPlace(schema, p, cursor) ==>
      forall row :: WhereHolds(q.where, args, row) <==> HasFilterValues(p.filters, row)
  {
    var where: seq<Cond>;
    where, args := AddFilters([], [], p.filters);
    where, args := AddPlace(schema, p, cursor, where, args);
    LimitKeepsWhere(where, args, p.limit);
    q := Query(where, OrderBy(schema, p), |args| + 1);
    args := args + [p.limit + 1];
    PositionedIff(schema, p, cursor);
    if HasPlace(schema, p, cursor) {
      ChosenOnValues(schema.value, p, cursor.value.record, q.where, args);
    }
  }

  /** The condition added for a cursor, after the arguments bound so far. */
  method DynamicCondition(schema: Schema, p: Params, cursor: Cursor, args: seq<int>)
    returns (cond: Option<Cond>, values: seq<int>)
    requires schema.primaryKey != []
    ensures cond.Some? <==> Positioned(Some(schema), p, Some(cursor))
    ensures cond.Some? ==> CondBounded(cond.value, |args + values|)
    ensures cond.Some? ==>
      forall row :: Holds(cond.value, args + values, row) <==> Before(OrderBy(Some(schema), p), cursor.record, row)
    ensures cond.Some? <==> HasSortColumns(schema, p, cursor.record)
    ensures cond.Some? ==> forall row :: HasSortColumns(schema, p, row) ==>
      (Holds(cond.value, args + values, row) <==> ComesAfter(schema, p, cursor.record, row))
  {
    cond, values := None, [];
    var pkColumn := schema.primaryKey[0];
    var desc := p.sortDir == "desc";
    if CustomSort(Some(schema), p) {
      if p.sortBy in cursor.record && pkColumn in cursor.record {
        cond := Some(TwoColumnForm(p.sortBy, pkColumn, desc, |args| + 1));
        values := [cursor.record[p.sortBy], cursor.record[pkColumn]];
        forall row: Row
          ensures Holds(cond.value, args + values, row) <==> Before(OrderBy(Some(schema), p), cursor.record, row)
        {
          CustomCondition(p.sortBy, pkColumn, desc, cursor.record, args, row);
        }
      }
      PositionedCustom(schema, p, cursor);
    } else {
      if pkColumn in cursor.record {
        cond := Some([[Atom(pkColumn, Gt, |args| + 1)]]);
        values := [cursor.record[pkColumn]];
        forall row: Row
          ensures Holds(cond.value, args + values, row) <==> Before(OrderBy(Some(schema), p), cursor.record, row)
        {
          KeyCondition(pkColumn, cursor.record, args, row);
        }
      }
      assert OrderBy(Some(schema), p)[0].col == pkColumn;
    }
    PositionedIff(Some(schema), p, Some(cursor));
    forall row: Row | cond.Some? && HasSortColumns(schema, p, row)
      ensures Holds(cond.value, args + values, row) <==> ComesAfter(schema, p, cursor.record, row)
    {
      OrderOnValues(schema, p, cursor.record, row);
    }
  }

  lemma {:induction false} PositionedCustom(schema: Schema, p: Params, cursor: Cursor)
    requires schema.primaryKey != [] && CustomSort(Some(schema), p)
    ensures Positioned(Some(schema), p, Some(cursor)) <==>
      p.sortBy in cursor.record && schema.primaryKey[0] in cursor.record
  {
    var order := OrderBy(Some(schema), p);
    assert order[0].col == p.sortBy;
    assert p.sortBy != schema.primaryKey[0] ==> order[1].col == schema.primaryKey[0];
  }

  lemma {:induction false} KeyCondition(pk: string, last: Row, args: seq<int>, row: Row)
    requires pk in last
    ensures Holds([[Atom(pk, Gt, |args| + 1)]], args + [last[pk]], row) <==> Before([Term(pk, false)], last, row)
  {
    OneAtom(Atom(pk, Gt, |args| + 1), args + [last[pk]], row);
    OneTerm(Term(pk, false), last, row);
  }

  lemma {:induction false} OneTerm(t: Term, a: Row, b: Row)
    ensures Before([t], a, b) <==>
      t.col in a && t.col in b && if t.desc then b[t.col] < a[t.col] else a[t.col] < b[t.col]
  {
    assert [t][1..] == [];
    assert !Before([], a, b);
  }

  /** The two-column condition is "after the last row" in the custom order, also when the sort
      column is the key itself and the ORDER BY has one term only. */
  lemma {:induction false} CustomCondition(sortBy: string, pk: string, desc: bool, last: Row, args: seq<int>, row: Row)
    requires sortBy in last && pk in last
    ensures Holds(TwoColumnForm(sortBy, pk, desc, |args| + 1), args + [last[sortBy], last[pk]], row) <==>
      Before([Term(sortBy, desc)] + if sortBy != pk then [Term(pk, desc)] else [], last, row)
  {
    var order := [Term(sortBy, desc), Term(pk, desc)];
    TwoColumnIsAfter(sortBy, pk, desc, last[sortBy], last[pk], args, row);
    AfterIsBefore(order, last, row);
    assert Position(order, last) == [last[sortBy], last[pk]];
    assert order[1..] == [Term(pk, desc)];
    OneTerm(Term(pk, desc), last, row);
    assert [Term(sortBy, desc)] + [Term(pk, desc)] == order;
    assert [Term(sortBy, desc)] + [] == [Term(sortBy, desc)];
  }
}
