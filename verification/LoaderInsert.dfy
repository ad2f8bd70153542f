/** Multi-row INSERTs under a parameter bound, with numbered placeholders. */
module LoaderInsert {
  import opened Collections
  import opened LoaderColumns

  /** One INSERT: a group of placeholders for each row, and the values bound to them. */
  datatype Insert = Insert(groups: seq<seq<nat>>, values: seq<Value>)

  const MAX_PARAMS: nat := 65000

  /** Where a new column's data is; without a map columns are in place. */
  function Source(indexMap: map<nat, nat>, direct: bool, c: nat): nat {
    if direct then c else if c in indexMap then indexMap[c] else 0
  }

  /** The values a row contributes, one for each column. */
  function Cells(row: Row, cols: nat, indexMap: map<nat, nat>, direct: bool): (cells: seq<Value>)
    ensures |cells| == cols
  {
    seq(cols, c requires 0 <= c < cols => Cell(row, Source(indexMap, direct, c)))
  }

  /** The placeholders of one row. */
  function Group(cols: nat, first: nat): seq<nat> {
    seq(cols, c requires 0 <= c < cols => first + c)
  }

  /** Row `r` uses the placeholders `r * cols + 1` to `r * cols + cols`. */
  predicate Numbered(st: Insert, cols: nat) {
    forall r :: 0 <= r < |st.groups| ==> st.groups[r] == Group(cols, r * cols + 1)
  }

  /** Each placeholder of the group is bound to the row's cell for its column. */
  predicate BindsRow(values: seq<Value>, group: seq<nat>, cells: seq<Value>) {
    && |group| == |cells|
    && forall c :: 0 <= c < |group| ==> 1 <= group[c] <= |values| && values[group[c] - 1] == cells[c]
  }

  predicate Binds(st: Insert, rows: seq<Row>, cols: nat, indexMap: map<nat, nat>, direct: bool) {
    && |st.groups| == |rows|
    && forall r :: 0 <= r < |rows| ==> BindsRow(st.values, st.groups[r], Cells(rows[r], cols, indexMap, direct))
  }

  // ----- building one INSERT -----

  /** `n * cols`, counted row by row. */
  function Times(n: nat, cols: nat): nat { if n == 0 then 0 else Times(n - 1, cols) + cols }

  lemma {:induction false} TimesIs(n: nat, cols: nat)
    ensures Times(n, cols) == n * cols
  {
    if n > 0 {
      TimesIs(n - 1, cols);
      assert n * cols == (n - 1) * cols + cols;
    }
  }

  lemma {:induction false} TimesFits(r: nat, n: nat, cols: nat)
    requires r < n
    ensures Times(r, cols) + cols <= Times(n, cols)
  {
    if r < n - 1 {
      TimesFits(r, n - 1, cols);
    }
  }

  /** The statement for the first `n` rows. */
  function Groups(cols: nat, n: nat): (groups: seq<seq<nat>>)
    ensures |groups| == n
  {
    if n == 0 then [] else Groups(cols, n - 1) + [Group(cols, Times(n - 1, cols) + 1)]
  }

  function Bound(rows: seq<Row>, cols: nat, indexMap: map<nat, nat>, direct: bool): (values: seq<Value>)
    ensures |values| == Times(|rows|, cols)
  {
    if rows == [] then []
    else
      var n := |rows| - 1;
      Bound(rows[..n], cols, indexMap, direct) + Cells(rows[n], cols, indexMap, direct)
  }

  method BuildGroup(row: Row, cols: nat, indexMap: map<nat, nat>, direct: bool, first: nat)
    returns (group: seq<nat>, values: seq<Value>, paramIdx: nat)
    ensures group == Group(cols, first) && values == Cells(row, cols, indexMap, direct) && paramIdx == first + cols
  {
    group, values, paramIdx := [], [], first;
    for newColIdx := 0 to cols
      invariant group == Group(newColIdx, first) && paramIdx == first + newColIdx
      invariant values == Cells(row, newColIdx, indexMap, direct)
    {
      var origColIdx := Source(indexMap, direct, newColIdx);
      var val := Null;
      if origColIdx < |row| {
        var text := TrimSpace(row[origColIdx]);
        val := if text == "" then Null else Text(text);
      }
      group := group + [paramIdx];
      values := values + [val];
      paramIdx := paramIdx + 1;
    }
  }

  method ExecuteBatch(rows: seq<Row>, cols: nat, indexMap: map<nat, nat>, direct: bool) returns (st: Insert)
    ensures |st.values| == |rows| * cols
    ensures Numbered(st, cols) && Binds(st, rows, cols, indexMap, direct)
  {
    var placeholders: seq<seq<nat>> := [];
    var values: seq<Value> := [];
    var paramIdx := 1;
    for r := 0 to |rows|
      invariant placeholders == Groups(cols, r) && values == Bound(rows[..r], cols, indexMap, direct)
      invariant paramIdx == Times(r, cols) + 1
    {
      var group, rowValues;
      group, rowValues, paramIdx := BuildGroup(rows[r], cols, indexMap, direct, paramIdx);
      placeholders := placeholders + [group];
      values := values + rowValues;
      BoundSnoc(rows, r, cols, indexMap, direct);
    }
    assert rows[..|rows|] == rows;
    st := Insert(placeholders, values);
    TimesIs(|rows|, cols);
    StatementBinds(st, rows, cols, indexMap, direct);
  }

  lemma {:induction false} BoundSnoc(rows: seq<Row>, r: nat, cols: nat, indexMap: map<nat, nat>, direct: bool)
    requires r < |rows|
    ensures Bound(rows[..r + 1], cols, indexMap, direct) ==
      Bound(rows[..r], cols, indexMap, direct) + Cells(rows[r], cols, indexMap, direct)
  {
    assert rows[..r + 1][..r] == rows[..r];
  }

  lemma {:induction false} GroupsAt(cols: nat, n: nat, r: nat)
    requires r < n
    ensures Groups(cols, n)[r] == Group(cols, Times(r, cols) + 1)
  {
    if r < n - 1 {
      GroupsAt(cols, n - 1, r);
    }
  }

  lemma {:induction false} BoundAt(rows: seq<Row>, cols: nat, indexMap: map<nat, nat>, direct: bool, r: nat, c: nat)
    requires r < |rows| && c < cols
    ensures Times(r, cols) + c < Times(|rows|, cols)
    ensures Bound(rows, cols, indexMap, direct)[Times(r, cols) + c] == Cells(rows[r], cols, indexMap, direct)[c]
  {
    TimesFits(r, |rows|, cols);
    var n := |rows| - 1;
    if r < n {
      BoundAt(rows[..n], cols, indexMap, direct, r, c);
    }
  }

  lemma {:induction false} StatementBinds(st: Insert, rows: seq<Row>, cols: nat, indexMap: map<nat, nat>, direct: bool)
    requires st == Insert(Groups(cols, |rows|), Bound(rows, cols, indexMap, direct))
    ensures Numbered(st, cols) && Binds(st, rows, cols, indexMap, direct)
  {
    forall r | 0 <= r < |rows|
      ensures st.groups[r] == Group(cols, r * cols + 1)
      ensures BindsRow(st.values, st.groups[r], Cells(rows[r], cols, indexMap, direct))
    {
      GroupsAt(cols, |rows|, r);
      TimesIs(r, cols);
      RowBinds(rows, cols, indexMap, direct, r);
    }
  }

  lemma {:induction false} RowBinds(rows: seq<Row>, cols: nat, indexMap: map<nat, nat>, direct: bool, r: nat)
    requires r < |rows|
    ensures BindsRow(Bound(rows, cols, indexMap, direct), Group(cols, Times(r, cols) + 1),
      Cells(rows[r], cols, indexMap, direct))
  {
    var values, group := Bound(rows, cols, indexMap, direct), Group(cols, Times(r, cols) + 1);
    forall c | 0 <= c < |group|
      ensures 1 <= group[c] <= |values| && values[group[c] - 1] == Cells(rows[r], cols, indexMap, direct)[c]
    {
      BoundAt(rows, cols, indexMap, direct, r, c);
      assert group[c] == Times(r, cols) + 1 + c;
    }
  }

  /** Whole rows: the projected row inserted in place and the original row inserted through the
      position map contribute the same values. */
  lemma {:induction false} RoutesInsertSame(header: seq<string>, emptyColumns: set<nat>, indexMap: map<nat, nat>,
                                            row: Row)
    requires MapsKept(indexMap, emptyColumns, |header|)
    ensures var cols := |Project(emptyColumns, header)|;
      Cells(Project(emptyColumns, row), cols, map[], true) == Cells(row, cols, indexMap, false)
  {
    var cols := |Project(emptyColumns, header)|;
    forall c | 0 <= c < cols
      ensures Cells(Project(emptyColumns, row), cols, map[], true)[c] == Cells(row, cols, indexMap, false)[c]
    {
      RoutesAgree(header, emptyColumns, indexMap, row, c);
    }
  }

  // ----- splitting the rows -----

  /** Statement `k` inserts batch `k`. */
  predicate InsertsBatches(sent: seq<Insert>, batches: seq<seq<Row>>, cols: nat, indexMap: map<nat, nat>,
                           direct: bool) {
    && |sent| == |batches|
    && forall k :: 0 <= k < |sent| ==>
         Numbered(sent[k], cols) && Binds(sent[k], batches[k], cols, indexMap, direct) &&
         0 < |batches[k]| && |sent[k].values| <= Max(MAX_PARAMS, cols)
  }

  /** The rows of a full batch: as many as fit the parameter bound, but at least one. */
  function FullBatch(cols: nat): int
    requires cols > 0
  {
    Max(1, MAX_PARAMS / cols)
  }

  /** With one more row a batch would have more than 65000 parameters. */
  predicate NoRowFits(n: nat, cols: nat) { (n + 1) * cols > 65000 }

  lemma {:induction false} FullFits(cols: nat)
    requires cols > 0
    ensures FullBatch(cols) > 0 && NoRowFits(FullBatch(cols), cols)
  {
    var q := MAX_PARAMS / cols;
    assert MAX_PARAMS == q * cols + MAX_PARAMS % cols;
    assert (q + 1) * cols == q * cols + cols;
    if q < 1 {
      assert q == 0;
    }
  }

  method BatchSize(cols: nat) returns (maxRowsPerBatch: int)
    requires cols > 0
    ensures maxRowsPerBatch == FullBatch(cols) && maxRowsPerBatch >= 1
  {
    maxRowsPerBatch := MAX_PARAMS / cols;
    if maxRowsPerBatch < 1 {
      maxRowsPerBatch := 1;
    }
  }

  /** How an insert ends: the database has all rows, it refused a statement, or the batch size was
      computed with no column left and the division panicked. */
  datatype Outcome = Stored | Refused | DividedByZero

  /** Rows without columns, and only they, divide by zero; nothing to insert always succeeds. */
  predicate EndsFor(outcome: Outcome, rows: seq<Row>, cols: nat) {
    && (outcome == DividedByZero <==> rows != [] && cols == 0)
    && (rows == [] ==> outcome == Stored)
  }

  /** Insert the rows in batches of at most 65000 parameters, or of one row when a row alone has more;
      a failing statement stops the rest, so a prefix of the rows stays inserted. */
  method InsertBatch(rows: seq<Row>, cols: nat, indexMap: map<nat, nat>, direct: bool)
    returns (sent: seq<Insert>, batches: seq<seq<Row>>, outcome: Outcome)
    ensures EndsFor(outcome, rows, cols) && (outcome == DividedByZero ==> sent == [])
    ensures InsertsBatches(sent, batches, cols, indexMap, direct)
    ensures Concat(batches) <= rows && (outcome == Stored ==> Concat(batches) == rows)
    ensures cols > 0 ==> forall k :: 0 <= k < |batches| - 1 ==> |batches[k]| == FullBatch(cols)
    ensures forall k :: 0 <= k < |sent| ==> |sent[k].values| <= Max(65000, cols)
    ensures cols > 0 ==> forall k :: 0 <= k < |batches| - 1 ==> NoRowFits(|batches[k]|, cols)
  {
    if cols > 0 {
      FullFits(cols);
    }
    sent, batches, outcome := [], [], Stored;
    if |rows| == 0 {
      return;
    }
    if cols == 0 {
      outcome := DividedByZero;
      return;
    }
    var maxRowsPerBatch := BatchSize(cols);
    var startIdx := 0;
    while startIdx < |rows|
      invariant startIdx <= |rows| && Concat(batches) == rows[..startIdx]
      invariant InsertsBatches(sent, batches, cols, indexMap, direct)
      invariant startIdx < |rows| ==> forall k :: 0 <= k < |batches| ==> |batches[k]| == maxRowsPerBatch
      invariant forall k :: 0 <= k < |batches| - 1 ==> |batches[k]| == maxRowsPerBatch
    {
      var endIdx := startIdx + maxRowsPerBatch;
      if endIdx > |rows| {
        endIdx := |rows|;
      }
      var batch := rows[startIdx..endIdx];
      var st := ExecuteBatch(batch, cols, indexMap, direct);
      var accepted: bool := *;
      if !accepted {
        outcome := Refused;
        return;
      }
      BatchFits(|batch|, cols);
      ConcatSnoc(batches, batch);
      assert rows[..startIdx] + batch == rows[..endIdx];
      sent := sent + [st];
      batches := batches + [batch];
      startIdx := endIdx;
    }
    assert rows[..|rows|] == rows;
  }

  lemma {:induction false} BatchFits(n: nat, cols: nat)
    requires cols > 0 && n <= FullBatch(cols)
    ensures n * cols <= Max(MAX_PARAMS, cols)
  {
    var q := MAX_PARAMS / cols;
    assert q * cols + MAX_PARAMS % cols == MAX_PARAMS;
    if q >= 1 {
      Monotone(n, q, cols);
    } else {
      Monotone(n, 1, cols);
    }
  }

  lemma {:induction false} Monotone(a: nat, b: nat, c: nat)
    requires a <= b
    ensures a * c <= b * c
  {
    assert b * c == a * c + (b - a) * c;
  }
}
