/** Dropping empty columns by two routes: projecting every row, or mapping column positions when a
    cell is inserted. */
module LoaderColumns {
  import opened Collections

  type Row = seq<string>

  /** A value bound in an INSERT; every column has type TEXT. */
  datatype Value = Null | Text(value: string)

  // ----- cells -----

  /** The white space of Unicode. */
  predicate IsSpace(c: char) {
    || c == ' ' || '\t' <= c <= '\r' || c == '\U{85}' || c == '\U{A0}'
    || c == '\U{1680}' || '\U{2000}' <= c <= '\U{200A}' || c == '\U{2028}' || c == '\U{2029}'
    || c == '\U{202F}' || c == '\U{205F}' || c == '\U{3000}'
  }

  function TrimSpace(s: string): string { Trim(IsSpace, s) }

  predicate Blank(s: string) { TrimSpace(s) == [] }

  lemma {:induction false} BlankIff(s: string)
    ensures Blank(s) <==> forall i :: 0 <= i < |s| ==> IsSpace(s[i])
  {
    var i, j := TrimIs(IsSpace, s);
  }

  /** What is inserted for position `i` of a row: NULL beyond its end or when blank. */
  function Cell(row: Row, i: nat): Value {
    if i < |row| && !Blank(row[i]) then Text(TrimSpace(row[i])) else Null
  }

  /** NULL beyond the row's end and for a field of spaces only, else the field between its spaces. */
  lemma {:induction false} CellIs(row: Row, c: nat) returns (i: nat, j: nat)
    ensures Cell(row, c) == Null <==> c >= |row| || forall k :: 0 <= k < |row[c]| ==> IsSpace(row[c][k])
    ensures Cell(row, c) != Null ==>
      && i < j <= |row[c]| && Cell(row, c) == Text(row[c][i..j])
      && !IsSpace(row[c][i]) && !IsSpace(row[c][j - 1])
      && forall k :: 0 <= k < i || j <= k < |row[c]| ==> IsSpace(row[c][k])
  {
    i, j := 0, 0;
    if c < |row| {
      BlankIff(row[c]);
      i, j := TrimIs(IsSpace, row[c]);
    }
  }

  predicate IsEmptyRow(row: Row) {
    forall i :: 0 <= i < |row| ==> Blank(row[i])
  }

  // ----- which columns are dropped -----

  function Missing(rows: seq<Row>, col: nat): nat {
    if rows == [] then 0
    else Missing(rows[..|rows| - 1], col) + if Cell(rows[|rows| - 1], col) == Null then 1 else 0
  }

  predicate NothingAt(row: Row, col: nat) {
    col >= |row| || forall k :: 0 <= k < |row[col]| ==> IsSpace(row[col][k])
  }

  /** The rows that are too short or have only spaces in the column. */
  lemma {:induction false} MissingIs(rows: seq<Row>, col: nat)
    ensures Missing(rows, col) == |Filter((row: Row) => NothingAt(row, col), rows)|
  {
    if rows != [] {
      MissingIs(rows[..|rows| - 1], col);
      var row := rows[|rows| - 1];
      if col < |row| {
        BlankIff(row[col]);
      }
    }
  }

  const THRESHOLD: real := 0.99

  /** A column is dropped when more than 99 of 100 rows have nothing in it. */
  method IdentifyEmptyColumns(rows: seq<Row>, header: seq<string>) returns (emptyColumns: set<nat>)
    ensures rows == [] ==> emptyColumns == {}
    ensures forall c: nat :: c in emptyColumns <==> c < |header| && 100 * Missing(rows, c) > 99 * |rows|
  {
    emptyColumns := {};
    var totalRows := |rows|;
    if totalRows == 0 {
      assert forall c: nat :: Missing(rows, c) == 0;
      return;
    }
    for colIdx := 0 to |header|
      invariant forall c: nat :: c in emptyColumns <==> c < colIdx && 100 * Missing(rows, c) > 99 * |rows|
    {
      var emptyCount := 0;
      for r := 0 to totalRows
        invariant emptyCount == Missing(rows[..r], colIdx)
      {
        PrefixSnoc(rows, r);
        assert rows[..r + 1][..r] == rows[..r];
        if colIdx >= |rows[r]| || TrimSpace(rows[r][colIdx]) == "" {
          emptyCount := emptyCount + 1;
        }
      }
      assert rows[..totalRows] == rows;
      RatioAbove(emptyCount, totalRows);
      var emptyRatio := emptyCount as real / totalRows as real;
      if emptyRatio > THRESHOLD {
        emptyColumns := emptyColumns + {colIdx};
      }
    }
  }

  lemma {:induction false} RatioAbove(a: nat, b: nat)
    requires b > 0
    ensures a as real / b as real > 0.99 <==> 100 * a > 99 * b
  {
    var x, y := a as real, b as real;
    Quotient(x / y, x, y);
  }

  lemma {:induction false} Quotient(q: real, x: real, y: real)
    requires y > 0.0 && q * y == x
    ensures q > 0.99 <==> x > 0.99 * y
  {
    if q > 0.99 {
      Scale(0.99, q, y);
    } else if q < 0.99 {
      Scale(q, 0.99, y);
    }
  }

  lemma {:induction false} Scale(p: real, q: real, y: real)
    requires p < q && y > 0.0
    ensures p * y < q * y
  {
    assert (q - p) * y > 0.0;
  }

  // ----- the kept positions -----

  /** The positions below `n` that are kept, in order. */
  function Kept(emptyColumns: set<nat>, n: nat): (kept: seq<nat>)
    ensures |kept| <= n
  {
    if n == 0 then []
    else if n - 1 in emptyColumns then Kept(emptyColumns, n - 1)
    else Kept(emptyColumns, n - 1) + [n - 1]
  }

  /** Exactly the positions that are not dropped, in order. */
  lemma {:induction false} KeptIs(emptyColumns: set<nat>, n: nat)
    ensures forall i: nat :: i in Kept(emptyColumns, n) <==> i < n && i !in emptyColumns
    ensures forall a, b :: 0 <= a < b < |Kept(emptyColumns, n)| ==> Kept(emptyColumns, n)[a] < Kept(emptyColumns, n)[b]
  {
    if n > 0 {
      KeptIs(emptyColumns, n - 1);
      KeptBelow(emptyColumns, n - 1);
    }
  }

  lemma {:induction false} KeptBelow(emptyColumns: set<nat>, n: nat)
    ensures forall c :: 0 <= c < |Kept(emptyColumns, n)| ==> Kept(emptyColumns, n)[c] < n
  {
    if n > 0 {
      KeptBelow(emptyColumns, n - 1);
    }
  }

  /** Of the positions kept below `m`, the first ones are those below `n`. */
  lemma {:induction false} KeptPrefix(emptyColumns: set<nat>, n: nat, m: nat, c: nat)
    requires n <= m && c < |Kept(emptyColumns, m)|
    ensures Kept(emptyColumns, m)[c] < n <==> c < |Kept(emptyColumns, n)|
    ensures c < |Kept(emptyColumns, n)| ==> Kept(emptyColumns, n)[c] == Kept(emptyColumns, m)[c]
  {
    KeptBelow(emptyColumns, n);
    if n < m {
      if c < |Kept(emptyColumns, m - 1)| {
        KeptPrefix(emptyColumns, n, m - 1, c);
      } else {
        KeptGrows(emptyColumns, n, m - 1);
      }
    }
  }

  lemma {:induction false} KeptGrows(emptyColumns: set<nat>, n: nat, m: nat)
    requires n <= m
    ensures |Kept(emptyColumns, n)| <= |Kept(emptyColumns, m)|
  {
    if n < m {
      KeptGrows(emptyColumns, n, m - 1);
    }
  }

  function Project<T>(emptyColumns: set<nat>, xs: seq<T>): seq<T> {
    KeptBelow(emptyColumns, |xs|);
    seq(|Kept(emptyColumns, |xs|)|, c requires 0 <= c < |Kept(emptyColumns, |xs|)| => xs[Kept(emptyColumns, |xs|)[c]])
  }

  lemma {:induction false} ProjectPrefix<T>(emptyColumns: set<nat>, xs: seq<T>, i: nat)
    requires i < |xs|
    ensures Project(emptyColumns, xs[..i + 1]) ==
      Project(emptyColumns, xs[..i]) + if i in emptyColumns then [] else [xs[i]]
  {
    KeptBelow(emptyColumns, i);
    KeptBelow(emptyColumns, i + 1);
  }

  /** Keep the entries whose position is not dropped. */
  method FilterPositions(emptyColumns: set<nat>, xs: seq<string>) returns (kept: seq<string>)
    ensures kept == Project(emptyColumns, xs)
  {
    kept := [];
    for i := 0 to |xs|
      invariant kept == Project(emptyColumns, xs[..i])
    {
      ProjectPrefix(emptyColumns, xs, i);
      if i !in emptyColumns {
        kept := kept + [xs[i]];
      }
    }
    assert xs[..|xs|] == xs;
  }

  /** Route one: rewrite the header and every row, whatever its length. */
  method RemoveEmptyColumns(rows: seq<Row>, header: seq<string>, emptyColumns: set<nat>)
    returns (newRows: seq<Row>, newHeader: seq<string>)
    ensures newHeader == Project(emptyColumns, header)
    ensures |newRows| == |rows| && forall r :: 0 <= r < |rows| ==> newRows[r] == Project(emptyColumns, rows[r])
  {
    if |emptyColumns| == 0 {
      ProjectNothing(header);
      forall r | 0 <= r < |rows|
        ensures rows[r] == Project({}, rows[r])
      {
        ProjectNothing(rows[r]);
      }
      return rows, header;
    }
    newHeader := FilterPositions(emptyColumns, header);
    newRows := [];
    for r := 0 to |rows|
      invariant |newRows| == r && forall k :: 0 <= k < r ==> newRows[k] == Project(emptyColumns, rows[k])
    {
      var newRow := FilterPositions(emptyColumns, rows[r]);
      newRows := newRows + [newRow];
    }
  }

  lemma {:induction false} KeptAll(n: nat)
    ensures |Kept({}, n)| == n && forall c :: 0 <= c < n ==> Kept({}, n)[c] == c
  {
    if n > 0 {
      KeptAll(n - 1);
    }
  }

  lemma {:induction false} ProjectNothing(xs: seq<string>)
    ensures Project({}, xs) == xs
  {
    KeptAll(|xs|);
  }

  /** The position map from new to original columns. */
  ghost predicate MapsKept(indexMap: map<nat, nat>, emptyColumns: set<nat>, n: nat) {
    && (forall c: nat :: c in indexMap <==> c < |Kept(emptyColumns, n)|)
    && forall c: nat :: 0 <= c < |Kept(emptyColumns, n)| ==> indexMap[c] == Kept(emptyColumns, n)[c]
  }

  /** Route two: leave the rows alone and remember where each kept column was. */
  method RemoveColumnsFromSchema(header: seq<string>, emptyColumns: set<nat>)
    returns (newHeader: seq<string>, indexMap: map<nat, nat>)
    ensures newHeader == Project(emptyColumns, header)
    ensures MapsKept(indexMap, emptyColumns, |header|)
  {
    newHeader, indexMap := [], map[];
    var newIdx := 0;
    for origIdx := 0 to |header|
      invariant newHeader == Project(emptyColumns, header[..origIdx])
      invariant newIdx == |Kept(emptyColumns, origIdx)| && MapsKept(indexMap, emptyColumns, origIdx)
    {
      ProjectPrefix(emptyColumns, header, origIdx);
      if origIdx !in emptyColumns {
        newHeader := newHeader + [header[origIdx]];
        indexMap := indexMap[newIdx := origIdx];
        newIdx := newIdx + 1;
      }
    }
    assert header[..|header|] == header;
  }

  /** Both routes insert the same value for every row and every kept column, also for rows shorter
      or longer than the header. */
  lemma {:induction false} RoutesAgree(header: seq<string>, emptyColumns: set<nat>, indexMap: map<nat, nat>, row: Row,
                                       c: nat)
    requires MapsKept(indexMap, emptyColumns, |header|) && c < |Project(emptyColumns, header)|
    ensures Cell(Project(emptyColumns, row), c) == Cell(row, indexMap[c])
  {
    if |row| <= |header| {
      KeptPrefix(emptyColumns, |row|, |header|, c);
    } else {
      KeptGrows(emptyColumns, |header|, |row|);
      KeptPrefix(emptyColumns, |header|, |row|, c);
      KeptBelow(emptyColumns, |header|);
    }
  }
}
