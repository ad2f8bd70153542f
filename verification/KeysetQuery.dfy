/** Keyset pagination queries: conditions over numbered placeholders, their meaning on rows, and
    the cursor condition that stands for "strictly after this position in the sort order". */
module KeysetQuery {
  import opened Collections

  /** A row as column values; the integers stand for any totally ordered column type. */
  type Row = map<string, int>

  datatype Op = Eq | Lt | Gt

  /** `col op $arg`, placeholders counted from 1. */
  datatype Atom = Atom(col: string, op: Op, arg: nat)

  /** An OR of ANDs of comparisons. */
  type Cond = seq<seq<Atom>>

  /** One term of ORDER BY. */
  datatype Term = Term(col: string, desc: bool)

  /** A SELECT: the conditions joined by AND, the ORDER BY terms and the placeholder of LIMIT. */
  datatype Query = Query(where: seq<Cond>, order: seq<Term>, limit: nat)

  // ----- meaning -----

  predicate Compare(op: Op, x: int, y: int) {
    match op
    case Eq => x == y
    case Lt => x < y
    case Gt => x > y
  }

  predicate AtomHolds(a: Atom, args: seq<int>, row: Row) {
    1 <= a.arg <= |args| && a.col in row && Compare(a.op, row[a.col], args[a.arg - 1])
  }

  predicate AllHold(atoms: seq<Atom>, args: seq<int>, row: Row) {
    forall i :: 0 <= i < |atoms| ==> AtomHolds(atoms[i], args, row)
  }

  predicate Holds(c: Cond, args: seq<int>, row: Row) {
    exists i :: 0 <= i < |c| && AllHold(c[i], args, row)
  }

  predicate WhereHolds(where: seq<Cond>, args: seq<int>, row: Row) {
    forall i :: 0 <= i < |where| ==> Holds(where[i], args, row)
  }

  /** Row `b` comes strictly after row `a` in the ORDER BY. */
  predicate Before(order: seq<Term>, a: Row, b: Row) {
    && order != []
    && order[0].col in a && order[0].col in b
    && (var x, y := a[order[0].col], b[order[0].col];
        if x == y then Before(order[1..], a, b) else if order[0].desc then y < x else x < y)
  }

  /** The operator of the strict comparison. */
  function StrictOp(desc: bool): Op { if desc then Lt else Gt }

  /** The row comes strictly after the position, a value for each term, in lexicographic order. */
  predicate After(order: seq<Term>, position: seq<int>, row: Row) {
    && order != [] && position != []
    && order[0].col in row
    && (var y := row[order[0].col];
        Compare(StrictOp(order[0].desc), y, position[0]) || (y == position[0] && After(order[1..], position[1..], row)))
  }

  predicate HasColumns(order: seq<Term>, row: Row) {
    forall i :: 0 <= i < |order| ==> order[i].col in row
  }

  /** The row's values of the sort columns. */
  function Position(order: seq<Term>, row: Row): seq<int>
    requires HasColumns(order, row)
  {
    seq(|order|, i requires 0 <= i < |order| => row[order[i].col])
  }

  lemma {:induction false} AfterIsBefore(order: seq<Term>, a: Row, b: Row)
    requires HasColumns(order, a)
    ensures After(order, Position(order, a), b) <==> Before(order, a, b)
  {
    if order != [] {
      AfterIsBefore(order[1..], a, b);
      assert Position(order, a)[1..] == Position(order[1..], a);
    }
  }

  // ----- the order is a strict order, total where rows differ in a sort column -----

  lemma {:induction false} BeforeTransitive(order: seq<Term>, a: Row, b: Row, c: Row)
    requires Before(order, a, b) && Before(order, b, c)
    ensures Before(order, a, c)
  {
    if a[order[0].col] == b[order[0].col] && b[order[0].col] == c[order[0].col] {
      BeforeTransitive(order[1..], a, b, c);
    }
  }

  lemma {:induction false} BeforeIrreflexive(order: seq<Term>, a: Row)
    ensures !Before(order, a, a)
  {
    if order != [] {
      BeforeIrreflexive(order[1..], a);
    }
  }

  lemma {:induction false} BeforeAsymmetric(order: seq<Term>, a: Row, b: Row)
    requires Before(order, a, b)
    ensures !Before(order, b, a)
  {
    if Before(order, b, a) {
      BeforeTransitive(order, a, b, a);
      BeforeIrreflexive(order, a);
    }
  }

  lemma {:induction false} BeforeTotal(order: seq<Term>, a: Row, b: Row, k: nat)
    requires HasColumns(order, a) && HasColumns(order, b)
    requires k < |order| && a[order[k].col] != b[order[k].col]
    ensures Before(order, a, b) || Before(order, b, a)
  {
    if a[order[0].col] == b[order[0].col] {
      BeforeTotal(order[1..], a, b, k - 1);
    }
  }

  // ----- the cursor condition -----

  /** Triangular numbers: the placeholders used by the first `i` branches. */
  function Tri(i: nat): nat { if i == 0 then 0 else Tri(i - 1) + i }

  lemma {:induction false} TriClosedForm(i: nat)
    ensures 2 * Tri(i) == i * (i + 1)
  {
    if i > 0 {
      TriClosedForm(i - 1);
      assert (i - 1) * i + 2 * i == i * (i + 1);
    }
  }

  /** `c0 = $s AND ... AND c(i-1) = $(s+i-1) AND ci op $(s+i)` */
  function Branch(cols: seq<string>, op: Op, i: nat, start: nat): seq<Atom>
    requires i < |cols|
  {
    Equalities(cols, i, start) + [Atom(cols[i], op, start + i)]
  }

  function Equalities(cols: seq<string>, i: nat, start: nat): seq<Atom>
    requires i <= |cols|
  {
    seq(i, j requires 0 <= j < i => Atom(cols[j], Eq, start + j))
  }

  function Branches(cols: seq<string>, op: Op, n: nat, start: nat): (c: Cond)
    requires n <= |cols|
    ensures |c| == n
  {
    if n == 0 then [] else Branches(cols, op, n - 1, start) + [Branch(cols, op, n - 1, start + Tri(n - 1))]
  }

  lemma {:induction false} BranchAt(cols: seq<string>, op: Op, n: nat, start: nat, i: nat)
    requires i < n <= |cols|
    ensures Branches(cols, op, n, start)[i] == Branch(cols, op, i, start + Tri(i))
  {
    if i < n - 1 {
      BranchAt(cols, op, n - 1, start, i);
    }
  }

  /** The values bound by the first `n` branches, one after the other. */
  function BranchArgs(values: seq<int>, n: nat): (r: seq<int>)
    requires n <= |values|
    ensures |r| == Tri(n)
  {
    if n == 0 then [] else BranchArgs(values, n - 1) + values[..n]
  }

  lemma {:induction false} BranchArgAt(values: seq<int>, n: nat, i: nat, j: nat)
    requires j <= i < n <= |values|
    ensures Tri(i) + j < |BranchArgs(values, n)| && BranchArgs(values, n)[Tri(i) + j] == values[j]
  {
    if i < n - 1 {
      BranchArgAt(values, n - 1, i, j);
    }
  }

  function Terms(cols: seq<string>, desc: bool): seq<Term> {
    seq(|cols|, i requires 0 <= i < |cols| => Term(cols[i], desc))
  }

  predicate EqualAt(cols: seq<string>, values: seq<int>, row: Row, j: nat)
    requires j < |cols| && j < |values|
  {
    cols[j] in row && row[cols[j]] == values[j]
  }

  /** The row agrees with the position before column `i` and is strictly beyond it there. */
  predicate SplitsAt(cols: seq<string>, values: seq<int>, desc: bool, row: Row, i: nat)
    requires i < |cols| == |values|
  {
    && (forall j :: 0 <= j < i ==> EqualAt(cols, values, row, j))
    && cols[i] in row && Compare(StrictOp(desc), row[cols[i]], values[i])
  }

  lemma {:induction false} SplitsLater(cols: seq<string>, values: seq<int>, desc: bool, row: Row, i: nat)
    requires 0 < i < |cols| == |values|
    ensures SplitsAt(cols, values, desc, row, i) <==>
      EqualAt(cols, values, row, 0) && SplitsAt(cols[1..], values[1..], desc, row, i - 1)
  {
    assert forall j :: 0 <= j < i - 1 ==> EqualAt(cols[1..], values[1..], row, j) == EqualAt(cols, values, row, j + 1);
    if SplitsAt(cols, values, desc, row, i) {
      forall j | 0 <= j < i - 1
        ensures EqualAt(cols[1..], values[1..], row, j)
      {
        assert EqualAt(cols, values, row, j + 1);
      }
    }
    if EqualAt(cols, values, row, 0) && SplitsAt(cols[1..], values[1..], desc, row, i - 1) {
      forall j | 0 <= j < i
        ensures EqualAt(cols, values, row, j)
      {
        if j > 0 {
          assert EqualAt(cols[1..], values[1..], row, j - 1);
        }
      }
    }
  }

  lemma {:induction false} AfterSplits(cols: seq<string>, values: seq<int>, desc: bool, row: Row)
    requires |cols| == |values|
    ensures After(Terms(cols, desc), values, row) <==>
      exists i :: 0 <= i < |cols| && SplitsAt(cols, values, desc, row, i)
  {
    if cols != [] {
      AfterSplits(cols[1..], values[1..], desc, row);
      assert Terms(cols, desc)[1..] == Terms(cols[1..], desc);
      if After(Terms(cols, desc), values, row) {
        if !SplitsAt(cols, values, desc, row, 0) {
          var i :| 0 <= i < |cols[1..]| && SplitsAt(cols[1..], values[1..], desc, row, i);
          SplitsLater(cols, values, desc, row, i + 1);
        }
      }
      if i :| 0 <= i < |cols| && SplitsAt(cols, values, desc, row, i) {
        if i > 0 {
          SplitsLater(cols, values, desc, row, i);
        }
      }
    }
  }

  /** The arguments around the cursor's own do not matter to its placeholders. */
  lemma {:induction false} BranchArgPlace(values: seq<int>, before: seq<int>, after: seq<int>, i: nat, j: nat)
    requires j <= i < |values|
    ensures var args := before + BranchArgs(values, |values|) + after; var k := |before| + Tri(i) + j;
      k < |args| && args[k] == values[j]
  {
    BranchArgAt(values, |values|, i, j);
  }

  lemma {:induction false} EqualityHolds(cols: seq<string>, values: seq<int>, before: seq<int>, after: seq<int>,
                                         row: Row, i: nat, j: nat)
    requires j < i < |cols| == |values|
    ensures AtomHolds(Equalities(cols, i, |before| + 1 + Tri(i))[j], before + BranchArgs(values, |values|) + after, row)
       <==> EqualAt(cols, values, row, j)
  {
    BranchArgPlace(values, before, after, i, j);
  }

  lemma {:induction false} StrictHolds(cols: seq<string>, values: seq<int>, desc: bool, before: seq<int>,
                                       after: seq<int>, row: Row, i: nat)
    requires i < |cols| == |values|
    ensures AtomHolds(Atom(cols[i], StrictOp(desc), |before| + 1 + Tri(i) + i),
      before + BranchArgs(values, |values|) + after, row)
       <==> cols[i] in row && Compare(StrictOp(desc), row[cols[i]], values[i])
  {
    BranchArgPlace(values, before, after, i, i);
  }

  lemma {:induction false} AllHoldSnoc(atoms: seq<Atom>, last: Atom, args: seq<int>, row: Row)
    ensures AllHold(atoms + [last], args, row) <==> AllHold(atoms, args, row) && AtomHolds(last, args, row)
  {
    var all := atoms + [last];
    assert forall i :: 0 <= i < |atoms| ==> all[i] == atoms[i];
    if AllHold(all, args, row) {
      assert AtomHolds(all[|atoms|], args, row);
      assert forall i :: 0 <= i < |atoms| ==> AtomHolds(all[i], args, row);
    }
  }

  lemma {:induction false} EqualitiesHold(cols: seq<string>, values: seq<int>, before: seq<int>, after: seq<int>,
                                          row: Row, i: nat)
    requires i < |cols| == |values|
    ensures AllHold(Equalities(cols, i, |before| + 1 + Tri(i)), before + BranchArgs(values, |values|) + after, row)
       <==> forall j :: 0 <= j < i ==> EqualAt(cols, values, row, j)
  {
    var atoms, args := Equalities(cols, i, |before| + 1 + Tri(i)), before + BranchArgs(values, |values|) + after;
    if AllHold(atoms, args, row) {
      forall j | 0 <= j < i
        ensures EqualAt(cols, values, row, j)
      {
        EqualityHolds(cols, values, before, after, row, i, j);
        assert AtomHolds(atoms[j], args, row);
      }
    } else {
      var j :| 0 <= j < i && !AtomHolds(atoms[j], args, row);
      EqualityHolds(cols, values, before, after, row, i, j);
    }
  }

  lemma {:induction false} BranchIsSplit(cols: seq<string>, values: seq<int>, desc: bool, before: seq<int>,
                                         after: seq<int>, row: Row, i: nat)
    requires i < |cols| == |values|
    ensures AllHold(Branch(cols, StrictOp(desc), i, |before| + 1 + Tri(i)),
      before + BranchArgs(values, |values|) + after, row)
       <==> SplitsAt(cols, values, desc, row, i)
  {
    EqualitiesHold(cols, values, before, after, row, i);
    StrictHolds(cols, values, desc, before, after, row, i);
    AllHoldSnoc(Equalities(cols, i, |before| + 1 + Tri(i)), Atom(cols[i], StrictOp(desc), |before| + 1 + Tri(i) + i),
      before + BranchArgs(values, |values|) + after, row);
  }

  /** The cursor condition, evaluated with its placeholders against the emitted arguments, holds of
      a row exactly when the row comes strictly after the cursor's position. */
  lemma {:induction false} CursorConditionIsAfter(cols: seq<string>, values: seq<int>, desc: bool, before: seq<int>,
                                                  after: seq<int>, row: Row)
    requires |cols| == |values|
    ensures Holds(Branches(cols, StrictOp(desc), |cols|, |before| + 1),
      before + BranchArgs(values, |values|) + after, row)
       <==> After(Terms(cols, desc), values, row)
  {
    var args := before + BranchArgs(values, |values|) + after;
    var cond := Branches(cols, StrictOp(desc), |cols|, |before| + 1);
    forall i | 0 <= i < |cols|
      ensures AllHold(cond[i], args, row) <==> SplitsAt(cols, values, desc, row, i)
    {
      BranchAt(cols, StrictOp(desc), |cols|, |before| + 1, i);
      BranchIsSplit(cols, values, desc, before, after, row, i);
    }
    SomeBranchHolds(cond, args, cols, values, desc, row);
    AfterSplits(cols, values, desc, row);
  }

  lemma {:induction false} SomeBranchHolds(cond: Cond, args: seq<int>, cols: seq<string>, values: seq<int>, desc: bool,
                                           row: Row)
    requires |cond| == |cols| == |values|
    requires forall i :: 0 <= i < |cols| ==> (AllHold(cond[i], args, row) <==> SplitsAt(cols, values, desc, row, i))
    ensures Holds(cond, args, row) <==> exists i :: 0 <= i < |cols| && SplitsAt(cols, values, desc, row, i)
  {
    if i :| 0 <= i < |cols| && SplitsAt(cols, values, desc, row, i) {
      assert AllHold(cond[i], args, row);
    }
  }

  lemma EqualitiesSnoc(cols: seq<string>, j: nat, start: nat)
    requires j < |cols|
    ensures Equalities(cols, j + 1, start) == Equalities(cols, j, start) + [Atom(cols[j], Eq, start + j)]
  {
  }

  /** One branch: equalities on the columns before `i`, then the strict comparison. */
  method BuildBranch(cols: seq<string>, values: seq<int>, op: Op, i: nat, startArgIndex: nat)
    returns (parts: seq<Atom>, branchArgs: seq<int>, argIndex: nat)
    requires i < |cols| == |values|
    ensures parts == Branch(cols, op, i, startArgIndex) && branchArgs == values[..i + 1]
    ensures argIndex == startArgIndex + i + 1
  {
    parts, branchArgs, argIndex := [], [], startArgIndex;
    for j := 0 to i
      invariant parts == Equalities(cols, j, startArgIndex)
      invariant branchArgs == values[..j] && argIndex == startArgIndex + j
    {
      EqualitiesSnoc(cols, j, startArgIndex);
      PrefixSnoc(values, j);
      parts := parts + [Atom(cols[j], Eq, argIndex)];
      branchArgs := branchArgs + [values[j]];
      argIndex := argIndex + 1;
    }
    PrefixSnoc(values, i);
    parts := parts + [Atom(cols[i], op, argIndex)];
    branchArgs := branchArgs + [values[i]];
    argIndex := argIndex + 1;
  }

  /** The branches of a cursor with several columns. */
  method BuildBranches(cols: seq<string>, values: seq<int>, op: Op, startArgIndex: nat)
    returns (conditions: Cond, args: seq<int>, argIndex: nat)
    requires |cols| == |values|
    ensures conditions == Branches(cols, op, |cols|, startArgIndex)
    ensures args == BranchArgs(values, |values|) && argIndex == startArgIndex + |args|
  {
    conditions, args, argIndex := [], [], startArgIndex;
    for i := 0 to |cols|
      invariant conditions == Branches(cols, op, i, startArgIndex)
      invariant args == BranchArgs(values, i) && argIndex == startArgIndex + |args|
    {
      var parts, branchArgs;
      parts, branchArgs, argIndex := BuildBranch(cols, values, op, i, argIndex);
      args := args + branchArgs;
      conditions := conditions + [parts];
    }
  }

  /** Build the cursor condition; no condition for an empty cursor. */
  method BuildCursorCondition(cols: seq<string>, values: seq<int>, desc: bool, startArgIndex: nat)
    returns (cond: Option<Cond>, args: seq<int>, next: nat)
    requires |cols| == |values|
    ensures cond.None? <==> cols == []
    ensures cond.Some? ==> cond.value == Branches(cols, StrictOp(desc), |cols|, startArgIndex)
    ensures args == BranchArgs(values, |values|) && next == startArgIndex + |args|
    ensures 2 * |args| == |cols| * (|cols| + 1)
  {
    TriClosedForm(|cols|);
    if |cols| == 0 {
      return None, [], startArgIndex;
    }
    var op := if desc then Lt else Gt;
    if |cols| == 1 {
      SingleBranch(cols, values, op, startArgIndex);
      return Some([[Atom(cols[0], op, startArgIndex)]]), [values[0]], startArgIndex + 1;
    }
    var conditions;
    conditions, args, next := BuildBranches(cols, values, op, startArgIndex);
    cond := Some(conditions);
  }

  lemma {:induction false} SingleBranch(cols: seq<string>, values: seq<int>, op: Op, start: nat)
    requires |cols| == |values| == 1
    ensures Branches(cols, op, 1, start) == [[Atom(cols[0], op, start)]] && BranchArgs(values, 1) == [values[0]]
  {
    assert Equalities(cols, 0, start) == [];
    assert Branch(cols, op, 0, start + Tri(0)) == [Atom(cols[0], op, start)];
    assert BranchArgs(values, 0) == [] && values[..1] == [values[0]];
  }

  // ----- the two-column form -----

  /** `(s op $a OR (s = $a AND k op $(a+1)))`, written out by the fixed-schema and the dynamic
      repository. */
  function TwoColumnForm(sortColumn: string, keyColumn: string, desc: bool, arg: nat): Cond {
    [[Atom(sortColumn, StrictOp(desc), arg)], [Atom(sortColumn, Eq, arg), Atom(keyColumn, StrictOp(desc), arg + 1)]]
  }

  lemma {:induction false} TwoColumnIsAfter(sortColumn: string, keyColumn: string, desc: bool, x: int, y: int,
                                            before: seq<int>, row: Row)
    ensures Holds(TwoColumnForm(sortColumn, keyColumn, desc, |before| + 1), before + [x, y], row)
       <==> After([Term(sortColumn, desc), Term(keyColumn, desc)], [x, y], row)
  {
    var cond := TwoColumnForm(sortColumn, keyColumn, desc, |before| + 1);
    var args := before + [x, y];
    assert args[|before|] == x && args[|before| + 1] == y;
    var first := Atom(sortColumn, StrictOp(desc), |before| + 1);
    var second := Atom(sortColumn, Eq, |before| + 1);
    var third := Atom(keyColumn, StrictOp(desc), |before| + 2);
    assert AllHold(cond[0], args, row) <==> AtomHolds(first, args, row) by {
      assert cond[0][0] == first;
    }
    assert AllHold(cond[1], args, row) <==> AtomHolds(second, args, row) && AtomHolds(third, args, row) by {
      assert cond[1][0] == second && cond[1][1] == third;
    }
    assert Holds(cond, args, row) <==> AllHold(cond[0], args, row) || AllHold(cond[1], args, row);
    var rest := [Term(sortColumn, desc), Term(keyColumn, desc)][1..];
    assert rest == [Term(keyColumn, desc)] && [x, y][1..] == [y];
    assert rest[1..] == [];
    assert After(rest, [y], row) <==> keyColumn in row && Compare(StrictOp(desc), row[keyColumn], y);
  }

  lemma {:induction false} GeneralForm(cols: seq<string>, values: seq<int>, desc: bool, before: seq<int>, row: Row)
    requires |cols| == |values|
    ensures Holds(Branches(cols, StrictOp(desc), |cols|, |before| + 1), before + BranchArgs(values, |values|), row)
       <==> After(Terms(cols, desc), values, row)
  {
    CursorConditionIsAfter(cols, values, desc, before, [], row);
    assert before + BranchArgs(values, |values|) + [] == before + BranchArgs(values, |values|);
  }

  lemma TwoTerms(cols: seq<string>, values: seq<int>, desc: bool)
    requires |cols| == |values| == 2
    ensures Terms(cols, desc) == [Term(cols[0], desc), Term(cols[1], desc)] && values == [values[0], values[1]]
  {
  }

  /** The two-column form with two arguments says what the general form says with three. */
  lemma {:induction false} TwoColumnAgrees(cols: seq<string>, values: seq<int>, desc: bool, before: seq<int>, row: Row)
    requires |cols| == |values| == 2
    ensures Holds(TwoColumnForm(cols[0], cols[1], desc, |before| + 1), before + values, row)
       <==> Holds(Branches(cols, StrictOp(desc), |cols|, |before| + 1), before + BranchArgs(values, |values|), row)
  {
    GeneralForm(cols, values, desc, before, row);
    TwoTerms(cols, values, desc);
    TwoColumnIsAfter(cols[0], cols[1], desc, values[0], values[1], before, row);
  }
}
