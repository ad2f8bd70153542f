/** What the loaders' join key tells apart, and which rows can be lost because of it. */
module JoinKeys {
  import opened Collections
  import opened LoaderColumns
  import opened LoaderStream
  import opened Loader

  // ----- rows of one width -----

  lemma {:induction false} AppendPipe(a: string, b: string, x: string, y: string)
    requires Pipes(x) == 0 && Pipes(y) == 0 && a + "|" + x == b + "|" + y
    ensures a == b && x == y
  {
    var s := a + "|" + x;
    NoPipes(x);
    NoPipes(y);
    assert s[|a|] == '|' && s[|b|] == '|';
    assert forall m :: |a| < m < |s| ==> s[m] == x[m - |a| - 1];
    assert forall m :: |b| < m < |s| ==> s[m] == y[m - |b| - 1];
    assert |a| == |b|;
    assert a == s[..|a|] && b == s[..|b|];
    assert x == s[|a| + 1..] && y == s[|b| + 1..];
  }

  lemma {:induction false} SeparatorFreeKeys(a: Row, b: Row)
    requires |a| == |b| && FieldPipes(a) == 0 && FieldPipes(b) == 0 && JoinKey(a) == JoinKey(b)
    ensures a == b
  {
    var n := |a| - 1;
    if n > 0 {
      AppendPipe(JoinKey(a[..n]), JoinKey(b[..n]), a[n], b[n]);
      SeparatorFreeKeys(a[..n], b[..n]);
      assert a == a[..n] + [a[n]] && b == b[..n] + [b[n]];
    }
  }

  /** A row of one field, or without separators in its fields, shares its key with no other row of
      its width. */
  lemma {:induction false} KeyInjective(a: Row, b: Row)
    requires |a| == |b| && JoinKey(a) == JoinKey(b) && (|a| <= 1 || FieldPipes(a) == 0)
    ensures a == b
  {
    if |a| > 1 {
      KeyPipes(a);
      KeyPipes(b);
      SeparatorFreeKeys(a, b);
    }
  }

  /** The key depends on two neighbouring fields only through their joined text. */
  lemma {:induction false} SamePair(a: Row, b: Row, k: nat)
    requires |a| == |b| && k + 1 < |a| && a[..k] == b[..k] && a[k + 2..] == b[k + 2..]
    requires a[k] + "|" + a[k + 1] == b[k] + "|" + b[k + 1]
    ensures JoinKey(a) == JoinKey(b)
  {
    var n := |a| - 1;
    if k + 1 < n {
      assert a[..n][k + 2..] == a[k + 2..][..n - k - 2] && b[..n][k + 2..] == b[k + 2..][..n - k - 2];
      assert a[n] == a[k + 2..][n - k - 2] && b[n] == b[k + 2..][n - k - 2];
      SamePair(a[..n], b[..n], k);
    } else {
      LastTwo(a);
      LastTwo(b);
    }
  }

  /** The end of a key is the joined text of the last two fields. */
  lemma {:induction false} LastTwo(a: Row)
    requires |a| >= 2
    ensures var n := |a| - 2; JoinKey(a) == (if n == 0 then "" else JoinKey(a[..n]) + "|") + (a[n] + "|" + a[n + 1])
  {
    var n := |a| - 2;
    assert a[..n + 1][..n] == a[..n];
    if n == 0 {
      assert "" + (a[0] + "|" + a[1]) == a[0] + "|" + a[1];
    } else {
      assert JoinKey(a[..n]) + "|" + (a[n] + "|" + a[n + 1]) == JoinKey(a[..n]) + "|" + a[n] + "|" + a[n + 1];
    }
  }

  /** A field with a separator, cut there. */
  lemma {:induction false} CutField(row: Row) returns (k: nat, x: string, y: string)
    requires FieldPipes(row) > 0
    ensures k < |row| && row[k] == x + "|" + y
  {
    NoFieldPipes(row);
    k :| 0 <= k < |row| && Pipes(row[k]) != 0;
    NoPipes(row[k]);
    var m :| 0 <= m < |row[k]| && row[k][m] == '|';
    x, y := row[k][..m], row[k][m + 1..];
  }

  /** Otherwise the text after a separator can move into the neighbouring field. */
  lemma {:induction false} Collision(a: Row) returns (b: Row)
    requires |a| > 1 && FieldPipes(a) > 0
    ensures |b| == |a| && b != a && JoinKey(b) == JoinKey(a)
  {
    var k, x, y := CutField(a);
    if k + 1 < |a| {
      b := a[k := x][k + 1 := y + "|" + a[k + 1]];
      assert x + "|" + (y + "|" + a[k + 1]) == x + "|" + y + "|" + a[k + 1];
      SamePair(a, b, k);
    } else {
      b := a[k - 1 := a[k - 1] + "|" + x][k := y];
      assert a[k - 1] + "|" + (x + "|" + y) == a[k - 1] + "|" + x + "|" + y;
      SamePair(a, b, k - 1);
    }
    assert |b[k]| < |a[k]|;
  }

  /** A row's key is its own among the rows of its width exactly when the row has at most one field
      or no separator in its fields. */
  lemma {:induction false} KeyUniqueIff(a: Row)
    ensures (forall b :: |b| == |a| && JoinKey(b) == JoinKey(a) ==> b == a) <==> |a| <= 1 || FieldPipes(a) == 0
  {
    if |a| <= 1 || FieldPipes(a) == 0 {
      forall b | |b| == |a| && JoinKey(b) == JoinKey(a)
        ensures b == a
      {
        KeyInjective(a, b);
      }
    } else {
      var b := Collision(a);
    }
  }

  // ----- the stream -----

  /** A non-empty record of one field or without separators in its fields is itself kept, whatever
      the other records hold. */
  lemma {:induction false} NotLost(records: seq<Row>, chunkSize: nat, r: nat)
    requires chunkSize > 0 && Uniform(records) && r < |records| && !IsEmptyRow(records[r])
    requires |records[r]| <= 1 || FieldPipes(records[r]) == 0
    ensures records[r] in Scanned(records, chunkSize).kept
  {
    var kept := Scanned(records, chunkSize).kept;
    KeptRows(records, chunkSize);
    var i :| 0 <= i < |kept| && JoinKey(kept[i]) == JoinKey(records[r]);
    var at: seq<nat> :| TakenAt(at, kept, records);
    assert kept[i] == records[at[i]];
    KeyInjective(records[r], kept[i]);
  }

  /** Of two records with one key only the first is kept. */
  lemma {:induction false} SecondLost(a: Row, b: Row, chunkSize: nat)
    requires chunkSize > 0 && |a| == |b| && JoinKey(a) == JoinKey(b) && !IsEmptyRow(a)
    ensures Scanned([b, a], chunkSize).kept == [b]
  {
    SameKeySameEmptiness(a, b);
    assert [b, a][..1] == [b] && [b][..0] == [];
    assert Scanned([b], chunkSize) == Admit(Scan([], {}, 0), b, chunkSize);
    assert !Reset(1, chunkSize);
  }

  /** Exactly which non-empty records a load can never lose: those of one field, or without
      separators in their fields. */
  lemma {:induction false} StreamKeepsIff(a: Row, chunkSize: nat)
    requires chunkSize > 0 && !IsEmptyRow(a)
    ensures (forall records :: Uniform(records) && a in records ==> a in Scanned(records, chunkSize).kept) <==>
      |a| <= 1 || FieldPipes(a) == 0
  {
    if |a| <= 1 || FieldPipes(a) == 0 {
      forall records | Uniform(records) && a in records
        ensures a in Scanned(records, chunkSize).kept
      {
        var r :| 0 <= r < |records| && records[r] == a;
        NotLost(records, chunkSize, r);
      }
    } else {
      var b := Collision(a);
      SecondLost(a, b, chunkSize);
      assert Uniform([b, a]) && a in [b, a];
    }
  }

  /** Different rows of one width that share a key. */
  lemma {:induction false} CollidingRows()
    ensures var a, b := ["x|", "y"], ["x", "|y"]; a != b && |a| == |b| && JoinKey(a) == JoinKey(b)
  {
    var a, b := ["x|", "y"], ["x", "|y"];
    assert a[..1] == ["x|"] && b[..1] == ["x"];
    assert JoinKey(a) == "x|" + "|" + "y" && JoinKey(b) == "x" + "|" + "|y";
    assert a[0] != b[0];
  }

  // ----- sheets, whose rows differ in width -----

  /** Another row, of any width, with the same key. */
  lemma {:induction false} AnyWidthCollision(a: Row) returns (b: Row)
    requires |a| != 1 || FieldPipes(a) > 0 || a[0] == ""
    ensures b != a && JoinKey(b) == JoinKey(a)
  {
    if |a| == 0 {
      b := [""];
    } else if |a| > 1 {
      b := [JoinKey(a)];
    } else if a[0] == "" {
      b := [];
    } else {
      var k, x, y := CutField(a);
      b := [x, y];
      assert b[..1] == [x];
    }
  }

  lemma {:induction false} OneFieldKey(a: Row, b: Row)
    requires |a| == 1 && FieldPipes(a) == 0 && a[0] != "" && JoinKey(b) == JoinKey(a)
    ensures b == a
  {
    assert a[..0] == [];
    assert Pipes(a[0]) == 0;
    if |b| > 1 {
      KeyPipes(b);
    }
  }

  /** Exactly which rows a sheet load can never lose: those of a single non-empty field without a
      separator. Sheet rows may end early, so rows of different widths meet. */
  lemma {:induction false} SheetKeepsIff(a: Row)
    ensures (forall rows :: a in rows ==> a in FirstByKey(rows)) <==> |a| == 1 && FieldPipes(a) == 0 && a[0] != ""
  {
    if |a| == 1 && FieldPipes(a) == 0 && a[0] != "" {
      forall rows | a in rows
        ensures a in FirstByKey(rows)
      {
        FirstByKeyIs(rows);
        assert JoinKey(a) in KeysOf(FirstByKey(rows));
        var b :| b in FirstByKey(rows) && JoinKey(b) == JoinKey(a);
        OneFieldKey(a, b);
      }
    } else {
      var b := AnyWidthCollision(a);
      SecondSheetRowLost(a, b);
      assert a in [b, a];
    }
  }

  lemma {:induction false} SecondSheetRowLost(a: Row, b: Row)
    requires JoinKey(a) == JoinKey(b)
    ensures FirstByKey([b, a]) == [b]
  {
    assert [b, a][..1] == [b] && [b][..0] == [];
    assert b in [b];
    assert FirstByKey([b]) == [b];
  }
}
