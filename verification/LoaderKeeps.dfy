/** Exactly which records the streaming load keeps, told by the records alone. */
module LoaderKeeps {
  import opened Collections
  import opened LoaderColumns
  import opened LoaderStream

  function KeptAfter(records: seq<Row>, n: nat, chunkSize: nat): seq<Row>
    requires chunkSize > 0 && n <= |records|
  {
    Scanned(records[..n], chunkSize).kept
  }

  /** The seen keys are cleared after `m` records: the last of them was kept, and the rows kept fill
      whole chunks and are a multiple of 100000. */
  predicate ClearedAt(records: seq<Row>, m: nat, chunkSize: nat)
    requires chunkSize > 0 && m <= |records|
  {
    m == 0 ||
    (var before, after := |KeptAfter(records, m - 1, chunkSize)|, |KeptAfter(records, m, chunkSize)|;
      before < after && after % chunkSize == 0 && after % 100000 == 0)
  }

  /** Of the first `n` records, the keys were last cleared after `m`. */
  ghost predicate LastCleared(records: seq<Row>, n: nat, m: nat, chunkSize: nat)
    requires chunkSize > 0 && m <= n <= |records|
  {
    ClearedAt(records, m, chunkSize) && forall j :: m < j <= n ==> !ClearedAt(records, j, chunkSize)
  }

  predicate AllSpaces(row: Row) {
    forall c :: 0 <= c < |row| ==> forall k :: 0 <= k < |row[c]| ==> IsSpace(row[c][k])
  }

  lemma {:induction false} EmptyIsAllSpaces(row: Row)
    ensures IsEmptyRow(row) <==> AllSpaces(row)
  {
    forall c | 0 <= c < |row|
      ensures Blank(row[c]) <==> forall k :: 0 <= k < |row[c]| ==> IsSpace(row[c][k])
    {
      BlankIff(row[c]);
    }
  }

  lemma {:induction false} WholeIff(t: nat, chunkSize: nat)
    requires chunkSize > 0
    ensures Whole(t, chunkSize) <==> t % chunkSize == 0
  {
    if t >= chunkSize {
      WholeIff(t - chunkSize, chunkSize);
      assert t == (t - chunkSize) + chunkSize;
      assert (t - chunkSize) / chunkSize * chunkSize + (t - chunkSize) % chunkSize == t - chunkSize;
      DivStep(t, chunkSize);
    }
  }

  lemma {:induction false} DivStep(t: nat, c: nat)
    requires 0 < c <= t
    ensures t % c == (t - c) % c
  {
    var q, r := (t - c) / c, (t - c) % c;
    assert t == (q + 1) * c + r;
    Remainder(t, q + 1, r, c);
  }

  lemma {:induction false} Remainder(t: nat, q: nat, r: nat, c: nat)
    requires c > 0 && r < c && t == q * c + r
    ensures t % c == r
  {
    var q', r' := t / c, t % c;
    assert t == q' * c + r';
    assert (q - q') * c == r' - r;
    if q > q' {
      AtLeast(q - q', c);
    } else if q < q' {
      AtLeast(q' - q, c);
    }
  }

  lemma AtLeast(k: nat, c: nat)
    requires k >= 1
    ensures k * c >= c
  {
  }

  function KeysFrom(records: seq<Row>, m: nat, n: nat): set<string>
    requires m <= n <= |records|
  {
    set i | m <= i < n :: JoinKey(records[i])
  }

  /** One more record: either it clears the keys, or its key is seen. */
  lemma {:induction false} SeenNext(records: seq<Row>, n: nat, chunkSize: nat)
    requires chunkSize > 0 && n < |records|
    ensures var s, t := Scanned(records[..n], chunkSize), Scanned(records[..n + 1], chunkSize);
      t.seen == if ClearedAt(records, n + 1, chunkSize) then {} else s.seen + {JoinKey(records[n])}
  {
    ScannedSnoc(records, n, chunkSize);
    WholeIff(|Scanned(records[..n + 1], chunkSize).kept|, chunkSize);
  }

  /** The seen set holds the keys of the records since it was cleared. */
  lemma {:induction false} SeenIs(records: seq<Row>, n: nat, m: nat, chunkSize: nat)
    requires chunkSize > 0 && m <= n <= |records| && LastCleared(records, n, m, chunkSize)
    ensures Scanned(records[..n], chunkSize).seen == KeysFrom(records, m, n)
  {
    if n > 0 {
      SeenNext(records, n - 1, chunkSize);
      if m < n {
        SeenIs(records, n - 1, m, chunkSize);
        KeysSnoc(records, m, n - 1);
      }
    }
  }

  lemma {:induction false} KeysSnoc(records: seq<Row>, m: nat, n: nat)
    requires m <= n < |records|
    ensures KeysFrom(records, m, n + 1) == KeysFrom(records, m, n) + {JoinKey(records[n])}
  {
    assert forall i {:trigger records[i]} :: m <= i < n + 1 <==> m <= i < n || i == n;
  }

  /** The next record is kept exactly when one of its fields has more than spaces and no record since
      the keys were last cleared has its key. */
  lemma {:induction false} KeptIff(records: seq<Row>, n: nat, m: nat, chunkSize: nat)
    requires chunkSize > 0 && m <= n < |records| && LastCleared(records, n, m, chunkSize)
    ensures var keeps := !AllSpaces(records[n]) &&
        forall i :: m <= i < n ==> JoinKey(records[i]) != JoinKey(records[n]);
      KeptAfter(records, n + 1, chunkSize) ==
        KeptAfter(records, n, chunkSize) + if keeps then [records[n]] else []
  {
    SeenIs(records, n, m, chunkSize);
    ScannedSnoc(records, n, chunkSize);
    EmptyIsAllSpaces(records[n]);
    assert JoinKey(records[n]) in KeysFrom(records, m, n) <==>
      exists i :: m <= i < n && JoinKey(records[i]) == JoinKey(records[n]);
  }
}
