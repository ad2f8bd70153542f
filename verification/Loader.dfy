/** The loaders' insert loops: streaming a CSV file chunk by chunk, and loading a sheet. */
module Loader {
  import opened Collections
  import opened LoaderColumns
  import opened LoaderInsert
  import opened LoaderStream

  /** Insert one chunk and count it. */
  method Flush(chunk: seq<Row>, cols: nat, indexMap: map<nat, nat>, direct: bool, inserted: seq<Row>,
               chunks: seq<seq<Row>>)
    returns (all: seq<Row>, more: seq<seq<Row>>, outcome: Outcome)
    requires inserted == Concat(chunks)
    ensures EndsFor(outcome, chunk, cols) && (outcome.DividedByZero? ==> all == inserted)
    ensures outcome.Stored? ==> all == inserted + chunk && more == chunks + [chunk] && all == Concat(more)
    ensures !outcome.Stored? ==> inserted <= all <= inserted + chunk
  {
    var sent, batches;
    sent, batches, outcome := InsertBatch(chunk, cols, indexMap, direct);
    all := inserted + Concat(batches);
    more := chunks;
    if outcome.Stored? {
      ConcatSnoc(chunks, chunk);
      more := chunks + [chunk];
    }
  }

  ghost predicate AllFull(chunks: seq<seq<Row>>, chunkSize: nat) {
    forall k :: 0 <= k < |chunks| ==> |chunks[k]| == chunkSize
  }

  lemma AllFullSnoc(chunks: seq<seq<Row>>, chunk: seq<Row>, chunkSize: nat)
    requires AllFull(chunks, chunkSize) && 0 < |chunk| <= chunkSize
    ensures Chunked(chunks + [chunk], chunkSize) && (|chunk| == chunkSize ==> AllFull(chunks + [chunk], chunkSize))
  {
  }

  /** A partial chunk on top of whole ones is whole only when it is full. */
  lemma {:induction false} WholeChunks(t: nat, c: nat, chunkSize: nat)
    requires 0 < c <= chunkSize && Whole(t, chunkSize)
    ensures Whole(t + c, chunkSize) <==> c == chunkSize
  {
    if t > 0 {
      WholeChunks(t - chunkSize, c, chunkSize);
    }
  }

  /** Insert a full chunk, and clear the seen set when the count is round. */
  method FlushFull(chunk: seq<Row>, cols: nat, indexMap: map<nat, nat>, direct: bool, chunkSize: nat,
                   inserted: seq<Row>, chunks: seq<seq<Row>>, totalRows: nat, seenRows: set<string>)
    returns (all: seq<Row>, more: seq<seq<Row>>, total: nat, seen: set<string>, outcome: Outcome)
    requires chunkSize > 0 && |chunk| == chunkSize && totalRows == |inserted|
    requires inserted == Concat(chunks) && AllFull(chunks, chunkSize)
    ensures EndsFor(outcome, chunk, cols) && (outcome.DividedByZero? ==> all == inserted)
    ensures !outcome.Stored? ==> inserted <= all <= inserted + chunk
    ensures outcome.Stored? ==> all == inserted + chunk && all == Concat(more)
    ensures outcome.Stored? ==> AllFull(more, chunkSize) && total == totalRows + chunkSize
    ensures outcome.Stored? ==> seen == if total % RESET_EVERY == 0 then {} else seenRows
  {
    AllFullSnoc(chunks, chunk, chunkSize);
    all, more, outcome := Flush(chunk, cols, indexMap, direct, inserted, chunks);
    total, seen := totalRows + |chunk|, seenRows;
    if total % RESET_EVERY == 0 {
      seen := {};
    }
  }

  /** Insert what is left at the end of the file. */
  method FlushRest(chunk: seq<Row>, cols: nat, indexMap: map<nat, nat>, direct: bool, chunkSize: nat,
                   inserted: seq<Row>, chunks: seq<seq<Row>>, totalRows: nat)
    returns (all: seq<Row>, more: seq<seq<Row>>, total: nat, outcome: Outcome)
    requires |chunk| < chunkSize && totalRows == |inserted|
    requires inserted == Concat(chunks) && AllFull(chunks, chunkSize)
    ensures EndsFor(outcome, chunk, cols) && (outcome.DividedByZero? ==> all == inserted)
    ensures !outcome.Stored? ==> inserted <= all <= inserted + chunk
    ensures outcome.Stored? ==> all == inserted + chunk == Concat(more) && Chunked(more, chunkSize) && total == |all|
  {
    all, more, total, outcome := inserted, chunks, totalRows, Stored;
    if |chunk| > 0 {
      AllFullSnoc(chunks, chunk, chunkSize);
      all, more, outcome := Flush(chunk, cols, indexMap, direct, inserted, chunks);
      if outcome.Stored? {
        total := totalRows + |chunk|;
      }
    }
  }

  /** One more record, when the rows kept are those inserted and those in the chunk. */
  lemma {:induction false} KeepNext(s: Scan, record: Row, chunkSize: nat, inserted: seq<Row>, chunk: seq<Row>)
    requires chunkSize > 0 && Whole(|inserted|, chunkSize) && |chunk| < chunkSize && s.kept == inserted + chunk
    ensures var t := Admit(s, record, chunkSize); var key, more := JoinKey(record), chunk + [record];
      && (key in s.seen ==> t == s)
      && (key !in s.seen && IsEmptyRow(record) ==> t.kept == inserted + chunk && t.seen == s.seen + {key})
      && (key !in s.seen && !IsEmptyRow(record) ==>
            t.kept == inserted + more &&
            t.seen == if |more| == chunkSize && (|inserted| + |more|) % RESET_EVERY == 0 then {} else s.seen + {key})
  {
    WholeChunks(|inserted|, |chunk| + 1, chunkSize);
    assert inserted + chunk + [record] == inserted + (chunk + [record]);
  }

  lemma {:induction false} NextScan(records: seq<Row>, i: nat, s: Scan, chunkSize: nat) returns (t: Scan)
    requires chunkSize > 0 && i < |records| && s == Scanned(records[..i], chunkSize)
    ensures t == Admit(s, records[i], chunkSize) == Scanned(records[..i + 1], chunkSize)
    ensures t.kept <= Scanned(records, chunkSize).kept
  {
    ScannedSnoc(records, i, chunkSize);
    ScannedGrows(records, i + 1, chunkSize);
    t := Admit(s, records[i], chunkSize);
  }

  /** Stream the records: skip seen keys and empty rows, insert full chunks, clear the seen set when
      a chunk ends on a round count, and insert the rest at the end. A failed insert ends the load
      with a prefix of the rows in the table. */
  method LoadCsvStreaming(records: seq<Row>, cols: nat, indexMap: map<nat, nat>, direct: bool, chunkSize: nat)
    returns (inserted: seq<Row>, chunks: seq<seq<Row>>, totalRows: nat, outcome: Outcome)
    requires chunkSize > 0
    ensures EndsFor(outcome, Scanned(records, chunkSize).kept, cols) && (cols == 0 ==> inserted == [])
    ensures inserted <= Scanned(records, chunkSize).kept
    ensures outcome.Stored? ==> inserted == Scanned(records, chunkSize).kept && totalRows == |inserted|
    ensures outcome.Stored? ==> inserted == Concat(chunks) && Chunked(chunks, chunkSize)
  {
    inserted, chunks, totalRows, outcome := [], [], 0, Stored;
    var chunk: seq<Row> := [];
    var seenRows: set<string> := {};
    ghost var scan := Scan([], {}, 0);
    for i := 0 to |records|
      invariant outcome.Stored? && (cols == 0 ==> inserted == [])
      invariant totalRows == |inserted| && Whole(totalRows, chunkSize) && |chunk| < chunkSize
      invariant inserted == Concat(chunks) && AllFull(chunks, chunkSize)
      invariant scan == Scanned(records[..i], chunkSize)
      invariant scan.kept == inserted + chunk && scan.seen == seenRows
    {
      var record := records[i];
      KeepNext(scan, record, chunkSize, inserted, chunk);
      scan := NextScan(records, i, scan, chunkSize);
      var rowHash := JoinKey(record);
      if rowHash in seenRows {
        continue;
      }
      seenRows := seenRows + {rowHash};
      if IsEmptyRow(record) {
        continue;
      }
      chunk := chunk + [record];
      if |chunk| >= chunkSize {
        WholeChunks(totalRows, chunkSize, chunkSize);
        inserted, chunks, totalRows, seenRows, outcome :=
          FlushFull(chunk, cols, indexMap, direct, chunkSize, inserted, chunks, totalRows, seenRows);
        if !outcome.Stored? {
          return;
        }
        chunk := [];
      }
    }
    assert records[..|records|] == records;
    inserted, chunks, totalRows, outcome :=
      FlushRest(chunk, cols, indexMap, direct, chunkSize, inserted, chunks, totalRows);
  }

  // ----- sheets -----

  /** The first row with each key. */
  function FirstByKey(rows: seq<Row>): (kept: seq<Row>)
    ensures |kept| <= |rows|
  {
    if rows == [] then []
    else
      var n := |rows| - 1;
      var kept := FirstByKey(rows[..n]);
      if JoinKey(rows[n]) in KeysOf(rows[..n]) then kept else kept + [rows[n]]
  }

  function KeysOf(rows: seq<Row>): set<string> {
    set r | r in rows :: JoinKey(r)
  }

  lemma {:induction false} FirstByKeySnoc(rows: seq<Row>, i: nat)
    requires i < |rows|
    ensures FirstByKey(rows[..i + 1]) ==
      FirstByKey(rows[..i]) + if JoinKey(rows[i]) in KeysOf(rows[..i]) then [] else [rows[i]]
    ensures KeysOf(rows[..i + 1]) == KeysOf(rows[..i]) + {JoinKey(rows[i])}
  {
    assert rows[..i + 1][..i] == rows[..i];
    assert rows[..i + 1] == rows[..i] + [rows[i]];
  }

  lemma {:induction false} FirstByKeyAdd(done: seq<Row>, row: Row)
    ensures FirstByKey(done + [row]) ==
      if JoinKey(row) in KeysOf(done) then FirstByKey(done) else FirstByKey(done) + [row]
  {
    assert (done + [row])[..|done|] == done;
  }

  lemma {:induction false} KeysOfAdd(done: seq<Row>, row: Row)
    ensures KeysOf(done + [row]) == KeysOf(done) + {JoinKey(row)}
  {
    assert forall r :: r in done + [row] <==> r in done || r == row;
  }

  lemma {:induction false} UniqueNext(done: seq<Row>, row: Row, base: seq<Row>, unique: seq<Row>)
    requires FirstByKey(done) == base + unique
    ensures FirstByKey(done + [row]) == base + if JoinKey(row) in KeysOf(done) then unique else unique + [row]
    ensures KeysOf(done + [row]) == KeysOf(done) + {JoinKey(row)}
  {
    FirstByKeyAdd(done, row);
    KeysOfAdd(done, row);
    assert base + unique + [row] == base + (unique + [row]);
  }

  /** Keep a row whose key is new to the sheet. */
  method TakeUnique(row: Row, unique: seq<Row>, seen: set<string>, ghost base: seq<Row>, ghost done: seq<Row>)
    returns (all: seq<Row>, next: set<string>)
    requires FirstByKey(done) == base + unique && seen == KeysOf(done)
    ensures FirstByKey(done + [row]) == base + all && next == KeysOf(done + [row])
  {
    UniqueNext(done, row, base, unique);
    all, next := unique, seen;
    var rowHash := JoinKey(row);
    if rowHash !in seen {
      next := seen + {rowHash};
      all := unique + [row];
    }
  }

  /** Keep of a chunk the rows whose key is new to the sheet. */
  method UniqueOf(rows: seq<Row>, start: nat, end: nat, seen: set<string>) returns (unique: seq<Row>, next: set<string>)
    requires start <= end <= |rows| && seen == KeysOf(rows[..start])
    ensures FirstByKey(rows[..end]) == FirstByKey(rows[..start]) + unique && next == KeysOf(rows[..end])
  {
    unique, next := [], seen;
    ghost var base, done := FirstByKey(rows[..start]), rows[..start];
    for k := start to end
      invariant done == rows[..k]
      invariant FirstByKey(done) == base + unique && next == KeysOf(done)
    {
      unique, next := TakeUnique(rows[k], unique, next, base, done);
      PrefixSnoc(rows, k);
      done := done + [rows[k]];
    }
  }

  lemma {:induction false} FirstByKeyPrefix(rows: seq<Row>, k: nat)
    requires k <= |rows|
    ensures FirstByKey(rows[..k]) <= FirstByKey(rows)
    decreases |rows|
  {
    if k < |rows| {
      var n := |rows| - 1;
      FirstByKeyPrefix(rows[..n], k);
      assert rows[..n][..k] == rows[..k];
    } else {
      assert rows[..k] == rows;
    }
  }

  /** Load a sheet chunk by chunk; the seen keys are kept for the whole sheet. */
  method LoadSheet(rows: seq<Row>, cols: nat, chunkSize: nat)
    returns (inserted: seq<Row>, rowCount: nat, outcome: Outcome)
    requires chunkSize > 0
    ensures EndsFor(outcome, FirstByKey(rows), cols) && (cols == 0 ==> inserted == [])
    ensures inserted <= FirstByKey(rows)
    ensures outcome.Stored? ==> inserted == FirstByKey(rows) && rowCount == |inserted|
  {
    inserted, rowCount, outcome := [], 0, Stored;
    var seenRows: set<string> := {};
    var i := 0;
    while i < |rows|
      invariant outcome.Stored? && (cols == 0 ==> inserted == [])
      invariant i <= |rows| && rowCount == |inserted|
      invariant inserted == FirstByKey(rows[..i]) && seenRows == KeysOf(rows[..i])
    {
      var end := Min(i + chunkSize, |rows|);
      var uniqueChunk;
      uniqueChunk, seenRows := UniqueOf(rows, i, end, seenRows);
      FirstByKeyPrefix(rows, end);
      if |uniqueChunk| > 0 {
        var sent, batches;
        sent, batches, outcome := InsertBatch(uniqueChunk, cols, map[], true);
        if !outcome.Stored? {
          return inserted + Concat(batches), rowCount, outcome;
        }
        inserted := inserted + uniqueChunk;
        rowCount := rowCount + |uniqueChunk|;
      }
      i := end;
    }
    assert rows[..|rows|] == rows;
  }

  lemma {:induction false} KeptKeys(rows: seq<Row>)
    ensures KeysOf(FirstByKey(rows)) == KeysOf(rows)
  {
    if rows != [] {
      var n := |rows| - 1;
      KeptKeys(rows[..n]);
      FirstByKeySnoc(rows, n);
      assert rows[..n + 1] == rows;
      assert forall k :: k in KeysOf(FirstByKey(rows[..n]) + [rows[n]]) <==>
        k in KeysOf(FirstByKey(rows[..n])) || k == JoinKey(rows[n]);
    }
  }

  /** No earlier row has the row's key. */
  predicate IsFirst(rows: seq<Row>, r: Row) {
    exists i :: 0 <= i < |rows| && rows[i] == r && forall j :: 0 <= j < i ==> JoinKey(rows[j]) != JoinKey(r)
  }

  lemma {:induction false} StaysFirst(rows: seq<Row>, r: Row)
    requires rows != [] && IsFirst(rows[..|rows| - 1], r)
    ensures IsFirst(rows, r)
  {
    var before := rows[..|rows| - 1];
    var i :| 0 <= i < |before| && before[i] == r && forall j :: 0 <= j < i ==> JoinKey(before[j]) != JoinKey(r);
    assert rows[i] == r && forall j :: 0 <= j < i ==> rows[j] == before[j];
  }

  /** One row for each key of the sheet, in order. */
  lemma {:induction false} FirstByKeyIs(rows: seq<Row>)
    ensures Subsequence(FirstByKey(rows), rows)
    ensures KeysOf(FirstByKey(rows)) == KeysOf(rows)
    ensures forall i, j :: 0 <= i < j < |FirstByKey(rows)| ==>
      JoinKey(FirstByKey(rows)[i]) != JoinKey(FirstByKey(rows)[j])
    ensures forall r :: r in FirstByKey(rows) ==> IsFirst(rows, r)
  {
    KeptKeys(rows);
    if rows == [] {
      assert TakenAt([], FirstByKey(rows), rows);
    } else {
      var n := |rows| - 1;
      FirstByKeyIs(rows[..n]);
      var kept := FirstByKey(rows[..n]);
      assert rows == rows[..n] + [rows[n]];
      forall r | r in kept
        ensures IsFirst(rows, r)
      {
        StaysFirst(rows, r);
      }
      if JoinKey(rows[n]) in KeysOf(rows[..n]) {
        SubsequenceSkip(kept, rows[..n], rows[n]);
      } else {
        SubsequenceKeep(kept, rows[..n], rows[n]);
        assert forall i :: 0 <= i < |kept| ==> JoinKey(kept[i]) in KeysOf(kept);
        assert forall j :: 0 <= j < n ==> rows[j] in rows[..n];
      }
    }
  }
}
