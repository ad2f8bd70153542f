/** Streaming deduplication with a set of seen keys that is cleared from time to time, and the
    sheet loader's deduplication over the whole sheet. */
module LoaderStream {
  import opened Collections
  import opened LoaderColumns
  import opened LoaderInsert

  const RESET_EVERY: nat := 100000

  /** The fields joined by "|". */
  function JoinKey(row: Row): string {
    if row == [] then ""
    else if |row| == 1 then row[0]
    else JoinKey(row[..|row| - 1]) + "|" + row[|row| - 1]
  }

  /** The entries of `a` are those of `b` at increasing positions. */
  ghost predicate TakenAt<T>(at: seq<nat>, a: seq<T>, b: seq<T>) {
    && |at| == |a|
    && (forall k :: 0 <= k < |at| ==> at[k] < |b| && b[at[k]] == a[k])
    && forall j, k :: 0 <= j < k < |at| ==> at[j] < at[k]
  }

  ghost predicate Subsequence<T>(a: seq<T>, b: seq<T>) {
    exists at: seq<nat> :: TakenAt(at, a, b)
  }

  lemma {:induction false} SubsequenceSkip<T>(a: seq<T>, b: seq<T>, x: T)
    requires Subsequence(a, b)
    ensures Subsequence(a, b + [x])
  {
    var at: seq<nat> :| TakenAt(at, a, b);
    assert TakenAt(at, a, b + [x]);
  }

  lemma {:induction false} SubsequenceKeep<T>(a: seq<T>, b: seq<T>, x: T)
    requires Subsequence(a, b)
    ensures Subsequence(a + [x], b + [x])
  {
    var at: seq<nat> :| TakenAt(at, a, b);
    assert TakenAt(at + [|b|], a + [x], b + [x]);
  }

  // ----- a key tells empty rows from others, at one width -----

  function Pipes(s: string): nat {
    if s == [] then 0 else Pipes(s[..|s| - 1]) + if s[|s| - 1] == '|' then 1 else 0
  }

  lemma {:induction false} PipesAppend(a: string, b: string)
    ensures Pipes(a + b) == Pipes(a) + Pipes(b)
  {
    if b == [] {
      assert a + b == a;
    } else {
      PipesAppend(a, b[..|b| - 1]);
      assert (a + b)[..|a + b| - 1] == a + b[..|b| - 1];
    }
  }

  /** The separators in the fields themselves. */
  function FieldPipes(row: Row): nat {
    if row == [] then 0 else FieldPipes(row[..|row| - 1]) + Pipes(row[|row| - 1])
  }

  lemma {:induction false} KeyPipes(row: Row)
    requires row != []
    ensures Pipes(JoinKey(row)) == FieldPipes(row) + |row| - 1
  {
    var n := |row| - 1;
    if n == 0 {
      assert FieldPipes(row[..0]) == 0;
    } else {
      KeyPipes(row[..n]);
      PipesAppend(JoinKey(row[..n]), "|");
      PipesAppend(JoinKey(row[..n]) + "|", row[n]);
      assert Pipes("|") == 1;
    }
  }

  predicate SpaceOrPipe(s: string) {
    forall i :: 0 <= i < |s| ==> IsSpace(s[i]) || s[i] == '|'
  }

  lemma {:induction false} SpaceOrPipeAppend(a: string, b: string)
    ensures SpaceOrPipe(a + b) <==> SpaceOrPipe(a) && SpaceOrPipe(b)
  {
    if SpaceOrPipe(a + b) {
      assert forall i :: 0 <= i < |a| ==> (a + b)[i] == a[i];
      assert forall i :: 0 <= i < |b| ==> (a + b)[|a| + i] == b[i];
    }
  }

  predicate FieldsSpaceOrPipe(row: Row) {
    forall k :: 0 <= k < |row| ==> SpaceOrPipe(row[k])
  }

  lemma {:induction false} KeySpaceOrPipe(row: Row)
    ensures SpaceOrPipe(JoinKey(row)) <==> FieldsSpaceOrPipe(row)
  {
    var n := |row| - 1;
    if n > 0 {
      KeySpaceOrPipe(row[..n]);
      SpaceOrPipeAppend(JoinKey(row[..n]), "|");
      SpaceOrPipeAppend(JoinKey(row[..n]) + "|", row[n]);
      assert FieldsSpaceOrPipe(row) <==> FieldsSpaceOrPipe(row[..n]) && SpaceOrPipe(row[n]) by {
        if FieldsSpaceOrPipe(row) {
          assert forall k :: 0 <= k < n ==> row[..n][k] == row[k];
        }
      }
    }
  }

  lemma {:induction false} NoPipes(s: string)
    ensures Pipes(s) == 0 <==> forall i :: 0 <= i < |s| ==> s[i] != '|'
  {
    if s != [] {
      NoPipes(s[..|s| - 1]);
    }
  }

  lemma {:induction false} NoFieldPipes(row: Row)
    ensures FieldPipes(row) == 0 <==> forall k :: 0 <= k < |row| ==> Pipes(row[k]) == 0
  {
    if row != [] {
      NoFieldPipes(row[..|row| - 1]);
    }
  }

  /** A field is blank when it holds neither separators nor anything but spaces. */
  lemma {:induction false} BlankField(s: string)
    ensures Blank(s) <==> SpaceOrPipe(s) && Pipes(s) == 0
  {
    BlankIff(s);
    NoPipes(s);
  }

  lemma {:induction false} EmptyRowKey(row: Row)
    requires row != []
    ensures IsEmptyRow(row) <==> SpaceOrPipe(JoinKey(row)) && Pipes(JoinKey(row)) == |row| - 1
  {
    KeyPipes(row);
    KeySpaceOrPipe(row);
    NoFieldPipes(row);
    forall k | 0 <= k < |row|
      ensures Blank(row[k]) <==> SpaceOrPipe(row[k]) && Pipes(row[k]) == 0
    {
      BlankField(row[k]);
    }
  }

  /** Rows of one width with the same key are both empty or both not. */
  lemma {:induction false} SameKeySameEmptiness(a: Row, b: Row)
    requires |a| == |b| && JoinKey(a) == JoinKey(b)
    ensures IsEmptyRow(a) <==> IsEmptyRow(b)
  {
    if a != [] {
      EmptyRowKey(a);
      EmptyRowKey(b);
    }
  }

  // ----- what the stream loop inserts -----

  /** `t` counts whole chunks. */
  predicate Whole(t: nat, chunkSize: nat)
    requires chunkSize > 0
  {
    t == 0 || (t >= chunkSize && Whole(t - chunkSize, chunkSize))
  }

  /** After `t` rows the seen set is cleared: a chunk just ended on a round count. */
  predicate Reset(t: nat, chunkSize: nat)
    requires chunkSize > 0
  {
    t > 0 && Whole(t, chunkSize) && t % RESET_EVERY == 0
  }

  /** Rows with the same key have a reset of the seen set between them. */
  ghost predicate DistinctBetweenResets(rows: seq<Row>, chunkSize: nat)
    requires chunkSize > 0
  {
    forall i, j :: 0 <= i < j < |rows| && JoinKey(rows[i]) == JoinKey(rows[j]) ==>
      exists t: nat :: i < t <= j && Reset(t, chunkSize)
  }

  ghost predicate NoneEmpty(rows: seq<Row>) {
    forall i :: 0 <= i < |rows| ==> !IsEmptyRow(rows[i])
  }

  ghost predicate HasKey(rows: seq<Row>, key: string) {
    exists i :: 0 <= i < |rows| && JoinKey(rows[i]) == key
  }

  /** Every non-empty record has a row with its key. */
  ghost predicate Covers(rows: seq<Row>, records: seq<Row>) {
    forall r :: 0 <= r < |records| && !IsEmptyRow(records[r]) ==> HasKey(rows, JoinKey(records[r]))
  }

  ghost predicate Uniform(records: seq<Row>) {
    forall r :: 0 <= r < |records| ==> |records[r]| == |records[0]|
  }

  /** All chunks but the last are full, and none is empty. */
  ghost predicate Chunked(chunks: seq<seq<Row>>, chunkSize: nat) {
    forall k :: 0 <= k < |chunks| ==> 0 < |chunks[k]| <= chunkSize && (k < |chunks| - 1 ==> |chunks[k]| == chunkSize)
  }

  // ----- the loop's state -----

  /** The seen set holds the keys of all rows kept since the last reset. */
  ghost predicate SeenSince(seen: set<string>, kept: seq<Row>, last: nat) {
    last <= |kept| && forall i :: last <= i < |kept| ==> JoinKey(kept[i]) in seen
  }

  ghost predicate EmptyWithKey(records: seq<Row>, key: string) {
    exists r :: 0 <= r < |records| && IsEmptyRow(records[r]) && JoinKey(records[r]) == key
  }

  /** A seen key belongs to a kept row or to an empty record. */
  ghost predicate SeenExplained(seen: set<string>, kept: seq<Row>, records: seq<Row>) {
    forall key :: key in seen ==> HasKey(kept, key) || EmptyWithKey(records, key)
  }

  /** The kept rows are records, in order, with no two of one key since a reset. */
  ghost predicate Good(kept: seq<Row>, records: seq<Row>, chunkSize: nat)
    requires chunkSize > 0
  {
    Subsequence(kept, records) && NoneEmpty(kept) && DistinctBetweenResets(kept, chunkSize)
  }

  /** `kept` are the rows kept from `records`, the last reset was after `last` of them. */
  ghost predicate Streaming(kept: seq<Row>, records: seq<Row>, seen: set<string>, last: nat, chunkSize: nat)
    requires chunkSize > 0
  {
    && Good(kept, records, chunkSize)
    && SeenSince(seen, kept, last) && (last == 0 || Reset(last, chunkSize))
    && SeenExplained(seen, kept, records)
    && (Uniform(records) ==> Covers(kept, records))
  }

  lemma {:induction false} UniformPrefix(records: seq<Row>, x: Row)
    requires Uniform(records + [x])
    ensures Uniform(records) && forall r :: 0 <= r < |records| ==> |records[r]| == |x|
  {
    var all := records + [x];
    assert all[|records|] == x;
    assert forall r :: 0 <= r < |records| ==> all[r] == records[r];
  }

  lemma {:induction false} HasKeyMore(kept: seq<Row>, x: Row, key: string)
    requires HasKey(kept, key) || JoinKey(x) == key
    ensures HasKey(kept + [x], key)
  {
    var all := kept + [x];
    if HasKey(kept, key) {
      var i :| 0 <= i < |kept| && JoinKey(kept[i]) == key;
      assert all[i] == kept[i];
    } else {
      assert all[|kept|] == x;
    }
  }

  lemma {:induction false} EmptyMore(records: seq<Row>, x: Row, key: string)
    requires EmptyWithKey(records, key) || (IsEmptyRow(x) && JoinKey(x) == key)
    ensures EmptyWithKey(records + [x], key)
  {
    var all := records + [x];
    if EmptyWithKey(records, key) {
      var r :| 0 <= r < |records| && IsEmptyRow(records[r]) && JoinKey(records[r]) == key;
      assert all[r] == records[r];
    } else {
      assert all[|records|] == x;
    }
  }

  /** A non-empty record whose key was seen has a kept row with that key. */
  lemma {:induction false} SeenHasKey(kept: seq<Row>, records: seq<Row>, seen: set<string>, x: Row)
    requires SeenExplained(seen, kept, records) && JoinKey(x) in seen && !IsEmptyRow(x)
    requires Uniform(records + [x])
    ensures HasKey(kept, JoinKey(x))
  {
    UniformPrefix(records, x);
    if EmptyWithKey(records, JoinKey(x)) {
      var r :| 0 <= r < |records| && IsEmptyRow(records[r]) && JoinKey(records[r]) == JoinKey(x);
      SameKeySameEmptiness(records[r], x);
    }
  }

  lemma {:induction false} CoversMore(kept: seq<Row>, more: seq<Row>, records: seq<Row>, x: Row)
    requires Covers(kept, records) && (IsEmptyRow(x) || HasKey(more, JoinKey(x)))
    requires more == kept || exists y :: more == kept + [y]
    ensures Covers(more, records + [x])
  {
    var all := records + [x];
    forall r | 0 <= r < |all| && !IsEmptyRow(all[r])
      ensures HasKey(more, JoinKey(all[r]))
    {
      if r < |records| {
        assert all[r] == records[r] && HasKey(kept, JoinKey(records[r]));
        if more != kept {
          var y :| more == kept + [y];
          HasKeyMore(kept, y, JoinKey(records[r]));
        }
      }
    }
  }

  /** The record's key was seen. */
  lemma {:induction false} SkipSeen(kept: seq<Row>, records: seq<Row>, seen: set<string>, last: nat, chunkSize: nat,
                                    x: Row)
    requires chunkSize > 0 && Streaming(kept, records, seen, last, chunkSize) && JoinKey(x) in seen
    ensures Streaming(kept, records + [x], seen, last, chunkSize)
  {
    SubsequenceSkip(kept, records, x);
    forall key | key in seen
      ensures HasKey(kept, key) || EmptyWithKey(records + [x], key)
    {
      if EmptyWithKey(records, key) {
        EmptyMore(records, x, key);
      }
    }
    if Uniform(records + [x]) {
      UniformPrefix(records, x);
      if !IsEmptyRow(x) {
        SeenHasKey(kept, records, seen, x);
      }
      CoversMore(kept, kept, records, x);
    }
  }

  /** The record is new but empty. */
  lemma {:induction false} SkipEmpty(kept: seq<Row>, records: seq<Row>, seen: set<string>, last: nat, chunkSize: nat,
                                     x: Row)
    requires chunkSize > 0 && Streaming(kept, records, seen, last, chunkSize) && IsEmptyRow(x)
    ensures Streaming(kept, records + [x], seen + {JoinKey(x)}, last, chunkSize)
  {
    SubsequenceSkip(kept, records, x);
    forall key | key in seen + {JoinKey(x)}
      ensures HasKey(kept, key) || EmptyWithKey(records + [x], key)
    {
      if key == JoinKey(x) || EmptyWithKey(records, key) {
        EmptyMore(records, x, key);
      }
    }
    if Uniform(records + [x]) {
      UniformPrefix(records, x);
      CoversMore(kept, kept, records, x);
    }
  }

  lemma {:induction false} KeepDistinct(kept: seq<Row>, seen: set<string>, last: nat, chunkSize: nat, x: Row)
    requires chunkSize > 0 && DistinctBetweenResets(kept, chunkSize) && SeenSince(seen, kept, last)
    requires (last == 0 || Reset(last, chunkSize)) && JoinKey(x) !in seen
    ensures DistinctBetweenResets(kept + [x], chunkSize)
  {
    var all := kept + [x];
    forall i, j | 0 <= i < j < |all| && JoinKey(all[i]) == JoinKey(all[j])
      ensures exists t: nat :: i < t <= j && Reset(t, chunkSize)
    {
      if j == |kept| {
        assert all[j] == x && all[i] == kept[i];
        assert i < last && Reset(last, chunkSize);
      } else {
        assert all[i] == kept[i] && all[j] == kept[j];
      }
    }
  }

  /** The record is new and has data: it is kept. */
  lemma {:induction false} Keep(kept: seq<Row>, records: seq<Row>, seen: set<string>, last: nat, chunkSize: nat, x: Row)
    requires chunkSize > 0 && Streaming(kept, records, seen, last, chunkSize) && JoinKey(x) !in seen && !IsEmptyRow(x)
    ensures Streaming(kept + [x], records + [x], seen + {JoinKey(x)}, last, chunkSize)
  {
    SubsequenceKeep(kept, records, x);
    KeepDistinct(kept, seen, last, chunkSize, x);
    forall key | key in seen + {JoinKey(x)}
      ensures HasKey(kept + [x], key) || EmptyWithKey(records + [x], key)
    {
      if key == JoinKey(x) || HasKey(kept, key) {
        HasKeyMore(kept, x, key);
      } else {
        EmptyMore(records, x, key);
      }
    }
    HasKeyMore(kept, x, JoinKey(x));
    if Uniform(records + [x]) {
      UniformPrefix(records, x);
      CoversMore(kept, kept + [x], records, x);
    }
  }

  /** Clearing the seen set when everything kept is inserted and the count is round. */
  lemma ClearSeen(kept: seq<Row>, records: seq<Row>, seen: set<string>, last: nat, chunkSize: nat)
    requires chunkSize > 0 && Streaming(kept, records, seen, last, chunkSize) && Reset(|kept|, chunkSize)
    ensures Streaming(kept, records, {}, |kept|, chunkSize)
  {
  }

  // ----- the stream as a function of the records -----

  /** What the loop knows after some records: the rows kept, the seen set, and how many rows were
      kept when it was last cleared. */
  datatype Scan = Scan(kept: seq<Row>, seen: set<string>, last: nat)

  function Scanned(records: seq<Row>, chunkSize: nat): Scan
    requires chunkSize > 0
  {
    if records == [] then Scan([], {}, 0)
    else Admit(Scanned(records[..|records| - 1], chunkSize), records[|records| - 1], chunkSize)
  }

  /** One record: skip a seen key, remember an empty row's key, keep the rest. */
  function Admit(s: Scan, record: Row, chunkSize: nat): Scan
    requires chunkSize > 0
  {
    var key := JoinKey(record);
    if key in s.seen then s
    else if IsEmptyRow(record) then s.(seen := s.seen + {key})
    else
      var kept := s.kept + [record];
      if Reset(|kept|, chunkSize) then Scan(kept, {}, |kept|) else Scan(kept, s.seen + {key}, s.last)
  }

  lemma {:induction false} ScannedSnoc(records: seq<Row>, i: nat, chunkSize: nat)
    requires chunkSize > 0 && i < |records|
    ensures Scanned(records[..i + 1], chunkSize) == Admit(Scanned(records[..i], chunkSize), records[i], chunkSize)
  {
    assert records[..i + 1][..i] == records[..i];
  }

  /** Later records only add rows at the end. */
  lemma {:induction false} ScannedGrows(records: seq<Row>, i: nat, chunkSize: nat)
    requires chunkSize > 0 && i <= |records|
    ensures Scanned(records[..i], chunkSize).kept <= Scanned(records, chunkSize).kept
    decreases |records|
  {
    if i < |records| {
      var n := |records| - 1;
      ScannedGrows(records[..n], i, chunkSize);
      assert records[..n][..i] == records[..i];
    } else {
      assert records[..i] == records;
    }
  }

  lemma {:induction false} ScannedStreams(records: seq<Row>, chunkSize: nat)
    requires chunkSize > 0
    ensures var s := Scanned(records, chunkSize); Streaming(s.kept, records, s.seen, s.last, chunkSize)
  {
    if records == [] {
      var none: seq<Row> := [];
      assert TakenAt([], none, none);
    } else {
      var n := |records| - 1;
      var done, x := records[..n], records[n];
      ScannedStreams(done, chunkSize);
      assert records == done + [x];
      AdmitStreams(Scanned(done, chunkSize), done, x, chunkSize);
    }
  }

  lemma {:induction false} AdmitStreams(s: Scan, done: seq<Row>, x: Row, chunkSize: nat)
    requires chunkSize > 0 && Streaming(s.kept, done, s.seen, s.last, chunkSize)
    ensures var n := Admit(s, x, chunkSize); Streaming(n.kept, done + [x], n.seen, n.last, chunkSize)
  {
    if JoinKey(x) in s.seen {
      SkipSeen(s.kept, done, s.seen, s.last, chunkSize, x);
    } else if IsEmptyRow(x) {
      SkipEmpty(s.kept, done, s.seen, s.last, chunkSize, x);
    } else {
      Keep(s.kept, done, s.seen, s.last, chunkSize, x);
      if Reset(|s.kept + [x]|, chunkSize) {
        ClearSeen(s.kept + [x], done + [x], s.seen + {JoinKey(x)}, s.last, chunkSize);
      }
    }
  }

  /** The rows kept are records in order, none empty; two with one key have a reset between them;
      and every non-empty record of the fixed width has a kept row with its key. */
  lemma {:induction false} KeptRows(records: seq<Row>, chunkSize: nat)
    requires chunkSize > 0
    ensures var kept := Scanned(records, chunkSize).kept;
      && Subsequence(kept, records) && NoneEmpty(kept)
      && DistinctBetweenResets(kept, chunkSize)
      && (Uniform(records) ==> Covers(kept, records))
  {
    ScannedStreams(records, chunkSize);
  }
}
