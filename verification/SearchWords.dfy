/** What the search promises in terms of the words themselves: it finds the rows that have all the
    query's words, whatever the case of the letters, and with hashes that tell the words apart
    nothing else. */
module SearchWords {
  import opened Collections
  import opened GlobalIds
  import opened SearchIndex

  /** The words agree letter by letter, up to the case of ASCII letters. */
  predicate SameWord(t: string, q: string) {
    |t| == |q| && forall i :: 0 <= i < |t| ==> SameLetter(t[i], q[i])
  }

  lemma {:induction false} SameWordIff(t: string, q: string)
    ensures SameWord(t, q) <==> ToLower(t) == ToLower(q)
  {
    forall i | 0 <= i < |t| && |t| == |q|
      ensures SameLetter(t[i], q[i]) <==> ToLower(t)[i] == ToLower(q)[i]
    {
      SameLetterIff(t[i], q[i]);
    }
  }

  /** The record has the word, and it is long enough to be indexed. */
  ghost predicate HasWord(r: Record, q: string) {
    exists t :: t in r.tokens && |t| >= 2 && SameWord(t, q)
  }

  /** A row indexed with the word, in whatever case, is selected by it. */
  lemma {:induction false} WordIsFound(fnv: HashFn, history: seq<Op>, table: string, r: Record, q: string)
    requires Indexed(history, table, r) && HasWord(r, q)
    ensures Selected(fnv, StoreAfter(fnv, history), [q], RowId(fnv, table, r.key))
  {
    var t :| t in r.tokens && |t| >= 2 && SameWord(t, q);
    SameWordIff(t, q);
    IndexedHasPosting(fnv, history, table, r, Posting(HashToken(fnv, q), RowId(fnv, table, r.key)));
  }

  /** The hash tells the query's words from all other indexed words. */
  ghost predicate HashesApart(fnv: HashFn, history: seq<Op>, query: seq<string>) {
    forall table, r, t, q ::
      Indexed(history, table, r) && t in r.tokens && q in query && fnv(ToLower(t)) == fnv(ToLower(q)) ==> SameWord(t, q)
  }

  /** Some indexed version of the row has the word. */
  ghost predicate RowHasWord(history: seq<Op>, table: string, key: nat, q: string) {
    exists v :: Indexed(history, table, v) && v.key == key && HasWord(v, q)
  }

  lemma {:induction false} HasWordIff(fnv: HashFn, history: seq<Op>, query: seq<string>, table: string, r: Record,
                                      q: string)
    requires HashesApart(fnv, history, query) && Indexed(history, table, r) && q in query
    ensures HasWord(r, q) <==> Contains(fnv, r, HashToken(fnv, q))
  {
    if HasWord(r, q) {
      var t :| t in r.tokens && |t| >= 2 && SameWord(t, q);
      SameWordIff(t, q);
    }
    if Contains(fnv, r, HashToken(fnv, q)) {
      var t :| t in r.tokens && |t| >= 2 && HashToken(fnv, t) == HashToken(fnv, q);
      assert SameWord(t, q);
    }
  }

  lemma {:induction false} RowHasWordIff(fnv: HashFn, history: seq<Op>, query: seq<string>, table: string, key: nat,
                                         q: string)
    requires HashesApart(fnv, history, query) && q in query
    ensures RowHasWord(history, table, key, q) <==> VersionHas(fnv, history, table, key, q)
  {
    if RowHasWord(history, table, key, q) {
      var v :| Indexed(history, table, v) && v.key == key && HasWord(v, q);
      HasWordIff(fnv, history, query, table, v, q);
    }
    if VersionHas(fnv, history, table, key, q) {
      var v :| Indexed(history, table, v) && v.key == key && Contains(fnv, v, HashToken(fnv, q));
      HasWordIff(fnv, history, query, table, v, q);
    }
  }

  ghost predicate RowHasWords(history: seq<Op>, table: string, key: nat, query: seq<string>) {
    forall q :: q in query ==> RowHasWord(history, table, key, q)
  }

  /** The bitmap search finds exactly the rows whose indexed versions have all the query's words
      between them, whatever the case, whatever sends failed and were retried. */
  lemma {:induction false} SearchFindsWords(fnv: HashFn, tables: set<string>, history: seq<Op>, query: seq<string>,
                                            id: nat)
    requires Identified(fnv, tables, history) && HashesApart(fnv, history, query) && query != []
    ensures Selected(fnv, StoreAfter(fnv, history), query, id) <==>
      exists table, r :: Indexed(history, table, r) && id == RowId(fnv, table, r.key) &&
        RowHasWords(history, table, r.key, query)
  {
    BitmapMatchesVersions(fnv, tables, history, query, id);
    forall table, key: nat
      ensures RowHasWords(history, table, key, query) <==> VersionsAnswer(fnv, history, table, key, query)
    {
      forall q | q in query
        ensures RowHasWord(history, table, key, q) <==> VersionHas(fnv, history, table, key, q)
      {
        RowHasWordIff(fnv, history, query, table, key, q);
      }
    }
  }

  // ----- the statistics of a word -----

  /** The records that are indexed with the word. */
  ghost function WithWord(records: seq<Record>, q: string): seq<Record> {
    Filter((r: Record) => r.key != 0 && HasWord(r, q), records)
  }

  ghost predicate HashApart(fnv: HashFn, records: seq<Record>, q: string) {
    forall r, t :: r in records && t in r.tokens && fnv(ToLower(t)) == fnv(ToLower(q)) ==> SameWord(t, q)
  }

  /** The statistics sent for a word count the records that have it, each once. */
  lemma {:induction false} StatsCountRecords(fnv: HashFn, table: string, records: seq<Record>, q: string)
    requires HashApart(fnv, records, q)
    ensures StatRows(fnv, table, records)[Stat(fnv(ToLower(q)), table)] == |WithWord(records, q)|
  {
    StatRowsCount(fnv, table, records, fnv(ToLower(q)));
    CountIsWithWord(fnv, records, q);
  }

  lemma {:induction false} CountIsWithWord(fnv: HashFn, records: seq<Record>, q: string)
    requires HashApart(fnv, records, q)
    ensures CountWith(fnv, records, fnv(ToLower(q))) == |WithWord(records, q)|
  {
    if records != [] {
      var n := |records| - 1;
      CountIsWithWord(fnv, records[..n], q);
      WordOfRecord(fnv, records, records[n], q);
    }
  }

  lemma {:induction false} WordOfRecord(fnv: HashFn, records: seq<Record>, r: Record, q: string)
    requires HashApart(fnv, records, q) && r in records
    ensures Contains(fnv, r, fnv(ToLower(q))) <==> r.key != 0 && HasWord(r, q)
  {
    if HasWord(r, q) {
      var t :| t in r.tokens && |t| >= 2 && SameWord(t, q);
      SameWordIff(t, q);
    }
    if Contains(fnv, r, fnv(ToLower(q))) {
      var t :| t in r.tokens && |t| >= 2 && HashToken(fnv, t) == fnv(ToLower(q));
      assert SameWord(t, q);
    }
  }

  // ----- the main row of a key -----

  predicate HasKey(records: seq<Record>, key: nat) {
    exists i :: 0 <= i < |records| && records[i].key == key
  }

  /** The operation writes the main row of the key. */
  predicate Writes(op: Op, table: string, key: nat) {
    op.table == table && if op.Delete? then op.key == key else op.sent >= 1 && HasKey(op.records, key)
  }

  /** The last record of the list with the key. */
  predicate IsLast(records: seq<Record>, key: nat, r: Record) {
    exists i :: 0 <= i < |records| && records[i] == r && r.key == key &&
      forall j :: i < j < |records| ==> records[j].key != key
  }

  ghost predicate SmallKeys(history: seq<Op>) {
    forall op :: op in history ==>
      if op.Delete? then op.key < LOCAL_SPAN else forall r :: r in op.records ==> r.key < LOCAL_SPAN
  }

  lemma {:induction false} SameRowKey(fnv: HashFn, table: string, a: nat, b: nat)
    requires a < LOCAL_SPAN && b < LOCAL_SPAN
    ensures RowId(fnv, table, a) == RowId(fnv, table, b) <==> a == b
  {
    UnpackPack(TableId(fnv, table), a);
    UnpackPack(TableId(fnv, table), b);
  }

  lemma {:induction false} LastRecordWins(fnv: HashFn, table: string, records: seq<Record>, key: nat)
    requires 0 < key < LOCAL_SPAN && forall r :: r in records ==> r.key < LOCAL_SPAN
    ensures var k := RowKey(table, RowId(fnv, table, key)); var rows := MainRows(fnv, table, records);
      (k in rows <==> HasKey(records, key)) && (k in rows ==> IsLast(records, key, rows[k]))
  {
    if records != [] {
      var n := |records| - 1;
      LastRecordWins(fnv, table, records[..n], key);
      MainRowsSnoc(fnv, table, records[..n], records[n]);
      assert records == records[..n] + [records[n]];
      SameRowKey(fnv, table, records[n].key, key);
      if records[n].key != key && HasKey(records[..n], key) {
        var r := MainRows(fnv, table, records[..n])[RowKey(table, RowId(fnv, table, key))];
        var i :| 0 <= i < n && records[..n][i] == r && forall j :: i < j < n ==> records[..n][j].key != key;
        assert records[i] == r && forall j :: i < j < |records| ==> records[j].key != key;
      }
    }
  }

  /** After one operation: the row it wrote last, or the row from before. */
  lemma {:induction false} WriteIsSeen(fnv: HashFn, s: Store, op: Op, table: string, key: nat)
    requires 0 < key < LOCAL_SPAN && SmallKeys([op])
    ensures var k := RowKey(table, RowId(fnv, table, key)); var main := AfterOp(fnv, s, op).main;
      && (!Writes(op, table, key) ==> (k in main <==> k in s.main) && (k in main ==> main[k] == s.main[k]))
      && (Writes(op, table, key) ==>
            k in main && if op.Delete? then main[k] == Record(key, [], true) else IsLast(op.records, key, main[k]))
  {
    assert op in [op];
    match op
    case Bulk(other, records, sent) =>
      MainAfterBulk(fnv, s, other, records, sent);
      LastRecordWins(fnv, other, records, key);
      MainRowsKeys(fnv, other, records);
    case Delete(other, gone) =>
      SameRowKey(fnv, table, gone, key);
  }

  /** The main row of a key is the one the latest operation on it wrote: the last record of the list
      with the key, or the tombstone of a delete. */
  lemma {:induction false} MainRowIsLatest(fnv: HashFn, history: seq<Op>, table: string, key: nat, k: nat)
    requires 0 < key < LOCAL_SPAN && SmallKeys(history) && k < |history| && Writes(history[k], table, key)
    requires forall j :: k < j < |history| ==> !Writes(history[j], table, key)
    ensures var row := RowKey(table, RowId(fnv, table, key)); var main := StoreAfter(fnv, history).main;
      row in main &&
        if history[k].Delete? then main[row] == Record(key, [], true) else IsLast(history[k].records, key, main[row])
  {
    var n := |history| - 1;
    assert history[n] in history;
    WriteIsSeen(fnv, StoreAfter(fnv, history[..n]), history[n], table, key);
    if k < n {
      assert forall j :: 0 <= j < n ==> history[..n][j] == history[j];
      MainRowIsLatest(fnv, history[..n], table, key, k);
    }
  }

  /** A key no operation wrote has no main row. */
  lemma {:induction false} UnwrittenHasNoRow(fnv: HashFn, history: seq<Op>, table: string, key: nat)
    requires 0 < key < LOCAL_SPAN && SmallKeys(history)
    requires forall j :: 0 <= j < |history| ==> !Writes(history[j], table, key)
    ensures RowKey(table, RowId(fnv, table, key)) !in StoreAfter(fnv, history).main
  {
    if history != [] {
      var n := |history| - 1;
      assert history[n] in history;
      assert forall j :: 0 <= j < n ==> history[..n][j] == history[j];
      UnwrittenHasNoRow(fnv, history[..n], table, key);
      WriteIsSeen(fnv, StoreAfter(fnv, history[..n]), history[n], table, key);
    }
  }
}
