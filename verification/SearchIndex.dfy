/** The inverted index: one main row per packed id, one bitmap of ids per token hash and
    one counter per (token hash, table), filled by three ordered batch sends. */
module SearchIndex {
  import opened Collections
  import opened GlobalIds

  /** A source record as the indexer sees it: its key (0 when missing or unreadable), the
      tokens extracted from its columns (strings stand for byte strings) and its delete flag. */
  datatype Record = Record(key: nat, tokens: seq<string>, deleted: bool)

  datatype RowKey = RowKey(table: string, globalId: nat)
  datatype Posting = Posting(hash: nat, globalId: nat)
  datatype Stat = Stat(hash: nat, table: string)
  datatype MainRow = MainRow(rowKey: RowKey, record: Record)

  /** Merged contents of the main tables, the token bitmaps and the summed statistics. */
  datatype Store = Store(main: map<RowKey, Record>, postings: set<Posting>, stats: multiset<Stat>)

  const EMPTY_STORE := Store(map[], {}, multiset{})

  // ----- tokens -----

  function ToLower(s: string): (r: string)
    ensures |r| == |s|
    ensures forall i :: 0 <= i < |s| ==> r[i] == LowerChar(s[i])
  {
    seq(|s|, i requires 0 <= i < |s| => LowerChar(s[i]))
  }

  lemma ToLowerIdempotent(s: string)
    ensures ToLower(ToLower(s)) == ToLower(s)
  {
  }

  function HashToken(fnv: HashFn, token: string): nat {
    fnv(ToLower(token))
  }

  /** Hashes of the tokens of a record that are long enough to be indexed. */
  function TokenHashes(fnv: HashFn, tokens: seq<string>): set<nat> {
    set t | t in tokens && |t| >= 2 :: HashToken(fnv, t)
  }

  lemma {:induction false} TokenHashesSnoc(fnv: HashFn, tokens: seq<string>, token: string)
    ensures TokenHashes(fnv, tokens + [token]) ==
      TokenHashes(fnv, tokens) + if |token| < 2 then {} else {HashToken(fnv, token)}
  {
    var all := tokens + [token];
    assert forall t :: t in all <==> t in tokens || t == token;
  }

  // ----- what a list of records contributes to each of the three tables -----

  function MainRowOf(fnv: HashFn, table: string, r: Record): MainRow {
    MainRow(RowKey(table, RowId(fnv, table, r.key)), r)
  }

  function LoadMain(rows: seq<MainRow>): map<RowKey, Record> {
    if rows == [] then map[]
    else
      var last := rows[|rows| - 1];
      LoadMain(rows[..|rows| - 1])[last.rowKey := last.record]
  }

  /** The main rows of the records that have a key, in order. */
  function MainBatch(fnv: HashFn, table: string, records: seq<Record>): seq<MainRow> {
    if records == [] then []
    else
      var r := records[|records| - 1];
      MainBatch(fnv, table, records[..|records| - 1]) + if r.key == 0 then [] else [MainRowOf(fnv, table, r)]
  }

  function MainRows(fnv: HashFn, table: string, records: seq<Record>): map<RowKey, Record> {
    LoadMain(MainBatch(fnv, table, records))
  }

  function PostingsOf(globalId: nat, hashes: set<nat>): set<Posting> {
    set h | h in hashes :: Posting(h, globalId)
  }

  function Postings(fnv: HashFn, table: string, records: seq<Record>): set<Posting> {
    set r, h | r in records && r.key != 0 && h in TokenHashes(fnv, r.tokens) :: Posting(h, RowId(fnv, table, r.key))
  }

  lemma {:induction false} PostingsSnoc(fnv: HashFn, table: string, records: seq<Record>, r: Record)
    ensures Postings(fnv, table, records + [r]) == Postings(fnv, table, records) +
      if r.key == 0 then {} else PostingsOf(RowId(fnv, table, r.key), TokenHashes(fnv, r.tokens))
  {
    var all := records + [r];
    assert forall x :: x in all <==> x in records || x == r;
  }

  function Counters(table: string, hashes: set<nat>): set<Stat> {
    set h | h in hashes :: Stat(h, table)
  }

  lemma {:induction false} CountersAdd(table: string, hashes: set<nat>, hash: nat)
    requires hash !in hashes
    ensures multiset(Counters(table, hashes + {hash})) ==
      multiset(Counters(table, hashes)) + multiset{Stat(hash, table)}
  {
    assert Counters(table, hashes + {hash}) == Counters(table, hashes) + {Stat(hash, table)};
    assert Stat(hash, table) !in Counters(table, hashes);
  }

  /** One count for each distinct token hash of the record. */
  function StatsOf(fnv: HashFn, table: string): Record -> multiset<Stat> {
    (r: Record) => if r.key == 0 then multiset{} else multiset(Counters(table, TokenHashes(fnv, r.tokens)))
  }

  function StatRows(fnv: HashFn, table: string, records: seq<Record>): multiset<Stat> {
    SumOver(StatsOf(fnv, table), records)
  }

  /** The record has a usable key and an indexable token of the given hash. */
  predicate Contains(fnv: HashFn, r: Record, hash: nat) {
    r.key != 0 && hash in TokenHashes(fnv, r.tokens)
  }

  function CountWith(fnv: HashFn, records: seq<Record>, hash: nat): nat {
    if records == [] then 0
    else
      CountWith(fnv, records[..|records| - 1], hash) + if Contains(fnv, records[|records| - 1], hash) then 1 else 0
  }

  /** The summed statistics of a list of records count, per hash, the records containing it. */
  lemma {:induction false} StatRowsCount(fnv: HashFn, table: string, records: seq<Record>, hash: nat)
    ensures StatRows(fnv, table, records)[Stat(hash, table)] == CountWith(fnv, records, hash)
  {
    if records != [] {
      StatRowsCount(fnv, table, records[..|records| - 1], hash);
      var r := records[|records| - 1];
      assert Stat(hash, table) in Counters(table, TokenHashes(fnv, r.tokens)) <==> hash in TokenHashes(fnv, r.tokens);
    }
  }

  /** The row of the record's packed id. */
  predicate IsRowOf(fnv: HashFn, table: string, r: Record, k: RowKey) {
    r.key != 0 && k == RowKey(table, RowId(fnv, table, r.key))
  }

  ghost predicate HasRowFor(fnv: HashFn, table: string, records: seq<Record>, k: RowKey) {
    exists r :: r in records && IsRowOf(fnv, table, r, k)
  }

  lemma {:induction false} HasRowForSnoc(fnv: HashFn, table: string, records: seq<Record>, last: Record, k: RowKey)
    ensures HasRowFor(fnv, table, records + [last], k) <==>
      HasRowFor(fnv, table, records, k) || IsRowOf(fnv, table, last, k)
  {
    var all := records + [last];
    if HasRowFor(fnv, table, records, k) {
      var r :| r in records && IsRowOf(fnv, table, r, k);
      assert r in all;
    }
    assert last in all;
  }

  lemma {:induction false} MainRowsKeys(fnv: HashFn, table: string, records: seq<Record>)
    ensures forall k :: k in MainRows(fnv, table, records) <==> HasRowFor(fnv, table, records, k)
    ensures forall k :: k in MainRows(fnv, table, records) ==>
      var r := MainRows(fnv, table, records)[k]; r in records && IsRowOf(fnv, table, r, k)
  {
    if records != [] {
      var n := |records| - 1;
      var last := records[n];
      MainRowsKeys(fnv, table, records[..n]);
      MainRowsSnoc(fnv, table, records[..n], last);
      assert records[..n] + [last] == records;
      forall k
        ensures HasRowFor(fnv, table, records, k) <==>
          HasRowFor(fnv, table, records[..n], k) || IsRowOf(fnv, table, last, k)
      {
        HasRowForSnoc(fnv, table, records[..n], last, k);
      }
    }
  }

  lemma {:induction false} MainRowsSnoc(fnv: HashFn, table: string, records: seq<Record>, r: Record)
    ensures MainRows(fnv, table, records + [r]) ==
      if r.key == 0 then MainRows(fnv, table, records)
      else MainRows(fnv, table, records)[RowKey(table, RowId(fnv, table, r.key)) := r]
  {
    var batch := MainBatch(fnv, table, records);
    var row := MainRowOf(fnv, table, r);
    assert (records + [r])[..|records|] == records;
    assert batch + [] == batch && (batch + [row])[..|batch|] == batch;
  }

  // ----- building and sending the batches -----

  /** The three batches hold what the records contribute. */
  ghost predicate AreBatches(fnv: HashFn, table: string, records: seq<Record>, batch: seq<MainRow>,
                             tokenBatch: seq<Posting>, statsBatch: seq<Stat>) {
    && batch == MainBatch(fnv, table, records)
    && Elements(tokenBatch) == Postings(fnv, table, records)
    && multiset(statsBatch) == StatRows(fnv, table, records)
  }

  lemma {:induction false} BatchesSkip(fnv: HashFn, table: string, records: seq<Record>, r: Record, batch: seq<MainRow>,
                                       tokenBatch: seq<Posting>, statsBatch: seq<Stat>)
    requires AreBatches(fnv, table, records, batch, tokenBatch, statsBatch) && r.key == 0
    ensures AreBatches(fnv, table, records + [r], batch, tokenBatch, statsBatch)
  {
    assert (records + [r])[..|records|] == records;
    PostingsSnoc(fnv, table, records, r);
    SumOverSnoc(StatsOf(fnv, table), records, r);
    assert batch + [] == batch;
  }

  lemma {:induction false} BatchesAdd(fnv: HashFn, table: string, records: seq<Record>, r: Record,
                   batch: seq<MainRow>, tokenBatch: seq<Posting>, statsBatch: seq<Stat>, tokens: seq<Posting>,
                   stats: seq<Stat>)
    requires AreBatches(fnv, table, records, batch, tokenBatch, statsBatch) && r.key != 0
    requires Elements(tokens) == PostingsOf(RowId(fnv, table, r.key), TokenHashes(fnv, r.tokens))
    requires multiset(stats) == multiset(Counters(table, TokenHashes(fnv, r.tokens)))
    ensures AreBatches(fnv, table, records + [r], batch + [MainRowOf(fnv, table, r)],
      tokenBatch + tokens, statsBatch + stats)
  {
    assert (records + [r])[..|records|] == records;
    PostingsSnoc(fnv, table, records, r);
    SumOverSnoc(StatsOf(fnv, table), records, r);
    ElementsAppend(tokenBatch, tokens);
    assert multiset(statsBatch + stats) == multiset(statsBatch) + multiset(stats);
  }

  /** Fill the three batches: every record with a key goes to the main batch, every long
      enough token to the token batch, and to the statistics batch once per hash. */
  method PrepareBatches(fnv: HashFn, table: string, records: seq<Record>)
    returns (batch: seq<MainRow>, tokenBatch: seq<Posting>, statsBatch: seq<Stat>)
    ensures batch == MainBatch(fnv, table, records)
    ensures Elements(tokenBatch) == Postings(fnv, table, records)
    ensures multiset(statsBatch) == StatRows(fnv, table, records)
  {
    batch, tokenBatch, statsBatch := [], [], [];
    for i := 0 to |records|
      invariant AreBatches(fnv, table, records[..i], batch, tokenBatch, statsBatch)
    {
      var record := records[i];
      PrefixSnoc(records, i);
      if record.key == 0 {
        BatchesSkip(fnv, table, records[..i], record, batch, tokenBatch, statsBatch);
        continue;
      }
      var globalId := RowId(fnv, table, record.key);
      var tokens, stats := TokenRows(fnv, table, globalId, record.tokens);
      BatchesAdd(fnv, table, records[..i], record, batch, tokenBatch, statsBatch, tokens, stats);
      batch := batch + [MainRow(RowKey(table, globalId), record)];
      tokenBatch := tokenBatch + tokens;
      statsBatch := statsBatch + stats;
    }
    assert records[..|records|] == records;
  }

  /** The token loop of one record, with its per-record set of hashes already counted. */
  method TokenRows(fnv: HashFn, table: string, globalId: nat, tokens: seq<string>)
    returns (tokenBatch: seq<Posting>, statsBatch: seq<Stat>)
    ensures Elements(tokenBatch) == PostingsOf(globalId, TokenHashes(fnv, tokens))
    ensures multiset(statsBatch) == multiset(Counters(table, TokenHashes(fnv, tokens)))
  {
    tokenBatch, statsBatch := [], [];
    var seenTokens: set<nat> := {};
    for i := 0 to |tokens|
      invariant seenTokens == TokenHashes(fnv, tokens[..i])
      invariant Elements(tokenBatch) == PostingsOf(globalId, seenTokens)
      invariant multiset(statsBatch) == multiset(Counters(table, seenTokens))
    {
      var token := tokens[i];
      TokenHashesSnoc(fnv, tokens[..i], token);
      PrefixSnoc(tokens, i);
      if |token| < 2 {
        continue;
      }
      var tokenLower := ToLower(token);
      ToLowerIdempotent(token);
      var tokenHash := HashToken(fnv, tokenLower);
      ElementsAppend(tokenBatch, [Posting(tokenHash, globalId)]);
      assert PostingsOf(globalId, seenTokens + {tokenHash}) ==
        PostingsOf(globalId, seenTokens) + {Posting(tokenHash, globalId)};
      tokenBatch := tokenBatch + [Posting(tokenHash, globalId)];
      if tokenHash !in seenTokens {
        CountersAdd(table, seenTokens, tokenHash);
        seenTokens := seenTokens + {tokenHash};
        statsBatch := statsBatch + [Stat(tokenHash, table)];
      } else {
        assert seenTokens + {tokenHash} == seenTokens;
      }
    }
    assert tokens[..|tokens|] == tokens;
  }

  function SendMain(s: Store, rows: map<RowKey, Record>): Store { s.(main := s.main + rows) }
  function SendTokens(s: Store, postings: set<Posting>): Store { s.(postings := s.postings + postings) }
  function SendStats(s: Store, stats: multiset<Stat>): Store { s.(stats := s.stats + stats) }

  /** The store after the first `sent` of the three sends have gone through. */
  function AfterBulk(fnv: HashFn, s: Store, table: string, records: seq<Record>, sent: nat): Store {
    var s1 := if sent >= 1 then SendMain(s, MainRows(fnv, table, records)) else s;
    var s2 := if sent >= 2 then SendTokens(s1, Postings(fnv, table, records)) else s1;
    if sent >= 3 then SendStats(s2, StatRows(fnv, table, records)) else s2
  }

  datatype IndexResult = Done | NotPrepared | MainSendFailed | TokenSendFailed | StatsSendFailed | InvalidId

  class SearchRepository {
    var store: Store
    const fnv: HashFn

    constructor (fnv: HashFn)
      ensures this.fnv == fnv && store == EMPTY_STORE
    {
      this.fnv := fnv;
      store := EMPTY_STORE;
    }

    /** Index a list of records. The flags say whether ClickHouse is reachable, whether everything
        before the sends succeeds (the table name is valid and known, its index exists, the batches
        open and fill), and which sends are accepted; a failing send leaves the earlier ones in place. */
    method BulkIndex(table: string, records: seq<Record>, available: bool, prepared: bool, mainOk: bool, tokensOk: bool,
                     statsOk: bool)
      returns (result: IndexResult)
      modifies this
      ensures !available || records == [] ==> result == Done && store == old(store)
      ensures available && records != [] && !prepared ==> result == NotPrepared && store == old(store)
      ensures available && records != [] && prepared ==>
        && result == (if !mainOk then MainSendFailed
                      else if !tokensOk then TokenSendFailed
                      else if !statsOk then StatsSendFailed
                      else Done)
        && store == AfterBulk(fnv, old(store), table, records,
                              if !mainOk then 0 else if !tokensOk then 1 else if !statsOk then 2 else 3)
    {
      if !available || records == [] {
        return Done;
      }
      if !prepared {
        return NotPrepared;
      }
      var batch, tokenBatch, statsBatch := PrepareBatches(fnv, table, records);
      if !mainOk {
        return MainSendFailed;
      }
      store := SendMain(store, LoadMain(batch));
      if !tokensOk {
        return TokenSendFailed;
      }
      store := SendTokens(store, Elements(tokenBatch));
      if !statsOk {
        return StatsSendFailed;
      }
      store := SendStats(store, multiset(statsBatch));
      return Done;
    }

    /** Delete by inserting a tombstone under the packed id; the bitmaps are left alone. An
        unreachable index reports success. */
    method DeleteRecord(table: string, key: nat, available: bool, prepared: bool, insertOk: bool)
      returns (result: IndexResult)
      modifies this
      ensures !available ==> result == Done && store == old(store)
      ensures available && !prepared ==> result == NotPrepared && store == old(store)
      ensures available && prepared && key == 0 ==> result == InvalidId && store == old(store)
      ensures available && prepared && key != 0 && !insertOk ==> result == MainSendFailed && store == old(store)
      ensures available && prepared && key != 0 && insertOk ==>
        result == Done && store == AfterOp(fnv, old(store), Delete(table, key))
    {
      if !available {
        return Done;
      }
      if !prepared {
        return NotPrepared;
      }
      if key == 0 {
        return InvalidId;
      }
      if !insertOk {
        return MainSendFailed;
      }
      store := SendMain(store, map[RowKey(table, RowId(fnv, table, key)) := Record(key, [], true)]);
      return Done;
    }
  }

  // ----- histories of index operations -----

  /** One operation on the index, with how many of its sends went through. */
  datatype Op = Bulk(table: string, records: seq<Record>, sent: nat) | Delete(table: string, key: nat)

  function AfterOp(fnv: HashFn, s: Store, op: Op): Store {
    match op
    case Bulk(table, records, sent) => AfterBulk(fnv, s, table, records, sent)
    case Delete(table, key) =>
      if key == 0 then s
      else SendMain(s, map[RowKey(table, RowId(fnv, table, key)) := Record(key, [], true)])
  }

  function StoreAfter(fnv: HashFn, history: seq<Op>): Store {
    if history == [] then EMPTY_STORE
    else AfterOp(fnv, StoreAfter(fnv, history[..|history| - 1]), history[|history| - 1])
  }

  ghost predicate IndexedBy(op: Op, table: string, record: Record) {
    record.key != 0 && op.Bulk? && op.sent >= 2 && op.table == table && record in op.records
  }

  /** The record's tokens have reached the index in some operation, failed later or not. */
  ghost predicate Indexed(history: seq<Op>, table: string, record: Record) {
    exists op :: op in history && IndexedBy(op, table, record)
  }

  /** The operation's token batch, when it was sent, contained a record carrying this posting. */
  ghost predicate Carries(fnv: HashFn, table: string, r: Record, p: Posting) {
    Contains(fnv, r, p.hash) && p.globalId == RowId(fnv, table, r.key)
  }

  lemma {:induction false} IndexedLast(history: seq<Op>, table: string, r: Record)
    requires history != []
    ensures Indexed(history, table, r) <==>
      Indexed(history[..|history| - 1], table, r) || IndexedBy(history[|history| - 1], table, r)
  {
    var n := |history| - 1;
    assert forall op :: op in history <==> op in history[..n] || op == history[n];
  }

  /** An indexed record has all its postings. */
  lemma {:induction false} IndexedHasPosting(fnv: HashFn, history: seq<Op>, table: string, r: Record, p: Posting)
    requires Indexed(history, table, r) && Carries(fnv, table, r, p)
    ensures p in StoreAfter(fnv, history).postings
  {
    var n := |history| - 1;
    IndexedLast(history, table, r);
    if Indexed(history[..n], table, r) {
      IndexedHasPosting(fnv, history[..n], table, r, p);
    } else {
      assert p in Postings(fnv, table, history[n].records);
    }
  }

  /** Every posting comes from an indexed record. */
  lemma {:induction false} PostingHasRecord(fnv: HashFn, history: seq<Op>, p: Posting)
    returns (table: string, r: Record)
    requires p in StoreAfter(fnv, history).postings
    ensures Indexed(history, table, r) && Carries(fnv, table, r, p)
  {
    var n := |history| - 1;
    var op := history[n];
    if p in StoreAfter(fnv, history[..n]).postings {
      table, r := PostingHasRecord(fnv, history[..n], p);
    } else {
      table := op.table;
      assert p in Postings(fnv, table, op.records);
      r :| r in op.records && Carries(fnv, table, r, p);
      assert Carries(fnv, table, r, p);
      assert IndexedBy(op, table, r);
    }
    IndexedLast(history, table, r);
  }

  /** The ids selected by folding bitmapAnd over the bitmaps of the query's token hashes. */
  ghost predicate Selected(fnv: HashFn, s: Store, query: seq<string>, id: nat) {
    forall q :: q in query ==> Posting(HashToken(fnv, q), id) in s.postings
  }

  function Bitmap(s: Store, hash: nat): set<nat> {
    set p | p in s.postings && p.hash == hash :: p.globalId
  }

  method IntersectBitmaps(fnv: HashFn, s: Store, query: seq<string>) returns (ids: set<nat>)
    requires query != []
    ensures forall id :: id in ids <==> Selected(fnv, s, query, id)
  {
    ids := Bitmap(s, HashToken(fnv, query[0]));
    for i := 1 to |query|
      invariant forall id :: id in ids <==>
        forall j :: 0 <= j < i ==> Posting(HashToken(fnv, query[j]), id) in s.postings
    {
      ids := ids * Bitmap(s, HashToken(fnv, query[i]));
    }
  }

  /** Keys fit in 48 bits, and only registered tables with distinct ids are indexed. */
  ghost predicate Identified(fnv: HashFn, tables: set<string>, history: seq<Op>) {
    && DistinctTableIds(fnv, tables)
    && forall table, r :: Indexed(history, table, r) ==> table in tables && r.key < LOCAL_SPAN
  }

  /** Rows are immutable: operations agree on the record behind each key of each table. */
  ghost predicate Immutable(history: seq<Op>) {
    forall table, r, r' :: Indexed(history, table, r) && Indexed(history, table, r') && r.key == r'.key ==> r == r'
  }

  /** Some indexed version of the row with this key has an indexed token of the query token's hash. */
  ghost predicate VersionHas(fnv: HashFn, history: seq<Op>, table: string, key: nat, q: string) {
    exists v :: Indexed(history, table, v) && v.key == key && Contains(fnv, v, HashToken(fnv, q))
  }

  ghost predicate VersionsAnswer(fnv: HashFn, history: seq<Op>, table: string, key: nat, query: seq<string>) {
    forall q :: q in query ==> VersionHas(fnv, history, table, key, q)
  }

  /** A record answers a query when it has, for each query token, an indexed token of the same hash. */
  ghost predicate Answers(fnv: HashFn, record: Record, query: seq<string>) {
    forall q :: q in query ==> exists t :: t in record.tokens && |t| >= 2 && HashToken(fnv, t) == HashToken(fnv, q)
  }

  /** All postings of a selected id come from versions of one row, because packed ids identify rows. */
  lemma {:induction false} SelectedVersions(fnv: HashFn, tables: set<string>, history: seq<Op>, query: seq<string>,
                                            id: nat)
    returns (table: string, r: Record)
    requires Identified(fnv, tables, history) && query != []
    requires Selected(fnv, StoreAfter(fnv, history), query, id)
    ensures Indexed(history, table, r) && id == RowId(fnv, table, r.key) &&
      VersionsAnswer(fnv, history, table, r.key, query)
  {
    assert query[0] in query;
    table, r := PostingHasRecord(fnv, history, Posting(HashToken(fnv, query[0]), id));
    DistinctIdsIffPackingInjective(fnv, tables);
    forall q | q in query
      ensures VersionHas(fnv, history, table, r.key, q)
    {
      var table', r' := PostingHasRecord(fnv, history, Posting(HashToken(fnv, q), id));
      assert RowId(fnv, table, r.key) == RowId(fnv, table', r'.key);
      assert table' == table && r'.key == r.key;
    }
  }

  lemma {:induction false} VersionsSelected(fnv: HashFn, history: seq<Op>, query: seq<string>, table: string, key: nat)
    requires VersionsAnswer(fnv, history, table, key, query)
    ensures Selected(fnv, StoreAfter(fnv, history), query, RowId(fnv, table, key))
  {
    forall q | q in query
      ensures Posting(HashToken(fnv, q), RowId(fnv, table, key)) in StoreAfter(fnv, history).postings
    {
      assert VersionHas(fnv, history, table, key, q);
      var v :| Indexed(history, table, v) && v.key == key && Contains(fnv, v, HashToken(fnv, q));
      IndexedHasPosting(fnv, history, table, v, Posting(HashToken(fnv, q), RowId(fnv, table, key)));
    }
  }

  /** The bitmap index agrees with a scan, whatever sends failed and were retried, also when rows are
      indexed again with other tokens: an id is selected exactly when the indexed versions of its row
      have all the query tokens between them. */
  lemma {:induction false} BitmapMatchesVersions(fnv: HashFn, tables: set<string>, history: seq<Op>, query: seq<string>,
                                                 id: nat)
    requires Identified(fnv, tables, history) && query != []
    ensures Selected(fnv, StoreAfter(fnv, history), query, id) <==>
      exists table, r :: Indexed(history, table, r) && id == RowId(fnv, table, r.key) &&
        VersionsAnswer(fnv, history, table, r.key, query)
  {
    if Selected(fnv, StoreAfter(fnv, history), query, id) {
      var table, r := SelectedVersions(fnv, tables, history, query, id);
    }
    if table, r :|
      && Indexed(history, table, r)
      && id == RowId(fnv, table, r.key)
      && VersionsAnswer(fnv, history, table, r.key, query)
    {
      VersionsSelected(fnv, history, query, table, r.key);
    }
  }

  lemma {:induction false} OneVersion(fnv: HashFn, history: seq<Op>, table: string, r: Record, query: seq<string>)
    requires Immutable(history) && Indexed(history, table, r)
    ensures VersionsAnswer(fnv, history, table, r.key, query) <==> Answers(fnv, r, query)
  {
    forall q | q in query
      ensures VersionHas(fnv, history, table, r.key, q) <==> Contains(fnv, r, HashToken(fnv, q))
    {
    }
    if VersionsAnswer(fnv, history, table, r.key, query) {
      forall q | q in query
        ensures exists t :: t in r.tokens && |t| >= 2 && HashToken(fnv, t) == HashToken(fnv, q)
      {
        assert VersionHas(fnv, history, table, r.key, q);
      }
    }
    if Answers(fnv, r, query) {
      forall q | q in query
        ensures VersionHas(fnv, history, table, r.key, q)
      {
        assert Contains(fnv, r, HashToken(fnv, q));
      }
    }
  }

  /** With immutable rows: the ids selected are exactly those of indexed records that have, for every
      query token, an indexed token of the same hash. */
  lemma {:induction false} BitmapMatchesScan(fnv: HashFn, tables: set<string>, history: seq<Op>, query: seq<string>,
                                             id: nat)
    requires Identified(fnv, tables, history) && Immutable(history) && query != []
    ensures Selected(fnv, StoreAfter(fnv, history), query, id) <==>
      exists table, r :: Indexed(history, table, r) && id == RowId(fnv, table, r.key) && Answers(fnv, r, query)
  {
    BitmapMatchesVersions(fnv, tables, history, query, id);
    if table, r :|
      && Indexed(history, table, r)
      && id == RowId(fnv, table, r.key)
      && VersionsAnswer(fnv, history, table, r.key, query)
    {
      OneVersion(fnv, history, table, r, query);
    }
    if table, r :| Indexed(history, table, r) && id == RowId(fnv, table, r.key) && Answers(fnv, r, query) {
      OneVersion(fnv, history, table, r, query);
    }
  }

  /** An indexed record has its main row, since the main batch is sent first; deletes keep it. */
  lemma {:induction false} IndexedHasMainRow(fnv: HashFn, history: seq<Op>, table: string, r: Record)
    requires Indexed(history, table, r)
    ensures RowKey(table, RowId(fnv, table, r.key)) in StoreAfter(fnv, history).main
  {
    var n := |history| - 1;
    IndexedLast(history, table, r);
    if Indexed(history[..n], table, r) {
      IndexedHasMainRow(fnv, history[..n], table, r);
    } else {
      MainRowsKeys(fnv, table, history[n].records);
    }
  }

  /** No id in a bitmap ever lacks the main row of the record it stands for, even after a partial
      failure or a delete. */
  lemma {:induction false} PostingsHaveMainRows(fnv: HashFn, history: seq<Op>, p: Posting)
    requires p in StoreAfter(fnv, history).postings
    ensures exists table, r ::
      Indexed(history, table, r) && p.globalId == RowId(fnv, table, r.key) &&
        RowKey(table, p.globalId) in StoreAfter(fnv, history).main
  {
    var table, r := PostingHasRecord(fnv, history, p);
    IndexedHasMainRow(fnv, history, table, r);
  }

  lemma {:induction false} MainAfterBulk(fnv: HashFn, s: Store, table: string, records: seq<Record>, sent: nat)
    ensures AfterBulk(fnv, s, table, records, sent).main ==
      if sent >= 1 then s.main + MainRows(fnv, table, records) else s.main
    ensures AfterBulk(fnv, s, table, records, sent).postings ==
      if sent >= 2 then s.postings + Postings(fnv, table, records) else s.postings
  {
  }

  /** Two attempts at the same records leave the main rows and bitmaps of the better attempt alone. */
  lemma {:induction false} RetryIsIdempotent(fnv: HashFn, s: Store, table: string, records: seq<Record>, first: nat,
                                             again: nat)
    ensures var twice := AfterBulk(fnv, AfterBulk(fnv, s, table, records, first), table, records, again);
      var once := AfterBulk(fnv, s, table, records, Max(first, again));
      twice.main == once.main && twice.postings == once.postings
  {
    MergeTwice(s.main, MainRows(fnv, table, records));
    UnionTwice(s.postings, Postings(fnv, table, records));
    MainAfterBulk(fnv, s, table, records, first);
    MainAfterBulk(fnv, AfterBulk(fnv, s, table, records, first), table, records, again);
    MainAfterBulk(fnv, s, table, records, Max(first, again));
  }
}
