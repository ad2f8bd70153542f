/** Safety of the checkpoint protocol: the invariant holds in every reachable state of every
    interleaving, and what it says about the checkpoint and about recovery after a crash. */
module CdcSafety {
  import opened Collections
  import opened GlobalIds
  import opened SearchIndex
  import opened CdcSync

  // ----- facts about the fetch queries -----

  lemma {:induction false} MaxKeyBounds(rows: seq<Record>)
    requires SortedRows(rows)
    ensures forall r :: r in rows ==> 0 < r.key <= MaxKey(rows) < LOCAL_SPAN
    ensures rows != [] ==> exists r :: r in rows && r.key == MaxKey(rows)
  {
    if rows != [] {
      var n := |rows| - 1;
      MaxKeyBounds(rows[..n]);
      assert rows[n] in rows;
      assert forall r :: r in rows <==> r in rows[..n] || r == rows[n];
    }
  }

  lemma {:induction false} SortedAt(rows: seq<Record>, i: nat, j: nat)
    requires SortedRows(rows) && i < j < |rows|
    ensures rows[i].key < rows[j].key
  {
    var n := |rows| - 1;
    if j < n {
      SortedAt(rows[..n], i, j);
    } else {
      MaxKeyBounds(rows[..n]);
      assert rows[..n][i] in rows[..n];
    }
  }

  lemma {:induction false} SortedSnoc(rows: seq<Record>, r: Record)
    requires SortedRows(rows) && MaxKey(rows) < r.key < LOCAL_SPAN
    ensures SortedRows(rows + [r])
  {
    assert (rows + [r])[..|rows|] == rows;
  }

  lemma {:induction false} FilterSorted(p: Record -> bool, rows: seq<Record>)
    requires SortedRows(rows)
    ensures SortedRows(Filter(p, rows))
    ensures MaxKey(Filter(p, rows)) <= MaxKey(rows)
  {
    if rows != [] {
      var n := |rows| - 1;
      FilterSorted(p, rows[..n]);
      if p(rows[n]) {
        SortedSnoc(Filter(p, rows[..n]), rows[n]);
      }
    }
  }

  lemma {:induction false} ReadableMembers(rows: seq<Record>, unreadable: set<nat>)
    requires SortedRows(rows)
    ensures SortedRows(Readable(rows, unreadable))
    ensures forall r :: r in Readable(rows, unreadable) <==> r in rows && r.key !in unreadable
  {
    FilterMembers((r: Record) => r.key !in unreadable, rows);
    FilterSorted((r: Record) => r.key !in unreadable, rows);
  }

  lemma {:induction false} BetweenMembers(source: seq<Record>, lo: int, hi: int)
    requires SortedRows(source)
    ensures SortedRows(Between(source, lo, hi))
    ensures forall r :: r in Between(source, lo, hi) <==> r in source && lo < r.key <= hi
  {
    FilterMembers((r: Record) => lo < r.key <= hi, source);
    FilterSorted((r: Record) => lo < r.key <= hi, source);
  }

  lemma {:induction false} PrefixBelow(rows: seq<Record>, n: nat, r: Record)
    requires SortedRows(rows) && 0 < n <= |rows| && r in rows
    ensures r in rows[..n] <==> r.key <= rows[n - 1].key
  {
    var i :| 0 <= i < |rows| && rows[i] == r;
    if i < n {
      assert rows[..n][i] == r;
      if i < n - 1 {
        SortedAt(rows, i, n - 1);
      }
    } else {
      SortedAt(rows, n - 1, i);
      PrefixSorted(rows, n);
      MaxKeyBounds(rows[..n]);
    }
  }

  lemma {:induction false} PrefixSorted(rows: seq<Record>, n: nat)
    requires SortedRows(rows) && n <= |rows|
    ensures SortedRows(rows[..n])
  {
    if n < |rows| {
      PrefixSorted(rows[..|rows| - 1], n);
      assert rows[..|rows| - 1][..n] == rows[..n];
    } else {
      assert rows[..n] == rows;
    }
  }

  /** A limited fetch returns everything above `lo` up to the last key it returns. */
  lemma {:induction false} NewestMembers(source: seq<Record>, lo: int, n: nat)
    requires SortedRows(source) && n > 0
    ensures SortedRows(Newest(source, lo, n))
    ensures |Newest(source, lo, n)| <= n
    ensures |Newest(source, lo, n)| < n ==> forall r :: r in source && lo < r.key ==> r in Newest(source, lo, n)
    ensures forall r :: r in Newest(source, lo, n) <==> r in source && lo < r.key <= MaxKey(Newest(source, lo, n))
  {
    var p := (r: Record) => lo < r.key;
    FilterMembers(p, source);
    FilterSorted(p, source);
    var newer := Filter(p, source);
    var k := if n < |newer| then n else |newer|;
    assert Newest(source, lo, n) == newer[..k];
    PrefixSorted(newer, k);
    if k > 0 {
      forall r | r in newer
        ensures r in newer[..k] <==> r.key <= newer[k - 1].key
      {
        PrefixBelow(newer, k, r);
      }
    }
    NewestTail(newer, k, lo, source);
  }

  lemma {:induction false} NewestTail(newer: seq<Record>, k: nat, lo: int, source: seq<Record>)
    requires k <= |newer| && (k == 0 ==> newer == [])
    requires forall r :: r in newer <==> r in source && lo < r.key
    requires k > 0 ==> forall r :: r in newer ==> (r in newer[..k] <==> r.key <= newer[k - 1].key)
    requires SortedRows(source)
    ensures forall r :: r in newer[..k] <==> r in source && lo < r.key <= MaxKey(newer[..k])
  {
    assert forall r :: r in newer[..k] ==> r in newer;
  }

  // ----- growth: everything the invariant says stays true as the state grows -----

  ghost predicate Grows(s: State, s': State) {
    && MaxKey(s.source) <= MaxKey(s'.source)
    && (forall r :: r in s.source ==> r in s'.source)
    && (forall r :: r in s'.source && r.key <= MaxKey(s.source) ==> r in s.source)
    && s.store.main.Keys <= s'.store.main.Keys
    && s.store.postings <= s'.store.postings
    && (forall r :: r in s.counted ==> r in s'.counted)
    && s.skipped <= s'.skipped
    && s.torn <= s'.torn
  }

  lemma {:induction false} CoveredGrows(cfg: Config, s: State, s': State, bound: int)
    requires Grows(s, s') && Covered(cfg, s, bound) && bound <= MaxKey(s.source)
    ensures Covered(cfg, s', bound)
  {
    forall r | r in s'.source && r.key <= bound
      ensures RowCovered(cfg, s', r)
    {
      assert RowCovered(cfg, s, r);
    }
  }

  lemma {:induction false} WorkerGrows(cfg: Config, s: State, s': State, worker: Worker)
    requires Grows(s, s') && SortedRows(s.source) && WorkerOk(cfg, s, worker)
    ensures WorkerOk(cfg, s', worker)
  {
    match worker
    case Idle =>
    case Sized(_) =>
    case AtChunk(cur, _) => CoveredGrows(cfg, s, s', cur);
    case Since(last) => CoveredGrows(cfg, s, s', last);
    case Indexing(job, _, phase) =>
      CoveredGrows(cfg, s, s', job.from);
  }

  /** A step that only moves one worker, and grows the rest, keeps the invariant. */
  lemma {:induction false} InvByGrowth(cfg: Config, s: State, s': State, w: nat, worker: Worker)
    requires Inv(cfg, s) && Grows(s, s') && SortedRows(s'.source)
    requires s'.checkpoint == s.checkpoint && s'.workers == s.workers[w := worker]
    requires MainIsPrefix(cfg, s'.source, s'.store.main, s'.skipped) && WorkerOk(cfg, s', worker)
    requires OwnStats(cfg, s'.store.stats, s'.counted)
    ensures Inv(cfg, s')
  {
    CoveredGrows(cfg, s, s', s.checkpoint);
    forall v | v in s'.workers
      ensures WorkerOk(cfg, s', s'.workers[v])
    {
      if v != w {
        WorkerGrows(cfg, s, s', s.workers[v]);
      }
    }
  }

  // ----- steps -----

  /** Steps that change nothing but one worker. */
  lemma {:induction false} MoveKeepsInv(cfg: Config, s: State, w: nat, worker: Worker)
    requires Inv(cfg, s) && WorkerOk(cfg, s, worker)
    ensures Inv(cfg, MoveTo(s, w, worker))
  {
    var s' := MoveTo(s, w, worker);
    WorkerGrows(cfg, s, s', worker);
    InvByGrowth(cfg, s, s', w, worker);
  }

  /** A new row has a larger key than all others, so the main index stays a prefix. */
  lemma {:induction false} InsertKeepsPrefix(cfg: Config, s: State, row: Record)
    requires SortedRows(s.source) && MainIsPrefix(cfg, s.source, s.store.main, s.skipped)
    requires MaxKey(s.source) < row.key < LOCAL_SPAN
    ensures MainIsPrefix(cfg, s.source + [row], s.store.main, s.skipped)
  {
    MaxKeyBounds(s.source);
    if InMain(cfg, s.store.main, row) {
      var r := s.store.main[KeyOf(cfg, row.key)];
      assert IsSourceRow(cfg, s.source, KeyOf(cfg, row.key), r);
      PackOrder(TableId(cfg.fnv, cfg.table), r.key, row.key);
      assert false;
    }
    forall k | k in s.store.main && k.table == cfg.table
      ensures IsSourceRow(cfg, s.source + [row], k, s.store.main[k])
    {
      assert IsSourceRow(cfg, s.source, k, s.store.main[k]);
    }
  }

  lemma {:induction false} InsertKeepsInv(cfg: Config, s: State, row: Record)
    requires Inv(cfg, s) && MaxKey(s.source) < row.key < LOCAL_SPAN
    ensures Inv(cfg, s.(source := s.source + [row]))
  {
    var s' := s.(source := s.source + [row]);
    SortedSnoc(s.source, row);
    InsertKeepsPrefix(cfg, s, row);
    CoveredGrows(cfg, s, s', s.checkpoint);
    forall w | w in s.workers
      ensures WorkerOk(cfg, s', s.workers[w])
    {
      WorkerGrows(cfg, s, s', s.workers[w]);
    }
  }

  /** Everything of a range that was not put in the batch is recorded as skipped. */
  ghost predicate Fetched(source: seq<Record>, job: Job, skips: set<nat>) {
    && (forall r :: r in job.batch ==> r in source && job.from < r.key <= job.top)
    && (forall r :: r in source && job.from < r.key <= job.top ==> r.key in skips || r in job.batch)
  }

  lemma {:induction false} ReadableFetched(source: seq<Record>, rows: seq<Record>, unreadable: set<nat>, job: Job)
    requires SortedRows(rows)
    requires forall r :: r in rows ==> r in source && job.from < r.key
    requires forall r :: r in source && job.from < r.key <= job.top ==> r in rows
    requires job.batch == Readable(rows, unreadable)
    requires forall r :: r in job.batch ==> r.key <= job.top
    ensures Fetched(source, job, Keys(rows) * unreadable)
  {
    ReadableMembers(rows, unreadable);
  }

  lemma {:induction false} FetchKeepsInv(cfg: Config, s: State, w: nat, job: Job, skips: set<nat>)
    requires Inv(cfg, s) && Covered(cfg, s, job.from) && Fetched(s.source, job, skips)
    requires 0 <= job.from < job.top <= MaxKey(s.source) && 0 <= job.upto <= job.top
    requires job.chunked ==> job.total <= MaxKey(s.source) && job.top == Min(job.from + cfg.chunkSize, job.total)
    ensures Inv(cfg, MoveTo(s.(skipped := s.skipped + skips), w, Indexing(job, 0, SendingMain)))
  {
    var s' := MoveTo(s.(skipped := s.skipped + skips), w, Indexing(job, 0, SendingMain));
    assert Grows(s, s');
    CoveredGrows(cfg, s, s', job.from);
    assert JobOk(cfg, s', job);
    InvByGrowth(cfg, s, s', w, Indexing(job, 0, SendingMain));
  }

  lemma {:induction false} ChunkFetched(source: seq<Record>, unreadable: set<nat>, job: Job)
    requires SortedRows(source) && job.batch == Readable(Between(source, job.from, job.top), unreadable)
    ensures Fetched(source, job, Keys(Between(source, job.from, job.top)) * unreadable)
  {
    var rows := Between(source, job.from, job.top);
    BetweenMembers(source, job.from, job.top);
    ReadableMembers(rows, unreadable);
    ReadableFetched(source, rows, unreadable, job);
  }

  lemma {:induction false} FetchChunkKeepsInv(cfg: Config, s: State, w: nat, cur: int, total: int, unreadable: set<nat>)
    requires ValidConfig(cfg) && Inv(cfg, s) && WorkerOk(cfg, s, AtChunk(cur, total))
    ensures Inv(cfg, ApplyFetchChunk(cfg, s, w, cur, total, unreadable))
  {
    var job := ChunkJob(cfg, s.source, cur, total, unreadable);
    ChunkFetched(s.source, unreadable, job);
    RangeKeepsInv(cfg, s, w, job, Keys(Between(s.source, cur, job.top)) * unreadable);
  }

  lemma {:induction false} RangeKeepsInv(cfg: Config, s: State, w: nat, job: Job, skips: set<nat>)
    requires Inv(cfg, s) && ValidConfig(cfg) && WorkerOk(cfg, s, AtChunk(job.from, job.total))
    requires job.chunked && job.upto == job.top == Min(job.from + cfg.chunkSize, job.total)
    requires Fetched(s.source, job, skips)
    ensures Inv(cfg, MoveTo(s.(skipped := s.skipped + skips), w,
                            if job.batch == [] then NextChunk(cfg, job.from, job.total)
                            else Indexing(job, 0, SendingMain)))
  {
    if job.batch == [] {
      SkipKeepsInv(cfg, s, w, job, skips);
    } else {
      FetchKeepsInv(cfg, s, w, job, skips);
    }
  }

  /** A range with nothing to index is passed without a checkpoint. */
  lemma {:induction false} SkipKeepsInv(cfg: Config, s: State, w: nat, job: Job, skips: set<nat>)
    requires Inv(cfg, s) && ValidConfig(cfg) && job.batch == [] && Fetched(s.source, job, skips)
    requires WorkerOk(cfg, s, AtChunk(job.from, job.total)) && job.top == Min(job.from + cfg.chunkSize, job.total)
    ensures Inv(cfg, MoveTo(s.(skipped := s.skipped + skips), w, NextChunk(cfg, job.from, job.total)))
  {
    var s' := s.(skipped := s.skipped + skips);
    assert Grows(s, s');
    CoveredGrows(cfg, s, s', job.from);
    assert Covered(cfg, s', job.top);
    CoveredGrows(cfg, s', MoveTo(s', w, Idle), job.top);
    InvByGrowth(cfg, s, MoveTo(s', w, NextChunk(cfg, job.from, job.total)), w, NextChunk(cfg, job.from, job.total));
  }

  lemma {:induction false} NewestFetched(source: seq<Record>, n: nat, unreadable: set<nat>, job: Job)
    requires SortedRows(source) && n > 0 && job.batch == Readable(Newest(source, job.from, n), unreadable)
    requires job.batch != [] && job.top == MaxKey(job.batch)
    ensures job.from < job.top <= MaxKey(source)
    ensures Fetched(source, job, Keys(Newest(source, job.from, n)) * unreadable)
  {
    var rows := Newest(source, job.from, n);
    NewestMembers(source, job.from, n);
    ReadableMembers(rows, unreadable);
    MaxKeyBounds(rows);
    MaxKeyBounds(job.batch);
    MaxKeyBounds(source);
    ReadableFetched(source, rows, unreadable, job);
  }

  lemma {:induction false} NewestBatchSorted(cfg: Config, source: seq<Record>, last: int, unreadable: set<nat>)
    requires ValidConfig(cfg) && SortedRows(source)
    ensures SortedRows(NewestJob(cfg, source, last, unreadable).batch)
  {
    NewestMembers(source, last, cfg.batchSize);
    ReadableMembers(Newest(source, last, cfg.batchSize), unreadable);
  }

  lemma {:induction false} FetchNewKeepsInv(cfg: Config, s: State, w: nat, last: int, ok: bool, unreadable: set<nat>)
    requires ValidConfig(cfg) && Inv(cfg, s) && WorkerOk(cfg, s, Since(last))
    ensures Inv(cfg, ApplyFetchNew(cfg, s, w, last, ok, unreadable))
  {
    var job := NewestJob(cfg, s.source, last, unreadable);
    var skips := Keys(Newest(s.source, last, cfg.batchSize)) * unreadable;
    if !ok {
      MoveKeepsInv(cfg, s, w, Idle);
    } else if job.batch == [] {
      InvByGrowth(cfg, s, MoveTo(s.(skipped := s.skipped + skips), w, Idle), w, Idle);
    } else {
      NewestFetched(s.source, cfg.batchSize, unreadable, job);
      FetchKeepsInv(cfg, s, w, job, skips);
    }
  }

  /** Sending the main rows of a batch extends the prefix that is in the main index. */
  lemma {:induction false} SendMainKeepsPrefix(cfg: Config, s: State, job: Job)
    requires SortedRows(s.source) && JobOk(cfg, s, job) && MainIsPrefix(cfg, s.source, s.store.main, s.skipped)
    ensures MainIsPrefix(cfg, s.source, s.store.main + MainRows(cfg.fnv, cfg.table, job.batch), s.skipped)
  {
    var rows := MainRows(cfg.fnv, cfg.table, job.batch);
    var main := s.store.main + rows;
    forall r | r in s.source
      ensures InMain(cfg, main, r) <==> InMain(cfg, s.store.main, r) || r in job.batch
    {
      BatchMainRow(cfg, s, job, r);
    }
    forall r, r' | r in s.source && r' in s.source && r'.key < r.key && InMain(cfg, main, r)
      ensures r'.key in s.skipped || InMain(cfg, main, r')
    {
      if r in job.batch && r'.key <= job.from {
        assert RowCovered(cfg, s, r');
      }
    }
    forall k | k in main && k.table == cfg.table
      ensures IsSourceRow(cfg, s.source, k, main[k])
    {
      if k in rows {
        MainRowValue(cfg, s, job, k);
      }
    }
  }

  lemma {:induction false} SendMainKeepsInv(cfg: Config, s: State, w: nat, job: Job, attempt: nat)
    requires Inv(cfg, s) && JobOk(cfg, s, job)
    ensures Inv(cfg, ApplySend(cfg, s, w, job, attempt, SendingMain, true))
  {
    var s' := ApplySend(cfg, s, w, job, attempt, SendingMain, true);
    SendMainKeepsPrefix(cfg, s, job);
    BatchInMain(cfg, s, job);
    assert Grows(s, s');
    WorkerGrows(cfg, s, s', Indexing(job, attempt, SendingMain));
    InvByGrowth(cfg, s, s', w, Indexing(job, attempt, SendingTokens));
  }

  /** A source row's main row is in a batch's main rows exactly when the row is in the batch. */
  lemma {:induction false} BatchMainRow(cfg: Config, s: State, job: Job, r: Record)
    requires SortedRows(s.source) && JobOk(cfg, s, job) && r in s.source
    ensures KeyOf(cfg, r.key) in MainRows(cfg.fnv, cfg.table, job.batch) <==> r in job.batch
  {
    MainRowsKeys(cfg.fnv, cfg.table, job.batch);
    if KeyOf(cfg, r.key) in MainRows(cfg.fnv, cfg.table, job.batch) {
      var x :| x in job.batch && x.key != 0 && KeyOf(cfg, r.key) == RowKey(cfg.table, RowId(cfg.fnv, cfg.table, x.key));
      SameKeySameRow(cfg, s.source, r, x);
    }
  }

  lemma {:induction false} BatchInMain(cfg: Config, s: State, job: Job)
    requires SortedRows(s.source) && JobOk(cfg, s, job)
    ensures forall r :: r in job.batch ==> InMain(cfg, s.store.main + MainRows(cfg.fnv, cfg.table, job.batch), r)
  {
    forall r | r in job.batch
      ensures InMain(cfg, s.store.main + MainRows(cfg.fnv, cfg.table, job.batch), r)
    {
      BatchMainRow(cfg, s, job, r);
    }
  }

  lemma {:induction false} SameKeySameRow(cfg: Config, source: seq<Record>, a: Record, b: Record)
    requires SortedRows(source) && a in source && b in source
    requires KeyOf(cfg, a.key) == KeyOf(cfg, b.key)
    ensures a == b
  {
    MaxKeyBounds(source);
    UnpackPack(TableId(cfg.fnv, cfg.table), a.key);
    UnpackPack(TableId(cfg.fnv, cfg.table), b.key);
    var i :| 0 <= i < |source| && source[i] == a;
    var j :| 0 <= j < |source| && source[j] == b;
    if i < j {
      SortedAt(source, i, j);
    } else if j < i {
      SortedAt(source, j, i);
    }
  }

  lemma {:induction false} MainRowValue(cfg: Config, s: State, job: Job, k: RowKey)
    requires SortedRows(s.source) && JobOk(cfg, s, job) && k in MainRows(cfg.fnv, cfg.table, job.batch)
    ensures IsSourceRow(cfg, s.source, k, MainRows(cfg.fnv, cfg.table, job.batch)[k])
  {
    MainRowsKeys(cfg.fnv, cfg.table, job.batch);
  }

  lemma {:induction false} BatchInTokens(cfg: Config, source: seq<Record>, batch: seq<Record>)
    requires SortedRows(source) && forall r :: r in batch ==> r in source
    ensures forall r :: r in batch ==> InTokens(cfg, Postings(cfg.fnv, cfg.table, batch), r)
  {
    MaxKeyBounds(source);
    forall r, h | r in batch && h in TokenHashes(cfg.fnv, r.tokens)
      ensures Posting(h, RowId(cfg.fnv, cfg.table, r.key)) in Postings(cfg.fnv, cfg.table, batch)
    {
    }
  }

  lemma TokensGrow(cfg: Config, small: set<Posting>, large: set<Posting>, r: Record)
    requires small <= large && InTokens(cfg, small, r)
    ensures InTokens(cfg, large, r)
  {
  }

  lemma {:induction false} SendTokensKeepsInv(cfg: Config, s: State, w: nat, job: Job, attempt: nat)
    requires Inv(cfg, s) && WorkerOk(cfg, s, Indexing(job, attempt, SendingTokens))
    ensures Inv(cfg, ApplySend(cfg, s, w, job, attempt, SendingTokens, true))
  {
    var s' := ApplySend(cfg, s, w, job, attempt, SendingTokens, true);
    WorkerGrows(cfg, s, s', Indexing(job, attempt, SendingTokens));
    BatchInTokens(cfg, s.source, job.batch);
    forall r | r in job.batch
      ensures InTokens(cfg, s'.store.postings, r)
    {
      TokensGrow(cfg, Postings(cfg.fnv, cfg.table, job.batch), s'.store.postings, r);
    }
    InvByGrowth(cfg, s, s', w, Indexing(job, attempt, SendingStats));
  }

  lemma {:induction false} CountWithAppend(fnv: HashFn, a: seq<Record>, b: seq<Record>, hash: nat)
    ensures CountWith(fnv, a + b, hash) == CountWith(fnv, a, hash) + CountWith(fnv, b, hash)
  {
    if b == [] {
      assert a + b == a;
    } else {
      var n := |b| - 1;
      CountWithAppend(fnv, a, b[..n], hash);
      assert (a + b)[..|a + b| - 1] == a + b[..n];
    }
  }

  lemma {:induction false} CountedStats(cfg: Config, stats: multiset<Stat>, counted: seq<Record>, batch: seq<Record>)
    requires OwnStats(cfg, stats, counted)
    ensures OwnStats(cfg, stats + StatRows(cfg.fnv, cfg.table, batch), counted + batch)
  {
    forall hash
      ensures (stats + StatRows(cfg.fnv, cfg.table, batch))[Stat(hash, cfg.table)] ==
        CountWith(cfg.fnv, counted + batch, hash)
    {
      CountWithAppend(cfg.fnv, counted, batch, hash);
      StatRowsCount(cfg.fnv, cfg.table, batch, hash);
    }
  }

  // ----- operations of other tables -----

  lemma {:induction false} OtherStats(fnv: HashFn, table: string, records: seq<Record>, stat: Stat)
    requires stat.table != table
    ensures StatRows(fnv, table, records)[stat] == 0
  {
    if records != [] {
      OtherStats(fnv, table, records[..|records| - 1], stat);
    }
  }

  /** Another table's operation leaves this table's main rows and counts alone and removes nothing. */
  lemma {:induction false} OtherLeavesOwn(cfg: Config, store: Store, op: Op)
    requires op.table != cfg.table
    ensures var after := AfterOp(cfg.fnv, store, op);
      && (forall k: RowKey :: k.table == cfg.table ==> (k in after.main <==> k in store.main))
      && (forall k :: k in store.main && k.table == cfg.table ==> after.main[k] == store.main[k])
      && store.main.Keys <= after.main.Keys && store.postings <= after.postings
      && forall hash :: after.stats[Stat(hash, cfg.table)] == store.stats[Stat(hash, cfg.table)]
  {
    if op.Bulk? {
      MainRowsKeys(cfg.fnv, op.table, op.records);
      forall hash
        ensures StatRows(cfg.fnv, op.table, op.records)[Stat(hash, cfg.table)] == 0
      {
        OtherStats(cfg.fnv, op.table, op.records, Stat(hash, cfg.table));
      }
    }
  }

  /** The prefix shape depends on this table's rows only. */
  lemma {:induction false} PrefixOfOwnRows(cfg: Config, source: seq<Record>, main: map<RowKey, Record>,
                                           after: map<RowKey, Record>, skipped: set<nat>)
    requires MainIsPrefix(cfg, source, main, skipped)
    requires forall k: RowKey :: k.table == cfg.table ==> (k in after <==> k in main)
    requires forall k :: k in main && k.table == cfg.table ==> after[k] == main[k]
    ensures MainIsPrefix(cfg, source, after, skipped)
  {
    assert forall r :: r in source ==> (InMain(cfg, after, r) <==> InMain(cfg, main, r));
  }

  /** A store that only grew, with this table's rows and counts in order, keeps the invariant. */
  lemma {:induction false} StoreGrowth(cfg: Config, s: State, store: Store)
    requires Inv(cfg, s) && Grows(s, s.(store := store))
    requires MainIsPrefix(cfg, s.source, store.main, s.skipped) && OwnStats(cfg, store.stats, s.counted)
    ensures Inv(cfg, s.(store := store))
  {
    var s' := s.(store := store);
    CoveredGrows(cfg, s, s', s.checkpoint);
    forall w | w in s.workers
      ensures WorkerOk(cfg, s', s.workers[w])
    {
      WorkerGrows(cfg, s, s', s.workers[w]);
    }
  }

  lemma {:induction false} OtherKeepsInv(cfg: Config, s: State, op: Op)
    requires Inv(cfg, s) && op.table != cfg.table
    ensures Inv(cfg, s.(store := AfterOp(cfg.fnv, s.store, op)))
  {
    OtherLeavesOwn(cfg, s.store, op);
    PrefixOfOwnRows(cfg, s.source, s.store.main, AfterOp(cfg.fnv, s.store, op).main, s.skipped);
    StoreGrowth(cfg, s, AfterOp(cfg.fnv, s.store, op));
  }

  lemma {:induction false} SendStatsKeepsInv(cfg: Config, s: State, w: nat, job: Job, attempt: nat)
    requires Inv(cfg, s) && WorkerOk(cfg, s, Indexing(job, attempt, SendingStats))
    ensures Inv(cfg, ApplySend(cfg, s, w, job, attempt, SendingStats, true))
  {
    var s' := ApplySend(cfg, s, w, job, attempt, SendingStats, true);
    CountedStats(cfg, s.store.stats, s.counted, job.batch);
    WorkerGrows(cfg, s, s', Indexing(job, attempt, SendingStats));
    InvByGrowth(cfg, s, s', w, Indexing(job, attempt, WritingCheckpoint));
  }

  lemma {:induction false} FailKeepsInv(cfg: Config, s: State, w: nat, job: Job, attempt: nat)
    requires Inv(cfg, s) && JobOk(cfg, s, job)
    ensures Inv(cfg, FailAttempt(cfg, s, w, job, attempt))
  {
    if attempt + 1 < cfg.maxRetries {
      MoveKeepsInv(cfg, s, w, Indexing(job, attempt + 1, SendingMain));
    } else {
      InvByGrowth(cfg, s, FailAttempt(cfg, s, w, job, attempt), w, Idle);
    }
  }

  lemma {:induction false} UnreachableKeepsInv(cfg: Config, s: State, w: nat, job: Job, attempt: nat)
    requires Inv(cfg, s) && JobOk(cfg, s, job)
    ensures Inv(cfg, MoveTo(s, w, Indexing(job, attempt, WritingCheckpoint)).(skipped := s.skipped + Keys(job.batch)))
  {
    var s' := MoveTo(s, w, Indexing(job, attempt, WritingCheckpoint)).(skipped := s.skipped + Keys(job.batch));
    assert Grows(s, s');
    WorkerGrows(cfg, s, s', Indexing(job, attempt, SendingMain));
    assert forall r :: r in job.batch ==> r.key in s'.skipped;
    InvByGrowth(cfg, s, s', w, Indexing(job, attempt, WritingCheckpoint));
  }

  /** Before a checkpoint is written, everything up to it is indexed. */
  lemma {:induction false} JobCovered(cfg: Config, s: State, job: Job, attempt: nat)
    requires WorkerOk(cfg, s, Indexing(job, attempt, WritingCheckpoint))
    ensures Covered(cfg, s, job.top)
  {
    forall r | r in s.source && r.key <= job.top
      ensures RowCovered(cfg, s, r)
    {
      if job.from < r.key && r.key !in s.skipped {
        assert r in job.batch;
      }
    }
  }

  lemma {:induction false} WriteKeepsInv(cfg: Config, s: State, w: nat, job: Job, attempt: nat)
    requires ValidConfig(cfg) && Inv(cfg, s) && WorkerOk(cfg, s, Indexing(job, attempt, WritingCheckpoint))
    ensures var next := if job.chunked then NextChunk(cfg, job.from, job.total) else Idle;
      Inv(cfg, MoveTo(s, w, next).(checkpoint := job.upto))
  {
    var worker := if job.chunked then NextChunk(cfg, job.from, job.total) else Idle;
    JobCovered(cfg, s, job, attempt);
    MoveKeepsInv(cfg, s, w, worker);
    var moved := MoveTo(s, w, worker);
    var s' := moved.(checkpoint := job.upto);
    CoveredGrows(cfg, s, s', job.top);
    forall v | v in s'.workers
      ensures WorkerOk(cfg, s', s'.workers[v])
    {
      WorkerGrows(cfg, moved, s', moved.workers[v]);
    }
  }

  lemma ChunkMoves(cfg: Config, s: State, w: nat, cur: int, total: int, unreadable: set<nat>)
    requires ValidConfig(cfg) && WorkerOf(s, w) == AtChunk(cur, total)
    ensures var t := ApplyLive(cfg, s, FetchChunk(w, unreadable));
      var job := ChunkJob(cfg, s.source, cur, total, unreadable);
      && WorkerOf(t, w) == (if job.batch == [] then NextChunk(cfg, cur, total) else Indexing(job, 0, SendingMain))
      && t.source == s.source && t.store == s.store && t.checkpoint == s.checkpoint
  {
  }

  lemma WriteMoves(cfg: Config, s: State, w: nat, job: Job, attempt: nat)
    requires ValidConfig(cfg) && WorkerOf(s, w) == Indexing(job, attempt, WritingCheckpoint)
    ensures WorkerOf(ApplyLive(cfg, s, WriteCheckpoint(w)), w) ==
      if job.chunked then NextChunk(cfg, job.from, job.total) else Idle
    ensures var t := ApplyLive(cfg, s, WriteCheckpoint(w));
      t.checkpoint == job.upto && t.source == s.source && t.store == s.store
  {
  }

  /** The recomputed checkpoint is the key of a source row whose main row is present. */
  lemma {:induction false} RecoveredRow(cfg: Config, s: State) returns (r: Record)
    requires SortedRows(s.source) && MainIsPrefix(cfg, s.source, s.store.main, s.skipped)
    requires LiveIds(cfg, s.store) != {}
    ensures r in s.source && InMain(cfg, s.store.main, r) && r.key == Recovered(cfg, s.store)
    ensures MaxOf(LiveIds(cfg, s.store)) == RowId(cfg.fnv, cfg.table, r.key) && !r.deleted
  {
    var k :| k in s.store.main && k.table == cfg.table && k.globalId == MaxOf(LiveIds(cfg, s.store));
    r := s.store.main[k];
    assert IsSourceRow(cfg, s.source, k, r);
    MaxKeyBounds(s.source);
    UnpackPack(TableId(cfg.fnv, cfg.table), r.key);
  }

  /** The checkpoint after a crash: the largest key of the rows whose main row is there and not
      deleted, or 0 when there is none or the index cannot be read. */
  lemma {:induction false} RecoveredIsLargest(cfg: Config, s: State)
    requires ValidConfig(cfg) && Inv(cfg, s)
    ensures Apply(cfg, s, Crash(false)).checkpoint == 0
    ensures var c := Apply(cfg, s, Crash(true)).checkpoint;
      && (forall r :: r in s.source && !r.deleted && InMain(cfg, s.store.main, r) ==> r.key <= c)
      && (c != 0 ==> exists r :: r in s.source && !r.deleted && InMain(cfg, s.store.main, r) && r.key == c)
  {
    forall r | r in s.source && !r.deleted && InMain(cfg, s.store.main, r)
      ensures r.key <= Recovered(cfg, s.store)
    {
      LiveBelowRecovered(cfg, s, r);
    }
    if LiveIds(cfg, s.store) != {} {
      var top := RecoveredRow(cfg, s);
    }
  }

  lemma {:induction false} LiveBelowRecovered(cfg: Config, s: State, r: Record)
    requires Inv(cfg, s) && r in s.source && !r.deleted && InMain(cfg, s.store.main, r)
    ensures r.key <= Recovered(cfg, s.store)
  {
    InMainIsSent(cfg, s, r);
    assert RowId(cfg.fnv, cfg.table, r.key) in LiveIds(cfg, s.store);
    var top := RecoveredRow(cfg, s);
    MaxKeyBounds(s.source);
    PackOrder(TableId(cfg.fnv, cfg.table), top.key, r.key);
  }

  lemma {:induction false} CrashCovers(cfg: Config, s: State, scanned: bool, r: Record)
    requires r in s.source && (r.key in s.skipped || InMain(cfg, s.store.main, r))
    ensures RowCovered(cfg, ApplyCrash(cfg, s, scanned), r)
  {
    if InMain(cfg, s.store.main, r) && !(InTokens(cfg, s.store.postings, r) && r in s.counted) {
      assert r.key in HalfIndexed(cfg, s);
    }
  }

  lemma {:induction false} CrashKeepsInv(cfg: Config, s: State, scanned: bool)
    requires Inv(cfg, s)
    ensures Inv(cfg, ApplyCrash(cfg, s, scanned))
  {
    MaxKeyBounds(s.source);
    if scanned && LiveIds(cfg, s.store) != {} {
      var top := RecoveredRow(cfg, s);
      forall r | r in s.source && r.key <= top.key
        ensures RowCovered(cfg, ApplyCrash(cfg, s, scanned), r)
      {
        if r.key == top.key {
          SameKeySameRow(cfg, s.source, r, top);
        }
        CrashCovers(cfg, s, scanned, r);
      }
    }
  }

  /** Every step keeps the invariant. */
  lemma {:induction false} StepKeepsInv(cfg: Config, s: State, a: Action)
    requires ValidConfig(cfg) && Inv(cfg, s)
    ensures Inv(cfg, Apply(cfg, s, a))
  {
    match a
    case Insert(row) =>
      if MaxKey(s.source) < row.key < LOCAL_SPAN {
        InsertKeepsInv(cfg, s, row);
      }
    case Other(op) =>
      if op.table != cfg.table {
        OtherKeepsInv(cfg, s, op);
      }
    case Crash(scanned) => CrashKeepsInv(cfg, s, scanned);
    case ReadMax(w, ok) => WorkerStepKeepsInv(cfg, s, a, w);
    case ReadStart(w) => WorkerStepKeepsInv(cfg, s, a, w);
    case FetchChunk(w, unreadable) => WorkerStepKeepsInv(cfg, s, a, w);
    case Stop(w) => WorkerStepKeepsInv(cfg, s, a, w);
    case ReadLast(w) => WorkerStepKeepsInv(cfg, s, a, w);
    case FetchNew(w, ok, unreadable) => WorkerStepKeepsInv(cfg, s, a, w);
    case Unreachable(w) => IndexStepKeepsInv(cfg, s, a, w);
    case Send(w, ok) => IndexStepKeepsInv(cfg, s, a, w);
    case WriteCheckpoint(w) => IndexStepKeepsInv(cfg, s, a, w);
  }

  lemma {:induction false} WorkerStepKeepsInv(cfg: Config, s: State, a: Action, w: nat)
    requires ValidConfig(cfg) && Inv(cfg, s)
    requires a.ReadMax? || a.ReadStart? || a.FetchChunk? || a.Stop? || a.ReadLast? || a.FetchNew?
    requires a.w == w
    ensures Inv(cfg, ApplyLive(cfg, s, a))
  {
    var worker := WorkerOf(s, w);
    assert WorkerOk(cfg, s, worker);
    match a
    case ReadMax(_, ok) =>
      MoveKeepsInv(cfg, s, w, Sized(if ok then MaxKey(s.source) else 0));
    case ReadStart(_) =>
      if worker.Sized? {
        MoveKeepsInv(cfg, s, w, if s.checkpoint >= worker.total then Idle else AtChunk(s.checkpoint, worker.total));
      }
    case FetchChunk(_, unreadable) =>
      if worker.AtChunk? {
        FetchChunkKeepsInv(cfg, s, w, worker.cur, worker.total, unreadable);
      }
    case Stop(_) => MoveKeepsInv(cfg, s, w, Idle);
    case ReadLast(_) => MoveKeepsInv(cfg, s, w, Since(s.checkpoint));
    case FetchNew(_, ok, unreadable) =>
      if worker.Since? {
        FetchNewKeepsInv(cfg, s, w, worker.last, ok, unreadable);
      }
  }

  lemma {:induction false} IndexStepKeepsInv(cfg: Config, s: State, a: Action, w: nat)
    requires ValidConfig(cfg) && Inv(cfg, s)
    requires a.Unreachable? || a.Send? || a.WriteCheckpoint?
    requires a.w == w
    ensures Inv(cfg, ApplyLive(cfg, s, a))
  {
    if WorkerOf(s, w).Indexing? {
      var Indexing(job, attempt, phase) := WorkerOf(s, w);
      assert WorkerOk(cfg, s, Indexing(job, attempt, phase));
      match a
      case Unreachable(_) => UnreachableKeepsInv(cfg, s, w, job, attempt);
      case Send(_, ok) => SendKeepsInv(cfg, s, w, job, attempt, phase, ok);
      case WriteCheckpoint(_) =>
        if phase.WritingCheckpoint? {
          WriteKeepsInv(cfg, s, w, job, attempt);
        }
    }
  }

  lemma {:induction false} SendKeepsInv(cfg: Config, s: State, w: nat, job: Job, attempt: nat, phase: Phase, ok: bool)
    requires Inv(cfg, s) && WorkerOk(cfg, s, Indexing(job, attempt, phase))
    ensures Inv(cfg, ApplySend(cfg, s, w, job, attempt, phase, ok))
  {
    if !ok {
      FailKeepsInv(cfg, s, w, job, attempt);
    } else {
      match phase
      case SendingMain => SendMainKeepsInv(cfg, s, w, job, attempt);
      case SendingTokens => SendTokensKeepsInv(cfg, s, w, job, attempt);
      case SendingStats => SendStatsKeepsInv(cfg, s, w, job, attempt);
      case WritingCheckpoint =>
    }
  }

  // ----- what holds in every reachable state -----

  lemma {:induction false} RunKeepsInv(cfg: Config, actions: seq<Action>)
    requires ValidConfig(cfg)
    ensures Inv(cfg, Run(cfg, INITIAL, actions))
  {
    if actions != [] {
      var n := |actions| - 1;
      RunKeepsInv(cfg, actions[..n]);
      StepKeepsInv(cfg, Run(cfg, INITIAL, actions[..n]), actions[n]);
    }
  }

  /** No fetch leaves rows unread and no batch is accepted while the index is unreachable. */
  predicate Faultless(actions: seq<Action>) {
    forall a :: a in actions ==>
      !a.Unreachable? && (a.FetchChunk? || a.FetchNew? ==> a.unreadable == {})
  }

  predicate NoCrash(actions: seq<Action>) {
    forall a :: a in actions ==> !a.Crash?
  }

  lemma {:induction false} FaultlessSkipsNothing(cfg: Config, actions: seq<Action>)
    requires ValidConfig(cfg) && Faultless(actions)
    ensures Run(cfg, INITIAL, actions).skipped == {}
  {
    if actions != [] {
      var n := |actions| - 1;
      FaultlessSkipsNothing(cfg, actions[..n]);
      assert actions[n] in actions;
    }
  }

  lemma {:induction false} NoCrashTearsNothing(cfg: Config, actions: seq<Action>)
    requires ValidConfig(cfg) && NoCrash(actions)
    ensures Run(cfg, INITIAL, actions).torn == {}
  {
    if actions != [] {
      var n := |actions| - 1;
      NoCrashTearsNothing(cfg, actions[..n]);
      assert actions[n] in actions;
    }
  }

  /** The main row of a source row is present with the row's own content. */
  ghost predicate MainRowSent(cfg: Config, s: State, r: Record) {
    InMain(cfg, s.store.main, r) && s.store.main[KeyOf(cfg, r.key)] == r
  }

  lemma {:induction false} InMainIsSent(cfg: Config, s: State, r: Record)
    requires Inv(cfg, s) && r in s.source && InMain(cfg, s.store.main, r)
    ensures MainRowSent(cfg, s, r)
  {
    assert IsSourceRow(cfg, s.source, KeyOf(cfg, r.key), s.store.main[KeyOf(cfg, r.key)]);
    SameKeySameRow(cfg, s.source, r, s.store.main[KeyOf(cfg, r.key)]);
  }

  /** In every reachable state of every interleaving, with any failures, retries and crashes: a
      source row at or below the checkpoint is completely indexed, unless some fetch could not
      read it, it was accepted while the index was unreachable, or a crash tore it. */
  lemma {:induction false} CheckpointIsSafe(cfg: Config, actions: seq<Action>, r: Record)
    requires ValidConfig(cfg)
    requires var s := Run(cfg, INITIAL, actions); r in s.source && r.key <= s.checkpoint
    ensures var s := Run(cfg, INITIAL, actions);
      || r.key in s.skipped
      || (MainRowSent(cfg, s, r) && (r.key in s.torn || (InTokens(cfg, s.store.postings, r) && r in s.counted)))
    ensures var s := Run(cfg, INITIAL, actions); OwnStats(cfg, s.store.stats, s.counted)
  {
    var s := Run(cfg, INITIAL, actions);
    RunKeepsInv(cfg, actions);
    assert RowCovered(cfg, s, r);
    if r.key !in s.skipped {
      InMainIsSent(cfg, s, r);
    }
  }

  /** Without crashes and unread rows, the checkpoint never passes a row whose main row, tokens
      and statistics have not all been sent, even though racing runs may move it backwards. */
  lemma {:induction false} CheckpointMeansIndexed(cfg: Config, actions: seq<Action>, r: Record)
    requires ValidConfig(cfg) && Faultless(actions) && NoCrash(actions)
    requires var s := Run(cfg, INITIAL, actions); r in s.source && r.key <= s.checkpoint
    ensures var s := Run(cfg, INITIAL, actions);
      MainRowSent(cfg, s, r) && InTokens(cfg, s.store.postings, r) && r in s.counted
  {
    CheckpointIsSafe(cfg, actions, r);
    FaultlessSkipsNothing(cfg, actions);
    NoCrashTearsNothing(cfg, actions);
  }

  /** Whenever the process stops, between any two steps, the checkpoint recomputed from the main
      index still has every source row at or below it in the main index. */
  lemma {:induction false} RecoveryKeepsMainRows(cfg: Config, actions: seq<Action>, scanned: bool, r: Record)
    requires ValidConfig(cfg) && Faultless(actions)
    requires var s := Run(cfg, INITIAL, actions + [Crash(scanned)]); r in s.source && r.key <= s.checkpoint
    ensures MainRowSent(cfg, Run(cfg, INITIAL, actions + [Crash(scanned)]), r)
  {
    CheckpointIsSafe(cfg, actions + [Crash(scanned)], r);
    assert forall a :: a in actions + [Crash(scanned)] <==> a in actions || a == Crash(scanned);
    FaultlessSkipsNothing(cfg, actions + [Crash(scanned)]);
  }
}
