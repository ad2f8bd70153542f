/** The checkpointed synchronisation of one source table into the search index, as a step
    system: any number of chunked, triggered and incremental sync runs interleave with new
    source rows, index operations of other tables, failing sends, unreadable rows, an
    unreachable index and process crashes. */
module CdcSync {
  import opened Collections
  import opened GlobalIds
  import opened SearchIndex

  /** Configuration of the sync of one table; `bigint` says that keys decode as 64-bit integers. */
  datatype Config = Config(fnv: HashFn, table: string, chunkSize: int, batchSize: int, maxRetries: int, bigint: bool)

  predicate ValidConfig(cfg: Config) {
    cfg.chunkSize > 0 && cfg.batchSize > 0 && cfg.maxRetries > 0
  }

  datatype Phase = SendingMain | SendingTokens | SendingStats | WritingCheckpoint

  /** A fetched batch: all readable source rows with keys in (from, top]. `upto` is the
      checkpoint written after indexing it. A chunked run continues towards `total`. */
  datatype Job = Job(batch: seq<Record>, from: int, top: int, upto: int, chunked: bool, total: int)

  /** Where a sync run stands. */
  datatype Worker =
    | Idle
    | Sized(total: int)                                  // chunked run: knows the largest key
    | AtChunk(cur: int, total: int)                      // chunked run: head of the chunk loop
    | Since(last: int)                                   // incremental run: has read the checkpoint
    | Indexing(job: Job, attempt: nat, phase: Phase)     // inside the retry loop around BulkIndex

  datatype DeadLetter = DeadLetter(from: int, upto: int)

  /** Shared state. The last three fields are history: keys some fetch could not read or that
      were accepted while the index was unreachable; keys whose row was half indexed at a
      crash; and the records whose statistics have been sent, once per sending. */
  datatype State = State(
    source: seq<Record>,
    checkpoint: int,
    store: Store,
    deadLetters: seq<DeadLetter>,
    workers: map<nat, Worker>,
    skipped: set<nat>,
    torn: set<nat>,
    counted: seq<Record>)

  /** Besides the steps of the runs: new rows, index operations of other tables, and crashes. */
  datatype Action =
    | Insert(row: Record)
    | Other(op: Op)
    | ReadMax(w: nat, ok: bool)
    | ReadStart(w: nat)
    | FetchChunk(w: nat, unreadable: set<nat>)
    | Stop(w: nat)
    | ReadLast(w: nat)
    | FetchNew(w: nat, ok: bool, unreadable: set<nat>)
    | Unreachable(w: nat)
    | Send(w: nat, ok: bool)
    | WriteCheckpoint(w: nat)
    | Crash(scanned: bool)

  const INITIAL := State([], 0, EMPTY_STORE, [], map[], {}, {}, [])

  function WorkerOf(s: State, w: nat): Worker {
    if w in s.workers then s.workers[w] else Idle
  }

  function MaxKey(source: seq<Record>): nat {
    if source == [] then 0 else source[|source| - 1].key
  }

  // ----- queries -----

  /** SELECT ... WHERE key > lo AND key <= hi ORDER BY key. */
  function Between(source: seq<Record>, lo: int, hi: int): seq<Record> {
    Filter((r: Record) => lo < r.key <= hi, source)
  }

  /** SELECT ... WHERE key > lo ORDER BY key LIMIT n. */
  function Newest(source: seq<Record>, lo: int, n: nat): seq<Record> {
    Take(Filter((r: Record) => lo < r.key, source), n)
  }

  function Readable(rows: seq<Record>, unreadable: set<nat>): seq<Record> {
    Filter((r: Record) => r.key !in unreadable, rows)
  }

  function Keys(rows: seq<Record>): set<nat> {
    set r | r in rows :: r.key
  }

  // ----- steps -----

  function MoveTo(s: State, w: nat, worker: Worker): State {
    s.(workers := s.workers[w := worker])
  }

  /** A failed attempt: start over with the first send, or give up into the dead-letter table. */
  function FailAttempt(cfg: Config, s: State, w: nat, job: Job, attempt: nat): State {
    if attempt + 1 < cfg.maxRetries then MoveTo(s, w, Indexing(job, attempt + 1, SendingMain))
    else MoveTo(s, w, Idle).(deadLetters := s.deadLetters + [DeadLetter(job.from, job.upto)])
  }

  /** The chunk loop moves on by the chunk size. */
  function NextChunk(cfg: Config, cur: int, total: int): Worker {
    if cur + cfg.chunkSize < total then AtChunk(cur + cfg.chunkSize, total) else Idle
  }

  function ApplySend(cfg: Config, s: State, w: nat, job: Job, attempt: nat, phase: Phase, ok: bool): State {
    if !ok then FailAttempt(cfg, s, w, job, attempt)
    else match phase
      case SendingMain =>
        MoveTo(s, w, Indexing(job, attempt, SendingTokens))
          .(store := SendMain(s.store, MainRows(cfg.fnv, cfg.table, job.batch)))
      case SendingTokens =>
        MoveTo(s, w, Indexing(job, attempt, SendingStats))
          .(store := SendTokens(s.store, Postings(cfg.fnv, cfg.table, job.batch)))
      case SendingStats =>
        MoveTo(s, w, Indexing(job, attempt, WritingCheckpoint)).(
          store := SendStats(s.store, StatRows(cfg.fnv, cfg.table, job.batch)), counted := s.counted + job.batch)
      case WritingCheckpoint => s
  }

  /** The chunk of rows from `cur` as a job; its batch is what could be read. */
  function ChunkJob(cfg: Config, source: seq<Record>, cur: int, total: int, unreadable: set<nat>): Job {
    var end := Min(cur + cfg.chunkSize, total);
    Job(Readable(Between(source, cur, end), unreadable), cur, end, end, true, total)
  }

  function ApplyFetchChunk(cfg: Config, s: State, w: nat, cur: int, total: int, unreadable: set<nat>): State {
    var job := ChunkJob(cfg, s.source, cur, total, unreadable);
    var skips := Keys(Between(s.source, cur, job.top)) * unreadable;
    MoveTo(s.(skipped := s.skipped + skips), w,
           if job.batch == [] then NextChunk(cfg, cur, total) else Indexing(job, 0, SendingMain))
  }

  /** The newest rows as a job; keys that do not decode as 64-bit integers leave the new checkpoint at 0. */
  function NewestJob(cfg: Config, source: seq<Record>, last: int, unreadable: set<nat>): Job
    requires ValidConfig(cfg)
  {
    var records := Readable(Newest(source, last, cfg.batchSize), unreadable);
    Job(records, last, MaxKey(records), if cfg.bigint then MaxKey(records) else 0, false, 0)
  }

  function ApplyFetchNew(cfg: Config, s: State, w: nat, last: int, ok: bool, unreadable: set<nat>): State
    requires ValidConfig(cfg)
  {
    if !ok then MoveTo(s, w, Idle)
    else
      var job := NewestJob(cfg, s.source, last, unreadable);
      var skips := Keys(Newest(s.source, last, cfg.batchSize)) * unreadable;
      MoveTo(s.(skipped := s.skipped + skips), w, if job.batch == [] then Idle else Indexing(job, 0, SendingMain))
  }

  /** One step of the system other than a crash; a step that is not enabled changes nothing. */
  function ApplyLive(cfg: Config, s: State, a: Action): State
    requires ValidConfig(cfg)
  {
    match a
    case Insert(row) =>
      if MaxKey(s.source) < row.key < LOCAL_SPAN then s.(source := s.source + [row]) else s
    case Other(op) =>
      if op.table != cfg.table then s.(store := AfterOp(cfg.fnv, s.store, op)) else s
    case ReadMax(w, ok) =>
      if WorkerOf(s, w).Idle? then MoveTo(s, w, Sized(if ok then MaxKey(s.source) else 0)) else s
    case ReadStart(w) =>
      if WorkerOf(s, w).Sized? then
        var total := WorkerOf(s, w).total;
        MoveTo(s, w, if s.checkpoint >= total then Idle else AtChunk(s.checkpoint, total))
      else s
    case FetchChunk(w, unreadable) =>
      if WorkerOf(s, w).AtChunk? then
        ApplyFetchChunk(cfg, s, w, WorkerOf(s, w).cur, WorkerOf(s, w).total, unreadable)
      else
        s
    case Stop(w) =>
      if WorkerOf(s, w).AtChunk? then MoveTo(s, w, Idle) else s
    case ReadLast(w) =>
      if WorkerOf(s, w).Idle? then MoveTo(s, w, Since(s.checkpoint)) else s
    case FetchNew(w, ok, unreadable) =>
      if WorkerOf(s, w).Since? then ApplyFetchNew(cfg, s, w, WorkerOf(s, w).last, ok, unreadable) else s
    case Unreachable(w) =>
      if WorkerOf(s, w).Indexing? && WorkerOf(s, w).phase.SendingMain? then
        var job := WorkerOf(s, w).job;
        MoveTo(s, w, Indexing(job, WorkerOf(s, w).attempt, WritingCheckpoint)).(skipped := s.skipped + Keys(job.batch))
      else s
    case Send(w, ok) =>
      if WorkerOf(s, w).Indexing? && !WorkerOf(s, w).phase.WritingCheckpoint? then
        ApplySend(cfg, s, w, WorkerOf(s, w).job, WorkerOf(s, w).attempt, WorkerOf(s, w).phase, ok)
      else s
    case WriteCheckpoint(w) =>
      if WorkerOf(s, w).Indexing? && WorkerOf(s, w).phase.WritingCheckpoint? then
        var job := WorkerOf(s, w).job;
        MoveTo(s, w, if job.chunked then NextChunk(cfg, job.from, job.total) else Idle).(checkpoint := job.upto)
      else s
    case Crash(_) => s
  }

  /** Packed ids of the rows of this table that are in the main index and not deleted. */
  function LiveIds(cfg: Config, store: Store): set<nat> {
    set k | k in store.main && k.table == cfg.table && !store.main[k].deleted :: k.globalId
  }

  /** The checkpoint recomputed at start-up from the largest live packed id. */
  ghost function Recovered(cfg: Config, store: Store): nat {
    ExtractLocalId(MaxOf(LiveIds(cfg, store)))
  }

  /** A crash forgets all runs and the in-memory checkpoint; start-up recomputes it, or
      leaves it at 0 when the index cannot be read. */
  ghost function ApplyCrash(cfg: Config, s: State, scanned: bool): State {
    s.(workers := map[],
       checkpoint := if scanned then Recovered(cfg, s.store) else 0,
       torn := s.torn + HalfIndexed(cfg, s))
  }

  /** Keys of the rows in the main index that lack their tokens or statistics. */
  function HalfIndexed(cfg: Config, s: State): set<nat> {
    set r | r in s.source && InMain(cfg, s.store.main, r) &&
      !(InTokens(cfg, s.store.postings, r) && r in s.counted) :: r.key
  }

  ghost function Apply(cfg: Config, s: State, a: Action): State
    requires ValidConfig(cfg)
  {
    if a.Crash? then ApplyCrash(cfg, s, a.scanned) else ApplyLive(cfg, s, a)
  }

  ghost function Run(cfg: Config, s: State, actions: seq<Action>): State
    requires ValidConfig(cfg)
  {
    if actions == [] then s
    else Apply(cfg, Run(cfg, s, actions[..|actions| - 1]), actions[|actions| - 1])
  }

  lemma {:induction false} RunAppend(cfg: Config, s: State, a: seq<Action>, b: seq<Action>)
    requires ValidConfig(cfg)
    ensures Run(cfg, s, a + b) == Run(cfg, Run(cfg, s, a), b)
  {
    if b == [] {
      assert a + b == a;
    } else {
      var n := |b| - 1;
      RunAppend(cfg, s, a, b[..n]);
      assert (a + b)[..|a + b| - 1] == a + b[..n];
    }
  }

  // ----- what it means for a row to be indexed -----

  function KeyOf(cfg: Config, key: nat): RowKey {
    RowKey(cfg.table, RowId(cfg.fnv, cfg.table, key))
  }

  predicate InMain(cfg: Config, main: map<RowKey, Record>, r: Record) {
    KeyOf(cfg, r.key) in main
  }

  predicate InTokens(cfg: Config, postings: set<Posting>, r: Record) {
    forall h :: h in TokenHashes(cfg.fnv, r.tokens) ==> Posting(h, RowId(cfg.fnv, cfg.table, r.key)) in postings
  }

  /** The main row is there, and unless a crash tore it so are its tokens and statistics. */
  predicate RowCovered(cfg: Config, s: State, r: Record) {
    r.key in s.skipped ||
      (InMain(cfg, s.store.main, r) && (r.key in s.torn || (InTokens(cfg, s.store.postings, r) && r in s.counted)))
  }

  ghost predicate Covered(cfg: Config, s: State, bound: int) {
    forall r :: r in s.source && r.key <= bound ==> RowCovered(cfg, s, r)
  }

  // ----- invariant -----

  /** Rows in strictly increasing order of keys that fit a packed id. */
  predicate SortedRows(rows: seq<Record>) {
    rows == [] ||
    (var n := |rows| - 1; SortedRows(rows[..n]) && MaxKey(rows[..n]) < rows[n].key < LOCAL_SPAN)
  }

  ghost predicate JobOk(cfg: Config, s: State, job: Job) {
    && 0 <= job.from < job.top <= MaxKey(s.source) && 0 <= job.upto <= job.top
    && Covered(cfg, s, job.from)
    && (forall r :: r in job.batch ==> r in s.source && job.from < r.key <= job.top)
    && (forall r :: r in s.source && job.from < r.key <= job.top && r.key !in s.skipped ==> r in job.batch)
    && (job.chunked ==> job.total <= MaxKey(s.source) && job.top == Min(job.from + cfg.chunkSize, job.total))
  }

  ghost predicate WorkerOk(cfg: Config, s: State, worker: Worker) {
    match worker
    case Idle => true
    case Sized(total) => total <= MaxKey(s.source)
    case AtChunk(cur, total) => 0 <= cur < total <= MaxKey(s.source) && Covered(cfg, s, cur)
    case Since(last) => 0 <= last <= MaxKey(s.source) && Covered(cfg, s, last)
    case Indexing(job, attempt, phase) =>
      && JobOk(cfg, s, job)
      && (!phase.SendingMain? ==> forall r :: r in job.batch ==> r.key in s.skipped || InMain(cfg, s.store.main, r))
      && (phase.SendingStats? || phase.WritingCheckpoint? ==>
        forall r :: r in job.batch ==> r.key in s.skipped || InTokens(cfg, s.store.postings, r))
      && (phase.WritingCheckpoint? ==> forall r :: r in job.batch ==> r.key in s.skipped || r in s.counted)
  }

  /** The statistics of this table count the records sent. */
  ghost predicate OwnStats(cfg: Config, stats: multiset<Stat>, counted: seq<Record>) {
    forall hash :: stats[Stat(hash, cfg.table)] == CountWith(cfg.fnv, counted, hash)
  }

  /** The main index is a key prefix of the source, up to skipped rows, and holds the source's own rows. */
  ghost predicate MainIsPrefix(cfg: Config, source: seq<Record>, main: map<RowKey, Record>, skipped: set<nat>) {
    && (forall r, r' :: r in source && r' in source && r'.key < r.key && InMain(cfg, main, r) ==>
          r'.key in skipped || InMain(cfg, main, r'))
    && (forall k :: k in main && k.table == cfg.table ==> IsSourceRow(cfg, source, k, main[k]))
  }

  predicate IsSourceRow(cfg: Config, source: seq<Record>, k: RowKey, r: Record) {
    r in source && k == KeyOf(cfg, r.key)
  }

  ghost predicate Inv(cfg: Config, s: State) {
    && SortedRows(s.source)
    && 0 <= s.checkpoint <= MaxKey(s.source)
    && Covered(cfg, s, s.checkpoint)
    && MainIsPrefix(cfg, s.source, s.store.main, s.skipped)
    && (forall w :: w in s.workers ==> WorkerOk(cfg, s, s.workers[w]))
    && OwnStats(cfg, s.store.stats, s.counted)
  }
}
