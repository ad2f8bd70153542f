/** Reachability by fault-free steps, and progress: which syncs catch up with the source. */
module CdcReach {
  import opened Collections
  import opened GlobalIds
  import opened SearchIndex
  import opened CdcSync
  import opened CdcSafety

  /** Which steps may be used: those of the given runs, chunked or incremental, and new rows. */
  datatype Steps = Steps(runs: set<nat>, chunked: bool, incremental: bool, inserts: bool)

  function By(runs: set<nat>): Steps { Steps(runs, true, true, true) }

  /** A run that only ever syncs chunk by chunk, with no new rows. */
  function ChunkedBy(w: nat): Steps { Steps({w}, true, false, false) }

  /** A run that only ever syncs incrementally, with no new rows. */
  function IncrementalBy(w: nat): Steps { Steps({w}, false, true, false) }

  /** One of these steps, without faults. */
  predicate CleanStep(via: Steps, a: Action) {
    match a
    case Insert(_) => via.inserts
    case ReadMax(w, _) => via.chunked && w in via.runs
    case ReadStart(w) => via.chunked && w in via.runs
    case FetchChunk(w, unreadable) => via.chunked && w in via.runs && unreadable == {}
    case Stop(w) => via.chunked && w in via.runs
    case ReadLast(w) => via.incremental && w in via.runs
    case FetchNew(w, _, unreadable) => via.incremental && w in via.runs && unreadable == {}
    case Send(w, _) => w in via.runs
    case WriteCheckpoint(w) => w in via.runs
    case Other(_) => false
    case Unreachable(_) => false
    case Crash(_) => false
  }

  predicate CleanRun(via: Steps, actions: seq<Action>) {
    forall a :: a in actions ==> CleanStep(via, a)
  }

  /** State `t` follows from `s` by such steps. */
  ghost predicate Reaches(cfg: Config, via: Steps, s: State, t: State)
    requires ValidConfig(cfg)
  {
    exists actions :: CleanRun(via, actions) && Run(cfg, s, actions) == t
  }

  lemma {:induction false} ReachNothing(cfg: Config, via: Steps, s: State)
    requires ValidConfig(cfg)
    ensures Reaches(cfg, via, s, s)
  {
    assert CleanRun(via, []) && Run(cfg, s, []) == s;
  }

  lemma {:induction false} ReachStep(cfg: Config, via: Steps, s: State, a: Action)
    requires ValidConfig(cfg) && CleanStep(via, a)
    ensures Reaches(cfg, via, s, ApplyLive(cfg, s, a))
  {
    assert [a][..0] == [] && CleanRun(via, [a]);
    assert Run(cfg, s, [a]) == ApplyLive(cfg, s, a);
  }

  lemma {:induction false} ReachTrans(cfg: Config, via: Steps, s: State, t: State, u: State)
    requires ValidConfig(cfg) && Reaches(cfg, via, s, t) && Reaches(cfg, via, t, u)
    ensures Reaches(cfg, via, s, u)
  {
    var a :| CleanRun(via, a) && Run(cfg, s, a) == t;
    var b :| CleanRun(via, b) && Run(cfg, t, b) == u;
    assert forall x :: x in a + b <==> x in a || x in b;
    RunAppend(cfg, s, a, b);
  }

  /** A run, one more step, and another run. */
  lemma {:induction false} RunThree(cfg: Config, s: State, before: seq<Action>, a: Action, after: seq<Action>)
    requires ValidConfig(cfg)
    ensures Run(cfg, s, before + [a] + after) == Run(cfg, Apply(cfg, Run(cfg, s, before), a), after)
  {
    assert (before + [a])[..|before|] == before;
    RunAppend(cfg, s, before + [a], after);
  }

  lemma {:induction false} ReachedInv(cfg: Config, via: Steps, t: State)
    requires ValidConfig(cfg) && Reaches(cfg, via, INITIAL, t)
    ensures Inv(cfg, t)
  {
    var a :| CleanRun(via, a) && Run(cfg, INITIAL, a) == t;
    RunKeepsInv(cfg, a);
  }

  /** A run about to write its checkpoint after three successful sends. */
  function Ingested(cfg: Config, s: State, w: nat, job: Job): State {
    MoveTo(s, w, Indexing(job, 0, WritingCheckpoint)).(
      store := AfterBulk(cfg.fnv, s.store, cfg.table, job.batch, 3), counted := s.counted + job.batch)
  }

  lemma {:induction false} SendPhase(cfg: Config, via: Steps, s: State, w: nat, job: Job, phase: Phase)
    requires ValidConfig(cfg) && w in via.runs && WorkerOf(s, w) == Indexing(job, 0, phase) && !phase.WritingCheckpoint?
    ensures Reaches(cfg, via, s, ApplySend(cfg, s, w, job, 0, phase, true))
  {
    ReachStep(cfg, via, s, Send(w, true));
  }

  lemma {:induction false} Ingest(cfg: Config, via: Steps, s: State, w: nat, job: Job)
    requires ValidConfig(cfg) && w in via.runs && WorkerOf(s, w) == Indexing(job, 0, SendingMain)
    ensures Reaches(cfg, via, s, Ingested(cfg, s, w, job))
  {
    var s1 := ApplySend(cfg, s, w, job, 0, SendingMain, true);
    var s2 := ApplySend(cfg, s1, w, job, 0, SendingTokens, true);
    var s3 := ApplySend(cfg, s2, w, job, 0, SendingStats, true);
    SendPhase(cfg, via, s, w, job, SendingMain);
    SendPhase(cfg, via, s1, w, job, SendingTokens);
    ReachTrans(cfg, via, s, s1, s2);
    SendPhase(cfg, via, s2, w, job, SendingStats);
    ReachTrans(cfg, via, s, s2, s3);
    assert s3.workers == s.workers[w := Indexing(job, 0, WritingCheckpoint)];
  }

  /** The job an incremental run makes of the one row above its checkpoint. */
  function LastJob(cfg: Config, checkpoint: nat, row: Record): Job {
    Job([row], checkpoint, row.key, if cfg.bigint then row.key else 0, false, 0)
  }

  lemma {:induction false} NewestIsLast(cfg: Config, older: seq<Record>, row: Record)
    requires ValidConfig(cfg) && SortedRows(older + [row]) && SortedRows(older)
    ensures NewestJob(cfg, older + [row], MaxKey(older), {}) == LastJob(cfg, MaxKey(older), row)
  {
    OnlyLastNewer(older, row);
    assert Newest(older + [row], MaxKey(older), cfg.batchSize) == [row];
    assert [row][..0] == [];
    assert Readable([row], {}) == [row];
    assert MaxKey([row]) == row.key;
  }

  lemma {:induction false} OnlyLastNewer(older: seq<Record>, row: Record)
    requires SortedRows(older + [row]) && SortedRows(older)
    ensures Filter((r: Record) => MaxKey(older) < r.key, older + [row]) == [row]
  {
    var p := (r: Record) => MaxKey(older) < r.key;
    MaxKeyBounds(older);
    FilterNone(p, older);
    assert (older + [row])[..|older|] == older;
  }

  /** A fault-free incremental run from a checkpoint just below the last row fetches that row. */
  lemma {:induction false} FetchLast(cfg: Config, via: Steps, s: State, w: nat, older: seq<Record>, row: Record)
    requires ValidConfig(cfg) && w in via.runs && via.incremental && SortedRows(older) && SortedRows(s.source)
    requires s.source == older + [row] && s.checkpoint == MaxKey(older) && WorkerOf(s, w) == Idle
    ensures Reaches(cfg, via, s, MoveTo(s, w, Indexing(LastJob(cfg, MaxKey(older), row), 0, SendingMain)))
  {
    var s1 := MoveTo(s, w, Since(s.checkpoint));
    ReachStep(cfg, via, s, ReadLast(w));
    ReachStep(cfg, via, s1, FetchNew(w, true, {}));
    FetchLastState(cfg, s, w, older, row);
    ReachTrans(cfg, via, s, s1, MoveTo(s, w, Indexing(LastJob(cfg, MaxKey(older), row), 0, SendingMain)));
  }

  lemma {:induction false} FetchApplied(cfg: Config, s: State, w: nat, last: int, job: Job)
    requires ValidConfig(cfg) && NewestJob(cfg, s.source, last, {}) == job && job.batch != []
    ensures ApplyFetchNew(cfg, s, w, last, true, {}) == MoveTo(s, w, Indexing(job, 0, SendingMain))
  {
    assert s.skipped + Keys(Newest(s.source, last, cfg.batchSize)) * {} == s.skipped;
  }

  lemma {:induction false} MoveTwice(s: State, w: nat, a: Worker, b: Worker)
    ensures MoveTo(MoveTo(s, w, a), w, b) == MoveTo(s, w, b)
  {
    assert s.workers[w := a][w := b] == s.workers[w := b];
  }

  lemma {:induction false} FetchLastState(cfg: Config, s: State, w: nat, older: seq<Record>, row: Record)
    requires ValidConfig(cfg) && SortedRows(older) && SortedRows(s.source)
    requires s.source == older + [row] && s.checkpoint == MaxKey(older)
    ensures ApplyLive(cfg, MoveTo(s, w, Since(s.checkpoint)), FetchNew(w, true, {}))
         == MoveTo(s, w, Indexing(LastJob(cfg, MaxKey(older), row), 0, SendingMain))
  {
    var job := LastJob(cfg, MaxKey(older), row);
    NewestIsLast(cfg, older, row);
    FetchApplied(cfg, MoveTo(s, w, Since(s.checkpoint)), w, s.checkpoint, job);
    MoveTwice(s, w, Since(s.checkpoint), Indexing(job, 0, SendingMain));
  }

  /** The state with one source row and no sync yet. */
  function OneRow(row: Record): State { INITIAL.(source := [row]) }

  lemma {:induction false} StartOne(cfg: Config, via: Steps, w: nat, row: Record)
    requires ValidConfig(cfg) && w in via.runs && via.incremental && via.inserts && 0 < row.key < LOCAL_SPAN
    ensures Reaches(cfg, via, INITIAL, MoveTo(OneRow(row), w, Indexing(LastJob(cfg, 0, row), 0, SendingMain)))
  {
    ReachStep(cfg, via, INITIAL, Insert(row));
    OneRowSorted(row);
    FetchLast(cfg, via, OneRow(row), w, [], row);
    ReachTrans(cfg, via, INITIAL, OneRow(row), MoveTo(OneRow(row), w, Indexing(LastJob(cfg, 0, row), 0, SendingMain)));
  }

  lemma {:induction false} OneRowSorted(row: Record)
    requires 0 < row.key < LOCAL_SPAN
    ensures SortedRows([row]) && [] + [row] == [row]
  {
    SortedSnoc([], row);
    assert [] + [row] == [row];
  }

  lemma {:induction false} OneMainRow(cfg: Config, row: Record)
    requires row.key != 0
    ensures MainRows(cfg.fnv, cfg.table, [row]) == map[KeyOf(cfg, row.key) := row]
  {
    assert [] + [row] == [row];
    MainRowsSnoc(cfg.fnv, cfg.table, [], row);
  }

  lemma {:induction false} FinishRun(cfg: Config, via: Steps, s: State, w: nat, job: Job)
    requires ValidConfig(cfg) && w in via.runs && !job.chunked && WorkerOf(s, w) == Indexing(job, 0, WritingCheckpoint)
    ensures Reaches(cfg, via, s, MoveTo(s, w, Idle).(checkpoint := job.upto))
  {
    ReachStep(cfg, via, s, WriteCheckpoint(w));
  }

  lemma {:induction false} IngestAndFinish(cfg: Config, via: Steps, s: State, w: nat, job: Job) returns (t: State)
    requires ValidConfig(cfg) && w in via.runs && !job.chunked && WorkerOf(s, w) == Indexing(job, 0, SendingMain)
    ensures Reaches(cfg, via, s, t) && t.checkpoint == job.upto && t.source == s.source && WorkerOf(t, w) == Idle
    ensures t.counted == s.counted + job.batch
    ensures w != 0 ==> WorkerOf(t, 0) == WorkerOf(s, 0)
  {
    var sent := Ingested(cfg, s, w, job);
    Ingest(cfg, via, s, w, job);
    FinishRun(cfg, via, sent, w, job);
    t := MoveTo(sent, w, Idle).(checkpoint := job.upto);
    ReachTrans(cfg, via, s, sent, t);
  }

  lemma {:induction false} InsertRow(cfg: Config, via: Steps, s: State, row: Record)
    requires ValidConfig(cfg) && via.inserts && MaxKey(s.source) < row.key < LOCAL_SPAN
    ensures Reaches(cfg, via, s, s.(source := s.source + [row]))
  {
    ReachStep(cfg, via, s, Insert(row));
  }

  // ----- progress -----

  lemma {:induction false} RunFromKeepsInv(cfg: Config, s: State, actions: seq<Action>)
    requires ValidConfig(cfg) && Inv(cfg, s)
    ensures Inv(cfg, Run(cfg, s, actions))
  {
    if actions != [] {
      var n := |actions| - 1;
      RunFromKeepsInv(cfg, s, actions[..n]);
      StepKeepsInv(cfg, Run(cfg, s, actions[..n]), actions[n]);
    }
  }

  lemma {:induction false} ReachKeepsInv(cfg: Config, via: Steps, s: State, t: State)
    requires ValidConfig(cfg) && Inv(cfg, s) && Reaches(cfg, via, s, t)
    ensures Inv(cfg, t)
  {
    var a :| CleanRun(via, a) && Run(cfg, s, a) == t;
    RunFromKeepsInv(cfg, s, a);
  }

  /** Behind the last key there is something to fetch, and its largest key is beyond the checkpoint. */
  lemma {:induction false} NewestAdvances(cfg: Config, source: seq<Record>, last: int)
    requires ValidConfig(cfg) && SortedRows(source) && 0 <= last < MaxKey(source)
    ensures var job := NewestJob(cfg, source, last, {}); job.batch != [] && last < job.top <= MaxKey(source)
  {
    var p := (r: Record) => last < r.key;
    FilterMembers(p, source);
    assert source[|source| - 1] in Filter(p, source);
    var rows := Newest(source, last, cfg.batchSize);
    assert rows[0] in rows;
    NewestMembers(source, last, cfg.batchSize);
    ReadableMembers(rows, {});
    var batch := Readable(rows, {});
    assert rows[0] in batch;
    MaxKeyBounds(batch);
    MaxKeyBounds(source);
  }

  // ----- incremental runs -----

  /** One fault-free incremental run whose sends succeed moves the checkpoint forward. */
  lemma {:induction false} RoundAdvances(cfg: Config, w: nat, s: State) returns (t: State)
    requires ValidConfig(cfg) && cfg.bigint && Inv(cfg, s) && WorkerOf(s, w) == Idle
    requires s.checkpoint < MaxKey(s.source)
    ensures Reaches(cfg, IncrementalBy(w), s, t) && t.source == s.source && WorkerOf(t, w) == Idle
    ensures s.checkpoint < t.checkpoint <= MaxKey(s.source)
  {
    var via := IncrementalBy(w);
    var job := NewestJob(cfg, s.source, s.checkpoint, {});
    NewestAdvances(cfg, s.source, s.checkpoint);
    var s1 := MoveTo(s, w, Since(s.checkpoint));
    var s2 := MoveTo(s1, w, Indexing(job, 0, SendingMain));
    ReachStep(cfg, via, s, ReadLast(w));
    ReachStep(cfg, via, s1, FetchNew(w, true, {}));
    FetchApplied(cfg, s1, w, s.checkpoint, job);
    ReachTrans(cfg, via, s, s1, s2);
    t := IngestAndFinish(cfg, via, s2, w, job);
    ReachTrans(cfg, via, s, s2, t);
  }

  /** From every state of the protocol, with 64-bit keys, incremental runs alone bring the checkpoint
      to the largest key. */
  lemma {:induction false} CatchesUp(cfg: Config, w: nat, s: State) returns (t: State)
    requires ValidConfig(cfg) && cfg.bigint && Inv(cfg, s) && WorkerOf(s, w) == Idle
    ensures Reaches(cfg, IncrementalBy(w), s, t) && t.source == s.source && t.checkpoint == MaxKey(s.source)
    decreases MaxKey(s.source) - s.checkpoint
  {
    if s.checkpoint == MaxKey(s.source) {
      t := s;
      ReachNothing(cfg, IncrementalBy(w), s);
    } else {
      var u := RoundAdvances(cfg, w, s);
      ReachKeepsInv(cfg, IncrementalBy(w), s, u);
      t := CatchesUp(cfg, w, u);
      ReachTrans(cfg, IncrementalBy(w), s, u, t);
    }
  }

  /** The run has only ever synced incrementally, over keys that leave the new checkpoint at 0. */
  predicate StuckAtZero(s: State, w: nat) {
    && s.checkpoint == 0
    && match WorkerOf(s, w)
       case Idle => true
       case Since(_) => true
       case Indexing(job, _, _) => !job.chunked && job.upto == 0
       case _ => false
  }

  lemma {:induction false} StepStaysAtZero(cfg: Config, s: State, w: nat, a: Action)
    requires ValidConfig(cfg) && !cfg.bigint && StuckAtZero(s, w) && CleanStep(IncrementalBy(w), a)
    ensures StuckAtZero(ApplyLive(cfg, s, a), w)
  {
  }

  lemma {:induction false} RunStaysAtZero(cfg: Config, s: State, w: nat, actions: seq<Action>)
    requires ValidConfig(cfg) && !cfg.bigint && StuckAtZero(s, w) && CleanRun(IncrementalBy(w), actions)
    ensures StuckAtZero(Run(cfg, s, actions), w)
  {
    if actions != [] {
      var n := |actions| - 1;
      assert actions[n] in actions && forall a :: a in actions[..n] ==> a in actions;
      RunStaysAtZero(cfg, s, w, actions[..n]);
      StepStaysAtZero(cfg, Run(cfg, s, actions[..n]), w, actions[n]);
    }
  }

  /** Incremental runs alone can bring the checkpoint to the largest key. */
  ghost predicate CanCatchUp(cfg: Config, via: Steps, s: State)
    requires ValidConfig(cfg)
  {
    exists t :: Reaches(cfg, via, s, t) && t.source == s.source && t.checkpoint == MaxKey(s.source)
  }

  /** Incremental syncing catches up from every state of the protocol exactly when keys decode as
      64-bit integers. */
  lemma {:induction false} IncrementalCatchesUpIff(cfg: Config, w: nat)
    requires ValidConfig(cfg)
    ensures (forall s :: Inv(cfg, s) && WorkerOf(s, w) == Idle ==> CanCatchUp(cfg, IncrementalBy(w), s)) <==> cfg.bigint
  {
    if cfg.bigint {
      forall s | Inv(cfg, s) && WorkerOf(s, w) == Idle
        ensures CanCatchUp(cfg, IncrementalBy(w), s)
      {
        var t := CatchesUp(cfg, w, s);
      }
    } else {
      var row := Record(1, [], false);
      var s := OneRow(row);
      InsertRow(cfg, By({}), INITIAL, row);
      OneRowSorted(row);
      ReachedInv(cfg, By({}), s);
      if CanCatchUp(cfg, IncrementalBy(w), s) {
        var t :| Reaches(cfg, IncrementalBy(w), s, t) && t.source == s.source && t.checkpoint == MaxKey(s.source);
        var actions :| CleanRun(IncrementalBy(w), actions) && Run(cfg, s, actions) == t;
        RunStaysAtZero(cfg, s, w, actions);
      }
    }
  }

  // ----- chunked runs -----

  /** Index the batch of one chunk and write its checkpoint. */
  lemma {:induction false} IndexChunk(cfg: Config, via: Steps, s: State, w: nat, job: Job) returns (t: State)
    requires ValidConfig(cfg) && w in via.runs && job.chunked && WorkerOf(s, w) == Indexing(job, 0, SendingMain)
    ensures Reaches(cfg, via, s, t) && t.source == s.source && t.checkpoint == job.upto
    ensures WorkerOf(t, w) == NextChunk(cfg, job.from, job.total)
    ensures t.store.main == s.store.main + MainRows(cfg.fnv, cfg.table, job.batch) && t.counted == s.counted + job.batch
  {
    var sent := Ingested(cfg, s, w, job);
    Ingest(cfg, via, s, w, job);
    ReachStep(cfg, via, sent, WriteCheckpoint(w));
    WriteMoves(cfg, sent, w, job, 0);
    t := ApplyLive(cfg, sent, WriteCheckpoint(w));
    ReachTrans(cfg, via, s, sent, t);
  }

  /** The last chunk is never empty. */
  lemma {:induction false} LastChunkHasRow(cfg: Config, source: seq<Record>, cur: int)
    requires ValidConfig(cfg) && SortedRows(source) && 0 <= cur < MaxKey(source) <= cur + cfg.chunkSize
    ensures ChunkJob(cfg, source, cur, MaxKey(source), {}).batch != []
  {
    MaxKeyBounds(source);
    var r :| r in source && r.key == MaxKey(source);
    BetweenMembers(source, cur, MaxKey(source));
    ReadableMembers(Between(source, cur, MaxKey(source)), {});
    assert r in ChunkJob(cfg, source, cur, MaxKey(source), {}).batch;
  }

  /** One turn of the chunk loop: on to the next chunk, with the checkpoint at its end when it was the
      last one. */
  lemma {:induction false} OneChunk(cfg: Config, w: nat, s: State, cur: int) returns (t: State)
    requires ValidConfig(cfg) && Inv(cfg, s) && WorkerOf(s, w) == AtChunk(cur, MaxKey(s.source))
    ensures Reaches(cfg, ChunkedBy(w), s, t) && t.source == s.source
    ensures WorkerOf(t, w) == NextChunk(cfg, cur, MaxKey(s.source))
    ensures cur + cfg.chunkSize >= MaxKey(s.source) ==> t.checkpoint == MaxKey(s.source)
  {
    var via, total := ChunkedBy(w), MaxKey(s.source);
    assert WorkerOk(cfg, s, AtChunk(cur, total));
    var job := ChunkJob(cfg, s.source, cur, total, {});
    var fetched := ApplyLive(cfg, s, FetchChunk(w, {}));
    ReachStep(cfg, via, s, FetchChunk(w, {}));
    ChunkMoves(cfg, s, w, cur, total, {});
    if cur + cfg.chunkSize >= total {
      LastChunkHasRow(cfg, s.source, cur);
    }
    if job.batch == [] {
      t := fetched;
    } else {
      t := IndexChunk(cfg, via, fetched, w, job);
      ReachTrans(cfg, via, s, fetched, t);
    }
  }

  lemma {:induction false} ChunksCatchUp(cfg: Config, w: nat, s: State, cur: int) returns (t: State)
    requires ValidConfig(cfg) && Inv(cfg, s) && WorkerOf(s, w) == AtChunk(cur, MaxKey(s.source))
    ensures Reaches(cfg, ChunkedBy(w), s, t) && t.source == s.source && t.checkpoint == MaxKey(s.source)
    ensures WorkerOf(t, w) == Idle
    decreases MaxKey(s.source) - cur
  {
    assert WorkerOk(cfg, s, AtChunk(cur, MaxKey(s.source)));
    var u := OneChunk(cfg, w, s, cur);
    if cur + cfg.chunkSize >= MaxKey(s.source) {
      t := u;
    } else {
      ReachKeepsInv(cfg, ChunkedBy(w), s, u);
      t := ChunksCatchUp(cfg, w, u, cur + cfg.chunkSize);
      ReachTrans(cfg, ChunkedBy(w), s, u, t);
    }
  }

  /** From every state of the protocol, for keys of any type, one fault-free chunked run brings the
      checkpoint to the largest key. */
  lemma {:induction false} ChunkedCatchesUp(cfg: Config, w: nat, s: State) returns (t: State)
    requires ValidConfig(cfg) && Inv(cfg, s) && WorkerOf(s, w) == Idle
    ensures Reaches(cfg, ChunkedBy(w), s, t) && t.source == s.source && t.checkpoint == MaxKey(s.source)
    ensures WorkerOf(t, w) == Idle
  {
    var via, total := ChunkedBy(w), MaxKey(s.source);
    var sized := MoveTo(s, w, Sized(total));
    ReachStep(cfg, via, s, ReadMax(w, true));
    ReachStep(cfg, via, sized, ReadStart(w));
    var u := ApplyLive(cfg, sized, ReadStart(w));
    ReachTrans(cfg, via, s, sized, u);
    if s.checkpoint >= total {
      t := u;
    } else {
      ReachKeepsInv(cfg, via, s, u);
      t := ChunksCatchUp(cfg, w, u, s.checkpoint);
      ReachTrans(cfg, via, s, u, t);
    }
  }
}
