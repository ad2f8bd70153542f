/** Exactly-once statistics over at-least-once delivery. */
module CdcAccounting {
  import opened Collections
  import opened GlobalIds
  import opened SearchIndex
  import opened CdcSync
  import opened CdcSafety

  /** All sync work on this table is done by run 0 and the process does not stop. */
  predicate OneWorker(actions: seq<Action>) {
    forall a :: a in actions ==> a.Insert? || a.Other? || (!a.Crash? && a.w == 0)
  }

  /** Everything up to here has had its statistics sent: the checkpoint, or the one about to be written. */
  function Watermark(s: State): int {
    var worker := WorkerOf(s, 0);
    if worker.Indexing? && worker.phase.WritingCheckpoint? then worker.job.upto else s.checkpoint
  }

  /** The only worker never goes back behind the checkpoint. */
  predicate AheadOf(worker: Worker, checkpoint: int) {
    match worker
    case Idle => true
    case Sized(_) => true
    case AtChunk(cur, _) => checkpoint <= cur
    case Since(last) => checkpoint <= last
    case Indexing(job, _, _) =>
      && checkpoint <= job.from
      && job.upto == job.top
      && SortedRows(job.batch)
      && MaxKey(job.batch) <= job.top
  }

  /** Statistics were sent for strictly increasing keys, each record at most once. */
  ghost predicate CountedOnce(cfg: Config, s: State) {
    && SortedRows(s.counted) && MaxKey(s.counted) <= Watermark(s)
    && (forall r :: r in s.counted ==> r in s.source)
    && AheadOf(WorkerOf(s, 0), s.checkpoint)
  }

  lemma {:induction false} SortedConcat(a: seq<Record>, b: seq<Record>)
    requires SortedRows(a) && SortedRows(b)
    requires forall r :: r in b ==> MaxKey(a) < r.key
    ensures SortedRows(a + b)
    ensures MaxKey(a + b) == if b == [] then MaxKey(a) else MaxKey(b)
  {
    if b == [] {
      assert a + b == a;
    } else {
      var n := |b| - 1;
      SortedConcat(a, b[..n]);
      assert b[n] in b;
      assert (a + b)[..|a + b| - 1] == a + b[..n];
    }
  }

  lemma {:induction false} ChunkBatchSorted(cfg: Config, source: seq<Record>, cur: int, total: int,
                                            unreadable: set<nat>)
    requires SortedRows(source) && 0 <= total && 0 <= cur && cfg.chunkSize > 0
    ensures var job := ChunkJob(cfg, source, cur, total, unreadable);
      SortedRows(job.batch) && MaxKey(job.batch) <= job.top
  {
    var job := ChunkJob(cfg, source, cur, total, unreadable);
    BetweenMembers(source, cur, job.top);
    ReadableMembers(Between(source, cur, job.top), unreadable);
    MaxKeyBounds(job.batch);
  }

  lemma {:induction false} SendStatsCountsOnce(cfg: Config, s: State, job: Job, attempt: nat)
    requires CountedOnce(cfg, s) && JobOk(cfg, s, job) && WorkerOf(s, 0) == Indexing(job, attempt, SendingStats)
    ensures CountedOnce(cfg, ApplySend(cfg, s, 0, job, attempt, SendingStats, true))
  {
    SortedConcat(s.counted, job.batch);
    assert forall r :: r in s.counted + job.batch <==> r in s.counted || r in job.batch;
  }

  lemma {:induction false} SendCountsOnce(cfg: Config, s: State, job: Job, attempt: nat, phase: Phase, ok: bool)
    requires CountedOnce(cfg, s) && JobOk(cfg, s, job) && WorkerOf(s, 0) == Indexing(job, attempt, phase)
    requires !phase.WritingCheckpoint?
    ensures CountedOnce(cfg, ApplySend(cfg, s, 0, job, attempt, phase, ok))
  {
    if ok && phase.SendingStats? {
      SendStatsCountsOnce(cfg, s, job, attempt);
    }
  }

  lemma {:induction false} FetchChunkCountsOnce(cfg: Config, s: State, cur: int, total: int, unreadable: set<nat>)
    requires ValidConfig(cfg) && SortedRows(s.source) && CountedOnce(cfg, s)
    requires WorkerOf(s, 0) == AtChunk(cur, total) && 0 <= cur && 0 <= total
    ensures CountedOnce(cfg, ApplyFetchChunk(cfg, s, 0, cur, total, unreadable))
  {
    ChunkBatchSorted(cfg, s.source, cur, total, unreadable);
  }

  lemma {:induction false} FetchNewCountsOnce(cfg: Config, s: State, last: int, ok: bool, unreadable: set<nat>)
    requires ValidConfig(cfg) && cfg.bigint && SortedRows(s.source) && CountedOnce(cfg, s)
    requires WorkerOf(s, 0) == Since(last)
    ensures CountedOnce(cfg, ApplyFetchNew(cfg, s, 0, last, ok, unreadable))
  {
    NewestBatchSorted(cfg, s.source, last, unreadable);
  }

  /** The steps that query: read the total, the checkpoint or the rows. */
  lemma {:induction false} QueryCountsOnce(cfg: Config, s: State, a: Action)
    requires ValidConfig(cfg) && cfg.bigint && Inv(cfg, s) && CountedOnce(cfg, s)
    requires (a.ReadMax? || a.ReadStart? || a.FetchChunk? || a.Stop? || a.ReadLast? || a.FetchNew?) && a.w == 0
    ensures CountedOnce(cfg, ApplyLive(cfg, s, a))
  {
    var worker := WorkerOf(s, 0);
    assert WorkerOk(cfg, s, worker);
    if a.FetchChunk? && worker.AtChunk? {
      FetchChunkCountsOnce(cfg, s, worker.cur, worker.total, a.unreadable);
    } else if a.FetchNew? && worker.Since? {
      FetchNewCountsOnce(cfg, s, worker.last, a.ok, a.unreadable);
    }
  }

  lemma {:induction false} WriteCountsOnce(cfg: Config, s: State, job: Job, attempt: nat)
    requires ValidConfig(cfg) && CountedOnce(cfg, s) && WorkerOf(s, 0) == Indexing(job, attempt, WritingCheckpoint)
    requires job.chunked ==> job.top == Min(job.from + cfg.chunkSize, job.total)
    ensures CountedOnce(cfg, ApplyLive(cfg, s, WriteCheckpoint(0)))
  {
  }

  lemma {:induction false} UnreachableCountsOnce(cfg: Config, s: State, job: Job, attempt: nat)
    requires ValidConfig(cfg) && JobOk(cfg, s, job) && CountedOnce(cfg, s) &&
      WorkerOf(s, 0) == Indexing(job, attempt, SendingMain)
    ensures CountedOnce(cfg, ApplyLive(cfg, s, Unreachable(0)))
  {
  }

  /** The steps that send and write. */
  lemma {:induction false} IndexCountsOnce(cfg: Config, s: State, a: Action)
    requires ValidConfig(cfg) && Inv(cfg, s) && CountedOnce(cfg, s)
    requires (a.Unreachable? || a.Send? || a.WriteCheckpoint?) && a.w == 0
    ensures CountedOnce(cfg, ApplyLive(cfg, s, a))
  {
    if WorkerOf(s, 0).Indexing? {
      var Indexing(job, attempt, phase) := WorkerOf(s, 0);
      assert WorkerOk(cfg, s, Indexing(job, attempt, phase));
      match a
      case Unreachable(_) =>
        if phase.SendingMain? {
          UnreachableCountsOnce(cfg, s, job, attempt);
        }
      case Send(_, ok) =>
        if !phase.WritingCheckpoint? {
          SendCountsOnce(cfg, s, job, attempt, phase, ok);
        }
      case WriteCheckpoint(_) =>
        if phase.WritingCheckpoint? {
          WriteCountsOnce(cfg, s, job, attempt);
        }
    }
  }

  lemma {:induction false} StepCountsOnce(cfg: Config, s: State, a: Action)
    requires ValidConfig(cfg) && cfg.bigint && Inv(cfg, s) && CountedOnce(cfg, s)
    requires a.Insert? || a.Other? || (!a.Crash? && a.w == 0)
    ensures CountedOnce(cfg, ApplyLive(cfg, s, a))
  {
    match a
    case Insert(_) =>
    case Other(_) =>
    case Unreachable(_) => IndexCountsOnce(cfg, s, a);
    case Send(_, _) => IndexCountsOnce(cfg, s, a);
    case WriteCheckpoint(_) => IndexCountsOnce(cfg, s, a);
    case _ => QueryCountsOnce(cfg, s, a);
  }

  /** With one sync run at a time and no restart, no record's statistics are ever sent twice,
      whatever sends fail and are retried. */
  lemma {:induction false} RunCountsOnce(cfg: Config, actions: seq<Action>)
    requires ValidConfig(cfg) && cfg.bigint && OneWorker(actions)
    ensures CountedOnce(cfg, Run(cfg, INITIAL, actions))
  {
    if actions != [] {
      var n := |actions| - 1;
      RunCountsOnce(cfg, actions[..n]);
      RunKeepsInv(cfg, actions[..n]);
      assert actions[n] in actions;
      StepCountsOnce(cfg, Run(cfg, INITIAL, actions[..n]), actions[n]);
    }
  }

  /** Sorted lists with the same members end with the same record. */
  lemma {:induction false} SameLast(a: seq<Record>, b: seq<Record>)
    requires SortedRows(a) && SortedRows(b) && a != [] && b != []
    requires forall r :: r in a <==> r in b
    ensures a[|a| - 1] == b[|b| - 1]
  {
    MaxKeyBounds(a);
    MaxKeyBounds(b);
    assert a[|a| - 1] in b && b[|b| - 1] in a;
    LastIsMax(a, b[|b| - 1]);
  }

  lemma {:induction false} SortedUnique(a: seq<Record>, b: seq<Record>)
    requires SortedRows(a) && SortedRows(b)
    requires forall r :: r in a <==> r in b
    ensures a == b
  {
    assert (a != [] ==> a[0] in b) && (b != [] ==> b[0] in a);
    if a != [] {
      var n, m := |a| - 1, |b| - 1;
      SameLast(a, b);
      forall r
        ensures r in a[..n] <==> r in b[..m]
      {
        LastOnce(a, r);
        LastOnce(b, r);
      }
      SortedUnique(a[..n], b[..m]);
      assert a == a[..n] + [a[n]] && b == b[..m] + [b[m]];
    }
  }

  lemma {:induction false} LastIsMax(rows: seq<Record>, r: Record)
    requires SortedRows(rows) && r in rows && r.key == MaxKey(rows)
    ensures r == rows[|rows| - 1]
  {
    MaxKeyBounds(rows[..|rows| - 1]);
  }

  lemma {:induction false} LastOnce(rows: seq<Record>, r: Record)
    requires SortedRows(rows) && rows != []
    ensures r in rows[..|rows| - 1] <==> r in rows && r != rows[|rows| - 1]
  {
    MaxKeyBounds(rows[..|rows| - 1]);
  }

  /** Exactly once: the summed count for a token hash is the number of source rows up to the
      watermark that contain it. Outside the moment between the last send and the checkpoint
      write, the watermark is the checkpoint. */
  lemma {:induction false} StatisticsExactlyOnce(cfg: Config, actions: seq<Action>, hash: nat)
    requires ValidConfig(cfg) && cfg.bigint && OneWorker(actions) && Faultless(actions)
    ensures var s := Run(cfg, INITIAL, actions);
      s.store.stats[Stat(hash, cfg.table)] == CountWith(cfg.fnv, Between(s.source, 0, Watermark(s)), hash)
  {
    var s := Run(cfg, INITIAL, actions);
    CountedRows(cfg, actions);
    RunKeepsInv(cfg, actions);
  }

  /** Exactly the rows up to the watermark are counted. */
  lemma {:induction false} CountedMembers(cfg: Config, s: State, r: Record)
    requires Inv(cfg, s) && CountedOnce(cfg, s) && s.skipped == {} && s.torn == {}
    ensures r in s.counted <==> r in Between(s.source, 0, Watermark(s))
  {
    WatermarkCovered(cfg, s);
    BetweenMembers(s.source, 0, Watermark(s));
    MaxKeyBounds(s.source);
    MaxKeyBounds(s.counted);
    if r in s.source && r.key <= Watermark(s) {
      assert RowCovered(cfg, s, r);
    }
  }

  lemma {:induction false} CountedRows(cfg: Config, actions: seq<Action>)
    requires ValidConfig(cfg) && cfg.bigint && OneWorker(actions) && Faultless(actions)
    ensures var s := Run(cfg, INITIAL, actions); s.counted == Between(s.source, 0, Watermark(s))
  {
    var s := Run(cfg, INITIAL, actions);
    RunKeepsInv(cfg, actions);
    RunCountsOnce(cfg, actions);
    FaultlessSkipsNothing(cfg, actions);
    NoCrashTearsNothing(cfg, actions);
    BetweenMembers(s.source, 0, Watermark(s));
    forall r
      ensures r in s.counted <==> r in Between(s.source, 0, Watermark(s))
    {
      CountedMembers(cfg, s, r);
    }
    SortedUnique(s.counted, Between(s.source, 0, Watermark(s)));
  }

  lemma {:induction false} WatermarkCovered(cfg: Config, s: State)
    requires Inv(cfg, s) && CountedOnce(cfg, s)
    ensures Covered(cfg, s, Watermark(s))
  {
    var worker := WorkerOf(s, 0);
    assert WorkerOk(cfg, s, worker);
    if worker.Indexing? && worker.phase.WritingCheckpoint? {
      JobCovered(cfg, s, worker.job, worker.attempt);
    }
  }
}
