/** Why each condition of the checkpoint and statistics theorems is there: which faults can break
    which guarantee, with the runs that do. */
module CdcFaults {
  import opened Collections
  import opened GlobalIds
  import opened SearchIndex
  import opened CdcSync
  import opened CdcSafety
  import opened CdcAccounting
  import opened CdcReach

  // ----- reaching the chunk loop -----

  /** A chunked run at the head of its loop, over the rows of the source. */
  function AtStart(source: seq<Record>): State {
    MoveTo(INITIAL.(source := source), 0, AtChunk(0, MaxKey(source)))
  }

  lemma {:induction false} ReachAtStart(cfg: Config, source: seq<Record>)
    requires ValidConfig(cfg) && MaxKey(source) > 0
    requires Reaches(cfg, By({0}), INITIAL, INITIAL.(source := source))
    ensures Reaches(cfg, By({0}), INITIAL, AtStart(source))
  {
    var s := INITIAL.(source := source);
    var sized := MoveTo(s, 0, Sized(MaxKey(source)));
    ReachStep(cfg, By({0}), s, ReadMax(0, true));
    ReachStep(cfg, By({0}), sized, ReadStart(0));
    MoveTwice(s, 0, Sized(MaxKey(source)), AtChunk(0, MaxKey(source)));
    ReachTrans(cfg, By({0}), INITIAL, s, sized);
    ReachTrans(cfg, By({0}), INITIAL, sized, AtStart(source));
  }

  lemma {:induction false} OneRowAtStart(cfg: Config, row: Record)
    requires ValidConfig(cfg) && row.key == 1
    ensures Reaches(cfg, By({0}), INITIAL, AtStart([row])) && SortedRows([row])
  {
    OneRowSorted(row);
    InsertRow(cfg, By({0}), INITIAL, row);
    ReachAtStart(cfg, [row]);
  }

  lemma {:induction false} TwoRowsAtStart(cfg: Config, row1: Record, row2: Record)
    requires ValidConfig(cfg) && row1.key == 1 && row2.key == 2
    ensures Reaches(cfg, By({0}), INITIAL, AtStart([row1, row2])) && SortedRows([row1, row2])
  {
    var s := INITIAL.(source := [row1]);
    OneRowSorted(row1);
    SortedSnoc([row1], row2);
    assert [row1] + [row2] == [row1, row2];
    InsertRow(cfg, By({0}), INITIAL, row1);
    InsertRow(cfg, By({0}), s, row2);
    ReachTrans(cfg, By({0}), INITIAL, s, INITIAL.(source := [row1, row2]));
    ReachAtStart(cfg, [row1, row2]);
  }

  /** The batch of a chunk, named by its members. */
  lemma {:induction false} ChunkBatchIs(cfg: Config, source: seq<Record>, cur: int, total: int, unreadable: set<nat>,
                                        rows: seq<Record>)
    requires SortedRows(source) && SortedRows(rows)
    requires forall r :: r in rows <==>
      r in source && cur < r.key <= Min(cur + cfg.chunkSize, total) && r.key !in unreadable
    ensures ChunkJob(cfg, source, cur, total, unreadable).batch == rows
  {
    var end := Min(cur + cfg.chunkSize, total);
    BetweenMembers(source, cur, end);
    ReadableMembers(Between(source, cur, end), unreadable);
    SortedUnique(ChunkJob(cfg, source, cur, total, unreadable).batch, rows);
  }

  // ----- rows that are never sent -----

  /** An unreachable index reports success: the checkpoint passes a row that was never sent. */
  lemma {:induction false} UnreachableLosesRow(cfg: Config, row: Record) returns (s: State)
    requires ValidConfig(cfg) && row.key == 1
    ensures Reaches(cfg, By({0}), INITIAL, s)
    ensures var t := ApplyLive(cfg, ApplyLive(cfg, s, Unreachable(0)), WriteCheckpoint(0));
      && t.source == [row] && t.checkpoint == row.key && !InMain(cfg, t.store.main, row)
      && t.counted == [] && Watermark(t) == row.key
  {
    var start := AtStart([row]);
    var job := ChunkJob(cfg, [row], 0, 1, {});
    OneRowAtStart(cfg, row);
    ChunkBatchIs(cfg, [row], 0, 1, {}, [row]);
    ChunkMoves(cfg, start, 0, 0, 1, {});
    ReachStep(cfg, By({0}), start, FetchChunk(0, {}));
    s := ApplyLive(cfg, start, FetchChunk(0, {}));
    ReachTrans(cfg, By({0}), INITIAL, start, s);
    UnreachablePasses(cfg, s, job, row);
  }

  lemma {:induction false} UnreachablePasses(cfg: Config, s: State, job: Job, row: Record)
    requires ValidConfig(cfg) && WorkerOf(s, 0) == Indexing(job, 0, SendingMain) && s.store == EMPTY_STORE
    ensures var t := ApplyLive(cfg, ApplyLive(cfg, s, Unreachable(0)), WriteCheckpoint(0));
      && t.source == s.source && t.checkpoint == job.upto && !InMain(cfg, t.store.main, row)
      && t.counted == s.counted && Watermark(t) == job.upto
  {
    var passed := ApplyLive(cfg, s, Unreachable(0));
    assert WorkerOf(passed, 0) == Indexing(job, 0, WritingCheckpoint);
    WriteMoves(cfg, passed, 0, job, 0);
  }

  /** Of two rows with the first unread, the first chunk holds the second row or nothing. */
  lemma {:induction false} FirstChunk(cfg: Config, row1: Record, row2: Record)
    requires ValidConfig(cfg) && row1.key == 1 && row2.key == 2 && SortedRows([row1, row2])
    ensures ChunkJob(cfg, [row1, row2], 0, 2, {1}).batch == if cfg.chunkSize > 1 then [row2] else []
  {
    SortedSnoc([], row2);
    assert [] + [row2] == [row2];
    ChunkBatchIs(cfg, [row1, row2], 0, 2, {1}, if cfg.chunkSize > 1 then [row2] else []);
  }

  lemma {:induction false} SecondChunk(cfg: Config, row1: Record, row2: Record)
    requires ValidConfig(cfg) && row1.key == 1 && row2.key == 2 && SortedRows([row1, row2])
    ensures ChunkJob(cfg, [row1, row2], 1, 2, {}).batch == [row2]
  {
    SortedSnoc([], row2);
    assert [] + [row2] == [row2];
    ChunkBatchIs(cfg, [row1, row2], 1, 2, {}, [row2]);
  }

  /** The state in which the chunk with the second row has been fetched, without the first. */
  lemma {:induction false} FetchSecondOnly(cfg: Config, row1: Record, row2: Record) returns (t: State, job: Job)
    requires ValidConfig(cfg) && row1.key == 1 && row2.key == 2 && SortedRows([row1, row2])
    ensures Reaches(cfg, By({0}), ApplyLive(cfg, AtStart([row1, row2]), FetchChunk(0, {1})), t)
    ensures WorkerOf(t, 0) == Indexing(job, 0, SendingMain) && job.batch == [row2] && job.upto == 2
    ensures t.source == [row1, row2] && t.store == EMPTY_STORE && t.counted == []
    ensures job.chunked
  {
    var rows := [row1, row2];
    var start := AtStart(rows);
    var first := ApplyLive(cfg, start, FetchChunk(0, {1}));
    FirstChunk(cfg, row1, row2);
    ChunkMoves(cfg, start, 0, 0, 2, {1});
    if cfg.chunkSize > 1 {
      ReachNothing(cfg, By({0}), first);
      return first, ChunkJob(cfg, rows, 0, 2, {1});
    }
    SecondChunk(cfg, row1, row2);
    ChunkMoves(cfg, first, 0, 1, 2, {});
    ReachStep(cfg, By({0}), first, FetchChunk(0, {}));
    t, job := ApplyLive(cfg, first, FetchChunk(0, {})), ChunkJob(cfg, rows, 1, 2, {});
  }

  /** A row no fetch could read is passed by the checkpoint of a later one. */
  lemma {:induction false} UnreadRowLost(cfg: Config, row1: Record, row2: Record) returns (s: State, t: State)
    requires ValidConfig(cfg) && row1.key == 1 && row2.key == 2
    ensures Reaches(cfg, By({0}), INITIAL, s) && Reaches(cfg, By({0}), ApplyLive(cfg, s, FetchChunk(0, {1})), t)
    ensures t.source == [row1, row2] && t.checkpoint == 2 && !InMain(cfg, t.store.main, row1)
    ensures t.counted == [row2] && Watermark(t) == 2
  {
    s := AtStart([row1, row2]);
    TwoRowsAtStart(cfg, row1, row2);
    var fetched, job := FetchSecondOnly(cfg, row1, row2);
    t := IndexChunk(cfg, By({0}), fetched, 0, job);
    ReachTrans(cfg, By({0}), ApplyLive(cfg, s, FetchChunk(0, {1})), fetched, t);
    OneMainRow(cfg, row2);
    PackOrder(TableId(cfg.fnv, cfg.table), 1, 2);
  }

  // ----- half-indexed rows and double counts -----

  /** A crash after the main send leaves a row at the recovered checkpoint without its tokens. */
  lemma {:induction false} CrashTearsRow(cfg: Config, row: Record, hash: nat) returns (s: State)
    requires ValidConfig(cfg) && 0 < row.key < LOCAL_SPAN && !row.deleted
    requires hash in TokenHashes(cfg.fnv, row.tokens)
    ensures Reaches(cfg, By({0}), INITIAL, s)
    ensures var t := ApplyCrash(cfg, s, true);
      && t.source == [row] && t.checkpoint == row.key && !InTokens(cfg, t.store.postings, row)
      && t.counted == [] && Watermark(t) == row.key
  {
    StartOne(cfg, By({0}), 0, row);
    var s0 := MoveTo(OneRow(row), 0, Indexing(LastJob(cfg, 0, row), 0, SendingMain));
    s := ApplySend(cfg, s0, 0, LastJob(cfg, 0, row), 0, SendingMain, true);
    SendPhase(cfg, By({0}), s0, 0, LastJob(cfg, 0, row), SendingMain);
    ReachTrans(cfg, By({0}), INITIAL, s0, s);
    OneMainRow(cfg, row);
    assert s.store.main == map[KeyOf(cfg, row.key) := row];
    OneRowRecovered(cfg, s.store, row);
  }

  lemma {:induction false} OneRowRecovered(cfg: Config, store: Store, row: Record)
    requires 0 < row.key < LOCAL_SPAN && !row.deleted && store.main == map[KeyOf(cfg, row.key) := row]
    ensures Recovered(cfg, store) == row.key
  {
    assert KeyOf(cfg, row.key) in store.main;
    assert LiveIds(cfg, store) == {RowId(cfg.fnv, cfg.table, row.key)};
    UnpackPack(TableId(cfg.fnv, cfg.table), row.key);
  }

  /** Two runs have fetched and sent the same row and are both about to write the checkpoint. */
  lemma {:induction false} BothHoldFirst(cfg: Config, via: Steps, row: Record) returns (s: State)
    requires ValidConfig(cfg) && {0, 1} <= via.runs && via.incremental && via.inserts && 0 < row.key < LOCAL_SPAN
    ensures Reaches(cfg, via, INITIAL, s) && s.source == [row] && s.counted == [row] + [row]
    ensures WorkerOf(s, 0) == WorkerOf(s, 1) == Indexing(LastJob(cfg, 0, row), 0, WritingCheckpoint)
  {
    var job := LastJob(cfg, 0, row);
    StartOne(cfg, via, 0, row);
    var s1 := MoveTo(OneRow(row), 0, Indexing(job, 0, SendingMain));
    OneRowSorted(row);
    FetchLast(cfg, via, s1, 1, [], row);
    var s2 := MoveTo(s1, 1, Indexing(job, 0, SendingMain));
    ReachTrans(cfg, via, INITIAL, s1, s2);
    Ingest(cfg, via, s2, 0, job);
    var s3 := Ingested(cfg, s2, 0, job);
    ReachTrans(cfg, via, INITIAL, s2, s3);
    Ingest(cfg, via, s3, 1, job);
    s := Ingested(cfg, s3, 1, job);
    ReachTrans(cfg, via, INITIAL, s3, s);
  }

  /** Two runs racing on one row count its tokens twice. */
  lemma {:induction false} RacingRunsCountTwice(cfg: Config, row: Record, hash: nat) returns (s: State)
    requires ValidConfig(cfg) && 0 < row.key < LOCAL_SPAN
    requires hash in TokenHashes(cfg.fnv, row.tokens)
    ensures Reaches(cfg, By({0, 1}), INITIAL, s) && s.source == [row] && s.store.stats[Stat(hash, cfg.table)] == 2
  {
    s := BothHoldFirst(cfg, By({0, 1}), row);
    ReachedInv(cfg, By({0, 1}), s);
    CountedTwice(cfg, s, row, hash);
  }

  lemma {:induction false} CountedTwice(cfg: Config, s: State, row: Record, hash: nat)
    requires s.counted == [row] + [row] && OwnStats(cfg, s.store.stats, s.counted)
    requires Contains(cfg.fnv, row, hash)
    ensures s.store.stats[Stat(hash, cfg.table)] == 2
  {
    assert ([row] + [row])[..1] == [row] && [row][..0] == [];
    assert CountWith(cfg.fnv, [row], hash) == 1;
  }

  /** One run syncs two rows while another still holds the first: when the slow one writes,
      the checkpoint goes back from the second key to the first. */
  lemma {:induction false} RacingRunsMoveCheckpointBack(cfg: Config, row1: Record, row2: Record) returns (s: State)
    requires ValidConfig(cfg) && cfg.bigint && 0 < row1.key < row2.key < LOCAL_SPAN
    ensures Reaches(cfg, By({0, 1}), INITIAL, s) && s.checkpoint == row2.key
    ensures ApplyLive(cfg, s, WriteCheckpoint(0)).checkpoint == row1.key
  {
    var s1 := BothHoldFirst(cfg, By({0, 1}), row1);
    var s2 := MoveTo(s1, 1, Idle).(checkpoint := row1.key);
    FinishRun(cfg, By({0, 1}), s1, 1, LastJob(cfg, 0, row1));
    ReachTrans(cfg, By({0, 1}), INITIAL, s1, s2);
    s := SyncSecond(cfg, By({0, 1}), s2, row1, row2);
    ReachTrans(cfg, By({0, 1}), INITIAL, s2, s);
    WriteMoves(cfg, s, 0, LastJob(cfg, 0, row1), 0);
  }

  lemma {:induction false} SyncSecond(cfg: Config, via: Steps, s: State, row1: Record, row2: Record) returns (t: State)
    requires ValidConfig(cfg) && cfg.bigint && 1 in via.runs && via.incremental && via.inserts &&
      0 < row1.key < row2.key < LOCAL_SPAN
    requires s.source == [row1] && s.checkpoint == row1.key && WorkerOf(s, 1) == Idle
    ensures Reaches(cfg, via, s, t) && t.checkpoint == row2.key && WorkerOf(t, 0) == WorkerOf(s, 0)
  {
    var s1 := s.(source := [row1] + [row2]);
    OneRowSorted(row1);
    SortedSnoc([row1], row2);
    InsertRow(cfg, via, s, row2);
    FetchLast(cfg, via, s1, 1, [row1], row2);
    var s2 := MoveTo(s1, 1, Indexing(LastJob(cfg, row1.key, row2), 0, SendingMain));
    ReachTrans(cfg, via, s, s1, s2);
    t := IngestAndFinish(cfg, via, s2, 1, LastJob(cfg, row1.key, row2));
    ReachTrans(cfg, via, s, s2, t);
  }

  // ----- exactly which faults break which guarantee -----

  /** The kinds of fault a run may contain. */
  datatype Faults = Faults(unread: bool, unreachable: bool, crash: bool)

  predicate Allowed(f: Faults, a: Action) {
    && (a.Unreachable? ==> f.unreachable)
    && (a.FetchChunk? || a.FetchNew? ==> a.unreadable == {} || f.unread)
    && (a.Crash? ==> f.crash)
  }

  predicate DrawnFrom(f: Faults, actions: seq<Action>) {
    forall a :: a in actions ==> Allowed(f, a)
  }

  /** Every row at or below the checkpoint has its main row. */
  ghost predicate MainSafe(cfg: Config, s: State) {
    forall r :: r in s.source && r.key <= s.checkpoint ==> MainRowSent(cfg, s, r)
  }

  /** Every row at or below the checkpoint has main row, tokens and statistics. */
  ghost predicate FullySafe(cfg: Config, s: State) {
    forall r :: r in s.source && r.key <= s.checkpoint ==>
      MainRowSent(cfg, s, r) && InTokens(cfg, s.store.postings, r) && r in s.counted
  }

  lemma {:induction false} CleanIsAllowed(f: Faults, via: Steps, actions: seq<Action>)
    requires CleanRun(via, actions)
    ensures DrawnFrom(f, actions)
  {
    forall a | a in actions
      ensures Allowed(f, a)
    {
      assert CleanStep(via, a);
    }
  }

  lemma {:induction false} DrawnThree(f: Faults, before: seq<Action>, a: Action, after: seq<Action>)
    requires DrawnFrom(f, before) && Allowed(f, a) && DrawnFrom(f, after)
    ensures DrawnFrom(f, before + [a] + after)
  {
    assert forall x :: x in before + [a] + after <==> x in before || x == a || x in after;
  }

  /** A clean run, a step, a clean run. */
  lemma {:induction false} JoinRuns(cfg: Config, f: Faults, via: Steps, s: State, a: Action, t: State)
    returns (actions: seq<Action>)
    requires ValidConfig(cfg) && Allowed(f, a)
    requires Reaches(cfg, via, INITIAL, s) && Reaches(cfg, via, Apply(cfg, s, a), t)
    ensures DrawnFrom(f, actions) && Run(cfg, INITIAL, actions) == t
  {
    var before :| CleanRun(via, before) && Run(cfg, INITIAL, before) == s;
    var after :| CleanRun(via, after) && Run(cfg, Apply(cfg, s, a), after) == t;
    RunThree(cfg, INITIAL, before, a, after);
    CleanIsAllowed(f, via, before);
    CleanIsAllowed(f, via, after);
    DrawnThree(f, before, a, after);
    actions := before + [a] + after;
  }

  lemma {:induction false} UnreachableBreaks(cfg: Config, f: Faults) returns (actions: seq<Action>)
    requires ValidConfig(cfg) && f.unreachable
    ensures DrawnFrom(f, actions) && !MainSafe(cfg, Run(cfg, INITIAL, actions))
  {
    var row := Record(1, [], false);
    var s := UnreachableLosesRow(cfg, row);
    var passed := ApplyLive(cfg, s, Unreachable(0));
    var t := ApplyLive(cfg, passed, WriteCheckpoint(0));
    ReachStep(cfg, By({0}), passed, WriteCheckpoint(0));
    actions := JoinRuns(cfg, f, By({0}), s, Unreachable(0), t);
    assert row in t.source;
  }

  lemma {:induction false} UnreadBreaks(cfg: Config, f: Faults) returns (actions: seq<Action>)
    requires ValidConfig(cfg) && f.unread
    ensures DrawnFrom(f, actions) && !MainSafe(cfg, Run(cfg, INITIAL, actions))
  {
    var row1, row2 := Record(1, [], false), Record(2, [], false);
    var s, t := UnreadRowLost(cfg, row1, row2);
    actions := JoinRuns(cfg, f, By({0}), s, FetchChunk(0, {1}), t);
    assert row1 in t.source;
  }

  lemma {:induction false} CrashBreaks(cfg: Config, f: Faults) returns (actions: seq<Action>)
    requires ValidConfig(cfg) && f.crash
    ensures DrawnFrom(f, actions) && !FullySafe(cfg, Run(cfg, INITIAL, actions))
  {
    var row := Record(1, ["ab"], false);
    var hash := HashToken(cfg.fnv, "ab");
    assert "ab" in row.tokens;
    var s := CrashTearsRow(cfg, row, hash);
    var t := ApplyCrash(cfg, s, true);
    ReachNothing(cfg, By({0}), t);
    actions := JoinRuns(cfg, f, By({0}), s, Crash(true), t);
    assert row in t.source;
  }

  /** Main rows: the runs drawn from a set of fault kinds are all safe exactly when the set has
      neither unread rows nor an unreachable index. Crashes do no harm. */
  lemma {:induction false} MainSafeIff(cfg: Config, f: Faults)
    requires ValidConfig(cfg)
    ensures (forall actions :: DrawnFrom(f, actions) ==> MainSafe(cfg, Run(cfg, INITIAL, actions))) <==>
      !f.unread && !f.unreachable
  {
    if f.unreachable {
      var actions := UnreachableBreaks(cfg, f);
    } else if f.unread {
      var actions := UnreadBreaks(cfg, f);
    } else {
      forall actions | DrawnFrom(f, actions)
        ensures MainSafe(cfg, Run(cfg, INITIAL, actions))
      {
        MainRowsSafe(cfg, actions);
      }
    }
  }

  lemma {:induction false} MainRowsSafe(cfg: Config, actions: seq<Action>)
    requires ValidConfig(cfg) && Faultless(actions)
    ensures MainSafe(cfg, Run(cfg, INITIAL, actions))
  {
    var s := Run(cfg, INITIAL, actions);
    FaultlessSkipsNothing(cfg, actions);
    forall r | r in s.source && r.key <= s.checkpoint
      ensures MainRowSent(cfg, s, r)
    {
      CheckpointIsSafe(cfg, actions, r);
    }
  }

  /** Complete indexing: all runs are safe exactly when there are no faults of any kind. */
  lemma {:induction false} FullySafeIff(cfg: Config, f: Faults)
    requires ValidConfig(cfg)
    ensures (forall actions :: DrawnFrom(f, actions) ==> FullySafe(cfg, Run(cfg, INITIAL, actions))) <==>
      !f.unread && !f.unreachable && !f.crash
  {
    if f.unreachable {
      var actions := UnreachableBreaks(cfg, f);
    } else if f.unread {
      var actions := UnreadBreaks(cfg, f);
    } else if f.crash {
      var actions := CrashBreaks(cfg, f);
    } else {
      forall actions | DrawnFrom(f, actions)
        ensures FullySafe(cfg, Run(cfg, INITIAL, actions))
      {
        CleanRunsSafe(cfg, actions);
      }
    }
  }

  lemma {:induction false} CleanRunsSafe(cfg: Config, actions: seq<Action>)
    requires ValidConfig(cfg) && Faultless(actions) && NoCrash(actions)
    ensures FullySafe(cfg, Run(cfg, INITIAL, actions))
  {
    var s := Run(cfg, INITIAL, actions);
    forall r | r in s.source && r.key <= s.checkpoint
      ensures MainRowSent(cfg, s, r) && InTokens(cfg, s.store.postings, r) && r in s.counted
    {
      CheckpointMeansIndexed(cfg, actions, r);
    }
  }
}
