/** The sync manager's code for one table: the chunk loop, the retry loop around the three
    sends, the incremental run and the start-up checkpoint. Between any two accesses to shared
    state other runs may take any number of steps; every execution is a run of CdcSync. */
module CdcManager {
  import opened Collections
  import opened GlobalIds
  import opened SearchIndex
  import opened CdcSync
  import opened CdcSafety

  datatype SyncResult = Synced | Rejected | Stopped | DeadLettered | QueryFailed

  lemma {:induction false} InsertGrows(s: State, row: Record)
    requires SortedRows(s.source) && MaxKey(s.source) < row.key
    ensures Grows(s, s.(source := s.source + [row]))
  {
    assert forall r :: r in s.source + [row] <==> r in s.source || r == row;
  }

  lemma {:induction false} StepGrows(cfg: Config, s: State, a: Action)
    requires ValidConfig(cfg) && SortedRows(s.source)
    ensures Grows(s, ApplyLive(cfg, s, a))
  {
    match a
    case Insert(row) =>
      if MaxKey(s.source) < row.key < LOCAL_SPAN {
        InsertGrows(s, row);
      }
    case Other(op) =>
      if op.table != cfg.table {
        OtherLeavesOwn(cfg, s.store, op);
      }
    case Send(w, ok) => SendGrows(cfg, s, w, ok);
    case _ =>
  }

  lemma SendGrows(cfg: Config, s: State, w: nat, ok: bool)
    requires ValidConfig(cfg)
    ensures Grows(s, ApplyLive(cfg, s, Send(w, ok)))
  {
  }

  lemma GrowsTrans(s: State, t: State, u: State)
    requires Grows(s, t) && Grows(t, u)
    ensures Grows(s, u)
  {
  }

  /** A step of another run, a new source row, or an index operation of another table. */
  predicate ByOther(a: Action, w: nat) {
    match a
    case Insert(_) => true
    case Other(_) => true
    case Crash(_) => false
    case ReadMax(v, _) => v != w
    case ReadStart(v) => v != w
    case FetchChunk(v, _) => v != w
    case Stop(v) => v != w
    case ReadLast(v) => v != w
    case FetchNew(v, _, _) => v != w
    case Unreachable(v) => v != w
    case Send(v, _) => v != w
    case WriteCheckpoint(v) => v != w
  }

  lemma OtherKeepsWorker(cfg: Config, s: State, a: Action, w: nat)
    requires ValidConfig(cfg) && ByOther(a, w)
    ensures WorkerOf(ApplyLive(cfg, s, a), w) == WorkerOf(s, w)
  {
  }

  /** State `s` is the end of a run from `s0` that crashes nowhere. */
  ghost predicate Ran(cfg: Config, s0: State, actions: seq<Action>, s: State) {
    ValidConfig(cfg) && Inv(cfg, s) && s == Run(cfg, s0, actions) && NoCrash(actions) && Grows(s0, s)
  }

  lemma RanNothing(cfg: Config, s: State)
    requires ValidConfig(cfg) && Inv(cfg, s)
    ensures Ran(cfg, s, [], s)
  {
  }

  /** One more step at the end of a run. */
  lemma {:induction false} Advance(cfg: Config, s0: State, actions: seq<Action>, s: State, a: Action)
    requires Ran(cfg, s0, actions, s) && !a.Crash?
    ensures Ran(cfg, s0, actions + [a], ApplyLive(cfg, s, a))
    ensures Grows(s, ApplyLive(cfg, s, a))
  {
    assert (actions + [a])[..|actions|] == actions;
    StepKeepsInv(cfg, s, a);
    StepGrows(cfg, s, a);
    GrowsTrans(s0, s, ApplyLive(cfg, s, a));
  }

  /** How many sends of a run the index refused. */
  function Refused(actions: seq<Action>, w: nat): nat {
    if actions == [] then 0
    else Refused(actions[..|actions| - 1], w) + if actions[|actions| - 1] == Send(w, false) then 1 else 0
  }

  /** The run went on, and the index refused so many more of its sends. */
  ghost predicate Continues(before: seq<Action>, actions: seq<Action>, w: nat, refused: nat) {
    before <= actions && Refused(actions, w) == Refused(before, w) + refused
  }

  lemma {:induction false} ContinuesNext(before: seq<Action>, actions: seq<Action>, a: Action, w: nat, refused: nat)
    requires Continues(before, actions, w, refused)
    ensures Continues(before, actions + [a], w, refused + if a == Send(w, false) then 1 else 0)
  {
    assert (actions + [a])[..|actions|] == actions;
  }

  lemma ContinuesTrans(before: seq<Action>, actions: seq<Action>, after: seq<Action>, w: nat, m: nat, n: nat)
    requires Continues(before, actions, w, m) && Continues(actions, after, w, n)
    ensures Continues(before, after, w, m + n)
  {
  }

  lemma {:induction false} RefusedSuffix(before: seq<Action>, actions: seq<Action>, w: nat)
    requires before <= actions
    ensures Refused(actions, w) == Refused(before, w) + Refused(actions[|before|..], w)
  {
    var n := |actions| - 1;
    if |before| == |actions| {
      assert actions == before && actions[|before|..] == [];
    } else {
      RefusedSuffix(before, actions[..n], w);
      assert actions[|before|..][..n - |before|] == actions[..n][|before|..];
    }
  }

  function NextPhase(phase: Phase): Phase {
    match phase
    case SendingMain => SendingTokens
    case SendingTokens => SendingStats
    case SendingStats => WritingCheckpoint
    case WritingCheckpoint => WritingCheckpoint
  }

  /** Where a run stands after a failed attempt. */
  function AfterFailure(cfg: Config, job: Job, attempt: nat): Worker {
    if attempt + 1 < cfg.maxRetries then Indexing(job, attempt + 1, SendingMain) else Idle
  }

  lemma SendMoves(cfg: Config, s: State, w: nat, job: Job, attempt: nat, phase: Phase, ok: bool)
    requires ValidConfig(cfg) && WorkerOf(s, w) == Indexing(job, attempt, phase) && !phase.WritingCheckpoint?
    ensures WorkerOf(ApplyLive(cfg, s, Send(w, ok)), w) ==
      if ok then Indexing(job, attempt, NextPhase(phase)) else AfterFailure(cfg, job, attempt)
  {
  }

  lemma UnreachableMoves(cfg: Config, s: State, w: nat, job: Job, attempt: nat)
    requires ValidConfig(cfg) && WorkerOf(s, w) == Indexing(job, attempt, SendingMain)
    ensures WorkerOf(ApplyLive(cfg, s, Unreachable(w)), w) == Indexing(job, attempt, WritingCheckpoint)
  {
  }

  lemma NewMoves(cfg: Config, s: State, w: nat, last: int, ok: bool, unreadable: set<nat>)
    requires ValidConfig(cfg) && WorkerOf(s, w) == Since(last)
    ensures WorkerOf(ApplyLive(cfg, s, FetchNew(w, ok, unreadable)), w) ==
      var job := NewestJob(cfg, s.source, last, unreadable);
      if ok && job.batch != [] then Indexing(job, 0, SendingMain) else Idle
  {
  }

  lemma StopMoves(cfg: Config, s: State, w: nat, cur: int, total: int)
    requires ValidConfig(cfg) && WorkerOf(s, w) == AtChunk(cur, total)
    ensures WorkerOf(ApplyLive(cfg, s, Stop(w)), w) == Idle
  {
  }

  class Manager {
    const cfg: Config

    // the source table and the search index
    var source: seq<Record>
    var store: Store
    var deadLetters: seq<DeadLetter>
    // the manager's own map, guarded by its mutex
    var lastSyncedID: map<string, int>
    // bookkeeping: where every run stands, and the history the theorems speak of
    var runs: map<nat, Worker>
    var skipped: set<nat>
    var torn: set<nat>
    var counted: seq<Record>

    function Checkpoint(): int
      reads this
    {
      if cfg.table in lastSyncedID then lastSyncedID[cfg.table] else 0
    }

    function Abs(): State
      reads this
    {
      State(source, Checkpoint(), store, deadLetters, runs, skipped, torn, counted)
    }

    predicate LastLetter(letter: DeadLetter)
      reads this
    {
      deadLetters != [] && deadLetters[|deadLetters| - 1] == letter
    }

    ghost predicate Valid()
      reads this
    {
      ValidConfig(cfg) && Inv(cfg, Abs())
    }

    constructor (cfg: Config)
      requires ValidConfig(cfg)
      ensures this.cfg == cfg && Abs() == INITIAL && Valid()
    {
      this.cfg := cfg;
      source, store, deadLetters, lastSyncedID := [], EMPTY_STORE, [], map[];
      runs, skipped, torn, counted := map[], {}, {}, [];
      new;
      assert Run(cfg, INITIAL, []) == INITIAL;
      RunKeepsInv(cfg, []);
    }

    // ----- single accesses to shared state -----

    method Install(s: State)
      modifies this
      ensures Abs() == s
    {
      source, store, deadLetters := s.source, s.store, s.deadLetters;
      lastSyncedID := lastSyncedID[cfg.table := s.checkpoint];
      runs, skipped, torn, counted := s.workers, s.skipped, s.torn, s.counted;
    }

    /** Any number of steps of the other runs and of the source's writers. */
    method Interfere(w: nat, ghost s0: State, ghost before: seq<Action>) returns (ghost actions: seq<Action>)
      requires Ran(cfg, s0, before, Abs())
      modifies this
      ensures Ran(cfg, s0, actions, Abs())
      ensures Grows(old(Abs()), Abs()) && WorkerOf(Abs(), w) == old(WorkerOf(Abs(), w))
      ensures Continues(before, actions, w, 0)
    {
      actions := before;
      ghost var start := Abs();
      var others: seq<Action> := *;
      for i := 0 to |others|
        invariant Ran(cfg, s0, actions, Abs())
        invariant Grows(start, Abs()) && WorkerOf(Abs(), w) == WorkerOf(start, w)
        invariant Continues(before, actions, w, 0)
      {
        var a := others[i];
        if ByOther(a, w) {
          ghost var s := Abs();
          OtherKeepsWorker(cfg, s, a, w);
          Advance(cfg, s0, actions, s, a);
          Install(ApplyLive(cfg, Abs(), a));
          GrowsTrans(start, s, Abs());
          ContinuesNext(before, actions, a, w, 0);
          actions := actions + [a];
        }
      }
    }

    /** SELECT COALESCE(MAX(key), 0); on failure the total stays 0. */
    method QueryMax(w: nat) returns (totalRows: int, ok: bool)
      requires ValidConfig(cfg) && WorkerOf(Abs(), w).Idle?
      modifies this
      ensures Abs() == ApplyLive(cfg, old(Abs()), ReadMax(w, ok))
      ensures totalRows == if ok then MaxKey(source) else 0
    {
      ok := *;
      totalRows := 0;
      if ok {
        totalRows := MaxKey(source);
      }
      runs := runs[w := Sized(totalRows)];
    }

    /** Read the checkpoint; nothing to do when it has reached the total. */
    method ReadStartID(w: nat, totalRows: int) returns (startID: int)
      requires ValidConfig(cfg) && WorkerOf(Abs(), w) == Sized(totalRows)
      modifies this
      ensures Abs() == ApplyLive(cfg, old(Abs()), ReadStart(w))
      ensures startID == Checkpoint()
    {
      startID := Checkpoint();
      runs := runs[w := if startID >= totalRows then Idle else AtChunk(startID, totalRows)];
    }

    /** Query the rows of (currentID, endID]; rows that fail to decode, or all of them when the
        query fails, are left out. */
    method QueryChunk(w: nat, currentID: int, totalRows: int) returns (job: Job, ghost unreadable: set<nat>)
      requires ValidConfig(cfg) && WorkerOf(Abs(), w) == AtChunk(currentID, totalRows)
      modifies this
      ensures Abs() == ApplyLive(cfg, old(Abs()), FetchChunk(w, unreadable))
      ensures job == ChunkJob(cfg, old(source), currentID, totalRows, unreadable)
    {
      var endID := currentID + cfg.chunkSize;
      if endID > totalRows {
        endID := totalRows;
      }
      var failing: set<nat> := *;
      unreadable := failing;
      var rows := Between(source, currentID, endID);
      var records := DecodeRows(rows, failing);
      job := Job(records, currentID, endID, endID, true, totalRows);
      assert job == ChunkJob(cfg, source, currentID, totalRows, failing);
      skipped := skipped + Keys(rows) * failing;
      runs := runs[w := if records == [] then NextChunk(cfg, currentID, totalRows) else Indexing(job, 0, SendingMain)];
    }

    /** Query the rows above the last synced id, at most one batch of them. */
    method QueryNew(w: nat, lastID: int) returns (job: Job, ok: bool, ghost unreadable: set<nat>)
      requires ValidConfig(cfg) && SortedRows(source) && WorkerOf(Abs(), w) == Since(lastID)
      modifies this
      ensures Abs() == ApplyLive(cfg, old(Abs()), FetchNew(w, ok, unreadable))
      ensures ok ==> job == NewestJob(cfg, old(source), lastID, unreadable)
      ensures !ok ==> job == Job([], lastID, 0, 0, false, 0)
    {
      var failing: set<nat> := *;
      ok := *;
      unreadable := failing;
      job := Job([], lastID, 0, 0, false, 0);
      if !ok {
        runs := runs[w := Idle];
        return;
      }
      var rows := Newest(source, lastID, cfg.batchSize);
      var records := DecodeRows(rows, failing);
      NewestBatchSorted(cfg, source, lastID, failing);
      var newMaxID := LargestID(cfg, records);
      job := Job(records, lastID, MaxKey(records), newMaxID, false, 0);
      skipped := skipped + Keys(rows) * failing;
      runs := runs[w := if records == [] then Idle else Indexing(job, 0, SendingMain)];
    }

    method ReadLastID(w: nat) returns (lastID: int)
      requires ValidConfig(cfg) && WorkerOf(Abs(), w).Idle?
      modifies this
      ensures Abs() == ApplyLive(cfg, old(Abs()), ReadLast(w))
      ensures lastID == Checkpoint()
    {
      lastID := Checkpoint();
      runs := runs[w := Since(lastID)];
    }

    /** A failed attempt is retried from the first send, or ends in the dead-letter table. */
    method Fail(w: nat, job: Job, attempt: nat)
      modifies this
      ensures Abs() == FailAttempt(cfg, old(Abs()), w, job, attempt)
    {
      if attempt + 1 < cfg.maxRetries {
        runs := runs[w := Indexing(job, attempt + 1, SendingMain)];
      } else {
        deadLetters := deadLetters + [DeadLetter(job.from, job.upto)];
        runs := runs[w := Idle];
      }
    }

    /** Send one of the three batches; the index takes all of it or nothing. */
    method SendBatch(w: nat, job: Job, attempt: nat, phase: Phase,
                     batch: seq<MainRow>, tokenBatch: seq<Posting>, statsBatch: seq<Stat>)
      returns (ok: bool)
      requires ValidConfig(cfg) && WorkerOf(Abs(), w) == Indexing(job, attempt, phase) && !phase.WritingCheckpoint?
      requires batch == MainBatch(cfg.fnv, cfg.table, job.batch)
      requires Elements(tokenBatch) == Postings(cfg.fnv, cfg.table, job.batch)
      requires multiset(statsBatch) == StatRows(cfg.fnv, cfg.table, job.batch)
      modifies this
      ensures Abs() == ApplyLive(cfg, old(Abs()), Send(w, ok))
    {
      ok := *;
      if !ok {
        Fail(w, job, attempt);
        return;
      }
      match phase
      case SendingMain =>
        store := SendMain(store, LoadMain(batch));
        runs := runs[w := Indexing(job, attempt, SendingTokens)];
      case SendingTokens =>
        store := SendTokens(store, Elements(tokenBatch));
        runs := runs[w := Indexing(job, attempt, SendingStats)];
      case SendingStats =>
        store := SendStats(store, multiset(statsBatch));
        counted := counted + job.batch;
        runs := runs[w := Indexing(job, attempt, WritingCheckpoint)];
    }

    /** BulkIndex finds the index unreachable and reports success without sending anything. */
    method SkipUnreachable(w: nat, job: Job, attempt: nat)
      requires ValidConfig(cfg) && WorkerOf(Abs(), w) == Indexing(job, attempt, SendingMain)
      modifies this
      ensures Abs() == ApplyLive(cfg, old(Abs()), Unreachable(w))
    {
      skipped := skipped + Keys(job.batch);
      runs := runs[w := Indexing(job, attempt, WritingCheckpoint)];
    }

    /** Write the checkpoint of a finished batch under the lock. */
    method WriteLastSyncedID(w: nat, job: Job, attempt: nat, endID: int)
      requires ValidConfig(cfg) && WorkerOf(Abs(), w) == Indexing(job, attempt, WritingCheckpoint) && endID == job.upto
      modifies this
      ensures Abs() == ApplyLive(cfg, old(Abs()), WriteCheckpoint(w))
    {
      lastSyncedID := lastSyncedID[cfg.table := endID];
      runs := runs[w := if job.chunked then NextChunk(cfg, job.from, job.total) else Idle];
    }

    /** The stop channel is polled at the head of the chunk loop. */
    method PollStop(w: nat, currentID: int, totalRows: int) returns (stop: bool)
      requires ValidConfig(cfg) && WorkerOf(Abs(), w) == AtChunk(currentID, totalRows)
      modifies this
      ensures Abs() == if stop then ApplyLive(cfg, old(Abs()), Stop(w)) else old(Abs())
    {
      stop := *;
      if stop {
        runs := runs[w := Idle];
      }
    }

    // ----- the code -----

    /** One send, with the other runs' steps before it. */
    method TrySend(w: nat, job: Job, attempt: nat, phase: Phase,
                   batch: seq<MainRow>, tokenBatch: seq<Posting>, statsBatch: seq<Stat>,
                   ghost s0: State, ghost before: seq<Action>)
      returns (ok: bool, ghost actions: seq<Action>)
      requires Ran(cfg, s0, before, Abs())
      requires WorkerOf(Abs(), w) == Indexing(job, attempt, phase) && !phase.WritingCheckpoint?
      requires batch == MainBatch(cfg.fnv, cfg.table, job.batch)
      requires Elements(tokenBatch) == Postings(cfg.fnv, cfg.table, job.batch)
      requires multiset(statsBatch) == StatRows(cfg.fnv, cfg.table, job.batch)
      modifies this
      ensures Ran(cfg, s0, actions, Abs())
      ensures WorkerOf(Abs(), w) ==
        if ok then Indexing(job, attempt, NextPhase(phase)) else AfterFailure(cfg, job, attempt)
      ensures Continues(before, actions, w, if ok then 0 else 1)
      ensures !ok && attempt + 1 == cfg.maxRetries ==> LastLetter(DeadLetter(job.from, job.upto))
    {
      actions := Interfere(w, s0, before);
      ghost var s := Abs();
      ok := SendBatch(w, job, attempt, phase, batch, tokenBatch, statsBatch);
      Advance(cfg, s0, actions, s, Send(w, ok));
      ContinuesNext(before, actions, Send(w, ok), w, 0);
      actions := actions + [Send(w, ok)];
      SendMoves(cfg, s, w, job, attempt, phase, ok);
    }

    method SkipSending(w: nat, job: Job, attempt: nat, ghost s0: State, ghost before: seq<Action>)
      returns (ghost actions: seq<Action>)
      requires Ran(cfg, s0, before, Abs()) && WorkerOf(Abs(), w) == Indexing(job, attempt, SendingMain)
      modifies this
      ensures Ran(cfg, s0, actions, Abs()) && WorkerOf(Abs(), w) == Indexing(job, attempt, WritingCheckpoint)
      ensures Continues(before, actions, w, 0)
    {
      actions := Interfere(w, s0, before);
      ghost var s := Abs();
      SkipUnreachable(w, job, attempt);
      UnreachableMoves(cfg, s, w, job, attempt);
      Advance(cfg, s0, actions, s, Unreachable(w));
      ContinuesNext(before, actions, Unreachable(w), w, 0);
      actions := actions + [Unreachable(w)];
    }

    /** One call of BulkIndex: prepare the three batches, then send them in order. */
    method BulkIndex(w: nat, job: Job, attempt: nat, ghost s0: State, ghost before: seq<Action>)
      returns (done: bool, ghost actions: seq<Action>)
      requires Ran(cfg, s0, before, Abs()) && WorkerOf(Abs(), w) == Indexing(job, attempt, SendingMain)
      modifies this
      ensures Ran(cfg, s0, actions, Abs())
      ensures WorkerOf(Abs(), w) ==
        if done then Indexing(job, attempt, WritingCheckpoint) else AfterFailure(cfg, job, attempt)
      ensures Continues(before, actions, w, if done then 0 else 1)
      ensures !done && attempt + 1 == cfg.maxRetries ==> LastLetter(DeadLetter(job.from, job.upto))
    {
      var available: bool := *;
      if !available {
        actions := SkipSending(w, job, attempt, s0, before);
        return true, actions;
      }
      var batch, tokenBatch, statsBatch := PrepareBatches(cfg.fnv, cfg.table, job.batch);
      done, actions := TrySend(w, job, attempt, SendingMain, batch, tokenBatch, statsBatch, s0, before);
      if !done {
        return;
      }
      ghost var main := actions;
      done, actions := TrySend(w, job, attempt, SendingTokens, batch, tokenBatch, statsBatch, s0, main);
      ContinuesTrans(before, main, actions, w, 0, if done then 0 else 1);
      if !done {
        return;
      }
      ghost var tokens := actions;
      done, actions := TrySend(w, job, attempt, SendingStats, batch, tokenBatch, statsBatch, s0, tokens);
      ContinuesTrans(before, tokens, actions, w, 0, if done then 0 else 1);
    }

    /** The retry loop: success before the last refusal, or as many refusals as there may be tries
        and then the batch's range in the dead-letter table. */
    method IngestWithRetries(w: nat, job: Job, ghost s0: State, ghost before: seq<Action>)
      returns (ok: bool, attempt: nat, ghost actions: seq<Action>)
      requires Ran(cfg, s0, before, Abs()) && WorkerOf(Abs(), w) == Indexing(job, 0, SendingMain)
      modifies this
      ensures Ran(cfg, s0, actions, Abs())
      ensures WorkerOf(Abs(), w) == if ok then Indexing(job, attempt, WritingCheckpoint) else Idle
      ensures before <= actions && Refused(actions[|before|..], w) == attempt
      ensures ok <==> attempt < cfg.maxRetries
      ensures !ok ==> attempt == cfg.maxRetries && LastLetter(DeadLetter(job.from, job.upto))
    {
      actions := before;
      attempt := 0;
      ok := false;
      while attempt < cfg.maxRetries
        invariant Ran(cfg, s0, actions, Abs())
        invariant WorkerOf(Abs(), w) == if attempt < cfg.maxRetries then Indexing(job, attempt, SendingMain) else Idle
        invariant attempt <= cfg.maxRetries && !ok
        invariant Continues(before, actions, w, attempt)
        invariant attempt == cfg.maxRetries ==> LastLetter(DeadLetter(job.from, job.upto))
        decreases cfg.maxRetries - attempt
      {
        ghost var sofar := actions;
        ok, actions := BulkIndex(w, job, attempt, s0, actions);
        ContinuesTrans(before, sofar, actions, w, attempt, if ok then 0 else 1);
        if ok {
          RefusedSuffix(before, actions, w);
          return;
        }
        attempt := attempt + 1;
      }
      RefusedSuffix(before, actions, w);
    }

    /** The initial or triggered sync: index everything between the checkpoint and the largest
        key read at the start, chunk by chunk. It is rejected without a step when the table's name is
        invalid, it is unknown or has no key, or its index cannot be created. When it reports success,
        every row up to that key is indexed, or was skipped or torn, whatever the other runs did
        meanwhile. */
    method SyncTableChunked(w: nat)
      returns (result: SyncResult, totalRows: int, sized: bool, ghost actions: seq<Action>)
      requires Valid() && WorkerOf(Abs(), w).Idle?
      modifies this
      ensures Ran(cfg, old(Abs()), actions, Abs()) && WorkerOf(Abs(), w).Idle?
      ensures result.Synced? ==> Covered(cfg, Abs(), totalRows)
      ensures sized ==> MaxKey(old(source)) <= totalRows
      ensures result.Rejected? ==> actions == [] && Abs() == old(Abs())
    {
      ghost var s0 := Abs();
      RanNothing(cfg, s0);
      var prepared: bool := *;
      if !prepared {
        return Rejected, 0, false, [];
      }
      totalRows, sized, actions := SizeTable(w, s0);
      var startID, started;
      startID, started, actions := StartChunks(w, totalRows, s0, actions);
      if !started {
        return Synced, totalRows, sized, actions;
      }
      result, actions := SyncChunks(w, startID, totalRows, s0, actions);
    }

    /** The chunk loop. */
    method SyncChunks(w: nat, startID: int, totalRows: int, ghost s0: State, ghost before: seq<Action>)
      returns (result: SyncResult, ghost actions: seq<Action>)
      requires Ran(cfg, s0, before, Abs()) && WorkerOf(Abs(), w) == AtChunk(startID, totalRows)
      requires startID < totalRows
      modifies this
      ensures Ran(cfg, s0, actions, Abs()) && WorkerOf(Abs(), w).Idle?
      ensures result.Synced? ==> Covered(cfg, Abs(), totalRows)
      ensures !result.Rejected?
    {
      var currentID := startID;
      result, actions := Synced, before;
      while currentID < totalRows
        invariant Ran(cfg, s0, actions, Abs())
        invariant WorkerOf(Abs(), w) == if currentID < totalRows then AtChunk(currentID, totalRows) else Idle
        invariant currentID >= totalRows ==> Covered(cfg, Abs(), totalRows)
        invariant !result.Rejected?
        decreases totalRows - currentID
      {
        result, actions := SyncChunk(w, currentID, totalRows, s0, actions);
        if !result.Synced? {
          return;
        }
        currentID := currentID + cfg.chunkSize;
      }
      result := Synced;
    }

    method SizeTable(w: nat, ghost s0: State) returns (totalRows: int, ok: bool, ghost actions: seq<Action>)
      requires Ran(cfg, s0, [], Abs()) && WorkerOf(Abs(), w).Idle?
      modifies this
      ensures Ran(cfg, s0, actions, Abs()) && WorkerOf(Abs(), w) == Sized(totalRows)
      ensures ok ==> MaxKey(old(source)) <= totalRows
    {
      actions := Interfere(w, s0, []);
      ghost var s := Abs();
      totalRows, ok := QueryMax(w);
      Advance(cfg, s0, actions, s, ReadMax(w, ok));
      actions := actions + [ReadMax(w, ok)];
    }

    method StartChunks(w: nat, totalRows: int, ghost s0: State, ghost before: seq<Action>)
      returns (startID: int, started: bool, ghost actions: seq<Action>)
      requires Ran(cfg, s0, before, Abs()) && WorkerOf(Abs(), w) == Sized(totalRows)
      modifies this
      ensures Ran(cfg, s0, actions, Abs())
      ensures WorkerOf(Abs(), w) == if started then AtChunk(startID, totalRows) else Idle
      ensures started ==> startID < totalRows && Covered(cfg, Abs(), startID) && totalRows <= MaxKey(source)
      ensures !started ==> Covered(cfg, Abs(), totalRows)
    {
      actions := Interfere(w, s0, before);
      ghost var s := Abs();
      startID := ReadStartID(w, totalRows);
      started := startID < totalRows;
      Advance(cfg, s0, actions, s, ReadStart(w));
      actions := actions + [ReadStart(w)];
      assert WorkerOk(cfg, Abs(), WorkerOf(Abs(), w));
    }

    /** One iteration of the chunk loop. */
    method SyncChunk(w: nat, currentID: int, totalRows: int, ghost s0: State, ghost before: seq<Action>)
      returns (outcome: SyncResult, ghost actions: seq<Action>)
      requires Ran(cfg, s0, before, Abs()) && WorkerOf(Abs(), w) == AtChunk(currentID, totalRows)
      modifies this
      ensures Ran(cfg, s0, actions, Abs())
      ensures WorkerOf(Abs(), w) == if outcome.Synced? then NextChunk(cfg, currentID, totalRows) else Idle
      ensures !outcome.Rejected?
      ensures outcome.Synced? ==>
        Covered(cfg, Abs(), Min(currentID + cfg.chunkSize, totalRows)) && totalRows <= MaxKey(source)
      ensures outcome.DeadLettered? ==> LastLetter(DeadLetter(currentID, Min(currentID + cfg.chunkSize, totalRows)))
    {
      var stop;
      stop, actions := CheckStop(w, currentID, totalRows, s0, before);
      if stop {
        return Stopped, actions;
      }
      var job;
      job, actions := FetchRows(w, currentID, totalRows, s0, actions);
      if job.batch == [] {
        return Synced, actions;
      }
      var ok, attempt;
      ok, attempt, actions := IngestWithRetries(w, job, s0, actions);
      if !ok {
        return DeadLettered, actions;
      }
      actions := Finish(w, job, attempt, s0, actions);
      return Synced, actions;
    }

    method CheckStop(w: nat, currentID: int, totalRows: int, ghost s0: State, ghost before: seq<Action>)
      returns (stop: bool, ghost actions: seq<Action>)
      requires Ran(cfg, s0, before, Abs()) && WorkerOf(Abs(), w) == AtChunk(currentID, totalRows)
      modifies this
      ensures Ran(cfg, s0, actions, Abs())
      ensures WorkerOf(Abs(), w) == if stop then Idle else AtChunk(currentID, totalRows)
    {
      actions := Interfere(w, s0, before);
      ghost var s := Abs();
      stop := PollStop(w, currentID, totalRows);
      if !stop {
        return;
      }
      StopMoves(cfg, s, w, currentID, totalRows);
      Advance(cfg, s0, actions, s, Stop(w));
      actions := actions + [Stop(w)];
    }

    method FetchRows(w: nat, currentID: int, totalRows: int, ghost s0: State, ghost before: seq<Action>)
      returns (job: Job, ghost actions: seq<Action>)
      requires Ran(cfg, s0, before, Abs()) && WorkerOf(Abs(), w) == AtChunk(currentID, totalRows)
      modifies this
      ensures Ran(cfg, s0, actions, Abs())
      ensures job.chunked && job.from == currentID && job.total == totalRows
      ensures job.upto == job.top == Min(currentID + cfg.chunkSize, totalRows)
      ensures WorkerOf(Abs(), w) ==
        if job.batch == [] then NextChunk(cfg, currentID, totalRows) else Indexing(job, 0, SendingMain)
      ensures job.batch == [] ==> Covered(cfg, Abs(), job.top) && totalRows <= MaxKey(source)
    {
      actions := Interfere(w, s0, before);
      ghost var s := Abs();
      ghost var unreadable;
      job, unreadable := QueryChunk(w, currentID, totalRows);
      ChunkMoves(cfg, s, w, currentID, totalRows, unreadable);
      Advance(cfg, s0, actions, s, FetchChunk(w, unreadable));
      actions := actions + [FetchChunk(w, unreadable)];
      if job.batch == [] {
        EmptyChunkCovered(cfg, s, w, currentID, totalRows, unreadable);
      }
    }

    /** After the last send: write the checkpoint; everything up to it is indexed. */
    method Finish(w: nat, job: Job, attempt: nat, ghost s0: State, ghost before: seq<Action>)
      returns (ghost actions: seq<Action>)
      requires Ran(cfg, s0, before, Abs()) && WorkerOf(Abs(), w) == Indexing(job, attempt, WritingCheckpoint)
      modifies this
      ensures Ran(cfg, s0, actions, Abs())
      ensures WorkerOf(Abs(), w) == if job.chunked then NextChunk(cfg, job.from, job.total) else Idle
      ensures Covered(cfg, Abs(), job.top) && Checkpoint() == job.upto
      ensures job.chunked ==> job.total <= MaxKey(source)
    {
      actions := Interfere(w, s0, before);
      ghost var s := Abs();
      WriteLastSyncedID(w, job, attempt, job.upto);
      WriteMoves(cfg, s, w, job, attempt);
      Advance(cfg, s0, actions, s, WriteCheckpoint(w));
      actions := actions + [WriteCheckpoint(w)];
      FinishedCovered(cfg, s, w, job, attempt);
    }

    /** One incremental run: index the rows above the last synced id, then move the checkpoint
        to the largest id decoded. On success everything up to the last row fetched is indexed. */
    method IncrementalSync(w: nat)
      returns (result: SyncResult, records: seq<Record>, ghost actions: seq<Action>)
      requires Valid() && WorkerOf(Abs(), w).Idle?
      modifies this
      ensures Ran(cfg, old(Abs()), actions, Abs()) && WorkerOf(Abs(), w).Idle?
      ensures result.Synced? && records != [] ==>
        Covered(cfg, Abs(), MaxKey(records)) && Checkpoint() == if cfg.bigint then MaxKey(records) else 0
      ensures result.Rejected? ==> actions == [] && Abs() == old(Abs())
    {
      ghost var s0 := Abs();
      RanNothing(cfg, s0);
      var prepared: bool := *;
      if !prepared {
        return Rejected, [], [];
      }
      var fetched, job;
      fetched, job, actions := FetchNewRows(w, s0);
      if !fetched {
        return QueryFailed, [], actions;
      }
      records := job.batch;
      if records == [] {
        return Synced, records, actions;
      }
      var ok, attempt;
      ok, attempt, actions := IngestWithRetries(w, job, s0, actions);
      if !ok {
        return DeadLettered, records, actions;
      }
      actions := Finish(w, job, attempt, s0, actions);
      return Synced, records, actions;
    }

    method FetchNewRows(w: nat, ghost s0: State) returns (ok: bool, job: Job, ghost actions: seq<Action>)
      requires Ran(cfg, s0, [], Abs()) && WorkerOf(Abs(), w).Idle?
      modifies this
      ensures Ran(cfg, s0, actions, Abs())
      ensures !job.chunked && job.top == MaxKey(job.batch) && job.upto == if cfg.bigint then MaxKey(job.batch) else 0
      ensures WorkerOf(Abs(), w) == if ok && job.batch != [] then Indexing(job, 0, SendingMain) else Idle
    {
      var lastID;
      lastID, actions := StartSince(w, s0);
      actions := Interfere(w, s0, actions);
      ghost var s := Abs();
      ghost var unreadable;
      job, ok, unreadable := QueryNew(w, lastID);
      NewMoves(cfg, s, w, lastID, ok, unreadable);
      Advance(cfg, s0, actions, s, FetchNew(w, ok, unreadable));
      actions := actions + [FetchNew(w, ok, unreadable)];
    }

    method StartSince(w: nat, ghost s0: State) returns (lastID: int, ghost actions: seq<Action>)
      requires Ran(cfg, s0, [], Abs()) && WorkerOf(Abs(), w).Idle?
      modifies this
      ensures Ran(cfg, s0, actions, Abs()) && WorkerOf(Abs(), w) == Since(lastID)
    {
      actions := Interfere(w, s0, []);
      ghost var s := Abs();
      lastID := ReadLastID(w);
      Advance(cfg, s0, actions, s, ReadLast(w));
      actions := actions + [ReadLast(w)];
    }

    /** Start-up after a crash: the in-memory maps are gone; the checkpoint is recomputed from the
        largest live packed id of the main index, or stays absent when that cannot be read. */
    method LoadCheckpoints() returns (scanned: bool)
      modifies this
      ensures Abs() == ApplyCrash(cfg, old(Abs()), scanned)
    {
      torn := torn + HalfIndexed(cfg, Abs());
      runs := map[];
      lastSyncedID := map[];
      scanned := *;
      if scanned {
        var maxGlobalID := LargestLiveID(cfg, store);
        if maxGlobalID > 0 {
          lastSyncedID := lastSyncedID[cfg.table := ExtractLocalId(maxGlobalID)];
        }
      }
    }
  }

  /** SELECT coalesce(max(global_id), 0) over the live rows. */
  method LargestLiveID(cfg: Config, store: Store) returns (largest: nat)
    ensures largest == MaxOf(LiveIds(cfg, store))
  {
    var ids := LiveIds(cfg, store);
    largest := 0;
    while ids != {}
      invariant ids <= LiveIds(cfg, store)
      invariant largest == 0 || largest in LiveIds(cfg, store)
      invariant forall id :: id in LiveIds(cfg, store) ==> id in ids || id <= largest
      decreases ids
    {
      var id :| id in ids;
      if id > largest {
        largest := id;
      }
      ids := ids - {id};
    }
  }

  /** A chunk in which nothing was readable leaves everything up to its end indexed or skipped. */
  lemma {:induction false} EmptyChunkCovered(cfg: Config, s: State, w: nat, cur: int, total: int, unreadable: set<nat>)
    requires ValidConfig(cfg) && Inv(cfg, s) && WorkerOf(s, w) == AtChunk(cur, total)
    requires ChunkJob(cfg, s.source, cur, total, unreadable).batch == []
    ensures var s' := ApplyLive(cfg, s, FetchChunk(w, unreadable));
      Covered(cfg, s', Min(cur + cfg.chunkSize, total)) && total <= MaxKey(s'.source)
  {
    var s' := ApplyLive(cfg, s, FetchChunk(w, unreadable));
    var job := ChunkJob(cfg, s.source, cur, total, unreadable);
    assert WorkerOk(cfg, s, AtChunk(cur, total));
    ChunkFetched(s.source, unreadable, job);
    forall r | r in s'.source && r.key <= job.top
      ensures RowCovered(cfg, s', r)
    {
      if r.key <= cur {
        assert RowCovered(cfg, s, r);
      }
    }
  }

  lemma {:induction false} FinishedCovered(cfg: Config, s: State, w: nat, job: Job, attempt: nat)
    requires ValidConfig(cfg) && Inv(cfg, s) && WorkerOf(s, w) == Indexing(job, attempt, WritingCheckpoint)
    ensures var s' := ApplyLive(cfg, s, WriteCheckpoint(w));
      Covered(cfg, s', job.top) && (job.chunked ==> job.total <= MaxKey(s'.source))
  {
    assert WorkerOk(cfg, s, Indexing(job, attempt, WritingCheckpoint));
    JobCovered(cfg, s, job, attempt);
    CoveredGrows(cfg, s, ApplyLive(cfg, s, WriteCheckpoint(w)), job.top);
  }

  /** The decode loop over a result set: rows that fail are left out. */
  method DecodeRows(rows: seq<Record>, failing: set<nat>) returns (records: seq<Record>)
    ensures records == Readable(rows, failing)
  {
    records := [];
    for i := 0 to |rows|
      invariant records == Readable(rows[..i], failing)
    {
      assert rows[..i + 1][..i] == rows[..i];
      if rows[i].key in failing {
        continue;
      }
      records := records + [rows[i]];
    }
    assert rows[..|rows|] == rows;
  }

  /** The running maximum over decoded 64-bit ids; other key types leave it at 0. */
  method LargestID(cfg: Config, records: seq<Record>) returns (newMaxID: int)
    requires SortedRows(records)
    ensures newMaxID == if cfg.bigint then MaxKey(records) else 0
  {
    newMaxID := 0;
    for i := 0 to |records|
      invariant newMaxID == if cfg.bigint then MaxKey(records[..i]) else 0
    {
      PrefixSorted(records, i + 1);
      assert records[..i + 1][..i] == records[..i];
      if cfg.bigint && records[i].key > newMaxID {
        newMaxID := records[i].key;
      }
    }
    assert records[..|records|] == records;
  }
}
