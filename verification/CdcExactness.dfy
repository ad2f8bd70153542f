/** Exactly when the statistics are exact and when the checkpoint never goes back. */
module CdcExactness {
  import opened Collections
  import opened GlobalIds
  import opened SearchIndex
  import opened CdcSync
  import opened CdcSafety
  import opened CdcAccounting
  import opened CdcReach
  import opened CdcFaults

  // ----- keys that do not decode as 64-bit integers -----

  /** An incremental run over such keys leaves the checkpoint at 0. */
  lemma {:induction false} IntKeyRound(cfg: Config, s: State, row: Record) returns (t: State)
    requires ValidConfig(cfg) && !cfg.bigint && 0 < row.key < LOCAL_SPAN
    requires s.source == [row] && s.checkpoint == 0 && WorkerOf(s, 0) == Idle
    ensures Reaches(cfg, By({0}), s, t) && t.source == [row] && t.checkpoint == 0 && WorkerOf(t, 0) == Idle
    ensures t.counted == s.counted + [row]
  {
    var job := LastJob(cfg, 0, row);
    OneRowSorted(row);
    FetchLast(cfg, By({0}), s, 0, [], row);
    var fetched := MoveTo(s, 0, Indexing(job, 0, SendingMain));
    t := IngestAndFinish(cfg, By({0}), fetched, 0, job);
    ReachTrans(cfg, By({0}), s, fetched, t);
  }

  /** So a single worker counts the same row again with every run. */
  lemma {:induction false} IntKeyCountsAgain(cfg: Config, row: Record, hash: nat) returns (s: State)
    requires ValidConfig(cfg) && !cfg.bigint && 0 < row.key < LOCAL_SPAN && hash in TokenHashes(cfg.fnv, row.tokens)
    ensures Reaches(cfg, By({0}), INITIAL, s) && s.source == [row] && s.checkpoint == 0 &&
      s.store.stats[Stat(hash, cfg.table)] == 2
  {
    var one := OneRow(row);
    OneRowSorted(row);
    InsertRow(cfg, By({0}), INITIAL, row);
    var first := IntKeyRound(cfg, one, row);
    s := IntKeyRound(cfg, first, row);
    ReachTrans(cfg, By({0}), INITIAL, one, first);
    ReachTrans(cfg, By({0}), INITIAL, first, s);
    ReachedInv(cfg, By({0}), s);
    CountedTwice(cfg, s, row, hash);
  }

  /** The counts are those of the rows up to the sent mark. */
  ghost predicate CountsExact(cfg: Config, s: State) {
    forall hash :: s.store.stats[Stat(hash, cfg.table)] == CountWith(cfg.fnv, Between(s.source, 0, Watermark(s)), hash)
  }

  lemma {:induction false} AtMostOne(cfg: Config, s: State, row: Record, hash: nat)
    requires s.source == [row]
    ensures CountWith(cfg.fnv, Between(s.source, 0, Watermark(s)), hash) <= 1
  {
    var rows := Between(s.source, 0, Watermark(s));
    assert [row][..0] == [];
    assert rows == [] || rows == [row];
    assert CountWith(cfg.fnv, [], hash) == 0 && CountWith(cfg.fnv, [row], hash) <= 1;
  }

  // ----- which runs may race -----

  /** Runs drawn from a set of fault kinds; without racing all sync work is done by run 0. */
  predicate Drawn(f: Faults, racing: bool, actions: seq<Action>) {
    DrawnFrom(f, actions) && (racing || forall a :: a in actions ==> ByFirst(a))
  }

  predicate ByFirst(a: Action) { a.Insert? || a.Other? || a.Crash? || a.w == 0 }

  lemma {:induction false} CleanIsDrawn(f: Faults, racing: bool, runs: set<nat>, actions: seq<Action>)
    requires CleanRun(By(runs), actions) && (racing || runs <= {0})
    ensures Drawn(f, racing, actions)
  {
    forall a | a in actions
      ensures Allowed(f, a) && (racing || ByFirst(a))
    {
      assert CleanStep(By(runs), a);
    }
  }

  lemma {:induction false} NotRacing(f: Faults, actions: seq<Action>)
    requires Drawn(f, false, actions) && !f.crash
    ensures OneWorker(actions) && NoCrash(actions)
  {
    assert forall a :: a in actions ==> Allowed(f, a) && ByFirst(a);
  }

  /** A clean run of worker 0, a step, a clean run of worker 0. */
  lemma {:induction false} JoinFirst(cfg: Config, f: Faults, racing: bool, s: State, a: Action, t: State)
    returns (actions: seq<Action>)
    requires ValidConfig(cfg) && Allowed(f, a) && ByFirst(a)
    requires Reaches(cfg, By({0}), INITIAL, s) && Reaches(cfg, By({0}), Apply(cfg, s, a), t)
    ensures Drawn(f, racing, actions) && Run(cfg, INITIAL, actions) == t
  {
    var before :| CleanRun(By({0}), before) && Run(cfg, INITIAL, before) == s;
    var after :| CleanRun(By({0}), after) && Run(cfg, Apply(cfg, s, a), after) == t;
    RunThree(cfg, INITIAL, before, a, after);
    CleanIsDrawn(f, racing, {0}, before);
    CleanIsDrawn(f, racing, {0}, after);
    actions := before + [a] + after;
    assert forall x :: x in actions <==> x in before || x == a || x in after;
  }

  // ----- when the counts are exact -----

  /** Up to the largest key everything is between. */
  lemma {:induction false} BetweenAll(source: seq<Record>)
    requires SortedRows(source)
    ensures Between(source, 0, MaxKey(source)) == source
  {
    BetweenMembers(source, 0, MaxKey(source));
    MaxKeyBounds(source);
    SortedUnique(Between(source, 0, MaxKey(source)), source);
  }

  /** A row behind the mark that was never counted spoils the counts. */
  lemma {:induction false} Uncounted(cfg: Config, s: State, hash: nat)
    requires Inv(cfg, s) && Watermark(s) == MaxKey(s.source)
    requires CountWith(cfg.fnv, s.counted, hash) != CountWith(cfg.fnv, s.source, hash)
    ensures !CountsExact(cfg, s)
  {
    BetweenAll(s.source);
  }

  lemma {:induction false} OneCount(fnv: HashFn, row: Record, hash: nat)
    requires Contains(fnv, row, hash)
    ensures CountWith(fnv, [], hash) == 0 && CountWith(fnv, [row], hash) == 1
  {
    assert [row][..0] == [];
  }

  /** A row with a token, and a row without any. */
  const TOKEN_ROW := Record(1, ["ab"], false)
  const PLAIN_ROW := Record(2, [], false)

  lemma {:induction false} TokenRowCounts(fnv: HashFn) returns (hash: nat)
    ensures hash in TokenHashes(fnv, TOKEN_ROW.tokens) && Contains(fnv, TOKEN_ROW, hash) &&
      !Contains(fnv, PLAIN_ROW, hash)
    ensures CountWith(fnv, [], hash) == 0 && CountWith(fnv, [TOKEN_ROW], hash) == 1
    ensures CountWith(fnv, [PLAIN_ROW], hash) == 0 && CountWith(fnv, [TOKEN_ROW, PLAIN_ROW], hash) == 1
  {
    hash := HashToken(fnv, "ab");
    assert "ab" in TOKEN_ROW.tokens;
    OneCount(fnv, TOKEN_ROW, hash);
    assert [PLAIN_ROW][..0] == [] && [TOKEN_ROW, PLAIN_ROW][..1] == [TOKEN_ROW];
  }

  lemma {:induction false} UnreachableMiscounts(cfg: Config, f: Faults, racing: bool) returns (actions: seq<Action>)
    requires ValidConfig(cfg) && f.unreachable
    ensures Drawn(f, racing, actions) && !CountsExact(cfg, Run(cfg, INITIAL, actions))
  {
    var s := UnreachableLosesRow(cfg, TOKEN_ROW);
    var passed := ApplyLive(cfg, s, Unreachable(0));
    var t := ApplyLive(cfg, passed, WriteCheckpoint(0));
    ReachStep(cfg, By({0}), passed, WriteCheckpoint(0));
    actions := JoinFirst(cfg, f, racing, s, Unreachable(0), t);
    RunKeepsInv(cfg, actions);
    var hash := TokenRowCounts(cfg.fnv);
    Uncounted(cfg, t, hash);
  }

  lemma {:induction false} UnreadMiscounts(cfg: Config, f: Faults, racing: bool) returns (actions: seq<Action>)
    requires ValidConfig(cfg) && f.unread
    ensures Drawn(f, racing, actions) && !CountsExact(cfg, Run(cfg, INITIAL, actions))
  {
    var s, t := UnreadRowLost(cfg, TOKEN_ROW, PLAIN_ROW);
    actions := JoinFirst(cfg, f, racing, s, FetchChunk(0, {1}), t);
    RunKeepsInv(cfg, actions);
    var hash := TokenRowCounts(cfg.fnv);
    Uncounted(cfg, t, hash);
  }

  lemma {:induction false} CrashMiscounts(cfg: Config, f: Faults, racing: bool) returns (actions: seq<Action>)
    requires ValidConfig(cfg) && f.crash
    ensures Drawn(f, racing, actions) && !CountsExact(cfg, Run(cfg, INITIAL, actions))
  {
    var hash := TokenRowCounts(cfg.fnv);
    var s := CrashTearsRow(cfg, TOKEN_ROW, hash);
    var t := ApplyCrash(cfg, s, true);
    ReachNothing(cfg, By({0}), t);
    actions := JoinFirst(cfg, f, racing, s, Crash(true), t);
    RunKeepsInv(cfg, actions);
    Uncounted(cfg, t, hash);
  }

  lemma {:induction false} RacingMiscounts(cfg: Config, f: Faults) returns (actions: seq<Action>)
    requires ValidConfig(cfg)
    ensures Drawn(f, true, actions) && !CountsExact(cfg, Run(cfg, INITIAL, actions))
  {
    var hash := TokenRowCounts(cfg.fnv);
    var s := RacingRunsCountTwice(cfg, TOKEN_ROW, hash);
    actions :| CleanRun(By({0, 1}), actions) && Run(cfg, INITIAL, actions) == s;
    CleanIsDrawn(f, true, {0, 1}, actions);
    AtMostOne(cfg, s, TOKEN_ROW, hash);
  }

  lemma {:induction false} IntKeysMiscount(cfg: Config, f: Faults, racing: bool) returns (actions: seq<Action>)
    requires ValidConfig(cfg) && !cfg.bigint
    ensures Drawn(f, racing, actions) && !CountsExact(cfg, Run(cfg, INITIAL, actions))
  {
    var hash := TokenRowCounts(cfg.fnv);
    var s := IntKeyCountsAgain(cfg, TOKEN_ROW, hash);
    actions :| CleanRun(By({0}), actions) && Run(cfg, INITIAL, actions) == s;
    CleanIsDrawn(f, racing, {0}, actions);
    AtMostOne(cfg, s, TOKEN_ROW, hash);
  }

  lemma {:induction false} CountsAreExact(cfg: Config, f: Faults, actions: seq<Action>)
    requires ValidConfig(cfg) && cfg.bigint && f == Faults(false, false, false) && Drawn(f, false, actions)
    ensures CountsExact(cfg, Run(cfg, INITIAL, actions))
  {
    NotRacing(f, actions);
    assert forall a :: a in actions ==> Allowed(f, a);
    forall hash
      ensures var s := Run(cfg, INITIAL, actions);
        s.store.stats[Stat(hash, cfg.table)] == CountWith(cfg.fnv, Between(s.source, 0, Watermark(s)), hash)
    {
      StatisticsExactlyOnce(cfg, actions, hash);
    }
  }

  /** The statistics are exact in all runs drawn from a set of fault kinds, racing or not, exactly
      when keys decode as 64-bit integers, runs do not race and there are no faults of any kind. */
  lemma {:induction false} ExactlyOnceIff(cfg: Config, f: Faults, racing: bool)
    requires ValidConfig(cfg)
    ensures (forall actions :: Drawn(f, racing, actions) ==> CountsExact(cfg, Run(cfg, INITIAL, actions))) <==>
      cfg.bigint && !racing && f == Faults(false, false, false)
  {
    if !cfg.bigint {
      var actions := IntKeysMiscount(cfg, f, racing);
    } else if racing {
      var actions := RacingMiscounts(cfg, f);
    } else if f.unread {
      var actions := UnreadMiscounts(cfg, f, racing);
    } else if f.unreachable {
      var actions := UnreachableMiscounts(cfg, f, racing);
    } else if f.crash {
      var actions := CrashMiscounts(cfg, f, racing);
    } else {
      forall actions | Drawn(f, racing, actions)
        ensures CountsExact(cfg, Run(cfg, INITIAL, actions))
      {
        CountsAreExact(cfg, f, actions);
      }
    }
  }

  // ----- when the checkpoint never goes back -----

  /** Step `a` after `actions` does not move the checkpoint back. */
  ghost predicate Forward(cfg: Config, actions: seq<Action>, a: Action)
    requires ValidConfig(cfg)
  {
    var s := Run(cfg, INITIAL, actions);
    s.checkpoint <= Apply(cfg, s, a).checkpoint
  }

  /** A single worker is never behind the checkpoint, so what it writes is not either. */
  lemma {:induction false} AheadMovesForward(cfg: Config, s: State, a: Action)
    requires ValidConfig(cfg) && Inv(cfg, s) && AheadOf(WorkerOf(s, 0), s.checkpoint) && ByFirst(a) && !a.Crash?
    ensures s.checkpoint <= Apply(cfg, s, a).checkpoint
  {
    if a.WriteCheckpoint? && WorkerOf(s, 0).Indexing? {
      assert WorkerOk(cfg, s, WorkerOf(s, 0));
    }
  }

  /** A chunked run has brought the checkpoint to the only row. */
  lemma {:induction false} OneRowSynced(cfg: Config, row: Record) returns (s: State)
    requires ValidConfig(cfg) && 0 < row.key < LOCAL_SPAN
    ensures Reaches(cfg, By({0}), INITIAL, s) && s.source == [row] && s.checkpoint == row.key && WorkerOf(s, 0) == Idle
  {
    InsertRow(cfg, By({0}), INITIAL, row);
    OneRowSorted(row);
    ReachedInv(cfg, By({0}), OneRow(row));
    s := ChunkedCatchesUp(cfg, 0, OneRow(row));
    MoreSteps(cfg, ChunkedBy(0), By({0}), OneRow(row), s);
    ReachTrans(cfg, By({0}), INITIAL, OneRow(row), s);
  }

  lemma {:induction false} MoreSteps(cfg: Config, few: Steps, more: Steps, s: State, t: State)
    requires ValidConfig(cfg) && Reaches(cfg, few, s, t) && few.runs <= more.runs
    requires more.chunked && more.incremental && more.inserts
    ensures Reaches(cfg, more, s, t)
  {
    var actions :| CleanRun(few, actions) && Run(cfg, s, actions) == t;
    forall a | a in actions
      ensures CleanStep(more, a)
    {
      assert CleanStep(few, a);
    }
  }

  /** A crash whose scan fails sets the checkpoint back to 0. */
  lemma {:induction false} CrashMovesBack(cfg: Config, f: Faults, racing: bool) returns (actions: seq<Action>)
    requires ValidConfig(cfg)
    ensures Drawn(f, racing, actions) && !Forward(cfg, actions, Crash(false))
  {
    var s := OneRowSynced(cfg, TOKEN_ROW);
    actions :| CleanRun(By({0}), actions) && Run(cfg, INITIAL, actions) == s;
    CleanIsDrawn(f, racing, {0}, actions);
  }

  /** A row behind the checkpoint, and a new row in the hands of an incremental run. */
  lemma {:induction false} NewRowFetched(cfg: Config) returns (s: State)
    requires ValidConfig(cfg)
    ensures Reaches(cfg, By({0}), INITIAL, s) && s.checkpoint == 1
    ensures WorkerOf(s, 0) == Indexing(LastJob(cfg, 1, PLAIN_ROW), 0, SendingMain)
  {
    var via := By({0});
    var synced := OneRowSynced(cfg, TOKEN_ROW);
    var grown := synced.(source := [TOKEN_ROW] + [PLAIN_ROW]);
    OneRowSorted(TOKEN_ROW);
    SortedSnoc([TOKEN_ROW], PLAIN_ROW);
    InsertRow(cfg, via, synced, PLAIN_ROW);
    FetchLast(cfg, via, grown, 0, [TOKEN_ROW], PLAIN_ROW);
    s := MoveTo(grown, 0, Indexing(LastJob(cfg, 1, PLAIN_ROW), 0, SendingMain));
    ReachTrans(cfg, via, INITIAL, synced, grown);
    ReachTrans(cfg, via, INITIAL, grown, s);
  }

  /** Over keys that do not decode, an incremental run sets back what a chunked run has written. */
  lemma {:induction false} IntKeysMoveBack(cfg: Config, f: Faults, racing: bool) returns (actions: seq<Action>)
    requires ValidConfig(cfg) && !cfg.bigint
    ensures Drawn(f, racing, actions) && !Forward(cfg, actions, WriteCheckpoint(0))
  {
    var via, job := By({0}), LastJob(cfg, 1, PLAIN_ROW);
    var s := NewRowFetched(cfg);
    var sent := Ingested(cfg, s, 0, job);
    Ingest(cfg, via, s, 0, job);
    ReachTrans(cfg, via, INITIAL, s, sent);
    WriteMoves(cfg, sent, 0, job, 0);
    actions :| CleanRun(via, actions) && Run(cfg, INITIAL, actions) == sent;
    CleanIsDrawn(f, racing, {0}, actions);
  }

  lemma {:induction false} RacingMovesBack(cfg: Config, f: Faults) returns (actions: seq<Action>)
    requires ValidConfig(cfg) && cfg.bigint
    ensures Drawn(f, true, actions) && !Forward(cfg, actions, WriteCheckpoint(0))
  {
    var s := RacingRunsMoveCheckpointBack(cfg, TOKEN_ROW, PLAIN_ROW);
    actions :| CleanRun(By({0, 1}), actions) && Run(cfg, INITIAL, actions) == s;
    CleanIsDrawn(f, true, {0, 1}, actions);
  }

  lemma {:induction false} NeverBack(cfg: Config, f: Faults, actions: seq<Action>, a: Action)
    requires ValidConfig(cfg) && cfg.bigint && !f.crash && Drawn(f, false, actions + [a])
    ensures Forward(cfg, actions, a)
  {
    assert a in actions + [a] && forall x :: x in actions ==> x in actions + [a];
    NotRacing(f, actions + [a]);
    assert ByFirst(a) && !a.Crash?;
    RunKeepsInv(cfg, actions);
    RunCountsOnce(cfg, actions);
    AheadMovesForward(cfg, Run(cfg, INITIAL, actions), a);
  }

  lemma {:induction false} DrawnSnoc(f: Faults, racing: bool, actions: seq<Action>, a: Action)
    requires Drawn(f, racing, actions) && Allowed(f, a) && (racing || ByFirst(a))
    ensures Drawn(f, racing, actions + [a])
  {
    assert forall x :: x in actions + [a] <==> x in actions || x == a;
  }

  /** No step of any run drawn from a set of fault kinds, racing or not, moves the checkpoint back,
      exactly when keys decode as 64-bit integers, runs do not race and nothing crashes. Unread rows
      and an unreachable index do no harm here. */
  lemma {:induction false} NeverBackIff(cfg: Config, f: Faults, racing: bool)
    requires ValidConfig(cfg)
    ensures (forall actions, a :: Drawn(f, racing, actions + [a]) ==> Forward(cfg, actions, a)) <==>
      cfg.bigint && !racing && !f.crash
  {
    if !cfg.bigint {
      var actions := IntKeysMoveBack(cfg, f, racing);
      DrawnSnoc(f, racing, actions, WriteCheckpoint(0));
    } else if racing {
      var actions := RacingMovesBack(cfg, f);
      DrawnSnoc(f, racing, actions, WriteCheckpoint(0));
    } else if f.crash {
      var actions := CrashMovesBack(cfg, f, racing);
      DrawnSnoc(f, racing, actions, Crash(false));
    } else {
      forall actions, a | Drawn(f, racing, actions + [a])
        ensures Forward(cfg, actions, a)
      {
        NeverBack(cfg, f, actions, a);
      }
    }
  }
}
