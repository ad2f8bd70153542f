/** Synchronisation and search together: what a query finds among the rows behind the checkpoint. */
module CdcSearch {
  import opened Collections
  import opened GlobalIds
  import opened SearchIndex
  import opened SearchPaging
  import opened CdcSync
  import opened CdcSafety

  /** The posting comes from a token of a source row. */
  ghost predicate FromSource(cfg: Config, source: seq<Record>, p: Posting) {
    exists r :: r in source && Carries(cfg.fnv, cfg.table, r, p)
  }

  /** The id's upper bits name this table. */
  predicate OwnId(cfg: Config, id: nat) {
    ExtractTableId(id) == TableId(cfg.fnv, cfg.table)
  }

  /** Every posting under this table's id comes from a token of a source row. */
  ghost predicate AllFromSource(cfg: Config, source: seq<Record>, postings: set<Posting>) {
    forall p :: p in postings && OwnId(cfg, p.globalId) ==> FromSource(cfg, source, p)
  }

  /** All tables that are indexed are registered, and their ids are distinct. */
  ghost predicate Registered(cfg: Config, tables: set<string>, actions: seq<Action>) {
    && DistinctTableIds(cfg.fnv, tables) && cfg.table in tables
    && forall a :: a in actions && a.Other? ==> a.op.table in tables
  }

  lemma {:induction false} SourceGrows(cfg: Config, source: seq<Record>, row: Record, postings: set<Posting>)
    requires AllFromSource(cfg, source, postings)
    ensures AllFromSource(cfg, source + [row], postings)
  {
    forall p | p in postings && OwnId(cfg, p.globalId)
      ensures FromSource(cfg, source + [row], p)
    {
      assert FromSource(cfg, source, p);
      var r :| r in source && Carries(cfg.fnv, cfg.table, r, p);
      assert r in source + [row];
    }
  }

  lemma {:induction false} BatchFromSource(cfg: Config, source: seq<Record>, batch: seq<Record>, postings: set<Posting>)
    requires AllFromSource(cfg, source, postings) && forall r :: r in batch ==> r in source
    ensures AllFromSource(cfg, source, postings + Postings(cfg.fnv, cfg.table, batch))
  {
    forall p | p in Postings(cfg.fnv, cfg.table, batch) && OwnId(cfg, p.globalId)
      ensures FromSource(cfg, source, p)
    {
      var r :| r in batch && Carries(cfg.fnv, cfg.table, r, p);
      assert r in source && Carries(cfg.fnv, cfg.table, r, p);
    }
  }

  lemma {:induction false} SendKeepsFromSource(cfg: Config, s: State, w: nat, ok: bool)
    requires ValidConfig(cfg) && Inv(cfg, s) && AllFromSource(cfg, s.source, s.store.postings)
    ensures var t := ApplyLive(cfg, s, Send(w, ok)); AllFromSource(cfg, t.source, t.store.postings)
  {
    var worker := WorkerOf(s, w);
    if worker.Indexing? && worker.phase.SendingTokens? && ok {
      assert WorkerOk(cfg, s, worker);
      BatchFromSource(cfg, s.source, worker.job.batch, s.store.postings);
    }
  }

  lemma {:induction false} RowIdTable(fnv: HashFn, table: string, key: nat)
    ensures ExtractTableId(RowId(fnv, table, key)) == TableId(fnv, table)
  {
    UnpackPack(TableId(fnv, table), key % LOCAL_SPAN);
  }

  /** The postings of another table carry another table id. */
  lemma {:induction false} OtherKeepsFromSource(cfg: Config, source: seq<Record>, store: Store, op: Op)
    requires AllFromSource(cfg, source, store.postings) && TableId(cfg.fnv, op.table) != TableId(cfg.fnv, cfg.table)
    ensures AllFromSource(cfg, source, AfterOp(cfg.fnv, store, op).postings)
  {
    if op.Bulk? {
      forall p | p in Postings(cfg.fnv, op.table, op.records)
        ensures !OwnId(cfg, p.globalId)
      {
        var r :| r in op.records && Carries(cfg.fnv, op.table, r, p);
        RowIdTable(cfg.fnv, op.table, r.key);
      }
    }
  }

  lemma {:induction false} StepKeepsFromSource(cfg: Config, s: State, a: Action)
    requires ValidConfig(cfg) && Inv(cfg, s) && AllFromSource(cfg, s.source, s.store.postings)
    requires a.Other? && a.op.table != cfg.table ==> TableId(cfg.fnv, a.op.table) != TableId(cfg.fnv, cfg.table)
    ensures var t := Apply(cfg, s, a); AllFromSource(cfg, t.source, t.store.postings)
  {
    match a
    case Insert(row) => SourceGrows(cfg, s.source, row, s.store.postings);
    case Other(op) =>
      if op.table != cfg.table {
        OtherKeepsFromSource(cfg, s.source, s.store, op);
      }
    case Send(w, ok) => SendKeepsFromSource(cfg, s, w, ok);
    case _ =>
  }

  /** In every reachable state every posting under this table's id comes from a source row. */
  lemma {:induction false} PostingsComeFromSource(cfg: Config, tables: set<string>, actions: seq<Action>)
    requires ValidConfig(cfg) && Registered(cfg, tables, actions)
    ensures var s := Run(cfg, INITIAL, actions); AllFromSource(cfg, s.source, s.store.postings)
  {
    if actions != [] {
      var n := |actions| - 1;
      assert actions[n] in actions && forall a :: a in actions[..n] ==> a in actions;
      PostingsComeFromSource(cfg, tables, actions[..n]);
      RunKeepsInv(cfg, actions[..n]);
      StepKeepsFromSource(cfg, Run(cfg, INITIAL, actions[..n]), actions[n]);
    }
  }

  /** The row behind a selected id has all the query's tokens, because ids identify rows. */
  lemma {:induction false} SelectedRow(cfg: Config, s: State, query: seq<string>, id: nat) returns (r: Record)
    requires Inv(cfg, s) && AllFromSource(cfg, s.source, s.store.postings)
    requires query != [] && Selected(cfg.fnv, s.store, query, id) && OwnId(cfg, id)
    ensures r in s.source && id == RowId(cfg.fnv, cfg.table, r.key) && Answers(cfg.fnv, r, query)
  {
    assert query[0] in query;
    assert FromSource(cfg, s.source, Posting(HashToken(cfg.fnv, query[0]), id));
    r :| r in s.source && Carries(cfg.fnv, cfg.table, r, Posting(HashToken(cfg.fnv, query[0]), id));
    forall q | q in query
      ensures Contains(cfg.fnv, r, HashToken(cfg.fnv, q))
    {
      var p := Posting(HashToken(cfg.fnv, q), id);
      assert p in s.store.postings;
      assert FromSource(cfg, s.source, p);
      var r' :| r' in s.source && Carries(cfg.fnv, cfg.table, r', p);
      SameKeySameRow(cfg, s.source, r, r');
    }
  }

  lemma {:induction false} AnsweringRowSelected(cfg: Config, s: State, query: seq<string>, r: Record)
    requires InTokens(cfg, s.store.postings, r) && Answers(cfg.fnv, r, query)
    ensures Selected(cfg.fnv, s.store, query, RowId(cfg.fnv, cfg.table, r.key))
  {
    forall q | q in query
      ensures Posting(HashToken(cfg.fnv, q), RowId(cfg.fnv, cfg.table, r.key)) in s.store.postings
    {
      var t :| t in r.tokens && |t| >= 2 && HashToken(cfg.fnv, t) == HashToken(cfg.fnv, q);
      assert HashToken(cfg.fnv, t) in TokenHashes(cfg.fnv, r.tokens);
    }
  }

  /** Without crashes and unread rows, in every reachable state of every interleaving, with other
      tables indexed into the same bitmaps: the ids of this table that a query selects at or below
      the checkpoint are exactly those of the source rows at or below it that have the query's
      tokens. */
  lemma {:induction false} SyncedRowsAreFound(cfg: Config, tables: set<string>, actions: seq<Action>,
                                              query: seq<string>, id: nat)
    requires ValidConfig(cfg) && Faultless(actions) && NoCrash(actions) && query != []
    requires Registered(cfg, tables, actions)
    ensures var s := Run(cfg, INITIAL, actions);
      Selected(cfg.fnv, s.store, query, id) && OwnId(cfg, id) && ExtractLocalId(id) <= s.checkpoint <==>
      exists r :: r in s.source && r.key <= s.checkpoint && id == RowId(cfg.fnv, cfg.table, r.key) &&
        Answers(cfg.fnv, r, query)
  {
    var s := Run(cfg, INITIAL, actions);
    RunKeepsInv(cfg, actions);
    PostingsComeFromSource(cfg, tables, actions);
    if Selected(cfg.fnv, s.store, query, id) && OwnId(cfg, id) && ExtractLocalId(id) <= s.checkpoint {
      var r := SelectedRow(cfg, s, query, id);
      LocalIdOf(cfg, s, r);
    }
    if r :|
      && r in s.source
      && r.key <= s.checkpoint
      && id == RowId(cfg.fnv, cfg.table, r.key)
      && Answers(cfg.fnv, r, query)
    {
      LocalIdOf(cfg, s, r);
      RowIdTable(cfg.fnv, cfg.table, r.key);
      CheckpointMeansIndexed(cfg, actions, r);
      AnsweringRowSelected(cfg, s, query, r);
    }
  }

  lemma {:induction false} LocalIdOf(cfg: Config, s: State, r: Record)
    requires Inv(cfg, s) && r in s.source
    ensures ExtractLocalId(RowId(cfg.fnv, cfg.table, r.key)) == r.key
  {
    MaxKeyBounds(s.source);
    UnpackPack(TableId(cfg.fnv, cfg.table), r.key);
  }

  /** Such a row is also shown: its id is live when its table is registered, ids of tables are
      distinct, the row is not deleted and the lookup reads it. */
  lemma {:induction false} SyncedRowIsLive(cfg: Config, actions: seq<Action>, tables: seq<string>, down: Unread,
                                           r: Record)
    requires ValidConfig(cfg) && Faultless(actions) && NoCrash(actions)
    requires DistinctTableIds(cfg.fnv, set t | t in tables) && cfg.table in tables && cfg.table != "unknown" &&
      cfg.table !in down.tables && RowId(cfg.fnv, cfg.table, r.key) !in down.rows
    requires var s := Run(cfg, INITIAL, actions); r in s.source && r.key <= s.checkpoint && !r.deleted
    ensures Live(cfg.fnv, tables, down, Run(cfg, INITIAL, actions).store, RowId(cfg.fnv, cfg.table, r.key))
  {
    var s := Run(cfg, INITIAL, actions);
    RunKeepsInv(cfg, actions);
    MaxKeyBounds(s.source);
    RowIdRoundTrip(cfg.fnv, tables, cfg.table, r.key);
    CheckpointMeansIndexed(cfg, actions, r);
  }

  /** The table id is needed: a row of another table with the same token and a small local id is
      selected as well, before this table has any row. */
  lemma {:induction false} OtherTableSelected(cfg: Config, other: string, token: string)
    requires ValidConfig(cfg) && other != cfg.table && |token| >= 2
    ensures var s := Run(cfg, INITIAL, [Other(Bulk(other, [Record(1, [token], false)], 3))]);
      s.source == [] && Selected(cfg.fnv, s.store, [token], RowId(cfg.fnv, other, 1)) &&
        ExtractLocalId(RowId(cfg.fnv, other, 1)) == 1
  {
    var row := Record(1, [token], false);
    var a := Other(Bulk(other, [row], 3));
    assert [a][..0] == [] && row in [row] && token in row.tokens;
    assert Posting(HashToken(cfg.fnv, token), RowId(cfg.fnv, other, 1)) in Postings(cfg.fnv, other, [row]);
    UnpackPack(TableId(cfg.fnv, other), 1);
  }
}
