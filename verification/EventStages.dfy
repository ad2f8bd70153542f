/** The goroutines of the event pipeline, one atomic step at a time, and the worker's grouping. */
module EventStages {
  import opened Collections
  import opened EventPipeline

  /** The pipeline's channels and the state of its goroutines. A method that would block says so and
      changes nothing. */
  class Pipeline {
    var pending: seq<Event>
    var eventChan: seq<Event>
    var buf: Batch
    var flushing: bool
    var batchChan: seq<Batch>
    var busy: seq<Option<Batch>>
    ghost var fetched: seq<Event>
    ghost var sent: seq<Batch>
    ghost var taken: seq<Batch>
    ghost var finished: multiset<Batch>

    ghost function Abs(): Pipe
      reads this
    {
      Pipe(fetched, pending, eventChan, buf, flushing, batchChan, busy, sent, taken, finished)
    }

    constructor ()
      ensures Abs() == START && Inv(Abs())
    {
      pending, eventChan, buf, flushing, batchChan, busy := [], [], [], false, [], [None, None, None];
      fetched, sent, taken, finished := [], [], [], multiset{};
      StartInv();
    }

    /** The poller has the rows of its next query. */
    method Poll(events: seq<Event>)
      requires Inv(Abs()) && pending == []
      modifies this
      ensures Abs() == Apply(old(Abs()), Fetch(events)) && Inv(Abs())
    {
      StepKeepsInv(Abs(), Fetch(events));
      pending := events;
      fetched := fetched + events;
    }

    /** The poller pushes its next event, unless the channel is full. */
    method PushEvent() returns (pushed: bool)
      requires Inv(Abs()) && pending != []
      modifies this
      ensures pushed <==> Enabled(old(Abs()), Push)
      ensures Abs() == (if pushed then Apply(old(Abs()), Push) else old(Abs())) && Inv(Abs())
    {
      pushed := |eventChan| < EVENT_CAP;
      if pushed {
        StepKeepsInv(Abs(), Push);
        eventChan := eventChan + [pending[0]];
        pending := pending[1..];
      }
    }

    /** The batcher takes an event and starts a flush when its buffer is full. */
    method ReceiveEvent() returns (received: bool)
      requires Inv(Abs()) && !flushing
      modifies this
      ensures received <==> Enabled(old(Abs()), Receive)
      ensures Abs() == (if received then Apply(old(Abs()), Receive) else old(Abs())) && Inv(Abs())
    {
      received := |eventChan| > 0;
      if received {
        StepKeepsInv(Abs(), Receive);
        buf := buf + [eventChan[0]];
        eventChan := eventChan[1..];
        if |buf| >= BATCH_SIZE {
          flushing := true;
        }
      }
    }

    /** The batcher's timer: flush what there is, if anything. */
    method TimerFires() returns (started: bool)
      requires Inv(Abs()) && !flushing
      modifies this
      ensures started <==> Enabled(old(Abs()), Tick)
      ensures Abs() == (if started then Apply(old(Abs()), Tick) else old(Abs())) && Inv(Abs())
    {
      started := |buf| > 0;
      if started {
        StepKeepsInv(Abs(), Tick);
        flushing := true;
      }
    }

    /** The batcher sends its buffer, unless the channel is full, and starts a new one. */
    method SendBuffer() returns (sentIt: bool)
      requires Inv(Abs()) && flushing
      modifies this
      ensures sentIt <==> Enabled(old(Abs()), Flush)
      ensures Abs() == (if sentIt then Apply(old(Abs()), Flush) else old(Abs())) && Inv(Abs())
    {
      sentIt := |batchChan| < BATCH_CAP;
      if sentIt {
        StepKeepsInv(Abs(), Flush);
        batchChan := batchChan + [buf];
        sent := sent + [buf];
        buf := [];
        flushing := false;
      }
    }

    /** An idle worker receives a batch, if there is one. */
    method WorkerReceives(w: nat) returns (received: bool)
      requires Inv(Abs()) && w < WORKERS && busy[w] == None
      modifies this
      ensures received <==> Enabled(old(Abs()), TakeBatch(w))
      ensures Abs() == (if received then Apply(old(Abs()), TakeBatch(w)) else old(Abs())) && Inv(Abs())
    {
      received := |batchChan| > 0;
      if received {
        StepKeepsInv(Abs(), TakeBatch(w));
        busy := busy[w := Some(batchChan[0])];
        taken := taken + [batchChan[0]];
        batchChan := batchChan[1..];
      }
    }

    /** A worker indexes its batch table by table; index errors are only logged. */
    method WorkerIndexes(w: nat) returns (calls: seq<Call>)
      requires Inv(Abs()) && w < WORKERS && busy[w].Some?
      modifies this
      ensures Abs() == Apply(old(Abs()), Finish(w)) && Inv(Abs())
      ensures IsWorkOf(calls, old(busy[w].value))
    {
      calls := IndexBatch(busy[w].value);
      StepKeepsInv(Abs(), Finish(w));
      finished := finished + multiset{busy[w].value};
      busy := busy[w := None];
    }
  }

  // ----- grouping a batch by table -----

  /** One index call: a table and the records of its events. */
  datatype Call = Call(table: string, records: seq<nat>)

  /** The records of one table, in the batch's order. */
  function RecordsOf(table: string, batch: Batch): seq<nat> {
    if batch == [] then []
    else
      var n := |batch| - 1;
      RecordsOf(table, batch[..n]) + if batch[n].table == table then [batch[n].data] else []
  }

  function TablesOf(batch: Batch): set<string> {
    set e | e in batch :: e.table
  }

  ghost predicate HasCall(calls: seq<Call>, table: string) {
    exists i :: 0 <= i < |calls| && calls[i].table == table
  }

  lemma {:induction false} HasCallSnoc(calls: seq<Call>, call: Call, table: string)
    ensures HasCall(calls + [call], table) <==> HasCall(calls, table) || call.table == table
  {
    var all := calls + [call];
    if HasCall(calls, table) {
      var i :| 0 <= i < |calls| && calls[i].table == table;
      assert all[i].table == table;
    }
    if call.table == table {
      assert all[|calls|].table == table;
    }
    if HasCall(all, table) && call.table != table {
      var i :| 0 <= i < |all| && all[i].table == table;
      assert calls[i].table == table;
    }
  }

  /** One call for each table of the batch, with all its records in order. */
  ghost predicate IsWorkOf(calls: seq<Call>, batch: Batch) {
    && (forall i, j :: 0 <= i < j < |calls| ==> calls[i].table != calls[j].table)
    && (forall i :: 0 <= i < |calls| ==>
      calls[i].table in TablesOf(batch) && calls[i].records == RecordsOf(calls[i].table, batch))
    && forall t :: t in TablesOf(batch) ==> HasCall(calls, t)
  }

  lemma {:induction false} RecordsOfSnoc(table: string, batch: Batch, i: nat)
    requires i < |batch|
    ensures RecordsOf(table, batch[..i + 1]) ==
      RecordsOf(table, batch[..i]) + if batch[i].table == table then [batch[i].data] else []
  {
    assert batch[..i + 1][..i] == batch[..i];
  }

  method GroupByTable(batch: Batch) returns (byTable: map<string, seq<nat>>)
    ensures byTable.Keys == TablesOf(batch)
    ensures forall t :: t in byTable ==> byTable[t] == RecordsOf(t, batch)
  {
    byTable := map[];
    for i := 0 to |batch|
      invariant forall t :: t in byTable <==> t in TablesOf(batch[..i])
      invariant forall t :: RecordsOf(t, batch[..i]) == if t in byTable then byTable[t] else []
    {
      var e := batch[i];
      assert batch[..i + 1] == batch[..i] + [e];
      forall t
        ensures RecordsOf(t, batch[..i + 1]) == RecordsOf(t, batch[..i]) + if e.table == t then [e.data] else []
      {
        RecordsOfSnoc(t, batch, i);
      }
      byTable := byTable[e.table := (if e.table in byTable then byTable[e.table] else []) + [e.data]];
    }
    assert batch[..|batch|] == batch;
  }

  method IndexBatch(batch: Batch) returns (calls: seq<Call>)
    ensures IsWorkOf(calls, batch)
  {
    var byTable := GroupByTable(batch);
    calls := [];
    var rest := byTable.Keys;
    while rest != {}
      invariant rest <= byTable.Keys
      invariant forall i :: 0 <= i < |calls| ==>
        calls[i].table in byTable.Keys - rest && calls[i].records == RecordsOf(calls[i].table, batch)
      invariant forall i, j :: 0 <= i < j < |calls| ==> calls[i].table != calls[j].table
      invariant forall t :: t in byTable.Keys && t !in rest ==> HasCall(calls, t)
      decreases rest
    {
      var table :| table in rest;
      var call := Call(table, byTable[table]);
      forall t | t in byTable.Keys && t !in rest - {table}
        ensures HasCall(calls + [call], t)
      {
        HasCallSnoc(calls, call, t);
      }
      calls := calls + [call];
      rest := rest - {table};
    }
  }

  // ----- the groups partition the batch -----

  function EventsOf(call: Call): multiset<Event> {
    multiset(Labelled(call.table, call.records))
  }

  function Indexed(calls: seq<Call>): multiset<Event> {
    if calls == [] then multiset{} else Indexed(calls[..|calls| - 1]) + EventsOf(calls[|calls| - 1])
  }

  ghost predicate DistinctTables(calls: seq<Call>) {
    forall i, j :: 0 <= i < j < |calls| ==> calls[i].table != calls[j].table
  }

  /** Calls that hold the records of their tables, whether or not a table has any. */
  ghost predicate Holds(calls: seq<Call>, batch: Batch) {
    forall i :: 0 <= i < |calls| ==> calls[i].records == RecordsOf(calls[i].table, batch)
  }

  lemma {:induction false} IndexedNone(calls: seq<Call>)
    requires Holds(calls, [])
    ensures Indexed(calls) == multiset{}
  {
    if calls != [] {
      IndexedNone(calls[..|calls| - 1]);
      assert EventsOf(calls[|calls| - 1]) == multiset{};
    }
  }

  /** With one more event, only its table's call grows, by that event. */
  lemma {:induction false} IndexedSnoc(before: seq<Call>, calls: seq<Call>, batch: Batch, e: Event)
    requires |before| == |calls| && Holds(before, batch) && Holds(calls, batch + [e]) && DistinctTables(calls)
    requires forall i :: 0 <= i < |calls| ==> before[i].table == calls[i].table
    ensures Indexed(calls) == Indexed(before) + Grown(HasCall(calls, e.table), e)
  {
    if calls != [] {
      var n := |calls| - 1;
      IndexedSnoc(before[..n], calls[..n], batch, e);
      CallSnoc(before[n], calls[n], batch, e);
      Regroup(Indexed(before[..n]), Grown(HasCall(calls[..n], e.table), e), EventsOf(before[n]),
        Grown(calls[n].table == e.table, e));
      GrownOnce(calls, e);
    }
  }

  lemma {:induction false} GrownOnce(calls: seq<Call>, e: Event)
    requires DistinctTables(calls) && calls != []
    ensures var n := |calls| - 1;
      Grown(HasCall(calls[..n], e.table), e) + Grown(calls[n].table == e.table, e) == Grown(HasCall(calls, e.table), e)
  {
    var n := |calls| - 1;
    assert calls == calls[..n] + [calls[n]];
    HasCallSnoc(calls[..n], calls[n], e.table);
    if calls[n].table == e.table {
      NoCallTwice(calls, e.table);
    }
  }

  function Grown(grows: bool, e: Event): multiset<Event> {
    if grows then multiset{e} else multiset{}
  }

  lemma Regroup(a: multiset<Event>, x: multiset<Event>, b: multiset<Event>, y: multiset<Event>)
    ensures (a + x) + (b + y) == (a + b) + (x + y)
  {
  }

  lemma NoCallTwice(calls: seq<Call>, table: string)
    requires DistinctTables(calls) && calls != [] && calls[|calls| - 1].table == table
    ensures !HasCall(calls[..|calls| - 1], table)
  {
  }

  function Labelled(table: string, records: seq<nat>): seq<Event> {
    seq(|records|, k requires 0 <= k < |records| => Event(table, records[k]))
  }

  lemma {:induction false} CallSnoc(before: Call, call: Call, batch: Batch, e: Event)
    requires before.table == call.table
    requires before.records == RecordsOf(before.table, batch) && call.records == RecordsOf(call.table, batch + [e])
    ensures EventsOf(call) == EventsOf(before) + Grown(call.table == e.table, e)
  {
    assert (batch + [e])[..|batch|] == batch;
    if call.table == e.table {
      var a := Labelled(before.table, before.records);
      assert call.records == before.records + [e.data];
      assert Labelled(call.table, call.records) == a + [e];
      assert multiset(a + [e]) == multiset(a) + multiset{e};
    } else {
      assert call == before;
      assert EventsOf(before) + multiset{} == EventsOf(before);
    }
  }

  /** The same tables with the records of another batch. */
  function CallsFor(calls: seq<Call>, batch: Batch): seq<Call> {
    seq(|calls|, i requires 0 <= i < |calls| => Call(calls[i].table, RecordsOf(calls[i].table, batch)))
  }

  lemma {:induction false} CallsForCover(calls: seq<Call>, batch: Batch, table: string)
    ensures HasCall(CallsFor(calls, batch), table) <==> HasCall(calls, table)
  {
    var before := CallsFor(calls, batch);
    if HasCall(calls, table) {
      var i :| 0 <= i < |calls| && calls[i].table == table;
      assert before[i].table == table;
    }
    if HasCall(before, table) {
      var i :| 0 <= i < |before| && before[i].table == table;
      assert calls[i].table == table;
    }
  }

  lemma {:induction false} GroupsCover(calls: seq<Call>, batch: Batch)
    requires DistinctTables(calls) && Holds(calls, batch)
    requires forall e :: e in batch ==> HasCall(calls, e.table)
    ensures Indexed(calls) == multiset(batch)
    decreases |batch|
  {
    if batch == [] {
      IndexedNone(calls);
    } else {
      var n := |batch| - 1;
      var before := CallsFor(calls, batch[..n]);
      forall x | x in batch[..n]
        ensures HasCall(before, x.table)
      {
        assert x in batch;
        CallsForCover(calls, batch[..n], x.table);
      }
      assert batch == batch[..n] + [batch[n]];
      GroupsCover(before, batch[..n]);
      GroupsNext(before, calls, batch[..n], batch[n]);
    }
  }

  lemma {:induction false} GroupsNext(before: seq<Call>, calls: seq<Call>, batch: Batch, e: Event)
    requires before == CallsFor(calls, batch) && DistinctTables(calls) && Holds(calls, batch + [e])
    requires HasCall(calls, e.table) && Indexed(before) == multiset(batch)
    ensures Indexed(calls) == multiset(batch + [e])
  {
    IndexedSnoc(before, calls, batch, e);
    assert multiset(batch + [e]) == multiset(batch) + multiset{e};
  }

  /** The index calls of a batch contain each of its events exactly as often as the batch does. */
  lemma {:induction false} GroupsPartition(calls: seq<Call>, batch: Batch)
    requires IsWorkOf(calls, batch)
    ensures Indexed(calls) == multiset(batch)
  {
    assert forall e :: e in batch ==> e.table in TablesOf(batch);
    GroupsCover(calls, batch);
  }
}
