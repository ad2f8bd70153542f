/** The event pipeline as a step system: a poller, a batcher and three workers over two bounded
    channels. Nothing is lost or reordered, every bound holds, and it cannot get stuck. */
module EventPipeline {
  import opened Collections

  /** A change event; `data` is carried along and not looked at. */
  datatype Event = Event(table: string, data: nat)

  type Batch = seq<Event>

  const EVENT_CAP: nat := 10000
  const BATCH_CAP: nat := 100
  const WORKERS: nat := 3
  const BATCH_SIZE: nat := 500

  /** `pending` are events fetched and not yet pushed; `flushing` is the batcher blocked on sending
      its buffer. `fetched`, `sent`, `taken` and `finished` are history. */
  datatype Pipe = Pipe(
    fetched: seq<Event>,
    pending: seq<Event>,
    eventChan: seq<Event>,
    buf: Batch,
    flushing: bool,
    batchChan: seq<Batch>,
    busy: seq<Option<Batch>>,
    sent: seq<Batch>,
    taken: seq<Batch>,
    finished: multiset<Batch>)

  const START := Pipe([], [], [], [], false, [], [None, None, None], [], [], multiset{})

  datatype Action =
    | Fetch(events: seq<Event>)    // the poller's next query
    | Push                         // the poller sends one event
    | Receive                      // the batcher takes one event
    | Tick                         // the batcher's timer fires
    | Flush                        // the batcher's buffer goes out
    | TakeBatch(w: nat)            // a worker receives a batch
    | Finish(w: nat)               // a worker is done with its batch

  predicate Enabled(s: Pipe, a: Action) {
    match a
    case Fetch(_) => s.pending == []
    case Push => s.pending != [] && |s.eventChan| < EVENT_CAP
    case Receive => !s.flushing && s.eventChan != []
    case Tick => !s.flushing && s.buf != []
    case Flush => s.flushing && |s.batchChan| < BATCH_CAP
    case TakeBatch(w) => w < |s.busy| && s.busy[w] == None && s.batchChan != []
    case Finish(w) => w < |s.busy| && s.busy[w].Some?
  }

  /** The steps of the system itself, without the poller's queries. */
  predicate Internal(a: Action) { !a.Fetch? }

  function Apply(s: Pipe, a: Action): Pipe
    requires Enabled(s, a)
  {
    match a
    case Fetch(events) => s.(fetched := s.fetched + events, pending := events)
    case Push => s.(pending := s.pending[1..], eventChan := s.eventChan + [s.pending[0]])
    case Receive =>
      var buf := s.buf + [s.eventChan[0]];
      s.(eventChan := s.eventChan[1..], buf := buf, flushing := |buf| >= BATCH_SIZE)
    case Tick => s.(flushing := true)
    case Flush => s.(batchChan := s.batchChan + [s.buf], sent := s.sent + [s.buf], buf := [], flushing := false)
    case TakeBatch(w) =>
      s.(batchChan := s.batchChan[1..], busy := s.busy[w := Some(s.batchChan[0])], taken := s.taken + [s.batchChan[0]])
    case Finish(w) => s.(busy := s.busy[w := None], finished := s.finished + multiset{s.busy[w].value})
  }

  /** A run: each action enabled in its turn. */
  ghost predicate Runs(s: Pipe, actions: seq<Action>, t: Pipe)
    decreases |actions|
  {
    if actions == [] then t == s
    else Enabled(s, actions[0]) && Runs(Apply(s, actions[0]), actions[1..], t)
  }

  /** How many workers hold a batch. */
  function HeldCount(busy: seq<Option<Batch>>, b: Batch): nat {
    if busy == [] then 0 else HeldCount(busy[..|busy| - 1], b) + if busy[|busy| - 1] == Some(b) then 1 else 0
  }

  // ----- the invariant -----

  ghost predicate GoodBatches(batches: seq<Batch>) {
    forall i :: 0 <= i < |batches| ==> 0 < |batches[i]| <= BATCH_SIZE
  }

  /** Events: fetched = all batches ever sent, then the buffer, the channel and the rest, in order. */
  ghost predicate EventsKept(s: Pipe) {
    s.fetched == Concat(s.sent) + s.buf + s.eventChan + s.pending
  }

  /** Batches: sent = taken, then the channel, in order; taken = finished and held. */
  ghost predicate BatchesKept(s: Pipe) {
    s.sent == s.taken + s.batchChan && forall b :: multiset(s.taken)[b] == s.finished[b] + HeldCount(s.busy, b)
  }

  ghost predicate Bounded(s: Pipe) {
    && |s.eventChan| <= EVENT_CAP && |s.batchChan| <= BATCH_CAP && |s.busy| == WORKERS
    && |s.buf| <= BATCH_SIZE && (!s.flushing ==> |s.buf| < BATCH_SIZE) && (s.flushing ==> s.buf != [])
    && GoodBatches(s.sent)
  }

  ghost predicate Inv(s: Pipe) {
    EventsKept(s) && BatchesKept(s) && Bounded(s)
  }

  lemma {:induction false} StartInv()
    ensures Inv(START)
  {
    forall b: Batch
      ensures HeldCount(START.busy, b) == 0
    {
      NoneHeld(START.busy, b);
    }
  }

  lemma MoveHead<T>(a: seq<T>, b: seq<T>)
    requires b != []
    ensures a + b == (a + [b[0]]) + b[1..]
  {
  }

  lemma {:induction false} StepKeepsEvents(s: Pipe, a: Action)
    requires EventsKept(s) && Enabled(s, a)
    ensures EventsKept(Apply(s, a))
  {
    var all := Concat(s.sent);
    match a
    case Fetch(events) =>
      assert all + s.buf + s.eventChan + [] == all + s.buf + s.eventChan;
    case Push =>
      MoveHead(all + s.buf + s.eventChan, s.pending);
      assert all + s.buf + s.eventChan + [s.pending[0]] == all + s.buf + (s.eventChan + [s.pending[0]]);
    case Receive =>
      MoveHead(all + s.buf, s.eventChan);
      assert all + s.buf + [s.eventChan[0]] == all + (s.buf + [s.eventChan[0]]);
    case Flush =>
      ConcatSnoc(s.sent, s.buf);
      assert all + s.buf == all + s.buf + [];
    case Tick =>
    case TakeBatch(w) =>
    case Finish(w) =>
  }

  lemma {:induction false} HeldUpdate(busy: seq<Option<Batch>>, w: nat, x: Option<Batch>, b: Batch)
    requires w < |busy|
    ensures HeldCount(busy[w := x], b) + (if busy[w] == Some(b) then 1 else 0) ==
      HeldCount(busy, b) + if x == Some(b) then 1 else 0
  {
    var n := |busy| - 1;
    if w < n {
      HeldUpdate(busy[..n], w, x, b);
      assert busy[w := x][..n] == busy[..n][w := x];
    } else {
      assert busy[w := x][..n] == busy[..n];
    }
  }

  lemma {:induction false} TakeKeepsBatches(s: Pipe, w: nat)
    requires BatchesKept(s) && Enabled(s, TakeBatch(w))
    ensures BatchesKept(Apply(s, TakeBatch(w)))
  {
    var x := s.batchChan[0];
    MoveHead(s.taken, s.batchChan);
    assert multiset(s.taken + [x]) == multiset(s.taken) + multiset{x};
    forall b: Batch
      ensures HeldCount(s.busy[w := Some(x)], b) == HeldCount(s.busy, b) + if x == b then 1 else 0
    {
      HeldUpdate(s.busy, w, Some(x), b);
    }
  }

  lemma {:induction false} FinishKeepsBatches(s: Pipe, w: nat)
    requires BatchesKept(s) && Enabled(s, Finish(w))
    ensures BatchesKept(Apply(s, Finish(w)))
  {
    forall b: Batch
      ensures HeldCount(s.busy[w := None], b) + (if s.busy[w].value == b then 1 else 0) == HeldCount(s.busy, b)
    {
      HeldUpdate(s.busy, w, None, b);
    }
  }

  lemma {:induction false} StepKeepsBatches(s: Pipe, a: Action)
    requires BatchesKept(s) && Enabled(s, a)
    ensures BatchesKept(Apply(s, a))
  {
    match a
    case Flush =>
      assert s.taken + s.batchChan + [s.buf] == s.taken + (s.batchChan + [s.buf]);
    case TakeBatch(w) =>
      TakeKeepsBatches(s, w);
    case Finish(w) =>
      FinishKeepsBatches(s, w);
    case _ =>
  }

  lemma StepKeepsBounds(s: Pipe, a: Action)
    requires Bounded(s) && Enabled(s, a)
    ensures Bounded(Apply(s, a))
  {
  }

  lemma {:induction false} StepKeepsInv(s: Pipe, a: Action)
    requires Inv(s) && Enabled(s, a)
    ensures Inv(Apply(s, a))
  {
    StepKeepsEvents(s, a);
    StepKeepsBatches(s, a);
    StepKeepsBounds(s, a);
  }

  /** In every reachable state the fetched events are, in order, those in the batches ever sent, the
      buffer, the channel and the poller's hands; every batch holds 1 to 500 events; and the sent
      batches are, in order, those taken by workers and those in the channel. */
  lemma {:induction false} Conservation(s: Pipe, actions: seq<Action>, t: Pipe)
    requires Inv(s) && Runs(s, actions, t)
    ensures Inv(t)
    decreases |actions|
  {
    if actions != [] {
      StepKeepsInv(s, actions[0]);
      Conservation(Apply(s, actions[0]), actions[1..], t);
    }
  }

  // ----- how much can be in flight -----

  function Sizes(batches: seq<Batch>): nat {
    if batches == [] then 0 else Sizes(batches[..|batches| - 1]) + |batches[|batches| - 1]|
  }

  function HeldSize(busy: seq<Option<Batch>>): nat {
    if busy == [] then 0
    else HeldSize(busy[..|busy| - 1]) + if busy[|busy| - 1].Some? then |busy[|busy| - 1].value| else 0
  }

  function InFlight(s: Pipe): nat {
    |s.eventChan| + |s.buf| + Sizes(s.batchChan) + HeldSize(s.busy)
  }

  const IN_FLIGHT_MAX: nat := 62000

  lemma {:induction false} SizesBound(batches: seq<Batch>)
    requires GoodBatches(batches)
    ensures |batches| <= Sizes(batches) <= |batches| * BATCH_SIZE
  {
    if batches != [] {
      SizesBound(batches[..|batches| - 1]);
    }
  }

  lemma {:induction false} HeldBound(busy: seq<Option<Batch>>)
    requires forall w :: 0 <= w < |busy| && busy[w].Some? ==> |busy[w].value| <= BATCH_SIZE
    ensures HeldSize(busy) <= |busy| * BATCH_SIZE
  {
    if busy != [] {
      HeldBound(busy[..|busy| - 1]);
    }
  }

  lemma {:induction false} HeldIsCounted(busy: seq<Option<Batch>>, w: nat)
    requires w < |busy| && busy[w].Some?
    ensures HeldCount(busy, busy[w].value) >= 1
  {
    if w < |busy| - 1 {
      HeldIsCounted(busy[..|busy| - 1], w);
    }
  }

  lemma {:induction false} HeldAreSent(s: Pipe)
    requires Inv(s)
    ensures forall w :: 0 <= w < |s.busy| && s.busy[w].Some? ==> 0 < |s.busy[w].value| <= BATCH_SIZE
  {
    forall w | 0 <= w < |s.busy| && s.busy[w].Some?
      ensures 0 < |s.busy[w].value| <= BATCH_SIZE
    {
      var b := s.busy[w].value;
      HeldIsCounted(s.busy, w);
      assert b in multiset(s.taken);
      var i :| 0 <= i < |s.taken| && s.taken[i] == b;
      assert s.sent[i] == b;
    }
  }

  /** At most 62000 events are between the poller and the index at any time. */
  lemma {:induction false} InFlightBound(s: Pipe)
    requires Inv(s)
    ensures InFlight(s) <= IN_FLIGHT_MAX
  {
    forall i | 0 <= i < |s.batchChan|
      ensures 0 < |s.batchChan[i]| <= BATCH_SIZE
    {
      assert s.sent[|s.taken| + i] == s.batchChan[i];
    }
    SizesBound(s.batchChan);
    HeldAreSent(s);
    HeldBound(s.busy);
  }

  // ----- it cannot get stuck -----

  function BusyCount(busy: seq<Option<Batch>>): nat {
    if busy == [] then 0 else BusyCount(busy[..|busy| - 1]) + if busy[|busy| - 1].Some? then 1 else 0
  }

  lemma {:induction false} BusyUpdate(busy: seq<Option<Batch>>, w: nat, b: Option<Batch>)
    requires w < |busy|
    ensures BusyCount(busy[w := b]) + (if busy[w].Some? then 1 else 0) == BusyCount(busy) + if b.Some? then 1 else 0
  {
    var n := |busy| - 1;
    if w < n {
      BusyUpdate(busy[..n], w, b);
      assert busy[w := b][..n] == busy[..n][w := b];
    } else {
      assert busy[w := b][..n] == busy[..n];
    }
  }

  /** An upper bound on the steps left until everything fetched is indexed. */
  function Work(s: Pipe): nat {
    10 * |s.pending| + 9 * |s.eventChan| + 6 * |s.buf| + (if s.flushing then 0 else 1) + 2 * |s.batchChan| +
      BusyCount(s.busy)
  }

  lemma {:induction false} StepDoesWork(s: Pipe, a: Action)
    requires Inv(s) && Enabled(s, a) && Internal(a)
    ensures Work(Apply(s, a)) < Work(s)
  {
    match a
    case TakeBatch(w) => BusyUpdate(s.busy, w, Some(s.batchChan[0]));
    case Finish(w) => BusyUpdate(s.busy, w, None);
    case _ =>
  }

  predicate Drained(s: Pipe) {
    s.pending == [] && s.eventChan == [] && s.buf == [] && s.batchChan == [] &&
      forall w :: 0 <= w < |s.busy| ==> s.busy[w] == None
  }

  /** No deadlock: while anything is left, some step is enabled without a new query. */
  lemma {:induction false} NeverStuck(s: Pipe) returns (a: Action)
    requires Inv(s) && !Drained(s)
    ensures Enabled(s, a) && Internal(a)
  {
    if w: nat :| w < |s.busy| && s.busy[w].Some? {
      a := Finish(w);
    } else if s.batchChan != [] {
      assert s.busy[0] == None;
      a := TakeBatch(0);
    } else if s.flushing {
      a := Flush;
    } else if s.eventChan != [] {
      a := Receive;
    } else if s.buf != [] {
      a := Tick;
    } else {
      a := Push;
    }
  }

  ghost predicate AllInternal(actions: seq<Action>) {
    forall i :: 0 <= i < |actions| ==> Internal(actions[i])
  }

  /** Without new queries every run is finite, however the goroutines are scheduled. */
  lemma {:induction false} RunsAreShort(s: Pipe, actions: seq<Action>, t: Pipe)
    requires Inv(s) && Runs(s, actions, t) && AllInternal(actions)
    ensures |actions| + Work(t) <= Work(s)
    decreases |actions|
  {
    if actions != [] {
      StepKeepsInv(s, actions[0]);
      StepDoesWork(s, actions[0]);
      RunsAreShort(Apply(s, actions[0]), actions[1..], t);
    }
  }

  lemma {:induction false} NoneHeld(busy: seq<Option<Batch>>, b: Batch)
    requires forall w :: 0 <= w < |busy| ==> busy[w] == None
    ensures HeldCount(busy, b) == 0
  {
    if busy != [] {
      NoneHeld(busy[..|busy| - 1], b);
    }
  }

  /** A run that cannot continue without a new query has indexed everything: the fetched events are
      exactly those of the finished batches. */
  lemma {:induction false} StuckMeansDone(s: Pipe, actions: seq<Action>, t: Pipe)
    requires Inv(s) && Runs(s, actions, t)
    requires forall a :: Internal(a) ==> !Enabled(t, a)
    ensures t.fetched == Concat(t.sent) && multiset(t.sent) == t.finished
  {
    Conservation(s, actions, t);
    if !Drained(t) {
      var a := NeverStuck(t);
    }
    forall b: Batch
      ensures multiset(t.taken)[b] == t.finished[b]
    {
      NoneHeld(t.busy, b);
    }
    assert t.sent == t.taken;
  }
}
