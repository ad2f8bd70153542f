/** How often a batch is tried before it is given up: over all runs of the step system. */
module CdcRetries {
  import opened Collections
  import opened SearchIndex
  import opened CdcSync

  /** The run has a batch in hand that is not sent completely. */
  predicate Sending(s: State, w: nat) {
    WorkerOf(s, w).Indexing? && !WorkerOf(s, w).phase.WritingCheckpoint?
  }

  /** The step fetches a batch for run `w`. */
  predicate Fetches(s: State, a: Action, w: nat) {
    || (a.FetchChunk? && a.w == w && WorkerOf(s, w).AtChunk?)
    || (a.FetchNew? && a.w == w && WorkerOf(s, w).Since?)
  }

  /** A send of run `w` is refused. */
  predicate Refuses(s: State, a: Action, w: nat) {
    a == Send(w, false) && Sending(s, w)
  }

  /** The refused sends of run `w` since it last fetched a batch. */
  ghost function Refusals(cfg: Config, actions: seq<Action>, w: nat): nat
    requires ValidConfig(cfg)
  {
    if actions == [] then 0
    else
      var n := |actions| - 1;
      var s := Run(cfg, INITIAL, actions[..n]);
      if Fetches(s, actions[n], w) || actions[n].Crash? then 0
      else Refusals(cfg, actions[..n], w) + if Refuses(s, actions[n], w) then 1 else 0
  }

  lemma {:induction false} RefusalsNext(cfg: Config, actions: seq<Action>, a: Action, w: nat)
    requires ValidConfig(cfg)
    ensures var s := Run(cfg, INITIAL, actions);
      Refusals(cfg, actions + [a], w) ==
        if Fetches(s, a, w) || a.Crash? then 0 else Refusals(cfg, actions, w) + if Refuses(s, a, w) then 1 else 0
  {
    assert (actions + [a])[..|actions|] == actions;
  }

  lemma {:induction false} RunNext(cfg: Config, actions: seq<Action>, a: Action)
    requires ValidConfig(cfg)
    ensures Run(cfg, INITIAL, actions + [a]) == Apply(cfg, Run(cfg, INITIAL, actions), a)
  {
    assert (actions + [a])[..|actions|] == actions;
  }

  /** A run with a batch in hand has had as many refusals as it has had earlier attempts. */
  ghost predicate Counted(cfg: Config, s: State, w: nat, refusals: nat) {
    WorkerOf(s, w).Indexing? ==> WorkerOf(s, w).attempt == refusals < cfg.maxRetries
  }

  lemma {:induction false} StepCounts(cfg: Config, s: State, a: Action, w: nat, before: nat, after: nat)
    requires ValidConfig(cfg) && Counted(cfg, s, w, before)
    requires after == if Fetches(s, a, w) || a.Crash? then 0 else before + if Refuses(s, a, w) then 1 else 0
    ensures Counted(cfg, Apply(cfg, s, a), w, after)
  {
  }

  lemma {:induction false} AttemptsCounted(cfg: Config, actions: seq<Action>, w: nat)
    requires ValidConfig(cfg)
    ensures Counted(cfg, Run(cfg, INITIAL, actions), w, Refusals(cfg, actions, w))
  {
    if actions != [] {
      var n := |actions| - 1;
      AttemptsCounted(cfg, actions[..n], w);
      assert actions == actions[..n] + [actions[n]];
      RefusalsNext(cfg, actions[..n], actions[n], w);
      StepCounts(cfg, Run(cfg, INITIAL, actions[..n]), actions[n], w,
                 Refusals(cfg, actions[..n], w), Refusals(cfg, actions, w));
    }
  }

  /** A refused send before the last: the run still has the same batch and starts over with its
      first send. The last one: the batch's range goes to the dead letters and the run ends. */
  lemma {:induction false} RefusalRetriesOrGivesUp(cfg: Config, actions: seq<Action>, w: nat)
    requires ValidConfig(cfg) && Sending(Run(cfg, INITIAL, actions), w)
    ensures var s := Run(cfg, INITIAL, actions);
      var t := Run(cfg, INITIAL, actions + [Send(w, false)]);
      var refusals := Refusals(cfg, actions + [Send(w, false)], w);
      var job := WorkerOf(s, w).job;
      && 0 < refusals <= cfg.maxRetries
      && t.store == s.store && t.checkpoint == s.checkpoint
      && (refusals < cfg.maxRetries ==>
            && t.deadLetters == s.deadLetters
            && WorkerOf(t, w).Indexing? && WorkerOf(t, w).job == job && WorkerOf(t, w).phase.SendingMain?)
      && (refusals == cfg.maxRetries ==>
            && t.deadLetters == s.deadLetters + [DeadLetter(job.from, job.upto)]
            && WorkerOf(t, w).Idle?)
  {
    AttemptsCounted(cfg, actions, w);
    RefusalsNext(cfg, actions, Send(w, false), w);
    RunNext(cfg, actions, Send(w, false));
  }

  lemma StepAddsNone(cfg: Config, s: State, a: Action)
    requires ValidConfig(cfg) && !(a.Send? && Refuses(s, a, a.w))
    ensures Apply(cfg, s, a).deadLetters == s.deadLetters
  {
  }

  /** Only the refusal that exhausts the retries of some run adds a dead letter. */
  lemma {:induction false} DeadLetterOnlyAfterRetries(cfg: Config, actions: seq<Action>, a: Action)
    requires ValidConfig(cfg)
    ensures var s := Run(cfg, INITIAL, actions);
      var t := Run(cfg, INITIAL, actions + [a]);
      t.deadLetters != s.deadLetters <==>
        a.Send? && Refuses(s, a, a.w) && Refusals(cfg, actions + [a], a.w) == cfg.maxRetries
  {
    if a.Send? && Refuses(Run(cfg, INITIAL, actions), a, a.w) {
      RefusalRetriesOrGivesUp(cfg, actions, a.w);
    } else {
      RunNext(cfg, actions, a);
      StepAddsNone(cfg, Run(cfg, INITIAL, actions), a);
    }
  }
}
