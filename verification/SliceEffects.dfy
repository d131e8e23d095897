/** What each kind of step of the slice protocol changes, and what it leaves alone. */
module SliceEffects {
  import opened Wrappers
  import opened Redis
  import opened SliceProtocol
  import opened SliceDelivery
  import T = TriggerWork

  // ---- Submissions ----

  lemma OnlyBatchesSubmit(c: Config, s: Slice, step: Step)
    requires c.Valid() && !step.Batch?
    ensures Do(c, s, step).submitted == s.submitted
  {
  }

  /**
    Whatever a batch submitted counts, whether it then failed or not: each of its tasks once,
    in order, with the time and the store that answered, and nothing else.
   */
  lemma BatchSubmits(c: Config, s: Slice, t: Token, k: nat, source: Source, tasks: seq<Task>, error: Option<T.Error>)
    requires c.Valid() && Enabled(c, s, Batch(t, k, source, tasks, error))
    ensures var subs, subs' := s.submitted, Do(c, s, Batch(t, k, source, tasks, error)).submitted;
            && |subs'| == |subs| + |tasks| && subs <= subs'
            && (forall i | 0 <= i < |tasks| :: subs'[|subs| + i] == Submission(t, k, tasks[i], s.store.now, source))
            && forall x :: Times(subs', x, Any) == Times(subs, x, Any) + if x in tasks then 1 else 0
  {
    var subs, subs' := s.submitted, Do(c, s, Batch(t, k, source, tasks, error)).submitted;
    assert subs' == Submit(s, t, k, source, tasks);
    forall x
      ensures Times(subs', x, Any) == Times(subs, x, Any) + if x in tasks then 1 else 0
    {
      TimesGrow(subs, subs', tasks, x);
    }
  }

  lemma {:induction false} TimesGrow(subs: seq<Submission>, subs': seq<Submission>, tasks: seq<Task>, x: Task)
    requires |subs'| == |subs| + |tasks| && subs <= subs' && NoDuplicates(tasks)
    requires forall i | 0 <= i < |tasks| :: subs'[|subs| + i].task == tasks[i]
    ensures Times(subs', x, Any) == Times(subs, x, Any) + if x in tasks then 1 else 0
  {
    if tasks == [] {
      assert subs' == subs;
    } else {
      var rest, last := tasks[..|tasks| - 1], tasks[|tasks| - 1];
      TimesGrow(subs, subs'[..|subs'| - 1], rest, x);
      assert tasks == rest + [last];
      assert subs'[|subs'| - 1].task == last;
      assert last !in rest;
    }
  }

  // ---- The lock ----

  /**
    A request for the lock moves the store as one SET NX; it counts as a grant exactly if it was
    granted, and starts a run exactly if the answer arrived, too.
   */
  lemma AttemptStarts(c: Config, s: Slice, t: Token, sampled: int, answered: bool)
    requires c.Valid() && Enabled(c, s, Attempt(t, sampled, answered)) && t !in s.runs
    ensures var s', granted := Do(c, s, Attempt(t, sampled, answered)), !s.store.Held(c.key);
            && (if granted then s'.store.HeldBy(c.key, t) else s'.store == s.store)
            && (granted ==> s'.store.entries[c.key].expiry == Some(s.store.now + c.lease))
            && s'.grants == s.grants + (if granted then [s.store.now] else [])
            && s'.runs.Keys == s.runs.Keys + (if granted && answered then {t} else {})
            && (forall u | u in s.runs :: s'.runs[u] == s.runs[u])
            && (t in s'.runs ==> s'.runs[t] == Run(s.store.now, T.Start(c.gap), map[], true))
            && s'.issued == s.issued + {t} && s'.cached == s.cached && s'.finished == s.finished
  {
    assert Do(c, s, Attempt(t, sampled, answered)) == Attempted(c, s, t, answered);
  }

  /**
    An ack moves the lock's expiry only for the run whose token still holds it, only if that run
    saw no failure, and only if the request arrives; that finishes the slice.
   */
  lemma ConcludeAcks(c: Config, s: Slice, t: Token, delivered: bool)
    requires c.Valid() && Enabled(c, s, Conclude(t, delivered))
    ensures var s' := Do(c, s, Conclude(t, delivered));
            var acks := s.runs[t].work.errors == [] && delivered && s.store.HeldBy(c.key, t);
            && s'.store.now == s.store.now && s'.grants == s.grants && s'.runs.Keys == s.runs.Keys
            && (acks ==> s'.finished && s'.store.HeldBy(c.key, t) == (c.success > 0)
                         && s'.store.entries[c.key] == Entry(t, Some(s.store.now + c.success)))
            && (!acks ==> s'.finished == s.finished && s'.store == s.store)
            && (s'.runs[t].work.phase.Acked? <==> s.runs[t].work.errors == [])
            && forall u | u in s.runs && u != t :: s'.runs[u] == s.runs[u]
  {
    assert Do(c, s, Conclude(t, delivered))
        == Conclusion(c, s, t, T.Do(c.gap, s.runs[t].work, T.Conclude), delivered);
  }

  /** No other step touches the lock, except that time passes. */
  lemma OthersLeaveTheLock(c: Config, s: Slice, step: Step)
    requires c.Valid() && !step.Attempt? && !step.Conclude?
    ensures Do(c, s, step).store == if step.Pass? then Apply(s.store, Advance(step.delta)) else s.store
    ensures Do(c, s, step).grants == s.grants && Do(c, s, step).finished == s.finished
  {
  }

  /**
    The protocol runs on the lock store itself: what it reaches is what some operations on the
    slice's key reach, none of them a delete: the slice lock is never released.
   */
  lemma {:induction false} StoreIsReached(c: Config, steps: seq<Step>) returns (ops: seq<Op>)
    requires c.Valid()
    ensures After(Start(c).store, ops) == Reached(c, steps).store
    ensures forall op | op in ops :: op.Advance? || (op.key == c.key && !op.DeleteIfOwner?)
  {
    if steps == [] {
      ops := [];
    } else {
      var init := steps[..|steps| - 1];
      var before := StoreIsReached(c, init);
      var last := LastOp(c, Reached(c, init), steps[|steps| - 1]);
      if last.None? {
        ops := before;
      } else {
        ops := before + [last.value];
        AfterStep(Start(c).store, before, last.value);
      }
    }
  }

  lemma LastOp(c: Config, s: Slice, step: Step) returns (op: Option<Op>)
    requires c.Valid()
    ensures Do(c, s, step).store == if op.None? then s.store else Apply(s.store, op.value)
    ensures op.Some? ==> op.value.Advance? || (op.value.key == c.key && !op.value.DeleteIfOwner?)
  {
    op := None;
    if Enabled(c, s, step) {
      match step
      case Pass(delta) => op := Some(Advance(delta));
      case Attempt(t, _, answered) => op := Some(SetNX(c.key, t, c.lease));
      case Conclude(t, delivered) =>
        if s.runs[t].work.errors == [] && delivered {
          op := Some(ExpireIfOwner(c.key, t, c.success));
        }
      case _ =>
    }
  }

  // ---- Crashes ----

  lemma CrashKills(c: Config, s: Slice, tokens: set<Token>)
    requires c.Valid()
    ensures var s' := Do(c, s, Crash(tokens));
            && s'.runs.Keys == s.runs.Keys
            && forall t | t in s.runs :: s'.runs[t] == if t in tokens then s.runs[t].(alive := false) else s.runs[t]
  {
  }

  lemma DeadSubmitsNothing(c: Config, s: Slice, step: Step, t: Token)
    requires c.Valid() && t in s.runs && !s.runs[t].alive
    ensures forall sub | sub in Do(c, s, step).submitted && sub.token == t :: sub in s.submitted
  {
    if step.Batch? && Enabled(c, s, step) {
      SubmitAdds(s, step.token, step.window, step.source, step.tasks);
    } else if !step.Batch? {
      OnlyBatchesSubmit(c, s, step);
    }
  }

  lemma DeadRunStays(c: Config, s: Slice, step: Step, t: Token)
    requires c.Valid() && Timing(c, s) && t in s.runs && !s.runs[t].alive
    ensures t in Do(c, s, step).runs && Do(c, s, step).runs[t] == s.runs[t]
  {
    if Enabled(c, s, step) {
      match step
      case Attempt(u, sampled, answered) => AttemptStarts(c, s, u, sampled, answered);
      case Conclude(u, delivered) => ConcludeAcks(c, s, u, delivered);
      case Crash(tokens) => CrashKills(c, s, tokens);
      case _ =>
    }
  }

  /** A run that died scans, submits and acks nothing any more, whatever happens next. */
  lemma {:induction false} DeadStaysDead(c: Config, steps: seq<Step>, more: seq<Step>, t: Token)
    requires c.Valid() && t in Reached(c, steps).runs && !Reached(c, steps).runs[t].alive
    ensures t in Reached(c, steps + more).runs && Reached(c, steps + more).runs[t] == Reached(c, steps).runs[t]
    ensures forall sub | sub in Reached(c, steps + more).submitted && sub.token == t ::
              sub in Reached(c, steps).submitted
    decreases more
  {
    if more == [] {
      assert steps + more == steps;
    } else {
      var init, step := more[..|more| - 1], more[|more| - 1];
      assert steps + more == steps + init + [step];
      DeadStaysDead(c, steps, init, t);
      TimingAlways(c, steps + init);
      DeadSubmitsNothing(c, Reached(c, steps + init), step, t);
      DeadRunStays(c, Reached(c, steps + init), step, t);
      ExecStep(c, Start(c), steps + init, step);
    }
  }

  // ---- The cache ----

  /** A firing is cached when it is first inserted; adding it again changes nothing, and none is removed. */
  lemma InsertedOnce(c: Config, s: Slice, step: Step)
    requires c.Valid()
    ensures var s' := Do(c, s, step);
            forall x :: x in s'.cached <==> x in s.cached || (step == Insert(x) && c.Indexes(x))
    ensures var s' := Do(c, s, step);
            forall x | x in s'.cached :: s'.cached[x] == if x in s.cached then s.cached[x] else s.store.now
  {
  }
}
