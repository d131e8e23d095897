/** Which tasks a slice's runs submit, how often, and when. */
module SliceDelivery {
  import opened Clock
  import opened Wrappers
  import opened Redis
  import opened SliceProtocol
  import T = TriggerWork
  import W = Windows

  // ---- Every submission belongs to a scan ----

  ghost predicate TracedTo(c: Config, s: Slice, sub: Submission) {
    && sub.token in s.runs
    && sub.window in s.runs[sub.token].scans
    && s.runs[sub.token].scans[sub.window] == Scan(sub.at, sub.source)
    && c.minute + c.Span(sub.window) <= sub.task.run <= c.minute + c.Span(sub.window + 1)
    && (sub.source.Cache? ==> c.InWindow(sub.task, sub.window))
    && (c.Indexes(sub.task) || c.Filters(sub.task))
  }

  ghost predicate Traced(c: Config, s: Slice) {
    forall sub | sub in s.submitted :: TracedTo(c, s, sub)
  }

  /** The run time is the very end of the window, where only the database looks. */
  predicate AtEdge(c: Config, x: Task, k: nat) {
    x.run == c.minute + c.Span(k + 1)
  }

  /** No run submits a task twice, unless once from inside a window and once from the edge of another. */
  ghost predicate Once(c: Config, subs: seq<Submission>) {
    forall i, j | 0 <= i < j < |subs| && subs[i].token == subs[j].token && subs[i].task == subs[j].task ::
      AtEdge(c, subs[i].task, subs[i].window) != AtEdge(c, subs[j].task, subs[j].window)
  }

  ghost predicate CachedInOrder(c: Config, s: Slice) {
    forall x | x in s.cached :: c.Indexes(x) && s.cached[x] <= s.store.now
  }

  /** A successful cache scan has submitted what was cached by its own time. */
  ghost predicate Complete(c: Config, s: Slice) {
    forall t, k, x |
      t in s.runs && k in s.runs[t].scans && x in s.cached
      && s.runs[t].scans[k].source.Cache? && k < |s.runs[t].work.batches| && s.runs[t].work.batches[k] == T.Succeeded
      && c.InWindow(x, k) && s.cached[x] <= x.run ::
      Submission(t, k, x, s.runs[t].scans[k].at, Cache) in s.submitted
  }

  ghost predicate Delivery(c: Config, s: Slice) {
    Traced(c, s) && Once(c, s.submitted) && CachedInOrder(c, s) && Complete(c, s)
  }

  /** Steps that scan nothing and cache nothing. */
  ghost predicate NoScan(s: Slice, s': Slice) {
    && s'.submitted == s.submitted && s'.cached == s.cached && s.store.now <= s'.store.now
    && (forall t | t in s.runs :: t in s'.runs && s'.runs[t].scans == s.runs[t].scans
          && |s.runs[t].work.batches| <= |s'.runs[t].work.batches|
          && forall k | 0 <= k < |s.runs[t].work.batches| :: s'.runs[t].work.batches[k] == s.runs[t].work.batches[k])
    && (forall t | t in s'.runs && t !in s.runs :: s'.runs[t].scans == map[])
  }

  lemma NoScanKeepsDelivery(c: Config, s: Slice, s': Slice)
    requires c.Valid() && Timing(c, s) && Delivery(c, s) && NoScan(s, s')
    ensures Delivery(c, s')
  {
    forall sub | sub in s'.submitted
      ensures TracedTo(c, s', sub)
    {
      assert TracedTo(c, s, sub);
    }
    forall t | t in s'.runs && t in s.runs
      ensures RunOk(c, s.store.now, s.runs[t])
    {
    }
  }

  lemma AttemptScansNothing(c: Config, s: Slice, t: Token, answered: bool)
    requires c.Valid() && t !in s.runs
    ensures NoScan(s, Attempted(c, s, t, answered))
  {
  }

  lemma WorkScansNothing(s: Slice, t: Token, work: T.RunState)
    requires t in s.runs && s.runs[t].work.batches <= work.batches
    ensures NoScan(s, s.(runs := s.runs[t := s.runs[t].(work := work)]))
  {
  }

  lemma ConclusionScansNothing(c: Config, s: Slice, t: Token, work: T.RunState, delivered: bool)
    requires t in s.runs && s.runs[t].work.batches <= work.batches
    ensures NoScan(s, Conclusion(c, s, t, work, delivered))
  {
  }

  lemma OtherStepsScanNothing(c: Config, s: Slice, step: Step)
    requires c.Valid() && Timing(c, s) && Enabled(c, s, step) && !step.Batch? && !step.Insert?
    ensures NoScan(s, Do(c, s, step))
  {
    match step
    case Tick(t) =>
      T.TickOnlyAdds(c.gap, s.runs[t].work);
      WorkScansNothing(s, t, T.Do(c.gap, s.runs[t].work, T.Tick));
    case Conclude(t, delivered) =>
      T.ConcludeAddsNothing(c.gap, s.runs[t].work);
      ConclusionScansNothing(c, s, t, T.Do(c.gap, s.runs[t].work, T.Conclude), delivered);
    case Attempt(t, _, answered) => AttemptScansNothing(c, s, t, answered);
    case Pass(_) =>
    case Crash(tokens) => CrashScansNothing(c, s, tokens);
  }

  lemma CrashScansNothing(c: Config, s: Slice, tokens: set<Token>)
    requires c.Valid()
    ensures NoScan(s, Do(c, s, Crash(tokens)))
  {
  }

  /** A task added now, by its own run time, lies in a window that no run has scanned yet. */
  lemma LateInsertIsUnscanned(c: Config, s: Slice, x: Task, t: Token, k: nat)
    requires c.Valid() && Timing(c, s) && t in s.runs && k in s.runs[t].scans && c.InWindow(x, k)
    ensures x.run < s.store.now
  {
    assert RunOk(c, s.store.now, s.runs[t]);
  }

  lemma InsertKeepsDelivery(c: Config, s: Slice, x: Task)
    requires c.Valid() && Timing(c, s) && Delivery(c, s) && c.Indexes(x) && x !in s.cached
    ensures Delivery(c, s.(cached := s.cached[x := s.store.now]))
  {
    var s' := s.(cached := s.cached[x := s.store.now]);
    forall sub | sub in s'.submitted
      ensures TracedTo(c, s', sub)
    {
      assert TracedTo(c, s, sub);
    }
    forall t, k | t in s.runs && k in s.runs[t].scans && c.InWindow(x, k)
      ensures x.run < s.store.now
    {
      LateInsertIsUnscanned(c, s, x, t, k);
    }
  }

  lemma SubmitAdds(s: Slice, t: Token, k: nat, source: Source, tasks: seq<Task>)
    ensures forall sub :: sub in Submit(s, t, k, source, tasks) <==>
              sub in s.submitted || (sub.task in tasks && sub == Submission(t, k, sub.task, s.store.now, source))
  {
    var n, subs := |s.submitted|, Submit(s, t, k, source, tasks);
    assert forall i | 0 <= i < |tasks| :: subs[n + i] == Submission(t, k, tasks[i], s.store.now, source);
    assert forall i | 0 <= i < n :: subs[i] == s.submitted[i];
  }

  lemma BatchKeepsTraced(c: Config, s: Slice, t: Token, k: nat, work: T.RunState,
                         source: Source, tasks: seq<Task>, error: Option<T.Error>)
    requires Delivery(c, s) && t in s.runs && k !in s.runs[t].scans && Answer(c, s, k, source, tasks, error)
    ensures Traced(c, Batched(s, t, k, work, source, tasks))
  {
    var s' := Batched(s, t, k, work, source, tasks);
    SubmitAdds(s, t, k, source, tasks);
    forall sub | sub in s'.submitted
      ensures TracedTo(c, s', sub)
    {
      assert sub in s.submitted ==> TracedTo(c, s, sub);
    }
  }

  /** A time lies inside one window at most, and at the edge of one at most. */
  lemma OneWindowEach(c: Config, x: Task, j: nat, k: nat)
    requires c.gap > 0 && (AtEdge(c, x, j) <==> AtEdge(c, x, k))
    requires c.minute + c.Span(j) <= x.run <= c.minute + c.Span(j + 1)
    requires c.minute + c.Span(k) <= x.run <= c.minute + c.Span(k + 1)
    ensures j == k
  {
    if AtEdge(c, x, j) {
      SpanStep(c, j);
      SpanStep(c, k);
      if j < k {
        W.SpanMonotone(c.gap, j + 1, k);
      } else if k < j {
        W.SpanMonotone(c.gap, k + 1, j);
      }
    } else {
      W.WindowsAreDisjoint(c.gap, c.minute, x.run, j, k);
    }
  }

  lemma OnceAfterSubmit(c: Config, s: Slice, t: Token, k: nat, source: Source, tasks: seq<Task>)
    requires Once(c, s.submitted) && NoDuplicates(tasks)
    requires forall sub | sub in s.submitted && sub.token == t && sub.task in tasks ::
               AtEdge(c, sub.task, sub.window) != AtEdge(c, sub.task, k)
    ensures Once(c, Submit(s, t, k, source, tasks))
  {
    var n, subs := |s.submitted|, Submit(s, t, k, source, tasks);
    assert forall i | 0 <= i < n :: subs[i] == s.submitted[i] && subs[i] in s.submitted;
    assert forall i | n <= i < |subs| :: subs[i].task == tasks[i - n] && subs[i].task in tasks && subs[i].window == k;
  }

  lemma BatchKeepsOnce(c: Config, s: Slice, t: Token, k: nat, source: Source, tasks: seq<Task>, error: Option<T.Error>)
    requires c.gap > 0 && Delivery(c, s) && t in s.runs && k !in s.runs[t].scans
    requires Answer(c, s, k, source, tasks, error)
    ensures Once(c, Submit(s, t, k, source, tasks))
  {
    forall sub | sub in s.submitted && sub.token == t && sub.task in tasks
      ensures AtEdge(c, sub.task, sub.window) != AtEdge(c, sub.task, k)
    {
      assert TracedTo(c, s, sub);
      if AtEdge(c, sub.task, sub.window) == AtEdge(c, sub.task, k) {
        OneWindowEach(c, sub.task, sub.window, k);
        assert false;
      }
    }
    OnceAfterSubmit(c, s, t, k, source, tasks);
  }

  lemma BatchKeepsComplete(c: Config, s: Slice, t: Token, k: nat, work: T.RunState,
                           source: Source, tasks: seq<Task>, error: Option<T.Error>)
    requires Delivery(c, s) && t in s.runs && k !in s.runs[t].scans && Answer(c, s, k, source, tasks, error)
    requires k < |s.runs[t].work.batches|
    requires work.batches == s.runs[t].work.batches[k := if error.None? then T.Succeeded else T.Failed(error.value)]
    ensures Complete(c, Batched(s, t, k, work, source, tasks))
  {
    var s' := Batched(s, t, k, work, source, tasks);
    SubmitAdds(s, t, k, source, tasks);
    forall u, j, x |
      u in s'.runs && j in s'.runs[u].scans && x in s'.cached
      && s'.runs[u].scans[j].source.Cache? && j < |s'.runs[u].work.batches| && s'.runs[u].work.batches[j] == T.Succeeded
      && c.InWindow(x, j) && s'.cached[x] <= x.run
      ensures Submission(u, j, x, s'.runs[u].scans[j].at, Cache) in s'.submitted
    {
      if u != t || j != k {
        assert Submission(u, j, x, s.runs[u].scans[j].at, Cache) in s.submitted;
      } else {
        assert x in tasks;
      }
    }
  }

  lemma BatchKeepsDelivery(c: Config, s: Slice, t: Token, k: nat,
                           source: Source, tasks: seq<Task>, error: Option<T.Error>)
    requires c.Valid() && Timing(c, s) && Delivery(c, s) && Enabled(c, s, Batch(t, k, source, tasks, error))
    ensures Delivery(c, Do(c, s, Batch(t, k, source, tasks, error)))
  {
    assert RunOk(c, s.store.now, s.runs[t]);
    var work := T.Do(c.gap, s.runs[t].work, T.Finish(k, error));
    BatchKeepsTraced(c, s, t, k, work, source, tasks, error);
    BatchKeepsOnce(c, s, t, k, source, tasks, error);
    BatchKeepsComplete(c, s, t, k, work, source, tasks, error);
  }

  lemma {:induction false} DeliveryAlways(c: Config, steps: seq<Step>)
    requires c.Valid()
    ensures Delivery(c, Reached(c, steps))
  {
    if steps != [] {
      var init, step := steps[..|steps| - 1], steps[|steps| - 1];
      var s := Reached(c, init);
      TimingAlways(c, init);
      DeliveryAlways(c, init);
      if Enabled(c, s, step) {
        match step
        case Batch(t, k, source, tasks, error) =>
          BatchKeepsDelivery(c, s, t, k, source, tasks, error);
        case Insert(x) =>
          if x !in s.cached {
            InsertKeepsDelivery(c, s, x);
          }
        case _ =>
          OtherStepsScanNothing(c, s, step);
          NoScanKeepsDelivery(c, s, Do(c, s, step));
      }
    }
  }

  // ---- Main results ----

  /**
    Never early, even when the database answers: a task is submitted no earlier than its
    run time, because window k is scanned no earlier than k + 1 gaps after the lock.
   */
  lemma NeverEarly(c: Config, steps: seq<Step>, sub: Submission)
    requires c.Valid() && sub in Reached(c, steps).submitted
    ensures sub.token in Reached(c, steps).runs
    ensures var r := Reached(c, steps).runs[sub.token];
            && c.minute <= r.lockedAt
            && sub.task.run <= r.lockedAt + c.Span(sub.window + 1) <= sub.at
  {
    var s := Reached(c, steps);
    TimingAlways(c, steps);
    DeliveryAlways(c, steps);
    assert TracedTo(c, s, sub);
    assert RunOk(c, s.store.now, s.runs[sub.token]);
  }

  /** The run's lookups were all answered by the cache. */
  predicate CacheAnswered(r: Run) {
    forall k | k in r.scans :: r.scans[k].source.Cache?
  }

  /**
    Late inserts are seen: an acked run whose lookups the cache answered has submitted
    every task of the minute that was cached by its own run time, each from its own window.
   */
  lemma AckedRunSubmitsAll(c: Config, steps: seq<Step>, t: Token, x: Task) returns (k: nat)
    requires c.Valid() && c.gap <= T.MINUTE_SECONDS
    requires t in Reached(c, steps).runs && x in Reached(c, steps).cached
    requires Reached(c, steps).runs[t].work.phase.Acked? && CacheAnswered(Reached(c, steps).runs[t])
    requires Reached(c, steps).cached[x] <= x.run
    ensures k in Reached(c, steps).runs[t].scans && c.InWindow(x, k)
    ensures Submission(t, k, x, Reached(c, steps).runs[t].scans[k].at, Cache) in Reached(c, steps).submitted
  {
    var s := Reached(c, steps);
    TimingAlways(c, steps);
    DeliveryAlways(c, steps);
    assert RunOk(c, s.store.now, s.runs[t]);
    k := W.WindowsCoverTheMinute(c.gap, c.minute, x.run);
    assert s.runs[t].work.batches[k] == T.Succeeded;
  }

  /** Every scan of the run happened within `slack` of the instant its tick was due. */
  predicate Punctual(c: Config, r: Run, slack: nat) {
    forall k | k in r.scans :: r.scans[k].at <= r.lockedAt + c.Span(k + 1) + slack
  }

  /**
    What a punctual run submits is late by at most the time its lock came into the minute, one
    gap and the slack.
   */
  lemma LatencyBound(c: Config, steps: seq<Step>, sub: Submission, slack: nat)
    requires c.Valid() && sub in Reached(c, steps).submitted
    ensures sub.token in Reached(c, steps).runs
    ensures var r := Reached(c, steps).runs[sub.token];
            Punctual(c, r, slack) ==> 0 <= sub.at - sub.task.run <= (r.lockedAt - c.minute) + c.gap * SECOND + slack
  {
    NeverEarly(c, steps, sub);
    DeliveryAlways(c, steps);
    assert TracedTo(c, Reached(c, steps), sub);
    SpanStep(c, sub.window);
  }

  /** A punctual run that acks has submitted every task cached in time within that bound. */
  lemma PunctualRunSubmits(c: Config, steps: seq<Step>, t: Token, x: Task, slack: nat)
    requires c.Valid() && c.gap <= T.MINUTE_SECONDS
    requires t in Reached(c, steps).runs && x in Reached(c, steps).cached
    requires Reached(c, steps).runs[t].work.phase.Acked? && CacheAnswered(Reached(c, steps).runs[t])
    requires Reached(c, steps).cached[x] <= x.run && Punctual(c, Reached(c, steps).runs[t], slack)
    ensures exists sub | sub in Reached(c, steps).submitted ::
              && sub.token == t && sub.task == x
              && x.run <= sub.at <= x.run + (Reached(c, steps).runs[t].lockedAt - c.minute) + c.gap * SECOND + slack
  {
    var k := AckedRunSubmitsAll(c, steps, t, x);
    var sub := Submission(t, k, x, Reached(c, steps).runs[t].scans[k].at, Cache);
    LatencyBound(c, steps, sub, slack);
  }

  predicate FromCache(sub: Submission) {
    sub.source.Cache?
  }

  predicate Any(sub: Submission) {
    true
  }

  /** How often a task has been submitted, counting only the submissions that `counted` picks. */
  function Times(subs: seq<Submission>, x: Task, counted: Submission -> bool): nat {
    if subs == [] then 0
    else
      var sub := subs[|subs| - 1];
      Times(subs[..|subs| - 1], x, counted) + if sub.task == x && counted(sub) then 1 else 0
  }

  lemma {:induction false} TimesAtMostTokens(subs: seq<Submission>, x: Task, counted: Submission -> bool,
                                             tokens: set<Token>)
    requires forall i, j |
               0 <= i < j < |subs| && counted(subs[i]) && counted(subs[j]) && subs[i].task == x == subs[j].task ::
               subs[i].token != subs[j].token
    requires forall sub | sub in subs && sub.task == x && counted(sub) :: sub.token in tokens
    ensures Times(subs, x, counted) <= |tokens|
  {
    if subs != [] {
      var init, sub := subs[..|subs| - 1], subs[|subs| - 1];
      if sub.task == x && counted(sub) {
        forall other | other in init && other.task == x && counted(other)
          ensures other.token in tokens - {sub.token}
        {
          var i :| 0 <= i < |init| && init[i] == other;
          assert subs[i] == other && subs[|subs| - 1] == sub;
        }
        TimesAtMostTokens(init, x, counted, tokens - {sub.token});
      } else {
        TimesAtMostTokens(init, x, counted, tokens);
      }
    }
  }

  lemma {:induction false} TimesSplit(subs: seq<Submission>, x: Task, counted: Submission -> bool)
    ensures Times(subs, x, Any) == Times(subs, x, counted) + Times(subs, x, sub => !counted(sub))
  {
    if subs != [] {
      TimesSplit(subs[..|subs| - 1], x, counted);
    }
  }

  /**
    At-most-n: over any run with any number of nodes, crashes and errors, the slice submits a
    task from the cache at most ceil(attempt span / spacing) times (twice as shipped), and from
    cache and database together at most twice that.
   */
  lemma SubmittedAtMost(c: Config, steps: seq<Step>, x: Task)
    requires c.Valid()
    ensures var n, subs := CeilDiv(c.AttemptSpan(), c.Spacing()), Reached(c, steps).submitted;
            Times(subs, x, FromCache) <= n && Times(subs, x, Any) <= 2 * n
  {
    var s := Reached(c, steps);
    var atEdge := (sub: Submission) => AtEdge(c, sub.task, sub.window);
    TakenAtMost(c, steps);
    DeliveryAlways(c, steps);
    forall sub | sub in s.submitted
      ensures sub.token in s.runs.Keys && (sub.source.Cache? ==> !atEdge(sub))
    {
      assert TracedTo(c, s, sub);
    }
    TimesAtMostTokens(s.submitted, x, FromCache, s.runs.Keys);
    TimesAtMostTokens(s.submitted, x, atEdge, s.runs.Keys);
    TimesAtMostTokens(s.submitted, x, sub => !atEdge(sub), s.runs.Keys);
    TimesSplit(s.submitted, x, atEdge);
  }

  // ---- Neighbouring slices ----

  /** No window starts after the minute's end. */
  lemma WindowsStartInTheMinute(c: Config, steps: seq<Step>, sub: Submission)
    requires c.Valid() && sub in Reached(c, steps).submitted
    ensures c.Span(sub.window) < MINUTE
    ensures c.minute + c.Span(sub.window) <= sub.task.run <= c.minute + c.Span(sub.window + 1)
  {
    var s := Reached(c, steps);
    TimingAlways(c, steps);
    SubmissionIsTraced(c, steps, sub);
    ScansStartInTheMinute(c, s.store.now, s.runs[sub.token], sub.window);
  }

  lemma SubmissionIsTraced(c: Config, steps: seq<Step>, sub: Submission)
    requires c.Valid() && sub in Reached(c, steps).submitted
    ensures TracedTo(c, Reached(c, steps), sub)
  {
    DeliveryAlways(c, steps);
  }

  lemma ScansStartInTheMinute(c: Config, now: int, r: Run, k: nat)
    requires c.Valid() && RunOk(c, now, r) && k in r.scans
    ensures c.Span(k) < MINUTE
  {
    W.SpanMonotone(c.gap, k, |r.work.batches| - 1);
  }

  /** A slice submits tasks of its own minute, and through the fallback's last range of the next one. */
  lemma SubmitsOwnOrNext(c: Config, steps: seq<Step>, sub: Submission)
    requires c.Valid() && c.gap <= T.MINUTE_SECONDS && sub in Reached(c, steps).submitted
    ensures MinuteOf(sub.task.run) == c.minute || MinuteOf(sub.task.run) == c.minute + MINUTE
  {
    WindowsStartInTheMinute(c, steps, sub);
    SpanStep(c, sub.window);
    InMinute(sub.task.run, c.minute);
    InMinute(sub.task.run, c.minute + MINUTE);
  }

  lemma SameEdgeAtMost(c: Config, steps: seq<Step>, x: Task, edge: bool)
    requires c.Valid()
    requires forall sub | sub in Reached(c, steps).submitted && sub.task == x :: AtEdge(c, x, sub.window) == edge
    ensures Times(Reached(c, steps).submitted, x, Any) <= CeilDiv(c.AttemptSpan(), c.Spacing())
  {
    var s := Reached(c, steps);
    TakenAtMost(c, steps);
    DeliveryAlways(c, steps);
    forall sub | sub in s.submitted
      ensures sub.token in s.runs.Keys
    {
      assert TracedTo(c, s, sub);
    }
    assert forall i | 0 <= i < |s.submitted| :: s.submitted[i] in s.submitted;
    TimesAtMostTokens(s.submitted, x, Any, s.runs.Keys);
  }

  /** What the slice of the minute before submits lies in its last range, before any edge of the task's own slice. */
  lemma EarlierSliceAtMost(c: Config, p: Config, steps: seq<Step>, earlier: seq<Step>, x: Task, first: Submission)
    requires c.Valid() && p.Valid() && p == c.(minute := c.minute - MINUTE, key := p.key, boot := p.boot)
    requires MinuteOf(x.run) == c.minute && first in Reached(p, earlier).submitted && first.task == x
    ensures Times(Reached(p, earlier).submitted, x, Any) <= CeilDiv(c.AttemptSpan(), c.Spacing())
    ensures Times(Reached(c, steps).submitted, x, Any) <= CeilDiv(c.AttemptSpan(), c.Spacing())
  {
    WindowsStartInTheMinute(p, earlier, first);
    SpanStep(p, first.window);
    InMinute(x.run, c.minute);
    forall sub | sub in Reached(p, earlier).submitted && sub.task == x
      ensures AtEdge(p, x, sub.window) == AtEdge(p, x, first.window)
    {
      WindowsStartInTheMinute(p, earlier, sub);
      if sub.window < first.window {
        W.SpanMonotone(p.gap, sub.window + 1, first.window);
      } else if first.window < sub.window {
        W.SpanMonotone(p.gap, first.window + 1, sub.window);
      }
    }
    SameEdgeAtMost(p, earlier, x, AtEdge(p, x, first.window));
    BeforeEdgesAtMost(c, steps, x);
  }

  lemma BeforeEdgesAtMost(c: Config, steps: seq<Step>, x: Task)
    requires c.Valid() && x.run < c.minute + c.gap * SECOND
    ensures Times(Reached(c, steps).submitted, x, Any) <= CeilDiv(c.AttemptSpan(), c.Spacing())
  {
    forall sub | sub in Reached(c, steps).submitted && sub.task == x
      ensures !AtEdge(c, x, sub.window)
    {
      W.SpanMonotone(c.gap, 1, sub.window + 1);
      SpanStep(c, 0);
    }
    SameEdgeAtMost(c, steps, x, false);
  }

  lemma {:induction false} NeverSubmitted(subs: seq<Submission>, x: Task)
    requires forall sub | sub in subs :: sub.task != x
    ensures Times(subs, x, Any) == 0
  {
    if subs != [] {
      assert subs[|subs| - 1] in subs;
      NeverSubmitted(subs[..|subs| - 1], x);
    }
  }

  /** A slice submits tasks of its own bucket only, unless their ids are negative. */
  lemma SubmitsOwnBucket(c: Config, steps: seq<Step>, sub: Submission)
    requires c.Valid() && sub in Reached(c, steps).submitted && sub.task.timer >= 0
    ensures sub.task.timer % c.buckets == c.bucket
  {
    SubmissionIsTraced(c, steps, sub);
  }

  /** The slices of two minutes, of the task's bucket. */
  lemma NeighboursAtMost(c: Config, p: Config, steps: seq<Step>, earlier: seq<Step>, x: Task)
    requires c.Valid() && p.Valid() && p == c.(minute := c.minute - MINUTE, key := p.key, boot := p.boot)
    requires MinuteOf(x.run) == c.minute
    ensures Times(Reached(c, steps).submitted, x, Any) + Times(Reached(p, earlier).submitted, x, Any)
         <= 2 * CeilDiv(c.AttemptSpan(), c.Spacing())
  {
    SubmittedAtMost(c, steps, x);
    if first :| first in Reached(p, earlier).submitted && first.task == x {
      EarlierSliceAtMost(c, p, steps, earlier, x, first);
    } else {
      NeverSubmitted(Reached(p, earlier).submitted, x);
    }
  }
}
