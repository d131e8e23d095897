/**
  How late a firing can be, exactly: the delay of a slice's scans against the documented
  second.
 */
module SliceLatency {
  import opened Clock
  import opened SliceProtocol
  import opened SliceDelivery
  import opened SliceRuns
  import K = Keys
  import T = TriggerWork

  /** Runs locked `a` into the minute whose scans are at most `slack` late submit nothing later than `bound`. */
  ghost predicate LateByAtMost(c: Config, a: nat, slack: nat, bound: int)
    requires c.Valid()
  {
    forall steps, sub | sub in Reached(c, steps).submitted && InPunctualRun(c, Reached(c, steps), sub, a, slack) ::
      sub.at - sub.task.run <= bound
  }

  predicate InPunctualRun(c: Config, s: Slice, sub: Submission, a: nat, slack: nat) {
    && sub.token in s.runs && s.runs[sub.token].lockedAt == c.minute + a
    && Punctual(c, s.runs[sub.token], slack)
  }

  /** The slice is locked `a` into its minute, and the first window, which holds x, is scanned `slack` late. */
  function LateStory(c: Config, x: Task, a: nat, slack: nat): seq<Step>
    requires c.Valid()
  {
    Late(c, x, a, slack) + Round(c, [x], 1, 0)
  }

  function Late(c: Config, x: Task, a: nat, slack: nat): seq<Step>
    requires c.Valid()
  {
    Until(c, [x], c.minute + a) + [Attempt(1, SampledFor(c, c.minute + a), true)] + [Pass(slack)]
  }

  function FirstFiring(c: Config): Task {
    K.Task(c.bucket, c.minute)
  }

  lemma FirstFiringIsOfTheSlice(c: Config)
    requires c.Valid()
    ensures c.Indexes(FirstFiring(c))
  {
    InMinute(c.minute, c.minute);
  }

  /** A firing at the very start of the minute is late by the whole bound. */
  lemma LatencyIsReached(c: Config, a: nat, slack: nat) returns (steps: seq<Step>, sub: Submission)
    requires c.Valid() && a < c.AttemptSpan()
    ensures sub in Reached(c, steps).submitted && FromCache(sub)
    ensures InPunctualRun(c, Reached(c, steps), sub, a, slack)
    ensures sub.at - sub.task.run == a + c.gap * SECOND + slack
  {
    var x := FirstFiring(c);
    FirstFiringIsOfTheSlice(c);
    steps := LateStory(c, x, a, slack);
    LateStoryScans(c, x, a, slack);
    sub := FirstSubmission(c, steps, x, slack);
  }

  lemma LateStoryScans(c: Config, x: Task, a: nat, slack: nat)
    requires c.Valid() && a < c.AttemptSpan() && c.Indexes(x)
    ensures var s := Reached(c, LateStory(c, x, a, slack));
            Scanned(c, s, [x], 1, 1, slack) && Caches(c, s, [x]) && s.runs[1].lockedAt == c.minute + a
  {
    LateStart(c, x, a, slack);
    RoundScans(c, Start(c), Late(c, x, a, slack), [x], 1, 0, slack);
  }

  lemma LateStart(c: Config, x: Task, a: nat, slack: nat)
    requires c.Valid() && a < c.AttemptSpan() && c.Indexes(x)
    ensures var s := Reached(c, Late(c, x, a, slack));
            Scanned(c, s, [x], 1, 0, slack) && Caches(c, s, [x]) && s.runs[1].lockedAt == c.minute + a
  {
    var before := Until(c, [x], c.minute + a);
    var attempt := Attempt(1, SampledFor(c, c.minute + a), true);
    UntilFrees(c, [x], c.minute + a);
    NextTakes(c, Reached(c, before), [x], 1, c.minute + a);
    ExecStep(c, Start(c), before, attempt);
    ExecStep(c, Start(c), before + [attempt], Pass(slack));
    var s := Reached(c, before + [attempt]);
    assert JustTaken(c, s, [x], 1) && s.store.now == c.minute + a;
    FreshLags(c, s, [x], slack);
  }

  lemma FreshLags(c: Config, s: Slice, xs: seq<Task>, slack: nat)
    requires c.Valid() && Fresh(c, s, 1) && s.runs[1].lockedAt == s.store.now
    ensures var s' := Do(c, s, Pass(slack));
            Scanned(c, s', xs, 1, 0, slack) && s'.cached == s.cached && s'.runs == s.runs
  {
  }

  /** The first window's task has been submitted by a run that scanned that window from the cache. */
  lemma FirstSubmission(c: Config, steps: seq<Step>, x: Task, slack: nat) returns (sub: Submission)
    requires c.Valid() && Scanned(c, Reached(c, steps), [x], 1, 1, slack) && Caches(c, Reached(c, steps), [x])
    requires x.run == c.minute
    ensures sub in Reached(c, steps).submitted && FromCache(sub) && sub.token == 1 && sub.task == x
    ensures sub.at == Reached(c, steps).runs[1].lockedAt + c.gap * SECOND + slack
    ensures Punctual(c, Reached(c, steps).runs[1], slack)
  {
    var s := Reached(c, steps);
    TimingAlways(c, steps);
    DeliveryAlways(c, steps);
    assert RunOk(c, s.store.now, s.runs[1]);
    SpanStep(c, 0);
    assert x in s.cached && c.InWindow(x, 0) && s.runs[1].work.batches[0] == T.Succeeded;
    sub := Submission(1, 0, x, s.runs[1].scans[0].at, Cache);
  }

  /**
    The latency the code gives, exactly: everything that runs locked `a` into the minute and
    at most `slack` late submit is within a bound if and only if a + gap + slack is.
   */
  lemma LatencyIff(c: Config, a: nat, slack: nat, bound: int)
    requires c.Valid() && a < c.AttemptSpan()
    ensures LateByAtMost(c, a, slack, bound) <==> a + c.gap * SECOND + slack <= bound
  {
    if a + c.gap * SECOND + slack <= bound {
      forall steps, sub | sub in Reached(c, steps).submitted && InPunctualRun(c, Reached(c, steps), sub, a, slack)
        ensures sub.at - sub.task.run <= bound
      {
        LatencyBound(c, steps, sub, slack);
      }
    } else {
      var steps, sub := LatencyIsReached(c, a, slack);
      assert InPunctualRun(c, Reached(c, steps), sub, a, slack);
    }
  }

  /** Whatever the gap, a firing on a full second is never submitted from the cache less than a second late. */
  lemma NeverWithinASecond(c: Config, steps: seq<Step>, sub: Submission)
    requires c.Valid() && sub in Reached(c, steps).submitted && FromCache(sub) && sub.task.run % SECOND == 0
    ensures SECOND <= sub.at - sub.task.run
  {
    NeverEarly(c, steps, sub);
    SubmissionIsTraced(c, steps, sub);
    WindowsEndOnSeconds(c, sub.window + 1);
    SecondsApart(sub.task.run, c.minute + c.Span(sub.window + 1));
  }

  lemma WindowsEndOnSeconds(c: Config, k: nat)
    requires c.Valid()
    ensures (c.minute + c.Span(k)) % SECOND == 0
  {
    var minutes := c.minute / MINUTE;
    assert c.minute + c.Span(k) == (minutes * 60 + T.Covered(c.gap, k)) * SECOND;
    SecondsAreMultiples(minutes * 60 + T.Covered(c.gap, k));
  }

  lemma SecondsAreMultiples(a: int)
    ensures (a * SECOND) % SECOND == 0
  {
  }

  lemma SecondsApart(a: int, b: int)
    requires a % SECOND == 0 && b % SECOND == 0 && a < b
    ensures a + SECOND <= b
  {
  }
}
