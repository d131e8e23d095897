/**
  One slice (a minute and one of the buckets) under any number of nodes, crashes, lost messages and
  failing lookups.  A node that polls during the slice's minute or the next one tries to
  take the slice lock, which is never released: the winner runs the trigger over the
  minute, window by window, and on success moves the lock's expiry.  Time is in
  milliseconds, on one clock shared by the nodes and the store.
 */
module SliceProtocol {
  import opened Clock
  import opened Wrappers
  import opened Redis
  import K = Keys
  import T = TriggerWork
  import W = Windows

  /**
    `boot` is when the story starts.  `lease` and `success` are tryLockSeconds and
    successExpireSeconds in milliseconds; `delay` bounds the time from a poll to the
    arrival of its lock request.
   */
  datatype Config = Config(
    key: Key, boot: int, minute: int, bucket: nat, buckets: nat, gap: nat, lease: nat, success: nat, delay: nat)
  {
    predicate Valid() {
      gap > 0 && lease > 0 && minute % MINUTE == 0 && boot <= minute && bucket < buckets
    }

    /** The writer puts the task into the slice's sorted set. */
    predicate Indexes(x: Task) {
      MinuteOf(x.run) == minute && buckets > 0 && K.TruncMod(x.timer, buckets) == bucket
    }

    /** The fallback's filter lets the task through. */
    predicate Filters(x: Task) {
      buckets > 0 && K.UintMod(x.timer, buckets) == bucket
    }

    function Span(k: nat): nat {
      W.Span(gap, k)
    }

    predicate InWindow(task: Task, k: nat) {
      W.InWindow(gap, minute, task.run, k)
    }

    /** From the start of the minute, the time at which the last lock request can arrive. */
    function AttemptSpan(): nat {
      2 * MINUTE + delay
    }

    /** How long a run takes at least, from lock to ack. */
    function RunSpan(): nat
      requires gap > 0
    {
      Span(T.Windows(gap))
    }

    /** The least time from one grant to the next: a lease, or a run and its extended lease. */
    function Spacing(): (d: nat)
      requires gap > 0 && lease > 0
      ensures d > 0
    {
      if lease <= RunSpan() + success then lease else RunSpan() + success
    }
  }

  type Task = K.Task

  datatype Source = Cache | Database

  datatype Scan = Scan(at: int, source: Source)

  datatype Run = Run(lockedAt: int, work: T.RunState, scans: map<nat, Scan>, alive: bool)

  datatype Submission = Submission(token: Token, window: nat, task: Task, at: int, source: Source)

  /**
    `cached` maps each task of the slice's sorted set to the time it was added; `grants` lists
    when the lock was taken.
   */
  datatype Slice = Slice(
    store: Store, issued: set<Token>, runs: map<Token, Run>,
    cached: map<Task, int>, submitted: seq<Submission>, grants: seq<int>, finished: bool)

  datatype Step =
    | Pass(delta: nat)
    | Insert(task: Task)
    | Attempt(token: Token, sampled: int, answered: bool)
    | Tick(token: Token)
    | Batch(token: Token, window: nat, source: Source, tasks: seq<Task>, error: Option<T.Error>)
    | Conclude(token: Token, delivered: bool)
    | Crash(tokens: set<Token>)

  /** A poll at `sampled` tries the slices of its own minute and of the one before. */
  predicate Polls(c: Config, sampled: int) {
    MinuteOf(sampled) == c.minute || MinuteOf(sampled - MINUTE) == c.minute
  }

  /**
    What one batch may submit.  The cache answers with the window's members; the database may
    answer with anything of its bucket up to and including the window's end; neither repeats
    itself; an error, from the lookups or from the pool, may leave any part unsubmitted.
   */
  predicate Answer(c: Config, s: Slice, k: nat, source: Source, tasks: seq<Task>, error: Option<T.Error>) {
    NoDuplicates(tasks) &&
    match source
    case Cache =>
      && (forall x | x in tasks :: x in s.cached && c.InWindow(x, k))
      && (error.None? ==> forall x | x in s.cached && c.InWindow(x, k) :: x in tasks)
    case Database =>
      forall x | x in tasks :: c.Filters(x) && c.minute + c.Span(k) <= x.run <= c.minute + c.Span(k + 1)
  }

  predicate Enabled(c: Config, s: Slice, step: Step) {
    match step
    case Pass(_) => true
    case Insert(task) => c.Indexes(task)
    case Attempt(t, sampled, _) =>
      t !in s.issued && Polls(c, sampled) && sampled <= s.store.now <= sampled + c.delay
    case Tick(t) =>
      && t in s.runs && s.runs[t].alive && T.Enabled(s.runs[t].work, T.Tick)
      && s.runs[t].lockedAt + c.Span(|s.runs[t].work.batches| + 1) <= s.store.now
    case Batch(t, k, source, tasks, error) =>
      && t in s.runs && s.runs[t].alive && T.Enabled(s.runs[t].work, T.Finish(k, error))
      && Answer(c, s, k, source, tasks, error)
    case Conclude(t, _) => t in s.runs && s.runs[t].alive && T.Enabled(s.runs[t].work, T.Conclude)
    case Crash(_) => true
  }

  function Submit(s: Slice, t: Token, k: nat, source: Source, tasks: seq<Task>): seq<Submission> {
    s.submitted + seq(|tasks|, i requires 0 <= i < |tasks| => Submission(t, k, tasks[i], s.store.now, source))
  }

  /** The request arrives; a granted one starts a run only if its answer gets back. */
  function Attempted(c: Config, s: Slice, t: Token, answered: bool): Slice
    requires c.gap > 0
  {
    var op := SetNX(c.key, t, c.lease);
    var s1 := s.(store := Apply(s.store, op), issued := s.issued + {t});
    if !Reply(s.store, op) then s1
    else
      s1.(grants := s.grants + [s.store.now],
          runs := if answered then s.runs[t := Run(s.store.now, T.Start(c.gap), map[], true)] else s.runs)
  }

  /** The run has become `work` with window k scanned and the tasks submitted. */
  function Batched(s: Slice, t: Token, k: nat, work: T.RunState, source: Source, tasks: seq<Task>): Slice
    requires t in s.runs
  {
    var r := s.runs[t].(work := work, scans := s.runs[t].scans[k := Scan(s.store.now, source)]);
    s.(runs := s.runs[t := r], submitted := Submit(s, t, k, source, tasks))
  }

  /** The run has become `work`; if it acks, a request to move the lock's expiry goes out. */
  function Conclusion(c: Config, s: Slice, t: Token, work: T.RunState, delivered: bool): Slice
    requires t in s.runs
  {
    var op := ExpireIfOwner(c.key, t, c.success);
    var s1 := s.(runs := s.runs[t := s.runs[t].(work := work)]);
    if work.phase.Acked? && delivered then
      s1.(store := Apply(s.store, op), finished := s.finished || Reply(s.store, op))
    else s1
  }

  function Do(c: Config, s: Slice, step: Step): Slice
    requires c.Valid()
  {
    if !Enabled(c, s, step) then s
    else
      match step
      case Pass(delta) => s.(store := Apply(s.store, Advance(delta)))
      case Insert(task) => if task in s.cached then s else s.(cached := s.cached[task := s.store.now])
      case Attempt(t, _, answered) =>
        Attempted(c, s, t, answered)
      case Tick(t) =>
        s.(runs := s.runs[t := s.runs[t].(work := T.Do(c.gap, s.runs[t].work, T.Tick))])
      case Batch(t, k, source, tasks, error) =>
        Batched(s, t, k, T.Do(c.gap, s.runs[t].work, T.Finish(k, error)), source, tasks)
      case Conclude(t, delivered) =>
        Conclusion(c, s, t, T.Do(c.gap, s.runs[t].work, T.Conclude), delivered)
      case Crash(tokens) =>
        s.(runs := map t | t in s.runs :: if t in tokens then s.runs[t].(alive := false) else s.runs[t])
  }

  function Exec(c: Config, s: Slice, steps: seq<Step>): Slice
    requires c.Valid()
  {
    if steps == [] then s else Do(c, Exec(c, s, steps[..|steps| - 1]), steps[|steps| - 1])
  }

  function Start(c: Config): Slice {
    Slice(Store(c.boot, map[]), {}, map[], map[], [], [], false)
  }

  /** The state after any sequence of steps; a step that cannot happen changes nothing. */
  function Reached(c: Config, steps: seq<Step>): Slice
    requires c.Valid()
  {
    Exec(c, Start(c), steps)
  }

  lemma ExecStep(c: Config, s: Slice, steps: seq<Step>, step: Step)
    requires c.Valid()
    ensures Exec(c, s, steps + [step]) == Do(c, Exec(c, s, steps), step)
  {
    assert (steps + [step])[..|steps|] == steps;
  }

  lemma {:induction false} ExecConcat(c: Config, s: Slice, a: seq<Step>, b: seq<Step>)
    requires c.Valid()
    ensures Exec(c, s, a + b) == Exec(c, Exec(c, s, a), b)
    decreases b
  {
    if b == [] {
      assert a + b == a;
    } else {
      assert (a + b)[..|a + b| - 1] == a + b[..|b| - 1];
      ExecConcat(c, s, a, b[..|b| - 1]);
    }
  }

  // ---- Arithmetic of windows ----

  lemma SpanStep(c: Config, k: nat)
    ensures c.Span(k + 1) == c.Span(k) + c.gap * SECOND
  {
  }

  /** A slice is tried from the start of its minute until the end of the next one. */
  lemma PollsForTwoMinutes(c: Config, sampled: int)
    requires c.Valid()
    ensures Polls(c, sampled) <==> c.minute <= sampled < c.minute + 2 * MINUTE
  {
  }

  // ---- Timing: every run's clock ----

  ghost predicate RunOk(c: Config, now: int, r: Run)
    requires c.Valid()
  {
    && T.Inv(c.gap, r.work)
    && c.minute <= r.lockedAt
    && r.lockedAt + c.Span(|r.work.batches|) <= now
    && (forall k: nat :: k in r.scans <==> k < |r.work.batches| && !r.work.batches[k].Running?)
    && (forall k | k in r.scans :: r.lockedAt + c.Span(k + 1) <= r.scans[k].at <= now)
  }

  ghost predicate Timing(c: Config, s: Slice)
    requires c.Valid()
  {
    forall t | t in s.runs :: t in s.issued && RunOk(c, s.store.now, s.runs[t])
  }

  /** Timing survives when time passes and at most the run of t changes, into one that is in order. */
  lemma OneRunChanged(c: Config, s: Slice, s': Slice, t: Token)
    requires c.Valid() && Timing(c, s)
    requires s.store.now <= s'.store.now && s.issued <= s'.issued
    requires t in s'.runs ==> t in s'.issued && RunOk(c, s'.store.now, s'.runs[t])
    requires forall u | u in s'.runs && u != t :: u in s.runs && s'.runs[u] == s.runs[u]
    ensures Timing(c, s')
  {
    forall u | u in s'.runs && u != t
      ensures u in s'.issued && RunOk(c, s'.store.now, s'.runs[u])
    {
      assert RunOk(c, s.store.now, s.runs[u]);
    }
  }

  lemma CrashKeepsRun(c: Config, now: int, r: Run)
    requires c.Valid() && RunOk(c, now, r)
    ensures RunOk(c, now, r.(alive := false))
  {
  }

  lemma CrashKeepsTiming(c: Config, s: Slice, tokens: set<Token>)
    requires c.Valid() && Timing(c, s)
    ensures Timing(c, Do(c, s, Crash(tokens)))
  {
    forall u | u in s.runs
      ensures RunOk(c, s.store.now, s.runs[u].(alive := false))
    {
      CrashKeepsRun(c, s.store.now, s.runs[u]);
    }
  }

  lemma AttemptKeepsTiming(c: Config, s: Slice, t: Token, sampled: int, answered: bool)
    requires c.Valid() && Timing(c, s) && Enabled(c, s, Attempt(t, sampled, answered))
    ensures Timing(c, Do(c, s, Attempt(t, sampled, answered)))
  {
    PollsForTwoMinutes(c, sampled);
    assert RunOk(c, s.store.now, Run(s.store.now, T.Start(c.gap), map[], true));
    OneRunChanged(c, s, Do(c, s, Attempt(t, sampled, answered)), t);
  }

  lemma TickKeepsRun(c: Config, now: int, r: Run)
    requires c.Valid() && RunOk(c, now, r)
    requires r.lockedAt + c.Span(|r.work.batches| + 1) <= now
    ensures RunOk(c, now, r.(work := T.Do(c.gap, r.work, T.Tick)))
  {
    T.InvKept(c.gap, r.work, T.Tick);
    T.TickOnlyAdds(c.gap, r.work);
  }

  lemma TickKeepsTiming(c: Config, s: Slice, t: Token)
    requires c.Valid() && Timing(c, s) && Enabled(c, s, Tick(t))
    ensures Timing(c, Do(c, s, Tick(t)))
  {
    TickKeepsRun(c, s.store.now, s.runs[t]);
    OneRunChanged(c, s, Do(c, s, Tick(t)), t);
  }

  lemma FinishKeepsRun(c: Config, now: int, r: Run, k: nat, error: Option<T.Error>, scan: Scan)
    requires c.Valid() && RunOk(c, now, r)
    requires T.Enabled(r.work, T.Finish(k, error)) && scan.at == now
    ensures RunOk(c, now, r.(work := T.Do(c.gap, r.work, T.Finish(k, error)), scans := r.scans[k := scan]))
  {
    T.InvKept(c.gap, r.work, T.Finish(k, error));
    W.SpanMonotone(c.gap, k + 1, |r.work.batches|);
  }

  lemma BatchKeepsTiming(c: Config, s: Slice, t: Token, k: nat,
                         source: Source, tasks: seq<Task>, error: Option<T.Error>)
    requires c.Valid() && Timing(c, s) && Enabled(c, s, Batch(t, k, source, tasks, error))
    ensures Timing(c, Do(c, s, Batch(t, k, source, tasks, error)))
  {
    FinishKeepsRun(c, s.store.now, s.runs[t], k, error, Scan(s.store.now, source));
    OneRunChanged(c, s, Do(c, s, Batch(t, k, source, tasks, error)), t);
  }

  lemma ConclusionKeepsTiming(c: Config, s: Slice, t: Token, work: T.RunState, delivered: bool)
    requires c.Valid() && Timing(c, s) && t in s.runs
    requires RunOk(c, s.store.now, s.runs[t].(work := work))
    ensures Timing(c, Conclusion(c, s, t, work, delivered))
  {
    OneRunChanged(c, s, Conclusion(c, s, t, work, delivered), t);
  }

  lemma ConcludeKeepsTiming(c: Config, s: Slice, t: Token, delivered: bool)
    requires c.Valid() && Timing(c, s) && Enabled(c, s, Conclude(t, delivered))
    ensures Timing(c, Do(c, s, Conclude(t, delivered)))
  {
    var r := s.runs[t];
    assert RunOk(c, s.store.now, r);
    T.InvKept(c.gap, r.work, T.Conclude);
    ConclusionKeepsTiming(c, s, t, T.Do(c.gap, r.work, T.Conclude), delivered);
  }

  lemma TimingKept(c: Config, s: Slice, step: Step)
    requires c.Valid() && Timing(c, s)
    ensures Timing(c, Do(c, s, step))
  {
    if !Enabled(c, s, step) {
      return;
    }
    match step
    case Attempt(t, sampled, answered) => AttemptKeepsTiming(c, s, t, sampled, answered);
    case Tick(t) => TickKeepsTiming(c, s, t);
    case Batch(t, k, source, tasks, error) => BatchKeepsTiming(c, s, t, k, source, tasks, error);
    case Conclude(t, delivered) => ConcludeKeepsTiming(c, s, t, delivered);
    case Crash(tokens) => CrashKeepsTiming(c, s, tokens);
    case Pass(delta) => OneRunChanged(c, s, Do(c, s, Pass(delta)), 0);
    case Insert(task) => OneRunChanged(c, s, Do(c, s, Insert(task)), 0);
  }

  // ---- Locking: how often the slice is taken ----

  /** The i-th grant comes no earlier than i spacings into the minute. */
  ghost predicate Spaced(c: Config, grants: seq<int>, spacing: nat) {
    forall i | 0 <= i < |grants| :: c.minute + i * spacing <= grants[i] < c.minute + c.AttemptSpan()
  }

  /** The last grant still guards the key for at least one spacing. */
  ghost predicate Guarded(c: Config, s: Slice, spacing: nat) {
    if s.grants == [] then c.key !in s.store.entries
    else
      var last := s.grants[|s.grants| - 1];
      && c.key in s.store.entries
      && var entry := s.store.entries[c.key];
         && entry.expiry.Some? && last + spacing <= entry.expiry.value
         && entry.token in s.issued
         && (entry.token in s.runs ==> s.runs[entry.token].lockedAt == last)
  }

  ghost predicate Locking(c: Config, s: Slice, spacing: nat) {
    |s.runs| <= |s.grants| && Spaced(c, s.grants, spacing) && Guarded(c, s, spacing)
  }

  lemma SpacedGrows(c: Config, grants: seq<int>, spacing: nat, at: int)
    requires Spaced(c, grants, spacing) && c.minute <= at < c.minute + c.AttemptSpan()
    requires grants != [] ==> grants[|grants| - 1] + spacing <= at
    ensures Spaced(c, grants + [at], spacing)
  {
    var n := |grants|;
    assert n > 0 ==> c.minute + (n - 1) * spacing <= grants[n - 1];
    assert n * spacing == (n - 1) * spacing + spacing;
  }

  lemma AttemptKeepsLocking(c: Config, s: Slice, spacing: nat, t: Token, answered: bool)
    requires c.Valid() && Locking(c, s, spacing) && spacing <= c.lease && t !in s.issued && t !in s.runs
    requires c.minute <= s.store.now < c.minute + c.AttemptSpan()
    ensures Locking(c, Attempted(c, s, t, answered), spacing)
  {
    if Reply(s.store, SetNX(c.key, t, c.lease)) {
      SpacedGrows(c, s.grants, spacing, s.store.now);
    }
  }

  /** Steps that neither take nor move the lock keep it as it was. */
  predicate SameLocks(s: Slice, s': Slice) {
    && s'.store.entries == s.store.entries && s'.grants == s.grants && s'.issued == s.issued
    && s'.runs.Keys == s.runs.Keys
    && forall t | t in s.runs :: s'.runs[t].lockedAt == s.runs[t].lockedAt
  }

  lemma SameLocksKeepLocking(c: Config, s: Slice, s': Slice, spacing: nat)
    requires Locking(c, s, spacing) && SameLocks(s, s')
    ensures Locking(c, s', spacing)
  {
    assert |s'.runs| == |s'.runs.Keys| == |s.runs.Keys| == |s.runs|;
  }

  lemma ConclusionKeepsLocking(c: Config, s: Slice, spacing: nat, t: Token, work: T.RunState, delivered: bool)
    requires Locking(c, s, spacing)
    requires t in s.runs && s.runs[t].lockedAt + spacing <= s.store.now + c.success
    ensures Locking(c, Conclusion(c, s, t, work, delivered), spacing)
  {
    assert Conclusion(c, s, t, work, delivered).runs.Keys == s.runs.Keys;
    assert |s.runs.Keys| == |s.runs|;
  }

  /** A run cannot conclude before all its windows have ended. */
  lemma ConcludesLate(c: Config, s: Slice, t: Token, delivered: bool)
    requires c.Valid() && Timing(c, s) && Enabled(c, s, Conclude(t, delivered))
    ensures c.minute + c.RunSpan() <= s.runs[t].lockedAt + c.RunSpan() <= s.store.now
  {
    assert RunOk(c, s.store.now, s.runs[t]);
  }

  lemma SameLocksUnlessTaken(c: Config, s: Slice, step: Step)
    requires c.Valid() && (step.Tick? || step.Batch? || step.Crash? || step.Pass? || step.Insert?)
    ensures SameLocks(s, Do(c, s, step))
  {
  }

  lemma LockingKept(c: Config, s: Slice, step: Step)
    requires c.Valid() && Timing(c, s) && Locking(c, s, c.Spacing())
    ensures Locking(c, Do(c, s, step), c.Spacing())
  {
    if !Enabled(c, s, step) {
      return;
    }
    match step
    case Attempt(t, sampled, answered) =>
      PollsForTwoMinutes(c, sampled);
      AttemptKeepsLocking(c, s, c.Spacing(), t, answered);
    case Conclude(t, delivered) =>
      ConcludesLate(c, s, t, delivered);
      ConclusionKeepsLocking(c, s, c.Spacing(), t, T.Do(c.gap, s.runs[t].work, T.Conclude), delivered);
    case _ =>
      SameLocksUnlessTaken(c, s, step);
      SameLocksKeepLocking(c, s, Do(c, s, step), c.Spacing());
  }

  function CeilDiv(a: nat, b: nat): nat
    requires b > 0
  {
    (a + b - 1) / b
  }

  lemma BelowCeilDiv(n: nat, a: nat, b: nat)
    requires b > 0 && (n == 0 || (n - 1) * b < a)
    ensures n <= CeilDiv(a, b)
  {
    var q := CeilDiv(a, b);
    assert a <= q * b;
    assert q <= n - 1 ==> q * b <= (n - 1) * b;
  }

  lemma {:induction false} TimingAlways(c: Config, steps: seq<Step>)
    requires c.Valid()
    ensures Timing(c, Reached(c, steps))
  {
    if steps != [] {
      var init := steps[..|steps| - 1];
      TimingAlways(c, init);
      TimingKept(c, Reached(c, init), steps[|steps| - 1]);
    }
  }

  lemma {:induction false} LockingAlways(c: Config, steps: seq<Step>)
    requires c.Valid()
    ensures Locking(c, Reached(c, steps), c.Spacing())
  {
    if steps != [] {
      var init := steps[..|steps| - 1];
      TimingAlways(c, init);
      LockingAlways(c, init);
      LockingKept(c, Reached(c, init), steps[|steps| - 1]);
    }
  }

  /**
    Any number of nodes, crashes, errors and lost messages: the slice lock is taken at most
    ceil(attempt span / spacing) times, and no more runs than that ever start.  The spacing is
    the lease itself unless a run and its extended lease are shorter.
   */
  lemma TakenAtMost(c: Config, steps: seq<Step>)
    requires c.Valid()
    ensures |Reached(c, steps).runs| <= |Reached(c, steps).grants| <= CeilDiv(c.AttemptSpan(), c.Spacing())
  {
    LockingAlways(c, steps);
    var grants, spacing := Reached(c, steps).grants, c.Spacing();
    var n := |grants|;
    if n > 0 {
      assert c.minute + (n - 1) * spacing <= grants[n - 1] < c.minute + c.AttemptSpan();
    }
    BelowCeilDiv(n, c.AttemptSpan(), spacing);
  }

  // ---- A finished slice ----

  ghost predicate Sealed(c: Config, s: Slice) {
    s.finished ==>
      && c.key in s.store.entries
      && s.store.entries[c.key].expiry.Some?
      && c.minute + c.AttemptSpan() <= s.store.entries[c.key].expiry.value
  }

  lemma SealedKept(c: Config, s: Slice, step: Step)
    requires c.Valid() && c.AttemptSpan() <= c.RunSpan() + c.success
    requires Timing(c, s) && Sealed(c, s)
    ensures Sealed(c, Do(c, s, step))
    ensures s.finished ==> Do(c, s, step).grants == s.grants && Do(c, s, step).finished
  {
    if !Enabled(c, s, step) {
      return;
    }
    match step
    case Attempt(_, sampled, _) => PollsForTwoMinutes(c, sampled);
    case Conclude(t, delivered) =>
      ConcludesLate(c, s, t, delivered);
      ConclusionKeepsSealed(c, s, t, T.Do(c.gap, s.runs[t].work, T.Conclude), delivered);
    case _ => SameLocksUnlessTaken(c, s, step);
  }

  lemma ConclusionKeepsSealed(c: Config, s: Slice, t: Token, work: T.RunState, delivered: bool)
    requires Sealed(c, s) && t in s.runs && c.minute + c.AttemptSpan() <= s.store.now + c.success
    ensures var s' := Conclusion(c, s, t, work, delivered);
            Sealed(c, s') && s'.grants == s.grants && (s.finished ==> s'.finished)
  {
  }

  lemma {:induction false} SealedAlways(c: Config, steps: seq<Step>)
    requires c.Valid() && c.AttemptSpan() <= c.RunSpan() + c.success
    ensures Sealed(c, Reached(c, steps))
  {
    if steps != [] {
      var init := steps[..|steps| - 1];
      TimingAlways(c, init);
      SealedAlways(c, init);
      SealedKept(c, Reached(c, init), steps[|steps| - 1]);
    }
  }

  /** Once an ack has found its own token, nobody takes the slice again, whatever happens next. */
  lemma {:induction false} FinishedStaysFinished(c: Config, steps: seq<Step>, more: seq<Step>)
    requires c.Valid() && c.AttemptSpan() <= c.RunSpan() + c.success
    requires Reached(c, steps).finished
    ensures Reached(c, steps + more).finished && Reached(c, steps + more).grants == Reached(c, steps).grants
    decreases more
  {
    if more == [] {
      assert steps + more == steps;
    } else {
      var init, step := more[..|more| - 1], more[|more| - 1];
      assert steps + more == steps + init + [step];
      FinishedStaysFinished(c, steps, init);
      TimingAlways(c, steps + init);
      SealedAlways(c, steps + init);
      SealedKept(c, Reached(c, steps + init), step);
      ExecStep(c, Start(c), steps + init, step);
    }
  }
}
