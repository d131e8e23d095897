/**
  Steps of the slice protocol for every schedule of polls and one crash, built millisecond by
  millisecond: the node scans every window as late as the length of a run allows.  They show
  that the outage theorem speaks about every schedule, and that no weaker condition will do.
 */
module SliceSchedules {
  import opened Clock
  import opened Wrappers
  import opened Redis
  import opened SliceProtocol
  import opened SliceDelivery
  import opened SliceRecovery
  import K = Keys
  import R = Recovery
  import SR = SliceRuns
  import T = TriggerWork
  import W = Windows

  // ---- One run, moment by moment ----

  /** Until when a run works, seen at `now`: it dies in the crash if it was locked before it. */
  function Limit(sc: R.Schedule, lockedAt: int, now: int): int {
    if lockedAt < sc.crash < now then sc.crash else now
  }

  /** When the run scans window k. */
  function Due(c: Config, n: R.Node, r: Run, k: nat): int
    requires Matches(c, n)
  {
    r.lockedAt + c.Span(k + 1) + Slack(c, n)
  }

  /** Exactly the windows due before the limit have been scanned, each when it was due. */
  ghost predicate OnCourse(c: Config, n: R.Node, r: Run, limit: int, alive: bool)
    requires Matches(c, n)
  {
    var b, w := |r.work.batches|, T.Windows(c.gap);
    && r.alive == alive && CacheAnswered(r)
    && b <= w && r.work.AllSucceeded() && r.work.errors == [] && r.work.elapsed == T.Covered(c.gap, b)
    && r.work.phase == (if b < w then T.Ticking else T.Acked)
    && (forall k: nat :: k in r.scans <==> k < b)
    && (forall k | k in r.scans :: r.scans[k].at == Due(c, n, r, k))
    && (b > 0 ==> Due(c, n, r, b - 1) < limit)
    && (b < w ==> limit <= Due(c, n, r, b))
  }

  /** At the beginning of the moment. */
  ghost predicate Before(c: Config, n: R.Node, sc: R.Schedule, r: Run, now: int)
    requires Matches(c, n)
  {
    OnCourse(c, n, r, Limit(sc, r.lockedAt, now), !(r.lockedAt < sc.crash < now))
  }

  /** After the crash, if this is its moment. */
  ghost predicate Ready(c: Config, n: R.Node, sc: R.Schedule, r: Run, now: int)
    requires Matches(c, n)
  {
    OnCourse(c, n, r, Limit(sc, r.lockedAt, now), !(r.lockedAt < sc.crash <= now))
  }

  /** Only the run of t went on. */
  predicate Stayed(s: Slice, s': Slice, t: Token) {
    && s'.store.now == s.store.now && s'.issued == s.issued && s'.cached == s.cached && s'.runs.Keys == s.runs.Keys
    && (forall u | u in s.runs && u != t :: s'.runs[u] == s.runs[u])
    && t in s.runs && s'.runs[t].lockedAt == s.runs[t].lockedAt
  }

  lemma ScanNow(c: Config, s: Slice, xs: seq<Task>, t: Token, k: nat, lag: int)
    requires c.Valid() && SR.Caches(c, s, xs) && NoDuplicates(xs)
    requires t in s.runs && SR.Working(c, s.runs[t], k, lag) && T.Covered(c.gap, k) < T.MINUTE_SECONDS
    requires 0 <= lag && s.store.now == s.runs[t].lockedAt + c.Span(k + 1) + lag
    ensures var s' := Do(c, Do(c, s, Tick(t)), Batch(t, k, Cache, SR.Found(c, xs, k), None));
            && Stayed(s, s', t) && s'.store == s.store
            && SR.Working(c, s'.runs[t], k + 1, lag)
            && s'.runs[t].scans == s.runs[t].scans[k := Scan(s.store.now, Cache)]
  {
    var r := s.runs[t];
    SR.OneWork(c, r, k, lag, s.store.now);
    var ticked := T.Do(c.gap, r.work, T.Tick);
    var s1 := s.(runs := s.runs[t := r.(work := ticked)]);
    assert Do(c, s, Tick(t)) == s1;
    assert Enabled(c, s1, Batch(t, k, Cache, SR.Found(c, xs, k), None));
    assert Do(c, s1, Batch(t, k, Cache, SR.Found(c, xs, k), None))
        == Batched(s1, t, k, T.Do(c.gap, ticked, T.Finish(k, None)), Cache, SR.Found(c, xs, k));
  }

  lemma AckNow(c: Config, s: Slice, t: Token)
    requires c.Valid() && t in s.runs && s.runs[t].alive
    requires s.runs[t].work.phase.Waiting? && s.runs[t].work.AllSucceeded() && s.runs[t].work.errors == []
    ensures var s' := Do(c, s, Conclude(t, true));
            Stayed(s, s', t) && s'.runs[t] == s.runs[t].(work := s.runs[t].work.(phase := T.Acked))
  {
    var w := s.runs[t].work;
    assert T.Do(c.gap, w, T.Conclude) == w.(phase := T.Acked);
    assert Do(c, s, Conclude(t, true)) == Conclusion(c, s, t, w.(phase := T.Acked), true);
  }

  /** A window is left exactly while less than the minute is covered. */
  lemma WindowsLeft(g: nat, k: nat)
    requires g > 0 && k <= T.Windows(g)
    ensures T.Covered(g, k) < T.MINUTE_SECONDS <==> k < T.Windows(g)
  {
    if k < T.Windows(g) {
      T.CoveredMonotone(g, k, T.Windows(g) - 1);
    }
  }

  /** Nothing is due, or the run is dead. */
  predicate Idle(c: Config, n: R.Node, sc: R.Schedule, r: Run, now: int)
    requires Matches(c, n)
  {
    var b := |r.work.batches|;
    r.lockedAt < sc.crash <= now || b == T.Windows(c.gap) || now < Due(c, n, r, b)
  }

  lemma IdleStays(c: Config, n: R.Node, sc: R.Schedule, r: Run, now: int)
    requires Matches(c, n) && Ready(c, n, sc, r, now) && Idle(c, n, sc, r, now)
    ensures Before(c, n, sc, r, now + 1)
  {
  }

  /** What the run of t does at its moment. */
  function Work(c: Config, n: R.Node, sc: R.Schedule, xs: seq<Task>, s: Slice, t: Token): seq<Step>
    requires c.Valid() && Matches(c, n)
  {
    if t !in s.runs || Idle(c, n, sc, s.runs[t], s.store.now) then []
    else
      var k := |s.runs[t].work.batches|;
      [Tick(t)] + [Batch(t, k, Cache, SR.Found(c, xs, k), None)]
      + if k + 1 < T.Windows(c.gap) then [] else [Conclude(t, true)]
  }

  lemma WorkIsBatch(c: Config, s: Slice, t: Token, batch: Step, last: seq<Step>)
    requires c.Valid() && |last| <= 1
    ensures var s' := Do(c, Do(c, s, Tick(t)), batch);
            Exec(c, s, [Tick(t)] + [batch] + last) == if last == [] then s' else Do(c, s', last[0])
  {
    ExecStep(c, s, [], Tick(t));
    ExecStep(c, s, [Tick(t)], batch);
    assert [] + [Tick(t)] == [Tick(t)];
    if last == [] {
      assert [Tick(t)] + [batch] + last == [Tick(t)] + [batch];
    } else {
      ExecStep(c, s, [Tick(t)] + [batch], last[0]);
      assert last == [last[0]];
    }
  }

  /** The run was working, and its window is due now. */
  lemma BusyIsDue(c: Config, n: R.Node, sc: R.Schedule, r: Run, now: int)
    requires c.Valid() && Matches(c, n) && Ready(c, n, sc, r, now) && !Idle(c, n, sc, r, now)
    ensures var b := |r.work.batches|;
            && b < T.Windows(c.gap) && T.Covered(c.gap, b) < T.MINUTE_SECONDS
            && now == Due(c, n, r, b) && SR.Working(c, r, b, Slack(c, n))
  {
    WindowsLeft(c.gap, |r.work.batches|);
  }

  /** A scan of the due window, and the ack after the last, put the run on course for the next moment. */
  lemma ScannedIsOnCourse(c: Config, n: R.Node, sc: R.Schedule, r: Run, r': Run, now: int)
    requires c.Valid() && Matches(c, n) && Ready(c, n, sc, r, now) && !Idle(c, n, sc, r, now)
    requires r'.lockedAt == r.lockedAt && r'.scans == r.scans[|r.work.batches| := Scan(now, Cache)]
    requires SR.Working(c, r', |r.work.batches| + 1, Slack(c, n))
    ensures var last := |r.work.batches| + 1 == T.Windows(c.gap);
            && (last ==> r'.work.phase.Waiting?)
            && Before(c, n, sc, if last then r'.(work := r'.work.(phase := T.Acked)) else r', now + 1)
  {
    var b := |r.work.batches|;
    BusyIsDue(c, n, sc, r, now);
    WindowsLeft(c.gap, b + 1);
    SpanStep(c, b + 1);
    var r1 := if b + 1 == T.Windows(c.gap) then r'.(work := r'.work.(phase := T.Acked)) else r';
    ScansFollow(c, n, r, r1, b, now);
    OnCourseAfter(c, n, r1, b + 1, now);
    assert Limit(sc, r1.lockedAt, now + 1) == now + 1;
  }

  lemma ScansFollow(c: Config, n: R.Node, r: Run, r1: Run, b: nat, now: int)
    requires Matches(c, n) && r1.lockedAt == r.lockedAt && r1.scans == r.scans[b := Scan(now, Cache)]
    requires forall k: nat :: k in r.scans <==> k < b
    requires (forall k | k in r.scans :: r.scans[k].at == Due(c, n, r, k)) && now == Due(c, n, r, b)
    ensures forall k: nat :: k in r1.scans <==> k < b + 1
    ensures forall k | k in r1.scans :: r1.scans[k].at == Due(c, n, r1, k)
  {
  }

  lemma OnCourseAfter(c: Config, n: R.Node, r: Run, b: nat, now: int)
    requires Matches(c, n) && 0 < b <= T.Windows(c.gap) && |r.work.batches| == b && r.alive && CacheAnswered(r)
    requires r.work.AllSucceeded() && r.work.errors == [] && r.work.elapsed == T.Covered(c.gap, b)
    requires r.work.phase == if b < T.Windows(c.gap) then T.Ticking else T.Acked
    requires forall k: nat :: k in r.scans <==> k < b
    requires forall k | k in r.scans :: r.scans[k].at == Due(c, n, r, k)
    requires now == Due(c, n, r, b - 1) && now < Due(c, n, r, b)
    ensures OnCourse(c, n, r, now + 1, true)
  {
  }

  lemma WorkOne(c: Config, n: R.Node, sc: R.Schedule, xs: seq<Task>, s: Slice, t: Token)
    requires c.Valid() && Matches(c, n) && SR.Caches(c, s, xs) && NoDuplicates(xs)
    requires t in s.runs && Ready(c, n, sc, s.runs[t], s.store.now) && !Idle(c, n, sc, s.runs[t], s.store.now)
    ensures var s' := Exec(c, s, Work(c, n, sc, xs, s, t));
            && Stayed(s, s', t) && Before(c, n, sc, s'.runs[t], s.store.now + 1)
            && (Hit(n, sc, s.runs[t].lockedAt) ==> s'.store == s.store)
  {
    var r, now := s.runs[t], s.store.now;
    var k := |r.work.batches|;
    var batch := Batch(t, k, Cache, SR.Found(c, xs, k), None);
    var s1 := Do(c, Do(c, s, Tick(t)), batch);
    BusyIsDue(c, n, sc, r, now);
    ScanNow(c, s, xs, t, k, Slack(c, n));
    ScannedIsOnCourse(c, n, sc, r, s1.runs[t], now);
    if k + 1 < T.Windows(c.gap) {
      WorkIsBatch(c, s, t, batch, []);
    } else {
      WorkIsBatch(c, s, t, batch, [Conclude(t, true)]);
      AckNow(c, s1, t);
    }
  }

  // ---- All runs ----

  predicate AsksNothing(steps: seq<Step>) {
    forall step | step in steps :: !step.Attempt?
  }

  /** The runs below m have had their moment, the others not yet. */
  ghost predicate Halfway(c: Config, n: R.Node, sc: R.Schedule, s: Slice, m: nat)
    requires Matches(c, n)
  {
    forall t | t in s.runs ::
      if t < m then Before(c, n, sc, s.runs[t], s.store.now + 1) else Ready(c, n, sc, s.runs[t], s.store.now)
  }

  /** What the work of a moment leaves as it was. */
  predicate SameLockedRuns(s: Slice, s': Slice) {
    && s'.store.now == s.store.now && s'.issued == s.issued && s'.cached == s.cached && s'.runs.Keys == s.runs.Keys
    && forall t | t in s.runs :: s'.runs[t].lockedAt == s.runs[t].lockedAt
  }

  predicate AllHit(n: R.Node, sc: R.Schedule, s: Slice) {
    forall t | t in s.runs :: Hit(n, sc, s.runs[t].lockedAt)
  }

  /** From s to s' the runs below m have had their moment; the store stays if all runs are hit. */
  ghost predicate Went(c: Config, n: R.Node, sc: R.Schedule, s: Slice, s': Slice, m: nat)
    requires Matches(c, n)
  {
    Halfway(c, n, sc, s', m) && SameLockedRuns(s, s') && (AllHit(n, sc, s) ==> s'.store == s.store)
  }

  lemma IdleGoes(c: Config, n: R.Node, sc: R.Schedule, s: Slice, m: nat)
    requires Matches(c, n) && Halfway(c, n, sc, s, m)
    requires m !in s.runs || Idle(c, n, sc, s.runs[m], s.store.now)
    ensures Went(c, n, sc, s, s, m + 1)
  {
    if m in s.runs {
      assert Ready(c, n, sc, s.runs[m], s.store.now);
      IdleStays(c, n, sc, s.runs[m], s.store.now);
    }
    HalfwayMoves(c, n, sc, s, s, m);
  }

  lemma BusyGoes(c: Config, n: R.Node, sc: R.Schedule, xs: seq<Task>, s: Slice, m: nat)
    requires c.Valid() && Matches(c, n) && SR.Caches(c, s, xs) && NoDuplicates(xs) && Halfway(c, n, sc, s, m)
    requires m in s.runs && !Idle(c, n, sc, s.runs[m], s.store.now)
    ensures Went(c, n, sc, s, Exec(c, s, Work(c, n, sc, xs, s, m)), m + 1)
  {
    var s' := Exec(c, s, Work(c, n, sc, xs, s, m));
    assert Ready(c, n, sc, s.runs[m], s.store.now);
    WorkOne(c, n, sc, xs, s, m);
    HalfwayMoves(c, n, sc, s, s', m);
  }

  lemma OneMore(c: Config, n: R.Node, sc: R.Schedule, xs: seq<Task>, s: Slice, m: nat)
    requires c.Valid() && Matches(c, n) && SR.Caches(c, s, xs) && NoDuplicates(xs) && Halfway(c, n, sc, s, m)
    ensures Went(c, n, sc, s, Exec(c, s, Work(c, n, sc, xs, s, m)), m + 1)
  {
    if m !in s.runs || Idle(c, n, sc, s.runs[m], s.store.now) {
      IdleGoes(c, n, sc, s, m);
    } else {
      BusyGoes(c, n, sc, xs, s, m);
    }
  }

  lemma HalfwayMoves(c: Config, n: R.Node, sc: R.Schedule, s: Slice, s': Slice, m: nat)
    requires Matches(c, n) && Halfway(c, n, sc, s, m) && s'.store.now == s.store.now && s'.runs.Keys == s.runs.Keys
    requires forall u | u in s.runs && u != m :: s'.runs[u] == s.runs[u]
    requires m in s'.runs ==> Before(c, n, sc, s'.runs[m], s.store.now + 1)
    ensures Halfway(c, n, sc, s', m + 1)
  {
    forall t | t in s'.runs
      ensures if t < m + 1 then Before(c, n, sc, s'.runs[t], s'.store.now + 1)
              else Ready(c, n, sc, s'.runs[t], s'.store.now)
    {
      assert t in s.runs;
    }
  }

  lemma WorkAsksNothing(c: Config, n: R.Node, sc: R.Schedule, xs: seq<Task>, s: Slice, m: nat)
    requires c.Valid() && Matches(c, n)
    ensures AsksNothing(Work(c, n, sc, xs, s, m))
  {
  }

  lemma {:induction false} AllWork(c: Config, n: R.Node, sc: R.Schedule, xs: seq<Task>, s: Slice, m: nat)
    returns (more: seq<Step>)
    requires c.Valid() && Matches(c, n) && SR.Caches(c, s, xs) && NoDuplicates(xs) && Halfway(c, n, sc, s, 0)
    ensures Went(c, n, sc, s, Exec(c, s, more), m) && AsksNothing(more)
  {
    if m == 0 {
      more := [];
    } else {
      var before := AllWork(c, n, sc, xs, s, m - 1);
      var s1 := Exec(c, s, before);
      var last := Work(c, n, sc, xs, s1, m - 1);
      CachesStay(c, s, s1, xs);
      OneMore(c, n, sc, xs, s1, m - 1);
      WorkAsksNothing(c, n, sc, xs, s1, m - 1);
      WentTrans(c, n, sc, s, s1, Exec(c, s1, last), m);
      ExecConcat(c, s, before, last);
      more := before + last;
    }
  }

  lemma CachesStay(c: Config, s: Slice, s': Slice, xs: seq<Task>)
    requires SR.Caches(c, s, xs) && s'.cached == s.cached
    ensures SR.Caches(c, s', xs)
  {
  }

  lemma WentTrans(c: Config, n: R.Node, sc: R.Schedule, s1: Slice, s2: Slice, s3: Slice, m: nat)
    requires Matches(c, n) && m > 0 && Went(c, n, sc, s1, s2, m - 1) && Went(c, n, sc, s2, s3, m)
    ensures Went(c, n, sc, s1, s3, m)
  {
    SameLockedRunsTrans(n, sc, s1, s2, s3);
  }

  lemma SameLockedRunsTrans(n: R.Node, sc: R.Schedule, s1: Slice, s2: Slice, s3: Slice)
    requires SameLockedRuns(s1, s2) && SameLockedRuns(s2, s3)
    ensures SameLockedRuns(s1, s3) && (AllHit(n, sc, s1) ==> AllHit(n, sc, s2))
  {
  }

  // ---- One moment ----

  /** The slice k ms into its minute.  As long as no run survives, its store is that of the schedule. */
  ghost predicate Placed(c: Config, n: R.Node, sc: R.Schedule, xs: seq<Task>, k: nat, s: Slice) {
    && s.store.now == c.minute + k && (forall t | t in s.issued :: t < k) && SR.Caches(c, s, xs)
    && (forall t | t in s.runs :: t < k && t < R.ATTEMPTS && s.runs[t].lockedAt == c.minute + t)
    && (R.Recovers(n, sc) || (s.store == R.StoreAt(n, sc, k) && forall t | t in s.runs :: R.Takes(n, sc, t)))
  }

  ghost predicate At(c: Config, n: R.Node, sc: R.Schedule, xs: seq<Task>, k: nat, s: Slice)
    requires Matches(c, n)
  {
    Placed(c, n, sc, xs, k, s) && forall t | t in s.runs :: Before(c, n, sc, s.runs[t], s.store.now)
  }

  /** The crash, if this is its moment. */
  function CrashNow(sc: R.Schedule, s: Slice): seq<Step> {
    if s.store.now == sc.crash then [Crash(s.runs.Keys)] else []
  }

  lemma CrashReadies(c: Config, n: R.Node, sc: R.Schedule, xs: seq<Task>, k: nat, s: Slice)
    requires c.Valid() && Matches(c, n) && At(c, n, sc, xs, k, s)
    ensures var s' := Exec(c, s, CrashNow(sc, s));
            && Halfway(c, n, sc, s', 0) && SameLockedRuns(s, s') && s'.store == s.store
  {
    if s.store.now == sc.crash {
      ExecStep(c, s, [], Crash(s.runs.Keys));
      assert [] + [Crash(s.runs.Keys)] == CrashNow(sc, s);
    }
    var s' := Exec(c, s, CrashNow(sc, s));
    forall t | t in s'.runs
      ensures Ready(c, n, sc, s'.runs[t], s'.store.now)
    {
      BeforeIsReady(c, n, sc, s.runs[t], s.store.now);
    }
  }

  lemma BeforeIsReady(c: Config, n: R.Node, sc: R.Schedule, r: Run, now: int)
    requires Matches(c, n) && Before(c, n, sc, r, now) && r.lockedAt < now
    ensures Ready(c, n, sc, if now == sc.crash then r.(alive := false) else r, now)
  {
  }

  /** The poll, if there is one in the slice's two minutes. */
  ghost function PollNow(c: Config, n: R.Node, sc: R.Schedule, k: nat): seq<Step> {
    if R.Asks(n, sc, k) then [Attempt(k, c.minute + k, true)] else []
  }

  lemma PollTakes(c: Config, n: R.Node, sc: R.Schedule, k: nat, s: Slice)
    requires c.Valid() && n.Valid() && Matches(c, n) && Halfway(c, n, sc, s, 0)
    requires s.store.now == c.minute + k && k !in s.issued && k !in s.runs && R.Asks(n, sc, k)
    ensures Enabled(c, s, Attempt(k, c.minute + k, true))
    ensures var s' := Do(c, s, Attempt(k, c.minute + k, true));
            && s' == Attempted(c, s, k, true) && Halfway(c, n, sc, s', 0)
  {
    PollsForTwoMinutes(c, c.minute + k);
    var s' := Attempted(c, s, k, true);
    assert Do(c, s, Attempt(k, c.minute + k, true)) == s';
    StartIsReady(c, n, sc, s.store.now);
    forall t | t in s'.runs
      ensures Ready(c, n, sc, s'.runs[t], s'.store.now)
    {
      assert t in s.runs ==> s'.runs[t] == s.runs[t];
    }
  }

  lemma StartIsReady(c: Config, n: R.Node, sc: R.Schedule, now: int)
    requires Matches(c, n)
    ensures Ready(c, n, sc, Run(now, T.Start(c.gap), map[], true), now)
  {
  }

  /** The slice after the crash and the poll of a moment. */
  ghost predicate Polled(c: Config, n: R.Node, sc: R.Schedule, xs: seq<Task>, k: nat, s: Slice)
    requires Matches(c, n)
  {
    && s.store.now == c.minute + k && (forall t | t in s.issued :: t < k + 1) && SR.Caches(c, s, xs)
    && (forall t | t in s.runs :: t < k + 1 && t < R.ATTEMPTS && s.runs[t].lockedAt == c.minute + t)
    && (R.Recovers(n, sc)
        || (Apply(s.store, Advance(1)) == R.StoreAt(n, sc, k + 1) && forall t | t in s.runs :: R.Takes(n, sc, t)))
  }

  lemma CrashAndPoll(c: Config, n: R.Node, sc: R.Schedule, xs: seq<Task>, k: nat, s: Slice)
    requires c.Valid() && n.Valid() && Matches(c, n) && At(c, n, sc, xs, k, s)
    requires forall t | t in s.runs :: t in s.issued
    ensures var s2 := Exec(c, s, CrashNow(sc, s) + PollNow(c, n, sc, k));
            Halfway(c, n, sc, s2, 0) && Polled(c, n, sc, xs, k, s2) && s2.runs.Keys <= s.runs.Keys + {k}
    ensures R.Asks(n, sc, k) ==> Enabled(c, Exec(c, s, CrashNow(sc, s)), Attempt(k, c.minute + k, true))
  {
    var a, b := CrashNow(sc, s), PollNow(c, n, sc, k);
    CrashReadies(c, n, sc, xs, k, s);
    var s1 := Exec(c, s, a);
    assert k !in s.issued;
    PollGoes(c, n, sc, k, s1);
    ExecConcat(c, s, a, b);
    PollMirrors(c, n, sc, xs, k, s, s1, Exec(c, s1, b));
  }

  lemma PollGoes(c: Config, n: R.Node, sc: R.Schedule, k: nat, s: Slice)
    requires c.Valid() && n.Valid() && Matches(c, n) && Halfway(c, n, sc, s, 0)
    requires s.store.now == c.minute + k && k !in s.issued && k !in s.runs
    ensures var s' := Exec(c, s, PollNow(c, n, sc, k));
            Halfway(c, n, sc, s', 0) && s' == if R.Asks(n, sc, k) then Attempted(c, s, k, true) else s
    ensures R.Asks(n, sc, k) ==> Enabled(c, s, Attempt(k, c.minute + k, true))
  {
    if R.Asks(n, sc, k) {
      PollTakes(c, n, sc, k, s);
      ExecStep(c, s, [], Attempt(k, c.minute + k, true));
      assert [] + [Attempt(k, c.minute + k, true)] == PollNow(c, n, sc, k);
    }
  }

  lemma PollMirrors(c: Config, n: R.Node, sc: R.Schedule, xs: seq<Task>, k: nat, s: Slice, s1: Slice, s2: Slice)
    requires c.Valid() && n.Valid() && Matches(c, n) && Placed(c, n, sc, xs, k, s)
    requires SameLockedRuns(s, s1) && s1.store == s.store
    requires s2 == if R.Asks(n, sc, k) then Attempted(c, s1, k, true) else s1
    ensures Polled(c, n, sc, xs, k, s2)
  {
    assert forall t | t in s1.runs :: t in s.runs;
    if !R.Recovers(n, sc) {
      StoreFollows(c, n, sc, k, s, s1, s2);
    }
  }

  lemma StoreFollows(c: Config, n: R.Node, sc: R.Schedule, k: nat, s: Slice, s1: Slice, s2: Slice)
    requires c.Valid() && n.Valid() && Matches(c, n) && SameLockedRuns(s, s1) && s1.store == s.store
    requires s.store == R.StoreAt(n, sc, k) && forall t | t in s.runs :: R.Takes(n, sc, t)
    requires s2 == if R.Asks(n, sc, k) then Attempted(c, s1, k, true) else s1
    ensures Apply(s2.store, Advance(1)) == R.StoreAt(n, sc, k + 1) && forall t | t in s2.runs :: R.Takes(n, sc, t)
  {
    assert R.Request(n, k) == SetNX(c.key, k, c.lease);
    assert forall t | t in s1.runs :: t in s.runs;
  }

  /** Whoever takes a slice that no run survives is hit. */
  lemma TakersAreHit(c: Config, n: R.Node, sc: R.Schedule, xs: seq<Task>, k: nat, s: Slice)
    requires Matches(c, n) && Polled(c, n, sc, xs, k, s) && !R.Recovers(n, sc)
    ensures AllHit(n, sc, s)
  {
    forall t | t in s.runs
      ensures Hit(n, sc, s.runs[t].lockedAt)
    {
      assert R.Takes(n, sc, t);
    }
  }

  /** The moment's steps. */
  lemma MomentPasses(c: Config, n: R.Node, sc: R.Schedule, xs: seq<Task>, k: nat, s: Slice) returns (more: seq<Step>)
    requires c.Valid() && n.Valid() && Matches(c, n) && NoDuplicates(xs) && At(c, n, sc, xs, k, s)
    requires forall t | t in s.runs :: t in s.issued
    ensures AsksNothing(more)
    ensures var s' := Exec(c, s, CrashNow(sc, s) + PollNow(c, n, sc, k) + more);
            && s'.store.now == s.store.now && s'.runs.Keys <= s.runs.Keys + {k}
            && At(c, n, sc, xs, k + 1, Do(c, s', Pass(1)))
  {
    var polled := CrashNow(sc, s) + PollNow(c, n, sc, k);
    var s2 := Exec(c, s, polled);
    CrashAndPoll(c, n, sc, xs, k, s);
    more := AllWork(c, n, sc, xs, s2, k + 1);
    ExecConcat(c, s, polled, more);
    if !R.Recovers(n, sc) {
      TakersAreHit(c, n, sc, xs, k, s2);
    }
    NextIsAt(c, n, sc, xs, Exec(c, s2, more), k);
  }

  lemma NextIsAt(c: Config, n: R.Node, sc: R.Schedule, xs: seq<Task>, s: Slice, k: nat)
    requires c.Valid() && Matches(c, n) && Halfway(c, n, sc, s, k + 1) && SR.Caches(c, s, xs)
    requires s.store.now == c.minute + k && forall t | t in s.issued :: t < k + 1
    requires forall t | t in s.runs :: t < k + 1 && t < R.ATTEMPTS && s.runs[t].lockedAt == c.minute + t
    requires || R.Recovers(n, sc)
             || (Apply(s.store, Advance(1)) == R.StoreAt(n, sc, k + 1) && forall t | t in s.runs :: R.Takes(n, sc, t))
    ensures At(c, n, sc, xs, k + 1, Do(c, s, Pass(1)))
  {
    NextIsOnCourse(c, n, sc, s, k);
  }

  lemma NextIsOnCourse(c: Config, n: R.Node, sc: R.Schedule, s: Slice, k: nat)
    requires c.Valid() && Matches(c, n) && Halfway(c, n, sc, s, k + 1)
    requires forall t | t in s.runs :: t < k + 1
    ensures var s' := Do(c, s, Pass(1));
            && s' == s.(store := Apply(s.store, Advance(1)))
            && forall t | t in s'.runs :: Before(c, n, sc, s'.runs[t], s'.store.now)
  {
  }

  // ---- What has happened so far ----

  ghost predicate AskedFor(c: Config, steps: seq<Step>, p: int)
    requires c.Valid()
  {
    exists i :: Asked(c, steps, i, p)
  }

  lemma AskedStays(c: Config, steps: seq<Step>, rest: seq<Step>, p: int)
    requires c.Valid() && AskedFor(c, steps, p)
    ensures AskedFor(c, steps + rest, p)
  {
    var i: nat :| Asked(c, steps, i, p);
    assert (steps + rest)[..i] == steps[..i];
    assert Asked(c, steps + rest, i, p);
  }

  lemma StopStays(c: Config, steps: seq<Step>, rest: seq<Step>, t: Token, deadline: int)
    requires c.Valid() && StopsBy(c, steps, t, deadline)
    ensures StopsBy(c, steps + rest, t, deadline)
  {
    var i: nat :| StoppedAt(c, steps, i, t, deadline);
    assert (steps + rest)[..i] == steps[..i];
    assert StoppedAt(c, steps + rest, i, t, deadline);
  }

  lemma CrashStays(c: Config, sc: R.Schedule, steps: seq<Step>, rest: seq<Step>)
    requires c.Valid() && Crashed(c, sc, steps)
    ensures Crashed(c, sc, steps + rest)
  {
    var i: nat :| CrashedAt(c, sc, steps, i);
    assert forall j | 0 <= j <= i :: (steps + rest)[..j] == steps[..j];
    assert CrashedAt(c, sc, steps + rest, i);
  }

  lemma {:induction false} NowNeverFalls(c: Config, steps: seq<Step>, j: nat)
    requires c.Valid() && j <= |steps|
    ensures Reached(c, steps[..j]).store.now <= Reached(c, steps).store.now
  {
    if j == |steps| {
      assert steps[..j] == steps;
    } else {
      var init := steps[..|steps| - 1];
      assert init[..j] == steps[..j];
      NowNeverFalls(c, init, j);
    }
  }

  ghost predicate Finished(c: Config, s: Slice, t: Token)
    requires c.gap > 0
  {
    t in s.runs && |s.runs[t].work.batches| == T.Windows(c.gap)
  }

  /** Up to the k-th moment everything has gone as an experience of the schedule asks for. */
  ghost predicate History(c: Config, n: R.Node, sc: R.Schedule, k: nat, steps: seq<Step>)
    requires c.Valid()
  {
    && AllAnswered(steps)
    && (k > 0 ==> AllEarlier(c, steps, c.minute + k))
    && AskedUntil(c, sc, k, steps)
    && (c.minute < sc.crash < c.minute + k ==> Crashed(c, sc, steps))
    && AllInTime(c, n, steps)
  }

  ghost predicate AllEarlier(c: Config, steps: seq<Step>, now: int)
    requires c.Valid()
  {
    forall j | 0 <= j < |steps| :: Reached(c, steps[..j]).store.now < now
  }

  ghost predicate AskedUntil(c: Config, sc: R.Schedule, k: nat, steps: seq<Step>)
    requires c.Valid()
  {
    forall p | p in sc.polls && c.minute <= p < c.minute + k && p < c.minute + 2 * MINUTE :: AskedFor(c, steps, p)
  }

  ghost predicate InTime(c: Config, n: R.Node, steps: seq<Step>, t: Token)
    requires c.Valid()
  {
    Finished(c, Reached(c, steps), t) ==> StopsBy(c, steps, t, Reached(c, steps).runs[t].lockedAt + n.length)
  }

  ghost predicate AllInTime(c: Config, n: R.Node, steps: seq<Step>)
    requires c.Valid()
  {
    forall t :: InTime(c, n, steps, t)
  }

  lemma AllAnsweredConcat(a: seq<Step>, b: seq<Step>)
    requires AllAnswered(a) && AllAnswered(b)
    ensures AllAnswered(a + b)
  {
  }

  lemma AskingNothingIsAnswered(steps: seq<Step>)
    requires AsksNothing(steps)
    ensures AllAnswered(steps)
  {
  }

  lemma MomentIsAnswered(c: Config, n: R.Node, sc: R.Schedule, k: nat, s: Slice, steps: seq<Step>, more: seq<Step>)
    requires AllAnswered(steps) && AsksNothing(more)
    ensures AllAnswered(steps + (CrashNow(sc, s) + PollNow(c, n, sc, k) + more) + [Pass(1)])
  {
    AskingNothingIsAnswered(more);
    AllAnsweredConcat(CrashNow(sc, s), PollNow(c, n, sc, k));
    AllAnsweredConcat(CrashNow(sc, s) + PollNow(c, n, sc, k), more);
    AllAnsweredConcat(steps, CrashNow(sc, s) + PollNow(c, n, sc, k) + more);
  }

  lemma MomentIsLater(c: Config, steps: seq<Step>, k: nat)
    requires c.Valid() && Reached(c, steps).store.now == c.minute + k
    ensures AllEarlier(c, steps + [Pass(1)], c.minute + k + 1)
  {
    forall j | 0 <= j < |steps + [Pass(1)]|
      ensures Reached(c, (steps + [Pass(1)])[..j]).store.now < c.minute + k + 1
    {
      assert (steps + [Pass(1)])[..j] == steps[..j];
      NowNeverFalls(c, steps, j);
    }
  }

  lemma PollArrives(c: Config, n: R.Node, sc: R.Schedule, xs: seq<Task>, k: nat, steps: seq<Step>)
    requires c.Valid() && n.Valid() && Matches(c, n) && At(c, n, sc, xs, k, Reached(c, steps)) && R.Asks(n, sc, k)
    ensures var before := steps + CrashNow(sc, Reached(c, steps));
            Enabled(c, Reached(c, before), Attempt(k, c.minute + k, true))
            && Reached(c, before).store.now == c.minute + k
  {
    var s := Reached(c, steps);
    assert forall t | t in s.runs :: t in s.issued by {
      TimingAlways(c, steps);
    }
    CrashLetsPoll(c, n, sc, xs, k, s);
    ExecConcat(c, Start(c), steps, CrashNow(sc, s));
  }

  lemma PollIsAsked(c: Config, n: R.Node, sc: R.Schedule, k: nat, steps: seq<Step>, crash: seq<Step>, more: seq<Step>)
    requires c.Valid() && R.Asks(n, sc, k) && Reached(c, steps + crash).store.now == c.minute + k
    requires Enabled(c, Reached(c, steps + crash), Attempt(k, c.minute + k, true))
    ensures AskedFor(c, steps + (crash + PollNow(c, n, sc, k) + more), c.minute + k)
  {
    Reassociated(steps, crash, PollNow(c, n, sc, k), more);
    AskedNow(c, steps + crash, Attempt(k, c.minute + k, true), more, c.minute + k);
  }

  lemma Reassociated(a: seq<Step>, b: seq<Step>, c: seq<Step>, d: seq<Step>)
    ensures a + (b + c + d) == a + b + (c + d)
  {
  }

  lemma CrashLetsPoll(c: Config, n: R.Node, sc: R.Schedule, xs: seq<Task>, k: nat, s: Slice)
    requires c.Valid() && n.Valid() && Matches(c, n) && At(c, n, sc, xs, k, s) && R.Asks(n, sc, k)
    requires forall t | t in s.runs :: t in s.issued
    ensures var s1 := Exec(c, s, CrashNow(sc, s));
            Enabled(c, s1, Attempt(k, c.minute + k, true)) && s1.store.now == c.minute + k
  {
    CrashReadies(c, n, sc, xs, k, s);
    CrashAndPoll(c, n, sc, xs, k, s);
  }

  lemma AskedNow(c: Config, steps: seq<Step>, attempt: Step, more: seq<Step>, p: int)
    requires c.Valid() && attempt.Attempt? && Enabled(c, Reached(c, steps), attempt) && Reached(c, steps).store.now == p
    ensures AskedFor(c, steps + ([attempt] + more), p)
  {
    var longer := steps + ([attempt] + more);
    assert longer[..|steps|] == steps && longer[|steps|] == attempt;
    assert Asked(c, longer, |steps|, p);
  }

  lemma CrashIsFirst(c: Config, n: R.Node, sc: R.Schedule, k: nat, steps: seq<Step>, rest: seq<Step>)
    requires c.Valid() && 0 < k && History(c, n, sc, k, steps)
    requires Reached(c, steps).store.now == c.minute + k == sc.crash
    ensures Crashed(c, sc, steps + (CrashNow(sc, Reached(c, steps)) + rest))
  {
    var longer := steps + (CrashNow(sc, Reached(c, steps)) + rest);
    assert forall j | 0 <= j <= |steps| :: longer[..j] == steps[..j];
    assert steps[..|steps|] == steps;
    assert CrashedAt(c, sc, longer, |steps|);
  }

  /** A run that ends in this moment ends within its length. */
  lemma MomentStops(c: Config, n: R.Node, sc: R.Schedule, xs: seq<Task>, k: nat, s: Slice, s': Slice, t: Token)
    requires c.Valid() && Matches(c, n) && Placed(c, n, sc, xs, k, s) && Placed(c, n, sc, xs, k + 1, s')
    requires Finished(c, s', t) && !Finished(c, s, t) && s'.runs.Keys <= s.runs.Keys + {k}
    requires Before(c, n, sc, s'.runs[t], s'.store.now) && (t in s.runs ==> Before(c, n, sc, s.runs[t], s.store.now))
    ensures c.minute + k <= s'.runs[t].lockedAt + n.length
    ensures !s'.runs[t].work.Busy() && !s'.runs[t].work.SomeFailed()
  {
    var r' := s'.runs[t];
    OnCourseStops(c, n, sc, r', s'.store.now);
    if t in s.runs {
      CourseEnds(c, n, sc, s.runs[t], r', s.store.now);
    }
  }

  lemma OnCourseStops(c: Config, n: R.Node, sc: R.Schedule, r: Run, now: int)
    requires c.Valid() && Matches(c, n) && Before(c, n, sc, r, now) && |r.work.batches| == T.Windows(c.gap)
    ensures !r.work.Busy() && !r.work.SomeFailed()
  {
  }

  lemma CourseEnds(c: Config, n: R.Node, sc: R.Schedule, r: Run, r': Run, now: int)
    requires c.Valid() && Matches(c, n) && r'.lockedAt == r.lockedAt
    requires Before(c, n, sc, r, now) && Before(c, n, sc, r', now + 1)
    requires |r.work.batches| < T.Windows(c.gap) == |r'.work.batches|
    ensures now <= r.lockedAt + n.length
  {
    var b, w := |r.work.batches|, T.Windows(c.gap);
    W.SpanMonotone(c.gap, b + 1, w);
    assert Due(c, n, r, b) <= Due(c, n, r, w - 1) == Due(c, n, r', w - 1) == r.lockedAt + n.length;
  }

  lemma MomentKeepsHistory(c: Config, n: R.Node, sc: R.Schedule, xs: seq<Task>, k: nat, steps: seq<Step>)
    returns (longer: seq<Step>)
    requires c.Valid() && n.Valid() && Matches(c, n) && NoDuplicates(xs)
    requires At(c, n, sc, xs, k, Reached(c, steps)) && History(c, n, sc, k, steps)
    ensures At(c, n, sc, xs, k + 1, Reached(c, longer)) && History(c, n, sc, k + 1, longer)
  {
    var more := MomentGoes(c, n, sc, xs, k, steps);
    var moment := CrashNow(sc, Reached(c, steps)) + PollNow(c, n, sc, k) + more;
    longer := steps + moment + [Pass(1)];
    assert AllInTime(c, n, longer) by {
      MomentEnds(c, n, sc, xs, k, steps, moment);
    }
    HistoryGoes(c, n, sc, xs, k, steps, more);
  }

  lemma MomentGoes(c: Config, n: R.Node, sc: R.Schedule, xs: seq<Task>, k: nat, steps: seq<Step>)
    returns (more: seq<Step>)
    requires c.Valid() && n.Valid() && Matches(c, n) && NoDuplicates(xs) && At(c, n, sc, xs, k, Reached(c, steps))
    ensures AsksNothing(more)
    ensures var moment := CrashNow(sc, Reached(c, steps)) + PollNow(c, n, sc, k) + more;
            && Reached(c, steps + moment).store.now == c.minute + k
            && Reached(c, steps + moment).runs.Keys <= Reached(c, steps).runs.Keys + {k}
            && At(c, n, sc, xs, k + 1, Reached(c, steps + moment + [Pass(1)]))
  {
    var s := Reached(c, steps);
    TimingAlways(c, steps);
    more := MomentPasses(c, n, sc, xs, k, s);
    var moment := CrashNow(sc, s) + PollNow(c, n, sc, k) + more;
    ExecConcat(c, Start(c), steps, moment);
    ExecStep(c, Start(c), steps + moment, Pass(1));
  }

  lemma HistoryGoes(c: Config, n: R.Node, sc: R.Schedule, xs: seq<Task>, k: nat, steps: seq<Step>, more: seq<Step>)
    requires c.Valid() && n.Valid() && Matches(c, n) && AsksNothing(more)
    requires At(c, n, sc, xs, k, Reached(c, steps)) && History(c, n, sc, k, steps)
    requires var moment := CrashNow(sc, Reached(c, steps)) + PollNow(c, n, sc, k) + more;
             Reached(c, steps + moment).store.now == c.minute + k && AllInTime(c, n, steps + moment + [Pass(1)])
    ensures var moment := CrashNow(sc, Reached(c, steps)) + PollNow(c, n, sc, k) + more;
            History(c, n, sc, k + 1, steps + moment + [Pass(1)])
  {
    var crash, poll := CrashNow(sc, Reached(c, steps)), PollNow(c, n, sc, k);
    MomentIsAnswered(c, n, sc, k, Reached(c, steps), steps, more);
    MomentIsLater(c, steps + (crash + poll + more), k);
    MomentAsks(c, n, sc, xs, k, steps, more);
    MomentCrashes(c, n, sc, k, steps, poll + more);
    assert crash + (poll + more) == crash + poll + more;
  }

  lemma MomentAsks(c: Config, n: R.Node, sc: R.Schedule, xs: seq<Task>, k: nat, steps: seq<Step>, more: seq<Step>)
    requires c.Valid() && n.Valid() && Matches(c, n)
    requires At(c, n, sc, xs, k, Reached(c, steps)) && History(c, n, sc, k, steps)
    ensures var longer := steps + (CrashNow(sc, Reached(c, steps)) + PollNow(c, n, sc, k) + more) + [Pass(1)];
            AskedUntil(c, sc, k + 1, longer)
  {
    var moment := CrashNow(sc, Reached(c, steps)) + PollNow(c, n, sc, k) + more;
    forall p | p in sc.polls && c.minute <= p < c.minute + k + 1 && p < c.minute + 2 * MINUTE
      ensures AskedFor(c, steps + moment + [Pass(1)], p)
    {
      if p == c.minute + k {
        PollArrives(c, n, sc, xs, k, steps);
        PollIsAsked(c, n, sc, k, steps, CrashNow(sc, Reached(c, steps)), more);
      } else {
        AskedStays(c, steps, moment, p);
      }
      AskedStays(c, steps + moment, [Pass(1)], p);
    }
  }

  lemma MomentCrashes(c: Config, n: R.Node, sc: R.Schedule, k: nat, steps: seq<Step>, rest: seq<Step>)
    requires c.Valid() && History(c, n, sc, k, steps) && Reached(c, steps).store.now == c.minute + k
    ensures c.minute < sc.crash < c.minute + k + 1 ==>
              Crashed(c, sc, steps + (CrashNow(sc, Reached(c, steps)) + rest) + [Pass(1)])
  {
    if c.minute < sc.crash < c.minute + k + 1 {
      var moment := CrashNow(sc, Reached(c, steps)) + rest;
      if sc.crash == c.minute + k {
        CrashIsFirst(c, n, sc, k, steps, rest);
      } else {
        CrashStays(c, sc, steps, moment);
      }
      CrashStays(c, sc, steps + moment, [Pass(1)]);
    }
  }

  lemma MomentEnds(c: Config, n: R.Node, sc: R.Schedule, xs: seq<Task>, k: nat, steps: seq<Step>, moment: seq<Step>)
    requires c.Valid() && Matches(c, n) && AllInTime(c, n, steps)
    requires At(c, n, sc, xs, k, Reached(c, steps)) && Reached(c, steps + moment).store.now == c.minute + k
    requires Reached(c, steps + moment).runs.Keys <= Reached(c, steps).runs.Keys + {k}
    requires At(c, n, sc, xs, k + 1, Reached(c, steps + moment + [Pass(1)]))
    ensures AllInTime(c, n, steps + moment + [Pass(1)])
  {
    forall t
      ensures InTime(c, n, steps + moment + [Pass(1)], t)
    {
      if Finished(c, Reached(c, steps + moment + [Pass(1)]), t) {
        assert InTime(c, n, steps, t);
        if Finished(c, Reached(c, steps), t) {
          EarlierStop(c, n, sc, xs, k, steps, moment, t);
        } else {
          StopNow(c, n, sc, xs, k, steps, moment, t);
        }
      }
    }
  }

  lemma StopNow(c: Config, n: R.Node, sc: R.Schedule, xs: seq<Task>, k: nat,
                steps: seq<Step>, moment: seq<Step>, t: Token)
    requires c.Valid() && Matches(c, n)
    requires At(c, n, sc, xs, k, Reached(c, steps)) && Reached(c, steps + moment).store.now == c.minute + k
    requires Reached(c, steps + moment).runs.Keys <= Reached(c, steps).runs.Keys + {k}
    requires At(c, n, sc, xs, k + 1, Reached(c, steps + moment + [Pass(1)]))
    requires !Finished(c, Reached(c, steps), t) && Finished(c, Reached(c, steps + moment + [Pass(1)]), t)
    ensures InTime(c, n, steps + moment + [Pass(1)], t)
  {
    var longer := steps + moment + [Pass(1)];
    var s' := Reached(c, longer);
    var deadline := s'.runs[t].lockedAt + n.length;
    assert StopsBy(c, longer, t, deadline) by {
      PassKeepsRuns(c, steps + moment);
      MomentStops(c, n, sc, xs, k, Reached(c, steps), s', t);
      StopsNow(c, steps + moment, t, deadline);
    }
    StopIsInTime(c, n, longer, t, deadline);
  }

  lemma StopIsInTime(c: Config, n: R.Node, steps: seq<Step>, t: Token, deadline: int)
    requires c.Valid() && StopsBy(c, steps, t, deadline)
    requires Finished(c, Reached(c, steps), t) && deadline == Reached(c, steps).runs[t].lockedAt + n.length
    ensures InTime(c, n, steps, t)
  {
  }

  lemma PassKeepsRuns(c: Config, steps: seq<Step>)
    requires c.Valid()
    ensures Reached(c, steps + [Pass(1)]).runs == Reached(c, steps).runs
  {
    ExecStep(c, Start(c), steps, Pass(1));
  }

  lemma EarlierStop(c: Config, n: R.Node, sc: R.Schedule, xs: seq<Task>, k: nat,
                    steps: seq<Step>, moment: seq<Step>, t: Token)
    requires c.Valid() && Matches(c, n) && InTime(c, n, steps, t) && Finished(c, Reached(c, steps), t)
    requires Placed(c, n, sc, xs, k, Reached(c, steps))
    requires Placed(c, n, sc, xs, k + 1, Reached(c, steps + moment + [Pass(1)]))
    requires t in Reached(c, steps + moment + [Pass(1)]).runs
    ensures InTime(c, n, steps + moment + [Pass(1)], t)
  {
    var deadline := Reached(c, steps).runs[t].lockedAt + n.length;
    StopStays(c, steps, moment, t, deadline);
    StopStays(c, steps + moment, [Pass(1)], t, deadline);
  }

  lemma StopsNow(c: Config, steps: seq<Step>, t: Token, deadline: int)
    requires c.Valid() && Reached(c, steps).store.now <= deadline && t in Reached(c, steps).runs
    requires !Reached(c, steps).runs[t].work.Busy() && !Reached(c, steps).runs[t].work.SomeFailed()
    ensures StopsBy(c, steps + [Pass(1)], t, deadline)
  {
    var i := |steps|;
    assert (steps + [Pass(1)])[..i] == steps;
    assert StoppedAt(c, steps + [Pass(1)], i, t, deadline);
  }

  // ---- The whole story ----

  lemma InsertsAskNothing(xs: seq<Task>)
    ensures AsksNothing(SR.Inserts(xs))
  {
  }

  lemma StoryStarts(c: Config, n: R.Node, sc: R.Schedule, xs: seq<Task>)
    requires c.Valid() && n.Valid() && Matches(c, n) && SR.OfSlice(c, xs)
    ensures At(c, n, sc, xs, 0, Reached(c, SR.Until(c, xs, c.minute)))
    ensures History(c, n, sc, 0, SR.Until(c, xs, c.minute))
  {
    UntilIs(c, xs);
    InsertsAskNothing(xs);
    AskingNothingIsAnswered(SR.Inserts(xs));
    AllAnsweredConcat(SR.Inserts(xs), [Pass(c.minute - c.boot)]);
  }

  lemma UntilIs(c: Config, xs: seq<Task>)
    requires c.Valid() && SR.OfSlice(c, xs)
    ensures var s := Reached(c, SR.Until(c, xs, c.minute));
            && SR.Caches(c, s, xs) && s.store == Store(c.minute, map[]) && s.issued == {} && s.runs == map[]
  {
    SR.InsertsCache(c, xs);
    ExecStep(c, Start(c), SR.Inserts(xs), Pass(c.minute - c.boot));
  }

  lemma {:induction false} Story(c: Config, n: R.Node, sc: R.Schedule, xs: seq<Task>, k: nat) returns (steps: seq<Step>)
    requires c.Valid() && n.Valid() && Matches(c, n) && SR.OfSlice(c, xs)
    ensures At(c, n, sc, xs, k, Reached(c, steps)) && History(c, n, sc, k, steps)
  {
    if k == 0 {
      StoryStarts(c, n, sc, xs);
      steps := SR.Until(c, xs, c.minute);
    } else {
      var before := Story(c, n, sc, xs, k - 1);
      steps := MomentKeepsHistory(c, n, sc, xs, k - 1, before);
    }
  }

  /** By then every run has stopped or died. */
  function End(n: R.Node, sc: R.Schedule): nat {
    var crash := sc.crash - n.minute;
    (if crash < R.ATTEMPTS + n.length then R.ATTEMPTS + n.length else crash) + 1
  }

  lemma DueInOrder(c: Config, n: R.Node, r: Run, j: nat, k: nat)
    requires Matches(c, n) && j <= k
    ensures Due(c, n, r, j) <= Due(c, n, r, k)
  {
    W.SpanMonotone(c.gap, j + 1, k + 1);
  }

  /** The last window is due when the run's length is over. */
  lemma LastIsDue(c: Config, n: R.Node, r: Run)
    requires Matches(c, n)
    ensures Due(c, n, r, T.Windows(c.gap) - 1) == r.lockedAt + n.length
  {
  }

  lemma EndsOnCourse(c: Config, n: R.Node, sc: R.Schedule, r: Run, now: int)
    requires c.Valid() && Matches(c, n) && Before(c, n, sc, r, now) && r.lockedAt + n.length < now && sc.crash < now
    requires n.minute <= r.lockedAt
    ensures if Hit(n, sc, r.lockedAt) then ScannedUntilCrash(c, n, sc, r) && |r.work.batches| < T.Windows(c.gap)
            else |r.work.batches| == T.Windows(c.gap)
  {
    LastIsDue(c, n, r);
    if Hit(n, sc, r.lockedAt) {
      ScannedTo(c, n, sc, r, now);
    } else if |r.work.batches| < T.Windows(c.gap) {
      DueInOrder(c, n, r, |r.work.batches|, T.Windows(c.gap) - 1);
    }
  }

  lemma ScannedTo(c: Config, n: R.Node, sc: R.Schedule, r: Run, now: int)
    requires c.Valid() && Matches(c, n) && Before(c, n, sc, r, now) && Limit(sc, r.lockedAt, now) == sc.crash
    ensures ScannedUntilCrash(c, n, sc, r)
  {
    forall k: nat | k < T.Windows(c.gap) && Due(c, n, r, k) < sc.crash
      ensures k in r.scans && r.scans[k].at == Due(c, n, r, k)
    {
      if |r.work.batches| <= k {
        DueInOrder(c, n, r, |r.work.batches|, k);
      }
    }
  }

  // ---- The outage theorem, both ways ----

  /** However crash and polls fall, some steps are an experience of them, over a cache with any contents. */
  lemma ExperienceExists(c: Config, n: R.Node, sc: R.Schedule, xs: seq<Task>) returns (steps: seq<Step>)
    requires c.Valid() && n.Valid() && Matches(c, n) && R.Polite(n, sc) && SR.OfSlice(c, xs)
    ensures Experienced(c, n, sc, steps)
    ensures At(c, n, sc, xs, End(n, sc), Reached(c, steps))
  {
    steps := Story(c, n, sc, xs, End(n, sc));
    assert AllAsked(c, sc, steps) by {
      assert AskedUntil(c, sc, End(n, sc), steps);
      forall p | p in sc.polls && c.minute <= p < c.minute + 2 * MINUTE
        ensures exists i :: Asked(c, steps, i, p)
      {
        assert AskedFor(c, steps, p);
      }
    }
    forall t | t in Reached(c, steps).runs
      ensures CacheAnswered(Reached(c, steps).runs[t]) && RanItsCourse(c, n, sc, steps, t)
    {
      EndsWell(c, n, sc, xs, steps, t);
    }
  }

  lemma EndsWell(c: Config, n: R.Node, sc: R.Schedule, xs: seq<Task>, steps: seq<Step>, t: Token)
    requires c.Valid() && n.Valid() && Matches(c, n) && t in Reached(c, steps).runs
    requires At(c, n, sc, xs, End(n, sc), Reached(c, steps)) && History(c, n, sc, End(n, sc), steps)
    ensures CacheAnswered(Reached(c, steps).runs[t]) && RanItsCourse(c, n, sc, steps, t)
  {
    var s := Reached(c, steps);
    AllOverAtTheEnd(c, n, sc, xs, s, t);
    EndsOnCourse(c, n, sc, s.runs[t], s.store.now);
    assert InTime(c, n, steps, t);
  }

  /** The start of the last window. */
  function LastFiring(c: Config): Task
    requires c.Valid()
  {
    K.Task(c.bucket, c.minute + c.Span(T.Windows(c.gap) - 1))
  }

  lemma LastFiringIsOfTheSlice(c: Config)
    requires c.Valid()
    ensures SR.OfSlice(c, [LastFiring(c)]) && c.InWindow(LastFiring(c), T.Windows(c.gap) - 1)
  {
    var w := T.Windows(c.gap);
    SpanStep(c, w - 1);
    W.SpanMonotone(c.gap, 0, w - 1);
    InMinute(LastFiring(c).run, c.minute);
  }

  /** No run that is hit gets to its last window. */
  lemma HitsMissTheLast(c: Config, n: R.Node, sc: R.Schedule, steps: seq<Step>, x: Task, sub: Submission)
    requires c.Valid() && n.Valid() && Matches(c, n) && c.InWindow(x, T.Windows(c.gap) - 1)
    requires At(c, n, sc, [x], End(n, sc), Reached(c, steps)) && sub in Reached(c, steps).submitted
    requires AllHit(n, sc, Reached(c, steps))
    ensures sub.task != x
  {
    var s := Reached(c, steps);
    SubmissionIsTraced(c, steps, sub);
    HitAtTheEnd(c, n, sc, [x], s, sub.token);
    EarlierWindowsHoldOthers(c, s, x, sub);
  }

  lemma HitAtTheEnd(c: Config, n: R.Node, sc: R.Schedule, xs: seq<Task>, s: Slice, t: Token)
    requires c.Valid() && n.Valid() && Matches(c, n) && t in s.runs && At(c, n, sc, xs, End(n, sc), s)
    requires AllHit(n, sc, s)
    ensures CacheAnswered(s.runs[t]) && forall k | k in s.runs[t].scans :: k < T.Windows(c.gap) - 1
  {
    AllOverAtTheEnd(c, n, sc, xs, s, t);
    HitStopsShort(c, n, sc, s.runs[t], s.store.now);
  }

  lemma EarlierWindowsHoldOthers(c: Config, s: Slice, x: Task, sub: Submission)
    requires c.Valid() && TracedTo(c, s, sub) && CacheAnswered(s.runs[sub.token])
    requires c.InWindow(x, T.Windows(c.gap) - 1)
    requires forall k | k in s.runs[sub.token].scans :: k < T.Windows(c.gap) - 1
    ensures sub.task != x
  {
    if sub.task == x {
      W.WindowsAreDisjoint(c.gap, c.minute, x.run, sub.window, T.Windows(c.gap) - 1);
    }
  }

  lemma AllOverAtTheEnd(c: Config, n: R.Node, sc: R.Schedule, xs: seq<Task>, s: Slice, t: Token)
    requires c.Valid() && Matches(c, n) && At(c, n, sc, xs, End(n, sc), s) && t in s.runs
    ensures Before(c, n, sc, s.runs[t], s.store.now) && sc.crash < s.store.now
    ensures s.runs[t].lockedAt + n.length < s.store.now && n.minute <= s.runs[t].lockedAt
  {
  }

  lemma HitStopsShort(c: Config, n: R.Node, sc: R.Schedule, r: Run, now: int)
    requires c.Valid() && Matches(c, n) && Before(c, n, sc, r, now) && r.lockedAt + n.length < now && sc.crash < now
    requires Hit(n, sc, r.lockedAt)
    ensures CacheAnswered(r) && forall k | k in r.scans :: k < T.Windows(c.gap) - 1
  {
    EndsOnCourse(c, n, sc, r, now);
  }

  /** Steps of a schedule that no run survives, in which a firing of the last window is not submitted. */
  lemma LostStory(c: Config, n: R.Node, sc: R.Schedule) returns (steps: seq<Step>)
    requires c.Valid() && n.Valid() && Matches(c, n) && R.Polite(n, sc) && !R.Recovers(n, sc)
    ensures Experienced(c, n, sc, steps)
    ensures var s, x := Reached(c, steps), LastFiring(c);
            x in s.cached && s.cached[x] <= x.run && forall sub | sub in s.submitted :: sub.task != x
  {
    var x := LastFiring(c);
    LastFiringIsOfTheSlice(c);
    steps := ExperienceExists(c, n, sc, [x]);
    var s := Reached(c, steps);
    forall t | t in s.runs
      ensures Hit(n, sc, s.runs[t].lockedAt)
    {
      assert R.Takes(n, sc, t);
    }
    forall sub | sub in s.submitted
      ensures sub.task != x
    {
      HitsMissTheLast(c, n, sc, steps, x, sub);
    }
  }

  /** Whatever was cached in time is submitted, whenever the node crashes and polls. */
  ghost predicate AllSubmitted(c: Config, n: R.Node)
    requires c.Valid() && Matches(c, n)
  {
    forall sc, steps, x |
      Experienced(c, n, sc, steps) && x in Reached(c, steps).cached && Reached(c, steps).cached[x] <= x.run ::
      1 <= Times(Reached(c, steps).submitted, x, FromCache) <= CeilDiv(c.AttemptSpan(), c.Spacing())
  }

  lemma {:induction false} NotSubmitted(subs: seq<Submission>, x: Task)
    requires forall sub | sub in subs :: sub.task != x
    ensures Times(subs, x, FromCache) == 0
  {
    if subs != [] {
      assert subs[|subs| - 1] in subs;
      NotSubmitted(subs[..|subs| - 1], x);
    }
  }

  /**
    The hardest promise, exactly: with one outage and no other fault, every firing cached in
    time is submitted at least once and at most n times, however crash and polls fall, if and
    only if the outage is robust.
   */
  lemma SubmittedDespiteOutageIff(c: Config, n: R.Node)
    requires c.Valid() && n.Valid() && Matches(c, n) && c.gap <= T.MINUTE_SECONDS
    ensures AllSubmitted(c, n) <==> n.Robust()
  {
    if n.Robust() {
      forall sc, steps, x |
        Experienced(c, n, sc, steps) && x in Reached(c, steps).cached && Reached(c, steps).cached[x] <= x.run
        ensures 1 <= Times(Reached(c, steps).submitted, x, FromCache) <= CeilDiv(c.AttemptSpan(), c.Spacing())
      {
        SubmittedOnce(c, n, sc, steps, x);
      }
    } else {
      R.RecoveryIff(n);
      var sc :| R.Polite(n, sc) && !R.Recovers(n, sc);
      var steps := LostStory(c, n, sc);
      NotSubmitted(Reached(c, steps).submitted, LastFiring(c));
      assert Experienced(c, n, sc, steps);
    }
  }
}
