/**
  Runs built step by step, which show that the conditions of the slice theorems are exact:
  the bounds on grants and submissions are reached, a slice can finish only inside its lease,
  and a finished slice can be taken again whenever its extended lease ends before the
  attempts do.
 */
module SliceRuns {
  import opened Clock
  import opened Wrappers
  import opened Redis
  import opened SliceProtocol
  import opened SliceDelivery
  import T = TriggerWork
  import W = Windows

  // ---- What the cache holds ----

  /** Tasks of the slice, each once. */
  predicate OfSlice(c: Config, xs: seq<Task>) {
    NoDuplicates(xs) && forall x | x in xs :: c.Indexes(x)
  }

  /** The cache holds exactly xs, since the start. */
  ghost predicate Caches(c: Config, s: Slice, xs: seq<Task>) {
    forall x :: (x in s.cached <==> x in xs) && (x in s.cached ==> s.cached[x] == c.boot)
  }

  function Found(c: Config, xs: seq<Task>, k: nat): (found: seq<Task>)
    ensures forall x :: x in found <==> x in xs && c.InWindow(x, k)
    ensures NoDuplicates(xs) ==> NoDuplicates(found)
  {
    if xs == [] then []
    else
      var x, rest := xs[|xs| - 1], xs[..|xs| - 1];
      assert xs == rest + [x];
      if c.InWindow(x, k) then Found(c, rest, k) + [x] else Found(c, rest, k)
  }

  function Inserts(xs: seq<Task>): seq<Step> {
    if xs == [] then [] else Inserts(xs[..|xs| - 1]) + [Insert(xs[|xs| - 1])]
  }

  lemma {:induction false} InsertsCache(c: Config, xs: seq<Task>)
    requires c.Valid() && OfSlice(c, xs)
    ensures var s := Reached(c, Inserts(xs)); Caches(c, s, xs) && s == Start(c).(cached := s.cached)
  {
    if xs != [] {
      var x, rest := xs[|xs| - 1], xs[..|xs| - 1];
      assert xs == rest + [x];
      InsertsCache(c, rest);
      ExecStep(c, Start(c), Inserts(rest), Insert(x));
    }
  }

  // ---- One undisturbed run ----

  /** A tick and its batch. */
  function Round(c: Config, xs: seq<Task>, t: Token, k: nat): seq<Step> {
    [Pass(c.gap * SECOND), Tick(t), Batch(t, k, Cache, Found(c, xs, k), None)]
  }

  function FaultFree(c: Config, xs: seq<Task>, t: Token, k: nat): seq<Step> {
    if k == 0 then []
    else FaultFree(c, xs, t, k - 1) + Round(c, xs, t, k - 1)
  }

  /** The run of t has scanned k windows, each `lag` after its tick was due, and nothing since. */
  ghost predicate Scanned(c: Config, s: Slice, xs: seq<Task>, t: Token, k: nat, lag: int)
    requires c.gap > 0
  {
    && t in s.runs && 0 <= lag && s.store.now == s.runs[t].lockedAt + c.Span(k) + lag
    && Working(c, s.runs[t], k, lag)
  }

  ghost predicate Working(c: Config, r: Run, k: nat, lag: int)
    requires c.gap > 0
  {
    && r.alive && CacheAnswered(r)
    && (forall j | j in r.scans :: r.scans[j].at == r.lockedAt + c.Span(j + 1) + lag)
    && |r.work.batches| == k && r.work.AllSucceeded() && r.work.errors == []
    && r.work.elapsed == T.Covered(c.gap, k)
    && r.work.phase == if T.Covered(c.gap, k) < T.MINUTE_SECONDS then T.Ticking else T.Waiting
  }

  /** Between s and s' only the run of t went on, by work that takes no lock. */
  ghost predicate Undisturbed(s: Slice, s': Slice, t: Token) {
    && s'.store.entries == s.store.entries && s'.grants == s.grants && s'.issued == s.issued
    && s'.finished == s.finished && s'.cached == s.cached && s'.runs.Keys == s.runs.Keys
    && (forall u | u in s.runs && u != t :: s'.runs[u] == s.runs[u])
    && t in s.runs && s'.runs[t].lockedAt == s.runs[t].lockedAt
  }

  /** Between s and s' the run of t submitted exactly what the windows from j to k hold, each as it was scanned. */
  ghost predicate Delivered(c: Config, s: Slice, s': Slice, xs: seq<Task>, t: Token, j: nat, k: nat, lag: int) {
    t in s.runs &&
    forall sub :: sub in s'.submitted <==>
      sub in s.submitted || (j <= sub.window < k && OfScan(c, s.runs[t].lockedAt, xs, t, lag, sub))
  }

  predicate OfScan(c: Config, lockedAt: int, xs: seq<Task>, t: Token, lag: int, sub: Submission) {
    && sub.token == t && sub.task in xs && c.InWindow(sub.task, sub.window)
    && sub.at == lockedAt + c.Span(sub.window + 1) + lag && sub.source.Cache?
  }

  lemma DeliveredTrans(c: Config, s1: Slice, s2: Slice, s3: Slice, xs: seq<Task>, t: Token, k: nat, lag: int)
    requires Delivered(c, s1, s2, xs, t, 0, k, lag) && Delivered(c, s2, s3, xs, t, k, k + 1, lag)
    requires s2.runs[t].lockedAt == s1.runs[t].lockedAt
    ensures Delivered(c, s1, s3, xs, t, 0, k + 1, lag)
  {
  }

  lemma UndisturbedTrans(s1: Slice, s2: Slice, s3: Slice, t: Token)
    requires Undisturbed(s1, s2, t) && Undisturbed(s2, s3, t)
    ensures Undisturbed(s1, s3, t)
  {
  }

  /** The run's part of a round. */
  lemma OneWork(c: Config, r: Run, k: nat, lag: int, at: int)
    requires c.gap > 0 && Working(c, r, k, lag) && T.Covered(c.gap, k) < T.MINUTE_SECONDS
    requires at == r.lockedAt + c.Span(k + 1) + lag
    ensures T.Enabled(r.work, T.Tick)
    ensures var ticked := T.Do(c.gap, r.work, T.Tick);
            && T.Enabled(ticked, T.Finish(k, None))
            && var r' := r.(work := T.Do(c.gap, ticked, T.Finish(k, None)), scans := r.scans[k := Scan(at, Cache)]);
               Working(c, r', k + 1, lag)
  {
    assert T.Do(c.gap, r.work, T.Tick).batches == r.work.batches + [T.Running];
  }

  lemma OneWindow(c: Config, s: Slice, xs: seq<Task>, t: Token, k: nat, lag: int)
    requires c.Valid() && Caches(c, s, xs) && NoDuplicates(xs)
    requires Scanned(c, s, xs, t, k, lag) && T.Covered(c.gap, k) < T.MINUTE_SECONDS
    ensures var s' := Do(c, Do(c, Do(c, s, Pass(c.gap * SECOND)), Tick(t)), Batch(t, k, Cache, Found(c, xs, k), None));
            && Scanned(c, s', xs, t, k + 1, lag) && Undisturbed(s, s', t)
            && Delivered(c, s, s', xs, t, k, k + 1, lag)
  {
    var r, at := s.runs[t], s.store.now + c.gap * SECOND;
    SpanStep(c, k);
    OneWork(c, r, k, lag, at);
    var ticked := T.Do(c.gap, r.work, T.Tick);
    var s1 := s.(store := s.store.(now := at));
    var s2 := s1.(runs := s.runs[t := r.(work := ticked)]);
    assert Do(c, s, Pass(c.gap * SECOND)) == s1;
    assert Do(c, s1, Tick(t)) == s2;
    assert Enabled(c, s2, Batch(t, k, Cache, Found(c, xs, k), None));
    var s3 := Batched(s2, t, k, T.Do(c.gap, ticked, T.Finish(k, None)), Cache, Found(c, xs, k));
    assert Do(c, s2, Batch(t, k, Cache, Found(c, xs, k), None)) == s3;
    SubmitAdds(s2, t, k, Cache, Found(c, xs, k));
  }

  lemma RoundScans(c: Config, s: Slice, before: seq<Step>, xs: seq<Task>, t: Token, k: nat, lag: int)
    requires c.Valid() && Caches(c, Exec(c, s, before), xs) && NoDuplicates(xs)
    requires Scanned(c, Exec(c, s, before), xs, t, k, lag) && T.Covered(c.gap, k) < T.MINUTE_SECONDS
    ensures Scanned(c, Exec(c, s, before + Round(c, xs, t, k)), xs, t, k + 1, lag)
    ensures Undisturbed(Exec(c, s, before), Exec(c, s, before + Round(c, xs, t, k)), t)
    ensures Delivered(c, Exec(c, s, before), Exec(c, s, before + Round(c, xs, t, k)), xs, t, k, k + 1, lag)
  {
    OneWindow(c, Exec(c, s, before), xs, t, k, lag);
    var p, i, b := Pass(c.gap * SECOND), Tick(t), Batch(t, k, Cache, Found(c, xs, k), None);
    assert before + Round(c, xs, t, k) == before + [p] + [i] + [b];
    ExecStep(c, s, before, p);
    ExecStep(c, s, before + [p], i);
    ExecStep(c, s, before + [p] + [i], b);
  }

  lemma {:induction false} FaultFreeScans(c: Config, s: Slice, xs: seq<Task>, t: Token, k: nat, lag: int)
    requires c.Valid() && Caches(c, s, xs) && NoDuplicates(xs)
    requires Scanned(c, s, xs, t, 0, lag) && k <= T.Windows(c.gap)
    ensures Scanned(c, Exec(c, s, FaultFree(c, xs, t, k)), xs, t, k, lag)
    ensures Undisturbed(s, Exec(c, s, FaultFree(c, xs, t, k)), t)
    ensures Delivered(c, s, Exec(c, s, FaultFree(c, xs, t, k)), xs, t, 0, k, lag)
  {
    if k > 0 {
      FaultFreeScans(c, s, xs, t, k - 1, lag);
      T.CoveredMonotone(c.gap, k - 1, T.Windows(c.gap) - 1);
      var before := FaultFree(c, xs, t, k - 1);
      RoundScans(c, s, before, xs, t, k - 1, lag);
      var s1, s2 := Exec(c, s, before), Exec(c, s, before + Round(c, xs, t, k - 1));
      UndisturbedTrans(s, s1, s2, t);
      DeliveredTrans(c, s, s1, s2, xs, t, k - 1, lag);
    }
  }

  /** All windows of t's run have been scanned, from the cache and without error. */
  ghost predicate Done(c: Config, s: Slice, t: Token)
    requires c.gap > 0
  {
    && t in s.runs && CacheAnswered(s.runs[t])
    && |s.runs[t].work.batches| == T.Windows(c.gap) && s.runs[t].work.AllSucceeded()
  }

  /** The run of t has not started on its windows. */
  predicate Fresh(c: Config, s: Slice, t: Token)
    requires c.gap > 0
  {
    && t in s.runs && s.runs[t].lockedAt <= s.store.now
    && s.runs[t] == Run(s.runs[t].lockedAt, T.Start(c.gap), map[], true)
  }

  // ---- The bound on grants is reached ----

  /** When the n-th node takes the slice, each the moment the key is free again. */
  function TurnAt(c: Config, n: nat): int
    requires c.Valid()
  {
    if n <= 1 then c.minute else TurnAt(c, n - 1) + c.Spacing()
  }

  lemma {:induction false} TurnAtIs(c: Config, n: nat)
    requires c.Valid() && n > 0
    ensures TurnAt(c, n) == c.minute + (n - 1) * c.Spacing()
  {
    if n > 1 {
      TurnAtIs(c, n - 1);
      assert (n - 1) * c.Spacing() == (n - 2) * c.Spacing() + c.Spacing();
    }
  }

  /** The key is free sooner if its lease just runs out. */
  predicate LeaseEndsFirst(c: Config)
    requires c.Valid()
  {
    c.lease <= c.RunSpan() + c.success
  }

  /** What the n-th node does: it runs to its ack when that frees the key sooner, and nothing yet otherwise. */
  function Turn(c: Config, xs: seq<Task>, n: nat): seq<Step>
    requires c.Valid()
  {
    if LeaseEndsFirst(c) then [Pass(c.lease)]
    else FaultFree(c, xs, n, T.Windows(c.gap)) + [Conclude(n, true)] + [Pass(c.success)]
  }

  /** A poll whose request can arrive at `at`. */
  function SampledFor(c: Config, at: int): int {
    if at < c.minute + 2 * MINUTE then at else c.minute + 2 * MINUTE - 1
  }

  /** The cache is filled, and time passes until `at`. */
  function Until(c: Config, xs: seq<Task>, at: int): seq<Step>
    requires c.boot <= at
  {
    Inserts(xs) + [Pass(at - c.boot)]
  }

  /** Nodes that take the slice one after another. */
  function Turns(c: Config, xs: seq<Task>, n: nat): seq<Step>
    requires c.Valid() && n > 0
  {
    (if n == 1 then Until(c, xs, c.minute) else Turns(c, xs, n - 1) + Turn(c, xs, n - 1))
    + [Attempt(n, SampledFor(c, TurnAt(c, n)), true)]
  }

  /** What a node whose turn is over leaves behind. */
  ghost predicate Left(c: Config, s: Slice, t: Token)
    requires c.Valid()
  {
    if LeaseEndsFirst(c) then Fresh(c, s, t) else Done(c, s, t)
  }

  lemma LeftKept(c: Config, s: Slice, s': Slice, n: nat)
    requires c.Valid() && s.store.now <= s'.store.now
    requires forall t | 1 <= t <= n :: Left(c, s, t)
    requires forall t | t in s.runs && t <= n :: t in s'.runs && s'.runs[t] == s.runs[t]
    ensures forall t | 1 <= t <= n :: Left(c, s', t)
  {
    forall t | 1 <= t <= n
      ensures Left(c, s', t)
    {
      assert Left(c, s, t);
    }
  }

  /** What the first n nodes have left behind. */
  ghost predicate Earlier(c: Config, s: Slice, xs: seq<Task>, n: nat)
    requires c.Valid()
  {
    && |s.grants| == n && (forall t | t in s.issued :: t <= n) && Caches(c, s, xs)
    && forall t | 1 <= t <= n :: Left(c, s, t)
  }

  /** The key is free for the next request. */
  ghost predicate FreeAt(c: Config, s: Slice, xs: seq<Task>, n: nat, at: int)
    requires c.Valid()
  {
    Earlier(c, s, xs, n) && s.store.now == at && !s.store.Held(c.key)
  }

  /** Node n has just taken the slice. */
  ghost predicate JustTaken(c: Config, s: Slice, xs: seq<Task>, n: nat)
    requires c.Valid()
  {
    && |s.grants| == n && (forall t | t in s.issued :: t <= n) && Caches(c, s, xs)
    && (forall t | 1 <= t < n :: Left(c, s, t))
    && Fresh(c, s, n) && s.runs[n].lockedAt == s.store.now
    && c.key in s.store.entries && s.store.entries[c.key] == Entry(n, Some(s.store.now + c.lease))
  }

  lemma UntilFrees(c: Config, xs: seq<Task>, at: int)
    requires c.Valid() && OfSlice(c, xs) && c.boot <= at
    ensures FreeAt(c, Reached(c, Until(c, xs, at)), xs, 0, at)
  {
    InsertsCache(c, xs);
    ExecStep(c, Start(c), Inserts(xs), Pass(at - c.boot));
  }

  lemma NextTakes(c: Config, s: Slice, xs: seq<Task>, n: nat, at: int)
    requires c.Valid() && n > 0 && FreeAt(c, s, xs, n - 1, at) && c.minute <= at < c.minute + c.AttemptSpan()
    ensures var s' := Do(c, s, Attempt(n, SampledFor(c, at), true));
            JustTaken(c, s', xs, n) && s'.store.now == at
  {
    PollsForTwoMinutes(c, SampledFor(c, at));
    var s' := Attempted(c, s, n, true);
    assert Do(c, s, Attempt(n, SampledFor(c, at), true)) == s';
    assert s'.runs == s.runs[n := Run(at, T.Start(c.gap), map[], true)];
    LeftKept(c, s, s', n - 1);
  }

  /** A run that acks leaves its extended lease behind. */
  lemma AckExtends(c: Config, s: Slice, xs: seq<Task>, n: nat)
    requires c.Valid() && NoDuplicates(xs) && JustTaken(c, s, xs, n) && c.RunSpan() < c.lease
    ensures var s' := Exec(c, s, FaultFree(c, xs, n, T.Windows(c.gap)) + [Conclude(n, true)]);
            && s'.finished && s'.grants == s.grants && s'.issued == s.issued && s'.cached == s.cached
            && s'.store.now == s.store.now + c.RunSpan()
            && c.key in s'.store.entries && s'.store.entries[c.key].expiry == Some(s'.store.now + c.success)
            && Done(c, s', n) && forall t | t in s.runs && t != n :: t in s'.runs && s'.runs[t] == s.runs[t]
  {
    var f := FaultFree(c, xs, n, T.Windows(c.gap));
    FaultFreeScans(c, s, xs, n, T.Windows(c.gap), 0);
    ExecStep(c, s, f, Conclude(n, true));
    var s1 := Exec(c, s, f);
    AckMoves(c, s1, n);
  }

  lemma AckMoves(c: Config, s: Slice, n: nat)
    requires c.Valid() && n in s.runs && s.runs[n].alive && s.runs[n].work.phase.Waiting?
    requires s.runs[n].work.AllSucceeded() && s.runs[n].work.errors == [] && s.store.HeldBy(c.key, n)
    ensures var w := s.runs[n].work.(phase := T.Acked);
            && Do(c, s, Conclude(n, true)) == Conclusion(c, s, n, w, true)
            && Conclusion(c, s, n, w, true).finished
            && Conclusion(c, s, n, w, true).store == Apply(s.store, ExpireIfOwner(c.key, n, c.success))
            && Conclusion(c, s, n, w, true).runs == s.runs[n := s.runs[n].(work := w)]
  {
    var w := s.runs[n].work;
    assert T.Do(c.gap, w, T.Conclude) == w.(phase := T.Acked);
  }

  lemma PassFrees(c: Config, s: Slice, xs: seq<Task>, n: nat, delta: nat)
    requires c.Valid() && Earlier(c, s, xs, n)
    requires c.key in s.store.entries && s.store.entries[c.key].expiry == Some(s.store.now + delta)
    ensures FreeAt(c, Do(c, s, Pass(delta)), xs, n, s.store.now + delta)
  {
    LeftKept(c, s, Do(c, s, Pass(delta)), n);
  }

  lemma AckLeavesEarlier(c: Config, s: Slice, xs: seq<Task>, n: nat)
    requires c.Valid() && NoDuplicates(xs) && n > 0 && JustTaken(c, s, xs, n) && !LeaseEndsFirst(c)
    ensures Earlier(c, Exec(c, s, FaultFree(c, xs, n, T.Windows(c.gap)) + [Conclude(n, true)]), xs, n)
  {
    var s' := Exec(c, s, FaultFree(c, xs, n, T.Windows(c.gap)) + [Conclude(n, true)]);
    AckExtends(c, s, xs, n);
    LeftKept(c, s, s', n - 1);
    assert Left(c, s', n);
  }

  lemma TurnFrees(c: Config, s: Slice, xs: seq<Task>, n: nat)
    requires c.Valid() && NoDuplicates(xs) && n > 0 && JustTaken(c, s, xs, n)
    ensures FreeAt(c, Exec(c, s, Turn(c, xs, n)), xs, n, s.store.now + c.Spacing())
  {
    if LeaseEndsFirst(c) {
      assert Left(c, s, n);
      PassFrees(c, s, xs, n, c.lease);
      ExecStep(c, s, [], Pass(c.lease));
      assert [] + [Pass(c.lease)] == Turn(c, xs, n);
    } else {
      var run := FaultFree(c, xs, n, T.Windows(c.gap)) + [Conclude(n, true)];
      var s' := Exec(c, s, run);
      assert Earlier(c, s', xs, n) by {
        AckLeavesEarlier(c, s, xs, n);
      }
      assert s'.store.now == s.store.now + c.RunSpan() && c.key in s'.store.entries
          && s'.store.entries[c.key].expiry == Some(s'.store.now + c.success) by {
        AckExtends(c, s, xs, n);
      }
      PassFrees(c, s', xs, n, c.success);
      ExecStep(c, s, run, Pass(c.success));
    }
  }

  lemma {:induction false} TurnsTake(c: Config, xs: seq<Task>, n: nat)
    requires c.Valid() && OfSlice(c, xs) && n > 0 && TurnAt(c, n) < c.minute + c.AttemptSpan()
    ensures JustTaken(c, Reached(c, Turns(c, xs, n)), xs, n)
    ensures Reached(c, Turns(c, xs, n)).store.now == TurnAt(c, n) >= c.minute
  {
    var before := if n == 1 then Until(c, xs, c.minute) else Turns(c, xs, n - 1) + Turn(c, xs, n - 1);
    if n == 1 {
      UntilFrees(c, xs, c.minute);
    } else {
      TurnsTake(c, xs, n - 1);
      TurnFrees(c, Reached(c, Turns(c, xs, n - 1)), xs, n - 1);
      ExecConcat(c, Start(c), Turns(c, xs, n - 1), Turn(c, xs, n - 1));
    }
    NextTakes(c, Reached(c, before), xs, n, TurnAt(c, n));
    ExecStep(c, Start(c), before, Attempt(n, SampledFor(c, TurnAt(c, n)), true));
  }

  /** As many turns as the bound allows find their place in the attempts. */
  lemma LastTurnIsInTime(c: Config)
    requires c.Valid()
    ensures var n := CeilDiv(c.AttemptSpan(), c.Spacing());
            n > 0 && TurnAt(c, n) < c.minute + c.AttemptSpan()
  {
    var n, d := CeilDiv(c.AttemptSpan(), c.Spacing()), c.Spacing();
    assert n > 0;
    assert (n - 1) * d < c.AttemptSpan() by {
      assert n * d <= c.AttemptSpan() + d - 1;
      assert (n - 1) * d == n * d - d;
    }
    TurnAtIs(c, n);
  }

  /** The bound of TakenAtMost is the least one: some run reaches it. */
  lemma GrantBoundIsReached(c: Config)
    requires c.Valid()
    ensures exists steps :: |Reached(c, steps).grants| == CeilDiv(c.AttemptSpan(), c.Spacing())
  {
    LastTurnIsInTime(c);
    TurnsTake(c, [], CeilDiv(c.AttemptSpan(), c.Spacing()));
  }

  // ---- The bound on submissions is reached ----

  /** The nodes from `first` to m scan their windows, one node after another. */
  function CatchUp(c: Config, xs: seq<Task>, first: nat, m: nat): seq<Step>
    requires c.Valid()
  {
    if m < first || m == 0 then [] else CatchUp(c, xs, first, m - 1) + FaultFree(c, xs, m, T.Windows(c.gap))
  }

  lemma {:induction false} CaughtUp(c: Config, s: Slice, xs: seq<Task>, first: nat, m: nat, n: nat)
    requires c.Valid() && Caches(c, s, xs) && NoDuplicates(xs) && 1 <= first <= m + 1 && m <= n
    requires (forall t | 1 <= t < first :: Done(c, s, t)) && forall t | first <= t <= n :: Fresh(c, s, t)
    ensures var s' := Exec(c, s, CatchUp(c, xs, first, m));
            && Caches(c, s', xs) && (forall t | 1 <= t <= m :: Done(c, s', t))
            && forall t | m < t <= n :: Fresh(c, s', t)
  {
    if first <= m {
      CaughtUp(c, s, xs, first, m - 1, n);
      var before := CatchUp(c, xs, first, m - 1);
      var s1 := Exec(c, s, before);
      var s2 := Exec(c, s1, FaultFree(c, xs, m, T.Windows(c.gap)));
      assert Fresh(c, s1, m);
      FaultFreeScans(c, s1, xs, m, T.Windows(c.gap), s1.store.now - s1.runs[m].lockedAt);
      ExecConcat(c, s, before, FaultFree(c, xs, m, T.Windows(c.gap)));
      forall t | 1 <= t <= m
        ensures Done(c, s2, t)
      {
        assert t < m ==> Done(c, s1, t);
      }
      forall t | m < t <= n
        ensures Fresh(c, s2, t)
      {
        assert Fresh(c, s1, t);
      }
    }
  }

  /** A run that has scanned all its windows has submitted every task cached in time. */
  lemma DoneSubmits(c: Config, steps: seq<Step>, t: Token, x: Task) returns (sub: Submission)
    requires c.Valid() && Done(c, Reached(c, steps), t)
    requires x in Reached(c, steps).cached && Reached(c, steps).cached[x] <= x.run
    ensures sub in Reached(c, steps).submitted && sub.token == t && sub.task == x && FromCache(sub)
  {
    var s := Reached(c, steps);
    TimingAlways(c, steps);
    DeliveryAlways(c, steps);
    assert RunOk(c, s.store.now, s.runs[t]);
    var k := W.WindowsCoverTheMinute(c.gap, c.minute, x.run);
    assert s.runs[t].work.batches[k] == T.Succeeded;
    sub := Submission(t, k, x, s.runs[t].scans[k].at, Cache);
  }

  lemma {:induction false} TimesAtLeastTokens(subs: seq<Submission>, x: Task, counted: Submission -> bool,
                                              tokens: set<Token>)
    requires forall t | t in tokens :: exists sub :: sub in subs && sub.token == t && sub.task == x && counted(sub)
    ensures |tokens| <= Times(subs, x, counted)
  {
    if subs == [] {
      assert tokens == {};
    } else {
      var init, last := subs[..|subs| - 1], subs[|subs| - 1];
      assert subs == init + [last];
      if last.task == x && counted(last) {
        TimesAtLeastTokens(init, x, counted, tokens - {last.token});
        assert |tokens| <= |tokens - {last.token}| + 1;
      } else {
        TimesAtLeastTokens(init, x, counted, tokens);
      }
    }
  }

  /** All nodes take the slice in turn and scan their windows: every one submits the task. */
  function EveryTurn(c: Config, x: Task, n: nat): seq<Step>
    requires c.Valid() && n > 0
  {
    Turns(c, [x], n) + CatchUp(c, [x], if LeaseEndsFirst(c) then 1 else n, n)
  }

  lemma EveryTurnSubmits(c: Config, x: Task, n: nat)
    requires c.Valid() && c.Indexes(x) && n > 0 && TurnAt(c, n) < c.minute + c.AttemptSpan()
    ensures n <= Times(Reached(c, EveryTurn(c, x, n)).submitted, x, FromCache)
  {
    var taken, first := Turns(c, [x], n), if LeaseEndsFirst(c) then 1 else n;
    var story := EveryTurn(c, x, n);
    TurnsTake(c, [x], n);
    forall t | 1 <= t <= n
      ensures if first <= t then Fresh(c, Reached(c, taken), t) else Done(c, Reached(c, taken), t)
    {
      assert t < n ==> Left(c, Reached(c, taken), t);
    }
    CaughtUp(c, Reached(c, taken), [x], first, n, n);
    ExecConcat(c, Start(c), taken, CatchUp(c, [x], first, n));
    var s := Reached(c, story);
    var tokens := TokensUpTo(n);
    forall t | t in tokens
      ensures exists sub :: sub in s.submitted && sub.token == t && sub.task == x && FromCache(sub)
    {
      var sub := DoneSubmits(c, story, t, x);
    }
    TimesAtLeastTokens(s.submitted, x, FromCache, tokens);
  }

  function TokensUpTo(n: nat): (tokens: set<Token>)
    ensures |tokens| == n && forall t :: t in tokens <==> 1 <= t <= n
  {
    if n == 0 then {} else TokensUpTo(n - 1) + {n}
  }

  /** The bound of SubmittedAtMost is the least one: every task is submitted that often in some run. */
  lemma SubmissionBoundIsReached(c: Config, x: Task)
    requires c.Valid() && c.Indexes(x)
    ensures exists steps :: Times(Reached(c, steps).submitted, x, FromCache) == CeilDiv(c.AttemptSpan(), c.Spacing())
  {
    var n := CeilDiv(c.AttemptSpan(), c.Spacing());
    LastTurnIsInTime(c);
    EveryTurnSubmits(c, x, n);
    SubmittedAtMost(c, EveryTurn(c, x, n), x);
  }

  // ---- A slice can finish only inside its lease ----

  ghost predicate Unextended(c: Config, s: Slice) {
    && !s.finished
    && (c.key in s.store.entries ==>
          var entry := s.store.entries[c.key];
          && entry.token in s.issued
          && (entry.token in s.runs ==> entry.expiry == Some(s.runs[entry.token].lockedAt + c.lease)))
  }

  lemma SameLocksStayUnextended(c: Config, s: Slice, s': Slice)
    requires Unextended(c, s) && SameLocks(s, s') && !s'.finished
    ensures Unextended(c, s')
  {
  }

  lemma AttemptStaysUnextended(c: Config, s: Slice, t: Token, answered: bool)
    requires c.Valid() && Unextended(c, s) && t !in s.issued && t !in s.runs
    ensures Unextended(c, Attempted(c, s, t, answered))
  {
  }

  lemma ConclusionStaysUnextended(c: Config, s: Slice, t: Token, work: T.RunState, delivered: bool)
    requires Unextended(c, s) && t in s.runs && s.runs[t].lockedAt + c.lease <= s.store.now
    ensures Unextended(c, Conclusion(c, s, t, work, delivered))
  {
    assert !s.store.HeldBy(c.key, t);
  }

  lemma UnextendedKept(c: Config, s: Slice, step: Step)
    requires c.Valid() && c.lease <= c.RunSpan() && Timing(c, s) && Unextended(c, s)
    ensures Unextended(c, Do(c, s, step))
  {
    if !Enabled(c, s, step) {
      return;
    }
    match step
    case Attempt(t, _, answered) => AttemptStaysUnextended(c, s, t, answered);
    case Conclude(t, delivered) =>
      ConcludesLate(c, s, t, delivered);
      ConclusionStaysUnextended(c, s, t, T.Do(c.gap, s.runs[t].work, T.Conclude), delivered);
    case _ =>
      SameLocksUnlessTaken(c, s, step);
      SameLocksStayUnextended(c, s, Do(c, s, step));
  }

  lemma {:induction false} ShortLeaseNeverFinishes(c: Config, steps: seq<Step>)
    requires c.Valid() && c.lease <= c.RunSpan()
    ensures Unextended(c, Reached(c, steps))
  {
    if steps != [] {
      var init := steps[..|steps| - 1];
      ShortLeaseNeverFinishes(c, init);
      TimingAlways(c, init);
      UnextendedKept(c, Reached(c, init), steps[|steps| - 1]);
    }
  }

  /** One node takes the slice as its minute starts and runs to its ack. */
  function FinishedStory(c: Config, xs: seq<Task>): seq<Step>
    requires c.Valid()
  {
    Turns(c, xs, 1) + (FaultFree(c, xs, 1, T.Windows(c.gap)) + [Conclude(1, true)])
  }

  lemma FinishedStoryFinishes(c: Config, xs: seq<Task>)
    requires c.Valid() && c.RunSpan() < c.lease && OfSlice(c, xs)
    ensures var s := Reached(c, FinishedStory(c, xs));
            && s.finished && s.store.now == c.minute + c.RunSpan()
            && |s.grants| == 1 && (forall t | t in s.issued :: t <= 1)
            && c.key in s.store.entries && s.store.entries[c.key].expiry == Some(s.store.now + c.success)
  {
    var taken, run := Turns(c, xs, 1), FaultFree(c, xs, 1, T.Windows(c.gap)) + [Conclude(1, true)];
    var s1 := Reached(c, taken);
    assert JustTaken(c, s1, xs, 1) && s1.store.now == c.minute by {
      TurnsTake(c, xs, 1);
    }
    AckExtends(c, s1, xs, 1);
    assert Reached(c, FinishedStory(c, xs)) == Exec(c, s1, run) by {
      ExecConcat(c, Start(c), taken, run);
    }
  }

  /** The ack can find its own token in some run exactly when the lease outlasts the windows. */
  lemma FinishPossibleIff(c: Config)
    requires c.Valid()
    ensures (exists steps :: Reached(c, steps).finished) <==> c.RunSpan() < c.lease
  {
    if c.RunSpan() < c.lease {
      FinishedStoryFinishes(c, []);
    } else {
      forall steps
        ensures !Reached(c, steps).finished
      {
        ShortLeaseNeverFinishes(c, steps);
      }
    }
  }

  // ---- A finished slice is final, exactly when ... ----

  /** If the extended lease ends first, the last moments of the attempts take the slice again. */
  lemma TakenAgain(c: Config) returns (more: seq<Step>)
    requires c.Valid() && c.RunSpan() < c.lease && c.RunSpan() + c.success < c.AttemptSpan()
    ensures Reached(c, FinishedStory(c, [])).finished
    ensures Reached(c, FinishedStory(c, []) + more).grants != Reached(c, FinishedStory(c, [])).grants
  {
    var story := FinishedStory(c, []);
    FinishedStoryFinishes(c, []);
    var at := c.minute + c.RunSpan() + c.success;
    var sampled := SampledFor(c, at);
    PollsForTwoMinutes(c, sampled);
    var p, a := Pass(c.success), Attempt(2, sampled, true);
    more := [p, a];
    ExecStep(c, Start(c), story, p);
    ExecStep(c, Start(c), story + [p], a);
    assert story + more == story + [p] + [a];
    var s1 := Reached(c, story + [p]);
    assert s1.store.now == at && Enabled(c, s1, a) && !s1.store.Held(c.key);
    assert |Reached(c, story + more).grants| == 2;
  }

  ghost predicate FinishedIsFinal(c: Config)
    requires c.Valid()
  {
    forall steps, more | Reached(c, steps).finished :: Reached(c, steps + more).grants == Reached(c, steps).grants
  }

  /** Shipped: 60s of windows, 70s of lease, 130s after success, so any delay up to 70s is safe. */
  lemma FinishedIsFinalIff(c: Config)
    requires c.Valid()
    ensures FinishedIsFinal(c) <==> c.lease <= c.RunSpan() || c.AttemptSpan() <= c.RunSpan() + c.success
  {
    if c.lease <= c.RunSpan() {
      forall steps
        ensures !Reached(c, steps).finished
      {
        ShortLeaseNeverFinishes(c, steps);
      }
    } else if c.AttemptSpan() <= c.RunSpan() + c.success {
      forall steps, more | Reached(c, steps).finished
        ensures Reached(c, steps + more).grants == Reached(c, steps).grants
      {
        FinishedStaysFinished(c, steps, more);
      }
    } else {
      var more := TakenAgain(c);
      assert Reached(c, FinishedStory(c, [])).finished;
      assert Reached(c, FinishedStory(c, []) + more).grants != Reached(c, FinishedStory(c, [])).grants;
    }
  }
}
