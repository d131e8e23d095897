/**
  The outage theorem on the slice protocol itself: under a robust outage every firing that was
  cached in time is submitted, at least once and at most n times.
 */
module SliceRecovery {
  import opened Clock
  import opened Wrappers
  import opened Redis
  import opened SliceProtocol
  import opened SliceDelivery
  import R = Recovery
  import SR = SliceRuns
  import T = TriggerWork

  // ---- Before the first ack, the slice's lock is a plain lease ----

  predicate AllAnswered(steps: seq<Step>) {
    forall i | 0 <= i < |steps| && steps[i].Attempt? :: steps[i].answered
  }

  predicate NothingAcked(s: Slice) {
    forall t | t in s.runs :: !s.runs[t].work.phase.Acked?
  }

  predicate Leasing(c: Config, s: Slice) {
    && (forall i, j | 0 <= i < j < |s.grants| :: s.grants[i] + c.lease <= s.grants[j])
    && if s.grants == [] then c.key !in s.store.entries
       else
         && c.key in s.store.entries
         && s.store.entries[c.key].expiry == Some(s.grants[|s.grants| - 1] + c.lease)
         && s.grants[|s.grants| - 1] <= s.store.now
  }

  /** Every grant started a run; until one of them acks, no lease has been extended. */
  ghost predicate Plain(c: Config, s: Slice) {
    && (forall g | g in s.grants :: exists t :: t in s.runs && s.runs[t].lockedAt == g)
    && (NothingAcked(s) ==> Leasing(c, s))
  }

  lemma AcksStay(c: Config, s: Slice, step: Step)
    requires c.Valid() && NothingAcked(Do(c, s, step)) && (step.Attempt? ==> step.token !in s.runs)
    ensures NothingAcked(s)
  {
    forall t | t in s.runs
      ensures !s.runs[t].work.phase.Acked?
    {
      assert t in Do(c, s, step).runs;
    }
  }

  /** The runs keep their tokens and the times of their locks. */
  predicate SameRuns(s: Slice, s': Slice) {
    forall t | t in s.runs :: t in s'.runs && s'.runs[t].lockedAt == s.runs[t].lockedAt
  }

  lemma GrantedRunsStay(s: Slice, s': Slice)
    requires forall g | g in s.grants :: exists t :: t in s.runs && s.runs[t].lockedAt == g
    requires SameRuns(s, s')
    ensures forall g | g in s.grants :: exists t :: t in s'.runs && s'.runs[t].lockedAt == g
  {
    forall g | g in s.grants
      ensures exists t :: t in s'.runs && s'.runs[t].lockedAt == g
    {
      var t :| t in s.runs && s.runs[t].lockedAt == g;
      assert t in s'.runs;
    }
  }

  lemma AttemptKeepsPlain(c: Config, s: Slice, t: Token)
    requires c.Valid() && Plain(c, s) && t !in s.runs
    ensures Plain(c, Attempted(c, s, t, true))
  {
    var s' := Attempted(c, s, t, true);
    GrantedRunsStay(s, s');
    assert Reply(s.store, SetNX(c.key, t, c.lease)) ==> s'.runs[t].lockedAt == s.store.now;
    if NothingAcked(s') {
      assert forall u | u in s.runs :: s'.runs[u] == s.runs[u];
    }
  }

  lemma PlainKept(c: Config, s: Slice, step: Step)
    requires c.Valid() && Timing(c, s) && Plain(c, s) && (step.Attempt? ==> step.answered)
    ensures Plain(c, Do(c, s, step)) && s.grants <= Do(c, s, step).grants
    ensures NothingAcked(Do(c, s, step)) ==> NothingAcked(s)
  {
    if !Enabled(c, s, step) {
      return;
    }
    match step
    case Attempt(t, _, _) =>
      AttemptKeepsPlain(c, s, t);
      if NothingAcked(Do(c, s, step)) {
        AcksStay(c, s, step);
      }
    case Conclude(t, delivered) =>
      ConclusionKeepsPlain(c, s, t, T.Do(c.gap, s.runs[t].work, T.Conclude), delivered);
    case _ =>
      SameLocksUnlessTaken(c, s, step);
      if NothingAcked(Do(c, s, step)) {
        AcksStay(c, s, step);
      }
      SameLocksKeepPlain(c, s, Do(c, s, step));
  }

  lemma SameLocksKeepPlain(c: Config, s: Slice, s': Slice)
    requires Plain(c, s) && SameLocks(s, s') && s.store.now <= s'.store.now
    requires NothingAcked(s') ==> NothingAcked(s)
    ensures Plain(c, s')
  {
    GrantedRunsStay(s, s');
  }

  lemma ConclusionKeepsPlain(c: Config, s: Slice, t: Token, work: T.RunState, delivered: bool)
    requires Plain(c, s) && t in s.runs && !s.runs[t].work.phase.Acked?
    ensures var s' := Conclusion(c, s, t, work, delivered);
            Plain(c, s') && s'.grants == s.grants && (NothingAcked(s') ==> NothingAcked(s))
  {
    var s' := Conclusion(c, s, t, work, delivered);
    GrantedRunsStay(s, s');
    assert s'.runs[t].work == work;
    assert forall u | u in s.runs && u != t :: s'.runs[u] == s.runs[u];
  }

  lemma {:induction false} PlainAlways(c: Config, steps: seq<Step>)
    requires c.Valid() && AllAnswered(steps)
    ensures Plain(c, Reached(c, steps))
  {
    if steps != [] {
      var init := steps[..|steps| - 1];
      TimingAlways(c, init);
      PlainAlways(c, init);
      PlainKept(c, Reached(c, init), steps[|steps| - 1]);
    }
  }

  lemma {:induction false} PlainBefore(c: Config, steps: seq<Step>, i: nat)
    requires c.Valid() && AllAnswered(steps) && i <= |steps|
    ensures Reached(c, steps[..i]).grants <= Reached(c, steps).grants
    ensures NothingAcked(Reached(c, steps)) ==> NothingAcked(Reached(c, steps[..i]))
  {
    if i < |steps| {
      var init := steps[..|steps| - 1];
      assert init[..i] == steps[..i];
      PlainBefore(c, init, i);
      TimingAlways(c, init);
      PlainAlways(c, init);
      PlainKept(c, Reached(c, init), steps[|steps| - 1]);
    } else {
      assert steps[..i] == steps;
    }
  }

  // ---- One outage ----

  /** A lock request arrives at p. */
  predicate Asked(c: Config, steps: seq<Step>, i: nat, p: int)
    requires c.Valid()
  {
    && i < |steps| && steps[i].Attempt?
    && Enabled(c, Reached(c, steps[..i]), steps[i]) && Reached(c, steps[..i]).store.now == p
  }

  /** Every poll of the slice's two minutes asks for the lock. */
  ghost predicate AllAsked(c: Config, sc: R.Schedule, steps: seq<Step>)
    requires c.Valid()
  {
    forall p | p in sc.polls && c.minute <= p < c.minute + 2 * MINUTE :: exists i :: Asked(c, steps, i, p)
  }

  predicate Matches(c: Config, n: R.Node) {
    && n.key == c.key && n.minute == c.minute && n.lease == c.lease
    && c.gap > 0 && c.RunSpan() <= n.length
  }

  /** What the length of a run leaves beyond its windows: how late its scans may be. */
  function Slack(c: Config, n: R.Node): nat
    requires Matches(c, n)
  {
    n.length - c.RunSpan()
  }

  predicate Hit(n: R.Node, sc: R.Schedule, lockedAt: int) {
    n.minute <= lockedAt && R.Lost(n, sc, lockedAt - n.minute)
  }

  /** The run of t has stopped, without a failure, by the deadline. */
  ghost predicate StoppedAt(c: Config, steps: seq<Step>, i: nat, t: Token, deadline: int)
    requires c.Valid()
  {
    i <= |steps| &&
    var s := Reached(c, steps[..i]);
    s.store.now <= deadline && t in s.runs && !s.runs[t].work.Busy() && !s.runs[t].work.SomeFailed()
  }

  ghost predicate StopsBy(c: Config, steps: seq<Step>, t: Token, deadline: int)
    requires c.Valid()
  {
    exists i :: StoppedAt(c, steps, i, t, deadline)
  }

  /** Until the crash the run scanned its windows in time. */
  predicate ScannedUntilCrash(c: Config, n: R.Node, sc: R.Schedule, r: Run)
    requires Matches(c, n)
  {
    forall k | 0 <= k < T.Windows(c.gap) && r.lockedAt + c.Span(k + 1) + Slack(c, n) < sc.crash ::
      k in r.scans && r.scans[k].at <= r.lockedAt + c.Span(k + 1) + Slack(c, n)
  }

  /** At the moment of the crash, and first at that moment, every run dies. */
  ghost predicate CrashedAt(c: Config, sc: R.Schedule, steps: seq<Step>, i: nat)
    requires c.Valid()
  {
    && i < |steps| && steps[i].Crash?
    && Reached(c, steps[..i]).store.now == sc.crash && Reached(c, steps[..i]).runs.Keys <= steps[i].tokens
    && forall j | 0 <= j < i && Reached(c, steps[..j]).store.now == sc.crash :: steps[j].Pass?
  }

  ghost predicate Crashed(c: Config, sc: R.Schedule, steps: seq<Step>)
    requires c.Valid()
  {
    exists i :: CrashedAt(c, sc, steps, i)
  }

  /** A run the crash misses stops within its length; one that it hits scans in time until then. */
  ghost predicate RanItsCourse(c: Config, n: R.Node, sc: R.Schedule, steps: seq<Step>, t: Token)
    requires c.Valid() && Matches(c, n) && t in Reached(c, steps).runs
  {
    var r := Reached(c, steps).runs[t];
    if Hit(n, sc, r.lockedAt) then ScannedUntilCrash(c, n, sc, r) && Crashed(c, sc, steps)
    else StopsBy(c, steps, t, r.lockedAt + n.length)
  }

  /**
    The steps of a node with one outage and no other fault: every poll of the slice's two
    minutes asks for the lock and hears the answer, the cache answers, and every run runs its
    course within its length, unless it dies in the crash.
   */
  ghost predicate Experienced(c: Config, n: R.Node, sc: R.Schedule, steps: seq<Step>)
    requires c.Valid() && Matches(c, n)
  {
    var s := Reached(c, steps);
    && R.Polite(n, sc) && AllAnswered(steps) && AllAsked(c, sc, steps)
    && forall t | t in s.runs :: CacheAnswered(s.runs[t]) && RanItsCourse(c, n, sc, steps, t)
  }

  predicate GrantedAt(c: Config, s: Slice, k: nat) {
    c.minute + k in s.grants
  }

  /** When the slice's grants were made, counted from the minute. */
  ghost function GrantTimes(c: Config, s: Slice): iset<nat> {
    iset k: nat | GrantedAt(c, s, k)
  }

  /** A request either takes the lock or meets the last grant's lease. */
  lemma AttemptFindsGrant(c: Config, s: Slice, step: Step)
    requires c.Valid() && Leasing(c, s) && step.Attempt? && Enabled(c, s, step)
    ensures var grants := Do(c, s, step).grants;
            grants != [] && grants[|grants| - 1] <= s.store.now < grants[|grants| - 1] + c.lease
  {
  }

  lemma GrantsAreOfTheSlice(c: Config, steps: seq<Step>, g: int)
    requires c.Valid() && g in Reached(c, steps).grants
    ensures c.minute <= g
  {
    LockingAlways(c, steps);
    var grants := Reached(c, steps).grants;
    var i :| 0 <= i < |grants| && grants[i] == g;
    R.ProductMonotone(0, i, c.Spacing());
  }

  lemma AskFindsGrant(c: Config, steps: seq<Step>, i: nat, p: int) returns (j: nat)
    requires c.Valid() && AllAnswered(steps) && NothingAcked(Reached(c, steps)) && Asked(c, steps, i, p)
    ensures j in GrantTimes(c, Reached(c, steps)) && c.minute + j <= p < c.minute + j + c.lease
  {
    var before := steps[..i];
    assert AllAnswered(before);
    assert Leasing(c, Reached(c, before)) by {
      PlainAlways(c, before);
      PlainBefore(c, steps, i);
    }
    AttemptFindsGrant(c, Reached(c, before), steps[i]);
    var grants := Do(c, Reached(c, before), steps[i]).grants;
    assert grants <= Reached(c, steps).grants by {
      assert steps[..i + 1] == before + [steps[i]];
      ExecStep(c, Start(c), before, steps[i]);
      PlainBefore(c, steps, i + 1);
    }
    var g := grants[|grants| - 1];
    assert g in Reached(c, steps).grants;
    GrantsAreOfTheSlice(c, steps, g);
    j := g - c.minute;
  }

  lemma GrantsAreApart(c: Config, steps: seq<Step>, j: nat, k: nat)
    requires c.Valid() && AllAnswered(steps) && NothingAcked(Reached(c, steps))
    requires j in GrantTimes(c, Reached(c, steps)) && k in GrantTimes(c, Reached(c, steps)) && j < k
    ensures j + c.lease <= k
  {
    var s := Reached(c, steps);
    PlainAlways(c, steps);
    var a :| 0 <= a < |s.grants| && s.grants[a] == c.minute + j;
    var b :| 0 <= b < |s.grants| && s.grants[b] == c.minute + k;
  }

  lemma GrantsAreLeased(c: Config, n: R.Node, sc: R.Schedule, steps: seq<Step>)
    requires c.Valid() && Matches(c, n) && NothingAcked(Reached(c, steps))
    requires AllAnswered(steps) && AllAsked(c, sc, steps)
    ensures R.Leased(n, sc, GrantTimes(c, Reached(c, steps)))
  {
    var grants := GrantTimes(c, Reached(c, steps));
    forall j, k | j in grants && k in grants && j < k
      ensures j + n.lease <= k
    {
      GrantsAreApart(c, steps, j, k);
    }
    forall p | p in sc.polls && n.minute <= p < n.minute + R.ATTEMPTS
      ensures exists j :: j in grants && n.minute + j <= p < n.minute + j + n.lease
    {
      var i: nat :| Asked(c, steps, i, p);
      var j := AskFindsGrant(c, steps, i, p);
      assert j in grants;
    }
  }

  /** A run that stopped without a failure has acked, and stays so. */
  lemma CleanStopAcks(c: Config, steps: seq<Step>, t: Token, deadline: int)
    requires c.Valid() && AllAnswered(steps) && StopsBy(c, steps, t, deadline)
    ensures !NothingAcked(Reached(c, steps))
  {
    var i: nat :| StoppedAt(c, steps, i, t, deadline);
    var s := Reached(c, steps[..i]);
    TimingAlways(c, steps[..i]);
    assert RunOk(c, s.store.now, s.runs[t]);
    assert s.runs[t].work.phase.Acked?;
    PlainBefore(c, steps, i);
  }

  /** Under a robust outage some run acks. */
  lemma SomeRunAcks(c: Config, n: R.Node, sc: R.Schedule, steps: seq<Step>) returns (t: Token)
    requires c.Valid() && n.Valid() && n.Robust() && Matches(c, n) && Experienced(c, n, sc, steps)
    ensures t in Reached(c, steps).runs && Reached(c, steps).runs[t].work.phase.Acked?
  {
    var s := Reached(c, steps);
    if NothingAcked(s) {
      t := SomeRunSurvives(c, n, sc, steps);
      assert RanItsCourse(c, n, sc, steps, t);
      CleanStopAcks(c, steps, t, s.runs[t].lockedAt + n.length);
    } else {
      t :| t in s.runs && s.runs[t].work.phase.Acked?;
    }
  }

  lemma SomeRunSurvives(c: Config, n: R.Node, sc: R.Schedule, steps: seq<Step>) returns (t: Token)
    requires c.Valid() && n.Valid() && n.Robust() && Matches(c, n) && Experienced(c, n, sc, steps)
    requires NothingAcked(Reached(c, steps))
    ensures t in Reached(c, steps).runs && !Hit(n, sc, Reached(c, steps).runs[t].lockedAt)
  {
    var grants := GrantTimes(c, Reached(c, steps));
    GrantsAreLeased(c, n, sc, steps);
    var j := R.RobustSurvives(n, sc, grants);
    t := GrantedRun(c, steps, j);
  }

  lemma GrantedRun(c: Config, steps: seq<Step>, j: nat) returns (t: Token)
    requires c.Valid() && AllAnswered(steps) && j in GrantTimes(c, Reached(c, steps))
    ensures t in Reached(c, steps).runs && Reached(c, steps).runs[t].lockedAt == c.minute + j
  {
    PlainAlways(c, steps);
    assert c.minute + j in Reached(c, steps).grants;
    t :| t in Reached(c, steps).runs && Reached(c, steps).runs[t].lockedAt == c.minute + j;
  }

  lemma SubmittedOnce(c: Config, n: R.Node, sc: R.Schedule, steps: seq<Step>, x: Task)
    requires c.Valid() && n.Valid() && n.Robust() && Matches(c, n) && c.gap <= T.MINUTE_SECONDS
    requires Experienced(c, n, sc, steps)
    requires x in Reached(c, steps).cached && Reached(c, steps).cached[x] <= x.run
    ensures 1 <= Times(Reached(c, steps).submitted, x, FromCache) <= CeilDiv(c.AttemptSpan(), c.Spacing())
  {
    var s := Reached(c, steps);
    var t := SomeRunAcks(c, n, sc, steps);
    var k := AckedRunSubmitsAll(c, steps, t, x);
    var sub := Submission(t, k, x, s.runs[t].scans[k].at, Cache);
    assert FromCache(sub) && sub.token == t && sub.task == x;
    SR.TimesAtLeastTokens(s.submitted, x, FromCache, {t});
    SubmittedAtMost(c, steps, x);
  }
}
