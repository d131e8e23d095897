/** From a timer's expression to the submission of its firings, across migration, an outage and the trigger. */
module EndToEnd {
  import opened Cron
  import opened Migration
  import K = Keys
  import R = Recovery
  import S = SliceProtocol
  import SD = SliceDelivery
  import SR = SliceRecovery
  import T = TriggerWork

  /** What a round writes for the slice reaches the cache within `lead` of the start of its expansion. */
  ghost predicate WrittenWithin(c: S.Config, s: S.Slice, id: int, e: Expr, step: nat, rounds: seq<Round>, lead: nat) {
    forall i, f | 0 <= i < |rounds| && Covers(e, step, rounds[i], f) && c.Indexes(K.Task(id, f)) ::
      K.Task(id, f) in s.cached && s.cached[K.Task(id, f)] <= rounds[i].sampled + lead
  }

  /**
    With rounds at most `gap` apart that reach the cache within 2M - gap, every firing of the
    expression at least 2M - gap after the first round is submitted from the cache at least once
    and at most n times by the slice it belongs to, despite one robust outage.
   */
  lemma FiringIsSubmitted(c: S.Config, n: R.Node, sc: R.Schedule, steps: seq<S.Step>,
                          id: int, e: Expr, step: nat, gap: nat, rounds: seq<Round>, f: int)
    requires c.Valid() && n.Valid() && n.Robust() && SR.Matches(c, n) && c.gap <= T.MINUTE_SECONDS
    requires SR.Experienced(c, n, sc, steps)
    requires rounds != [] && InOrder(rounds, step) && Rhythm(rounds, gap) && gap < 2 * step
    requires WrittenWithin(c, S.Reached(c, steps), id, e, step, rounds, 2 * step - gap)
    requires f in e && rounds[0].sampled + 2 * step - gap <= f <= rounds[|rounds| - 1].start + 2 * step
    requires c.Indexes(K.Task(id, f))
    ensures 1 <= SD.Times(S.Reached(c, steps).submitted, K.Task(id, f), SD.FromCache)
              <= S.CeilDiv(c.AttemptSpan(), c.Spacing())
  {
    WrittenAhead(step, gap, rounds, e, f);
    SR.SubmittedOnce(c, n, sc, steps, K.Task(id, f));
  }
}
