/**
  All slices together: what the slices of every minute and every bucket, each under its own
  lock, submit of one firing.
 */
module SliceFleet {
  import opened Clock
  import opened Wrappers
  import opened SliceProtocol
  import opened SliceDelivery
  import K = Keys
  import T = TriggerWork

  /** What happened to the slice of a minute and a bucket. */
  datatype SliceRun = SliceRun(minute: int, bucket: nat, steps: seq<Step>)

  /** The slices share their settings; each has its own lock. */
  function ConfigOf(base: Config, r: SliceRun): Config {
    base.(key := K.GetTimeBucketLockKey(r.minute, r.bucket), minute := r.minute, bucket := r.bucket)
  }

  function TimesIn(base: Config, r: SliceRun, x: Task): nat
    requires ConfigOf(base, r).Valid()
  {
    Times(Reached(ConfigOf(base, r), r.steps).submitted, x, Any)
  }

  predicate AllSlices(base: Config, slices: seq<SliceRun>) {
    && (forall r | r in slices :: ConfigOf(base, r).Valid())
    && forall i, j | 0 <= i < j < |slices| ::
         slices[i].minute != slices[j].minute || slices[i].bucket != slices[j].bucket
  }

  function TotalTimes(base: Config, slices: seq<SliceRun>, x: Task): nat
    requires forall r | r in slices :: ConfigOf(base, r).Valid()
  {
    if slices == [] then 0
    else TotalTimes(base, slices[..|slices| - 1], x) + TimesIn(base, slices[|slices| - 1], x)
  }

  /** The slice of the minute before also reads the first moments of a task's minute. */
  predicate MaySubmit(base: Config, r: SliceRun, x: Task) {
    && (r.minute == MinuteOf(x.run) || r.minute == MinuteOf(x.run) - MINUTE)
    && base.buckets > 0 && r.bucket == x.timer % base.buckets
  }

  lemma OthersSubmitNothing(base: Config, r: SliceRun, x: Task)
    requires ConfigOf(base, r).Valid() && base.gap <= T.MINUTE_SECONDS && x.timer >= 0 && !MaySubmit(base, r, x)
    ensures TimesIn(base, r, x) == 0
  {
    var c := ConfigOf(base, r);
    forall sub | sub in Reached(c, r.steps).submitted
      ensures sub.task != x
    {
      SubmitsOwnOrNext(c, r.steps, sub);
      if sub.task == x {
        SubmitsOwnBucket(c, r.steps, sub);
      }
    }
    NeverSubmitted(Reached(c, r.steps).submitted, x);
  }

  /** A slice that may submit the task is one of at most two. */
  lemma {:induction false} OnlyTwoCount(base: Config, slices: seq<SliceRun>, x: Task)
    requires AllSlices(base, slices) && base.gap <= T.MINUTE_SECONDS && x.timer >= 0
    ensures TotalTimes(base, slices, x)
         == TimesAt(base, slices, x, MinuteOf(x.run)) + TimesAt(base, slices, x, MinuteOf(x.run) - MINUTE)
  {
    if slices != [] {
      var rest, last := slices[..|slices| - 1], slices[|slices| - 1];
      OnlyTwoCount(base, rest, x);
      if !MaySubmit(base, last, x) {
        OthersSubmitNothing(base, last, x);
      }
    }
  }

  /** The submissions of the slices of one minute and the task's bucket. */
  function TimesAt(base: Config, slices: seq<SliceRun>, x: Task, minute: int): nat
    requires forall r | r in slices :: ConfigOf(base, r).Valid()
  {
    if slices == [] then 0
    else
      var last := slices[|slices| - 1];
      TimesAt(base, slices[..|slices| - 1], x, minute)
      + if last.minute == minute && MaySubmit(base, last, x) then TimesIn(base, last, x) else 0
  }

  lemma {:induction false} AtMostOneCounts(base: Config, slices: seq<SliceRun>, x: Task, minute: int)
    returns (r: Option<SliceRun>)
    requires AllSlices(base, slices)
    ensures r == None ==> TimesAt(base, slices, x, minute) == 0
    ensures r.Some? ==> r.value in slices && r.value.minute == minute && MaySubmit(base, r.value, x)
    ensures r.Some? ==> TimesAt(base, slices, x, minute) == TimesIn(base, r.value, x)
  {
    if slices == [] {
      r := None;
    } else {
      var rest, last := slices[..|slices| - 1], slices[|slices| - 1];
      r := AtMostOneCounts(base, rest, x, minute);
      if last.minute == minute && MaySubmit(base, last, x) {
        assert r == None;
        r := Some(last);
      }
    }
  }

  lemma OneAtMost(base: Config, r: SliceRun, x: Task)
    requires ConfigOf(base, r).Valid()
    ensures TimesIn(base, r, x) <= 2 * CeilDiv(base.AttemptSpan(), base.Spacing())
  {
    SubmittedAtMost(ConfigOf(base, r), r.steps, x);
  }

  lemma TwoAtMost(base: Config, own: SliceRun, earlier: SliceRun, x: Task)
    requires ConfigOf(base, own).Valid() && ConfigOf(base, earlier).Valid()
    requires own.minute == MinuteOf(x.run) == earlier.minute + MINUTE && own.bucket == earlier.bucket
    ensures TimesIn(base, own, x) + TimesIn(base, earlier, x) <= 2 * CeilDiv(base.AttemptSpan(), base.Spacing())
  {
    NeighboursAtMost(ConfigOf(base, own), ConfigOf(base, earlier), own.steps, earlier.steps, x);
  }

  /**
    At-most-2n over all slices of all minutes and buckets, from both stores, for gaps of at most
    a minute and timers whose ids are not negative.
   */
  lemma SubmittedOverallAtMost(base: Config, slices: seq<SliceRun>, x: Task)
    requires base.gap > 0 && base.lease > 0
    requires AllSlices(base, slices) && base.gap <= T.MINUTE_SECONDS && x.timer >= 0
    ensures TotalTimes(base, slices, x) <= 2 * CeilDiv(base.AttemptSpan(), base.Spacing())
  {
    OnlyTwoCount(base, slices, x);
    var own := AtMostOneCounts(base, slices, x, MinuteOf(x.run));
    var earlier := AtMostOneCounts(base, slices, x, MinuteOf(x.run) - MINUTE);
    if own.Some? && earlier.Some? {
      TwoAtMost(base, own.value, earlier.value, x);
    } else if own.Some? {
      OneAtMost(base, own.value, x);
    } else if earlier.Some? {
      OneAtMost(base, earlier.value, x);
    }
  }
}
