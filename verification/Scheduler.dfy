/**
  The scheduler's side of a slice: which slices a poll submits, and what one submitted
  attempt sends to the lock store around its run of the trigger.
 */
module Scheduler {
  import opened Clock
  import opened Keys
  import opened Wrappers
  import B = TriggerBatch
  import D = DistLock
  import R = Redis
  import S = SliceProtocol
  import T = TriggerWork

  /** An attempt at the slice of the minute that contains t. */
  datatype Attempt = Attempt(t: int, bucket: nat)

  /** The j-th submission of a poll; the clock is read once for each bucket. */
  function Wanted(readings: seq<int>, j: nat): Attempt
    requires j < 2 * |readings|
  {
    var bucket := j / 2;
    Attempt(if j % 2 == 0 then readings[bucket] - MINUTE else readings[bucket], bucket)
  }

  /** The submissions up to the j-th that the pool takes; a refused one is logged and skipped. */
  function Taken(readings: seq<int>, refused: set<nat>, j: nat): seq<Attempt>
    requires j <= 2 * |readings|
  {
    if j == 0 then []
    else Taken(readings, refused, j - 1) + if j - 1 in refused then [] else [Wanted(readings, j - 1)]
  }

  /** For each bucket the last minute, then this one. */
  method HandleSlices(readings: seq<int>, refused: set<nat>) returns (submitted: seq<Attempt>)
    ensures submitted == Taken(readings, refused, 2 * |readings|)
  {
    submitted := [];
    for i := 0 to |readings|
      invariant submitted == Taken(readings, refused, 2 * i)
    {
      var now := readings[i];
      if 2 * i !in refused {
        submitted := submitted + [Attempt(now - MINUTE, i)];
      }
      assert submitted == Taken(readings, refused, 2 * i + 1);
      if 2 * i + 1 !in refused {
        submitted := submitted + [Attempt(now, i)];
      }
    }
  }

  function AllWanted(readings: seq<int>): seq<Attempt> {
    seq(2 * |readings|, j requires 0 <= j < 2 * |readings| => Wanted(readings, j))
  }

  /** `made` are the elements of `wanted` at the ascending indices, which are those below j not refused. */
  ghost predicate MadeInOrder<A>(wanted: seq<A>, refused: set<nat>, j: nat, made: seq<A>, indices: seq<nat>)
    requires j <= |wanted|
  {
    && |indices| == |made|
    && (forall a, b | 0 <= a < b < |indices| :: indices[a] < indices[b])
    && (forall a | 0 <= a < |indices| :: indices[a] < j && indices[a] !in refused && made[a] == wanted[indices[a]])
    && (forall i: nat | i < j && i !in refused :: i in indices)
  }

  lemma MakeNext<A>(wanted: seq<A>, refused: set<nat>, j: nat, made: seq<A>, indices: seq<nat>)
    requires j < |wanted| && MadeInOrder(wanted, refused, j, made, indices)
    ensures j in refused ==> MadeInOrder(wanted, refused, j + 1, made, indices)
    ensures j !in refused ==> MadeInOrder(wanted, refused, j + 1, made + [wanted[j]], indices + [j])
  {
    if j !in refused {
      assert forall i: nat | i < j + 1 && i !in refused :: i in indices || i == j;
    }
  }

  /** Every submission that is not refused is made exactly once, in order. */
  lemma {:induction false} TakenInOrder(readings: seq<int>, refused: set<nat>, j: nat) returns (indices: seq<nat>)
    requires j <= 2 * |readings|
    ensures MadeInOrder(AllWanted(readings), refused, j, Taken(readings, refused, j), indices)
  {
    indices := [];
    if j > 0 {
      indices := TakenInOrder(readings, refused, j - 1);
      MakeNext(AllWanted(readings), refused, j - 1, Taken(readings, refused, j - 1), indices);
      if j - 1 !in refused {
        assert AllWanted(readings)[j - 1] == Wanted(readings, j - 1);
        indices := indices + [j - 1];
      }
    }
  }

  lemma {:induction false} TakenIff(readings: seq<int>, refused: set<nat>, j: nat, a: Attempt)
    requires j <= 2 * |readings|
    ensures a in Taken(readings, refused, j) <==> exists i :: 0 <= i < j && i !in refused && Wanted(readings, i) == a
  {
    if j > 0 {
      TakenIff(readings, refused, j - 1, a);
    }
  }

  /** The attempt is at the slice, by its lock key. */
  predicate SameSlice(c: S.Config, bucket: nat, a: Attempt) {
    GetTimeBucketLockKey(a.t, a.bucket) == GetTimeBucketLockKey(c.minute, bucket)
  }

  lemma WantedSlice(c: S.Config, readings: seq<int>, j: nat, bucket: nat)
    requires c.Valid() && Int64(c.minute) && Int64(bucket) && Int64(|readings|) && j < 2 * |readings|
    requires forall now | now in readings :: Int64(now) && Int64(now - MINUTE)
    ensures SameSlice(c, bucket, Wanted(readings, j))
       <==> j / 2 == bucket && c.minute <= Wanted(readings, j).t < c.minute + MINUTE
  {
    var a := Wanted(readings, j);
    assert readings[j / 2] in readings;
    SliceKeysInjective(a.t, a.bucket, c.minute, bucket);
    InMinute(a.t, c.minute);
  }

  /** The bucket's clock reading is in the slice's own minute or in the next, and the pool takes that submission. */
  predicate Due(c: S.Config, readings: seq<int>, refused: set<nat>, bucket: nat) {
    bucket < |readings| &&
    var now := readings[bucket];
    || (c.minute <= now < c.minute + MINUTE && 2 * bucket + 1 !in refused)
    || (c.minute + MINUTE <= now < c.minute + 2 * MINUTE && 2 * bucket !in refused)
  }

  lemma SubmittedIsDue(c: S.Config, readings: seq<int>, refused: set<nat>, bucket: nat, a: Attempt)
    requires c.Valid() && Int64(c.minute) && Int64(bucket) && Int64(|readings|)
    requires forall now | now in readings :: Int64(now) && Int64(now - MINUTE)
    requires a in Taken(readings, refused, 2 * |readings|) && SameSlice(c, bucket, a)
    ensures Due(c, readings, refused, bucket)
  {
    TakenIff(readings, refused, 2 * |readings|, a);
    var i: nat :| i < 2 * |readings| && i !in refused && Wanted(readings, i) == a;
    WantedSlice(c, readings, i, bucket);
  }

  lemma DueIsSubmitted(c: S.Config, readings: seq<int>, refused: set<nat>, bucket: nat) returns (a: Attempt)
    requires c.Valid() && Int64(c.minute) && Int64(bucket) && Int64(|readings|)
    requires forall now | now in readings :: Int64(now) && Int64(now - MINUTE)
    requires Due(c, readings, refused, bucket)
    ensures a in Taken(readings, refused, 2 * |readings|) && SameSlice(c, bucket, a)
  {
    var i := if readings[bucket] < c.minute + MINUTE then 2 * bucket + 1 else 2 * bucket;
    a := Wanted(readings, i);
    TakenIff(readings, refused, 2 * |readings|, a);
    WantedSlice(c, readings, i, bucket);
  }

  /**
    Identified by its lock key, a slice is submitted exactly if the clock reading of its bucket
    falls in its own minute and the pool takes the second submission of the bucket, or in the
    next minute and the pool takes the first; no other bucket or minute submits it.
   */
  lemma SliceIsSubmittedForTwoMinutes(c: S.Config, readings: seq<int>, refused: set<nat>, bucket: nat)
    requires c.Valid() && Int64(c.minute) && Int64(bucket) && Int64(|readings|)
    requires forall now | now in readings :: Int64(now) && Int64(now - MINUTE)
    ensures (exists a :: a in Taken(readings, refused, 2 * |readings|) && SameSlice(c, bucket, a))
       <==> Due(c, readings, refused, bucket)
  {
    if a :| a in Taken(readings, refused, 2 * |readings|) && SameSlice(c, bucket, a) {
      SubmittedIsDue(c, readings, refused, bucket, a);
    } else if Due(c, readings, refused, bucket) {
      var a := DueIsSubmitted(c, readings, refused, bucket);
    }
  }

  /**
    One attempt: a single request for the lock.  Only if it was granted, and the grant heard
    of, does the trigger run, as some run of its state machine that has stopped, over the
    windows of the very slice whose lock was asked for.  Only if that run acked is one request
    sent to move the lock's expiry.  The lock is never released.
   */
  method AsyncHandleSlice(server: R.Server, token: R.Token, t: int, bucket: nat,
                          tryLockSeconds: nat, successSeconds: nat, gap: nat, lockNet: D.Net, ackNet: D.Net)
    returns (locked: bool, requests: seq<T.Request>, ghost run: T.RunState, ghost asked: seq<R.Event>)
    requires server.Valid() && gap > 0 && Int64(t) && Int64(bucket)
    modifies server
    ensures server.Valid()
    ensures D.Asked(old(server.Own(token)), asked,
                    R.SetNX(GetTimeBucketLockKey(t, bucket), token, tryLockSeconds * D.SECOND), lockNet)
    ensures locked <==> lockNet == D.Delivered && D.Last(asked).reply
    ensures if locked && run.phase.Acked?
            then D.Asked(asked, server.Own(token),
                         R.ExpireIfOwner(GetTimeBucketLockKey(t, bucket), token, successSeconds * D.SECOND), ackNet)
            else server.Own(token) == asked
    ensures locked ==> !run.Busy() && exists steps :: run == T.Run(gap, steps)
    ensures locked && run.phase.Acked? && gap <= T.MINUTE_SECONDS ==>
              |run.batches| == T.Windows(gap) && run.AllSucceeded()
    ensures if locked then |requests| == |run.batches| && ScansSlice(gap, t, bucket, requests) else requests == []
  {
    var locker := new D.RedisLock(GetTimeBucketLockKey(t, bucket), token, D.Options(false, 0, tryLockSeconds, false));
    run := T.Start(gap);
    var r, _, _, _ := locker.Lock(server, lockNet);
    asked := server.Own(token);
    locked := r == D.Done;
    requests := [];
    if locked {
      var error;
      error, requests, run := RunTrigger(server, token, t, bucket, gap);
      if error.None? {
        var _ := locker.DelayExpire(server, successSeconds, ackNet);
      }
    }
  }

  /**
    The requests carry a key that decodes to the minute of t and the bucket, and window k is
    asked for from k to k + 1 gaps into that minute.
   */
  predicate ScansSlice(gap: nat, t: int, bucket: nat, requests: seq<T.Request>) {
    forall k | 0 <= k < |requests| ::
      && GetStartMinute(requests[k].key) == Some(MinuteOf(t)) && GetBucket(requests[k].key) == Some(bucket)
      && requests[k] == T.WindowRequest(gap, GetSliceMsgKey(t, bucket), MinuteOf(t), k)
  }

  /** A fresh run of the trigger over the slice's minute, while others use the lock store. */
  method RunTrigger(server: R.Server, token: R.Token, t: int, bucket: nat, gap: nat)
    returns (error: Option<T.Error>, requests: seq<T.Request>, ghost run: T.RunState)
    requires server.Valid() && gap > 0 && Int64(t) && Int64(bucket)
    modifies server
    ensures server.Valid() && server.Own(token) == old(server.Own(token))
    ensures (error.None? <==> run.phase.Acked?) && !run.Busy() && exists steps :: run == T.Run(gap, steps)
    ensures run.phase.Acked? && gap <= T.MINUTE_SECONDS ==> |run.batches| == T.Windows(gap) && run.AllSucceeded()
    ensures |requests| == |run.batches| && ScansSlice(gap, t, bucket, requests)
  {
    var trigger := new T.Trigger(gap);
    server.Others(token);
    SliceKeyRoundTrip(t, bucket);
    error := trigger.Work(GetSliceMsgKey(t, bucket));
    requests := trigger.requests;
    run := trigger.State();
  }

  /** What an attempt locks and what it scans belong to one slice of the protocol. */
  lemma LockedIsScanned(c: S.Config, t: int, bucket: nat, requests: seq<T.Request>, k: nat)
    requires c.Valid() && Int64(t) && Int64(bucket) && Int64(c.minute) && Int64(c.bucket)
    requires GetTimeBucketLockKey(t, bucket) == GetTimeBucketLockKey(c.minute, c.bucket)
    requires ScansSlice(c.gap, t, bucket, requests) && k < |requests|
    ensures requests[k] == B.WindowOf(c, k)
  {
    SliceKeysInjective(t, bucket, c.minute, c.bucket);
  }
}
