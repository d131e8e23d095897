/**
  One window of a run, from lookup to submission, over the task table and the sorted sets,
  and why what it submits is an answer the slice protocol allows for: the protocol's
  theorems speak about this code.
 */
module TriggerBatch {
  import opened Keys
  import opened TaskIndex
  import opened Wrappers
  import R = Redis
  import S = SliceProtocol
  import SD = SliceDelivery
  import SE = SliceEffects
  import T = TriggerWork

  /** What the environment does to one batch: lookups fail, the pool refuses after some tasks. */
  datatype Faults = Faults(cache: bool, table: bool, refusal: Option<nat>)

  /**
    Everything found is submitted unless the pool refuses first; a malformed key or two failing
    lookups submit nothing; every failure is returned.
   */
  method HandleBatch(cache: TaskCache, table: TaskTable, r: T.Request, faults: Faults, error: T.Error)
    returns (submitted: seq<Task>, result: Option<T.Error>)
    requires cache.Valid() && table.Valid()
    ensures result == None || result == Some(error)
    ensures GetBucket(r.key) == None || (faults.cache && faults.table) ==> submitted == [] && result == Some(error)
    ensures GetBucket(r.key).Some? && !(faults.cache && faults.table) ==>
              var bucket := GetBucket(r.key).value;
              var found := Lookup(cache.tasks, table.rows, cache.buckets, r.key, bucket, r.start, r.end, faults.cache);
              && (forall x | x in submitted :: x in found)
              && (result == None ==> forall x | x in found :: x in submitted)
              && (result.Some? ==> faults.refusal == Some(|submitted|))
              && (faults.refusal.Some? ==> |submitted| <= faults.refusal.value)
    ensures faults.cache || (forall x | x in cache.tasks :: x.timer >= 0) ==> NoDuplicates(submitted)
  {
    submitted := [];
    var bucket := GetBucket(r.key);
    if bucket == None {
      return [], Some(error);
    }
    var tasks := GetTasks(cache, table, r.key, bucket.value, r.start, r.end, faults.cache, faults.table);
    if tasks == None {
      return [], Some(error);
    }
    for i := 0 to |tasks.value|
      invariant submitted == tasks.value[..i]
      invariant faults.refusal.Some? ==> i <= faults.refusal.value
    {
      if faults.refusal == Some(i) {
        return submitted, Some(error);
      }
      submitted := submitted + [tasks.value[i]];
    }
    assert submitted == tasks.value;
    result := None;
  }

  /** The protocol state's cache is the slice's sorted set, as the reader decodes it. */
  ghost predicate Mirrors(c: S.Config, s: S.Slice, cached: set<Task>)
    requires c.buckets > 0
  {
    forall y :: y in s.cached <==>
      exists x :: x in cached && TableName(x, c.buckets) == GetSliceMsgKey(c.minute, c.bucket) && y == Decoded(x)
  }

  /** What a run of the slice asks its goroutine of window k to scan. */
  function WindowOf(c: S.Config, k: nat): T.Request {
    T.WindowRequest(c.gap, GetSliceMsgKey(c.minute, c.bucket), c.minute, k)
  }

  /** What was submitted of a request's lookup: all of it unless an error came first, nothing twice. */
  ghost predicate Handled(c: S.Config, r: T.Request, cached: set<Task>, rows: seq<Row>, cacheFails: bool,
                          submitted: seq<Task>, result: Option<T.Error>)
    requires c.buckets > 0
  {
    GetBucket(r.key).Some? &&
    var found := Lookup(cached, rows, c.buckets, r.key, GetBucket(r.key).value, r.start, r.end, cacheFails);
    && NoDuplicates(submitted)
    && (forall x | x in submitted :: x in found)
    && (result == None ==> forall x | x in found :: x in submitted)
  }

  /**
    A lookup of window k, whole or in part, is an answer of the protocol's batch step: the
    window's bounds and the bucket both come from the key.
   */
  lemma LookupIsAnswer(c: S.Config, s: S.Slice, cached: set<Task>, rows: seq<Row>, k: nat,
                       cacheFails: bool, submitted: seq<Task>, result: Option<T.Error>)
    requires c.Valid() && Int64(c.minute) && Int64(c.bucket)
    requires Mirrors(c, s, cached) && Handled(c, WindowOf(c, k), cached, rows, cacheFails, submitted, result)
    ensures S.Answer(c, s, k, if cacheFails then S.Database else S.Cache, submitted, result)
  {
    SliceKeyRoundTrip(c.minute, c.bucket);
  }

  /**
    So whatever the code submitted of the window, then failing or not, the protocol counts: each
    firing once, and no other.
   */
  lemma HandledIsCounted(c: S.Config, s: S.Slice, t: R.Token, cached: set<Task>, rows: seq<Row>, k: nat,
                         cacheFails: bool, submitted: seq<Task>, result: Option<T.Error>)
    requires c.Valid() && Int64(c.minute) && Int64(c.bucket)
    requires Mirrors(c, s, cached) && Handled(c, WindowOf(c, k), cached, rows, cacheFails, submitted, result)
    requires t in s.runs && s.runs[t].alive && T.Enabled(s.runs[t].work, T.Finish(k, result))
    ensures var source := if cacheFails then S.Database else S.Cache;
            var s' := S.Do(c, s, S.Batch(t, k, source, submitted, result));
            && (forall x | x in submitted :: S.Submission(t, k, x, s.store.now, source) in s'.submitted)
            && forall x ::
                 SD.Times(s'.submitted, x, SD.Any) == SD.Times(s.submitted, x, SD.Any) + if x in submitted then 1 else 0
  {
    var source := if cacheFails then S.Database else S.Cache;
    LookupIsAnswer(c, s, cached, rows, k, cacheFails, submitted, result);
    SE.BatchSubmits(c, s, t, k, source, submitted, result);
    var subs' := S.Do(c, s, S.Batch(t, k, source, submitted, result)).submitted;
    forall x | x in submitted
      ensures S.Submission(t, k, x, s.store.now, source) in subs'
    {
      var i :| 0 <= i < |submitted| && submitted[i] == x;
      assert subs'[|s.submitted| + i] in subs';
    }
  }

  /** What the protocol inserts into a slice is what the writer puts into its sorted set. */
  lemma InsertsAreTheWriters(c: S.Config, s: S.Slice, x: Task)
    requires c.Valid() && Int64(c.minute) && Int64(c.bucket) && Int64(c.buckets) && x.Fits()
    ensures S.Enabled(c, s, S.Insert(x)) <==> TableName(x, c.buckets) == GetSliceMsgKey(c.minute, c.bucket)
  {
    TableIsSlice(x.timer, x.run, c.buckets, c.minute, c.bucket);
  }
}
