/**
  Migration: every enabled timer is expanded over the next 2M and its firings are written to
  the table and then to the cache.  Which rhythms of migration leave no firing out?
 */
module Migration {
  import opened Clock
  import opened Cron
  import opened Keys
  import opened TaskIndex
  import opened Wrappers

  const SLEEP := 5 * SECOND

  datatype JobStatus = Unabled | Enabled

  datatype Job = Job(id: int, app: string, status: JobStatus, cron: Option<Expr>) {
    predicate Fits() {
      Int64(id) && (cron.Some? ==> forall f | f in cron.value :: Int64(f))
    }
  }

  /** A migration reads the clock twice: once for the end of its horizon, once for the start of the expansion. */
  datatype Round = Round(start: int, sampled: int)

  /** The tasks a successful round of a timer writes. */
  ghost predicate Covers(e: Expr, step: nat, r: Round, f: int) {
    r.sampled < r.start + 2 * step && InExpansion(e, r.sampled, r.start + 2 * step, f)
  }

  // ---- Rhythm ----

  predicate InOrder(rounds: seq<Round>, step: nat) {
    && (forall i | 0 <= i < |rounds| :: rounds[i].start <= rounds[i].sampled < rounds[i].start + 2 * step)
    && (forall i, j | 0 <= i < j < |rounds| :: rounds[i].sampled <= rounds[j].start)
  }

  predicate Rhythm(rounds: seq<Round>, gap: nat) {
    forall i | 0 <= i < |rounds| - 1 :: rounds[i + 1].sampled <= rounds[i].start + gap
  }

  /** The last round that had begun its expansion before t. */
  lemma {:induction false} LastRoundBefore(rounds: seq<Round>, step: nat, t: int) returns (i: nat)
    requires rounds != [] && InOrder(rounds, step) && rounds[0].sampled < t
    ensures i < |rounds| && rounds[i].sampled < t && (i == |rounds| - 1 || t <= rounds[i + 1].sampled)
  {
    var n := |rounds| - 1;
    if rounds[n].sampled < t {
      i := n;
    } else {
      assert n > 0;
      i := LastRoundBefore(rounds[..n], step, t);
    }
  }

  ghost predicate AllCovered(e: Expr, step: nat, rounds: seq<Round>)
    requires rounds != []
  {
    forall f | f in e && rounds[0].sampled < f <= rounds[|rounds| - 1].start + 2 * step ::
      exists i :: 0 <= i < |rounds| && Covers(e, step, rounds[i], f)
  }

  /** Every round of the timer succeeds. */
  ghost predicate Succeeds(e: Expr, step: nat, rounds: seq<Round>) {
    forall i | 0 <= i < |rounds| :: !RunsOut(e, rounds[i].sampled, rounds[i].start + 2 * step)
  }

  /** A late round: two firings in the gap before it, of which the round before it wrote only the first. */
  lemma LateRoundMisses(step: nat, rounds: seq<Round>, i: nat) returns (e: Expr)
    requires rounds != [] && InOrder(rounds, step) && 0 <= rounds[0].start
    requires i < |rounds| - 1 && rounds[i].start + 2 * step < rounds[i + 1].sampled
    ensures Succeeds(e, step, rounds) && !AllCovered(e, step, rounds)
  {
    var f := rounds[i + 1].sampled;
    var first := rounds[i].start + 2 * step;
    var last := rounds[|rounds| - 1].start + 2 * step;
    assert rounds[i + 1].start + 2 * step <= last;
    e := [first, f, last + 1];
    forall j | 0 <= j < |rounds|
      ensures !RunsOut(e, rounds[j].sampled, rounds[j].start + 2 * step) && !Covers(e, step, rounds[j], f)
    {
      assert last + 1 in e && first in e;
      assert 0 <= rounds[j].sampled;
    }
    assert f in e;
  }

  /**
    No firing between the first round and the last horizon is left out, for any expression all
    of whose rounds succeed, exactly when each round starts within 2M of the one before it.
   */
  lemma NoGapIff(step: nat, rounds: seq<Round>)
    requires rounds != [] && InOrder(rounds, step) && 0 <= rounds[0].start
    ensures (forall e | Succeeds(e, step, rounds) :: AllCovered(e, step, rounds)) <==> Rhythm(rounds, 2 * step)
  {
    if Rhythm(rounds, 2 * step) {
      forall e: Expr, f | f in e && rounds[0].sampled < f <= rounds[|rounds| - 1].start + 2 * step
        ensures exists i :: 0 <= i < |rounds| && Covers(e, step, rounds[i], f)
      {
        var i := LastRoundBefore(rounds, step, f);
        assert Covers(e, step, rounds[i], f);
      }
    } else {
      var i :| 0 <= i < |rounds| - 1 && rounds[i].start + 2 * step < rounds[i + 1].sampled;
      var e := LateRoundMisses(step, rounds, i);
    }
  }

  /**
    The shorter the gaps, the further ahead: with rounds at most `gap` apart, every firing at least
    2M - gap after the first is written at least 2M - gap ahead (M ahead for gaps of M).
   */
  lemma WrittenAhead(step: nat, gap: nat, rounds: seq<Round>, e: Expr, f: int)
    requires rounds != [] && InOrder(rounds, step) && Rhythm(rounds, gap) && gap < 2 * step
    requires f in e && rounds[0].sampled + 2 * step - gap <= f <= rounds[|rounds| - 1].start + 2 * step
    ensures exists i :: 0 <= i < |rounds| && Covers(e, step, rounds[i], f) && rounds[i].sampled + 2 * step - gap <= f
  {
    var lead := 2 * step - gap;
    var i := LastRoundBefore(rounds, step, f - lead + 1);
    assert Covers(e, step, rounds[i], f);
  }

  // ---- Serial batches ----

  /** Batches are begun every half hour, whatever M is. */
  const BATCH_PERIOD := 30 * MINUTE

  /** The longest a timer can wait in a batch of n, with 5s of sleep after each and `work` spent on migrating in all. */
  function BatchSpan(n: nat, work: nat): nat
    requires n > 0
  {
    (n - 1) * SLEEP + work
  }

  /** What one timer sees of batches begun every `period` that take n timers in any order. */
  predicate Batched(n: nat, period: nat, work: nat, begin: int, rounds: seq<Round>)
    requires n > 0
  {
    forall i | 0 <= i < |rounds| ::
      begin + i * period <= rounds[i].start <= rounds[i].sampled <= begin + i * period + BatchSpan(n, work)
  }

  /** Serial batches keep every timer's rhythm, whatever its place in each, exactly while period and span fit in 2M. */
  lemma SerialBatchesIff(n: nat, step: nat, period: nat, work: nat)
    requires n > 0
    ensures (forall begin, rounds | Batched(n, period, work, begin, rounds) :: Rhythm(rounds, 2 * step))
       <==> period + BatchSpan(n, work) <= 2 * step
  {
    var span := BatchSpan(n, work);
    if period + span <= 2 * step {
      forall begin: int, rounds: seq<Round>, i: nat | Batched(n, period, work, begin, rounds) && i < |rounds| - 1
        ensures rounds[i + 1].sampled <= rounds[i].start + 2 * step
      {
        assert (i + 1) * period == i * period + period;
      }
    } else {
      var rounds := [Round(0, 0), Round(period + span, period + span)];
      assert Batched(n, period, work, 0, rounds);
      assert rounds[0 + 1].sampled > rounds[0].start + 2 * step;
    }
  }

  /**
    The rounds of a timer from the one made on enabling it, at any time: the first batch after
    that begins within a period.  (Its first round may as well be one of a batch.)
   */
  predicate EnabledThenBatched(n: nat, period: nat, work: nat, begin: int, rounds: seq<Round>)
    requires n > 0
  {
    && rounds != []
    && 0 <= rounds[0].start <= rounds[0].sampled <= rounds[0].start + BatchSpan(n, work)
    && begin <= rounds[0].start + period
    && Batched(n, period, work, begin, rounds[1..])
  }

  /** No timer misses a firing, whenever it is enabled, whatever its place in each batch and its expression. */
  ghost predicate MissesNothing(n: nat, step: nat, period: nat, work: nat)
    requires n > 0
  {
    forall begin, rounds, e |
      EnabledThenBatched(n, period, work, begin, rounds) && Succeeds(e, step, rounds) :: AllCovered(e, step, rounds)
  }

  /** The last of the rounds whose batch had ended before t, or the first. */
  lemma {:induction false} LastBatchBefore(n: nat, period: nat, work: nat, begin: int, rounds: seq<Round>, t: int)
    returns (i: nat)
    requires n > 0 && EnabledThenBatched(n, period, work, begin, rounds) && rounds[0].sampled < t
    ensures i < |rounds| && rounds[i].sampled < t
    ensures i == |rounds| - 1 || t <= rounds[i].start + period + BatchSpan(n, work)
  {
    var m := |rounds| - 1;
    if m == 0 || rounds[m].sampled < t {
      i := m;
    } else {
      var rest := rounds[..m];
      assert rest[1..] == rounds[1..][..m - 1];
      i := LastBatchBefore(n, period, work, begin, rest, t);
      if i == m - 1 {
        assert rounds[m] == rounds[1..][m - 1];
        assert i > 0 ==> rounds[i] == rounds[1..][m - 2];
        assert (m - 1) * period == (m - 2) * period + period;
      }
    }
  }

  /** Nothing is missed exactly while the period of the batches and their span fit in the horizon. */
  lemma SerialBatchesMissNothingIff(n: nat, step: nat, period: nat, work: nat)
    requires n > 0 && step > 0 && period > 0
    ensures MissesNothing(n, step, period, work) <==> period + BatchSpan(n, work) <= 2 * step
  {
    var span := BatchSpan(n, work);
    if period + span <= 2 * step {
      forall begin: int, rounds: seq<Round>, e: Expr, f |
        EnabledThenBatched(n, period, work, begin, rounds) && Succeeds(e, step, rounds)
        && f in e && rounds[0].sampled < f <= rounds[|rounds| - 1].start + 2 * step
        ensures exists i :: 0 <= i < |rounds| && Covers(e, step, rounds[i], f)
      {
        var i := LastBatchBefore(n, period, work, begin, rounds, f);
        assert Covers(e, step, rounds[i], f);
      }
    } else {
      var rounds := [Round(0, 0), Round(period + span, period + span)];
      assert Batched(n, period, work, period, rounds[1..]);
      assert EnabledThenBatched(n, period, work, period, rounds);
      var e := LateRoundMisses(step, rounds, 0);
    }
  }

  /**
    As the program runs its batches, whatever M is configured: M has to be at least a quarter of
    an hour even for one timer, and at the shipped half hour sleeps alone allow 361 timers.
   */
  lemma ShippedBatchSize(n: nat, step: nat)
    requires n > 0 && step > 0
    ensures MissesNothing(n, step, BATCH_PERIOD, 0) <==> 30 * MINUTE + (n - 1) * SLEEP <= 2 * step
    ensures MissesNothing(n, step, BATCH_PERIOD, 0) ==> 15 * MINUTE <= step
    ensures step == 30 * MINUTE ==> (MissesNothing(n, step, BATCH_PERIOD, 0) <==> n <= 361)
  {
    SerialBatchesMissNothingIff(n, step, BATCH_PERIOD, 0);
  }

  // ---- The migrator ----

  /** What the environment does to one migration: the insert fails, the pipeline fails but for some commands. */
  datatype Faults = Faults(insert: bool, pipeline: Option<set<nat>>)

  /** When a round of a timer succeeds. */
  ghost predicate CanMigrate(job: Job, step: nat, round: Round, faults: Faults) {
    && job.status == Enabled && job.cron.Some?
    && round.sampled <= round.start + 2 * step && !RunsOut(job.cron.value, round.sampled, round.start + 2 * step)
    && !faults.insert && faults.pipeline.None?
  }

  class Migrator {
    const table: TaskTable
    const cache: TaskCache
    const step: nat
    var now: int

    ghost predicate Valid()
      reads this, table, cache
    {
      table.Valid() && cache.Valid()
    }

    constructor (table: TaskTable, cache: TaskCache, step: nat, now: int)
      requires table.Valid() && cache.Valid()
      ensures Valid() && this.table == table && this.cache == cache && this.step == step && this.now == now
    {
      this.table, this.cache, this.step, this.now := table, cache, step, now;
    }

    method Elapse()
      modifies this`now
      ensures old(now) <= now
    {
      var d :| 0 <= d;
      now := now + d;
    }

    method BatchTasksFromTimer(job: Job, times: seq<int>) returns (tasks: seq<Task>)
      ensures |tasks| == |times| && forall i | 0 <= i < |times| :: tasks[i] == Task(job.id, times[i])
    {
      tasks := [];
      for i := 0 to |times|
        invariant |tasks| == i && forall j | 0 <= j < i :: tasks[j] == Task(job.id, times[j])
      {
        tasks := tasks + [Task(job.id, times[i])];
      }
    }

    /**
      Idempotent, from any state: rows already there are untouched, nothing is duplicated, only
      tasks of this timer are added, and a successful migration ends with its whole window in
      both stores.  A failing one may leave table rows without their cache members, never the
      other way round.
     */
    method MigratorTimer(job: Job, faults: Faults) returns (ok: bool, round: Round)
      requires Valid() && job.Fits()
      modifies this`now, table, cache
      ensures Valid()
      ensures old(now) == round.start <= round.sampled <= now
      ensures ok <==> CanMigrate(job, step, round, faults)
      ensures Grown(job.app, old(table.rows), table.rows) && old(cache.tasks) <= cache.tasks
      ensures forall i | |old(table.rows)| <= i < |table.rows| :: table.rows[i].timer == job.id
      ensures ok ==> KeysOf(table.rows) == KeysOf(old(table.rows)) + Window(job, step, round)
      ensures ok ==> cache.tasks == old(cache.tasks) + Window(job, step, round)
      ensures KeysOf(table.rows) == KeysOf(old(table.rows))
           || (job.cron.Some? && KeysOf(table.rows) == KeysOf(old(table.rows)) + Window(job, step, round))
      ensures cache.tasks == old(cache.tasks)
           || (job.cron.Some? && cache.tasks <= old(cache.tasks) + Window(job, step, round)
               && Window(job, step, round) <= KeysOf(table.rows))
    {
      round := Round(now, now);
      var end := now + 2 * step;
      if job.status != Enabled {
        return false, round;
      }
      Elapse();
      round := round.(sampled := now);
      var times := NextsBetween(job.cron, now, end);
      if times == None {
        return false, round;
      }
      var tasks := BatchTasksFromTimer(job, times.value);
      WindowIs(job, step, round, times.value, tasks);
      ok := Write(job, tasks, faults);
    }

    /** The double write: the table first and then, only if that succeeded, the cache. */
    method Write(job: Job, tasks: seq<Task>, faults: Faults) returns (ok: bool)
      requires Valid() && forall x | x in tasks :: x.Fits() && x.timer == job.id
      modifies this`now, table, cache
      ensures Valid() && old(now) <= now
      ensures ok <==> !faults.insert && faults.pipeline.None?
      ensures Grown(job.app, old(table.rows), table.rows)
      ensures forall i | |old(table.rows)| <= i < |table.rows| :: table.rows[i].timer == job.id
      ensures KeysOf(table.rows) == KeysOf(old(table.rows)) + if faults.insert then {} else Elements(tasks)
      ensures cache.tasks == old(cache.tasks)
                + if faults.insert then {} else Sent(tasks, |tasks|, faults.pipeline)
    {
      ok := table.BatchSave(job.app, tasks, faults.insert);
      Elapse();
      NewRowsAreOurs(job, old(table.rows), table.rows, tasks);
      if ok {
        ok := cache.BatchCreateTasks(tasks, faults.pipeline);
        Elapse();
      }
      SentAll(tasks);
    }

    lemma NewRowsAreOurs(job: Job, rows: seq<Row>, rows': seq<Row>, tasks: seq<Task>)
      requires rows <= rows' && Unique(rows') && KeysOf(rows') <= KeysOf(rows) + Elements(tasks)
      requires forall x | x in tasks :: x.timer == job.id
      ensures forall i | |rows| <= i < |rows'| :: rows'[i].timer == job.id
    {
      forall i | |rows| <= i < |rows'|
        ensures rows'[i].timer == job.id
      {
        assert rows'[i].Key() in KeysOf(rows');
        assert forall j | 0 <= j < |rows| :: rows[j] == rows'[j];
        assert rows'[i].Key() !in KeysOf(rows);
      }
    }

    /** Timers one after another, with a sleep after each; a failing timer does not stop the batch. */
    method BatchMigratorTimer(jobs: seq<Job>, faults: seq<Faults>) returns (done: seq<(bool, Round)>, work: nat)
      requires Valid() && |faults| == |jobs| && forall job | job in jobs :: job.Fits()
      modifies this`now, table, cache
      ensures Valid() && |done| == |jobs| && now == old(now) + |jobs| * SLEEP + work
      ensures Serial(old(now), done, work)
      ensures NewRows(old(table.rows), table.rows, OwnersOf(jobs)) && old(cache.tasks) <= cache.tasks
      ensures AllMigrated(table.rows, cache.tasks, step, jobs, faults, done)
      ensures Explained(KeysOf(old(table.rows)), KeysOf(table.rows), step, jobs, done)
      ensures Explained(old(cache.tasks), cache.tasks, step, jobs, done)
    {
      done, work := [], 0;
      for i := 0 to |jobs|
        invariant Valid() && |done| == i && now == old(now) + i * SLEEP + work
        invariant Serial(old(now), done, work)
        invariant NewRows(old(table.rows), table.rows, OwnersOf(jobs)) && old(cache.tasks) <= cache.tasks
        invariant AllMigrated(table.rows, cache.tasks, step, jobs, faults, done)
        invariant Explained(KeysOf(old(table.rows)), KeysOf(table.rows), step, jobs, done)
        invariant Explained(old(cache.tasks), cache.tasks, step, jobs, done)
      {
        var before := now;
        ghost var rows, cached := table.rows, cache.tasks;
        var ok, round := MigratorTimer(jobs[i], faults[i]);
        NewRowsGrow(old(table.rows), rows, table.rows, OwnersOf(jobs), jobs[i]);
        AllMigratedGrows(rows, cached, table.rows, cache.tasks, step, jobs, faults, done, (ok, round));
        ExplainedGrows(KeysOf(old(table.rows)), KeysOf(rows), KeysOf(table.rows), step, jobs, done, (ok, round));
        ExplainedGrows(old(cache.tasks), cached, cache.tasks, step, jobs, done, (ok, round));
        done, work := done + [(ok, round)], work + (now - before);
        now := now + SLEEP;
      }
    }
  }

  /** The tasks of a round, as a set. */
  ghost function Window(job: Job, step: nat, round: Round): set<Task>
    requires job.cron.Some?
  {
    set f | f in job.cron.value && Covers(job.cron.value, step, round, f) :: Task(job.id, f)
  }

  /** How one timer of a batch fared: it is done exactly when it could be, and then both stores hold its window. */
  ghost predicate Migrated(rows: seq<Row>, cached: set<Task>, step: nat, job: Job, faults: Faults,
                           done: (bool, Round))
  {
    && (done.0 <==> CanMigrate(job, step, done.1, faults))
    && (done.0 ==> Window(job, step, done.1) <= KeysOf(rows) && Window(job, step, done.1) <= cached)
  }

  /** Each timer's clock readings in a batch begun at `begin`. */
  predicate Serial(begin: int, done: seq<(bool, Round)>, work: nat) {
    forall i | 0 <= i < |done| ::
      begin + i * SLEEP <= done[i].1.start <= done[i].1.sampled <= begin + i * SLEEP + work
  }

  /** So what batches begun every period do to one timer, wherever its place in each, is `Batched`. */
  lemma SerialIsBatched(n: nat, period: nat, work: nat, begin: int, batches: seq<seq<(bool, Round)>>,
                        places: seq<nat>, rounds: seq<Round>)
    requires n > 0 && |places| == |batches| == |rounds|
    requires forall i | 0 <= i < |batches| :: |batches[i]| <= n && Serial(begin + i * period, batches[i], work)
    requires forall i | 0 <= i < |rounds| :: places[i] < |batches[i]| && rounds[i] == batches[i][places[i]].1
    ensures Batched(n, period, work, begin, rounds)
  {
    forall i | 0 <= i < |rounds|
      ensures begin + i * period <= rounds[i].start <= rounds[i].sampled
                <= begin + i * period + BatchSpan(n, work)
    {
      assert Serial(begin + i * period, batches[i], work);
      assert places[i] * SLEEP <= (n - 1) * SLEEP;
    }
  }

  /** Both stores hold the timer's firings after `from` up to `to`. */
  ghost predicate HoldsHorizon(rows: seq<Row>, cached: set<Task>, job: Job, from: int, to: int) {
    job.cron.Some? &&
    forall f | f in job.cron.value && from < f <= to :: Task(job.id, f) in KeysOf(rows) && Task(job.id, f) in cached
  }

  /** A round that began at `begin` or later, and whose window both stores hold, has them hold the next 2M. */
  lemma WindowHoldsHorizon(rows: seq<Row>, cached: set<Task>, step: nat, job: Job, round: Round, begin: int)
    requires job.cron.Some? && begin <= round.start
    requires Window(job, step, round) <= KeysOf(rows) && Window(job, step, round) <= cached
    ensures HoldsHorizon(rows, cached, job, round.sampled, begin + 2 * step)
  {
    forall f | f in job.cron.value && round.sampled < f <= begin + 2 * step
      ensures Task(job.id, f) in Window(job, step, round)
    {
      assert Covers(job.cron.value, step, round, f);
    }
  }

  /** Every timer reported done has its firings after its own clock reading up to `to` in both stores. */
  ghost predicate AllHold(rows: seq<Row>, cached: set<Task>, jobs: seq<Job>, done: seq<(bool, Round)>, to: int) {
    |done| <= |jobs| &&
    forall i | 0 <= i < |done| && done[i].0 :: HoldsHorizon(rows, cached, jobs[i], done[i].1.sampled, to)
  }

  lemma BatchHoldsHorizon(rows: seq<Row>, cached: set<Task>, step: nat, jobs: seq<Job>, faults: seq<Faults>,
                          done: seq<(bool, Round)>, begin: int, work: nat)
    requires AllMigrated(rows, cached, step, jobs, faults, done) && Serial(begin, done, work)
    ensures AllHold(rows, cached, jobs, done, begin + 2 * step)
  {
    forall i | 0 <= i < |done| && done[i].0
      ensures HoldsHorizon(rows, cached, jobs[i], done[i].1.sampled, begin + 2 * step)
    {
      assert Migrated(rows, cached, step, jobs[i], faults[i], done[i]);
      WindowHoldsHorizon(rows, cached, step, jobs[i], done[i].1, begin);
    }
  }

  /** The timers with their apps. */
  function OwnersOf(jobs: seq<Job>): set<(int, string)> {
    set job | job in jobs :: (job.id, job.app)
  }

  /** The old rows stay as they are; the new ones belong to the timers and their apps and wait to be run. */
  predicate NewRows(rows: seq<Row>, rows': seq<Row>, owners: set<(int, string)>) {
    && rows <= rows'
    && forall i | |rows| <= i < |rows'| :: Waiting(rows'[i]) && (rows'[i].timer, rows'[i].app) in owners
  }

  lemma NewRowsGrow(rows: seq<Row>, before: seq<Row>, rows': seq<Row>, owners: set<(int, string)>, job: Job)
    requires NewRows(rows, before, owners) && Grown(job.app, before, rows') && (job.id, job.app) in owners
    requires forall i | |before| <= i < |rows'| :: rows'[i].timer == job.id
    ensures NewRows(rows, rows', owners)
  {
    assert forall i | |rows| <= i < |before| :: rows'[i] == before[i];
  }

  ghost predicate AllMigrated(rows: seq<Row>, cached: set<Task>, step: nat, jobs: seq<Job>, faults: seq<Faults>,
                              done: seq<(bool, Round)>)
  {
    |done| <= |jobs| == |faults| &&
    forall i | 0 <= i < |done| :: Migrated(rows, cached, step, jobs[i], faults[i], done[i])
  }

  lemma AllMigratedGrows(rows: seq<Row>, cached: set<Task>, rows': seq<Row>, cached': set<Task>, step: nat,
                         jobs: seq<Job>, faults: seq<Faults>, done: seq<(bool, Round)>, last: (bool, Round))
    requires AllMigrated(rows, cached, step, jobs, faults, done) && rows <= rows' && cached <= cached'
    requires |done| < |jobs| && Migrated(rows', cached', step, jobs[|done|], faults[|done|], last)
    ensures AllMigrated(rows', cached', step, jobs, faults, done + [last])
  {
    KeysGrow(rows, rows');
    forall i | 0 <= i < |done|
      ensures Migrated(rows', cached', step, jobs[i], faults[i], done[i])
    {
      assert Migrated(rows, cached, step, jobs[i], faults[i], done[i]);
    }
  }

  /** Whatever a batch has added lies in the window of one of its timers. */
  ghost predicate Explained(was: set<Task>, tasks: set<Task>, step: nat, jobs: seq<Job>, done: seq<(bool, Round)>) {
    |done| <= |jobs| &&
    forall x | x in tasks && x !in was ::
      exists i :: 0 <= i < |done| && jobs[i].cron.Some? && x in Window(jobs[i], step, done[i].1)
  }

  lemma ExplainedGrows(was: set<Task>, before: set<Task>, tasks: set<Task>, step: nat,
                       jobs: seq<Job>, done: seq<(bool, Round)>, last: (bool, Round))
    requires Explained(was, before, step, jobs, done) && |done| < |jobs|
    requires var job := jobs[|done|];
             tasks == before || (job.cron.Some? && tasks <= before + Window(job, step, last.1))
    ensures Explained(was, tasks, step, jobs, done + [last])
  {
    var done' := done + [last];
    forall x | x in tasks && x !in was
      ensures exists i :: 0 <= i < |done'| && jobs[i].cron.Some? && x in Window(jobs[i], step, done'[i].1)
    {
      if x in before {
        var i :| 0 <= i < |done| && jobs[i].cron.Some? && x in Window(jobs[i], step, done[i].1);
        assert done'[i] == done[i];
      } else {
        assert done'[|done|] == last;
      }
    }
  }

  lemma WindowIs(job: Job, step: nat, round: Round, times: seq<int>, tasks: seq<Task>)
    requires job.cron.Some? && |tasks| == |times| && forall i | 0 <= i < |times| :: tasks[i] == Task(job.id, times[i])
    requires forall f :: f in times <==> Covers(job.cron.value, step, round, f)
    ensures Elements(tasks) == Window(job, step, round)
    ensures job.Fits() ==> forall x | x in tasks :: x.Fits() && x.timer == job.id
  {
    forall x
      ensures x in tasks <==> x in Window(job, step, round)
    {
      if x in tasks {
        var i :| 0 <= i < |tasks| && tasks[i] == x;
        assert times[i] in times;
      }
      if x in Window(job, step, round) {
        var i :| 0 <= i < |times| && times[i] == x.run;
        assert tasks[i] == x;
      }
    }
  }

  lemma KeysGrow(rows: seq<Row>, rows': seq<Row>)
    requires rows <= rows'
    ensures KeysOf(rows) <= KeysOf(rows')
  {
    assert forall r | r in rows :: r in rows';
  }
}
