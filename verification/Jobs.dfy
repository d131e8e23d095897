/**
  The job state machine: enable (under the lock, in a transaction that covers only part of
  what it writes), disable, batch migration and execution.  Failures of the environment are
  parameters, so every operation says exactly what it does; all of them together keep what
  none may undo.
 */
module Jobs {
  import opened Keys
  import opened Migration
  import opened TaskIndex
  import opened Wrappers
  import D = DistLock
  import R = Redis

  const ENABLE_GAP_SECONDS := 3

  const NO_FAULTS := Faults(false, None)

  datatype Snapshot = Snapshot(jobs: map<int, Job>, rows: seq<Row>, cached: set<Task>)

  /** Rows keep their place, id and key; a finished task stays finished; the cache only grows. */
  ghost predicate Evolves(s: Snapshot, s': Snapshot) {
    s'.jobs.Keys == s.jobs.Keys && RowsEvolve(s.rows, s'.rows) && s.cached <= s'.cached
  }

  predicate RowsEvolve(rows: seq<Row>, rows': seq<Row>) {
    && |rows| <= |rows'|
    && (forall i | 0 <= i < |rows| ::
          && rows'[i].taskId == rows[i].taskId && rows'[i].Key() == rows[i].Key()
          && (rows[i].status.Finished() ==> rows'[i].status.Finished()))
  }

  datatype EnableFaults = EnableFaults(lookup: bool, update: bool, migration: Faults, commit: bool)

  datatype EnableOutcome = Activated | NotFound | NotUnabled | UpdateFailed | RolledBack

  datatype DisableFaults = DisableFaults(lookup: bool, update: bool)

  datatype ExecuteFaults = ExecuteFaults(job: bool, row: bool, update: bool) {
    predicate None() {
      !job && !row && !update
    }
  }

  /** How the callback went, and when. */
  datatype Callback = Callback(success: bool, output: string, startedAt: int, endedAt: int) {
    function Result(): Status {
      if success then Successed else Failed
    }
  }

  datatype Command =
    | Enable(id: int, enabling: EnableFaults)
    | Disable(id: int, disabling: DisableFaults)
    | Migrate(queryFails: bool, migrations: map<int, Faults>)
    | Execute(id: int, unix: int, callback: Callback, executing: ExecuteFaults)

  /** What an attempt to enable did, given how the environment behaved. */
  ghost predicate Enabling(s: Snapshot, s': Snapshot, step: nat, id: int, faults: EnableFaults,
                           r: EnableOutcome, round: Round)
  {
    && (r == NotFound <==> id !in s.jobs || faults.lookup)
    && (r == NotUnabled <==> r != NotFound && s.jobs[id].status != Unabled)
    && (r == UpdateFailed <==> r != NotFound && s.jobs[id].status == Unabled && faults.update)
    && (r != Activated && r != RolledBack ==> s' == s)
    && (r == Activated || r == RolledBack ==>
          && s'.jobs == s.jobs[id := s.jobs[id].(status := Enabled)] && s' != s
          && NewRows(s.rows, s'.rows, {(id, s.jobs[id].app)})
          && var job := s'.jobs[id];
             && (r == Activated <==> CanMigrate(job, step, round, faults.migration) && !faults.commit)
             && (r == Activated ==>
                   && KeysOf(s'.rows) == KeysOf(s.rows) + Window(job, step, round)
                   && s'.cached == s.cached + Window(job, step, round))
             && (r == RolledBack ==> s'.rows == s.rows)
             && (s'.cached == s.cached || (job.cron.Some? && s'.cached <= s.cached + Window(job, step, round))))
  }

  /**
    The same between two readings of the clock, if at all: an activated timer has its firings of
    the next 2M in both stores.
   */
  ghost predicate EnablingNow(s: Snapshot, s': Snapshot, step: nat, id: int, faults: EnableFaults,
                              r: Option<(EnableOutcome, Round)>, before: int, after: int)
  {
    if r.None? then s' == s
    else
      var (outcome, round) := r.value;
      && Enabling(s, s', step, id, faults, outcome, round)
      && before <= round.start <= round.sampled <= after
      && (outcome == Activated ==> HoldsHorizon(s'.rows, s'.cached, s'.jobs[id], round.sampled, before + 2 * step))
  }

  /** The row after its outcome was recorded: a zero or empty result leaves the old one in place. */
  ghost predicate Records(row: Row, row': Row, cb: Callback) {
    && row'.taskId == row.taskId && row'.Key() == row.Key() && row'.app == row.app
    && row'.status == cb.Result()
    && row'.output == (if cb.output == "" then row.output else cb.output)
    && row'.diffTime == (if cb.startedAt == row.run then row.diffTime else cb.startedAt - row.run)
    && row'.costTime == (if cb.endedAt == cb.startedAt then row.costTime else cb.endedAt - cb.startedAt)
  }

  /** One row, that of x, has recorded the callback; the others are as they were. */
  ghost predicate RecordedFor(x: Task, rows: seq<Row>, rows': seq<Row>, cb: Callback) {
    exists i ::
      && 0 <= i < |rows| == |rows'| && rows[i].Key() == x
      && rows' == rows[i := rows'[i]] && Records(rows[i], rows'[i], cb)
  }

  // ---- What commands do to a timer and to a row, told from the commands alone ----

  function EnabledAfter(id: int, enabled: bool, command: Command): bool {
    match command
    case Enable(i, faults) => enabled || (i == id && !faults.lookup && !faults.update)
    case Disable(i, faults) => enabled && !(i == id && !faults.lookup && !faults.update)
    case _ => enabled
  }

  function EnabledThen(id: int, enabled: bool, commands: seq<Command>): bool {
    if commands == [] then enabled
    else EnabledAfter(id, EnabledThen(id, enabled, commands[..|commands| - 1]), commands[|commands| - 1])
  }

  /** The command records a callback in the row of x. */
  predicate RecordsIn(x: Task, enabled: bool, command: Command) {
    command.Execute? && Task(command.id, command.unix) == x && enabled && command.executing.None()
  }

  predicate RecordsAt(x: Task, enabled: bool, commands: seq<Command>, n: nat) {
    n < |commands| && RecordsIn(x, EnabledThen(x.timer, enabled, commands[..n]), commands[n])
  }

  /** The status of a row of x that had `status` before the commands, and whose timer was enabled or not. */
  function StatusThen(x: Task, enabled: bool, status: Status, commands: seq<Command>): Status {
    StatusSince(x, enabled, status, commands, 0)
  }

  /** The same for a row that was there from the m-th command on. */
  function StatusSince(x: Task, enabled: bool, status: Status, commands: seq<Command>, m: nat): Status {
    if |commands| <= m then status
    else if RecordsAt(x, enabled, commands, |commands| - 1) then commands[|commands| - 1].callback.Result()
    else StatusSince(x, enabled, status, commands[..|commands| - 1], m)
  }

  /** How one command changes the timers and the rows that are there. */
  ghost predicate Stepped(s: Snapshot, s': Snapshot, command: Command) {
    && s'.jobs.Keys == s.jobs.Keys && RowsEvolve(s.rows, s'.rows)
    && (forall id | id in s.jobs ::
          s'.jobs[id].status == Enabled <==> EnabledAfter(id, s.jobs[id].status == Enabled, command))
    && (forall i | 0 <= i < |s.rows| ::
          s'.rows[i].status == if RecordsIn(s.rows[i].Key(), IsEnabled(s, s.rows[i].timer), command)
                               then command.callback.Result() else s.rows[i].status)
    && (|s.rows| < |s'.rows| ==> Adds(command))
    && (forall i | |s.rows| <= i < |s'.rows| :: Waits(s, s'.rows[i]))
  }

  predicate Waits(s: Snapshot, row: Row) {
    Waiting(row) && row.timer in s.jobs && row.app == s.jobs[row.timer].app
  }

  predicate Adds(command: Command) {
    command.Enable? || command.Migrate?
  }

  predicate IsEnabled(s: Snapshot, id: int) {
    id in s.jobs && s.jobs[id].status == Enabled
  }

  function StatusServed(s: Snapshot, row: Row, commands: seq<Command>): Status {
    if row.timer in s.jobs then StatusThen(row.Key(), IsEnabled(s, row.timer), row.status, commands) else row.status
  }

  /** The m-th command added the row, waiting; its status is the outcome of the last callback recorded since. */
  ghost predicate AddedBy(s: Snapshot, row: Row, commands: seq<Command>, m: nat) {
    && m < |commands| && Adds(commands[m]) && row.timer in s.jobs
    && row.status == StatusSince(row.Key(), IsEnabled(s, row.timer), NotRunned, commands, m + 1)
  }

  ghost predicate Added(s: Snapshot, row: Row, commands: seq<Command>) {
    exists m :: AddedBy(s, row, commands, m)
  }

  /** The same over several commands. */
  ghost predicate Served(s: Snapshot, s': Snapshot, commands: seq<Command>) {
    && s'.jobs.Keys == s.jobs.Keys && RowsEvolve(s.rows, s'.rows)
    && (forall id | id in s.jobs ::
          s'.jobs[id].status == Enabled <==> EnabledThen(id, s.jobs[id].status == Enabled, commands))
    && (forall i | 0 <= i < |s.rows| ::
          s'.rows[i].status == StatusServed(s, s.rows[i], commands))
    && (forall i | |s.rows| <= i < |s'.rows| :: Added(s, s'.rows[i], commands))
  }

  lemma ServedStep(s0: Snapshot, s: Snapshot, s': Snapshot, commands: seq<Command>, command: Command)
    requires Served(s0, s, commands) && Stepped(s, s', command)
    ensures Served(s0, s', commands + [command])
  {
    var more := commands + [command];
    assert more[..|more| - 1] == commands;
    forall i | 0 <= i < |s0.rows|
      ensures s'.rows[i].status == StatusServed(s0, s0.rows[i], more)
    {
      assert s.rows[i].Key() == s0.rows[i].Key();
    }
    forall i | |s0.rows| <= i < |s'.rows|
      ensures Added(s0, s'.rows[i], more)
    {
      if i < |s.rows| {
        var m :| AddedBy(s0, s.rows[i], commands, m);
        assert s'.rows[i].Key() == s.rows[i].Key();
        assert AddedBy(s0, s'.rows[i], more, m);
      } else {
        assert Waits(s, s'.rows[i]);
        assert AddedBy(s0, s'.rows[i], more, |commands|);
      }
    }
  }

  class Service {
    const migrator: Migrator
    var jobs: map<int, Job>

    ghost predicate Valid()
      reads this, migrator, migrator.table, migrator.cache
    {
      migrator.Valid() && forall id | id in jobs :: jobs[id].id == id && jobs[id].Fits()
    }

    ghost function State(): Snapshot
      reads this, migrator.table, migrator.cache
    {
      Snapshot(jobs, migrator.table.rows, migrator.cache.tasks)
    }

    constructor (migrator: Migrator, jobs: map<int, Job>)
      requires migrator.Valid() && forall id | id in jobs :: jobs[id].id == id && jobs[id].Fits()
      ensures Valid() && this.migrator == migrator && this.jobs == jobs
    {
      this.migrator, this.jobs := migrator, jobs;
    }

    /** Job updates go straight to the database, whether or not a transaction is open. */
    method SetStatus(id: int, status: JobStatus, fails: bool) returns (ok: bool)
      requires Valid() && id in jobs
      modifies this`jobs
      ensures Valid() && ok == !fails
      ensures jobs == if ok then old(jobs)[id := old(jobs)[id].(status := status)] else old(jobs)
    {
      ok := !fails;
      if ok {
        jobs := jobs[id := jobs[id].(status := status)];
      }
    }

    /**
      On success the timer is enabled and its window is in both stores.  A failure after the
      update rolls the rows back but neither the status nor the cache: a failed call leaves
      nothing behind exactly when it fails before the update.
     */
    method EnableInTx(id: int, faults: EnableFaults) returns (r: EnableOutcome, round: Round)
      requires Valid()
      modifies this`jobs, migrator`now, migrator.table, migrator.cache
      ensures Valid() && Evolves(old(State()), State())
      ensures Enabling(old(State()), State(), migrator.step, id, faults, r, round)
      ensures old(migrator.now) <= round.start <= round.sampled <= migrator.now
      ensures r == Activated ==>
                HoldsHorizon(migrator.table.rows, migrator.cache.tasks, jobs[id], round.sampled,
                             old(migrator.now) + 2 * migrator.step)
    {
      round := Round(migrator.now, migrator.now);
      if faults.lookup || id !in jobs {
        return NotFound, round;
      }
      if jobs[id].status != Unabled {
        return NotUnabled, round;
      }
      var updated := SetStatus(id, Enabled, faults.update);
      if !updated {
        return UpdateFailed, round;
      }
      r, round := MigrateInTx(id, faults);
      if r == Activated {
        WindowHoldsHorizon(migrator.table.rows, migrator.cache.tasks, migrator.step, jobs[id], round,
                           old(migrator.now));
      }
    }

    /** The part of the transaction that can be rolled back. */
    method MigrateInTx(id: int, faults: EnableFaults) returns (r: EnableOutcome, round: Round)
      requires Valid() && id in jobs
      modifies migrator`now, migrator.table, migrator.cache
      ensures Valid() && Evolves(old(State()), State())
      ensures old(migrator.now) == round.start <= round.sampled <= migrator.now
      ensures r == if CanMigrate(jobs[id], migrator.step, round, faults.migration) && !faults.commit
                   then Activated else RolledBack
      ensures r == Activated ==>
                var window := Window(jobs[id], migrator.step, round);
                && KeysOf(migrator.table.rows) == KeysOf(old(migrator.table.rows)) + window
                && migrator.cache.tasks == old(migrator.cache.tasks) + window
      ensures NewRows(old(migrator.table.rows), migrator.table.rows, {(jobs[id].id, jobs[id].app)})
      ensures r == RolledBack ==> migrator.table.rows == old(migrator.table.rows)
      ensures migrator.cache.tasks == old(migrator.cache.tasks)
           || (jobs[id].cron.Some?
               && migrator.cache.tasks <= old(migrator.cache.tasks) + Window(jobs[id], migrator.step, round))
    {
      var table := migrator.table;
      var rows, nextId := table.rows, table.nextId;
      var ok;
      ok, round := migrator.MigratorTimer(jobs[id], faults.migration);
      if ok && !faults.commit {
        r := Activated;
      } else {
        table.rows, table.nextId := rows, nextId;
        r := RolledBack;
      }
    }

    /**
      Without the lock nothing changes; with it the timer is enabled as above.  The deferred
      unlock is sent on every path, and a caller whose request for the lock was refused is
      refused there too: it takes the lock from nobody.
     */
    method EnableTimer(server: R.Server, token: R.Token, app: string, id: int, faults: EnableFaults,
                       lockNet: D.Net, unlockNet: D.Net)
      returns (r: Option<(EnableOutcome, Round)>, ghost asked: seq<R.Event>)
      requires Valid() && server.Valid() && server.Own(token) == [] && forall k :: !server.origin.HeldBy(k, token)
      modifies server, this`jobs, migrator`now, migrator.table, migrator.cache
      ensures Valid() && server.Valid()
      ensures Evolves(old(State()), State())
      ensures EnablingNow(old(State()), State(), migrator.step, id, faults, r, old(migrator.now), migrator.now)
      ensures D.Asked([], asked, R.SetNX(GetEnableLockKey(app), token, ENABLE_GAP_SECONDS * D.SECOND), lockNet)
      ensures r.Some? <==> lockNet == D.Delivered && D.Last(asked).reply
      ensures D.Asked(asked, server.Own(token), R.DeleteIfOwner(GetEnableLockKey(app), token), unlockNet)
      ensures asked == [] || !D.Last(asked).reply ==> forall e | e in server.Own(token) :: !e.reply
      ensures lockNet == D.Delivered && LeavesFree(server.origin, server.ops, app, token) ==> r.Some?
      ensures old(migrator.now) <= migrator.now
    {
      var locker := new D.RedisLock(GetEnableLockKey(app), token, D.Options(false, 0, ENABLE_GAP_SECONDS, true));
      var got, _, _, _ := locker.Lock(server, lockNet);
      asked := server.Own(token);
      r := EnableIfLocked(got == D.Done, id, faults);
      var _ := locker.Unlock(server, unlockNet);
      LockAnswers(server.origin, server.ops, asked, app, token, lockNet, unlockNet);
    }

    method EnableIfLocked(locked: bool, id: int, faults: EnableFaults) returns (r: Option<(EnableOutcome, Round)>)
      requires Valid()
      modifies this`jobs, migrator`now, migrator.table, migrator.cache
      ensures Valid() && Evolves(old(State()), State()) && r.Some? == locked
      ensures EnablingNow(old(State()), State(), migrator.step, id, faults, r, old(migrator.now), migrator.now)
      ensures old(migrator.now) <= migrator.now
    {
      r := None;
      if locked {
        var outcome, round := EnableInTx(id, faults);
        r := Some((outcome, round));
      }
    }

    /** The error of looking up the timer is not checked for: the handler panics. */
    method DisableTimer(id: int, faults: DisableFaults) returns (ok: bool, panics: bool)
      requires Valid()
      modifies this`jobs
      ensures Valid() && Evolves(old(State()), State())
      ensures Stepped(old(State()), State(), Disable(id, faults))
      ensures panics <==> id !in old(jobs) || faults.lookup
      ensures ok <==> !panics && !faults.update
      ensures jobs == if ok then old(jobs)[id := old(jobs)[id].(status := Unabled)] else old(jobs)
    {
      if faults.lookup || id !in jobs {
        return false, true;
      }
      ok := SetStatus(id, Unabled, faults.update);
      panics := false;
    }

    /** FindByStatus(Enabled), in any order. */
    method FindEnabled(fails: bool) returns (found: Option<seq<Job>>)
      requires Valid()
      ensures found == None <==> fails
      ensures found.Some? ==>
                NoDuplicates(found.value) && forall job :: job in found.value <==> job in EnabledJobs(jobs)
    {
      if fails {
        return None;
      }
      var out: seq<Job> := [];
      var rest := set id | id in jobs && jobs[id].status == Enabled;
      ghost var all := rest;
      while rest != {}
        invariant rest <= all
        invariant forall job :: job in out <==> job.id in all && job.id !in rest && jobs[job.id] == job
        invariant NoDuplicates(out)
        decreases rest
      {
        assert (forall x: int :: x !in rest) ==> rest == {};
        var id :| id in rest;
        out := out + [jobs[id]];
        rest := rest - {id};
      }
      found := Some(out);
    }

    /**
      Whatever an earlier failure left, every enabled timer that can be migrated ends with its
      window in both stores.  Only a failing query for the timers ends the batch.
     */
    method BatchMigrate(queryFails: bool, faults: map<int, Faults>)
      returns (migrated: Option<seq<Job>>, done: seq<(bool, Round)>, work: nat)
      requires Valid()
      modifies migrator`now, migrator.table, migrator.cache
      ensures Valid() && Evolves(old(State()), State())
      ensures Stepped(old(State()), State(), Migrate(queryFails, faults))
      ensures migrated == None <==> queryFails
      ensures queryFails ==> State() == old(State())
      ensures migrated.Some? ==>
                NoDuplicates(migrated.value) && forall job :: job in migrated.value <==> job in EnabledJobs(jobs)
      ensures migrated.Some? ==>
                Batch(old(State()), State(), migrator.step, migrated.value, faults, done)
      ensures Serial(old(migrator.now), done, work)
      ensures migrator.now == old(migrator.now) + |done| * SLEEP + work
      ensures migrated.Some? ==>
                AllHold(migrator.table.rows, migrator.cache.tasks, migrated.value, done,
                        old(migrator.now) + 2 * migrator.step)
    {
      migrated := FindEnabled(queryFails);
      if migrated == None {
        return None, [], 0;
      }
      var each := seq(|migrated.value|, i requires 0 <= i < |migrated.value| => FaultsOf(faults, migrated.value[i]));
      done, work := migrator.BatchMigratorTimer(migrated.value, each);
      assert forall owner | owner in OwnersOf(migrated.value) :: owner.0 in jobs && owner.1 == jobs[owner.0].app;
      BatchHoldsHorizon(migrator.table.rows, migrator.cache.tasks, migrator.step, migrated.value, each, done,
                        old(migrator.now), work);
    }

    /**
      The callback is made exactly for an enabled timer, whatever the row's own status, so a
      task submitted again is called again.  It is recorded if the row is found and written.
     */
    method ExecuteAndPostProcess(timer: int, unix: int, cb: Callback, faults: ExecuteFaults)
      returns (ok: bool, called: bool)
      requires Valid()
      modifies migrator.table
      ensures Valid() && Evolves(old(State()), State())
      ensures Stepped(old(State()), State(), Execute(timer, unix, cb, faults))
      ensures called <==> !faults.job && IsEnabled(old(State()), timer)
      ensures ok <==> !faults.job && timer in jobs
                      && (called ==> Task(timer, unix) in KeysOf(old(migrator.table.rows))
                                     && !faults.row && !faults.update)
      ensures if ok && called then RecordedFor(Task(timer, unix), old(migrator.table.rows), migrator.table.rows, cb)
              else State() == old(State())
    {
      if faults.job || timer !in jobs {
        return false, false;
      }
      if jobs[timer].status != Enabled {
        return true, false;
      }
      called := true;
      ok := PostProcess(timer, unix, cb, faults.row, faults.update);
      RecordingSteps(old(State()), State(), Execute(timer, unix, cb, faults), ok);
    }

    /** Records a callback in the task's row and touches no other row. */
    method PostProcess(timer: int, unix: int, cb: Callback, rowFails: bool, updateFails: bool) returns (ok: bool)
      requires Valid()
      modifies migrator.table
      ensures Valid() && Evolves(old(State()), State())
      ensures ok <==> Task(timer, unix) in KeysOf(old(migrator.table.rows)) && !rowFails && !updateFails
      ensures if ok then RecordedFor(Task(timer, unix), old(migrator.table.rows), migrator.table.rows, cb)
              else State() == old(State())
    {
      var found := migrator.table.Find(Task(timer, unix), rowFails);
      if found == None {
        return false;
      }
      var row := found.value;
      var task := row.(output := cb.output, status := if cb.success then Successed else Failed,
                       diffTime := cb.startedAt - row.run, costTime := cb.endedAt - cb.startedAt);
      ghost var rows := migrator.table.rows;
      ok := migrator.table.Update(task, updateFails);
      RecordOnce(rows, row, task, cb, migrator.table.rows, ok, migrator.table.nextId);
    }

    method ServeOne(command: Command)
      requires Valid()
      modifies this`jobs, migrator`now, migrator.table, migrator.cache
      ensures Valid() && Evolves(old(State()), State())
      ensures Stepped(old(State()), State(), command) && old(migrator.now) <= migrator.now
    {
      match command {
        case Enable(id, faults) =>
          ghost var before := State();
          var r, round := EnableInTx(id, faults);
          EnablingSteps(before, State(), migrator.step, id, faults, r, round);
        case Disable(id, faults) => var _, _ := DisableTimer(id, faults);
        case Migrate(queryFails, migrations) => var _, _, _ := BatchMigrate(queryFails, migrations);
        case Execute(id, unix, cb, faults) => var _, _ := ExecuteAndPostProcess(id, unix, cb, faults);
      }
    }

    /**
      Any sequence of operations, with any failures: no duplicate row, no finished row forgotten,
      no member lost; which timers are enabled and what every row's status is follows from the
      commands alone.
     */
    method Serve(commands: seq<Command>)
      requires Valid()
      modifies this`jobs, migrator`now, migrator.table, migrator.cache
      ensures Valid() && Unique(migrator.table.rows) && Evolves(old(State()), State())
      ensures Served(old(State()), State(), commands) && old(migrator.now) <= migrator.now
    {
      for n := 0 to |commands|
        invariant Valid() && Evolves(old(State()), State())
        invariant Served(old(State()), State(), commands[..n]) && old(migrator.now) <= migrator.now
      {
        ghost var before := State();
        ServeOne(commands[n]);
        ServedStep(old(State()), before, State(), commands[..n], commands[n]);
        assert commands[..n + 1] == commands[..n] + [commands[n]];
      }
      assert commands[..|commands|] == commands;
    }
  }

  function EnabledJobs(jobs: map<int, Job>): set<Job> {
    set id | id in jobs && jobs[id].status == Enabled :: jobs[id]
  }

  function FaultsOf(faults: map<int, Faults>, job: Job): Faults {
    if job.id in faults then faults[job.id] else NO_FAULTS
  }

  /** A batch over the given timers: each is done exactly when it can be, and nothing else is written. */
  ghost predicate Batch(s: Snapshot, s': Snapshot, step: nat, jobs: seq<Job>, faults: map<int, Faults>,
                        done: seq<(bool, Round)>)
  {
    && |done| == |jobs|
    && (forall i | 0 <= i < |jobs| :: Migrated(s'.rows, s'.cached, step, jobs[i], FaultsOf(faults, jobs[i]), done[i]))
    && Explained(KeysOf(s.rows), KeysOf(s'.rows), step, jobs, done)
    && Explained(s.cached, s'.cached, step, jobs, done)
  }

  lemma EnablingSteps(s: Snapshot, s': Snapshot, step: nat, id: int, faults: EnableFaults,
                      r: EnableOutcome, round: Round)
    requires Enabling(s, s', step, id, faults, r, round) && Evolves(s, s')
    ensures Stepped(s, s', Enable(id, faults))
  {
    forall i | |s.rows| <= i < |s'.rows|
      ensures Waits(s, s'.rows[i])
    {
      assert NewRows(s.rows, s'.rows, {(id, s.jobs[id].app)});
    }
  }

  /** A recorded callback changes the status of the one row of its task. */
  lemma RecordingSteps(s: Snapshot, s': Snapshot, command: Command, ok: bool)
    requires command.Execute? && IsEnabled(s, command.id) && Unique(s.rows) && RowsEvolve(s.rows, s'.rows)
    requires !command.executing.job && s'.jobs == s.jobs
    requires ok <==> Task(command.id, command.unix) in KeysOf(s.rows) && command.executing.None()
    requires if ok then RecordedFor(Task(command.id, command.unix), s.rows, s'.rows, command.callback) else s' == s
    ensures Stepped(s, s', command)
  {
    var x := Task(command.id, command.unix);
    assert forall i | 0 <= i < |s.rows| :: s.rows[i].Key() in KeysOf(s.rows);
    if ok {
      var i :| 0 <= i < |s.rows| == |s'.rows| && s.rows[i].Key() == x
            && s'.rows == s.rows[i := s'.rows[i]] && Records(s.rows[i], s'.rows[i], command.callback);
      assert forall j | 0 <= j < |s.rows| && j != i :: s.rows[j].Key() != x;
    }
  }

  /** An update by id records the callback in the one row with that id, and changes neither ids nor keys. */
  lemma RecordOnce(rows: seq<Row>, row: Row, g: Row, cb: Callback, rows': seq<Row>, ok: bool, bound: nat)
    requires Unique(rows) && row in rows && |rows| == |rows'| && forall r | r in rows :: 0 < r.taskId < bound
    requires g == row.(output := cb.output, status := if cb.success then Successed else Failed,
                       diffTime := cb.startedAt - row.run, costTime := cb.endedAt - cb.startedAt)
    requires forall j | 0 <= j < |rows| ::
               rows'[j] == if ok && rows[j].taskId == g.taskId then rows[j].UpdatedBy(g) else rows[j]
    ensures RowsEvolve(rows, rows') && Unique(rows') && KeysOf(rows') == KeysOf(rows)
    ensures if ok then RecordedFor(row.Key(), rows, rows', cb) else rows' == rows
    ensures forall r | r in rows' :: 0 < r.taskId < bound
  {
    var i :| 0 <= i < |rows| && rows[i] == row;
    assert forall j | 0 <= j < |rows| && j != i :: rows[j].taskId != g.taskId;
    assert rows' == rows[i := rows'[i]];
    UpdateKeepsTable(rows, i, rows');
  }

  /** A row replaced by one with the same id and key leaves ids and keys as they were. */
  lemma UpdateKeepsTable(rows: seq<Row>, i: nat, rows': seq<Row>)
    requires Unique(rows) && i < |rows| == |rows'| && rows' == rows[i := rows'[i]]
    requires rows'[i].Key() == rows[i].Key() && rows'[i].taskId == rows[i].taskId
    ensures Unique(rows') && KeysOf(rows') == KeysOf(rows)
  {
    forall x
      ensures x in KeysOf(rows) <==> x in KeysOf(rows')
    {
      if x in KeysOf(rows) {
        var j :| 0 <= j < |rows| && rows[j].Key() == x;
        assert rows'[j] in rows';
      }
      if x in KeysOf(rows') {
        var j :| 0 <= j < |rows| && rows'[j].Key() == x;
        assert rows[j] in rows;
      }
    }
  }

  // ---- Whose lock stands in the way of enabling? ----

  /** Another app's enable lock, or a slice's lock. */
  ghost predicate OtherLock(k: R.Key, app: string) {
    || (exists other :: other != app && k == GetEnableLockKey(other))
    || (exists t, bucket :: k == GetTimeBucketLockKey(t, bucket))
  }

  function EnableRequest(app: string, token: R.Token): R.Op {
    R.SetNX(GetEnableLockKey(app), token, ENABLE_GAP_SECONDS * D.SECOND)
  }

  ghost predicate OnlyOthersHold(s: R.Store, app: string, token: R.Token) {
    forall k | s.Held(k) && s.entries[k].token != token :: OtherLock(k, app)
  }

  /** Whenever the token's request arrives, only locks of other apps and of slices are held. */
  ghost predicate LeavesFree(origin: R.Store, ops: seq<R.Op>, app: string, token: R.Token) {
    forall j | 0 <= j < |ops| && ops[j] == EnableRequest(app, token) ::
      OnlyOthersHold(R.After(origin, ops[..j]), app, token)
  }

  /** Locks of other apps and of slices do not stand in the way. */
  lemma FreeLockIsGranted(origin: R.Store, ops: seq<R.Op>, app: string, token: R.Token)
    requires LeavesFree(origin, ops, app, token) && forall k :: !origin.HeldBy(k, token)
    requires R.OwnEvents(origin, ops, token) != []
    requires R.OwnEvents(origin, ops, token)[0].op == EnableRequest(app, token)
    ensures R.OwnEvents(origin, ops, token)[0].reply
  {
    var j := R.OwnEventAt(origin, ops, token, 0);
    var s, key := R.After(origin, ops[..j]), GetEnableLockKey(app);
    D.LoserIsHarmless(origin, ops[..j], token);
    assert OnlyOthersHold(s, app, token);
    if s.Held(key) {
      assert !s.HeldBy(key, token);
      NotOther(app);
    }
  }

  /** A refused caller is refused everything; one that meets only other locks is granted. */
  lemma LockAnswers(origin: R.Store, ops: seq<R.Op>, asked: seq<R.Event>, app: string, token: R.Token,
                    lockNet: D.Net, unlockNet: D.Net)
    requires forall k :: !origin.HeldBy(k, token)
    requires D.Asked([], asked, EnableRequest(app, token), lockNet)
    requires D.Asked(asked, R.OwnEvents(origin, ops, token), R.DeleteIfOwner(GetEnableLockKey(app), token), unlockNet)
    ensures asked == [] || !D.Last(asked).reply ==> forall e | e in R.OwnEvents(origin, ops, token) :: !e.reply
    ensures asked != [] && LeavesFree(origin, ops, app, token) ==> D.Last(asked).reply
  {
    if asked == [] || !D.Last(asked).reply {
      D.LoserIsHarmless(origin, ops, token);
    }
    if asked != [] && LeavesFree(origin, ops, app, token) {
      assert R.OwnEvents(origin, ops, token)[0] == asked[0];
      FreeLockIsGranted(origin, ops, app, token);
    }
  }

  lemma NotOther(app: string)
    ensures !OtherLock(GetEnableLockKey(app), app)
  {
    forall other
      ensures GetEnableLockKey(app) == GetEnableLockKey(other) <==> other == app
    {
      EnableLocksAreOwn(app, other, 0, 0);
    }
    forall t, bucket
      ensures GetEnableLockKey(app) != GetTimeBucketLockKey(t, bucket)
    {
      EnableLocksAreOwn(app, app, t, bucket);
    }
  }

  // ---- Is a recorded outcome final? ----

  /** A row's status is the outcome of the last callback recorded in it. */
  lemma {:induction false} LastRecordedDecides(x: Task, enabled: bool, status: Status, commands: seq<Command>,
                                               m: nat, n: nat)
    requires m <= n && RecordsAt(x, enabled, commands, n)
    requires forall j | n < j < |commands| :: !RecordsAt(x, enabled, commands, j)
    ensures StatusSince(x, enabled, status, commands, m) == commands[n].callback.Result()
  {
    if n < |commands| - 1 {
      var init := commands[..|commands| - 1];
      forall j: nat | j < |init|
        ensures RecordsAt(x, enabled, init, j) == RecordsAt(x, enabled, commands, j)
      {
        assert init[..j] == commands[..j];
      }
      LastRecordedDecides(x, enabled, status, init, m, n);
    }
  }

  lemma {:induction false} UnrecordedStays(x: Task, enabled: bool, status: Status, commands: seq<Command>, m: nat)
    requires forall j | m <= j < |commands| && RecordsAt(x, enabled, commands, j) ::
               commands[j].callback.Result() == status
    ensures StatusSince(x, enabled, status, commands, m) == status
  {
    if m < |commands| && !RecordsAt(x, enabled, commands, |commands| - 1) {
      var init := commands[..|commands| - 1];
      forall j: nat | j < |init|
        ensures RecordsAt(x, enabled, init, j) == RecordsAt(x, enabled, commands, j)
      {
        assert init[..j] == commands[..j];
      }
      UnrecordedStays(x, enabled, status, init, m);
    }
  }

  /** A status stays as it is throughout the commands exactly if none of them records another outcome. */
  lemma OutcomeIsFinalIff(x: Task, enabled: bool, status: Status, commands: seq<Command>)
    ensures (forall k | 0 <= k <= |commands| :: StatusThen(x, enabled, status, commands[..k]) == status)
       <==> forall n | 0 <= n < |commands| && RecordsAt(x, enabled, commands, n) ::
              commands[n].callback.Result() == status
  {
    if forall n | 0 <= n < |commands| && RecordsAt(x, enabled, commands, n) :: commands[n].callback.Result() == status {
      forall k | 0 <= k <= |commands|
        ensures StatusThen(x, enabled, status, commands[..k]) == status
      {
        var part := commands[..k];
        forall m: nat | m < k
          ensures RecordsAt(x, enabled, part, m) == RecordsAt(x, enabled, commands, m)
        {
          assert part[..m] == commands[..m];
        }
        UnrecordedStays(x, enabled, status, part, 0);
      }
    } else {
      var n :| 0 <= n < |commands| && RecordsAt(x, enabled, commands, n) && commands[n].callback.Result() != status;
      var part := commands[..n + 1];
      assert part[..n] == commands[..n];
      LastRecordedDecides(x, enabled, status, part, 0, n);
      assert StatusThen(x, enabled, status, commands[..n + 1]) != status;
    }
  }

  /** A retried task: its second callback fails after the first succeeded, and the row ends Failed. */
  lemma RetriesCanFlipOutcomes(x: Task, status: Status, first: Callback, second: Callback)
    requires first.success && !second.success
    ensures var ok := ExecuteFaults(false, false, false);
            var commands := [Execute(x.timer, x.run, first, ok), Execute(x.timer, x.run, second, ok)];
            && StatusThen(x, true, status, commands[..1]) == Successed
            && StatusThen(x, true, status, commands) == Failed
  {
    var ok := ExecuteFaults(false, false, false);
    var commands := [Execute(x.timer, x.run, first, ok), Execute(x.timer, x.run, second, ok)];
    LastRecordedDecides(x, true, status, commands[..1], 0, 0);
    assert commands[..1][..0] == [];
    LastRecordedDecides(x, true, status, commands, 0, 1);
  }
}
