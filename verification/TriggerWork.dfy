/**
  One run of the trigger over a minute: a ticker loop that starts one goroutine a window,
  a bounded channel that collects their errors, a wait for all of them, and an ack.
  Seconds are counted from the start of the minute; `g` is zrangeGapSeconds.
 */
module TriggerWork {
  import opened Wrappers
  import opened Clock
  import opened SafeChannel
  import K = Keys

  type Error = string

  const MINUTE_SECONDS := 60

  datatype Batch = Running | Succeeded | Failed(error: Error)

  datatype Phase = Ticking | Waiting | Acked | Returned(error: Error)

  /** `errors` is the channel's buffer and `size` its capacity. */
  datatype RunState = RunState(elapsed: nat, batches: seq<Batch>, errors: seq<Error>, size: nat, phase: Phase) {
    predicate Busy() {
      phase.Ticking? || phase.Waiting?
    }

    predicate AllSucceeded() {
      forall k | 0 <= k < |batches| :: batches[k] == Succeeded
    }

    ghost predicate SomeFailed() {
      exists k :: 0 <= k < |batches| && batches[k].Failed?
    }
  }

  datatype Step =
    | Tick                                        // the loop receives a tick
    | Finish(window: nat, error: Option<Error>)   // a goroutine ends, perhaps after the run has returned an error
    | Conclude                                    // every goroutine has ended: the last look at the channel

  function Capacity(g: nat): nat
    requires g > 0
  {
    MINUTE_SECONDS / g
  }

  function Start(g: nat): RunState
    requires g > 0
  {
    RunState(0, [], [], Capacity(g), Ticking)
  }

  /** The seconds covered by k windows. */
  function Covered(g: nat, k: nat): nat {
    if k == 0 then 0 else Covered(g, k - 1) + g
  }

  /** The number of windows that cover the minute: the first count at which the loop ends. */
  function Windows(g: nat): (n: nat)
    requires g > 0
    ensures n > 0 && Covered(g, n - 1) < MINUTE_SECONDS <= Covered(g, n)
  {
    WindowsFrom(g, 1)
  }

  function WindowsFrom(g: nat, k: nat): (n: nat)
    requires g > 0 && k > 0 && Covered(g, k - 1) < MINUTE_SECONDS
    ensures n > 0 && Covered(g, n - 1) < MINUTE_SECONDS <= Covered(g, n)
    decreases MINUTE_SECONDS - Covered(g, k - 1)
  {
    if MINUTE_SECONDS <= Covered(g, k) then k else WindowsFrom(g, k + 1)
  }

  lemma {:induction false} CoveredMonotone(g: nat, j: nat, k: nat)
    requires j <= k
    ensures Covered(g, j) <= Covered(g, k)
  {
    if j < k {
      CoveredMonotone(g, j, k - 1);
    }
  }

  lemma {:induction false} CoveredIsProduct(g: nat, k: nat)
    ensures Covered(g, k) == k * g
  {
    if k > 0 {
      CoveredIsProduct(g, k - 1);
      assert (k - 1) * g == k * g - g;
    }
  }

  lemma WindowsUnique(g: nat, n: nat)
    requires g > 0 && n > 0 && Covered(g, n - 1) < MINUTE_SECONDS <= Covered(g, n)
    ensures n == Windows(g)
  {
    var w := Windows(g);
    if n < w {
      CoveredMonotone(g, n, w - 1);
    } else if w < n {
      CoveredMonotone(g, w, n - 1);
    }
  }

  /** There are ceil(60 / g) windows. */
  lemma WindowsIsCeiling(g: nat)
    requires g > 0
    ensures Windows(g) == (MINUTE_SECONDS + g - 1) / g
  {
    var n := (MINUTE_SECONDS + g - 1) / g;
    CoveredIsProduct(g, n);
    CoveredIsProduct(g, n - 1);
    assert (n - 1) * g == n * g - g;
    WindowsUnique(g, n);
  }

  predicate Enabled(w: RunState, step: Step) {
    match step
    case Tick => w.phase.Ticking?
    case Finish(k, _) => k < |w.batches| && w.batches[k].Running?
    case Conclude => w.phase.Waiting? && forall k | 0 <= k < |w.batches| :: !w.batches[k].Running?
  }

  function Do(g: nat, w: RunState, step: Step): RunState
    requires g > 0
  {
    if !Enabled(w, step) then w
    else
      match step
      case Tick =>
        if w.errors != [] then w.(errors := w.errors[1..], phase := Returned(w.errors[0]))
        else w.(elapsed := w.elapsed + g,
                batches := w.batches + [Running],
                phase := if w.elapsed + g >= MINUTE_SECONDS then Waiting else Ticking)
      case Finish(k, None) => w.(batches := w.batches[k := Succeeded])
      case Finish(k, Some(e)) =>
        // once the run has returned, its channel is closed and late errors go nowhere
        w.(batches := w.batches[k := Failed(e)], errors := if w.Busy() then PutInto(w.errors, w.size, e) else w.errors)
      case Conclude =>
        if w.errors != [] then w.(errors := w.errors[1..], phase := Returned(w.errors[0]))
        else w.(phase := Acked)
  }

  lemma TickOnlyAdds(g: nat, w: RunState)
    requires g > 0
    ensures w.batches <= Do(g, w, Tick).batches
  {
  }

  lemma ConcludeAddsNothing(g: nat, w: RunState)
    requires g > 0
    ensures w.batches == Do(g, w, Conclude).batches
  {
  }

  /** Any sequence of steps is a run; a step that cannot happen changes nothing. */
  function Run(g: nat, steps: seq<Step>): RunState
    requires g > 0
  {
    if steps == [] then Start(g) else Do(g, Run(g, steps[..|steps| - 1]), steps[|steps| - 1])
  }

  lemma RunStep(g: nat, steps: seq<Step>, step: Step)
    requires g > 0
    ensures Run(g, steps + [step]) == Do(g, Run(g, steps), step)
  {
    assert (steps + [step])[..|steps|] == steps;
  }

  ghost predicate Inv(g: nat, w: RunState)
    requires g > 0
  {
    && w.elapsed == Covered(g, |w.batches|)
    && (w.batches != [] ==> Covered(g, |w.batches| - 1) < MINUTE_SECONDS)
    && (g <= MINUTE_SECONDS ==> w.size > 0)
    && (w.phase.Ticking? ==> w.elapsed < MINUTE_SECONDS)
    && (w.phase.Waiting? || w.phase.Acked? ==> |w.batches| == Windows(g))
    && (w.Busy() && w.SomeFailed() && g <= MINUTE_SECONDS ==> w.errors != [])
    && (forall e | e in w.errors :: Failed(e) in w.batches)
    && (w.phase.Acked? ==> forall k | 0 <= k < |w.batches| :: !w.batches[k].Running?)
    && (w.phase.Acked? && g <= MINUTE_SECONDS ==> w.AllSucceeded())
    && (w.phase.Returned? ==> Failed(w.phase.error) in w.batches)
  }

  lemma InvKept(g: nat, w: RunState, step: Step)
    requires g > 0 && Inv(g, w)
    ensures Inv(g, Do(g, w, step))
  {
    if Enabled(w, step) {
      var w' := Do(g, w, step);
      match step
      case Tick =>
        if w.errors == [] {
          assert forall k | 0 <= k < |w.batches| :: w'.batches[k] == w.batches[k];
          if w'.phase.Waiting? {
            WindowsUnique(g, |w'.batches|);
          }
        }
      case Finish(k, error) =>
        assert w'.batches[k] != Running;
        assert forall j | 0 <= j < |w.batches| && j != k :: w'.batches[j] == w.batches[j];
        assert forall e | Failed(e) in w.batches :: Failed(e) in w'.batches;
      case Conclude =>
    }
  }

  lemma {:induction false} InvRun(g: nat, steps: seq<Step>)
    requires g > 0
    ensures Inv(g, Run(g, steps))
  {
    if steps == [] {
      assert g <= MINUTE_SECONDS ==> Capacity(g) >= 1;
    } else {
      InvRun(g, steps[..|steps| - 1]);
      InvKept(g, Run(g, steps[..|steps| - 1]), steps[|steps| - 1]);
    }
  }

  /** What holds of a stopped run for any gap. */
  lemma StoppedRun(g: nat, steps: seq<Step>)
    requires g > 0
    ensures var w := Run(g, steps);
            && (w.phase.Acked? ==> |w.batches| == Windows(g) && (g <= MINUTE_SECONDS ==> w.AllSucceeded()))
            && (w.phase.Returned? ==> Failed(w.phase.error) in w.batches)
  {
    InvRun(g, steps);
  }

  /**
    For a gap of at most a minute, under every interleaving: an acked run started all the
    windows of the minute and each of them returned nil; an error is returned only if it is
    the error of some window; and a run that has stopped acked exactly when no window failed.
   */
  lemma AckIffAllSucceeded(g: nat, steps: seq<Step>)
    requires 0 < g <= MINUTE_SECONDS
    ensures var w := Run(g, steps);
            && (w.phase.Acked? ==> |w.batches| == Windows(g) && w.AllSucceeded())
            && (w.phase.Returned? ==> Failed(w.phase.error) in w.batches)
            && (!w.Busy() ==> (w.phase.Acked? <==> !w.SomeFailed()))
  {
    InvRun(g, steps);
  }

  // ---- A failed window stops the run ----

  /** The first error that a goroutine reported to the run, in the order in which they ended. */
  function FirstFailure(g: nat, steps: seq<Step>): Option<Error>
    requires g > 0
  {
    if steps == [] then None
    else
      var init, last := steps[..|steps| - 1], steps[|steps| - 1];
      if FirstFailure(g, init).Some? then FirstFailure(g, init)
      else if last.Finish? && Enabled(Run(g, init), last) && Run(g, init).Busy() then last.error
      else None
  }

  /** The error that leads the channel, or was returned, is the first one; without it nothing has failed. */
  ghost predicate Leads(w: RunState, first: Option<Error>) {
    && (w.Busy() ==>
          (first == if w.errors == [] then None else Some(w.errors[0])) && (first.Some? <==> w.SomeFailed()))
    && (w.phase.Returned? ==> first == Some(w.phase.error))
    && (w.phase.Acked? ==> first == None)
  }

  lemma {:induction false} FirstFailureLeads(g: nat, steps: seq<Step>)
    requires 0 < g <= MINUTE_SECONDS
    ensures Leads(Run(g, steps), FirstFailure(g, steps))
  {
    if steps == [] {
      assert !Start(g).SomeFailed();
    } else {
      var init := steps[..|steps| - 1];
      FirstFailureLeads(g, init);
      InvRun(g, init);
      LeadsKept(g, Run(g, init), FirstFailure(g, init), steps[|steps| - 1]);
    }
  }

  lemma LeadsKept(g: nat, w: RunState, first: Option<Error>, step: Step)
    requires 0 < g <= MINUTE_SECONDS && Inv(g, w) && Leads(w, first)
    ensures Leads(Do(g, w, step),
                  if first.Some? then first
                  else if step.Finish? && Enabled(w, step) && w.Busy() then step.error else None)
  {
    var w' := Do(g, w, step);
    if Enabled(w, step) && step.Finish? {
      FinishFails(g, w, step.window, step.error);
    } else if Enabled(w, step) && step.Tick? && w.errors == [] {
      TickFailsNothing(g, w);
    }
  }

  lemma FinishFails(g: nat, w: RunState, k: nat, error: Option<Error>)
    requires g > 0 && Enabled(w, Finish(k, error))
    ensures Do(g, w, Finish(k, error)).SomeFailed() <==> w.SomeFailed() || error.Some?
  {
    var w' := Do(g, w, Finish(k, error));
    assert forall j | 0 <= j < |w.batches| && j != k :: w'.batches[j] == w.batches[j];
    assert w'.batches[k].Failed? <==> error.Some?;
    if w.SomeFailed() {
      var j :| 0 <= j < |w.batches| && w.batches[j].Failed?;
      assert w'.batches[j].Failed?;
    }
  }

  lemma TickFailsNothing(g: nat, w: RunState)
    requires g > 0 && w.phase.Ticking? && w.errors == []
    ensures Do(g, w, Tick).SomeFailed() <==> w.SomeFailed()
  {
    var w' := Do(g, w, Tick);
    assert forall j | 0 <= j < |w.batches| :: w'.batches[j] == w.batches[j];
  }

  /**
    The next tick after a failure returns the first failure's error and starts no window; a
    tick that finds no failure starts the next one.
   */
  lemma FailedRunReturns(g: nat, steps: seq<Step>)
    requires 0 < g <= MINUTE_SECONDS && Run(g, steps).phase.Ticking?
    ensures var w, w' := Run(g, steps), Run(g, steps + [Tick]);
            if w.SomeFailed() then
              && FirstFailure(g, steps).Some? && w'.phase == Returned(FirstFailure(g, steps).value)
              && Failed(w'.phase.error) in w.batches && w'.batches == w.batches
            else w'.Busy() && w'.batches == w.batches + [Running]
  {
    RunStep(g, steps, Tick);
    InvRun(g, steps);
    FirstFailureLeads(g, steps);
  }

  /** Once a window has failed, no other window starts. */
  lemma {:induction false} FailureStopsStarts(g: nat, steps: seq<Step>, i: nat)
    requires 0 < g <= MINUTE_SECONDS && i <= |steps| && Run(g, steps[..i]).SomeFailed()
    ensures Run(g, steps).SomeFailed() && |Run(g, steps).batches| == |Run(g, steps[..i]).batches|
  {
    if i == |steps| {
      assert steps[..i] == steps;
    } else {
      var init := steps[..|steps| - 1];
      assert init[..i] == steps[..i];
      FailureStopsStarts(g, init, i);
      InvRun(g, init);
      FailureStays(g, Run(g, init), steps[|steps| - 1]);
    }
  }

  lemma FailureStays(g: nat, w: RunState, step: Step)
    requires 0 < g <= MINUTE_SECONDS && Inv(g, w) && w.SomeFailed()
    ensures Do(g, w, step).SomeFailed() && |Do(g, w, step).batches| == |w.batches|
  {
    if Enabled(w, step) && step.Finish? {
      FinishFails(g, w, step.window, step.error);
    }
  }

  /** Beyond a minute the channel holds nothing, errors are dropped, and a failed run acks. */
  lemma LongGapAcksFailures(g: nat, e: Error) returns (steps: seq<Step>)
    requires g > MINUTE_SECONDS
    ensures Run(g, steps).phase.Acked? && !Run(g, steps).AllSucceeded()
  {
    steps := [Tick, Finish(0, Some(e)), Conclude];
    RunStep(g, [], Tick);
    RunStep(g, [Tick], Finish(0, Some(e)));
    RunStep(g, [Tick, Finish(0, Some(e))], Conclude);
    assert [] + [Tick] == [Tick];
    assert [Tick] + [Finish(0, Some(e))] == [Tick, Finish(0, Some(e))];
    assert steps == [Tick, Finish(0, Some(e))] + [Conclude];
    assert Run(g, [Tick]).phase == Waiting;
    assert Run(g, steps).batches[0] == Failed(e);
  }

  /** Exactly which gaps make an ack trustworthy. */
  lemma AckIsTrustworthyIff(g: nat)
    requires g > 0
    ensures (forall steps :: Run(g, steps).phase.Acked? ==> Run(g, steps).AllSucceeded()) <==> g <= MINUTE_SECONDS
  {
    if g <= MINUTE_SECONDS {
      forall steps
        ensures Run(g, steps).phase.Acked? ==> Run(g, steps).AllSucceeded()
      {
        AckIffAllSucceeded(g, steps);
      }
    } else {
      var steps := LongGapAcksFailures(g, "");
      assert Run(g, steps).phase.Acked? && !Run(g, steps).AllSucceeded();
    }
  }

  /** What a goroutine is asked to scan: the arguments of handleBatch. */
  datatype Request = Request(key: string, start: int, end: int)

  /** Window k of the slice, in milliseconds. */
  function WindowRequest(g: nat, key: string, minute: int, k: nat): Request {
    Request(key, minute + Covered(g, k) * SECOND, minute + Covered(g, k + 1) * SECOND)
  }

  predicate AsksForWindows(g: nat, key: string, minute: int, requests: seq<Request>) {
    forall k | 0 <= k < |requests| :: requests[k] == WindowRequest(g, key, minute, k)
  }

  /** `Work` as the program runs it, its goroutines interleaved in any way. */
  class Trigger {
    const gap: nat
    const notifier: SafeChan<Error>
    var key: string
    var startTime: int
    var endTime: int
    var requests: seq<Request>
    var batches: seq<Batch>
    var phase: Phase
    ghost var minute: int
    ghost var elapsed: nat
    ghost var steps: seq<Step>

    constructor (gap: nat)
      requires gap > 0
      ensures Valid() && fresh(this) && fresh(notifier) && this.gap == gap && phase == Ticking && steps == []
      ensures notifier.size * gap <= MINUTE_SECONDS < (notifier.size + 1) * gap
    {
      this.gap := gap;
      notifier := new SafeChan(Capacity(gap));
      key, startTime, endTime, requests, minute := "", 0, MINUTE, [], 0;
      elapsed, batches, phase, steps := 0, [], Ticking, [];
    }

    ghost function State(): RunState
      reads this, notifier
    {
      RunState(elapsed, batches, notifier.buffer, notifier.size, phase)
    }

    ghost predicate Valid()
      reads this, notifier
    {
      && gap > 0
      && (State().Busy() <==> !notifier.closed)
      && State() == Run(gap, steps)
      && startTime == minute + elapsed * SECOND && endTime == minute + MINUTE
      && |requests| == |batches| && AsksForWindows(gap, key, minute, requests)
    }

    ghost method Record(step: Step)
      requires gap > 0 && State() == Do(gap, Run(gap, steps), step)
      modifies this`steps
      ensures steps == old(steps) + [step] && State() == Run(gap, steps)
    {
      RunStep(gap, steps, step);
      steps := steps + [step];
    }

    /** The goroutine of window k ends. */
    method HandleBatch(k: nat)
      requires Valid() && Enabled(State(), Finish(k, None))
      modifies this`batches, this`steps, notifier`buffer
      ensures Valid() && |batches| == |old(batches)| && batches[k] != Running && old(steps) <= steps
      ensures forall j | 0 <= j < |batches| && j != k :: batches[j] == old(batches[j])
      ensures batches[k].Failed? && !old(notifier.closed) ==>
                notifier.buffer == PutInto(old(notifier.buffer), notifier.size, batches[k].error)
      ensures batches[k].Succeeded? || old(notifier.closed) ==> notifier.buffer == old(notifier.buffer)
    {
      var error: Option<Error> := *;
      match error {
        case None => batches := batches[k := Succeeded];
        case Some(e) =>
          var _ := notifier.Put(e);  // a panic ends the process, and with it this run
          batches := batches[k := Failed(e)];
      }
      Record(Finish(k, error));
    }

    /** Any number of goroutines end, in any order; some may outlive a run that returns early. */
    method Interleave()
      requires Valid()
      modifies this`batches, this`steps, notifier`buffer
      ensures Valid() && |batches| == |old(batches)| && old(steps) <= steps
    {
      var n :| 0 <= n;
      for i := 0 to n
        invariant Valid() && |batches| == |old(batches)| && old(steps) <= steps
      {
        var k: int := *;
        if 0 <= k < |batches| && batches[k].Running? {
          HandleBatch(k);
        }
      }
    }

    /** wg.Wait() */
    method Wait()
      requires Valid() && phase.Waiting?
      modifies this`batches, this`steps, notifier`buffer
      ensures Valid() && |batches| == |old(batches)| && forall k | 0 <= k < |batches| :: !batches[k].Running?
    {
      Interleave();
      for k := 0 to |batches|
        invariant Valid() && phase == old(phase) && k <= |batches| == |old(batches)|
        invariant forall j | 0 <= j < k :: !batches[j].Running?
      {
        if batches[k].Running? {
          HandleBatch(k);
        }
      }
    }

    /** The next window starts. */
    method StartWindow()
      requires Valid() && phase.Ticking? && notifier.buffer == []
      modifies this`batches, this`requests, this`startTime, this`steps, this`elapsed, this`phase
      ensures Valid() && steps == old(steps) + [Tick]
      ensures batches == old(batches) + [Running] && old(requests) <= requests
      ensures startTime == old(startTime) + gap * SECOND && phase == if startTime >= endTime then Waiting else Ticking
    {
      CoverNext(gap, steps);
      AsksForNext(gap, key, minute, requests, startTime);
      requests := requests + [Request(key, startTime, startTime + gap * SECOND)];
      batches := batches + [Running];
      startTime := startTime + gap * SECOND;
      elapsed := elapsed + gap;
      if startTime >= endTime {
        phase := Waiting;
      }
      Record(Tick);
    }

    /**
      One turn of the loop: the oldest error in the channel ends the run, and no window starts;
      otherwise the next window does.  For gaps up to a minute there is an error in the channel
      exactly if some window has failed.
     */
    method OnTick() returns (error: Option<Error>)
      requires Valid() && phase.Ticking?
      modifies this`batches, this`requests, this`startTime, this`steps, this`elapsed, this`phase, notifier
      ensures Valid() && steps == old(steps) + [Tick]
      ensures error == if old(notifier.buffer) == [] then None else Some(old(notifier.buffer)[0])
      ensures gap <= MINUTE_SECONDS ==> (error.Some? <==> old(State().SomeFailed()))
      ensures error.Some? ==>
                phase == Returned(error.value) && batches == old(batches) && requests == old(requests)
      ensures error.None? ==>
                && batches == old(batches) + [Running] && old(requests) <= requests
                && startTime == old(startTime) + gap * SECOND
                && phase == if startTime >= endTime then Waiting else Ticking
    {
      if gap <= MINUTE_SECONDS {
        FirstFailureLeads(gap, steps);
      }
      error := notifier.Poll();
      if error.Some? {
        phase := Returned(error.value);
        notifier.Close();
        Record(Tick);
      } else {
        StartWindow();
      }
    }

    /**
      A malformed key is an error before anything starts.  Otherwise None is returned, after the
      ack, exactly when every window was scanned without error; else the first failure's error,
      and no window was started after it.  Window k is asked for [k, k + 1) gaps into the key's
      minute, under that key.
     */
    method Work(key: string) returns (error: Option<Error>)
      requires Valid() && steps == []
      modifies this, notifier
      ensures Valid()
      ensures K.GetStartMinute(key) == None ==> error.Some? && State() == old(State()) && requests == []
      ensures K.GetStartMinute(key).Some? ==>
                && (if error.None? then phase.Acked? else phase == Returned(error.value))
                && (error.None? ==> |batches| == Windows(gap) && (gap <= MINUTE_SECONDS ==> State().AllSucceeded()))
                && (error.Some? ==> Failed(error.value) in batches)
                && (gap <= MINUTE_SECONDS ==> error == FirstFailure(gap, steps))
                && |requests| == |batches| && AsksForWindows(gap, key, K.GetStartMinute(key).value, requests)
      ensures gap <= MINUTE_SECONDS ==>
                forall i | 0 <= i <= |steps| && Run(gap, steps[..i]).SomeFailed() ::
                  |Run(gap, steps[..i]).batches| == |batches|
    {
      var start := K.GetStartMinute(key);
      if start == None {
        return Some("invalid msg key");
      }
      this.key, startTime, endTime, minute := key, start.value, start.value + MINUTE, start.value;
      while phase.Ticking?
        invariant Valid() && State().Busy() && (phase.Ticking? ==> startTime < endTime)
        invariant this.key == key && minute == start.value
        decreases if phase.Ticking? then endTime - startTime else 0
      {
        Interleave();
        error := OnTick();
        if error.Some? {
          RunEnds(gap, steps);
          return;
        }
      }
      error := LastLook();
      RunEnds(gap, steps);
    }

    /** After the wait: the oldest error in the channel, or the ack. */
    method LastLook() returns (error: Option<Error>)
      requires Valid() && phase.Waiting?
      modifies this`batches, this`steps, this`phase, notifier
      ensures Valid() && |batches| == |old(batches)|
      ensures phase == if error.Some? then Returned(error.value) else Acked
    {
      Wait();
      error := notifier.Poll();
      phase := if error.Some? then Returned(error.value) else Acked;
      notifier.Close();
      Record(Conclude);
    }
  }

  lemma AsksForNext(g: nat, key: string, minute: int, requests: seq<Request>, start: int)
    requires AsksForWindows(g, key, minute, requests) && start == minute + Covered(g, |requests|) * SECOND
    ensures AsksForWindows(g, key, minute, requests + [Request(key, start, start + g * SECOND)])
  {
  }

  /** The seconds covered by the windows that have started. */
  lemma CoverNext(g: nat, steps: seq<Step>)
    requires g > 0
    ensures var w := Run(g, steps);
            w.elapsed == Covered(g, |w.batches|) && Covered(g, |w.batches| + 1) == w.elapsed + g
  {
    InvRun(g, steps);
  }

  /** What holds of a run that has stopped. */
  lemma RunEnds(g: nat, steps: seq<Step>)
    requires g > 0
    ensures var w := Run(g, steps);
            && (w.phase.Acked? ==> |w.batches| == Windows(g) && (g <= MINUTE_SECONDS ==> w.AllSucceeded()))
            && (w.phase.Returned? ==> Failed(w.phase.error) in w.batches)
            && (g <= MINUTE_SECONDS ==> Leads(w, FirstFailure(g, steps)))
            && (g <= MINUTE_SECONDS ==>
                  forall i | 0 <= i <= |steps| && Run(g, steps[..i]).SomeFailed() ::
                    |Run(g, steps[..i]).batches| == |w.batches|)
  {
    StoppedRun(g, steps);
    if g <= MINUTE_SECONDS {
      FirstFailureLeads(g, steps);
      forall i | 0 <= i <= |steps| && Run(g, steps[..i]).SomeFailed()
        ensures |Run(g, steps[..i]).batches| == |Run(g, steps).batches|
      {
        FailureStopsStarts(g, steps, i);
      }
    }
  }
}
