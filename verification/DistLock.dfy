/**
  The distributed lock object and its watchdog.  Time is in nanoseconds, the unit of a Go
  Duration.  Requests may be lost before they reach the store, and answers may be lost on
  the way back; both look like the same transport error to the client.
 */
module DistLock {
  import opened Redis

  const SECOND := 1_000_000_000
  const RETRY_GAP := 50_000_000
  const DEFAULT_WAITING_SECONDS := 5

  datatype Options = Options(isBlock: bool, waitingSeconds: int, expireSeconds: int, watchDog: bool)

  function Repair(o: Options): (r: Options)
    ensures r.isBlock == o.isBlock && r.expireSeconds == o.expireSeconds
    ensures r.isBlock ==> r.waitingSeconds > 0
    ensures !o.isBlock || o.waitingSeconds > 0 ==> r.waitingSeconds == o.waitingSeconds
    ensures o.isBlock && o.waitingSeconds <= 0 ==> r.waitingSeconds == 5
    ensures r.watchDog <==> o.watchDog && o.expireSeconds > 0
  {
    var o1 := if o.isBlock && o.waitingSeconds <= 0 then o.(waitingSeconds := DEFAULT_WAITING_SECONDS) else o;
    if o1.expireSeconds <= 0 then o1.(watchDog := false) else o1
  }

  function DogStep(expireSeconds: nat): nat {
    expireSeconds * SECOND / 3
  }

  /**
    Done (a nil error), ErrLockAcquiredByOthers or ErrDeleteLockFailure, a transport error,
    ctx.Err(), or no return at all: the lock was granted, and the call spins until an earlier
    watchdog that nobody stops is gone.
   */
  datatype Outcome = Done | TakenByOthers | Broken | Cancelled | Spinning

  /** How the network treats a request and its answer. */
  datatype Net = Delivered | AnswerLost | RequestLost

  /**
    One turn of a waiting lock: the ticks its ticker skipped before it, how late it is taken up,
    whether the context is cancelled by then, whether a time-out due at that very moment is seen,
    and how its request fares and how long it takes there and back.
   */
  datatype Turn = Turn(skipped: nat, late: nat, cancelled: bool, raced: bool, net: Net, there: nat, back: nat)

  type Plan = nat -> Turn

  const PROMPT: Plan := _ => Turn(0, 0, false, false, Delivered, 0, 0)

  /** The ticks up to the i-th turn. */
  function Ticks(plan: Plan, i: nat): nat {
    if i == 0 then 0 else Ticks(plan, i - 1) + 1 + plan(i - 1).skipped
  }

  /** When the turns before the i-th are over. */
  function FreeAt(start: int, plan: Plan, i: nat): int
    decreases i, 0
  {
    if i == 0 then start else TurnAt(start, plan, i - 1) + plan(i - 1).there + plan(i - 1).back
  }

  /** When the i-th turn is taken up: a tick is never early, and waits while a turn lasts. */
  function TurnAt(start: int, plan: Plan, i: nat): int
    decreases i, 1
  {
    var due := start + Ticks(plan, i + 1) * RETRY_GAP;
    (if FreeAt(start, plan, i) < due then due else FreeAt(start, plan, i)) + plan(i).late
  }

  /** The waiting limit is over by the i-th turn. */
  predicate Over(start: int, waitingSeconds: int, plan: Plan, i: nat) {
    var deadline := start + waitingSeconds * SECOND;
    deadline < TurnAt(start, plan, i) || (deadline == TurnAt(start, plan, i) && plan(i).raced)
  }

  lemma {:induction false} TicksPass(plan: Plan, i: nat)
    ensures i <= Ticks(plan, i)
  {
    if i > 0 {
      TicksPass(plan, i - 1);
    }
  }

  /** Turns in time are few. */
  lemma TurnsInTime(start: int, waitingSeconds: int, plan: Plan, i: nat)
    requires !Over(start, waitingSeconds, plan, i)
    ensures i < 20 * waitingSeconds
  {
    TicksPass(plan, i + 1);
  }

  /**
    What an attempt may have done to the store: it sent only its own SET NX, nothing after a
    granted one, it reports success iff it was told so, and every refusal it reports was real.
   */
  ghost predicate Honest(sent: seq<Event>, request: Op, r: Outcome) {
    && (forall i | 0 <= i < |sent| :: sent[i].op == request)
    && (forall i | 0 <= i < |sent| - 1 :: !sent[i].reply)
    && (r == Done || r == Spinning ==> sent != [] && sent[|sent| - 1].reply)
    && (r == TakenByOthers || r == Cancelled ==> forall i | 0 <= i < |sent| :: !sent[i].reply)
  }

  /** Between two moments the client sent at most `limit` requests, honestly. */
  ghost predicate Sent(before: seq<Event>, after: seq<Event>, limit: int, request: Op, r: Outcome) {
    before <= after && |after| - |before| <= limit && Honest(after[|before|..], request, r)
  }

  ghost predicate AllRefused(before: seq<Event>, after: seq<Event>, request: Op) {
    before <= after && forall i | |before| <= i < |after| :: after[i].op == request && !after[i].reply
  }

  /** The client sent one request if the network let it through, and nothing else. */
  ghost predicate Asked(before: seq<Event>, after: seq<Event>, request: Op, net: Net) {
    if net == RequestLost then after == before
    else after != [] && after == before + [Event(request, Last(after).reply)]
  }

  ghost function Last(sent: seq<Event>): Event
    requires sent != []
  {
    sent[|sent| - 1]
  }

  lemma RefusedThenHonest(a: seq<Event>, b: seq<Event>, c: seq<Event>, request: Op, r: Outcome)
    requires AllRefused(a, b, request) && b <= c && Honest(c[|b|..], request, r)
    requires r == Done || r == Spinning ==> |b| < |c|
    ensures Honest(c[|a|..], request, r)
  {
    var sent := c[|a|..];
    assert forall i | 0 <= i < |b| - |a| :: sent[i] == b[|a| + i];
    assert forall i | |b| - |a| <= i < |sent| :: sent[i] == c[|b|..][i - (|b| - |a|)];
  }

  lemma RefusedIsHonest(a: seq<Event>, b: seq<Event>, request: Op, r: Outcome)
    requires AllRefused(a, b, request) && r != Done && r != Spinning
    ensures Honest(b[|a|..], request, r)
  {
  }

  lemma HonestIsRefused(a: seq<Event>, b: seq<Event>, c: seq<Event>, request: Op)
    requires AllRefused(a, b, request) && b <= c && Honest(c[|b|..], request, TakenByOthers)
    ensures AllRefused(a, c, request)
  {
    assert forall i | |b| <= i < |c| :: c[i] == c[|b|..][i - |b|];
    assert forall i | |a| <= i < |b| :: c[i] == b[i];
  }

  class RedisLock {
    const key: Key
    const token: Token
    const options: Options
    var runningDog: bool      // a watchdog goroutine exists
    var dogCancelled: bool    // stopDog has been called on it

    constructor (key: Key, token: Token, o: Options)
      ensures this.key == key && this.token == token && options == Repair(o)
      ensures !runningDog && !dogCancelled
    {
      this.key, this.token, options := key, token, Repair(o);
      runningDog, dogCancelled := false, false;
    }

    ghost function Request(): Op {
      SetNX(key, token, if options.expireSeconds < 0 then 0 else options.expireSeconds * SECOND)
    }

    /** The store rejects a negative expiry. */
    function Effective(net: Net): Net {
      if options.expireSeconds < 0 then RequestLost else net
    }

    /** The most SET NX requests one call of Lock can send. */
    ghost function MaxAttempts(): int {
      if options.isBlock then 1 + 20 * options.waitingSeconds else 1
    }

    method TryLock(server: Server, net: Net, there: nat, back: nat) returns (r: Outcome)
      requires server.Valid()
      modifies server
      ensures server.Valid() && server.now == old(server.now) + there + back
      ensures r != Cancelled && Sent(old(server.Own(token)), server.Own(token), 1, Request(), r)
      ensures Asked(old(server.Own(token)), server.Own(token), Request(), Effective(net))
      ensures r == if Effective(net) != Delivered then Broken
                   else if Last(server.Own(token)).reply then Done else TakenByOthers
    {
      server.Foreign(token, there);
      if net == RequestLost || options.expireSeconds < 0 {
        server.Foreign(token, back);
        return Broken;
      }
      var ok := server.SetIfAbsent(key, token, options.expireSeconds * SECOND);
      server.Foreign(token, back);
      r := if net == AnswerLost then Broken else if ok then Done else TakenByOthers;
    }

    /**
      The waiting lock asked at exactly the first `tries` turns of the plan: each was in time and
      not cancelled, and followed a refusal.  The outcome is that of the last try, unless it was
      a refusal; then the next turn was cancelled or came after the waiting limit.
     */
    ghost predicate Waited(start: int, plan: Plan, tries: nat, r: Outcome) {
      && (forall i | 0 <= i < tries :: !plan(i).cancelled && !Over(start, options.waitingSeconds, plan, i))
      && (forall i | 0 <= i < tries - 1 :: Effective(plan(i).net) == Delivered)
      && match r
         case Done => 0 < tries && Effective(plan(tries - 1).net) == Delivered
         case Spinning => 0 < tries && Effective(plan(tries - 1).net) == Delivered
         case Broken => 0 < tries && Effective(plan(tries - 1).net) != Delivered
         case Cancelled => (tries == 0 || Effective(plan(tries - 1).net) == Delivered) && plan(tries).cancelled
         case TakenByOthers =>
           && (tries == 0 || Effective(plan(tries - 1).net) == Delivered)
           && !plan(tries).cancelled && Over(start, options.waitingSeconds, plan, tries)
    }

    /** The turns before the given one were tried and refused. */
    ghost predicate AllRefusedIn(start: int, plan: Plan, turn: nat) {
      forall i | 0 <= i < turn ::
        && !plan(i).cancelled && !Over(start, options.waitingSeconds, plan, i)
        && Effective(plan(i).net) == Delivered
    }

    lemma WaitEnds(start: int, plan: Plan, turn: nat, r: Outcome)
      requires AllRefusedIn(start, plan, turn)
      requires || (r == Cancelled && plan(turn).cancelled)
               || (r == TakenByOthers && !plan(turn).cancelled && Over(start, options.waitingSeconds, plan, turn))
      ensures Waited(start, plan, turn, r)
    {
    }

    lemma TryEnds(start: int, plan: Plan, turn: nat, r: Outcome)
      requires AllRefusedIn(start, plan, turn)
      requires !plan(turn).cancelled && !Over(start, options.waitingSeconds, plan, turn)
      requires if Effective(plan(turn).net) == Delivered then r == Done || r == TakenByOthers else r == Broken
      ensures r == TakenByOthers ==> AllRefusedIn(start, plan, turn + 1)
      ensures r != TakenByOthers ==> Waited(start, plan, turn + 1, r)
    {
    }

    /** The requests that reached the store in so many tries. */
    function Arrived(plan: Plan, tries: nat): nat {
      if 0 < tries && Effective(plan(tries - 1).net) == RequestLost then tries - 1 else tries
    }

    /** Before the given turn: all turns so far were tried and refused, and the clock is where they left it. */
    ghost predicate Waiting(server: Server, before: seq<Event>, start: int, plan: Plan, turn: nat)
      reads server
    {
      && server.Valid() && server.now == FreeAt(start, plan, turn) && turn <= 20 * options.waitingSeconds
      && AllRefusedIn(start, plan, turn)
      && AllRefused(before, server.Own(token), Request()) && |server.Own(token)| == |before| + turn
    }

    method BlockingLock(server: Server, plan: Plan) returns (r: Outcome, ghost tries: nat)
      requires server.Valid() && options.isBlock && options.waitingSeconds > 0
      modifies server
      ensures server.Valid() && old(server.now) <= server.now
      ensures r != Spinning && Waited(old(server.now), plan, tries, r) && tries <= 20 * options.waitingSeconds
      ensures |server.Own(token)| == |old(server.Own(token))| + Arrived(plan, tries)
      ensures Sent(old(server.Own(token)), server.Own(token), 20 * options.waitingSeconds, Request(), r)
    {
      var start := server.now;
      var turn, tick := 0, 0;
      ghost var before := server.Own(token);
      while true
        invariant Waiting(server, before, start, plan, turn) && tick == Ticks(plan, turn) && start <= server.now
        decreases 20 * options.waitingSeconds - turn
      {
        var over;
        over, r, tick, tries := TakeTurn(server, before, start, plan, turn, tick);
        if over {
          return;
        }
        turn := turn + 1;
      }
    }

    /** One turn: the wait is over, one way or another, or the request was refused once more. */
    method TakeTurn(server: Server, ghost before: seq<Event>, start: int, plan: Plan, turn: nat, tick: nat)
      returns (over: bool, r: Outcome, next: nat, ghost tries: nat)
      requires Waiting(server, before, start, plan, turn) && tick == Ticks(plan, turn)
      modifies server
      ensures server.Valid() && old(server.now) <= server.now && next == Ticks(plan, turn + 1)
      ensures !over ==> turn < 20 * options.waitingSeconds && Waiting(server, before, start, plan, turn + 1)
      ensures over ==>
                && r != Spinning && Waited(start, plan, tries, r) && tries <= 20 * options.waitingSeconds
                && |server.Own(token)| == |before| + Arrived(plan, tries)
                && before <= server.Own(token) && Honest(server.Own(token)[|before|..], Request(), r)
    {
      next := NextTick(server, start, plan, turn, tick);
      tries := turn;
      if plan(turn).cancelled {
        RefusedIsHonest(before, server.Own(token), Request(), Cancelled);
        WaitEnds(start, plan, turn, Cancelled);
        return true, Cancelled, next, tries;
      }
      var deadline := start + options.waitingSeconds * SECOND;
      if deadline < server.now || (deadline == server.now && plan(turn).raced) {
        RefusedIsHonest(before, server.Own(token), Request(), TakenByOthers);
        WaitEnds(start, plan, turn, TakenByOthers);
        return true, TakenByOthers, next, tries;
      }
      over, r := TryTurn(server, before, start, plan, turn);
      tries := turn + 1;
    }

    method TryTurn(server: Server, ghost before: seq<Event>, ghost start: int, plan: Plan, turn: nat)
      returns (over: bool, r: Outcome)
      requires server.Valid() && server.now == TurnAt(start, plan, turn) && AllRefusedIn(start, plan, turn)
      requires AllRefused(before, server.Own(token), Request()) && |server.Own(token)| == |before| + turn
      requires !plan(turn).cancelled && !Over(start, options.waitingSeconds, plan, turn)
      modifies server
      ensures server.Valid() && old(server.now) <= server.now && turn < 20 * options.waitingSeconds
      ensures !over ==> Waiting(server, before, start, plan, turn + 1)
      ensures over ==>
                && r != Spinning && Waited(start, plan, turn + 1, r)
                && |server.Own(token)| == |before| + Arrived(plan, turn + 1)
                && before <= server.Own(token) && Honest(server.Own(token)[|before|..], Request(), r)
    {
      TurnsInTime(start, options.waitingSeconds, plan, turn);
      ghost var refused := server.Own(token);
      r := TryLock(server, plan(turn).net, plan(turn).there, plan(turn).back);
      TryEnds(start, plan, turn, r);
      over := r != TakenByOthers;
      if over {
        RefusedThenHonest(before, refused, server.Own(token), Request(), r);
      } else {
        HonestIsRefused(before, refused, server.Own(token), Request());
      }
    }

    /** A tick arrives when it is due, or is waiting already; it is taken up a little late. */
    method NextTick(server: Server, start: int, plan: Plan, turn: nat, tick: nat) returns (next: nat)
      requires server.Valid() && server.now == FreeAt(start, plan, turn) && tick == Ticks(plan, turn)
      modifies server
      ensures server.Valid() && server.Own(token) == old(server.Own(token))
      ensures server.now == TurnAt(start, plan, turn) >= old(server.now) && next == Ticks(plan, turn + 1)
    {
      next := tick + 1 + plan(turn).skipped;
      var due := start + next * RETRY_GAP;
      server.Foreign(token, (if server.now < due then due - server.now else 0) + plan(turn).late);
    }

    /**
      Honest and bounded: at most 1 + 20W requests, none after a granted one; without blocking
      exactly one, whose answer decides; with blocking the plan's turns after a first refusal.
     */
    method Lock(server: Server, first: Net, plan: Plan := PROMPT)
      returns (r: Outcome, ghost asked: seq<Event>, ghost start: int, ghost tries: nat)
      requires server.Valid()
      requires options == Repair(options)
      modifies server, this
      ensures server.Valid()
      ensures Sent(old(server.Own(token)), server.Own(token), MaxAttempts(), Request(), r)
      ensures Asked(old(server.Own(token)), asked, Request(), Effective(first)) && asked <= server.Own(token)
      ensures Effective(first) != Delivered ==> r == Broken && server.Own(token) == asked
      ensures Effective(first) == Delivered && Last(asked).reply ==>
                server.Own(token) == asked && r == if old(DogInTheWay()) then Spinning else Done
      ensures Effective(first) == Delivered && !Last(asked).reply ==>
                if !options.isBlock then r == TakenByOthers && server.Own(token) == asked
                else old(server.now) <= start && Waited(start, plan, tries, r)
                     && |server.Own(token)| == |asked| + Arrived(plan, tries)
      ensures r == Spinning ==> old(DogInTheWay())
      ensures r == Done ==> !old(DogInTheWay())
      ensures if r == Done && options.watchDog then runningDog && !dogCancelled
              else runningDog == old(runningDog) && dogCancelled == old(dogCancelled)
    {
      var there: nat, back: nat := *, *;
      r := TryLock(server, first, there, back);
      asked, start, tries := server.Own(token), server.now, 0;
      if r == TakenByOthers && options.isBlock {
        r, tries := WaitForLock(server, plan, old(server.Own(token)));
      }
      if r == Done {
        var started := WatchDog();
        r := if started then Done else Spinning;
      }
    }

    /** The turns after a first refusal. */
    method WaitForLock(server: Server, plan: Plan, ghost before: seq<Event>) returns (r: Outcome, ghost tries: nat)
      requires server.Valid() && options.isBlock && options.waitingSeconds > 0
      requires AllRefused(before, server.Own(token), Request()) && |server.Own(token)| == |before| + 1
      modifies server
      ensures server.Valid() && old(server.now) <= server.now
      ensures r != Spinning && Waited(old(server.now), plan, tries, r)
      ensures old(server.Own(token)) <= server.Own(token)
      ensures |server.Own(token)| == |old(server.Own(token))| + Arrived(plan, tries)
      ensures Sent(before, server.Own(token), 1 + 20 * options.waitingSeconds, Request(), r)
    {
      ghost var refused := server.Own(token);
      r, tries := BlockingLock(server, plan);
      RefusedThenHonest(before, refused, server.Own(token), Request(), r);
    }

    /** An earlier watchdog of this object is still at work, and nothing will stop it. */
    predicate DogInTheWay()
      reads this
    {
      options.watchDog && runningDog && !dogCancelled
    }

    /** A cancelled earlier dog is waited for; false stands for waiting for ever. */
    method WatchDog() returns (started: bool)
      modifies this
      ensures started <==> !old(DogInTheWay())
      ensures if started && options.watchDog then runningDog && !dogCancelled
              else runningDog == old(runningDog) && dogCancelled == old(dogCancelled)
    {
      started := !DogInTheWay();
      if started && options.watchDog {
        runningDog, dogCancelled := true, false;
      }
    }

    /** No error is returned unless the script itself answered no: a transport error is swallowed. */
    method DelayExpire(server: Server, seconds: int, net: Net) returns (ok: bool)
      requires server.Valid()
      modifies server
      ensures server.Valid()
      ensures Asked(old(server.Own(token)), server.Own(token), ExpireIfOwner(key, token, seconds * SECOND), net)
      ensures ok <==> net != Delivered || Last(server.Own(token)).reply
    {
      server.Others(token);
      if net == RequestLost {
        return true;
      }
      var done := server.CheckAndExpire(key, token, seconds * SECOND);
      server.Others(token);
      ok := net == AnswerLost || done;
    }

    /** One round of the watchdog: it ends once cancelled and otherwise renews, ignoring the answer. */
    method DogRound(server: Server, net: Net)
      requires server.Valid() && runningDog
      modifies server, this`runningDog
      ensures server.Valid() && runningDog == !dogCancelled
      ensures if dogCancelled then server.Own(token) == old(server.Own(token))
              else Asked(old(server.Own(token)), server.Own(token),
                         ExpireIfOwner(key, token, options.expireSeconds * SECOND), net)
    {
      if dogCancelled {
        runningDog := false;
        return;
      }
      var _ := DelayExpire(server, options.expireSeconds, net);
    }

    method Unlock(server: Server, net: Net) returns (r: Outcome)
      requires server.Valid()
      modifies server, this`dogCancelled
      ensures server.Valid()
      ensures runningDog ==> dogCancelled
      ensures Asked(old(server.Own(token)), server.Own(token), DeleteIfOwner(key, token), net)
      ensures r == if net != Delivered then Broken else if Last(server.Own(token)).reply then Done else TakenByOthers
    {
      server.Others(token);
      if net == RequestLost {
        r := Broken;
      } else {
        var done := server.CheckAndDelete(key, token);
        server.Others(token);
        r := if net == AnswerLost then Broken else if done then Done else TakenByOthers;
      }
      if runningDog {
        dogCancelled := true;
      }
    }
  }

  /**
    A client none of whose SET NX was granted owns nothing: every other request of its own
    (a deferred unlock, a renewal) is refused, and so changes nothing.
   */
  lemma {:induction false} LoserIsHarmless(s: Store, ops: seq<Op>, t: Token)
    requires forall k :: !s.HeldBy(k, t)
    requires forall e | e in OwnEvents(s, ops, t) && e.op.SetNX? :: !e.reply
    ensures forall k :: !After(s, ops).HeldBy(k, t)
    ensures forall e | e in OwnEvents(s, ops, t) :: !e.reply
  {
    if ops != [] {
      var init, op := ops[..|ops| - 1], ops[|ops| - 1];
      assert OwnEvents(s, ops, t)
          == OwnEvents(s, init, t) + if By(op, t) then [Event(op, Reply(After(s, init), op))] else [];
      assert forall e | e in OwnEvents(s, init, t) :: e in OwnEvents(s, ops, t);
      assert By(op, t) ==> Event(op, Reply(After(s, init), op)) in OwnEvents(s, ops, t);
      LoserIsHarmless(s, init, t);
      assert By(op, t) ==> !Reply(After(s, init), op);
      forall k
        ensures !After(s, ops).HeldBy(k, t)
      {
        assert !After(s, init).HeldBy(k, t);
      }
    }
  }
}
