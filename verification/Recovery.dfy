/**
  One node and one outage.  While it is up the node polls at least every `period`; a poll in
  the slice's two minutes tries to take the slice lock; a run needs `length` to scan all its
  windows and is lost if the node crashes before that.  Which outages does every slice survive?
 */
module Recovery {
  import opened Clock
  import opened Wrappers
  import opened Redis

  const ATTEMPTS := 2 * MINUTE

  /** All in milliseconds; the slice's minute starts at `minute`. */
  datatype Node = Node(key: Key, minute: int, period: nat, lease: nat, length: nat, outage: nat) {
    predicate Valid() {
      0 < length && 0 < lease
    }

    /** How many further grants can fall within the length of one run. */
    function Regrants(): nat
      requires Valid()
    {
      (length - 1) / lease
    }

    /**
      How long after its first run the slice can be granted again to a node that dies before
      that run ends.  It is 0 when a run fits in its lease.
     */
    function Drift(): nat
      requires Valid()
    {
      var furthest := Regrants() * (lease + period);
      if length - 1 < furthest then length - 1 else furthest
    }

    predicate Robust()
      requires Valid()
    {
      2 * period + length + outage < ATTEMPTS && 2 * period + lease + Drift() < ATTEMPTS
    }
  }

  /** When the node crashes and when it polls. */
  datatype Schedule = Schedule(crash: int, polls: iset<int>)

  ghost predicate PollsIn(sc: Schedule, from: int, to: int) {
    exists p | from <= p <= to :: p in sc.polls
  }

  /** The node is up for a whole period from t on. */
  predicate UpFrom(n: Node, crash: int, t: int) {
    t + n.period < crash || crash + n.outage <= t
  }

  /** No poll during the outage; outside it, some poll in every stretch as long as the period. */
  ghost predicate Polite(n: Node, sc: Schedule) {
    && (forall p | p in sc.polls :: p < sc.crash || sc.crash + n.outage <= p)
    && (forall t | UpFrom(n, sc.crash, t) :: PollsIn(sc, t, t + n.period))
  }

  /** A run granted k ms into the slice dies before it has scanned all its windows. */
  predicate Lost(n: Node, sc: Schedule, k: nat) {
    n.minute + k < sc.crash <= n.minute + k + n.length
  }

  // ---- Enough: any lock that spaces its grants ----

  /**
    All that is used of the lock: grants are a lease apart, and a poll in time either takes the
    lock or meets a grant less than a lease old.
   */
  ghost predicate Leased(n: Node, sc: Schedule, grants: iset<nat>) {
    && (forall j, k | j in grants && k in grants && j < k :: j + n.lease <= k)
    && (forall p | p in sc.polls && n.minute <= p < n.minute + ATTEMPTS ::
          exists j :: j in grants && n.minute + j <= p < n.minute + j + n.lease)
  }

  /** Somewhere in a stretch of uptime inside the slice there is a grant that covers a poll of the stretch. */
  lemma StretchFindsGrant(n: Node, sc: Schedule, grants: iset<nat>, from: nat) returns (j: nat)
    requires Leased(n, sc, grants) && Polite(n, sc) && from + n.period < ATTEMPTS
    requires UpFrom(n, sc.crash, n.minute + from)
    ensures j in grants && from < j + n.lease && j <= from + n.period
  {
    assert PollsIn(sc, n.minute + from, n.minute + from + n.period);
    var p :| n.minute + from <= p <= n.minute + from + n.period && p in sc.polls;
    j :| j in grants && n.minute + j <= p < n.minute + j + n.lease;
  }

  /** From one grant to a later one before the crash, each step takes a lease and at most a period more. */
  lemma GrantsFollow(n: Node, sc: Schedule, grants: iset<nat>, a: nat, j: nat) returns (m: nat)
    requires n.Valid() && Leased(n, sc, grants) && Polite(n, sc)
    requires a in grants && j in grants && a <= j
    requires n.minute + j < sc.crash <= n.minute + ATTEMPTS
    ensures m * n.lease <= j - a <= m * (n.lease + n.period)
    decreases j - a
  {
    if a == j {
      m := 0;
    } else if j <= a + n.lease + n.period {
      m := 1;
    } else {
      var next := StretchFindsGrant(n, sc, grants, a + n.lease);
      var rest := GrantsFollow(n, sc, grants, next, j);
      m := rest + 1;
      assert m * n.lease == rest * n.lease + n.lease;
      assert m * (n.lease + n.period) == rest * (n.lease + n.period) + (n.lease + n.period);
    }
  }

  /** Grants that all die in one crash lie within the drift of the first. */
  lemma LostGrantsDrift(n: Node, sc: Schedule, grants: iset<nat>, a: nat, j: nat)
    requires n.Valid() && Leased(n, sc, grants) && Polite(n, sc)
    requires a in grants && j in grants && a <= j
    requires n.minute + j < sc.crash <= n.minute + a + n.length && sc.crash <= n.minute + ATTEMPTS
    ensures j <= a + n.Drift()
  {
    var m := GrantsFollow(n, sc, grants, a, j);
    QuotientIsMost(m, n.length - 1, n.lease);
    ProductMonotone(m, n.Regrants(), n.lease + n.period);
  }

  lemma ProductMonotone(a: nat, b: nat, c: nat)
    requires a <= b
    ensures a * c <= b * c
  {
  }

  lemma QuotientIsMost(m: nat, v: nat, d: nat)
    requires d > 0 && m * d <= v
    ensures m <= v / d
  {
    var q := v / d;
    assert (q + 1) * d == q * d + d;
    if q < m {
      ProductMonotone(q + 1, m, d);
    }
  }

  /** One robust outage leaves some run of the slice alive. */
  lemma RobustSurvives(n: Node, sc: Schedule, grants: iset<nat>) returns (j: nat)
    requires n.Valid() && n.Robust() && Polite(n, sc) && Leased(n, sc, grants)
    ensures j in grants && !Lost(n, sc, j)
  {
    var restart := sc.crash + n.outage - n.minute;
    if a: nat :| a in grants && a <= n.period && n.minute + a < sc.crash {
      j := a;
      if Lost(n, sc, a) {
        var free := a + n.Drift() + n.lease;
        j := StretchFindsGrant(n, sc, grants, if restart < free then free else restart);
        if n.minute + j < sc.crash && a <= j {
          LostGrantsDrift(n, sc, grants, a, j);
        }
      }
    } else if n.minute + n.period < sc.crash {
      j := StretchFindsGrant(n, sc, grants, 0);
      assert false;
    } else {
      // No grant before the crash: by then the node has polled for less than a period.
      j := StretchFindsGrant(n, sc, grants, if restart < 0 then 0 else restart);
    }
  }

  // ---- The slice's lock under one node's polls ----

  /** The lock store k ms into the slice, just before a poll of that moment. */
  ghost function StoreAt(n: Node, sc: Schedule, k: nat): Store {
    if k == 0 then Store(n.minute, map[])
    else
      var s := StoreAt(n, sc, k - 1);
      Apply(if Asks(n, sc, k - 1) then Apply(s, Request(n, k - 1)) else s, Advance(1))
  }

  ghost predicate Asks(n: Node, sc: Schedule, k: nat) {
    k < ATTEMPTS && n.minute + k in sc.polls
  }

  function Request(n: Node, k: nat): Op {
    SetNX(n.key, k, n.lease)
  }

  ghost predicate Takes(n: Node, sc: Schedule, k: nat) {
    Asks(n, sc, k) && Reply(StoreAt(n, sc, k), Request(n, k))
  }

  /** Some run of the slice scans all its windows.  Until one does, nothing is acked, so no lease is extended. */
  ghost predicate Recovers(n: Node, sc: Schedule) {
    exists k :: Takes(n, sc, k) && !Lost(n, sc, k)
  }

  lemma {:induction false} HolderTook(n: Node, sc: Schedule, k: nat)
    requires n.lease > 0
    ensures StoreAt(n, sc, k).now == n.minute + k
    ensures var s := StoreAt(n, sc, k);
            n.key in s.entries ==>
              && s.entries[n.key].token < k && Takes(n, sc, s.entries[n.key].token)
              && s.entries[n.key].expiry == Some(n.minute + s.entries[n.key].token + n.lease)
  {
    if k > 0 {
      HolderTook(n, sc, k - 1);
    }
  }

  lemma {:induction false} TakerHolds(n: Node, sc: Schedule, j: nat, k: nat)
    requires n.lease > 0 && Takes(n, sc, j) && j < k <= j + n.lease
    ensures var s := StoreAt(n, sc, k);
            n.key in s.entries && s.entries[n.key] == Entry(j, Some(n.minute + j + n.lease))
    decreases k
  {
    HolderTook(n, sc, j);
    if j < k - 1 {
      TakerHolds(n, sc, j, k - 1);
      HolderTook(n, sc, k - 1);
    }
  }

  /** Two grants are at least a lease apart. */
  lemma GrantsAreSpaced(n: Node, sc: Schedule, j: nat, k: nat)
    requires n.lease > 0 && Takes(n, sc, j) && Takes(n, sc, k) && j < k
    ensures j + n.lease <= k
  {
    if k < j + n.lease {
      TakerHolds(n, sc, j, k);
      HolderTook(n, sc, k);
      assert false;
    }
  }

  /** A poll in time either takes the lock or finds it in the hands of a recent grant. */
  lemma PollFindsGrant(n: Node, sc: Schedule, k: nat) returns (j: nat)
    requires n.lease > 0 && Asks(n, sc, k)
    ensures Takes(n, sc, j) && j <= k < j + n.lease
  {
    HolderTook(n, sc, k);
    j := if Takes(n, sc, k) then k else StoreAt(n, sc, k).entries[n.key].token;
  }

  lemma RobustRecovers(n: Node, sc: Schedule)
    requires n.Valid() && n.Robust() && Polite(n, sc)
    ensures Recovers(n, sc)
  {
    var grants := iset k: nat | Takes(n, sc, k);
    forall j, k | j in grants && k in grants && j < k
      ensures j + n.lease <= k
    {
      GrantsAreSpaced(n, sc, j, k);
    }
    forall p | p in sc.polls && n.minute <= p < n.minute + ATTEMPTS
      ensures exists j :: j in grants && n.minute + j <= p < n.minute + j + n.lease
    {
      var j := PollFindsGrant(n, sc, p - n.minute);
      assert j in grants;
    }
    var j := RobustSurvives(n, sc, grants);
  }

  // ---- Necessary ----

  /** The slice is taken one period late and the run dies at its last moment ... */
  function LastMoment(n: Node): int {
    n.minute + n.period + n.length
  }

  /** ... and the restart polls one period late. */
  predicate SlowPoll(n: Node, t: int) {
    || t < n.minute
    || n.minute + n.period <= t < LastMoment(n)
    || LastMoment(n) + n.outage + n.period <= t
  }

  ghost function SlowRestart(n: Node): Schedule {
    Schedule(LastMoment(n), iset t: int | SlowPoll(n, t))
  }

  lemma SlowRestartLoses(n: Node)
    requires n.Valid() && ATTEMPTS <= 2 * n.period + n.length + n.outage
    ensures Polite(n, SlowRestart(n)) && !Recovers(n, SlowRestart(n))
  {
    var sc := SlowRestart(n);
    forall t | UpFrom(n, sc.crash, t)
      ensures PollsIn(sc, t, t + n.period)
    {
      assert (if t < n.minute then t else t + n.period) in sc.polls;
    }
    forall k | Takes(n, sc, k)
      ensures Lost(n, sc, k)
    {
    }
  }

  /**
    ... or the restart is quick, and the lease of the last run to die runs out just after a
    poll.  `at` lists when the slice is granted to runs that die: the first one period late,
    the last a drift after it, and from one to the next a lease and at most a period more.
   */
  predicate Chain(n: Node, at: seq<int>)
    requires n.Valid()
  {
    && at != [] && at[0] == n.period && at[|at| - 1] == n.period + n.Drift()
    && forall i | 0 < i < |at| :: at[i - 1] + n.lease <= at[i] <= at[i - 1] + n.lease + n.period
  }

  /** Each as late as the polls allow, but early enough for all the grants that fit. */
  function GrantAt(n: Node, i: int): int
    requires n.Valid()
  {
    var late := i * (n.lease + n.period);
    var early := n.Drift() - (n.Regrants() - i) * n.lease;
    n.period + if late < early then late else early
  }

  lemma GrantSteps(n: Node, i: int)
    requires n.Valid()
    ensures GrantAt(n, i - 1) + n.lease <= GrantAt(n, i) <= GrantAt(n, i - 1) + n.lease + n.period
  {
    assert i * (n.lease + n.period) == (i - 1) * (n.lease + n.period) + n.lease + n.period;
    assert (n.Regrants() - (i - 1)) * n.lease == (n.Regrants() - i) * n.lease + n.lease;
  }

  lemma GrantEnds(n: Node)
    requires n.Valid()
    ensures GrantAt(n, 0) == n.period && GrantAt(n, n.Regrants()) == n.period + n.Drift()
  {
    var m := n.Regrants();
    assert m * (n.lease + n.period) == m * n.lease + m * n.period;
    assert m * n.lease <= n.Drift();
    assert (m - 0) * n.lease == m * n.lease && (m - m) * n.lease == 0;
  }

  lemma ChainExists(n: Node) returns (at: seq<int>)
    requires n.Valid()
    ensures Chain(n, at)
  {
    var m := n.Regrants();
    at := seq(m + 1, i => GrantAt(n, i));
    GrantEnds(n);
    forall i | 0 < i < |at|
      ensures at[i - 1] + n.lease <= at[i] <= at[i - 1] + n.lease + n.period
    {
      GrantSteps(n, i);
    }
  }

  lemma {:induction false} ChainAscends(n: Node, at: seq<int>, i: nat, j: nat)
    requires n.Valid() && Chain(n, at) && i < j < |at|
    ensures at[i] + n.lease <= at[j]
  {
    if i < j - 1 {
      ChainAscends(n, at, i, j - 1);
    }
  }

  /** The node polls from each grant until its lease runs out, and not again before the next. */
  ghost predicate UnluckyPoll(n: Node, at: seq<int>, t: int)
    requires n.Valid()
  {
    || t < n.minute
    || n.minute + n.period + n.Drift() + n.lease + n.period <= t
    || (!(LastMoment(n) <= t < LastMoment(n) + n.outage) && exists i :: LeaseOf(n, at, i, t))
  }

  predicate LeaseOf(n: Node, at: seq<int>, i: int, t: int) {
    0 <= i < |at| && n.minute + at[i] <= t < n.minute + at[i] + n.lease
  }

  ghost function UnluckyLease(n: Node, at: seq<int>): Schedule
    requires n.Valid()
  {
    Schedule(LastMoment(n), iset t: int | UnluckyPoll(n, at, t))
  }

  /** Every time of the chain is within a lease, or before a grant at most a period away. */
  lemma {:induction false} LeaseOrWait(n: Node, at: seq<int>, t: int, m: nat) returns (i: nat)
    requires n.Valid() && Chain(n, at) && m < |at| && n.minute <= t < n.minute + at[m] + n.lease
    ensures i <= m && (LeaseOf(n, at, i, t) || t < n.minute + at[i] <= t + n.period)
  {
    i := m;
    if m > 0 && t < n.minute + at[m - 1] + n.lease {
      i := LeaseOrWait(n, at, t, m - 1);
    }
  }

  lemma UnluckyIsPolite(n: Node, at: seq<int>)
    requires n.Valid() && Chain(n, at) && n.length + n.outage < n.lease + n.Drift()
    ensures Polite(n, UnluckyLease(n, at))
  {
    var sc, m := UnluckyLease(n, at), |at| - 1;
    forall t | UpFrom(n, sc.crash, t)
      ensures PollsIn(sc, t, t + n.period)
    {
      if t < n.minute {
        assert t in sc.polls;
      } else if n.minute + at[m] + n.lease <= t {
        assert t + n.period in sc.polls;
      } else {
        var i := LeaseOrWait(n, at, t, m);
        if i < m {
          ChainAscends(n, at, i, m);
        }
        var next := n.minute + at[i];
        assert next < sc.crash && LeaseOf(n, at, i, next);
        assert (if LeaseOf(n, at, i, t) then t else next) in sc.polls;
      }
    }
  }

  /** The grants of the chain are granted, and a poll within a lease of the chain takes nothing else. */
  lemma {:induction false} UnluckyTakes(n: Node, at: seq<int>, i: nat)
    requires n.Valid() && Chain(n, at) && i < |at| && 2 * n.period + n.length < ATTEMPTS
    ensures at[i] >= 0 && Takes(n, UnluckyLease(n, at), at[i])
  {
    var sc := UnluckyLease(n, at);
    if 0 < i {
      ChainAscends(n, at, 0, i);
    }
    if i < |at| - 1 {
      ChainAscends(n, at, i, |at| - 1);
    }
    assert LeaseOf(n, at, i, n.minute + at[i]);
    assert Asks(n, sc, at[i]);
    var j := PollFindsGrant(n, sc, at[i]);
    if j < at[i] {
      var h :| LeaseOf(n, at, h, n.minute + j);
      EarlierGrant(n, at, i, j, h);
      UnluckyTakes(n, at, h);
      if at[h] < j {
        GrantsAreSpaced(n, sc, at[h], j);
      }
      assert false;
    }
  }

  /** A time less than a lease before a grant of the chain is in the lease of the grant before it, and not its start. */
  lemma EarlierGrant(n: Node, at: seq<int>, i: nat, j: int, h: int)
    requires n.Valid() && Chain(n, at) && i < |at| && LeaseOf(n, at, h, n.minute + j)
    requires j < at[i] < j + n.lease
    ensures h == i - 1 && at[h] < j
  {
    if h < i - 1 {
      ChainAscends(n, at, h, i - 1);
    } else if i < h {
      ChainAscends(n, at, i, h);
    }
  }

  lemma UnluckyLeaseLoses(n: Node, at: seq<int>)
    requires n.Valid() && 2 * n.period + n.length + n.outage < ATTEMPTS <= 2 * n.period + n.lease + n.Drift()
    requires Chain(n, at)
    ensures Polite(n, UnluckyLease(n, at)) && !Recovers(n, UnluckyLease(n, at))
  {
    var sc, m := UnluckyLease(n, at), |at| - 1;
    UnluckyIsPolite(n, at);
    UnluckyTakes(n, at, m);
    forall k | Takes(n, sc, k)
      ensures Lost(n, sc, k)
    {
      var i :| LeaseOf(n, at, i, n.minute + k);
      if 0 < i {
        ChainAscends(n, at, 0, i);
      }
      if i < m {
        ChainAscends(n, at, i, m);
      }
      if at[m] < k {
        GrantsAreSpaced(n, sc, at[m], k);
      }
    }
  }

  /** Exactly which outages every slice survives, under every placing of the polls and the crash. */
  lemma RecoveryIff(n: Node)
    requires n.Valid()
    ensures (forall sc | Polite(n, sc) :: Recovers(n, sc)) <==> n.Robust()
  {
    if n.Robust() {
      forall sc | Polite(n, sc)
        ensures Recovers(n, sc)
      {
        RobustRecovers(n, sc);
      }
    } else if ATTEMPTS <= 2 * n.period + n.length + n.outage {
      SlowRestartLoses(n);
    } else {
      var at := ChainExists(n);
      UnluckyLeaseLoses(n, at);
    }
  }

  /** A run that outlasts its lease is taken over while it lives; the crash kills both, and the younger lease stays. */
  lemma LongRunsNeedMore(minute: int)
    ensures var n := Node("", minute, 1_000, 70_000, 75_000, 5_000);
            && 2 * n.period + n.length + n.outage < ATTEMPTS && 2 * n.period + n.lease < ATTEMPTS
            && exists sc :: Polite(n, sc) && !Recovers(n, sc)
  {
    RecoveryIff(Node("", minute, 1_000, 70_000, 75_000, 5_000));
  }

  /**
    The shipped configuration (1s polls, 70s lease) survives exactly the outages that leave two
    polls and a run of at most 70s their time; with minute-long runs those are shorter than
    58s: the "restart within a minute" of the documentation holds only up to there.
   */
  lemma ShippedConfigurationSurvives(minute: int, length: nat, outage: nat)
    requires length > 0
    ensures var n := Node("", minute, 1_000, 70_000, length, outage);
            (forall sc | Polite(n, sc) :: Recovers(n, sc)) <==> length <= 70_000 && length + outage < 118_000
  {
    var n := Node("", minute, 1_000, 70_000, length, outage);
    RecoveryIff(n);
    assert length > 70_000 ==> n.Regrants() >= 1 && n.Regrants() * 71_000 >= 71_000;
  }
}
