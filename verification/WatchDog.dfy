/**
  The watchdog against the clock.  The lease was granted at some instant with expiry
  E seconds; renewals fall due every E/3 and each happens less than E/3 late.  At most
  `tolerated` renewals in a row are lost.  Other clients do as they like.
 */
module WatchDog {
  import opened Wrappers
  import opened Redis
  import opened DistLock

  datatype Config = Config(key: Key, token: Token, expireSeconds: nat, tolerated: nat) {
    function Step(): nat {
      DogStep(expireSeconds)
    }

    function Ttl(): nat {
      expireSeconds * SECOND
    }
  }

  /** due: when the next renewal is due; missed: how many renewals in a row have just been lost. */
  datatype Watch = Watch(store: Store, due: int, missed: nat)

  datatype Move =
    | Pass(delta: nat)
    | Renew(delivered: bool)
    | Foreign(op: Op)

  predicate Enabled(c: Config, w: Watch, m: Move) {
    match m
    case Pass(delta) => w.store.now + delta < w.due + c.Step()
    case Renew(delivered) => w.due <= w.store.now && (delivered || w.missed < c.tolerated)
    case Foreign(op) => !op.Advance? && !By(op, c.token)
  }

  function Do(c: Config, w: Watch, m: Move): Watch {
    if !Enabled(c, w, m) then w
    else
      match m
      case Pass(delta) => w.(store := Apply(w.store, Advance(delta)))
      case Renew(delivered) =>
        Watch(if delivered then Apply(w.store, ExpireIfOwner(c.key, c.token, c.Ttl())) else w.store,
              w.due + c.Step(),
              if delivered then 0 else w.missed + 1)
      case Foreign(op) => w.(store := Apply(w.store, op))
  }

  function Run(c: Config, w: Watch, moves: seq<Move>): Watch
    decreases moves
  {
    if moves == [] then w else Run(c, Do(c, w, moves[0]), moves[1..])
  }

  /** The moment Lock has been granted. */
  predicate JustGranted(c: Config, w: Watch) {
    && w.missed == 0
    && w.due == w.store.now + c.Step()
    && w.store.HeldBy(c.key, c.token)
    && w.store.entries[c.key].expiry == Some(w.store.now + c.Ttl())
  }

  predicate Safe(c: Config, w: Watch) {
    && w.store.now < w.due + c.Step()
    && w.missed <= 1
    && c.key in w.store.entries
    && w.store.entries[c.key].token == c.token
    && w.store.entries[c.key].expiry.Some?
    && w.due + (if w.missed == 0 then 2 else 1) * c.Step() <= w.store.entries[c.key].expiry.value
  }

  lemma SafeIsKept(c: Config, w: Watch, m: Move)
    requires c.expireSeconds > 0 && c.tolerated <= 1 && Safe(c, w)
    ensures Safe(c, Do(c, w, m))
  {
  }

  lemma {:induction false} SafeRun(c: Config, w: Watch, moves: seq<Move>)
    requires c.expireSeconds > 0 && c.tolerated <= 1 && Safe(c, w)
    ensures Safe(c, Run(c, w, moves))
    decreases moves
  {
    if moves != [] {
      SafeIsKept(c, w, moves[0]);
      SafeRun(c, Do(c, w, moves[0]), moves[1..]);
    }
  }

  /** Two lost renewals in a row are one too many: the third may come when the lease is gone. */
  lemma TwoLossesLoseTheLease(c: Config, w: Watch) returns (moves: seq<Move>)
    requires c.expireSeconds > 0 && c.tolerated >= 2 && JustGranted(c, w)
    ensures !Run(c, w, moves).store.Held(c.key)
  {
    var s := c.Step();
    moves := [Pass(s), Renew(false), Pass(s), Renew(false), Pass(2 * s - 1)];
    var w1 := Do(c, w, Pass(s));
    var w2 := Do(c, w1, Renew(false));
    var w3 := Do(c, w2, Pass(s));
    var w4 := Do(c, w3, Renew(false));
    var w5 := Do(c, w4, Pass(2 * s - 1));
    assert Run(c, w4, [Pass(2 * s - 1)]) == w5;
    assert Run(c, w3, moves[3..]) == w5;
    assert Run(c, w2, moves[2..]) == w5;
    assert Run(c, w1, moves[1..]) == w5;
  }

  /** The dog keeps the lease in every run exactly when no two renewals in a row may be lost. */
  lemma WatchdogKeepsLease(c: Config, w: Watch)
    requires c.expireSeconds > 0 && JustGranted(c, w)
    ensures (forall moves :: Run(c, w, moves).store.HeldBy(c.key, c.token)) <==> c.tolerated <= 1
  {
    if c.tolerated <= 1 {
      forall moves
        ensures Run(c, w, moves).store.HeldBy(c.key, c.token)
      {
        SafeRun(c, w, moves);
      }
    } else {
      var moves := TwoLossesLoseTheLease(c, w);
      assert !Run(c, w, moves).store.HeldBy(c.key, c.token);
    }
  }

  /** Once the dog has stopped, the key is gone within E of the last renewal, whatever the others do. */
  lemma StoppedDogReleases(s: Store, ops: seq<Op>, k: Key, t: Token, expireSeconds: nat)
    requires s.HeldBy(k, t) && s.entries[k].expiry == Some(s.now + expireSeconds * SECOND)
    requires forall i | 0 <= i < |ops| :: !By(ops[i], t)
    ensures After(s, ops).HeldBy(k, t) <==> After(s, ops).now < s.now + expireSeconds * SECOND
  {
    OthersCannotTouch(s, ops, k, t);
  }
}
