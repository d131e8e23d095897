/**
  The lock store: `key -> (token, expiry)` with the three atomic operations the lock
  uses (SET NX, check-token-and-expire, check-token-and-delete) and the passage of time.
  A lease is alive strictly before its expiry.  The unit of time is left to the caller.
 */
module Redis {
  import opened Wrappers

  type Key = string

  // A token stands for the uuid drawn for each lock object.
  type Token = nat

  datatype Entry = Entry(token: Token, expiry: Option<int>) {
    predicate AliveAt(t: int) {
      expiry.None? || t < expiry.value
    }
  }

  datatype Store = Store(now: int, entries: map<Key, Entry>) {
    predicate Held(k: Key) {
      k in entries && entries[k].AliveAt(now)
    }

    predicate HeldBy(k: Key, t: Token) {
      Held(k) && entries[k].token == t
    }
  }

  datatype Op =
    | Advance(delta: nat)
    | SetNX(key: Key, token: Token, ttl: nat)            // ttl 0: no expiry
    | ExpireIfOwner(key: Key, token: Token, duration: int)    // duration <= 0 removes the key
    | DeleteIfOwner(key: Key, token: Token)

  predicate By(op: Op, t: Token) {
    !op.Advance? && op.token == t
  }

  function Deadline(now: int, ttl: nat): Option<int> {
    if ttl == 0 then None else Some(now + ttl)
  }

  function Reply(s: Store, op: Op): bool {
    match op
    case Advance(_) => true
    case SetNX(k, _, _) => !s.Held(k)
    case ExpireIfOwner(k, t, _) => s.HeldBy(k, t)
    case DeleteIfOwner(k, t) => s.HeldBy(k, t)
  }

  function Apply(s: Store, op: Op): Store {
    if !Reply(s, op) then s
    else
      match op
      case Advance(delta) => s.(now := s.now + delta)
      case SetNX(k, t, ttl) => s.(entries := s.entries[k := Entry(t, Deadline(s.now, ttl))])
      case ExpireIfOwner(k, t, ttl) => s.(entries := s.entries[k := Entry(t, Some(s.now + ttl))])
      case DeleteIfOwner(k, _) => s.(entries := s.entries - {k})
  }

  function After(s: Store, ops: seq<Op>): Store {
    if ops == [] then s else Apply(After(s, ops[..|ops| - 1]), ops[|ops| - 1])
  }

  lemma AfterStep(s: Store, ops: seq<Op>, op: Op)
    ensures After(s, ops + [op]) == Apply(After(s, ops), op)
  {
    assert (ops + [op])[..|ops|] == ops;
  }

  /** The operations of one client, each with the answer the store gave it. */
  datatype Event = Event(op: Op, reply: bool)

  function OwnEvents(s: Store, ops: seq<Op>, t: Token): seq<Event> {
    if ops == [] then []
    else
      var init := ops[..|ops| - 1];
      var op := ops[|ops| - 1];
      OwnEvents(s, init, t) + if By(op, t) then [Event(op, Reply(After(s, init), op))] else []
  }

  lemma OwnEventsStep(s: Store, ops: seq<Op>, op: Op, t: Token)
    ensures OwnEvents(s, ops + [op], t)
         == OwnEvents(s, ops, t) + if By(op, t) then [Event(op, Reply(After(s, ops), op))] else []
  {
    assert (ops + [op])[..|ops|] == ops;
  }

  /** The i-th own event tells how the store answered the operation at its moment, after i own ones. */
  lemma {:induction false} OwnEventAt(s: Store, ops: seq<Op>, t: Token, i: nat) returns (j: nat)
    requires i < |OwnEvents(s, ops, t)|
    ensures j < |ops| && By(ops[j], t) && |OwnEvents(s, ops[..j], t)| == i
    ensures OwnEvents(s, ops, t)[i] == Event(ops[j], Reply(After(s, ops[..j]), ops[j]))
  {
    var init := ops[..|ops| - 1];
    if i < |OwnEvents(s, init, t)| {
      j := OwnEventAt(s, init, t, i);
      assert init[..j] == ops[..j];
    } else {
      j := |ops| - 1;
    }
  }

  /**
    What a client can conclude about its lease on `k` from its own answers and the clock
    alone: None when it has no lease, otherwise the expiry it last obtained.
   */
  function View(s: Store, ops: seq<Op>, k: Key, t: Token): Option<Option<int>> {
    if ops == [] then None
    else
      var init := ops[..|ops| - 1];
      var op := ops[|ops| - 1];
      var now := After(s, init).now;
      if By(op, t) && op.key == k && Reply(After(s, init), op) then
        match op
        case SetNX(_, _, ttl) => Some(Deadline(now, ttl))
        case ExpireIfOwner(_, _, ttl) => Some(Some(now + ttl))
        case DeleteIfOwner(_, _) => None
      else View(s, init, k, t)
  }

  ghost predicate BelievesHeld(s: Store, ops: seq<Op>, k: Key, t: Token) {
    var v := View(s, ops, k, t);
    v.Some? && (v.value.None? || After(s, ops).now < v.value.value)
  }

  /** A client's own answers tell it exactly whether it holds the key, whatever others do. */
  lemma {:induction false} ViewIsExact(s: Store, ops: seq<Op>, k: Key, t: Token)
    requires !s.HeldBy(k, t)
    ensures After(s, ops).HeldBy(k, t) <==> BelievesHeld(s, ops, k, t)
    ensures After(s, ops).HeldBy(k, t) ==> View(s, ops, k, t) == Some(After(s, ops).entries[k].expiry)
  {
    if ops != [] {
      ViewIsExact(s, ops[..|ops| - 1], k, t);
    }
  }

  /** Mutual exclusion over whole runs: no two clients can both conclude that they hold a key. */
  lemma {:induction false} MutualExclusion(s: Store, ops: seq<Op>, k: Key, t1: Token, t2: Token)
    requires !s.Held(k)
    requires BelievesHeld(s, ops, k, t1) && BelievesHeld(s, ops, k, t2)
    ensures t1 == t2
  {
    ViewIsExact(s, ops, k, t1);
    ViewIsExact(s, ops, k, t2);
  }

  lemma {:induction false} ClockIsMonotone(s: Store, ops: seq<Op>)
    ensures s.now <= After(s, ops).now
  {
    if ops != [] {
      ClockIsMonotone(s, ops[..|ops| - 1]);
    }
  }

  /**
    Operations of other tokens (a late ack, a late renewal, a loser's deferred unlock)
    neither delete nor extend nor shorten a live entry: up to its own expiry it stays as it
    was, and from then on its owner does not hold the key.
   */
  lemma {:induction false} OthersCannotTouch(s: Store, ops: seq<Op>, k: Key, t: Token)
    requires s.HeldBy(k, t)
    requires forall i | 0 <= i < |ops| :: !By(ops[i], t)
    ensures After(s, ops).HeldBy(k, t) <==> s.entries[k].AliveAt(After(s, ops).now)
    ensures After(s, ops).HeldBy(k, t) ==> After(s, ops).entries[k] == s.entries[k]
  {
    if ops != [] {
      var init := ops[..|ops| - 1];
      OthersCannotTouch(s, init, k, t);
      ClockIsMonotone(s, init);
    }
  }

  /** The store as an object.  `ops` records every operation that reached it. */
  class Server {
    var now: int
    var entries: map<Key, Entry>
    ghost const origin: Store
    ghost var ops: seq<Op>

    ghost predicate Valid()
      reads this
    {
      Contents() == After(origin, ops)
    }

    ghost function Contents(): Store
      reads this
    {
      Store(now, entries)
    }

    ghost function Own(t: Token): seq<Event>
      reads this
    {
      OwnEvents(origin, ops, t)
    }

    constructor (t: int)
      ensures Valid() && ops == [] && Contents() == Store(t, map[])
    {
      now, entries := t, map[];
      origin, ops := Store(t, map[]), [];
    }

    /** The contract every operation of the server meets: the store moves by `op`, which is recorded. */
    twostate predicate Performed(op: Op, reply: bool)
      reads this
    {
      && Valid()
      && ops == old(ops) + [op]
      && Contents() == Apply(old(Contents()), op)
      && reply == Reply(old(Contents()), op)
      && (forall t :: Own(t) == old(Own(t)) + if By(op, t) then [Event(op, reply)] else [])
    }

    twostate lemma Record(op: Op)
      requires old(Valid())
      requires ops == old(ops) + [op]
      requires Contents() == Apply(old(Contents()), op)
      ensures Performed(op, Reply(old(Contents()), op))
    {
      AfterStep(origin, old(ops), op);
      forall t {
        OwnEventsStep(origin, old(ops), op, t);
      }
    }

    method Pass(delta: nat)
      requires Valid()
      modifies this
      ensures Performed(Advance(delta), true)
    {
      now := now + delta;
      ops := ops + [Advance(delta)];
      Record(Advance(delta));
    }

    method SetIfAbsent(key: Key, token: Token, ttl: nat) returns (ok: bool)
      requires Valid()
      modifies this
      ensures Performed(SetNX(key, token, ttl), ok)
    {
      if key in entries && entries[key].AliveAt(now) {
        ok := false;
      } else {
        entries := entries[key := Entry(token, Deadline(now, ttl))];
        ok := true;
      }
      ops := ops + [SetNX(key, token, ttl)];
      Record(SetNX(key, token, ttl));
    }

    method CheckAndExpire(key: Key, token: Token, ttl: int) returns (ok: bool)
      requires Valid()
      modifies this
      ensures Performed(ExpireIfOwner(key, token, ttl), ok)
    {
      if !(key in entries && entries[key].AliveAt(now)) || entries[key].token != token {
        ok := false;
      } else {
        entries := entries[key := Entry(token, Some(now + ttl))];
        ok := true;
      }
      ops := ops + [ExpireIfOwner(key, token, ttl)];
      Record(ExpireIfOwner(key, token, ttl));
    }

    method CheckAndDelete(key: Key, token: Token) returns (ok: bool)
      requires Valid()
      modifies this
      ensures Performed(DeleteIfOwner(key, token), ok)
    {
      if !(key in entries && entries[key].AliveAt(now)) || entries[key].token != token {
        ok := false;
      } else {
        entries := entries - {key};
        ok := true;
      }
      ops := ops + [DeleteIfOwner(key, token)];
      Record(DeleteIfOwner(key, token));
    }

    /** The given time passes, and then other clients run any operations, in any order. */
    method Foreign(me: Token, delta: nat)
      requires Valid()
      modifies this
      ensures Valid() && Own(me) == old(Own(me)) && now == old(now) + delta
      ensures old(ops) <= ops && forall i | |old(ops)| <= i < |ops| :: !By(ops[i], me)
    {
      Pass(delta);
      var n :| 0 <= n;
      for i := 0 to n
        invariant Valid() && Own(me) == old(Own(me)) && now == old(now) + delta
        invariant old(ops) <= ops && forall i | |old(ops)| <= i < |ops| :: !By(ops[i], me)
      {
        var op: Op := *;
        if !By(op, me) {
          match op
          case Advance(_) =>
          case SetNX(k, t, ttl) => var _ := SetIfAbsent(k, t, ttl);
          case ExpireIfOwner(k, t, ttl) => var _ := CheckAndExpire(k, t, ttl);
          case DeleteIfOwner(k, t) => var _ := CheckAndDelete(k, t);
        }
      }
    }

    /** Time passes and other clients run any operations, in any order. */
    method Others(me: Token)
      requires Valid()
      modifies this
      ensures Valid() && Own(me) == old(Own(me)) && old(now) <= now
      ensures old(ops) <= ops && forall i | |old(ops)| <= i < |ops| :: !By(ops[i], me)
    {
      var n :| 0 <= n;
      for i := 0 to n
        invariant Valid() && Own(me) == old(Own(me)) && old(now) <= now
        invariant old(ops) <= ops && forall i | |old(ops)| <= i < |ops| :: !By(ops[i], me)
      {
        var op: Op := *;
        if !By(op, me) {
          match op
          case Advance(delta) => Pass(delta);
          case SetNX(k, t, ttl) => var _ := SetIfAbsent(k, t, ttl);
          case ExpireIfOwner(k, t, ttl) => var _ := CheckAndExpire(k, t, ttl);
          case DeleteIfOwner(k, t) => var _ := CheckAndDelete(k, t);
        }
      }
    }
  }
}
