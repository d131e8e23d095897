/**
  Expanding a cron expression over a stretch of time.  An expression is the strictly
  ascending sequence of its firings; the library's `Next` is a search in it that returns the
  zero time, whose UnixNano is negative, when no firing is left.
 */
module Cron {
  import opened Wrappers

  type Expr = e: seq<int> | Ascending(e)

  const ZERO_TIME := -1

  predicate Ascending(xs: seq<int>) {
    forall i, j | 0 <= i < j < |xs| :: xs[i] < xs[j]
  }

  function Next(e: Expr, t: int): (next: int)
    ensures || (next in e && t < next && forall f | f in e && t < f :: next <= f)
            || (next == ZERO_TIME && forall f | f in e :: f <= t)
  {
    if e == [] then ZERO_TIME
    else
    assert e == [e[0]] + e[1..];
    if t < e[0] then e[0]
    else Next(e[1..], t)
  }

  /** f is after start, and no firing lies between end (included) and f. */
  ghost predicate InExpansion(e: Expr, start: int, end: int, f: int) {
    f in e && start < f && forall g | g in e && end <= g :: f <= g
  }

  /** The expansion has run out of firings, or met one before 1970, whose UnixNano is negative too. */
  ghost predicate RunsOut(e: Expr, start: int, end: int) {
    start < end && ((forall f | f in e :: f < end) || exists f | f in e :: start < f < 0)
  }

  /** The loop has collected every firing after start up to `at`, the last of them. */
  ghost predicate Walked(e: Expr, start: int, end: int, at: int, found: seq<int>) {
    && Ascending(found)
    && (if found == [] then at == start else found[|found| - 1] == at && start < at && start < end)
    && (forall i | 0 <= i < |found| - 1 :: found[i] < end)
    && (forall f | f in found :: f in e)
    && (forall f | f in e && start < f <= at :: f in found)
    && (forall f | f in found :: start < f <= at && 0 <= f)
  }

  lemma WalkOn(e: Expr, start: int, end: int, at: int, found: seq<int>, next: int)
    requires Walked(e, start, end, at, found) && at < end
    requires next == Next(e, at) && 0 <= next
    ensures Walked(e, start, end, next, found + [next])
  {
    assert forall i | 0 <= i < |found| :: found[i] in found;
    assert forall f | f in found + [next] :: f in found || f == next;
  }

  lemma WalkRunsOut(e: Expr, start: int, end: int, at: int, found: seq<int>)
    requires Walked(e, start, end, at, found) && at < end && Next(e, at) < 0
    ensures RunsOut(e, start, end)
  {
  }

  lemma WalkEnds(e: Expr, start: int, end: int, at: int, found: seq<int>)
    requires Walked(e, start, end, at, found) && start < end <= at
    ensures !RunsOut(e, start, end)
    ensures forall f :: f in found <==> InExpansion(e, start, end, f)
  {
    assert at in found;
    forall f | f in found
      ensures InExpansion(e, start, end, f)
    {
      var i :| 0 <= i < |found| && found[i] == f;
      forall g | g in e && end <= g
        ensures f <= g
      {
        assert g <= at ==> g in found;
        assert forall j | 0 <= j < |found| - 1 :: found[j] != g;
      }
    }
  }

  /**
    On success the result is strictly ascending and holds exactly the firings after start and
    before end, then the first firing at or after end (nothing at all when start equals end).
   */
  method NextsBetween(cron: Option<Expr>, start: int, end: int) returns (nexts: Option<seq<int>>)
    ensures nexts == None <==> end < start || cron == None || RunsOut(cron.value, start, end)
    ensures nexts.Some? ==> Ascending(nexts.value)
    ensures nexts.Some? ==> forall f :: f in nexts.value <==> start < end && InExpansion(cron.value, start, end, f)
    ensures nexts.Some? && start < end ==> nexts.value != [] && end <= nexts.value[|nexts.value| - 1]
  {
    if end < start || cron == None {
      return None;
    }
    var e, at := cron.value, start;
    var found: seq<int> := [];
    while at < end
      invariant Walked(e, start, end, at, found)
      decreases end - at
    {
      var next := Next(e, at);
      if next < 0 {
        WalkRunsOut(e, start, end, at, found);
        return None;
      }
      WalkOn(e, start, end, at, found, next);
      found := found + [next];
      at := next;
    }
    nexts := Some(found);
    if start < end {
      WalkEnds(e, start, end, at, found);
    }
  }

  /** Membership and order leave no choice: the expansion is one sequence. */
  lemma {:induction false} ExpansionIsUnique(xs: seq<int>, ys: seq<int>)
    requires Ascending(xs) && Ascending(ys)
    requires forall f :: f in xs <==> f in ys
    ensures xs == ys
  {
    assert (xs != [] ==> xs[0] in xs && xs[|xs| - 1] in xs) && (ys != [] ==> ys[0] in ys && ys[|ys| - 1] in ys);
    if xs != [] {
      var x, y := xs[|xs| - 1], ys[|ys| - 1];
      assert x == y;
      var xs', ys' := xs[..|xs| - 1], ys[..|ys| - 1];
      forall f
        ensures f in xs' <==> f in ys'
      {
        assert f in xs' <==> f in xs && f != x;
        assert f in ys' <==> f in ys && f != y;
      }
      ExpansionIsUnique(xs', ys');
    }
  }
}
