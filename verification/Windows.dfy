/** The windows of g seconds that tile a minute; window k starts k * g seconds into it. */
module Windows {
  import opened Clock
  import T = TriggerWork

  function Span(g: nat, k: nat): nat {
    T.Covered(g, k) * SECOND
  }

  /** t lies in window k of the minute that starts at `minute`. */
  predicate InWindow(g: nat, minute: int, t: int, k: nat) {
    minute + Span(g, k) <= t < minute + Span(g, k + 1)
  }

  lemma SpanMonotone(g: nat, j: nat, k: nat)
    requires j <= k
    ensures Span(g, j) <= Span(g, k)
  {
    T.CoveredMonotone(g, j, k);
  }

  lemma WindowsAreDisjoint(g: nat, minute: int, t: int, j: nat, k: nat)
    requires InWindow(g, minute, t, j) && InWindow(g, minute, t, k)
    ensures j == k
  {
    if j < k {
      SpanMonotone(g, j + 1, k);
    } else if k < j {
      SpanMonotone(g, k + 1, j);
    }
  }

  lemma WindowsCoverTheMinute(g: nat, minute: int, t: int) returns (k: nat)
    requires g > 0 && minute <= t < minute + MINUTE
    ensures k < T.Windows(g) && InWindow(g, minute, t, k)
  {
    k := CoveredUpTo(g, minute, t, T.Windows(g));
  }

  lemma {:induction false} CoveredUpTo(g: nat, minute: int, t: int, n: nat) returns (k: nat)
    requires minute <= t < minute + Span(g, n)
    ensures k < n && InWindow(g, minute, t, k)
  {
    if minute + Span(g, n - 1) <= t {
      k := n - 1;
    } else {
      k := CoveredUpTo(g, minute, t, n - 1);
    }
  }
}
