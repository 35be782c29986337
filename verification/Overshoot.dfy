/** How high the usage of a cluster of n cores with budget b can rise, in numbers. */
module Overshoot {
  import opened MachineInts

  function Min(a: int, b: int): int { if a <= b then a else b }
  function Max(a: int, b: int): int { if a >= b then a else b }

  lemma OneMore(f: int, e: int)
    ensures (f + 1) * e == f * e + e
  {
  }

  lemma Twice(a: int, e: int)
    ensures a * (2 * e) == 2 * (a * e)
  {
  }

  /** The cluster is throttled in the first tick after a reset, when `j` cores have finished it: they
      have charged at most two intervals each and at most the budget together, and have another
      interval to charge; every other core has two. */
  function Early(n: nat, e: nat, b: nat, j: nat): int {
    Min(2 * (j * e), b) + 2 * (n * e) - j * e
  }

  function EarlyBelow(n: nat, e: nat, b: nat, j: nat): int {
    if j == 0 then b + n * e else Max(EarlyBelow(n, e, b, j - 1), Early(n, e, b, j - 1))
  }

  /** The worst of being throttled in the first tick after 0, ..., n - 1 cores have finished it, and of
      being throttled in a later tick, when one interval of every core is left to charge. */
  function Peak(n: nat, e: nat, b: nat): int {
    EarlyBelow(n, e, b, n)
  }

  lemma {:induction false} EarlyBelowIsMax(n: nat, e: nat, b: nat, j: nat)
    ensures b + n * e <= EarlyBelow(n, e, b, j)
    ensures forall i :: 0 <= i < j ==> Early(n, e, b, i) <= EarlyBelow(n, e, b, j)
    ensures EarlyBelow(n, e, b, j) == b + n * e || exists i :: 0 <= i < j && EarlyBelow(n, e, b, j) == Early(n, e, b, i)
  {
    if j > 0 { EarlyBelowIsMax(n, e, b, j - 1); }
  }

  /** `Peak` is the maximum of the two scenarios. */
  lemma PeakIsMax(n: nat, e: nat, b: nat)
    ensures b + n * e <= Peak(n, e, b)
    ensures forall j :: 0 <= j <= n ==> Early(n, e, b, j) <= Peak(n, e, b)
    ensures Peak(n, e, b) == b + n * e || exists j :: 0 <= j < n && Peak(n, e, b) == Early(n, e, b, j)
  {
    EarlyBelowIsMax(n, e, b, n);
  }

  lemma PeakBounds(n: nat, e: nat, b: nat)
    ensures Peak(n, e, b) <= b + 2 * (n * e)
  {
    PeakIsMax(n, e, b);
    if j :| 0 <= j < n && Peak(n, e, b) == Early(n, e, b, j) {
      assert 0 <= j * e;
    }
  }

  lemma FewerThan(j: nat, n: nat, e: nat)
    requires j < n
    ensures j * e <= n * e - e
    ensures j + 1 < n ==> j * e <= n * e - 2 * e
  {
    MulLe(j + 1, n, e);
    assert (j + 1) * e == j * e + e;
    if j + 1 < n {
      MulLe(j + 2, n, e);
      assert (j + 2) * e == j * e + 2 * e;
    }
  }

  /** Cores that fit the budget with two intervals each, when it is below 2n - 1 intervals. */
  lemma FittingCores(n: nat, e: nat, b: nat) returns (j: nat)
    requires n > 0 && e > 0 && b < 2 * (n * e) - e
    ensures j < n && 2 * (j * e) <= b < 2 * (j * e) + 2 * e
  {
    j := 0;
    while 2 * ((j + 1) * e) <= b
      invariant j < n && 2 * (j * e) <= b
      decreases n - j
    {
      if n <= j + 1 { MulLe(n, j + 1, e); }
      j := j + 1;
    }
    assert (j + 1) * e == j * e + e;
  }

  lemma TooEarly(n: nat, e: nat, b: nat, j: nat)
    requires j < n && b < 2 * (n * e) - e && 2 * (j * e) <= b < 2 * (j * e) + 2 * e
    ensures Early(n, e, b, j) > b + n * e
  {
    FewerThan(j, n, e);
    if j + 1 == n { assert j * e == n * e - e; }
  }

  /** One interval per core is enough exactly from a budget of 2n - 1 intervals on. */
  lemma OneIntervalFrom(n: nat, e: nat, b: nat)
    requires n > 0 && e > 0
    ensures Peak(n, e, b) <= b + n * e <==> b >= 2 * (n * e) - e
  {
    PeakIsMax(n, e, b);
    if b >= 2 * (n * e) - e {
      if j :| 0 <= j < n && Peak(n, e, b) == Early(n, e, b, j) {
        FewerThan(j, n, e);
      }
    } else {
      var j := FittingCores(n, e, b);
      TooEarly(n, e, b, j);
    }
  }
}
