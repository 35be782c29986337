/** Budgets in MB/s, cache-line events and bytes; periods in aggregation ticks. */
module Conversion {
  import opened MachineInts

  const CACHE_LINE: nat := 64
  const MB: nat := 1024 * 1024
  const SECOND_US: nat := 1000000

  /** Regulation periods per second, rounded down. */
  function Rate(periodUs: int): (q: nat)
    requires 0 < periodUs <= SECOND_US
    ensures 1 <= q && q * periodUs <= SECOND_US < q * periodUs + periodUs
  {
    DivLower(1, periodUs, SECOND_US);
    SECOND_US / periodUs
  }

  /** `convert_mb_to_events`, in 64-bit arithmetic. */
  function MbToEvents(mb: int, periodUs: int): nat
    requires 0 < periodUs <= SECOND_US
  {
    var bytes := ((mb % TWO_64) * 1024 % TWO_64) * 1024 % TWO_64;
    var factor := CACHE_LINE * Rate(periodUs);
    DivLower(0, factor, bytes);
    bytes / factor
  }

  /** `convert_events_to_mb`: 64-bit arithmetic, truncated to an int on return. */
  function EventsToMb(events: nat, periodUs: int): int
    requires 0 < periodUs <= SECOND_US
  {
    var divisor := periodUs * 1024 * 1024;
    Wrap32((events * CACHE_LINE % TWO_64 * SECOND_US % TWO_64 + (divisor - 1)) % TWO_64 / divisor)
  }

  /** `convert_bytes_to_events` applied to an int, which is sign-extended to 64 bits; the quotient
      is truncated to an int. */
  function BytesToEvents(bytes: int): int {
    Wrap32(bytes % TWO_64 / CACHE_LINE)
  }

  /** `ceiling` on ints; C division truncates, which for these arguments is the floor. */
  function Ceiling(a: int, b: int): int
    requires 0 <= a && 0 < b
  {
    (a + b - 1) / b
  }

  /** Negative byte counts, which arise from cleaned mailbox words, are charged as a negative
      number of events: the conversion is the floor of bytes / 64 over the whole int range. */
  lemma BytesToEventsIsFloor(bytes: int)
    requires -TWO_31 <= bytes < TWO_31
    ensures BytesToEvents(bytes) == bytes / 64
  {
    if bytes < 0 {
      var q, r := bytes / 64, bytes % 64;
      DivUnique(bytes, TWO_64, -1, bytes + TWO_64);
      DivUnique(bytes + TWO_64, 64, q + 0x400_0000_0000_0000, r);
    }
  }

  /** M aggregation ticks cover the regulation period and less than one tick more. */
  lemma PeriodRounding(regulationUs: int, aggregationUs: int)
    requires 0 <= regulationUs && 0 < aggregationUs
    ensures var M := Ceiling(regulationUs, aggregationUs);
      regulationUs <= M * aggregationUs < regulationUs + aggregationUs
  {
    var x := regulationUs + aggregationUs - 1;
    assert x == (x / aggregationUs) * aggregationUs + x % aggregationUs;
  }

  /** A period has a single tick if and only if it is not longer than an aggregation tick. */
  lemma OneTickIff(regulationUs: int, aggregationUs: int)
    requires 0 < regulationUs && 0 < aggregationUs
    ensures Ceiling(regulationUs, aggregationUs) == 1 <==> regulationUs <= aggregationUs
  {
    var x := regulationUs + aggregationUs - 1;
    if regulationUs <= aggregationUs {
      DivUnique(x, aggregationUs, 1, x - aggregationUs);
    } else {
      DivLower(2, aggregationUs, x);
    }
  }

  lemma MulLess(a: int, b: int, m: int)
    requires a < b && 0 < m
    ensures a * m < b * m
  {
  }

  lemma CancelRight(a: int, b: int, m: int)
    requires m > 0 && a * m <= b * m
    ensures a <= b
  {
    if b < a { MulLess(b, a, m); }
  }

  /** No int budget overflows 64 bits: the conversion is one exact division. */
  lemma MbToEventsExact(mb: nat, periodUs: int)
    requires 0 < periodUs <= SECOND_US && mb < TWO_31
    ensures MbToEvents(mb, periodUs) == mb * 16384 / Rate(periodUs)
  {
    NoWrap(mb);
    NoWrap(mb * 1024);
    NoWrap(mb * 1024 * 1024);
    DivCommon(mb * 16384, Rate(periodUs));
  }

  /** Any argument: the bytes are reduced once, modulo 2^64, so a negative number of MB becomes a huge number
      of events. */
  lemma MbToEventsAny(mb: int, periodUs: int)
    requires 0 < periodUs <= SECOND_US
    ensures 64 * Rate(periodUs) > 0 && MbToEvents(mb, periodUs) == mb * MB % TWO_64 / (64 * Rate(periodUs))
    ensures -TWO_31 <= mb < 0 ==> MbToEvents(mb, periodUs) >= (TWO_64 - TWO_31 * MB) / (64 * Rate(periodUs))
  {
    MulMod(mb, 1024);
    MulMod(mb * 1024, 1024);
    assert mb * 1024 * 1024 == mb * MB;
    if -TWO_31 <= mb < 0 {
      DivUnique(mb * MB, TWO_64, -1, mb * MB + TWO_64);
      DivMono(TWO_64 - TWO_31 * MB, mb * MB + TWO_64, 64 * Rate(periodUs));
    }
  }

  lemma MulMod(x: int, k: int)
    ensures (x % TWO_64) * k % TWO_64 == x * k % TWO_64
  {
    var q := x / TWO_64;
    assert x * k == (x % TWO_64) * k + q * k * TWO_64 by { assert x == q * TWO_64 + x % TWO_64; }
    ModShift((x % TWO_64) * k, TWO_64, q * k);
  }

  lemma DivMono(a: int, b: int, m: int)
    requires a <= b && m > 0
    ensures a / m <= b / m
  {
    DivLower(a / m, m, b);
  }

  lemma DivCommon(x: nat, q: nat)
    requires q >= 1
    ensures 64 * q > 0 && 64 * x / (64 * q) == x / q
  {
    var e, r := x / q, x % q;
    assert x == e * q + r;
    assert e * (64 * q) == 64 * (e * q);
    DivUnique(64 * x, 64 * q, e, 64 * r);
  }

  /** At least the floor of the exact value. */
  lemma NotBelowFloor(x: nat, q: nat, T: nat)
    requires 1 <= q && 1 <= T && q * T <= SECOND_US
    ensures x * T / SECOND_US <= x / q
  {
    var f := x * T / SECOND_US;
    assert f * SECOND_US <= x * T;
    MulLe(q * T, SECOND_US, f);
    assert (f * q) * T == q * T * f;
    CancelRight(f * q, x, T);
    DivLower(f, q, x);
  }

  /** Below twice the exact value. */
  lemma BelowTwice(x: nat, q: nat, T: nat)
    requires 1 <= q && 1 <= T && SECOND_US < q * T + T && x > 0
    ensures x / q * SECOND_US < 2 * (x * T)
  {
    var e := x / q;
    MulLe(1, q, T);
    if e == 0 {
      MulLe(1, x, T);
    } else {
      assert e * q <= x;
      MulLe(e * q, x, T);
      MulLess(SECOND_US, 2 * (q * T), e);
      assert 2 * (q * T) * e == 2 * (e * q * T);
    }
  }

  /** The budget in events against its exact value mb * 16384 * T_R / 10^6: at least its floor, and
      for mb > 0 less than twice it. */
  lemma BudgetAccuracy(mb: nat, periodUs: int)
    requires 0 < periodUs <= SECOND_US && mb < TWO_31
    ensures mb * 16384 * periodUs / SECOND_US <= MbToEvents(mb, periodUs)
    ensures mb > 0 ==> MbToEvents(mb, periodUs) * SECOND_US < 2 * (mb * 16384 * periodUs)
  {
    MbToEventsExact(mb, periodUs);
    NotBelowFloor(mb * 16384, Rate(periodUs), periodUs);
    if mb > 0 { BelowTwice(mb * 16384, Rate(periodUs), periodUs); }
  }

  lemma QuotientBelow(x: nat, q: nat, bound: nat)
    requires q >= 1
    ensures x / q < bound <==> x < bound * q
  {
    if x / q < bound {
      MulLe(x / q + 1, bound, q);
    } else {
      MulLe(bound, x / q, q);
    }
  }

  /** The budget in events is stored in an int: it survives exactly when it is below 131072 MB per
      period and second. */
  lemma StoredBudgetExactIff(mb: nat, periodUs: int)
    requires 0 < periodUs <= SECOND_US && mb < TWO_31
    ensures Wrap32(MbToEvents(mb, periodUs)) == MbToEvents(mb, periodUs) <==> mb < 131072 * Rate(periodUs)
  {
    MbToEventsExact(mb, periodUs);
    QuotientBelow(mb * 16384, Rate(periodUs), TWO_31);
    WrapBelow(MbToEvents(mb, periodUs));
  }

  /** The way back fits 64 bits, and its result fits an int. */
  ghost predicate ConvertsBack(events: nat, periodUs: int)
    requires 0 < periodUs <= SECOND_US
  {
    && events * 64000000 + periodUs * MB - 1 < TWO_64
    && (events * 64000000 + periodUs * MB - 1) / (periodUs * MB) < TWO_31
  }

  lemma NoWrap(x: int)
    requires 0 <= x < TWO_64
    ensures x % TWO_64 == x
  {
  }

  lemma EventsToMbExact(events: nat, periodUs: int)
    requires 0 < periodUs <= SECOND_US && ConvertsBack(events, periodUs)
    ensures EventsToMb(events, periodUs) == (events * 64000000 + periodUs * MB - 1) / (periodUs * MB)
  {
    var d := periodUs * 1024 * 1024;
    assert d == periodUs * MB;
    var n := events * 64000000 + d - 1;
    DivLower(0, d, n);
    NoWrap(events * CACHE_LINE);
    NoWrap(events * 64000000);
    NoWrap(n);
    WrapBelow(n / d);
  }

  /** Any number of events: the numerator is reduced once, modulo 2^64, and the quotient is cut to an int. */
  lemma EventsToMbAny(events: nat, periodUs: int)
    requires 0 < periodUs <= SECOND_US
    ensures EventsToMb(events, periodUs) ==
      Wrap32((events * 64000000 + periodUs * MB - 1) % TWO_64 / (periodUs * MB))
  {
    var d := periodUs * 1024 * 1024;
    assert d == periodUs * MB;
    MulMod(events * 64, SECOND_US);
    AddMod(events * 64000000, d - 1);
  }

  lemma AddMod(x: int, y: int)
    ensures (x % TWO_64 + y) % TWO_64 == (x + y) % TWO_64
  {
    ModShift(x % TWO_64 + y, TWO_64, x / TWO_64);
  }

  /** A rounded-up quotient reaches `m` exactly when the numerator exceeds m - 1 divisors. */
  lemma CeilingReaches(n: nat, d: int, m: int)
    requires d > 0
    ensures m <= (n + d - 1) / d <==> (m - 1) * d < n
  {
    var c := (n + d - 1) / d;
    assert c * d <= n + d - 1 < c * d + d;
    if m <= c {
      MulLe(m - 1, c - 1, d);
      assert (c - 1) * d == c * d - d;
    } else {
      MulLe(c, m - 1, d);
    }
  }

  /** Converting a budget to events and back never loses a megabyte for periods of 62 us or more,
      and is exact when the period also divides a second. */
  lemma RoundTrip(mb: nat, periodUs: int)
    requires 62 <= periodUs <= SECOND_US && mb < TWO_31 && ConvertsBack(MbToEvents(mb, periodUs), periodUs)
    ensures mb <= EventsToMb(MbToEvents(mb, periodUs), periodUs)
    ensures SECOND_US % periodUs == 0 ==> EventsToMb(MbToEvents(mb, periodUs), periodUs) == mb
  {
    var e := MbToEvents(mb, periodUs);
    MbToEventsExact(mb, periodUs);
    EventsToMbExact(e, periodUs);
    RateBound(periodUs);
    WayBack(mb, Rate(periodUs), periodUs, e);
    if SECOND_US % periodUs == 0 { RateDivides(periodUs); }
  }

  lemma RateDivides(periodUs: int)
    requires 0 < periodUs <= SECOND_US && SECOND_US % periodUs == 0
    ensures Rate(periodUs) * periodUs == SECOND_US
  {
    assert SECOND_US == SECOND_US / periodUs * periodUs + SECOND_US % periodUs;
  }

  lemma WayBack(mb: nat, q: nat, T: nat, e: nat)
    requires 1 <= q <= 16384 && 1 <= T && q * T <= SECOND_US && e == mb * 16384 / q
    ensures T * MB > 0 && mb <= (e * 64000000 + T * MB - 1) / (T * MB)
    ensures q * T == SECOND_US ==> (e * 64000000 + T * MB - 1) / (T * MB) == mb
  {
    NothingLost(mb, q, T, e);
    CeilingReaches(e * 64000000, T * MB, mb);
    if q * T == SECOND_US {
      NothingGained(mb, q, T, e);
      CeilingReaches(e * 64000000, T * MB, mb + 1);
    }
  }

  lemma RateBound(periodUs: int)
    requires 62 <= periodUs <= SECOND_US
    ensures Rate(periodUs) <= 16384
  {
    if Rate(periodUs) > 16384 { MulLe(16384, Rate(periodUs), periodUs); }
  }

  lemma NothingLost(mb: nat, q: nat, T: nat, e: nat)
    requires 1 <= q <= 16384 && 1 <= T && q * T <= SECOND_US && e == mb * 16384 / q
    ensures (mb - 1) * (T * MB) < e * 64000000
  {
    assert mb * 16384 < e * q + q;
    assert (mb - 1) * 16384 < e * q;
    MulLess((mb - 1) * 16384, e * q, 64 * T);
    MulLe(q * T, SECOND_US, 64 * e);
    assert e * q * (64 * T) == q * T * (64 * e);
    assert (mb - 1) * 16384 * (64 * T) == (mb - 1) * (T * MB);
  }

  lemma NothingGained(mb: nat, q: nat, T: nat, e: nat)
    requires 1 <= q && 1 <= T && q * T == SECOND_US && e == mb * 16384 / q
    ensures e * 64000000 <= mb * (T * MB)
  {
    assert e * q <= mb * 16384;
    MulLe(e * q, mb * 16384, 64 * T);
    assert e * q * (64 * T) == q * T * (64 * e);
    assert mb * 16384 * (64 * T) == mb * (T * MB);
  }

  /** Below 62 us the smallest budget is rounded away: no event, hence no megabyte back. */
  lemma SmallBudgetLost(periodUs: int)
    requires 0 < periodUs < 62
    ensures MbToEvents(1, periodUs) == 0 && ConvertsBack(0, periodUs) && EventsToMb(0, periodUs) == 0
  {
    var q := Rate(periodUs);
    assert q > 16384 by {
      MulLe(periodUs, 61, q + 1);
    }
    MbToEventsExact(1, periodUs);
    DivUnique(16384, q, 0, 16384);
    var d := periodUs * MB;
    DivUnique(d - 1, d, 0, d - 1);
    EventsToMbExact(0, periodUs);
  }

  /** No budget loses a megabyte on the way to events and back exactly for periods from 62 us on. */
  lemma RoundTripExactlyFrom62(periodUs: int)
    requires 0 < periodUs <= SECOND_US
    ensures periodUs >= 62 <==>
      forall mb: nat :: mb < TWO_31 && ConvertsBack(MbToEvents(mb, periodUs), periodUs)
        ==> mb <= EventsToMb(MbToEvents(mb, periodUs), periodUs)
  {
    if periodUs >= 62 {
      forall mb: nat | mb < TWO_31 && ConvertsBack(MbToEvents(mb, periodUs), periodUs)
        ensures mb <= EventsToMb(MbToEvents(mb, periodUs), periodUs)
      {
        RoundTrip(mb, periodUs);
      }
    } else {
      SmallBudgetLost(periodUs);
      assert !(1 <= EventsToMb(MbToEvents(1, periodUs), periodUs));
    }
  }
}
