/** Quotients of natural numbers. */
module Quotients {
  /** The integer part of a / b. */
  function Div(a: nat, b: nat): (q: nat)
    requires b > 0
    ensures Times(q, b) <= a < Times(q, b) + b
  {
    a / b
  }

  function Times(a: nat, b: nat): (p: nat) {
    a * b
  }

  lemma AtLeast(a: nat, b: nat)
    requires a > 0
    ensures Times(a, b) >= b
  {
  }

  lemma Distribute(a: nat, b: nat, c: nat)
    ensures Times(a + b, c) == Times(a, c) + Times(b, c)
  {
  }

  lemma Associate(a: nat, b: nat, c: nat)
    ensures Times(Times(a, b), c) == Times(Times(a, c), b)
  {
  }

  lemma Order(a: nat, b: nat, c: nat)
    requires a <= b
    ensures Times(a, c) <= Times(b, c)
  {
    hide Times;
    Distribute(a, b - a, c);
  }

  /** The bounds determine the quotient. */
  lemma QuotientIs(x: nat, d: nat, k: nat)
    requires d > 0 && Times(k, d) <= x < Times(k, d) + d
    ensures Div(x, d) == k
  {
    hide Times, Div;
    var q := Div(x, d);
    if k < q {
      Distribute(k, q - k, d);
      AtLeast(q - k, d);
    }
    if q < k {
      Distribute(q, k - q, d);
      AtLeast(k - q, d);
    }
  }

  lemma DivideSum(q: nat, d: nat, r: nat)
    requires d > 0
    ensures Div(Times(q, d) + r, d) == q + Div(r, d)
  {
    hide Times, Div;
    Distribute(q, Div(r, d), d);
    QuotientIs(Times(q, d) + r, d, q + Div(r, d));
  }

  lemma DivideOrder(x: nat, y: nat, d: nat)
    requires x <= y && d > 0
    ensures Div(x, d) <= Div(y, d)
  {
    hide Times, Div;
    var q := Div(x, d);
    DivideSum(q, d, y - Times(q, d));
  }
}

/** Exact sample-clock arithmetic. */
module SampleClock {
  import opened Basics
  import opened Sessions
  import opened Quotients

  const SECOND: nat := 1_000_000_000
  const NO_TIME: nat := 0xFFFF_FFFF_FFFF_FFFF
  const U64_LIMIT: nat := 0x1_0000_0000_0000_0000

  predicate RateKnown(rate: nat) {
    8000 <= rate <= 192000
  }

  /** Seconds and remainder separately, so that nothing overflows 64 bits. */
  function SampleOffset(index: nat, rate: nat): (SessionResult, nat) {
    if !RateKnown(rate) then (Invalid, 0)
    else
      var seconds := Div(index, rate);
      var part := Div(Times(index - Times(seconds, rate), SECOND), rate);
      if seconds > I64_MAX / SECOND then (TimeRange, 0)
      else if seconds * SECOND + part > I64_MAX then (TimeRange, 0)
      else (Ok, seconds * SECOND + part)
  }

  /** The time of a sample: the floor of index times 10^9 over the rate. */
  function Floor(index: nat, rate: nat): nat
    requires rate > 0
  {
    Div(Times(index, SECOND), rate)
  }

  lemma SplitFloor(index: nat, rate: nat)
    requires rate > 0
    ensures var s := Div(index, rate);
      Floor(index, rate) == Times(s, SECOND) + Div(Times(index - Times(s, rate), SECOND), rate)
  {
    hide Times, Div;
    var s := Div(index, rate);
    var m := index - Times(s, rate);
    Distribute(Times(s, rate), m, SECOND);
    Associate(s, rate, SECOND);
    DivideSum(Times(s, SECOND), rate, Times(m, SECOND));
  }

  /** Drift-free and total: the floor itself, refused exactly when it does not fit in 63 bits. */
  lemma SampleOffsetExact(index: nat, rate: nat)
    requires RateKnown(rate)
    ensures SampleOffset(index, rate).0 == if Floor(index, rate) <= I64_MAX then Ok else TimeRange
    ensures SampleOffset(index, rate).0 == Ok ==> SampleOffset(index, rate).1 == Floor(index, rate)
  {
    hide Div, Floor;
    SplitFloor(index, rate);
  }

  lemma FloorMonotone(a: nat, b: nat, rate: nat)
    requires rate > 0 && a <= b
    ensures Floor(a, rate) <= Floor(b, rate)
  {
    hide Times, Div;
    Order(a, b, SECOND);
    DivideOrder(Times(a, SECOND), Times(b, SECOND), rate);
  }

  /** An index with a 63-bit time leaves room for any block of bytes: sums of sample counts never wrap. */
  lemma NoWrap(index: nat, rate: nat)
    requires RateKnown(rate) && Floor(index, rate) <= I64_MAX
    ensures index <= I64_MAX
  {
    hide Times, Div;
    Commute(index, SECOND);
    Commute(index, rate);
    Order(rate, SECOND, index);
    DivideOrder(Times(index, rate), Times(index, SECOND), rate);
    DivideSum(index, rate, 0);
    ZeroTimes(rate);
    QuotientIs(0, rate, 0);
  }

  /** Bytes of PCM that a queue of `queueMs` may hold, in whole sample frames. */
  function Budget(rate: nat, queueMs: nat, frame: nat): nat {
    Times(Div(Times(rate, queueMs) + 999, 1000), frame)
  }

  /** That is the least number of sample frames lasting at least as long as the queue. */
  lemma BudgetIsCeiling(rate: nat, queueMs: nat, frame: nat) returns (n: nat)
    ensures Budget(rate, queueMs, frame) == Times(n, frame)
    ensures Times(rate, queueMs) <= Times(n, 1000) < Times(rate, queueMs) + 1000
  {
    hide Times, Div;
    n := Div(Times(rate, queueMs) + 999, 1000);
  }

  lemma ZeroTimes(d: nat)
    ensures Times(0, d) == 0
  {
  }

  lemma Commute(a: nat, b: nat)
    ensures Times(a, b) == Times(b, a)
  {
  }
}
