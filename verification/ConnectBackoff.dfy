/**
 * Reconnect pacing: the delay of components/nimble_ble/connect_backoff.cpp and the loop of ble_client_base.cpp that
 * waits it out.
 */
module ConnectBackoff {
  import opened Basics

  const BASE_MS := 5000
  const MAX_MS := 60000
  const JITTER_PERCENT := 20
  const MAX_SHIFT := 5

  function Pow2(n: nat): (r: nat)
    ensures r >= 1
  {
    if n == 0 then 1 else 2 * Pow2(n - 1)
  }

  /** Division of the source language: the quotient is rounded toward zero. */
  function TruncatedDiv(a: int, b: nat): int
    requires b > 0
  {
    if a >= 0 then a / b else -(-a / b)
  }

  /** The exponent; the cast to eight bits happens before the cap. */
  function Shift(count: nat): (r: nat)
    ensures r <= MAX_SHIFT
  {
    if count == 0 then 0 else if (count - 1) % 0x100 > MAX_SHIFT then MAX_SHIFT else (count - 1) % 0x100
  }

  function Base(count: nat): nat {
    var base := BASE_MS * Pow2(Shift(count));
    if base > MAX_MS then MAX_MS else base
  }

  function Percent(jitter: nat): int { jitter % (2 * JITTER_PERCENT + 1) - JITTER_PERCENT }

  function Delay(count: nat, jitter: nat): int {
    Base(count) + TruncatedDiv(Base(count) * Percent(jitter), 100)
  }

  /** The documented curve: the base doubled for each failure after the first, up to the maximum. */
  function Curve(failures: nat): nat
    requires failures > 0
  {
    if BASE_MS * Pow2(failures - 1) > MAX_MS then MAX_MS else BASE_MS * Pow2(failures - 1)
  }

  lemma {:induction false} Pow2Grows(a: nat, b: nat)
    requires a <= b
    ensures Pow2(a) <= Pow2(b)
    decreases b
  {
    if a < b { Pow2Grows(a, b - 1); }
  }

  /** From the fifth failure on the curve is flat. */
  lemma CurveFlat(failures: nat)
    requires failures >= 5
    ensures Curve(failures) == MAX_MS
  {
    Pow2Grows(4, failures - 1);
    assert Pow2(4) == 16;
  }

  lemma BaseTable(count: nat)
    ensures Base(count) ==
      if Shift(count) == 0 then 5000 else if Shift(count) == 1 then 10000 else if Shift(count) == 2 then 20000
      else if Shift(count) == 3 then 40000 else MAX_MS
  {
    assert Pow2(1) == 2 && Pow2(2) == 4 && Pow2(3) == 8 && Pow2(4) == 16 && Pow2(5) == 32;
  }

  lemma CurveTable(failures: nat)
    requires failures > 0
    ensures Curve(failures) ==
      if failures == 1 then 5000 else if failures == 2 then 10000 else if failures == 3 then 20000
      else if failures == 4 then 40000 else MAX_MS
  {
    assert Pow2(1) == 2 && Pow2(2) == 4 && Pow2(3) == 8 && Pow2(4) == 16;
    if failures >= 5 { CurveFlat(failures); }
  }

  /**
   * The base follows the curve exactly up to 256 failures; past that, each block of 256 starts over with four short
   * delays.
   */
  lemma BaseIsCurve(count: nat)
    requires 0 < count < 0x1_0000
    ensures Base(count) == Curve(count) <==> count <= 256 || (count - 1) % 256 >= 4
  {
    hide Base, Curve;
    BaseTable(count);
    CurveTable(count);
  }

  lemma ProductBound(base: nat, p: int)
    requires -JITTER_PERCENT <= p <= JITTER_PERCENT
    ensures -(JITTER_PERCENT * base) <= base * p <= JITTER_PERCENT * base
  {
  }

  /**
   * The jitter moves a delay by at most a fifth, and the products fit the signed 32-bit arithmetic they are computed
   * in.
   */
  lemma JitterBound(base: nat, jitter: nat)
    requires base <= MAX_MS
    ensures var p := base * Percent(jitter);
      -0x8000_0000 <= p < 0x8000_0000 && -(base as int) <= 5 * TruncatedDiv(p, 100) <= base
  {
    assert -JITTER_PERCENT <= Percent(jitter) <= JITTER_PERCENT;
    ProductBound(base, Percent(jitter));
    hide Percent;
  }

  /** For every 16-bit count the delay is between 4 and 72 seconds. */
  lemma DelayRange(count: nat, jitter: nat)
    ensures 4000 <= Delay(count, jitter) <= 72000
  {
    hide Base, TruncatedDiv, Percent;
    BaseTable(count);
    JitterBound(Base(count), jitter);
  }

  /** Up to 256 failures the delay is within 20 percent of the documented curve. */
  lemma DelayNearCurve(failures: nat, jitter: nat)
    requires 0 < failures <= 256
    ensures 4 * Curve(failures) <= 5 * Delay(failures, jitter) <= 6 * Curve(failures)
  {
    hide Base, Curve, TruncatedDiv, Percent;
    BaseIsCurve(failures);
    BaseTable(failures);
    JitterBound(Base(failures), jitter);
  }

  lemma ExactQuotient(m: nat, p: int)
    ensures TruncatedDiv(100 * m * p, 100) == m * p
  {
    if m * p < 0 {
      assert 100 * m * p == -(100 * -(m * p));
      assert 100 * -(m * p) / 100 == -(m * p);
    } else {
      assert 100 * m * p == 100 * (m * p);
    }
  }

  /** Exactly: up to 256 failures the delay is the curve in one of the 41 whole percentages from 80 to 120. */
  lemma DelayIsPercentage(failures: nat, jitter: nat)
    requires 0 < failures <= 256
    ensures 100 * Delay(failures, jitter) == Curve(failures) * (80 + jitter % 41)
  {
    hide Base, Curve, TruncatedDiv;
    BaseIsCurve(failures);
    BaseTable(failures);
    var m, p := Base(failures) / 100, jitter % 41 - 20;
    assert Base(failures) == 100 * m;
    ExactQuotient(m, p);
    assert 100 * (m * p) == Base(failures) * p;
  }

  lemma DivGap(x: int, y: int, gap: nat)
    requires x <= y <= x + 100 * gap
    ensures x / 100 <= y / 100 <= x / 100 + gap
  {
  }

  /** What the jitter takes off a base grows no faster than the base. */
  lemma ProductGap(a: nat, b: nat, q: nat)
    requires a <= b && q <= 100
    ensures 0 <= a * q <= b * q <= a * q + 100 * (b - a)
  {
    assert (b - a) * q <= (b - a) * 100;
    assert b * q == a * q + (b - a) * q;
  }

  /** A longer base never gives a shorter delay at the same jitter. */
  lemma OffsetMonotone(a: nat, b: nat, p: int)
    requires a <= b && -100 <= p <= 100
    ensures a + TruncatedDiv(a * p, 100) <= b + TruncatedDiv(b * p, 100)
  {
    var q := if p >= 0 then p else -p;
    ProductGap(a, b, q);
    DivGap(a * q, b * q, b - a);
    if p < 0 {
      assert a * p == -(a * q) && b * p == -(b * q);
      NegatedQuotient(a * q);
      NegatedQuotient(b * q);
    }
  }

  lemma NegatedQuotient(x: int)
    requires x >= 0
    ensures TruncatedDiv(-x, 100) == -(x / 100)
  {
  }

  /** At fixed jitter, more failures (up to 256) never shorten the delay. */
  lemma DelayMonotone(fewer: nat, more: nat, jitter: nat)
    requires fewer <= more <= 256
    ensures Delay(fewer, jitter) <= Delay(more, jitter)
  {
    hide Base, TruncatedDiv;
    BaseTable(fewer);
    BaseTable(more);
    OffsetMonotone(Base(fewer), Base(more), Percent(jitter));
  }

  // ---- The client loop ----

  /** What one call of the loop sees: the true time, whether the engine is in Backoff, its counter, a random number. */
  datatype Tick = Tick(at: nat, inBackoff: bool, count: nat, jitter: nat)

  /** The pacing fields; a start of 0 means that no delay is latched. */
  datatype Pace = Pace(startedAt: nat, delay: int)

  /** The fields after one call, with reconnecting switched on. */
  function After(p: Pace, t: Tick): Pace {
    if !t.inBackoff then p.(startedAt := 0)
    else if p.startedAt == 0 then Pace(t.at % CLOCK, Delay(t.count, t.jitter))
    else if Retries(p, t) then p.(startedAt := 0)
    else p
  }

  /** Whether the call reconnects: the elapsed time is a difference of two 32-bit clock readings, modulo the clock. */
  predicate Retries(p: Pace, t: Tick) {
    t.inBackoff && p.startedAt != 0 && (t.at % CLOCK - p.startedAt) % CLOCK >= p.delay
  }

  function Paced(ticks: seq<Tick>): Pace
    decreases |ticks|
  {
    if ticks == [] then Pace(0, 0) else After(Paced(ticks[..|ticks| - 1]), ticks[|ticks| - 1])
  }

  ghost predicate InOrder(ticks: seq<Tick>) {
    forall i, j :: 0 <= i <= j < |ticks| ==> ticks[i].at <= ticks[j].at
  }

  /** Call `j` latched the delay `p` holds, and the engine has not left Backoff since. */
  ghost predicate LatchedAt(ticks: seq<Tick>, p: Pace, j: nat) {
    && j < |ticks|
    && (forall k :: j <= k < |ticks| ==> ticks[k].inBackoff)
    && p == Pace(ticks[j].at % CLOCK, Delay(ticks[j].count, ticks[j].jitter))
  }

  lemma {:induction false} DelayWasLatched(ticks: seq<Tick>) returns (j: nat)
    requires Paced(ticks).startedAt != 0
    ensures LatchedAt(ticks, Paced(ticks), j)
    decreases |ticks|
  {
    hide Delay;
    var n := |ticks| - 1;
    var before := Paced(ticks[..n]);
    if before.startedAt == 0 {
      j := n;
    } else {
      j := DelayWasLatched(ticks[..n]);
      forall k | j <= k < |ticks| ensures ticks[k].inBackoff {
        if k < n { assert ticks[k] == ticks[..n][k]; }
      }
    }
  }

  /**
   * On every run, a reconnect ends a stay in Backoff in which a delay was latched, and comes no sooner than that delay
   * (at least four seconds) of true time after the call that latched it, through any number of clock wraps.
   */
  lemma {:induction false} NeverEarly(ticks: seq<Tick>, t: Tick) returns (j: nat)
    requires InOrder(ticks + [t]) && Retries(Paced(ticks), t)
    ensures j < |ticks| && forall k :: j <= k < |ticks| ==> ticks[k].inBackoff
    ensures t.at - ticks[j].at >= Delay(ticks[j].count, ticks[j].jitter) >= 4000
  {
    hide Paced, Delay;
    j := DelayWasLatched(ticks);
    var all := ticks + [t];
    assert all[j] == ticks[j] && all[|ticks|] == t;
    ClockDifference(ticks[j].at, t.at);
    DelayRange(ticks[j].count, ticks[j].jitter);
  }

  /**
   * And no later: within a turn of the clock, the first call at which the latched delay has passed reconnects, and no
   * call before it does.
   */
  lemma {:induction false} InTime(ticks: seq<Tick>, t: Tick) returns (j: nat)
    requires InOrder(ticks + [t]) && t.inBackoff && Paced(ticks).startedAt != 0
    ensures LatchedAt(ticks, Paced(ticks), j)
    ensures t.at - ticks[j].at < CLOCK ==>
      (Retries(Paced(ticks), t) <==> t.at - ticks[j].at >= Delay(ticks[j].count, ticks[j].jitter))
  {
    hide Paced, Delay;
    j := DelayWasLatched(ticks);
    var all := ticks + [t];
    assert all[j] == ticks[j] && all[|ticks|] == t;
    ClockDifference(ticks[j].at, t.at);
  }

  /** A call in Backoff with no delay latched latches one, unless the clock reads 0; leaving Backoff drops it. */
  lemma LatchesWhenBackingOff(ticks: seq<Tick>, t: Tick)
    ensures var p := Paced(ticks + [t]);
      && (!t.inBackoff ==> p.startedAt == 0)
      && (t.inBackoff && Paced(ticks).startedAt == 0 ==> p == Pace(t.at % CLOCK, Delay(t.count, t.jitter)))
  {
    hide Delay;
    assert (ticks + [t])[..|ticks|] == ticks;
  }

  class BLEClientBase {
    var backoffStartedAt: nat
    var currentBackoffDelayMs: int
    var autoConnect: bool

    function P(): Pace reads this { Pace(backoffStartedAt, currentBackoffDelayMs) }

    constructor (auto: bool)
      ensures P() == Pace(0, 0) && autoConnect == auto
    {
      backoffStartedAt, currentBackoffDelayMs, autoConnect := 0, 0, auto;
    }

    method Loop(t: Tick) returns (connects: bool)
      modifies this
      ensures autoConnect == old(autoConnect)
      ensures connects <==> autoConnect && Retries(old(P()), t)
      ensures autoConnect ==> P() == After(old(P()), t)
      ensures !autoConnect ==> P() == if Retries(old(P()), t) then old(P()) else After(old(P()), t)
    {
      connects := false;
      if !t.inBackoff {
        backoffStartedAt := 0;
        return;
      }
      if backoffStartedAt == 0 {
        backoffStartedAt := t.at % CLOCK;
        currentBackoffDelayMs := Delay(t.count, t.jitter);
      } else if autoConnect && (t.at % CLOCK - backoffStartedAt) % CLOCK >= currentBackoffDelayMs {
        backoffStartedAt := 0;
        connects := true;
      }
    }
  }
}
