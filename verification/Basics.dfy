/** What several components share. */
module Basics {
  datatype Option<+T> = None | Some(value: T)

  /** At most the first `n` elements. */
  function Clip<T>(s: seq<T>, n: nat): (r: seq<T>)
    ensures |r| == (if n < |s| then n else |s|) && r <= s
  {
    if |s| <= n then s else s[..n]
  }

  /** The turn of the 32-bit millisecond clock. */
  const CLOCK := 0x1_0000_0000

  function Pow256(n: nat): (r: nat)
    ensures r > 0
  {
    if n == 0 then 1 else 256 * Pow256(n - 1)
  }

  /** The difference of two readings is the time between them, within a turn of the clock. */
  lemma ClockDifference(start: nat, now: nat)
    requires start <= now
    ensures (now % CLOCK - start % CLOCK) % CLOCK == (now - start) % CLOCK <= now - start
    ensures now - start < CLOCK ==> (now % CLOCK - start % CLOCK) % CLOCK == now - start
  {
    var q := now / CLOCK - start / CLOCK;
    assert now - start == now % CLOCK - start % CLOCK + q * CLOCK;
    ModShift(now % CLOCK - start % CLOCK, q);
  }

  lemma {:induction false} ModShift(x: int, q: int)
    ensures (x + q * CLOCK) % CLOCK == x % CLOCK
    decreases if q >= 0 then q else -q
  {
    if q > 0 {
      ModShift(x, q - 1);
      assert x + q * CLOCK == (x + (q - 1) * CLOCK) + CLOCK;
    } else if q < 0 {
      ModShift(x, q + 1);
      assert x + q * CLOCK == (x + (q + 1) * CLOCK) - CLOCK;
    }
  }
}
