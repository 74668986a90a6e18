/**
 * `rndDelay(low, high)` of indiegala.js: a random whole number of
 * milliseconds between `low` and `high`. `Math.random()` is passed in as
 * `random`, a real number in [0, 1); the model computes with exact reals, not
 * with floating point.
 */
module Delay {
  import opened Options

  /** JavaScript's `x || fallback` for a numeric argument: `undefined` and 0 fall back. */
  function OrDefault(x: Option<int>, fallback: int): (v: int)
    ensures x.Some? && x.value != 0 ==> v == x.value
    ensures x.None? || x.value == 0 ==> v == fallback
  {
    if x.None? || x.value == 0 then fallback else x.value
  }

  /** `Math.floor(Math.random() * (high - low + 1) + low)`. */
  function RndDelay(low: Option<int>, high: Option<int>, defaultLow: int, defaultHigh: int, random: real): (ms: int)
    requires 0.0 <= random < 1.0
    ensures var lo, hi := OrDefault(low, defaultLow), OrDefault(high, defaultHigh);
      && (lo <= hi ==> lo <= ms <= hi)
      && (hi < lo ==> hi < ms <= lo)
  {
    var lo, hi := OrDefault(low, defaultLow), OrDefault(high, defaultHigh);
    DelayBounds(random, lo, hi);
    (random * (hi - lo + 1) as real + lo as real).Floor
  }

  /** The drawn delay lies between the bounds, whichever of them is the larger. */
  lemma DelayBounds(random: real, lo: int, hi: int)
    requires 0.0 <= random < 1.0
    ensures lo <= hi ==> lo <= (random * (hi - lo + 1) as real + lo as real).Floor <= hi
    ensures hi < lo ==> hi < (random * (hi - lo + 1) as real + lo as real).Floor <= lo
  {
    var x := random * (hi - lo + 1) as real;
    ScaledBounds(random, lo, hi, x);
    FloorBounds(lo, hi, x);
  }

  /** `random * (hi - lo + 1)` lies between 0 and `hi - lo + 1`, excluding the latter unless it is 0. */
  lemma ScaledBounds(random: real, lo: int, hi: int, x: real)
    requires 0.0 <= random < 1.0 && x == random * (hi - lo + 1) as real
    ensures lo <= hi ==> 0.0 <= x < (hi - lo + 1) as real
    ensures hi == lo - 1 ==> x == 0.0
    ensures hi < lo - 1 ==> (hi - lo + 1) as real < x <= 0.0
  {
    var span := (hi - lo + 1) as real;
    if lo <= hi {
      ProductBelow(random, span);
    } else if hi < lo - 1 {
      ProductBelow(random, -span);
      assert random * (-span) == -x;
    }
  }

  /** A fraction below 1 of a positive number is below that number. */
  lemma ProductBelow(r: real, s: real)
    requires 0.0 <= r < 1.0 && s > 0.0
    ensures 0.0 <= r * s < s
  {
    assert s - r * s == (1.0 - r) * s;
  }

  /** The floor of `x + lo` for an `x` as `ScaledBounds` bounds it. */
  lemma FloorBounds(lo: int, hi: int, x: real)
    requires lo <= hi ==> 0.0 <= x < (hi - lo + 1) as real
    requires hi == lo - 1 ==> x == 0.0
    requires hi < lo - 1 ==> (hi - lo + 1) as real < x <= 0.0
    ensures lo <= hi ==> lo <= (x + lo as real).Floor <= hi
    ensures hi < lo ==> hi < (x + lo as real).Floor <= lo
  {
    var f := (x + lo as real).Floor;
    assert f as real <= x + lo as real < f as real + 1.0;
  }

  /** Every delay between the bounds is drawn by some value of `Math.random()`. */
  lemma {:induction false} EveryDelayReachable(lo: int, hi: int, ms: int)
    requires lo <= ms <= hi
    ensures var random := (ms - lo) as real / (hi - lo + 1) as real;
      && 0.0 <= random < 1.0
      && RndDelay(Some(lo), Some(hi), 0, 0, random) == ms
  {
    var span := (hi - lo + 1) as real;
    var random := (ms - lo) as real / span;
    assert random * span == (ms - lo) as real;
    assert random < 1.0 by {
      assert (ms - lo) as real < span;
    }
    assert random * span + lo as real == ms as real;
  }
}
