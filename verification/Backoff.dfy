/**
 The retry delay of the supervised loops, in nanoseconds held in signed 64-bit integers: the base
 doubles with every consecutive failure up to a maximum, then 20% jitter either way.
 */
module Backoff {
  import opened Common

  const BACKOFF_BASE := 30_000_000_000
  const BACKOFF_MAX := 900_000_000_000
  const TWO_62 := 0x4000_0000_0000_0000
  const TWO_63 := 0x8000_0000_0000_0000

  predicate Int64(x: int) {
    -TWO_63 <= x < TWO_63
  }

  /** Doubling a signed 64-bit integer, wrapping around. */
  function Twice(x: int): (r: int)
    requires Int64(x)
    ensures Int64(r)
    ensures -TWO_62 <= x < TWO_62 ==> r == 2 * x
    ensures r == 2 * x || r == 2 * x - 0x1_0000_0000_0000_0000 || r == 2 * x + 0x1_0000_0000_0000_0000
  {
    if 2 * x >= TWO_63 then 2 * x - 2 * TWO_63
    else if 2 * x < -TWO_63 then 2 * x + 2 * TWO_63
    else 2 * x
  }

  function Pow2(n: nat): (r: int)
    ensures r >= 1
  {
    if n == 0 then 1 else 2 * Pow2(n - 1)
  }

  /** The loop: double while another failure is to be accounted for and the maximum is not reached. */
  function Doubled(delay: int, max: int, rounds: nat): (r: int)
    requires Int64(delay)
    ensures Int64(r)
    decreases rounds
  {
    if rounds == 0 || delay >= max then delay else Doubled(Twice(delay), max, rounds - 1)
  }

  function Capped(base: int, max: int, failures: int): int
    requires Int64(base)
  {
    Min(Doubled(base, max, Max(failures - 1, 0)), max)
  }

  /** The value of base * 2^k that lies in [2^62, 2^63): the last one that fits. */
  function LastFitting(base: int): (r: int)
    requires 0 < base < TWO_63
    ensures TWO_62 <= r < TWO_63 && base <= r
    decreases TWO_63 - base
  {
    if base >= TWO_62 then base else LastFitting(2 * base)
  }

  /** It is the base doubled some number of times. */
  lemma {:induction false} LastFittingIsDoubled(base: int) returns (rounds: nat)
    requires 0 < base < TWO_63
    ensures LastFitting(base) == base * Pow2(rounds)
    decreases TWO_63 - base
  {
    if base >= TWO_62 {
      rounds := 0;
    } else {
      var rest := LastFittingIsDoubled(2 * base);
      rounds := rest + 1;
    }
  }

  /** base * 2^rounds without a product, to keep the proofs linear. */
  function Scaled(base: int, rounds: nat): int
    decreases rounds
  {
    if rounds == 0 then base else Scaled(2 * base, rounds - 1)
  }

  lemma {:induction false} ScaledIsProduct(base: int, rounds: nat)
    requires base > 0
    ensures Scaled(base, rounds) == base * Pow2(rounds) && Scaled(base, rounds) >= base
    decreases rounds
  {
    if rounds > 0 {
      ScaledIsProduct(2 * base, rounds - 1);
    }
  }

  lemma {:induction false} DoubledIsScaled(base: int, max: int, rounds: nat)
    requires 0 < base < TWO_63 && max <= LastFitting(base)
    ensures Min(Doubled(base, max, rounds), max) == Min(Scaled(base, rounds), max)
    ensures Doubled(base, max, rounds) >= base
    decreases rounds
  {
    hide Pow2;
    ScaledIsProduct(base, rounds);
    if rounds > 0 && base < max {
      assert base < TWO_62;
      assert Twice(base) == 2 * base && LastFitting(base) == LastFitting(2 * base);
      DoubledIsScaled(2 * base, max, rounds - 1);
    }
  }

  lemma DoubledIsPower(base: int, max: int, rounds: nat)
    requires 0 < base < TWO_63 && max <= LastFitting(base)
    ensures Min(Doubled(base, max, rounds), max) == Min(base * Pow2(rounds), max)
    ensures Doubled(base, max, rounds) >= base
  {
    hide Doubled, LastFitting, Pow2, Scaled;
    DoubledIsScaled(base, max, rounds);
    ScaledIsProduct(base, rounds);
  }

  /** The round in which doubling first leaves the 64-bit range. */
  lemma {:induction false} OverflowRound(base: int, max: int) returns (rounds: nat)
    requires 0 < base < TWO_63 && LastFitting(base) < max < TWO_63
    ensures Doubled(base, max, rounds) < 0 && Scaled(base, rounds) >= TWO_63
    decreases TWO_63 - base
  {
    hide Pow2;
    if base >= TWO_62 {
      rounds := 1;
      assert Doubled(base, max, 1) == Doubled(Twice(base), max, 0);
      assert Scaled(base, 1) == Scaled(2 * base, 0);
    } else {
      var rest := OverflowRound(2 * base, max);
      rounds := rest + 1;
    }
  }

  /**
   The delay before jitter is min(base * 2^(n-1), max) for every number of failures exactly when the
   maximum is no larger than the last doubling of the base that fits in 63 bits.
   */
  lemma ExponentialExactly(base: int, max: int)
    requires 0 < base < TWO_63 && 0 < max < TWO_63
    ensures max <= LastFitting(base) <==>
            forall rounds: nat :: Capped(base, max, rounds + 1) == Min(base * Pow2(rounds), max)
  {
    if max <= LastFitting(base) {
      forall rounds: nat ensures Capped(base, max, rounds + 1) == Min(base * Pow2(rounds), max) {
        DoubledIsPower(base, max, rounds);
      }
    } else {
      var rounds := OverflowRound(base, max);
      ScaledIsProduct(base, rounds);
      assert Capped(base, max, rounds + 1) < 0;
      assert Min(base * Pow2(rounds), max) > 0;
    }
  }

  /** A maximum of at most 2^62 nanoseconds never overflows, whatever the base. */
  lemma SafeMaximum(base: int, max: int)
    requires 0 < base < TWO_63 && 0 < max <= TWO_62
    ensures max <= LastFitting(base)
  {}

  /** The factor of a random draw: within 20% of one. */
  function Jitter(random: real): real {
    0.8 + 0.4 * random
  }

  function Product(delay: int, random: real): real {
    (delay as real) * Jitter(random)
  }

  /** The factor runs evenly from 0.8 at a draw of 0 through 1 at one half towards 1.2 at a draw of 1. */
  lemma JitterIsCentred(random: real)
    ensures Jitter(0.0) == 0.8 && Jitter(0.5) == 1.0 && Jitter(1.0) == 1.2
    ensures 2.0 * Jitter(random) == Jitter(2.0 * random) + 0.8
  {}

  predicate Draw(random: real) {
    0.0 <= random < 1.0
  }

  function Truncated(x: real): int {
    if x >= 0.0 then x.Floor else -(-x).Floor
  }

  /**
   Converting to a signed 64-bit integer truncates towards zero. What becomes of a value that does not
   fit is up to the implementation, so it is any integer of that width here, called `wild`.
   */
  function Converted(x: real, wild: int): (r: int)
    requires Int64(wild)
    ensures Int64(r)
  {
    if Int64(Truncated(x)) then Truncated(x) else wild
  }

  /** time.Duration(float64(delay) * jitter). */
  function Jittered(delay: int, random: real, wild: int): int
    requires Draw(random) && Int64(wild)
  {
    Converted(Product(delay, random), wild)
  }

  /** The product of delay and jitter leaves the signed 64-bit integers. */
  predicate Overflows(delay: int, random: real) {
    Product(delay, random) >= TWO_63 as real
  }

  lemma ProductGrows(d: real, a: real, b: real)
    requires 0.0 <= d && a <= b
    ensures d * a <= d * b
  {
    assert d * (b - a) >= 0.0;
  }

  lemma JitterWithin(delay: int, random: real)
    requires 0 <= delay && Draw(random)
    ensures 0.8 * (delay as real) <= Product(delay, random) <= 1.2 * (delay as real)
  {
    var d := delay as real;
    ProductGrows(d, 0.8, Jitter(random));
    ProductGrows(d, Jitter(random), 1.2);
  }

  lemma FloorWithin(delay: int, x: real)
    requires 0 <= delay && 0.8 * (delay as real) <= x <= 1.2 * (delay as real)
    ensures 4 * delay - 4 <= 5 * x.Floor <= 6 * delay && 0 <= x.Floor
  {
    var r, d := x.Floor, delay as real;
    assert r as real <= x < r as real + 1.0;
    assert (5 * r) as real <= (6 * delay) as real;
    assert (4 * delay - 5) as real < (5 * r) as real;
  }

  lemma ConvertedExactly(x: real, wild: int)
    requires 0.0 <= x && Int64(wild)
    ensures Converted(x, wild) == if x < TWO_63 as real then x.Floor else wild
  {}

  lemma FitsInt64(delay: int, x: real)
    requires 6 * delay < 5 * TWO_63 && x <= 1.2 * (delay as real)
    ensures x < TWO_63 as real
  {
    assert (6 * delay) as real < (5 * TWO_63) as real;
  }

  /** A jittered delay whose product fits is within 20% of the delay. */
  lemma JitterBounds(delay: int, random: real, wild: int)
    requires 0 <= delay && Draw(random) && Int64(wild)
    ensures !Overflows(delay, random) ==>
              4 * delay - 4 <= 5 * Jittered(delay, random, wild) <= 6 * delay && 0 <= Jittered(delay, random, wild)
    ensures Overflows(delay, random) ==> Jittered(delay, random, wild) == wild
    ensures 6 * delay < 5 * TWO_63 ==> !Overflows(delay, random)
  {
    hide Product, Converted;
    var x := Product(delay, random);
    JitterWithin(delay, random);
    FloorWithin(delay, x);
    ConvertedExactly(x, wild);
    if 6 * delay < 5 * TWO_63 {
      FitsInt64(delay, x);
    }
  }

  /** The delay after capping, jitter and the fallback to the base. */
  function FinalDelay(base: int, max: int, failures: int, random: real, wild: int): int
    requires Int64(base) && Draw(random) && Int64(wild)
  {
    var jittered := Min(Jittered(Capped(base, max, failures), random, wild), max);
    if jittered <= 0 then base else jittered
  }

  /** loopBackoffDelay, for the draw of its random source and the platform's conversion of what does not fit. */
  method BackoffDelay(failures: int, givenBase: int, givenMax: int, random: real, wild: int) returns (delay: int)
    requires Int64(givenBase) && Int64(givenMax) && Draw(random) && Int64(wild)
    ensures var base := if givenBase <= 0 then 30_000_000_000 else givenBase;
            var max := if givenMax <= 0 then 900_000_000_000 else givenMax;
            delay == FinalDelay(base, max, failures, random, wild)
  {
    hide Jittered, Twice;
    var base := if givenBase <= 0 then BACKOFF_BASE else givenBase;
    var max := if givenMax <= 0 then BACKOFF_MAX else givenMax;
    delay := base;
    var i := 1;
    while i < failures && delay < max
      invariant 1 <= i && Int64(delay)
      invariant Doubled(delay, max, Max(failures - i, 0)) == Doubled(base, max, Max(failures - 1, 0))
      decreases failures - i
    {
      delay := Twice(delay);
      i := i + 1;
    }
    if delay > max {
      delay := max;
    }
    delay := Min(Jittered(delay, random, wild), max);
    if delay <= 0 {
      delay := base;
    }
  }

  lemma JitterVanishes(delay: int, random: real, wild: int)
    requires 0 < delay && Draw(random) && Int64(wild)
    ensures Jittered(delay, random, wild) <= 0 <==>
              (delay == 1 && random < 0.5) || (Overflows(delay, random) && wild <= 0)
  {
    JitterBounds(delay, random, wild);
    if delay == 1 {
      assert Product(1, random) == Jitter(random);
    }
  }

  /**
   The final delay is always positive. It exceeds the maximum exactly when the base is larger and either
   the maximum is one nanosecond and the jitter below one, or the jittered maximum does not fit in 64
   bits and the platform converts it to a number that is not positive.
   */
  lemma FinalDelayExactly(base: int, max: int, failures: int, random: real, wild: int)
    requires 0 < base < TWO_63 && 0 < max < TWO_63 && Draw(random) && Int64(wild)
    ensures FinalDelay(base, max, failures, random, wild) > 0
    ensures FinalDelay(base, max, failures, random, wild) > max <==>
              base > max && ((max == 1 && random < 0.5) || (Overflows(max, random) && wild <= 0))
  {
    hide Jittered, Overflows;
    JitterVanishes(max, random, wild);
  }

  /** Base 2, maximum 1, no luck with the jitter: the delay is 2. */
  lemma DelayAboveMaximum(failures: int, wild: int)
    requires Int64(wild)
    ensures FinalDelay(2, 1, failures, 0.0, wild) == 2
  {
    JitterVanishes(1, 0.0, wild);
  }

  /**
   The largest base under a maximum of eight billion seconds, on a platform that converts what does
   not fit to the least integer: the delay is the base.
   */
  lemma DelayAboveLargeMaximum(failures: int)
    ensures FinalDelay(TWO_63 - 1, 8_000_000_000_000_000_000, failures, 0.9, -TWO_63) == TWO_63 - 1
  {
    JitterVanishes(8_000_000_000_000_000_000, 0.9, -TWO_63);
  }

  /** With a base no larger than a maximum of at most 2^62, the delay is in (0, max] and within 20% of the exponential. */
  lemma DelayInRange(base: int, max: int, failures: int, random: real, wild: int)
    requires 0 < base <= max <= TWO_62 && failures >= 1 && Draw(random) && Int64(wild)
    ensures var delay := FinalDelay(base, max, failures, random, wild);
            var exact := Min(base * Pow2(failures - 1), max);
            && 0 < delay <= max
            && 5 * delay <= 6 * exact
            && (delay > 1 ==> 5 * delay >= 4 * exact - 4)
  {
    hide Jittered, Product;
    SafeMaximum(base, max);
    DoubledIsPower(base, max, failures - 1);
    JitterBounds(Capped(base, max, failures), random, wild);
  }
}
