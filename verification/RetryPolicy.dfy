/** The outbox worker's configuration and its retry policy. */
module RetryPolicy {
  import opened Common
  import opened Powers

  const INT64_MAX := 0x7fff_ffff_ffff_ffff
  const INT32_MAX := 0x7fff_ffff

  datatype Config = Config(enabled: bool, batchSize: nat, maxAttempts: nat, stuckTimeout: int, baseDelay: int, maxDelay: int)

  /** The field initialisers of the configuration. */
  const DEFAULTS := Config(true, 20, 10, 300, 2, 600)

  /** The optional fields of the dynamic configuration value; absent fields take their defaults. */
  datatype RawConfig = RawConfig(
    enabled: Option<bool>, batchSize: Option<int>, maxAttempts: Option<int>,
    stuckTimeout: Option<int>, baseDelay: Option<int>, maxDelay: Option<int>)

  function Or<T>(o: Option<T>, default: T): T {
    if o.Some? then o.value else default
  }

  /** The bounds every accepted configuration satisfies. */
  predicate WellFormed(c: Config) {
    c.batchSize >= 1 && c.maxAttempts >= 1 && c.stuckTimeout >= 1 && 1 <= c.baseDelay <= c.maxDelay
  }

  /** Fills the fields one by one; the last bound uses the field filled before it. */
  method ParseConfig(raw: RawConfig) returns (r: Option<Config>)
    ensures r.Some? <==>
            && Or(raw.batchSize, 20) >= 1 && Or(raw.maxAttempts, 10) >= 1 && Or(raw.stuckTimeout, 300) >= 1
            && 1 <= Or(raw.baseDelay, 2) <= Or(raw.maxDelay, 600)
    ensures r.Some? ==> WellFormed(r.value)
    ensures r.Some? ==>
              && r.value.enabled == Or(raw.enabled, true) && r.value.batchSize == Or(raw.batchSize, 20)
              && r.value.maxAttempts == Or(raw.maxAttempts, 10) && r.value.stuckTimeout == Or(raw.stuckTimeout, 300)
              && r.value.baseDelay == Or(raw.baseDelay, 2) && r.value.maxDelay == Or(raw.maxDelay, 600)
  {
    var c := DEFAULTS;
    if raw.enabled.Some? { c := c.(enabled := raw.enabled.value); }
    var size := Or(raw.batchSize, c.batchSize as int);
    if size < 0 || size < 1 { return None; }
    c := c.(batchSize := size);
    size := Or(raw.maxAttempts, c.maxAttempts as int);
    if size < 0 || size < 1 { return None; }
    c := c.(maxAttempts := size);
    var seconds := Or(raw.stuckTimeout, c.stuckTimeout);
    if seconds < 1 { return None; }
    c := c.(stuckTimeout := seconds);
    seconds := Or(raw.baseDelay, c.baseDelay);
    if seconds < 1 { return None; }
    c := c.(baseDelay := seconds);
    seconds := Or(raw.maxDelay, c.maxDelay);
    if seconds < c.baseDelay { return None; }
    c := c.(maxDelay := seconds);
    r := Some(c);
  }

  predicate ShouldMarkDead(attempt: nat, maxAttempts: nat, retryable: bool) {
    !retryable || attempt >= maxAttempts
  }

  function Min(a: int, b: int): int {
    if b < a then b else a
  }

  /** The factor applied to the base delay: it doubles with each attempt, at most 30 times. */
  function Scale(attempt: nat): (r: nat)
    ensures r >= 1
  {
    var exponent := if attempt == 0 then 0 else attempt - 1;
    if exponent >= 30 then Pow2(30) else Pow2(exponent)
  }

  /** The delay before the next attempt; None where the 64-bit product overflows and C++ gives no value. */
  function RetryDelay(attempt: nat, base: int, max: int): Option<int> {
    var product := base * Scale(attempt);
    if product > INT64_MAX || product < -INT64_MAX - 1 then None else Some(Min(product, max))
  }

  lemma ScaleMonotone(a: nat, b: nat)
    requires a <= b
    ensures Scale(a) <= Scale(b) <= Pow2(30)
  {
    var x := if a == 0 then 0 else if a - 1 >= 30 then 30 else a - 1;
    var y := if b == 0 then 0 else if b - 1 >= 30 then 30 else b - 1;
    Pow2Monotone(x, y);
    Pow2Monotone(y, 30);
  }

  lemma MulMonotone(base: int, x: nat, y: nat)
    requires base >= 0 && x <= y
    ensures base * x <= base * y
  {
  }

  lemma ProductMonotone(a: nat, b: nat, base: int)
    requires a <= b && base >= 1
    ensures base <= base * Scale(a) <= base * Scale(b) <= base * Pow2(30)
  {
    ScaleMonotone(a, b);
    MulMonotone(base, 1, Scale(a));
    MulMonotone(base, Scale(a), Scale(b));
    MulMonotone(base, Scale(b), Pow2(30));
  }

  lemma LateScale(n: nat)
    ensures n >= 31 ==> Scale(n) == Pow2(30)
    ensures 1 <= n <= 31 ==> Scale(n) == Pow2(n - 1)
  {
  }

  /** The delay is defined for every attempt exactly when base * 2^30 fits in 64 bits. */
  lemma DelayDefinedExactly(base: int, max: int)
    requires base >= 1
    ensures (forall n: nat :: RetryDelay(n, base, max).Some?) <==> base * Pow2(30) <= INT64_MAX
  {
    if base * Pow2(30) <= INT64_MAX {
      forall n: nat ensures RetryDelay(n, base, max).Some? {
        ProductMonotone(n, n, base);
      }
    } else {
      LateScale(31);
      assert RetryDelay(31, base, max).None?;
    }
  }

  lemma DelayDefined(n: nat, base: int, max: int)
    requires base >= 1 && base * Pow2(30) <= INT64_MAX
    ensures RetryDelay(n, base, max).Some?
  {
    ProductMonotone(n, n, base);
  }

  /**
   * The code computes a delay only for a failure that is to be retried; where that delay
   * overflows, C++ gives the call no meaning.
   */
  predicate DelayKnown(c: Config, attempts: nat, retryable: bool) {
    ShouldMarkDead(attempts, c.maxAttempts, retryable) || RetryDelay(attempts, c.baseDelay, c.maxDelay).Some?
  }

  /** No attempt that may be retried has an overflowing delay. */
  predicate DelaysFit(c: Config) {
    c.maxAttempts >= 1 && RetryDelay(c.maxAttempts - 1, c.baseDelay, c.maxDelay).Some?
  }

  /** Every delay the worker may have to compute is defined exactly when the last one is. */
  lemma DelaysFitExactly(c: Config)
    requires WellFormed(c)
    ensures DelaysFit(c) <==> forall n: nat, retryable: bool :: DelayKnown(c, n, retryable)
  {
    if DelaysFit(c) {
      forall n: nat, retryable: bool ensures DelayKnown(c, n, retryable) {
        if n < c.maxAttempts { DelayBounds(n, c.maxAttempts - 1, c.baseDelay, c.maxDelay); }
      }
    } else {
      assert !DelayKnown(c, c.maxAttempts - 1, true);
    }
  }

  /** A defined delay lies between the base and the maximum and never shrinks with the attempt. */
  lemma DelayBounds(a: nat, b: nat, base: int, max: int)
    requires 1 <= base <= max && a <= b
    requires RetryDelay(b, base, max).Some?
    ensures RetryDelay(a, base, max).Some?
    ensures base <= RetryDelay(a, base, max).value <= RetryDelay(b, base, max).value <= max
  {
    ProductMonotone(a, b, base);
  }

  /** The uncapped exponential schedule that the policy is meant to follow. */
  function Exponential(n: nat, base: int, max: int): int
    requires n >= 1
  {
    Min(base * Pow2(n - 1), max)
  }

  ghost predicate FollowsExponential(base: int, max: int) {
    forall n: nat :: n >= 1 ==> RetryDelay(n, base, max) == Some(Exponential(n, base, max))
  }

  lemma LateAttemptsAreCapped(n: nat, base: int, max: int)
    requires n >= 31 && base >= 1 && max <= base * Pow2(30)
    ensures Exponential(n, base, max) == max
  {
    Pow2Monotone(30, n - 1);
    MulMonotone(base, Pow2(30), Pow2(n - 1));
  }

  lemma DelayFollows(n: nat, base: int, max: int)
    requires n >= 1 && base >= 1 && max <= base * Pow2(30) <= INT64_MAX
    ensures RetryDelay(n, base, max) == Some(Exponential(n, base, max))
  {
    DelayDefined(n, base, max);
    LateScale(n);
    if n > 31 { LateAttemptsAreCapped(n, base, max); }
  }

  lemma DelayStops(base: int, max: int)
    requires base >= 1 && base * Pow2(30) <= INT64_MAX && base * Pow2(30) < max
    ensures RetryDelay(32, base, max) == Some(base * Pow2(30)) && Exponential(32, base, max) > base * Pow2(30)
  {
    DelayDefined(32, base, max);
    LateScale(32);
    assert base * Pow2(31) == 2 * (base * Pow2(30));
    MulMonotone(base, 1, Pow2(30));
  }

  /**
   * The capped exponent is invisible exactly when the maximum delay is reached within 30
   * doublings, none of which overflows.
   */
  lemma DelayIsExponentialExactly(base: int, max: int)
    requires 1 <= base <= max
    ensures FollowsExponential(base, max) <==> max <= base * Pow2(30) <= INT64_MAX
  {
    if base * Pow2(30) > INT64_MAX {
      LateScale(31);
      assert RetryDelay(31, base, max).None?;
    } else if max <= base * Pow2(30) {
      forall n: nat | n >= 1 ensures RetryDelay(n, base, max) == Some(Exponential(n, base, max)) {
        DelayFollows(n, base, max);
      }
    } else {
      DelayStops(base, max);
    }
  }

  /** static_cast<std::int32_t> of a size: two's-complement truncation. */
  function ToInt32(n: nat): (r: int)
    ensures -INT32_MAX - 1 <= r <= INT32_MAX && (n - r) % 0x1_0000_0000 == 0
    ensures r == n <==> n <= INT32_MAX
    ensures r <= n
  {
    var w := n % 0x1_0000_0000;
    if w <= INT32_MAX then w else w - 0x1_0000_0000
  }
}
