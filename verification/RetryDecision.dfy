/** Whether and when to retry (src/agent/retry.rs:12-61), with the delays as reals. */
module RetryDecision {
  import opened Wrappers
  import opened Text
  import opened RetryKey

  datatype Decision = Retry(delay: real) | NeedsSample | Stop

  datatype Failed = Failed(code: string, retryAfter: Option<real>)

  const MAX_EXPONENT: nat := 1_024

  /** What `RetryBackoff::new` admits (src/provider/retry.rs:43-71). */
  predicate ValidBackoff(b: Backoff) {
    0.0 < b.initialDelay <= b.maxDelay && 0.0 <= b.jitterRatio <= 1.0
  }

  function PowerOfTwo(k: nat): (r: real)
    ensures r >= 1.0
  {
    if k == 0 then 1.0 else 2.0 * PowerOfTwo(k - 1)
  }

  function MinReal(a: real, b: real): real {
    if a <= b then a else b
  }

  function Clamp(x: real, low: real, high: real): (r: real)
    ensures low <= high ==> low <= r <= high
  {
    if x < low then low else if x > high then high else x
  }

  predicate Eligible(p: Policy, failure: Failed, retry: nat) {
    p.mode.Always? || (p.maxRetries.Some? && retry <= p.maxRetries.value && failure.code in p.codes)
  }

  /** The exponential delay before jitter. */
  function Base(b: Backoff, retry: nat): real {
    MinReal(b.initialDelay * PowerOfTwo(Min(SaturatingSub(retry, 1), MAX_EXPONENT)), b.maxDelay)
  }

  function Factor(ratio: real, sample: real): real {
    1.0 - ratio + 2.0 * ratio * sample
  }

  function Product(a: real, b: real): real {
    a * b
  }

  function LocalDelay(b: Backoff, retry: nat, sample: real): real {
    Clamp(Product(Base(b, retry), Factor(b.jitterRatio, sample)), 0.0, b.maxDelay)
  }

  function Decide(p: Policy, failure: Failed, retry: nat, sample: Option<real>): Decision {
    if !Eligible(p, failure, retry) then Stop
    else if failure.retryAfter.Some? && failure.retryAfter.value <= p.backoff.maxDelay then Retry(failure.retryAfter.value)
    else if failure.retryAfter.Some? && p.mode.Normal? then Stop
    else if sample.None? then NeedsSample
    else Retry(LocalDelay(p.backoff, retry, sample.value))
  }

  lemma {:induction false} PowerGrows(m: nat, n: nat)
    requires m <= n
    ensures PowerOfTwo(m) <= PowerOfTwo(n)
  {
    if m < n {
      PowerGrows(m, n - 1);
    }
  }

  lemma NonNegative(a: real, b: real)
    requires a >= 0.0 && b >= 0.0
    ensures a * b >= 0.0
  {
  }

  lemma ProductMonotone(a: real, b: real, factor: real)
    requires a <= b && factor >= 0.0
    ensures Product(a, factor) <= Product(b, factor) && Product(factor, a) <= Product(factor, b)
  {
    NonNegative(b - a, factor);
    assert (b - a) * factor == b * factor - a * factor;
  }

  lemma FactorRange(ratio: real, sample: real)
    requires 0.0 <= ratio <= 1.0 && 0.0 <= sample <= 1.0
    ensures 0.0 <= 1.0 - ratio <= Factor(ratio, sample) <= 1.0 + ratio
    ensures Factor(ratio, 0.5) == 1.0
  {
    NonNegative(ratio, sample);
    NonNegative(ratio, 1.0 - sample);
    assert 2.0 * ratio * sample == 2.0 * (ratio * sample);
    assert ratio * (1.0 - sample) == ratio - ratio * sample;
  }

  lemma BaseGrows(b: Backoff, retry: nat)
    requires ValidBackoff(b)
    ensures 0.0 <= Base(b, retry) <= Base(b, retry + 1) <= b.maxDelay
  {
    var m, n := Min(SaturatingSub(retry, 1), MAX_EXPONENT), Min(SaturatingSub(retry + 1, 1), MAX_EXPONENT);
    PowerGrows(m, n);
    hide PowerOfTwo;
    ProductMonotone(PowerOfTwo(m), PowerOfTwo(n), b.initialDelay);
    ProductMonotone(1.0, PowerOfTwo(m), b.initialDelay);
  }

  /** Whatever the failure and the sample, a delay is within the policy's maximum. */
  lemma DelaysAreBounded(p: Policy, failure: Failed, retry: nat, sample: Option<real>)
    requires ValidBackoff(p.backoff) && (failure.retryAfter.Some? ==> failure.retryAfter.value > 0.0)
    ensures var d := Decide(p, failure, retry, sample);
      && (d.Retry? ==> 0.0 <= d.delay <= p.backoff.maxDelay && Eligible(p, failure, retry))
      && (p.mode.Always? ==> !d.Stop?)
      && (d.NeedsSample? ==> sample.None? && !Decide(p, failure, retry, Some(0.5)).NeedsSample?)
  {
    hide Product, Base, Factor, Clamp;
  }

  /** For one sample the delay never shrinks from one retry to the next. */
  lemma DelaysGrow(b: Backoff, retry: nat, sample: real)
    requires ValidBackoff(b) && 0.0 <= sample <= 1.0
    ensures LocalDelay(b, retry, sample) <= LocalDelay(b, retry + 1, sample)
  {
    hide Product, Base, Factor;
    FactorRange(b.jitterRatio, sample);
    BaseGrows(b, retry);
    ProductMonotone(Base(b, retry), Base(b, retry + 1), Factor(b.jitterRatio, sample));
  }

  /** Jitter is symmetric: the delay stays within the ratio of the unjittered one. */
  lemma JitterIsSymmetric(b: Backoff, retry: nat, sample: real)
    requires ValidBackoff(b) && 0.0 <= sample <= 1.0
    ensures LocalDelay(b, retry, 0.5) == Base(b, retry)
    ensures Product(Base(b, retry), 1.0 - b.jitterRatio) <= LocalDelay(b, retry, sample) <= Product(Base(b, retry), 1.0 + b.jitterRatio)
  {
    var base := Base(b, retry);
    assert Product(base, 1.0) == base && Product(base, 0.0) == 0.0;
    hide Product, Base, Factor;
    FactorRange(b.jitterRatio, sample);
    BaseGrows(b, retry);
    ProductMonotone(1.0 - b.jitterRatio, Factor(b.jitterRatio, sample), base);
    ProductMonotone(Factor(b.jitterRatio, sample), 1.0 + b.jitterRatio, base);
    ProductMonotone(0.0, 1.0 - b.jitterRatio, base);
    ProductMonotone(1.0 - b.jitterRatio, 1.0, base);
  }

  /** The undisturbed delay is the initial one at first, doubles from one retry to the next up to the maximum, and stops growing after 1024 doublings. */
  lemma DelayDoubles(b: Backoff, retry: nat)
    requires ValidBackoff(b) && retry >= 1
    ensures LocalDelay(b, 0, 0.5) == LocalDelay(b, 1, 0.5) == b.initialDelay
    ensures LocalDelay(b, retry + 1, 0.5) ==
      if retry > 1_024 then LocalDelay(b, retry, 0.5)
      else if 2.0 * LocalDelay(b, retry, 0.5) <= b.maxDelay then 2.0 * LocalDelay(b, retry, 0.5) else b.maxDelay
  {
    JitterIsSymmetric(b, 0, 0.5);
    JitterIsSymmetric(b, 1, 0.5);
    JitterIsSymmetric(b, retry, 0.5);
    JitterIsSymmetric(b, retry + 1, 0.5);
    if retry <= 1_024 {
      var power := PowerOfTwo(retry - 1);
      assert PowerOfTwo(retry) == 2.0 * power;
      assert b.initialDelay * (2.0 * power) == 2.0 * (b.initialDelay * power);
      if b.initialDelay * power > b.maxDelay {
        assert 2.0 * (b.initialDelay * power) > b.maxDelay;
      }
    }
  }

  /** From the low end of the jitter range at 0 to its high end at 1. */
  function Spread(base: real, ratio: real, sample: real): real {
    var low, high := base - base * ratio, base + base * ratio;
    low + (high - low) * sample
  }

  /** The sample moves the delay over the whole jitter range of the undisturbed one, in proportion, and never past the maximum. */
  lemma JitterSpansRange(b: Backoff, retry: nat, sample: real)
    requires ValidBackoff(b) && 0.0 <= sample <= 1.0
    ensures LocalDelay(b, retry, sample) == MinReal(Spread(LocalDelay(b, retry, 0.5), b.jitterRatio, sample), b.maxDelay)
  {
    hide Base, Factor, Product, Clamp, LocalDelay, Spread, ValidBackoff;
    var base, ratio := Base(b, retry), b.jitterRatio;
    JitterIsSymmetric(b, retry, 0.5);
    BaseGrows(b, retry);
    RatioRange(b);
    FactorRange(ratio, sample);
    Distributes(base, ratio, sample);
    NonNegative(base, Factor(ratio, sample));
    LocalDelayIs(b, retry, sample);
    assert base == LocalDelay(b, retry, 0.5);
    assert base * Factor(ratio, sample) == Spread(LocalDelay(b, retry, 0.5), ratio, sample);
  }

  lemma RatioRange(b: Backoff)
    requires ValidBackoff(b)
    ensures 0.0 <= b.jitterRatio <= 1.0
  {
  }

  lemma LocalDelayIs(b: Backoff, retry: nat, sample: real)
    requires Base(b, retry) * Factor(b.jitterRatio, sample) >= 0.0
    ensures LocalDelay(b, retry, sample) == MinReal(Base(b, retry) * Factor(b.jitterRatio, sample), b.maxDelay)
  {
    hide Base, Factor;
  }

  lemma Distributes(base: real, ratio: real, sample: real)
    ensures base * Factor(ratio, sample) == Spread(base, ratio, sample)
  {
    var part := ratio * sample;
    assert Factor(ratio, sample) == 1.0 - ratio + 2.0 * part;
    assert base * (1.0 - ratio + 2.0 * part) == base - base * ratio + 2.0 * (base * part);
    assert base * part == base * ratio * sample;
  }

  /**
    What is decided, case by case: the normal mode gives up past its cap, on a code it does
    not list, and on a provider delay beyond the maximum; a provider delay within the
    maximum is taken as it is; everything else waits the local delay.
  */
  lemma DecisionIs(p: Policy, failure: Failed, retry: nat, sample: Option<real>)
    ensures var d := Decide(p, failure, retry, sample);
      var after := failure.retryAfter;
      && (d.Stop? <==>
            && p.mode.Normal?
            && (p.maxRetries.None? || retry > p.maxRetries.value || failure.code !in p.codes
                || (after.Some? && after.value > p.backoff.maxDelay)))
      && (!d.Stop? && after.Some? && after.value <= p.backoff.maxDelay ==> d == Retry(after.value))
      && (!d.Stop? && (after.None? || after.value > p.backoff.maxDelay) ==>
            d == if sample.Some? then Retry(LocalDelay(p.backoff, retry, sample.value)) else NeedsSample)
  {
    hide LocalDelay;
  }
}
