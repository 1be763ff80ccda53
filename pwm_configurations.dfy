/**
 * The prescaler/period enumerator of app.py: try every prescaler from 1 to
 * 65536 in ascending order and keep (prescaler, period) whenever
 * `clock / (prescaler * target)` is a whole number between 1 and 65535.
 * Frequencies are exact reals, so "is a whole number" is exact.
 */
module PwmConfigurations {

  /** Prescalers tried: 1 ..= 65536. */
  const MaxPrescaler: nat := 65536

  /** Largest period the 16-bit auto-reload register holds. */
  const MaxPeriod: nat := 65535

  /** One admissible timer setting. */
  datatype Config = Config(prescaler: nat, period: nat)

  /** The counter period a prescaler needs, before it is checked. */
  function Quotient(target: real, clock: real, p: nat): (q: real)
    requires target != 0.0 && p >= 1
    ensures q * (p as real * target) == clock
  {
    clock / (p as real * target)
  }

  /** An integer's value as a real (a named term, so that quantifiers over integers can mention it). */
  function AsReal(n: int): real {
    n as real
  }

  /** Python's `float.is_integer()`: the value of some integer. */
  predicate IsWhole(x: real)
    ensures IsWhole(x) <==> exists n: int :: AsReal(n) == x
  {
    AsReal(x.Floor) == x
  }

  /** The filter of the loop body: the quotient is a whole number in [1, MaxPeriod]. */
  predicate Admits(target: real, clock: real, p: nat)
    requires target != 0.0 && p >= 1
  {
    var q := Quotient(target, clock, p);
    1.0 <= q <= MaxPeriod as real && IsWhole(q)
  }

  /** With a positive target, an admitted prescaler times the target never exceeds the clock. */
  lemma AdmitsBound(target: real, clock: real, p: nat)
    requires target > 0.0 && p >= 1 && Admits(target, clock, p)
    ensures p as real * target <= clock
  {
  }

  /** The period recorded for an admitted prescaler (the quotient as an integer). */
  function Period(target: real, clock: real, p: nat): (n: nat)
    requires target != 0.0 && p >= 1 && Admits(target, clock, p)
    ensures 1 <= n <= MaxPeriod
    ensures n as real * p as real * target == clock
  {
    Quotient(target, clock, p).Floor
  }

  /**
   * What the loop has collected after trying prescalers 1 ..= k: the
   * admitted ones, in the order they were tried.
   */
  function ConfigsUpTo(target: real, clock: real, k: nat): (r: seq<Config>)
    requires target != 0.0
    ensures |r| <= k
  {
    if k == 0 then []
    else
      ConfigsUpTo(target, clock, k - 1)
      + (if Admits(target, clock, k) then [Config(k, Period(target, clock, k))] else [])
  }

  /** Period × prescaler × target is the clock exactly: the timer then runs at `target`. */
  predicate Yields(target: real, clock: real, p: nat, n: nat) {
    n as real * p as real * target == clock
  }

  /** A configuration the hardware accepts that really gives the target. */
  predicate Exact(target: real, clock: real, c: Config) {
    && 1 <= c.prescaler <= MaxPrescaler
    && 1 <= c.period <= MaxPeriod
    && Yields(target, clock, c.prescaler, c.period)
  }

  /** Prescalers strictly increase along the sequence, so none appears twice. */
  predicate Ascending(r: seq<Config>) {
    forall i, j :: 0 <= i < j < |r| ==> r[i].prescaler < r[j].prescaler
  }

  // ---------------------------------------------------------------------------
  // The filter, stated without division

  /** A whole-number period in range times prescaler times target equal to the clock is exactly what the filter admits. */
  lemma AdmitsIff(target: real, clock: real, p: nat, n: nat)
    requires target != 0.0 && p >= 1
    ensures (Admits(target, clock, p) && Period(target, clock, p) == n)
            <==> (1 <= n <= MaxPeriod && Yields(target, clock, p, n))
  {
    var d := p as real * target;
    assert d != 0.0;
    if 1 <= n <= MaxPeriod && Yields(target, clock, p, n) {
      assert n as real * d == clock;
      assert Quotient(target, clock, p) == n as real;
    }
  }

  /** A prescaler is admitted exactly when some period in range makes the product equal the clock. */
  lemma AdmitsIffExists(target: real, clock: real, p: nat)
    requires target != 0.0 && p >= 1
    ensures Admits(target, clock, p)
            <==> exists n: nat :: 1 <= n <= MaxPeriod && Yields(target, clock, p, n)
  {
    if Admits(target, clock, p) {
      var n := Period(target, clock, p);
      AdmitsIff(target, clock, p, n);
    }
    if n: nat :| 1 <= n <= MaxPeriod && Yields(target, clock, p, n) {
      AdmitsIff(target, clock, p, n);
    }
  }

  /**
   * For whole-number frequencies the filter is divisibility: the prescaler
   * is admitted exactly when `prescaler * target` divides the clock with a
   * quotient in [1, MaxPeriod], and that quotient is the period.
   */
  lemma AdmitsIffDivides(target: nat, clock: nat, p: nat)
    requires target > 0 && p >= 1
    ensures Admits(target as real, clock as real, p)
            <==> (clock % (p * target) == 0 && 1 <= clock / (p * target) <= MaxPeriod)
    ensures Admits(target as real, clock as real, p) ==> Period(target as real, clock as real, p) == clock / (p * target)
  {
    var d := p * target;
    assert d >= 1 by { assert p * target >= 1 * target; }
    if clock % d == 0 && 1 <= clock / d <= MaxPeriod {
      DividesAdmits(target, clock, p);
    }
    if Admits(target as real, clock as real, p) {
      AdmitsDivides(target, clock, p);
    }
  }

  /** Divisibility with a quotient in range admits the prescaler with that quotient as period. */
  lemma DividesAdmits(target: nat, clock: nat, p: nat)
    requires target > 0 && p >= 1 && p * target >= 1
    requires clock % (p * target) == 0 && 1 <= clock / (p * target) <= MaxPeriod
    ensures Admits(target as real, clock as real, p) && Period(target as real, clock as real, p) == clock / (p * target)
  {
    var d := p * target;
    assert (p as real) * (target as real) == d as real;
    var n := clock / d;
    assert n * d == clock;
    assert n as real * d as real == clock as real;
    AdmitsIff(target as real, clock as real, p, n);
  }

  /** An admitted prescaler times the target divides the clock, and the period is the quotient. */
  lemma AdmitsDivides(target: nat, clock: nat, p: nat)
    requires target > 0 && p >= 1 && p * target >= 1
    requires Admits(target as real, clock as real, p)
    ensures clock % (p * target) == 0 && Period(target as real, clock as real, p) == clock / (p * target)
  {
    var d := p * target;
    assert (p as real) * (target as real) == d as real;
    var m := Period(target as real, clock as real, p);
    assert m as real * d as real == clock as real;
    assert m * d == clock;
    DivExact(clock, d, m);
  }

  lemma DivExact(c: nat, d: nat, m: nat)
    requires d >= 1 && m * d == c
    ensures c % d == 0 && c / d == m
  {
    var q, r := c / d, c % d;
    assert c == q * d + r && 0 <= r < d;
    assert (m - q) * d == r;
    ScaledBounds(m - q, d);
  }

  lemma ScaledBounds(a: int, d: int)
    requires d >= 1
    ensures a >= 1 ==> a * d >= d
    ensures a <= -1 ==> a * d <= -d
  {
  }

  // ---------------------------------------------------------------------------
  // Properties of the collected sequence

  /** Soundness: everything collected up to k has a prescaler in [1, k], passed the filter and carries its period. */
  lemma {:induction false} ConfigsUpToSound(target: real, clock: real, k: nat)
    requires target != 0.0
    ensures forall c :: c in ConfigsUpTo(target, clock, k) ==>
              1 <= c.prescaler <= k && Admits(target, clock, c.prescaler)
              && c.period == Period(target, clock, c.prescaler)
  {
    if k > 0 {
      ConfigsUpToSound(target, clock, k - 1);
    }
  }

  /** Completeness: every admitted prescaler in [1, k] is collected, with its period. */
  lemma {:induction false} ConfigsUpToComplete(target: real, clock: real, k: nat)
    requires target != 0.0
    ensures forall p :: 1 <= p <= k && Admits(target, clock, p) ==>
              Config(p, Period(target, clock, p)) in ConfigsUpTo(target, clock, k)
  {
    if k > 0 {
      ConfigsUpToComplete(target, clock, k - 1);
    }
  }

  /** Prescalers come out strictly ascending, so none appears twice. */
  lemma {:induction false} ConfigsUpToAscending(target: real, clock: real, k: nat)
    requires target != 0.0
    ensures Ascending(ConfigsUpTo(target, clock, k))
  {
    if k > 0 {
      ConfigsUpToAscending(target, clock, k - 1);
      ConfigsUpToSound(target, clock, k - 1);
      var r0 := ConfigsUpTo(target, clock, k - 1);
      var r := ConfigsUpTo(target, clock, k);
      forall i, j | 0 <= i < j < |r|
        ensures r[i].prescaler < r[j].prescaler
      {
        assert r[i] == r0[i] && r0[i] in r0;
        assert r0[i].prescaler <= k - 1;
        if j < |r0| {
          assert r[j] == r0[j] && r0[i].prescaler < r0[j].prescaler;
        } else {
          assert Admits(target, clock, k) && r == r0 + [Config(k, Period(target, clock, k))];
          assert r[j].prescaler == k;
        }
      }
    }
  }

  /** Nothing is collected exactly when no prescaler in [1, k] passes the filter. */
  lemma ConfigsUpToEmpty(target: real, clock: real, k: nat)
    requires target != 0.0
    ensures ConfigsUpTo(target, clock, k) == [] <==> forall p :: 1 <= p <= k ==> !Admits(target, clock, p)
  {
    ConfigsUpToSound(target, clock, k);
    ConfigsUpToComplete(target, clock, k);
    var r := ConfigsUpTo(target, clock, k);
    if r != [] {
      assert r[0] in r;
    }
  }

  /** The smallest admitted prescaler comes first. */
  lemma ConfigsUpToFirst(target: real, clock: real, k: nat, p: nat)
    requires target != 0.0 && 1 <= p <= k && Admits(target, clock, p)
    requires forall q :: 1 <= q < p ==> !Admits(target, clock, q)
    ensures var r := ConfigsUpTo(target, clock, k);
            r != [] && r[0] == Config(p, Period(target, clock, p))
  {
    var r := ConfigsUpTo(target, clock, k);
    ConfigsUpToComplete(target, clock, k);
    ConfigsUpToSound(target, clock, k);
    ConfigsUpToAscending(target, clock, k);
    var c := Config(p, Period(target, clock, p));
    assert c in r;
    var i :| 0 <= i < |r| && r[i] == c;
    assert r[0] in r;
  }

  /** A target above the clock (both positive) leaves nothing: every quotient is below 1. */
  lemma TargetAboveClock(target: real, clock: real, k: nat)
    requires 0.0 < clock < target
    ensures ConfigsUpTo(target, clock, k) == []
  {
    forall p | 1 <= p <= k
      ensures !Admits(target, clock, p)
    {
      var d := p as real * target;
      assert d >= target by { assert (p as real - 1.0) * target >= 0.0; }
      var q := Quotient(target, clock, p);
      assert q * d == clock;
      assert q >= 1.0 ==> (q - 1.0) * d >= 0.0;
    }
    ConfigsUpToEmpty(target, clock, k);
  }

  // ---------------------------------------------------------------------------
  // Worked inputs, each stated over parameters that the requires fixes to the literals

  /** Equal target and clock: prescaler 1 with period 1 is found. */
  lemma EqualFrequencies(target: real, clock: real)
    requires target == 1000000.0 && clock == 1000000.0
    ensures Config(1, 1) in ConfigsUpTo(target, clock, MaxPrescaler)
  {
    AdmitsIff(target, clock, 1, 1);
    ConfigsUpToComplete(target, clock, MaxPrescaler);
  }

  /**
   * 1 kHz from 72 MHz: prescaler 1 would need period 72000, beyond the
   * register, so the first setting found is prescaler 2 with period 36000.
   */
  lemma KilohertzFromSeventyTwoMegahertz(target: real, clock: real, k: nat)
    requires target == 1000.0 && clock == 72000000.0 && k == MaxPrescaler
    ensures var r := ConfigsUpTo(target, clock, k);
            r != [] && r[0] == Config(2, 36000)
  {
    AdmitsIff(target, clock, 2, 36000);
    assert !Admits(target, clock, 1) by {
      assert Quotient(target, clock, 1) == 72000.0;
    }
    ConfigsUpToFirst(target, clock, k, 2);
  }

  // ---------------------------------------------------------------------------
  // calculate_pwm_configurations

  /**
   * Every (prescaler, period) pair that produces `target` from `clock`:
   * the loop over prescalers 1 ..= 65536 appending the admitted ones.
   * `target` must be non-zero; the division by zero is not modelled.
   */
  method CalculateConfigurations(target: real, clock: real) returns (configs: seq<Config>)
    requires target != 0.0
    ensures configs == ConfigsUpTo(target, clock, MaxPrescaler)
    ensures forall i :: 0 <= i < |configs| ==> Exact(target, clock, configs[i])
    ensures forall p, n: nat ::
              1 <= p <= MaxPrescaler && 1 <= n <= MaxPeriod && Yields(target, clock, p, n) ==> Config(p, n) in configs
    ensures Ascending(configs)
  {
    configs := [];
    var prescaler: nat := 1;
    while prescaler <= MaxPrescaler
      invariant 1 <= prescaler <= MaxPrescaler + 1
      invariant configs == ConfigsUpTo(target, clock, prescaler - 1)
    {
      var period := clock / (prescaler as real * target);
      assert period == Quotient(target, clock, prescaler);
      if 1.0 <= period <= MaxPeriod as real && period.Floor as real == period {
        configs := configs + [Config(prescaler, period.Floor)];
      }
      assert configs == ConfigsUpTo(target, clock, prescaler);
      prescaler := prescaler + 1;
    }
    ConfigsUpToSound(target, clock, MaxPrescaler);
    ConfigsUpToComplete(target, clock, MaxPrescaler);
    ConfigsUpToAscending(target, clock, MaxPrescaler);
    forall i | 0 <= i < |configs|
      ensures Exact(target, clock, configs[i])
    {
      assert configs[i] in configs;
    }
    forall p, n: nat | 1 <= p <= MaxPrescaler && 1 <= n <= MaxPeriod && Yields(target, clock, p, n)
      ensures Config(p, n) in configs
    {
      AdmitsIff(target, clock, p, n);
    }
  }
}
