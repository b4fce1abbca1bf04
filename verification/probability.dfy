/**
 * The heads probability of backend/src/session/probability.ts. The three rates
 * come from the environment; the clock reading is a parameter. JavaScript
 * doubles are modelled by exact reals.
 */
module Probability {

  import opened Wrappers

  datatype Rates = Rates(base: real, timeRate: real, flipRate: real)

  const DEFAULT_BASE: real := 30.0
  const DEFAULT_TIME_RATE: real := 0.05
  const DEFAULT_FLIP_RATE: real := 0.002
  /** The percentage is clamped here before it is turned into a probability. */
  const CAP_PERCENT: real := 60.0
  const MS_PER_MINUTE: int := 60000

  /**
   * A configured number, or the default when it is falsy: the environment value
   * is unset or not a number (None) or it is zero.
   */
  function OrDefault(configured: Option<real>, default: real): (r: real)
    ensures configured.None? ==> r == default
    ensures configured == Some(0.0) ==> r == default
    ensures configured.Some? && configured.value != 0.0 ==> r == configured.value
  {
    match configured
    case None => default
    case Some(v) => if v == 0.0 then default else v
  }

  /** The rates as loaded once when the module is first imported. */
  function LoadRates(base: Option<real>, timeRate: Option<real>, flipRate: Option<real>): Rates
  {
    Rates(OrDefault(base, DEFAULT_BASE), OrDefault(timeRate, DEFAULT_TIME_RATE), OrDefault(flipRate, DEFAULT_FLIP_RATE))
  }

  const DEFAULT_RATES := LoadRates(None, None, None)

  function Min(a: real, b: real): real
  {
    if a <= b then a else b
  }

  /** The uncapped percentage: base plus a bonus per elapsed minute and per flip. */
  function Percent(rates: Rates, startedAt: int, totalFlips: nat, now: int): real
  {
    var minutes := (now - startedAt) as real / MS_PER_MINUTE as real;
    rates.base + minutes * rates.timeRate + totalFlips as real * rates.flipRate
  }

  /**
   * `headsProbability(startedAt, totalFlips)` read at time `now`. How it grows is
   * stated by `MonotoneInFlips`, `MonotoneInTime` and `AtLeastBase` below.
   */
  function HeadsProbability(rates: Rates, startedAt: int, totalFlips: nat, now: int): (p: real)
    ensures p <= CAP_PERCENT / 100.0
    ensures p == Percent(rates, startedAt, totalFlips, now) / 100.0 || p == CAP_PERCENT / 100.0
  {
    Min(Percent(rates, startedAt, totalFlips, now), CAP_PERCENT) / 100.0
  }

  lemma MonotoneInFlips(rates: Rates, startedAt: int, f1: nat, f2: nat, now: int)
    requires rates.flipRate >= 0.0 && f1 <= f2
    ensures HeadsProbability(rates, startedAt, f1, now) <= HeadsProbability(rates, startedAt, f2, now)
  {
    ScaleMonotone(f1 as real, f2 as real, rates.flipRate);
    assert Percent(rates, startedAt, f1, now) <= Percent(rates, startedAt, f2, now);
    CapMonotone(Percent(rates, startedAt, f1, now), Percent(rates, startedAt, f2, now));
  }

  lemma MonotoneInTime(rates: Rates, startedAt: int, totalFlips: nat, n1: int, n2: int)
    requires rates.timeRate >= 0.0 && n1 <= n2
    ensures HeadsProbability(rates, startedAt, totalFlips, n1) <= HeadsProbability(rates, startedAt, totalFlips, n2)
  {
    var m1 := (n1 - startedAt) as real / MS_PER_MINUTE as real;
    var m2 := (n2 - startedAt) as real / MS_PER_MINUTE as real;
    assert (n1 - startedAt) as real <= (n2 - startedAt) as real;
    assert m1 <= m2 by { DivideMonotone((n1 - startedAt) as real, (n2 - startedAt) as real, MS_PER_MINUTE as real); }
    ScaleMonotone(m1, m2, rates.timeRate);
    assert Percent(rates, startedAt, totalFlips, n1) <= Percent(rates, startedAt, totalFlips, n2);
    CapMonotone(Percent(rates, startedAt, totalFlips, n1), Percent(rates, startedAt, totalFlips, n2));
  }

  lemma ScaleMonotone(x: real, y: real, c: real)
    requires x <= y && c >= 0.0
    ensures x * c <= y * c
  {
    assert y * c - x * c == (y - x) * c;
  }

  lemma CapMonotone(p1: real, p2: real)
    requires p1 <= p2
    ensures Min(p1, CAP_PERCENT) / 100.0 <= Min(p2, CAP_PERCENT) / 100.0
  {
    DivideMonotone(Min(p1, CAP_PERCENT), Min(p2, CAP_PERCENT), 100.0);
  }

  lemma DivideMonotone(x: real, y: real, d: real)
    requires x <= y && d > 0.0
    ensures x / d <= y / d
  {
    assert y / d - x / d == (y - x) / d;
  }

  /** At the start of a session, before any flip, the probability is the base, capped. */
  lemma AtSessionStart(rates: Rates, startedAt: int)
    ensures HeadsProbability(rates, startedAt, 0, startedAt) == Min(rates.base, CAP_PERCENT) / 100.0
    ensures rates == DEFAULT_RATES ==> HeadsProbability(rates, startedAt, 0, startedAt) == 0.30
  {
  }

  /** With the default rates, 10 minutes and 100 flips give (30 + 0.5 + 0.2) / 100. */
  lemma DefaultsAfterTenMinutes(startedAt: int)
    ensures HeadsProbability(DEFAULT_RATES, startedAt, 100, startedAt + 10 * MS_PER_MINUTE) == 0.307
  {
  }

  /** With non-negative rates and a clock not before the start, the probability never falls below the base. */
  lemma AtLeastBase(rates: Rates, startedAt: int, totalFlips: nat, now: int)
    requires rates.timeRate >= 0.0 && rates.flipRate >= 0.0 && now >= startedAt
    ensures Min(rates.base, CAP_PERCENT) / 100.0 <= HeadsProbability(rates, startedAt, totalFlips, now)
  {
    MonotoneInFlips(rates, startedAt, 0, totalFlips, now);
    MonotoneInTime(rates, startedAt, 0, startedAt, now);
  }
}
