/** CPU percentages from two readings of the tick counters, with 64-bit wrap-around. */
module CpuUsage {
  import opened Rates

  datatype Ticks = Ticks(
    id: string, user: u64, nice: u64, system: u64, idle: u64, iowait: u64, irq: u64, softirq: u64, steal: u64)
  {
    function Total(): u64 { (user + nice + system + idle + iowait + irq + softirq + steal) % TWO_TO_64 }

    function IdleTotal(): u64 { (idle + iowait) % TWO_TO_64 }

    function NonIdleTotal(): u64 { (user + nice + system + irq + softirq + steal) % TWO_TO_64 }

    /** The sum over all eight counters stays below 2^64. */
    predicate Fits() { user + nice + system + idle + iowait + irq + softirq + steal < TWO_TO_64 }
  }

  datatype Usage = Usage(id: string, total: real, user: real, system: real, iowait: real, steal: real)

  function Clamp(v: real): real { if v < 0.0 then 0.0 else if v > 100.0 then 100.0 else v }

  function Percent(part: int, whole: int): real
    requires whole > 0
  {
    Clamp(Round2((part as real / whole as real) * 100.0))
  }

  /** `curr - prev` on uint64. */
  function Minus(curr: u64, prev: u64): u64 { (curr - prev) % TWO_TO_64 }

  function Part(prev: u64, curr: u64, deltaTotal: int): real
    requires deltaTotal > 0
  {
    if curr >= prev then Percent(curr - prev, deltaTotal) else 0.0
  }

  function CalculateDelta(prev: Ticks, curr: Ticks): Usage {
    if curr.Total() <= prev.Total() then Usage(curr.id, 0.0, 0.0, 0.0, 0.0, 0.0)
    else
      var dT := Minus(curr.Total(), prev.Total());
      var dI := Minus(curr.IdleTotal(), prev.IdleTotal());
      Usage(curr.id, Percent(dT - dI, dT),
            Part(prev.user, curr.user, dT), Part(prev.system, curr.system, dT),
            Part(prev.iowait, curr.iowait, dT), Part(prev.steal, curr.steal, dT))
  }

  // ---------------------------------------------------------------- results

  /** For every pair of readings, wrapped or not, every percentage lies between 0 and 100. */
  lemma PercentagesInRange(prev: Ticks, curr: Ticks)
    ensures var u := CalculateDelta(prev, curr);
      && 0.0 <= u.total <= 100.0 && 0.0 <= u.user <= 100.0 && 0.0 <= u.system <= 100.0
      && 0.0 <= u.iowait <= 100.0 && 0.0 <= u.steal <= 100.0
  {
  }

  ghost predicate Monotone(prev: Ticks, curr: Ticks) {
    && prev.user <= curr.user && prev.nice <= curr.nice && prev.system <= curr.system && prev.idle <= curr.idle
    && prev.iowait <= curr.iowait && prev.irq <= curr.irq && prev.softirq <= curr.softirq && prev.steal <= curr.steal
  }

  lemma Ratio(part: int, whole: int)
    requires 0 <= part <= whole && whole > 0
    ensures 0.0 <= (part as real / whole as real) * 100.0 <= 100.0
  {
    var r := part as real / whole as real;
    assert r * whole as real == part as real;
    assert 0.0 <= r <= 1.0;
  }

  /** A share of the whole is reported within half a hundredth. */
  lemma PercentError(part: int, whole: int)
    requires 0 <= part <= whole && whole > 0
    ensures Abs(Percent(part, whole) - (part as real / whole as real) * 100.0) <= 0.005
  {
    var x := (part as real / whole as real) * 100.0;
    Ratio(part, whole);
    RoundError(x);
    RoundMonotone(0.0, x);
    RoundMonotone(x, 100.0);
    NearestOfWhole(0.0);
    NearestOfWhole(10000.0);
    assert 0.0 * 100.0 == 0.0 && 100.0 * 100.0 == 10000.0;
    assert Round2(0.0) == 0.0 && Round2(100.0) == 100.0;
  }

  lemma RatioAdd(a: int, b: int, whole: int)
    requires whole > 0
    ensures ((a + b) as real / whole as real) * 100.0 == (a as real / whole as real) * 100.0 + (b as real / whole as real) * 100.0
  {
    var w := whole as real;
    assert (a + b) as real / w == a as real / w + b as real / w;
  }

  lemma RatioMonotone(a: int, b: int, whole: int)
    requires whole > 0 && a <= b
    ensures (a as real / whole as real) * 100.0 <= (b as real / whole as real) * 100.0
  {
    RatioAdd(a, b - a, whole);
    RatioNonNegative(b - a, whole);
  }

  lemma RatioNonNegative(a: int, whole: int)
    requires whole > 0 && a >= 0
    ensures (a as real / whole as real) * 100.0 >= 0.0
  {
  }

  lemma NoWrap(x: int)
    ensures 0 <= x < TWO_TO_64 ==> x % TWO_TO_64 == x
    ensures -TWO_TO_64 <= x < 0 ==> x % TWO_TO_64 == x + TWO_TO_64
  {
  }

  /** The sums of a reading that fits are the plain sums. */
  lemma Sums(t: Ticks)
    requires t.Fits()
    ensures t.Total() == t.user + t.nice + t.system + t.idle + t.iowait + t.irq + t.softirq + t.steal
    ensures t.IdleTotal() == t.idle + t.iowait
    ensures t.NonIdleTotal() == t.Total() - t.IdleTotal()
  {
    NoWrap(t.user + t.nice + t.system + t.idle + t.iowait + t.irq + t.softirq + t.steal);
    NoWrap(t.idle + t.iowait);
    NoWrap(t.user + t.nice + t.system + t.irq + t.softirq + t.steal);
  }

  /** Without wrap-around the differences are the plain ones, and idle and non-idle time make up the total. */
  lemma Deltas(prev: Ticks, curr: Ticks)
    requires Monotone(prev, curr) && curr.Fits()
    ensures prev.Total() <= curr.Total()
    ensures Minus(curr.Total(), prev.Total()) == curr.Total() - prev.Total()
    ensures Minus(curr.IdleTotal(), prev.IdleTotal()) == (curr.idle - prev.idle) + (curr.iowait - prev.iowait)
    ensures Minus(curr.Total(), prev.Total()) - Minus(curr.IdleTotal(), prev.IdleTotal())
         == Minus(curr.NonIdleTotal(), prev.NonIdleTotal())
         == (curr.user - prev.user) + (curr.nice - prev.nice) + (curr.system - prev.system)
            + (curr.irq - prev.irq) + (curr.softirq - prev.softirq) + (curr.steal - prev.steal)
  {
    Sums(prev);
    Sums(curr);
    NoWrap(curr.Total() - prev.Total());
    NoWrap(curr.IdleTotal() - prev.IdleTotal());
    NoWrap(curr.NonIdleTotal() - prev.NonIdleTotal());
  }

  /**
    When no counter goes back and none wraps, the parts do not exceed the whole beyond rounding: user,
    system and steal together stay within 0.02 of the total usage, and total usage and iowait within 100.01.
  */
  lemma PartsWithinTotal(prev: Ticks, curr: Ticks)
    requires Monotone(prev, curr) && curr.Fits()
    ensures var u := CalculateDelta(prev, curr);
      u.user + u.system + u.steal <= u.total + 0.02 && u.total + u.iowait <= 100.01
  {
    Deltas(prev, curr);
    var dT: int := curr.Total() - prev.Total();
    if dT > 0 {
      var busy: int := dT - Minus(curr.IdleTotal(), prev.IdleTotal());
      ThreeParts(curr.user - prev.user, curr.system - prev.system, curr.steal - prev.steal, busy, dT);
      TwoParts(busy, curr.iowait - prev.iowait, dT);
    }
  }

  function Share(part: int, whole: int): real
    requires whole > 0
  {
    part as real / whole as real * 100.0
  }

  /** Each percentage is its own counter's share of the elapsed ticks, within half a hundredth. */
  lemma SharesAreClose(prev: Ticks, curr: Ticks)
    requires Monotone(prev, curr) && curr.Fits() && prev.Total() < curr.Total()
    ensures var u, whole := CalculateDelta(prev, curr), curr.Total() - prev.Total();
      && u.id == curr.id
      && Abs(u.total - Share(curr.NonIdleTotal() - prev.NonIdleTotal(), whole)) <= 0.005
      && Abs(u.user - Share(curr.user - prev.user, whole)) <= 0.005
      && Abs(u.system - Share(curr.system - prev.system, whole)) <= 0.005
      && Abs(u.iowait - Share(curr.iowait - prev.iowait, whole)) <= 0.005
      && Abs(u.steal - Share(curr.steal - prev.steal, whole)) <= 0.005
  {
    var whole := curr.Total() - prev.Total();
    Deltas(prev, curr);
    Sums(prev);
    Sums(curr);
    PercentError(curr.NonIdleTotal() - prev.NonIdleTotal(), whole);
    PercentError(curr.user - prev.user, whole);
    PercentError(curr.system - prev.system, whole);
    PercentError(curr.iowait - prev.iowait, whole);
    PercentError(curr.steal - prev.steal, whole);
  }

  lemma ThreeParts(a: int, b: int, c: int, busy: int, whole: int)
    requires 0 <= a && 0 <= b && 0 <= c && a + b + c <= busy <= whole && whole > 0
    ensures Percent(a, whole) + Percent(b, whole) + Percent(c, whole) <= Percent(busy, whole) + 0.02
  {
    PercentError(a, whole);
    PercentError(b, whole);
    PercentError(c, whole);
    PercentError(busy, whole);
    RatioAdd(a, b, whole);
    RatioAdd(a + b, c, whole);
    RatioMonotone(a + b + c, busy, whole);
  }

  lemma TwoParts(a: int, b: int, whole: int)
    requires 0 <= a && 0 <= b && a + b <= whole && whole > 0
    ensures Percent(a, whole) + Percent(b, whole) <= 100.01
  {
    PercentError(a, whole);
    PercentError(b, whole);
    RatioAdd(a, b, whole);
    Ratio(a + b, whole);
  }

  /**
    When idle time goes back while the total grows, and the sums do not overflow, the wrapped difference
    is at least as large as the whole and the usage is exactly 0.
  */
  lemma IdleRegressionReadsZero(prev: Ticks, curr: Ticks)
    requires prev.Fits() && curr.Fits()
    requires curr.IdleTotal() < prev.IdleTotal() && prev.Total() < curr.Total()
    ensures CalculateDelta(prev, curr).total == 0.0
  {
    var dT: int := Minus(curr.Total(), prev.Total());
    var dI: int := Minus(curr.IdleTotal(), prev.IdleTotal());
    Sums(prev);
    Sums(curr);
    NoWrap(curr.Total() - prev.Total());
    NoWrap(curr.IdleTotal() - prev.IdleTotal());
    assert dT <= dI;
    NegativeReadsZero(dT - dI, dT);
  }

  lemma NegativeReadsZero(part: int, whole: int)
    requires part <= 0 < whole
    ensures Percent(part, whole) == 0.0
  {
    var x := (part as real / whole as real) * 100.0;
    RatioMonotone(part, 0, whole);
    assert x <= 0.0;
    RoundMonotone(x, 0.0);
    NearestOfWhole(0.0);
    assert 0.0 * 100.0 == 0.0;
  }
}
