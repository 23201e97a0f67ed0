/** Risk-budget position sizing. */
module Position {
  import opened Numbers

  /** The smallest per-unit risk the sizer divides by. */
  const MinPerUnitRisk: real := 0.000001

  /** The per-unit risk `entry - stop`, clamped from below so it is never zero. */
  function PerUnitRisk(entry: real, stop: real): (u: real)
    ensures u >= MinPerUnitRisk
    ensures u >= entry - stop
    ensures u == entry - stop || u == MinPerUnitRisk
  {
    Max(entry - stop, MinPerUnitRisk)
  }

  /**
   * The quantity that loses exactly `equity * riskPct` if the stop is hit,
   * or nothing when that budget is not positive.
   */
  function PositionSize(entry: real, stop: real, equity: real, riskPct: real): (qty: real)
    ensures qty >= 0.0
    ensures qty * PerUnitRisk(entry, stop) == Max(equity * riskPct, 0.0)
    ensures equity * riskPct <= 0.0 ==> qty == 0.0
  {
    Max(equity * riskPct / PerUnitRisk(entry, stop), 0.0)
  }

  /** With a real gap between entry and stop, the budget is divided by that gap. */
  lemma SizeWithGap(entry: real, stop: real, equity: real, riskPct: real)
    requires entry - stop >= MinPerUnitRisk
    requires equity * riskPct >= 0.0
    ensures PositionSize(entry, stop, equity, riskPct) == equity * riskPct / (entry - stop)
  {
    var q := PositionSize(entry, stop, equity, riskPct);
    assert q * (entry - stop) == equity * riskPct;
  }

  /** A stop at or above the entry clamps the divisor, multiplying the budget by a million. */
  lemma SizeWithStopAboveEntry(entry: real, stop: real, equity: real, riskPct: real)
    requires stop >= entry
    ensures PositionSize(entry, stop, equity, riskPct) == Max(equity * riskPct * 1000000.0, 0.0)
  {
    var q := PositionSize(entry, stop, equity, riskPct);
    assert PerUnitRisk(entry, stop) == MinPerUnitRisk;
    assert q * MinPerUnitRisk == Max(equity * riskPct, 0.0);
  }

  /** entry 100, stop 95, equity 2000 and 1% risk give 4 units. */
  lemma SizeExample()
    ensures PositionSize(100.0, 95.0, 2000.0, 0.01) == 4.0
  {
    SizeWithGap(100.0, 95.0, 2000.0, 0.01);
  }
}
