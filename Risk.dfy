/** Stop-price placement from the average true range. */
module Risk {
  import opened Numbers

  /** The stop `k` ATRs below the entry, floored at zero. */
  function ComputeStop(entry: real, atr: real, k: real): (stop: real)
    ensures stop >= 0.0
    ensures entry - atr * k >= 0.0 ==> stop == entry - atr * k
    ensures stop == 0.0 <==> atr * k >= entry
    ensures entry >= 0.0 && atr * k >= 0.0 ==> stop <= entry
  {
    Max(0.0, entry - atr * k)
  }

  /** entry 100, ATR 2, multiplier 1.5 give 97; entry 1, ATR 5, multiplier 1 give 0. */
  lemma ComputeStopExamples()
    ensures ComputeStop(100.0, 2.0, 1.5) == 97.0
    ensures ComputeStop(1.0, 5.0, 1.0) == 0.0
  {
  }
}
