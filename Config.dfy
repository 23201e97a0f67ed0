/** The part of the bot's configuration that the modelled core reads. */
module Config {

  /** Fee schedule; only the taker rate is charged by the paper broker. */
  datatype Fees = Fees(taker: real)

  /**
   * Run parameters. `enableVolFilter` and `volSmaPeriod` are the optional
   * attributes that the indicator engine looks up with a default
   * (off, and 20 bars).
   */
  datatype AppConfig = AppConfig(
    slippageBps: int,
    fees: Fees,
    emaFast: int,
    emaSlow: int,
    rsiPeriod: int,
    rsiBuyMin: int,
    rsiBuyMax: int,
    enableVolFilter: bool,
    volSmaPeriod: int)

  const DefaultFees: Fees := Fees(0.001)

  /** The defaults of the configuration record. */
  const Default: AppConfig := AppConfig(5, DefaultFees, 50, 200, 14, 45, 60, false, 20)

  /** `slippage_bps` read as basis points: 1 bp is 1/10000. */
  function SlippageFraction(cfg: AppConfig): real
  {
    cfg.slippageBps as real / 10000.0
  }
}
