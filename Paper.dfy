/**
 * The paper-trading broker: a simulated ledger that opens and closes
 * positions with slippage and taker fees, and closes them when a later
 * candle reaches their stop or take-profit.
 */
module Paper {
  import opened Wrappers
  import opened Config
  import opened Candles
  import opened Numbers
  import opened Seqs

  /** The instant the clock reports when a trade is opened or closed. */
  type Timestamp = int

  datatype Side = BuySide | SellSide

  /** A trade; the exit fields are set once, when the position is closed. */
  datatype Trade = Trade(
    symbol: string,
    side: Side,
    entryPrice: real,
    stopPrice: real,
    takeProfit: real,
    qty: real,
    entryTime: Timestamp,
    exitPrice: Option<real>,
    exitTime: Option<Timestamp>,
    pnl: Option<real>)

  predicate IsOpen(t: Trade)
  {
    t.exitPrice.None? && t.exitTime.None? && t.pnl.None?
  }

  predicate IsClosed(t: Trade)
  {
    t.exitPrice.Some? && t.exitTime.Some? && t.pnl.Some?
  }

  // ---------------------------------------------------------------------
  // Fills and fees
  // ---------------------------------------------------------------------

  /** `1 + bps / 10000`: a buy pays this much more, a sell receives this much less. */
  function SlippageFactor(cfg: AppConfig): real
  {
    1.0 + SlippageFraction(cfg)
  }

  /** A sell divides by the slippage factor, which is defined unless `slippage_bps` is -10000. */
  predicate SellFillDefined(cfg: AppConfig)
  {
    SlippageFactor(cfg) != 0.0
  }

  /** `_apply_slippage`: the price actually obtained for an order on the given side. */
  function ApplySlippage(cfg: AppConfig, price: real, side: Side): (fill: real)
    requires side == SellSide ==> SellFillDefined(cfg)
    ensures side == BuySide ==> fill == price + price * cfg.slippageBps as real / 10000.0
    ensures side == SellSide ==> fill * SlippageFactor(cfg) == price
    ensures cfg.slippageBps >= 0 && price >= 0.0 && side == BuySide ==> fill >= price
    ensures cfg.slippageBps >= 0 && price >= 0.0 && side == SellSide ==> fill <= price
  {
    if side == BuySide then price * SlippageFactor(cfg)
    else
      SellFillBelowPrice(cfg, price);
      price / SlippageFactor(cfg)
  }

  lemma SellFillBelowPrice(cfg: AppConfig, price: real)
    requires SellFillDefined(cfg)
    ensures (price / SlippageFactor(cfg)) * SlippageFactor(cfg) == price
    ensures cfg.slippageBps >= 0 && price >= 0.0 ==> price / SlippageFactor(cfg) <= price
  {
    var f := SlippageFactor(cfg);
    if cfg.slippageBps >= 0 && price >= 0.0 {
      var q := price / f;
      assert q * f == price;
      assert q >= 0.0;
      assert q * (f - 1.0) >= 0.0;
    }
  }

  /** Selling at the buy fill gives back the quoted price: the two slippages are inverse. */
  lemma SlippageRoundTrip(cfg: AppConfig, price: real)
    requires SellFillDefined(cfg)
    ensures ApplySlippage(cfg, ApplySlippage(cfg, price, BuySide), SellSide) == price
  {
    var f := SlippageFactor(cfg);
    var b := ApplySlippage(cfg, price, BuySide);
    var s := ApplySlippage(cfg, b, SellSide);
    assert s * f == price * f;
  }

  /** `_taker_fee`: the taker rate applied to the size of the notional, whatever its sign. */
  function TakerFee(cfg: AppConfig, notional: real): (fee: real)
    ensures cfg.fees.taker >= 0.0 ==> fee >= 0.0
    ensures notional == 0.0 ==> fee == 0.0
  {
    Abs(notional) * cfg.fees.taker
  }

  /** The cash a buy of `qty` at `fill` pays: the notional plus its fee. */
  function Cost(cfg: AppConfig, fill: real, qty: real): (c: real)
    ensures cfg.fees.taker >= 0.0 ==> c >= fill * qty
    ensures cfg.fees.taker == 0.0 ==> c == fill * qty
  {
    fill * qty + TakerFee(cfg, fill * qty)
  }

  /** The cash a sell of `qty` at `fill` receives: the proceeds less their fee. */
  function Proceeds(cfg: AppConfig, qty: real, fill: real): (p: real)
    ensures cfg.fees.taker >= 0.0 ==> p <= qty * fill
    ensures cfg.fees.taker <= 1.0 && qty * fill >= 0.0 ==> p >= 0.0
  {
    qty * fill - TakerFee(cfg, qty * fill)
  }

  /** A fee depends only on the size of the notional, not on its sign. */
  lemma TakerFeeSymmetric(cfg: AppConfig, notional: real)
    ensures TakerFee(cfg, -notional) == TakerFee(cfg, notional)
  {
  }

  // ---------------------------------------------------------------------
  // The ledger as a value
  // ---------------------------------------------------------------------

  /**
   * The broker's state: the cash balance, the open trade per symbol, the
   * symbols in the order the dictionary holds them, and the closed trades.
   */
  datatype Ledger = Ledger(equity: real, positions: map<string, Trade>, order: seq<string>, log: seq<Trade>)

  /**
   * The broker's invariant: `order` lists each open symbol once, each open
   * trade is filed under its own symbol and has no exit yet, and every
   * logged trade is closed (so a trade carries a pnl exactly when it is closed).
   */
  ghost predicate Consistent(l: Ledger)
  {
    && NoDups(l.order)
    && (forall s :: s in l.positions <==> s in l.order)
    && (forall s :: s in l.positions ==> l.positions[s].symbol == s && IsOpen(l.positions[s]))
    && (forall i :: 0 <= i < |l.log| ==> IsClosed(l.log[i]))
  }

  /** The sequence with `x` taken out, keeping the order of the rest. */
  function Without(s: seq<string>, x: string): (r: seq<string>)
    ensures forall y :: y in r <==> y in s && y != x
    ensures NoDups(s) ==> NoDups(r)
    ensures |r| <= |s|
    ensures x !in s ==> r == s
  {
    if |s| == 0 then []
    else if s[0] == x then Without(s[1..], x)
    else
      var rest := Without(s[1..], x);
      assert NoDups(s) ==> s[0] !in s[1..];
      assert forall i :: 1 <= i < |[s[0]] + rest| ==> ([s[0]] + rest)[i] == rest[i - 1];
      assert x !in s ==> [s[0]] + s[1..] == s;
      [s[0]] + rest
  }

  /** Without repeats, taking a key out cuts it from its place and keeps the others in their order. */
  lemma {:induction false} WithoutSplices(s: seq<string>, x: string)
    requires NoDups(s) && x in s
    ensures exists k :: 0 <= k < |s| && s[k] == x && Without(s, x) == s[..k] + s[k + 1..]
    decreases |s|
  {
    if s[0] == x {
      assert x !in s[1..];
      assert s[..0] + s[1..] == s[1..];
      assert Without(s, x) == s[..0] + s[1..];
    } else {
      var t := s[1..];
      assert x in t;
      assert NoDups(t);
      WithoutSplices(t, x);
      var k :| 0 <= k < |t| && t[k] == x && Without(t, x) == t[..k] + t[k + 1..];
      ConsSplice(s, k);
      assert Without(s, x) == [s[0]] + Without(t, x);
      assert s[k + 1] == x && Without(s, x) == s[..k + 1] + s[k + 2..];
    }
  }


  /** The trade a buy opens: filled at the slipped price, with the given bracket and size. */
  function OpenedTrade(cfg: AppConfig, symbol: string, price: real, qty: real, stop: real, tp: real, now: Timestamp): (t: Trade)
    ensures IsOpen(t) && t.side == BuySide && t.symbol == symbol
    ensures t.entryPrice == price + price * cfg.slippageBps as real / 10000.0
    ensures t.stopPrice == stop && t.takeProfit == tp && t.qty == qty && t.entryTime == now
  {
    Trade(symbol, BuySide, ApplySlippage(cfg, price, BuySide), stop, tp, qty, now, None, None, None)
  }

  /**
   * `buy`: pay notional plus fee and file the new trade under the symbol.
   * A trade already open for it is replaced, and not logged.
   */
  function LedgerBuy(cfg: AppConfig, l: Ledger, symbol: string, price: real, qty: real, stop: real, tp: real, now: Timestamp): (r: Ledger)
    ensures r.equity == l.equity - Cost(cfg, ApplySlippage(cfg, price, BuySide), qty)
    ensures symbol in r.positions && r.positions[symbol] == OpenedTrade(cfg, symbol, price, qty, stop, tp, now)
    ensures forall s :: s != symbol ==> (s in r.positions <==> s in l.positions)
    ensures forall s :: s != symbol && s in l.positions ==> r.positions[s] == l.positions[s]
    ensures r.log == l.log
  {
    var t := OpenedTrade(cfg, symbol, price, qty, stop, tp, now);
    var notional := t.entryPrice * qty;
    Ledger(
      l.equity - (notional + TakerFee(cfg, notional)),
      l.positions[symbol := t],
      if symbol in l.positions then l.order else l.order + [symbol],
      l.log)
  }

  lemma BuyKeepsConsistent(cfg: AppConfig, l: Ledger, symbol: string, price: real, qty: real, stop: real, tp: real, now: Timestamp)
    requires Consistent(l)
    ensures Consistent(LedgerBuy(cfg, l, symbol, price, qty, stop, tp, now))
  {
  }

  /** The profit of a round trip: the price gain on the quantity less the entry and exit fees. */
  function RoundTripPnl(cfg: AppConfig, entry: real, fill: real, qty: real): (p: real)
    ensures cfg.fees.taker >= 0.0 ==> p <= (fill - entry) * qty
    ensures cfg.fees.taker == 0.0 ==> p == (fill - entry) * qty
  {
    (fill - entry) * qty - TakerFee(cfg, entry * qty) - TakerFee(cfg, qty * fill)
  }

  /** The recorded pnl is what the sell receives less what the buy paid. */
  lemma RoundTripPnlSplit(cfg: AppConfig, entry: real, fill: real, qty: real)
    ensures RoundTripPnl(cfg, entry, fill, qty) == Proceeds(cfg, qty, fill) - Cost(cfg, entry, qty)
  {
    assert (fill - entry) * qty == qty * fill - entry * qty;
  }

  /** The trade a sell closes: exit at the slipped price, its time, and the pnl net of both fees. */
  function ClosedTrade(cfg: AppConfig, t: Trade, price: real, qty: real, now: Timestamp): (c: Trade)
    requires SellFillDefined(cfg)
    ensures IsClosed(c)
    ensures c.symbol == t.symbol && c.side == t.side && c.entryPrice == t.entryPrice && c.stopPrice == t.stopPrice
    ensures c.takeProfit == t.takeProfit && c.qty == t.qty && c.entryTime == t.entryTime
    ensures c.exitPrice == Some(ApplySlippage(cfg, price, SellSide)) && c.exitTime == Some(now)
    ensures c.pnl == Some(RoundTripPnl(cfg, t.entryPrice, ApplySlippage(cfg, price, SellSide), qty))
  {
    var fill := ApplySlippage(cfg, price, SellSide);
    t.(exitPrice := Some(fill), exitTime := Some(now), pnl := Some(RoundTripPnl(cfg, t.entryPrice, fill, qty)))
  }

  /**
   * `sell`: nothing happens for a symbol without an open trade; otherwise
   * receive proceeds less fee and move the closed trade to the log.
   */
  function LedgerSell(cfg: AppConfig, l: Ledger, symbol: string, price: real, qty: real, now: Timestamp): (r: Ledger)
    requires symbol in l.positions ==> SellFillDefined(cfg)
    ensures symbol !in l.positions ==> r == l
    ensures symbol in l.positions ==>
      && symbol !in r.positions
      && r.log == l.log + [ClosedTrade(cfg, l.positions[symbol], price, qty, now)]
      && r.equity == l.equity + Proceeds(cfg, qty, ApplySlippage(cfg, price, SellSide))
    ensures forall s :: s != symbol ==> (s in r.positions <==> s in l.positions)
    ensures forall s :: s != symbol && s in l.positions ==> r.positions[s] == l.positions[s]
  {
    if symbol !in l.positions then l
    else
      var t := l.positions[symbol];
      Ledger(
        l.equity + Proceeds(cfg, qty, ApplySlippage(cfg, price, SellSide)),
        l.positions - {symbol},
        Without(l.order, symbol),
        l.log + [ClosedTrade(cfg, t, price, qty, now)])
  }

  lemma SellKeepsConsistent(cfg: AppConfig, l: Ledger, symbol: string, price: real, qty: real, now: Timestamp)
    requires symbol in l.positions ==> SellFillDefined(cfg)
    requires Consistent(l)
    ensures Consistent(LedgerSell(cfg, l, symbol, price, qty, now))
  {
    if symbol in l.positions {
      var r := LedgerSell(cfg, l, symbol, price, qty, now);
      assert forall i :: 0 <= i < |l.log| ==> r.log[i] == l.log[i];
    }
  }

  /**
   * Buying and then selling the same quantity logs one trade whose pnl is
   * exactly the net change of equity over the round trip.
   */
  lemma BuyThenSellPnl(cfg: AppConfig, l: Ledger, symbol: string, buyPrice: real, qty: real, stop: real, tp: real,
                       openedAt: Timestamp, sellPrice: real, closedAt: Timestamp)
    requires SellFillDefined(cfg)
    ensures var r := LedgerSell(cfg, LedgerBuy(cfg, l, symbol, buyPrice, qty, stop, tp, openedAt), symbol, sellPrice, qty, closedAt);
      && |r.log| == |l.log| + 1
      && r.log[..|l.log|] == l.log
      && r.log[|l.log|].symbol == symbol
      && r.log[|l.log|].pnl == Some(r.equity - l.equity)
      && symbol !in r.positions
  {
    var b := LedgerBuy(cfg, l, symbol, buyPrice, qty, stop, tp, openedAt);
    var r := LedgerSell(cfg, b, symbol, sellPrice, qty, closedAt);
    assert r.log[..|l.log|] == l.log;
    var entry := ApplySlippage(cfg, buyPrice, BuySide);
    var fill := ApplySlippage(cfg, sellPrice, SellSide);
    assert r.log[|l.log|].pnl == Some(RoundTripPnl(cfg, entry, fill, qty));
    RoundTripPnlSplit(cfg, entry, fill, qty);
  }

  // ---------------------------------------------------------------------
  // Stop and take-profit detection
  // ---------------------------------------------------------------------

  /** The exit a bar `[low, high]` triggers: the stop first, then the take-profit. */
  function ExitPrice(t: Trade, low: real, high: real): (p: Option<real>)
    ensures low <= t.stopPrice <= high ==> p == Some(t.stopPrice)
    ensures !(low <= t.stopPrice <= high) && low <= t.takeProfit <= high ==> p == Some(t.takeProfit)
    ensures p.None? <==> !(low <= t.stopPrice <= high) && !(low <= t.takeProfit <= high)
    ensures p.Some? ==> low <= p.value <= high
  {
    if low <= t.stopPrice <= high then Some(t.stopPrice)
    else if low <= t.takeProfit <= high then Some(t.takeProfit)
    else None
  }

  ghost predicate InSnapshot(keys: seq<string>, snap: map<string, Trade>)
  {
    forall i :: 0 <= i < |keys| ==> keys[i] in snap
  }

  /** The bar triggers an exit for the snapshot's trade of `s`. */
  predicate Triggered(snap: map<string, Trade>, s: string, low: real, high: real)
  {
    s in snap && ExitPrice(snap[s], low, high).Some?
  }

  /** One visit of `update_prices`: sell `k` at the exit the bar triggers for its snapshot trade `t`, if any. */
  function ExitStep(cfg: AppConfig, l: Ledger, k: string, t: Trade, low: real, high: real, now: Timestamp): (r: Ledger)
    requires SellFillDefined(cfg)
    ensures ExitPrice(t, low, high).None? ==> r == l
    ensures |l.log| <= |r.log| <= |l.log| + 1
  {
    match ExitPrice(t, low, high)
    case None => l
    case Some(p) => LedgerSell(cfg, l, k, p, t.qty, now)
  }

  /** The closed trade one visit logs, if any. */
  function ExitEntry(cfg: AppConfig, t: Trade, low: real, high: real, now: Timestamp): (e: seq<Trade>)
    requires SellFillDefined(cfg)
    ensures |e| <= 1 && (|e| == 1 <==> ExitPrice(t, low, high).Some?)
    ensures forall c :: c in e ==> c.symbol == t.symbol && IsClosed(c)
  {
    match ExitPrice(t, low, high)
    case None => []
    case Some(p) => [ClosedTrade(cfg, t, p, t.qty, now)]
  }

  /** The cash one visit receives: the proceeds of the exit less its fee, if any. */
  function ExitProceeds(cfg: AppConfig, t: Trade, low: real, high: real): real
    requires SellFillDefined(cfg)
  {
    match ExitPrice(t, low, high)
    case None => 0.0
    case Some(p) => Proceeds(cfg, t.qty, ApplySlippage(cfg, p, SellSide))
  }

  lemma ExitStepLog(cfg: AppConfig, l: Ledger, k: string, t: Trade, low: real, high: real, now: Timestamp)
    requires SellFillDefined(cfg) && k in l.positions && l.positions[k] == t
    ensures ExitStep(cfg, l, k, t, low, high, now).log == l.log + ExitEntry(cfg, t, low, high, now)
  {
  }

  lemma ExitStepEquity(cfg: AppConfig, l: Ledger, k: string, t: Trade, low: real, high: real, now: Timestamp)
    requires SellFillDefined(cfg) && k in l.positions
    ensures ExitStep(cfg, l, k, t, low, high, now).equity == l.equity + ExitProceeds(cfg, t, low, high)
  {
  }

  lemma ExitStepPositions(cfg: AppConfig, l: Ledger, k: string, t: Trade, low: real, high: real, now: Timestamp)
    requires SellFillDefined(cfg) && k in l.positions
    ensures var r := ExitStep(cfg, l, k, t, low, high, now);
      && (forall s :: s in r.positions <==> s in l.positions && !(s == k && ExitPrice(t, low, high).Some?))
      && (forall s :: s in r.positions ==> r.positions[s] == l.positions[s])
  {
  }

  /** The loop of `update_prices`: visit the snapshot's symbols in order and sell those whose exit the bar triggers. */
  function ExitRun(cfg: AppConfig, l: Ledger, keys: seq<string>, snap: map<string, Trade>, low: real, high: real, now: Timestamp): (r: Ledger)
    requires SellFillDefined(cfg) && InSnapshot(keys, snap)
    ensures |l.log| <= |r.log| <= |l.log| + |keys|
    decreases |keys|
  {
    if |keys| == 0 then l
    else ExitRun(cfg, ExitStep(cfg, l, keys[0], snap[keys[0]], low, high, now), keys[1..], snap, low, high, now)
  }

  /** The trades the run closes, in visiting order. */
  function ExitLog(cfg: AppConfig, keys: seq<string>, snap: map<string, Trade>, low: real, high: real, now: Timestamp): seq<Trade>
    requires SellFillDefined(cfg) && InSnapshot(keys, snap)
    decreases |keys|
  {
    if |keys| == 0 then []
    else ExitEntry(cfg, snap[keys[0]], low, high, now) + ExitLog(cfg, keys[1..], snap, low, high, now)
  }

  /** The cash the run receives: proceeds less fee of each exit. */
  function ExitCredit(cfg: AppConfig, keys: seq<string>, snap: map<string, Trade>, low: real, high: real): real
    requires SellFillDefined(cfg) && InSnapshot(keys, snap)
    decreases |keys|
  {
    if |keys| == 0 then 0.0
    else ExitProceeds(cfg, snap[keys[0]], low, high) + ExitCredit(cfg, keys[1..], snap, low, high)
  }

  /** The snapshot's symbols are still open with their snapshot trades. */
  ghost predicate StillOpen(l: Ledger, keys: seq<string>, snap: map<string, Trade>)
  {
    forall i :: 0 <= i < |keys| ==> keys[i] in snap && keys[i] in l.positions && l.positions[keys[i]] == snap[keys[i]]
  }

  /** After visiting the first symbol, the rest of the snapshot is still open and still without repeats. */
  lemma ExitRunTail(cfg: AppConfig, l: Ledger, keys: seq<string>, snap: map<string, Trade>, low: real, high: real, now: Timestamp)
    requires SellFillDefined(cfg) && |keys| > 0 && NoDups(keys) && StillOpen(l, keys, snap)
    ensures NoDups(keys[1..])
    ensures StillOpen(ExitStep(cfg, l, keys[0], snap[keys[0]], low, high, now), keys[1..], snap)
    ensures forall s :: s in keys <==> s == keys[0] || s in keys[1..]
  {
    var k := keys[0];
    ExitStepPositions(cfg, l, k, snap[k], low, high, now);
    var rest := keys[1..];
    assert forall i :: 0 <= i < |rest| ==> rest[i] == keys[i + 1] && rest[i] != k;
    assert keys == [k] + rest;
  }

  /** One visit at position `i` of the snapshot: the run from there is the run from `i + 1` after that visit. */
  lemma ExitRunAdvance(cfg: AppConfig, l: Ledger, keys: seq<string>, i: nat, snap: map<string, Trade>,
                       low: real, high: real, now: Timestamp)
    requires SellFillDefined(cfg) && i < |keys| && InSnapshot(keys, snap)
    requires NoDups(keys[i..]) && StillOpen(l, keys[i..], snap)
    ensures var next := ExitStep(cfg, l, keys[i], snap[keys[i]], low, high, now);
      && NoDups(keys[i + 1..])
      && StillOpen(next, keys[i + 1..], snap)
      && ExitRun(cfg, next, keys[i + 1..], snap, low, high, now) == ExitRun(cfg, l, keys[i..], snap, low, high, now)
  {
    assert keys[i..][0] == keys[i] && keys[i..][1..] == keys[i + 1..];
    ExitRunTail(cfg, l, keys[i..], snap, low, high, now);
  }

  /** The run logs exactly the triggered exits, in visiting order. */
  lemma {:induction false} ExitRunLog(cfg: AppConfig, l: Ledger, keys: seq<string>, snap: map<string, Trade>,
                                      low: real, high: real, now: Timestamp)
    requires SellFillDefined(cfg) && NoDups(keys) && StillOpen(l, keys, snap)
    ensures InSnapshot(keys, snap)
    ensures ExitRun(cfg, l, keys, snap, low, high, now).log == l.log + ExitLog(cfg, keys, snap, low, high, now)
    decreases |keys|
  {
    if |keys| > 0 {
      var k := keys[0];
      var next := ExitStep(cfg, l, k, snap[k], low, high, now);
      ExitStepLog(cfg, l, k, snap[k], low, high, now);
      ExitRunTail(cfg, l, keys, snap, low, high, now);
      ExitRunLog(cfg, next, keys[1..], snap, low, high, now);
      var entry := ExitEntry(cfg, snap[k], low, high, now);
      var tail := ExitLog(cfg, keys[1..], snap, low, high, now);
      AppendAssoc(l.log, entry, tail);
    }
  }

  lemma AppendAssoc(a: seq<Trade>, b: seq<Trade>, c: seq<Trade>)
    ensures (a + b) + c == a + (b + c)
  {
  }

  /** The run credits the proceeds less fees of exactly the triggered exits. */
  lemma {:induction false} ExitRunEquity(cfg: AppConfig, l: Ledger, keys: seq<string>, snap: map<string, Trade>,
                                         low: real, high: real, now: Timestamp)
    requires SellFillDefined(cfg) && NoDups(keys) && StillOpen(l, keys, snap)
    ensures InSnapshot(keys, snap)
    ensures ExitRun(cfg, l, keys, snap, low, high, now).equity == l.equity + ExitCredit(cfg, keys, snap, low, high)
    decreases |keys|
  {
    if |keys| > 0 {
      var k := keys[0];
      var next := ExitStep(cfg, l, k, snap[k], low, high, now);
      ExitStepEquity(cfg, l, k, snap[k], low, high, now);
      ExitRunTail(cfg, l, keys, snap, low, high, now);
      ExitRunEquity(cfg, next, keys[1..], snap, low, high, now);
    }
  }

  /** The run closes exactly the visited symbols whose exit the bar triggers and leaves the other trades as they were. */
  lemma {:induction false} ExitRunPositions(cfg: AppConfig, l: Ledger, keys: seq<string>, snap: map<string, Trade>,
                                            low: real, high: real, now: Timestamp)
    requires SellFillDefined(cfg) && NoDups(keys) && StillOpen(l, keys, snap)
    ensures InSnapshot(keys, snap)
    ensures var r := ExitRun(cfg, l, keys, snap, low, high, now);
      forall s :: s in r.positions <==> s in l.positions && !(s in keys && Triggered(snap, s, low, high))
    ensures var r := ExitRun(cfg, l, keys, snap, low, high, now);
      forall s :: s in r.positions ==> s in l.positions && r.positions[s] == l.positions[s]
    decreases |keys|
  {
    if |keys| > 0 {
      var k := keys[0];
      var next := ExitStep(cfg, l, k, snap[k], low, high, now);
      ExitStepPositions(cfg, l, k, snap[k], low, high, now);
      ExitRunTail(cfg, l, keys, snap, low, high, now);
      ExitRunPositions(cfg, next, keys[1..], snap, low, high, now);
    }
  }

  lemma {:induction false} ExitRunKeepsConsistent(cfg: AppConfig, l: Ledger, keys: seq<string>, snap: map<string, Trade>,
                                                  low: real, high: real, now: Timestamp)
    requires SellFillDefined(cfg) && InSnapshot(keys, snap) && Consistent(l)
    ensures Consistent(ExitRun(cfg, l, keys, snap, low, high, now))
    decreases |keys|
  {
    if |keys| > 0 {
      var next := ExitStep(cfg, l, keys[0], snap[keys[0]], low, high, now);
      match ExitPrice(snap[keys[0]], low, high) {
        case None =>
        case Some(p) => SellKeepsConsistent(cfg, l, keys[0], p, snap[keys[0]].qty, now);
      }
      ExitRunKeepsConsistent(cfg, next, keys[1..], snap, low, high, now);
    }
  }

  /** The visited symbols whose exit the bar triggers, in visiting order. */
  function Exits(keys: seq<string>, snap: map<string, Trade>, low: real, high: real): (r: seq<string>)
    ensures forall s :: s in r ==> s in keys && Triggered(snap, s, low, high)
    ensures NoDups(keys) ==> NoDups(r)
  {
    if |keys| == 0 then []
    else
      var rest := Exits(keys[1..], snap, low, high);
      assert forall s :: s in keys[1..] ==> s in keys;
      if Triggered(snap, keys[0], low, high) then
        assert NoDups(keys) ==> keys[0] !in keys[1..];
        assert forall i :: 1 <= i < |[keys[0]] + rest| ==> ([keys[0]] + rest)[i] == rest[i - 1];
        [keys[0]] + rest
      else rest
  }

  /** The symbols of a list of trades, in order. */
  function Symbols(log: seq<Trade>): (ks: seq<string>)
    ensures |ks| == |log| && forall i :: 0 <= i < |log| ==> ks[i] == log[i].symbol
  {
    seq(|log|, i requires 0 <= i < |log| => log[i].symbol)
  }

  lemma SymbolsAppend(a: seq<Trade>, b: seq<Trade>)
    ensures Symbols(a + b) == Symbols(a) + Symbols(b)
  {
    assert forall i :: |a| <= i < |a + b| ==> (a + b)[i] == b[i - |a|];
  }

  lemma ExitEntrySymbols(cfg: AppConfig, t: Trade, low: real, high: real, now: Timestamp)
    requires SellFillDefined(cfg)
    ensures Symbols(ExitEntry(cfg, t, low, high, now)) == if ExitPrice(t, low, high).Some? then [t.symbol] else []
  {
  }

  /** The symbols the run logs are the triggered symbols, in visiting order. */
  lemma {:induction false} ExitLogSymbols(cfg: AppConfig, keys: seq<string>, snap: map<string, Trade>,
                                          low: real, high: real, now: Timestamp)
    requires SellFillDefined(cfg) && InSnapshot(keys, snap)
    requires forall s :: s in snap ==> snap[s].symbol == s
    ensures Symbols(ExitLog(cfg, keys, snap, low, high, now)) == Exits(keys, snap, low, high)
    decreases |keys|
  {
    if |keys| > 0 {
      ExitLogSymbols(cfg, keys[1..], snap, low, high, now);
      SymbolsAppend(ExitEntry(cfg, snap[keys[0]], low, high, now), ExitLog(cfg, keys[1..], snap, low, high, now));
      ExitEntrySymbols(cfg, snap[keys[0]], low, high, now);
    }
  }

  /** The run's log is one closed trade per triggered symbol, in visiting order. */
  lemma ExitLogFollowsExits(cfg: AppConfig, keys: seq<string>, snap: map<string, Trade>,
                            low: real, high: real, now: Timestamp)
    requires SellFillDefined(cfg) && InSnapshot(keys, snap)
    requires forall s :: s in snap ==> snap[s].symbol == s
    ensures |ExitLog(cfg, keys, snap, low, high, now)| == |Exits(keys, snap, low, high)|
    ensures forall i :: 0 <= i < |Exits(keys, snap, low, high)| ==>
      ExitLog(cfg, keys, snap, low, high, now)[i].symbol == Exits(keys, snap, low, high)[i]
  {
    ExitLogSymbols(cfg, keys, snap, low, high, now);
  }

  /** Every trade one run logs belongs to a visited symbol whose exit the bar triggers, and no symbol is logged twice. */
  lemma ExitLogOncePerSymbol(cfg: AppConfig, keys: seq<string>, snap: map<string, Trade>,
                             low: real, high: real, now: Timestamp)
    requires SellFillDefined(cfg) && NoDups(keys) && InSnapshot(keys, snap)
    requires forall s :: s in snap ==> snap[s].symbol == s
    ensures var log := ExitLog(cfg, keys, snap, low, high, now);
      && (forall i :: 0 <= i < |log| ==> log[i].symbol in keys && Triggered(snap, log[i].symbol, low, high))
      && (forall i, j :: 0 <= i < j < |log| ==> log[i].symbol != log[j].symbol)
  {
    ExitLogFollowsExits(cfg, keys, snap, low, high, now);
    var names := Exits(keys, snap, low, high);
    assert forall i :: 0 <= i < |names| ==> names[i] in names;
  }

  datatype UpdateError = EmptyFrame

  /**
   * `update_prices`: nothing to do without open positions; otherwise the
   * last candle's range decides every open position's exit (a frame
   * without rows is an error).
   */
  function LedgerUpdate(cfg: AppConfig, l: Ledger, candles: seq<Candle>, now: Timestamp): (r: Result<Ledger, UpdateError>)
    requires SellFillDefined(cfg) && Consistent(l)
    ensures r.Failure? <==> l.positions != map[] && |candles| == 0
    ensures l.positions == map[] ==> r == Success(l)
    ensures r.Success? ==> |l.log| <= |r.value.log| <= |l.log| + |l.order|
  {
    if l.positions == map[] then Success(l)
    else if |candles| == 0 then Failure(EmptyFrame)
    else
      var bar := candles[|candles| - 1];
      Success(ExitRun(cfg, l, l.order, l.positions, bar.low, bar.high, now))
  }

  /**
   * An update keeps the ledger consistent. Each open position is closed
   * exactly when the last bar reaches its stop or its take-profit (the stop
   * winning when both are reached), the log grows by those closed trades
   * in dictionary order, equity by their proceeds less fees, and positions
   * that stay open are untouched.
   */
  lemma UpdatePricesEffect(cfg: AppConfig, l: Ledger, candles: seq<Candle>, now: Timestamp)
    requires SellFillDefined(cfg) && Consistent(l)
    ensures l.positions == map[] ==> LedgerUpdate(cfg, l, candles, now) == Success(l)
    ensures l.positions != map[] && |candles| == 0 ==> LedgerUpdate(cfg, l, candles, now) == Failure(EmptyFrame)
    ensures l.positions != map[] && |candles| > 0 ==>
      && LedgerUpdate(cfg, l, candles, now).Success?
      && var r := LedgerUpdate(cfg, l, candles, now).value;
         var low := candles[|candles| - 1].low;
         var high := candles[|candles| - 1].high;
         && Consistent(r)
         && r.log == l.log + ExitLog(cfg, l.order, l.positions, low, high, now)
         && r.equity == l.equity + ExitCredit(cfg, l.order, l.positions, low, high)
         && (forall s :: s in r.positions <==> s in l.positions && ExitPrice(l.positions[s], low, high).None?)
         && (forall s :: s in r.positions ==> r.positions[s] == l.positions[s])
  {
    if l.positions != map[] && |candles| > 0 {
      var bar := candles[|candles| - 1];
      assert StillOpen(l, l.order, l.positions);
      ExitRunLog(cfg, l, l.order, l.positions, bar.low, bar.high, now);
      ExitRunEquity(cfg, l, l.order, l.positions, bar.low, bar.high, now);
      ExitRunPositions(cfg, l, l.order, l.positions, bar.low, bar.high, now);
      ExitRunKeepsConsistent(cfg, l, l.order, l.positions, bar.low, bar.high, now);
    }
  }

  /** After an update every remaining position's bracket lies outside the last bar. */
  lemma UpdateLeavesUntriggered(cfg: AppConfig, l: Ledger, candles: seq<Candle>, now: Timestamp, s: string)
    requires SellFillDefined(cfg) && Consistent(l) && |candles| > 0
    requires LedgerUpdate(cfg, l, candles, now).Success?
    requires s in LedgerUpdate(cfg, l, candles, now).value.positions
    ensures var bar := candles[|candles| - 1];
      var t := LedgerUpdate(cfg, l, candles, now).value.positions[s];
      !(bar.low <= t.stopPrice <= bar.high) && !(bar.low <= t.takeProfit <= bar.high)
  {
    UpdatePricesEffect(cfg, l, candles, now);
  }

  // ---------------------------------------------------------------------
  // The broker object
  // ---------------------------------------------------------------------

  class PaperBroker {
    const cfg: AppConfig
    var equity: real
    var openPositions: map<string, Trade>
    /** The symbols of `openPositions` in the dictionary's insertion order. */
    var order: seq<string>
    var tradeLog: seq<Trade>

    function State(): Ledger
      reads this
    {
      Ledger(equity, openPositions, order, tradeLog)
    }

    ghost predicate Valid()
      reads this
    {
      Consistent(State())
    }

    constructor (cfg: AppConfig, equity: real)
      ensures Valid() && this.cfg == cfg
      ensures State() == Ledger(equity, map[], [], [])
    {
      this.cfg := cfg;
      this.equity := equity;
      openPositions := map[];
      order := [];
      tradeLog := [];
    }

    method Buy(symbol: string, price: real, qty: real, stop: real, tp: real, now: Timestamp) returns (t: Trade)
      requires Valid()
      modifies this
      ensures Valid()
      ensures t == OpenedTrade(cfg, symbol, price, qty, stop, tp, now)
      ensures State() == LedgerBuy(cfg, old(State()), symbol, price, qty, stop, tp, now)
    {
      ghost var target := LedgerBuy(cfg, State(), symbol, price, qty, stop, tp, now);
      BuyKeepsConsistent(cfg, State(), symbol, price, qty, stop, tp, now);
      var fill := ApplySlippage(cfg, price, BuySide);
      var notional := fill * qty;
      var fee := TakerFee(cfg, notional);
      assert notional + fee == Cost(cfg, fill, qty);
      equity := equity - (notional + fee);
      t := Trade(symbol, BuySide, fill, stop, tp, qty, now, None, None, None);
      assert t == OpenedTrade(cfg, symbol, price, qty, stop, tp, now);
      if symbol !in openPositions {
        order := order + [symbol];
      }
      openPositions := openPositions[symbol := t];
      assert equity == target.equity && openPositions == target.positions;
      assert order == target.order && tradeLog == target.log;
    }

    method Sell(symbol: string, price: real, qty: real, now: Timestamp) returns (closed: Option<Trade>)
      requires Valid()
      requires symbol in openPositions ==> SellFillDefined(cfg)
      modifies this
      ensures Valid()
      ensures closed == if symbol in old(openPositions)
        then Some(ClosedTrade(cfg, old(openPositions)[symbol], price, qty, now)) else None
      ensures State() == LedgerSell(cfg, old(State()), symbol, price, qty, now)
    {
      if symbol !in openPositions {
        return None;
      }
      ghost var target := LedgerSell(cfg, State(), symbol, price, qty, now);
      SellKeepsConsistent(cfg, State(), symbol, price, qty, now);
      var trade := openPositions[symbol];
      openPositions := openPositions - {symbol};
      order := Without(order, symbol);
      var fill := ApplySlippage(cfg, price, SellSide);
      equity := equity + Proceeds(cfg, qty, fill);
      var pnl := RoundTripPnl(cfg, trade.entryPrice, fill, qty);
      var c := trade.(exitPrice := Some(fill), exitTime := Some(now), pnl := Some(pnl));
      assert c == ClosedTrade(cfg, trade, price, qty, now);
      tradeLog := tradeLog + [c];
      closed := Some(c);
      assert State() == target;
    }

    /** Returns false, changing nothing, where the source fails to read a row from an empty frame. */
    method UpdatePrices(candles: seq<Candle>, now: Timestamp) returns (ok: bool)
      requires Valid() && SellFillDefined(cfg)
      modifies this
      ensures Valid()
      ensures ok == LedgerUpdate(cfg, old(State()), candles, now).Success?
      ensures ok ==> State() == LedgerUpdate(cfg, old(State()), candles, now).value
      ensures !ok ==> State() == old(State())
    {
      if openPositions == map[] {
        return true;
      }
      if |candles| == 0 {
        return false;
      }
      var bar := candles[|candles| - 1];
      var keys := order;
      var snapshot := openPositions;
      ghost var start := State();
      var i := 0;
      while i < |keys|
        invariant 0 <= i <= |keys|
        invariant Valid()
        invariant InSnapshot(keys, snapshot) && NoDups(keys[i..])
        invariant StillOpen(State(), keys[i..], snapshot)
        invariant ExitRun(cfg, State(), keys[i..], snapshot, bar.low, bar.high, now)
               == ExitRun(cfg, start, keys, snapshot, bar.low, bar.high, now)
      {
        var symbol := keys[i];
        var trade := snapshot[symbol];
        ghost var cur := State();
        ExitRunAdvance(cfg, cur, keys, i, snapshot, bar.low, bar.high, now);
        // the stop first, then the take-profit
        var exit := ExitPrice(trade, bar.low, bar.high);
        if exit.Some? {
          var _ := Sell(symbol, exit.value, trade.qty, now);
        }
        assert State() == ExitStep(cfg, cur, symbol, trade, bar.low, bar.high, now);
        i := i + 1;
      }
      assert keys[i..] == [];
      ok := true;
    }
  }
}
