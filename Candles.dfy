/** One OHLCV bar as delivered by the exchange. */
module Candles {

  datatype Candle = Candle(timestamp: int, open: real, high: real, low: real, close: real, volume: real)
}
