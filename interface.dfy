/** The request and record types of the market-data client.
    Times are integer milliseconds since 0000-01-01T00:00:00 UTC
    (proleptic Gregorian calendar). */
module Interface {

  /** A 64-bit IEEE-754 value, kept as its bit pattern; no arithmetic is done on prices. */
  datatype Float64 = Float64(bits: bv64)

  const ZeroFloat: Float64 := Float64(0)

  /** Granularity of a bar request; the wire value is its code. */
  datatype HistoryType = Intraday | Daily | Weekly

  function HistoryTypeCode(h: HistoryType): (code: int)
    ensures 0 <= code <= 2
  {
    match h
    case Intraday => 0
    case Daily => 1
    case Weekly => 2
  }

  datatype BarDataRequest = BarDataRequest(
    symbol: string,
    historyType: HistoryType,
    intradayMinutes: int,
    beginTime: int,
    endTime: int)

  datatype BarDataRecord = BarDataRecord(
    time: int,
    open: Float64,
    high: Float64,
    low: Float64,
    close: Float64,
    volume: int)

  datatype TickDataRequest = TickDataRequest(
    symbol: string,
    trades: bool,
    quotes: bool,
    beginTime: int,
    endTime: int)

  datatype TickType = Quote | Trade

  /** The one-character tag a tick row starts with. */
  function TickTypeTag(t: TickType): (tag: string)
    ensures |tag| == 1
  {
    match t
    case Quote => "Q"
    case Trade => "T"
  }

  /** Trade-condition code of an unused condition slot. */
  const TradeConditionRegular: int := 0

  /** One tick. Trade and quote share this record: a trade fills the `last`
      fields and up to four condition slots, a quote the bid/ask fields and
      condition slot 0 only. Fields a variant does not set keep their zero value. */
  datatype TickRecord = TickRecord(
    tickType: TickType,
    time: int,
    lastPrice: Float64,
    lastSize: int,
    lastExchange: string,
    condition: seq<int>,
    bidPrice: Float64,
    askPrice: Float64,
    bidSize: int,
    askSize: int,
    bidExchange: string,
    askExchange: string)

  /** The record a tick row's decoding starts from: type and time set, everything else zero. */
  function EmptyTick(t: TickType, time: int): (r: TickRecord)
    ensures r.tickType == t && r.time == time
    ensures r.condition == [TradeConditionRegular, TradeConditionRegular, TradeConditionRegular, TradeConditionRegular]
  {
    TickRecord(t, time, ZeroFloat, 0, "", [0, 0, 0, 0], ZeroFloat, ZeroFloat, 0, 0, "", "")
  }

  function BarTime(b: BarDataRecord): int { b.time }

  function TickTime(t: TickRecord): int { t.time }
}
