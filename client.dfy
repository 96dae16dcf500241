/** The request client: query parameters for the two routes, the request URL,
    decoding of bar and tick CSV rows, and the all-or-nothing decode loops.

    What lies outside the client is passed in as a function value:
    - `HttpClient.get` stands for the GET of a URL, the status check and the
      CSV reader; it returns the rows or an error;
    - `encode` stands for url.Values.Encode;
    - `parseFloat` stands for strconv.ParseFloat(s, 64). */
module Client {
  import opened Wrappers
  import opened Interface
  import opened Numbers
  import opened TimeLayout

  type Rows = seq<seq<string>>
  type FloatParser = string -> Option<Float64>
  type Encoder = map<string, string> -> string

  /** The HTTP client and the server's base URL. */
  datatype HttpClient = HttpClient(endpoint: string, get: string -> Result<Rows>)

  const BarRoute: string := "/barData"
  const TickRoute: string := "/tickData"

  // ---------------------------------------------------------------- requests

  /** A request time as the server receives it: the layout, sub-seconds dropped.
      Only times of the years 0000 to 9999 can be written. */
  predicate Writable(t: int) {
    0 <= t < EndOfTime
  }

  /** Query parameters of a bar request; the symbol is sent as given. */
  function BarDataParams(req: BarDataRequest): (values: map<string, string>)
    requires Writable(req.beginTime) && Writable(req.endTime)
    ensures "symbol" in values && values["symbol"] == req.symbol
  {
    map[
      "symbol" := req.symbol,
      "historyType" := Itoa(HistoryTypeCode(req.historyType)),
      "intradayMinutes" := Itoa(req.intradayMinutes),
      "beginTime" := FormatLayout(req.beginTime),
      "endTime" := FormatLayout(req.endTime)]
  }

  /** A bar request sends exactly these five keys. */
  lemma BarDataParamsKeys(req: BarDataRequest)
    requires Writable(req.beginTime) && Writable(req.endTime)
    ensures BarDataParams(req).Keys == {"symbol", "historyType", "intradayMinutes", "beginTime", "endTime"}
  {
    hide FormatLayout, Itoa;
  }

  /** The server reads back from a bar request's parameters the granularity
      code, the bar width and both times, the times floored to the second. */
  lemma BarDataParamsReadBack(req: BarDataRequest)
    requires Writable(req.beginTime) && Writable(req.endTime)
    ensures var values := BarDataParams(req);
      && ParseInt(values["historyType"]) == Success(HistoryTypeCode(req.historyType))
      && (MinInt64 <= req.intradayMinutes <= MaxInt64 ==>
            ParseInt(values["intradayMinutes"]) == Success(req.intradayMinutes))
      && ParseLayout(values["beginTime"]) == Success(Floor(req.beginTime))
      && ParseLayout(values["endTime"]) == Success(Floor(req.endTime))
  {
    hide FormatLayout, ParseLayout, Itoa, ParseInt;
    var values := BarDataParams(req);
    assert values["historyType"] == Itoa(HistoryTypeCode(req.historyType));
    ParseIntOfItoa(HistoryTypeCode(req.historyType));
    assert values["intradayMinutes"] == Itoa(req.intradayMinutes);
    if MinInt64 <= req.intradayMinutes <= MaxInt64 {
      ParseIntOfItoa(req.intradayMinutes);
    }
    assert values["beginTime"] == FormatLayout(req.beginTime);
    ParseOfFormat(req.beginTime);
    assert values["endTime"] == FormatLayout(req.endTime);
    ParseOfFormat(req.endTime);
  }

  /** A request flag as sent: "1" when set, "0" otherwise. */
  function Flag(b: bool): (s: string)
    ensures s == "0" || s == "1"
    ensures s == "1" <==> b
  {
    if b then "1" else "0"
  }

  /** Query parameters of a tick request; the symbol is sent as given and
      each flag as `Flag` writes it. */
  function TickDataParams(req: TickDataRequest): (values: map<string, string>)
    requires Writable(req.beginTime) && Writable(req.endTime)
    ensures "symbol" in values && values["symbol"] == req.symbol
    ensures "trades" in values && values["trades"] == Flag(req.trades)
    ensures "quotes" in values && values["quotes"] == Flag(req.quotes)
  {
    map[
      "symbol" := req.symbol,
      "trades" := Flag(req.trades),
      "quotes" := Flag(req.quotes),
      "beginTime" := FormatLayout(req.beginTime),
      "endTime" := FormatLayout(req.endTime)]
  }

  /** A tick request sends exactly these five keys. */
  lemma TickDataParamsKeys(req: TickDataRequest)
    requires Writable(req.beginTime) && Writable(req.endTime)
    ensures TickDataParams(req).Keys == {"symbol", "trades", "quotes", "beginTime", "endTime"}
  {
    hide FormatLayout;
  }

  /** The server reads back both times of a tick request, floored to the second:
      the milliseconds are not sent. */
  lemma TickDataParamsReadBack(req: TickDataRequest)
    requires Writable(req.beginTime) && Writable(req.endTime)
    ensures var values := TickDataParams(req);
      && ParseLayout(values["beginTime"]) == Success(Floor(req.beginTime))
      && ParseLayout(values["endTime"]) == Success(Floor(req.endTime))
  {
    hide FormatLayout, ParseLayout;
    var values := TickDataParams(req);
    assert values["beginTime"] == FormatLayout(req.beginTime);
    ParseOfFormat(req.beginTime);
    assert values["endTime"] == FormatLayout(req.endTime);
    ParseOfFormat(req.endTime);
  }

  /** The URL of a request: endpoint and route, then '?' and the encoded
      parameters unless these are empty. */
  function RequestUrl(endpoint: string, route: string, params: string): (url: string)
    ensures |url| >= |endpoint + route| && url[..|endpoint + route|] == endpoint + route
    ensures params == [] <==> |url| == |endpoint + route|
    ensures params != [] ==> url[|endpoint + route|] == '?' && url[|endpoint + route| + 1..] == params
  {
    var base := endpoint + route;
    if params != [] then base + "?" + params else base
  }

  /** One GET of a route with the given parameters, the response read as CSV
      rows: the URL carries a query exactly when the encoded parameters are
      not empty. */
  function GetCsv(client: HttpClient, encode: Encoder, route: string, values: map<string, string>): (r: Result<Rows>)
    ensures encode(values) == [] ==> r == client.get(client.endpoint + route)
    ensures encode(values) != [] ==> r == client.get(client.endpoint + route + "?" + encode(values))
  {
    var url := RequestUrl(client.endpoint, route, encode(values));
    var base := client.endpoint + route;
    assert encode(values) == [] ==> url == base;
    assert encode(values) != [] ==> url == base + "?" + encode(values);
    client.get(url)
  }

  // ---------------------------------------------------------------- bar rows

  /** strconv.ParseFloat(s, 64) through the oracle; a failure names the field text. */
  function FloatField(parseFloat: FloatParser, s: string): (r: Result<Float64>)
    ensures r.Success? <==> parseFloat(s).Some?
    ensures r.Success? ==> r.value == parseFloat(s).value
    ensures r.Failure? ==> r.error == FloatParseError(s)
  {
    match parseFloat(s)
    case Some(v) => Success(v)
    case None => Failure(FloatParseError(s))
  }

  const BarFieldCount: int := 6

  /** parseBarData: a bar row is time, open, high, low, close, volume. */
  function ParseBarData(parseFloat: FloatParser, row: seq<string>): (r: Result<BarDataRecord>)
    ensures |row| != BarFieldCount ==> r == Failure(MalformedRow(row))
    ensures r.Success? <==>
              && |row| == BarFieldCount
              && ParseLayout(row[0]).Success?
              && parseFloat(row[1]).Some? && parseFloat(row[2]).Some?
              && parseFloat(row[3]).Some? && parseFloat(row[4]).Some?
              && ParseInt(row[5]).Success?
    ensures r.Success? ==>
              && r.value.time == ParseLayout(row[0]).value
              && r.value.open == parseFloat(row[1]).value
              && r.value.high == parseFloat(row[2]).value
              && r.value.low == parseFloat(row[3]).value
              && r.value.close == parseFloat(row[4]).value
              && r.value.volume == ParseInt(row[5]).value
    // a failure is the error of the first field that does not parse, in the row's order
    ensures |row| == BarFieldCount && ParseLayout(row[0]).Failure? ==> r == Failure(TimeParseError(row[0]))
    ensures |row| == BarFieldCount && ParseLayout(row[0]).Success? ==>
              var ok1, ok2, ok3 := parseFloat(row[1]).Some?, parseFloat(row[2]).Some?, parseFloat(row[3]).Some?;
              var ok4 := parseFloat(row[4]).Some?;
              && (!ok1 ==> r == Failure(FloatParseError(row[1])))
              && (ok1 && !ok2 ==> r == Failure(FloatParseError(row[2])))
              && (ok1 && ok2 && !ok3 ==> r == Failure(FloatParseError(row[3])))
              && (ok1 && ok2 && ok3 && !ok4 ==> r == Failure(FloatParseError(row[4])))
              && (ok1 && ok2 && ok3 && ok4 && ParseInt(row[5]).Failure? ==> r == Failure(IntParseError(row[5])))
  {
    if |row| != BarFieldCount then Failure(MalformedRow(row))
    else
      var t :- ParseLayout(row[0]);
      var open :- FloatField(parseFloat, row[1]);
      var high :- FloatField(parseFloat, row[2]);
      var low :- FloatField(parseFloat, row[3]);
      var close :- FloatField(parseFloat, row[4]);
      var volume :- ParseInt(row[5]);
      Success(BarDataRecord(t, open, high, low, close, volume))
  }

  /** A row whose six fields read as a bar's fields decodes to that bar. */
  lemma ParseBarDataOfRow(parseFloat: FloatParser, row: seq<string>, bar: BarDataRecord)
    requires |row| == BarFieldCount
    requires ParseLayout(row[0]) == Success(bar.time)
    requires parseFloat(row[1]) == Some(bar.open) && parseFloat(row[2]) == Some(bar.high)
    requires parseFloat(row[3]) == Some(bar.low) && parseFloat(row[4]) == Some(bar.close)
    requires ParseInt(row[5]) == Success(bar.volume)
    ensures ParseBarData(parseFloat, row) == Success(bar)
  {
  }

  /** A bar written as the server writes it decodes to that bar: time in the
      layout, prices as texts the float parser reads back, volume in decimal. */
  lemma ParseBarDataOfFields(parseFloat: FloatParser, bar: BarDataRecord, prices: seq<string>)
    requires Writable(bar.time) && bar.time % 1000 == 0
    requires MinInt64 <= bar.volume <= MaxInt64
    requires |prices| == 4
    requires parseFloat(prices[0]) == Some(bar.open) && parseFloat(prices[1]) == Some(bar.high)
    requires parseFloat(prices[2]) == Some(bar.low) && parseFloat(prices[3]) == Some(bar.close)
    ensures ParseBarData(parseFloat, [FormatLayout(bar.time)] + prices + [Itoa(bar.volume)]) == Success(bar)
  {
    var row := [FormatLayout(bar.time)] + prices + [Itoa(bar.volume)];
    assert row[0] == FormatLayout(bar.time) && row[5] == Itoa(bar.volume);
    assert row[1] == prices[0] && row[2] == prices[1] && row[3] == prices[2] && row[4] == prices[3];
    ParseOfFormat(bar.time);
    FloorFacts(bar.time, bar.time);
    ParseIntOfItoa(bar.volume);
    ParseBarDataOfRow(parseFloat, row, bar);
  }

  // ---------------------------------------------------------------- tick rows

  /** parseTime: the layout followed by a three-character millisecond count. */
  function ParseTime(s: string): (r: Result<int>)
    ensures |s| < 3 ==> r == Failure(IndexOutOfRange)
    ensures |s| >= 3 ==>
              (r.Success? <==> ParseLayout(s[..|s| - 3]).Success? && ParseInt(s[|s| - 3..]).Success?)
    ensures r.Success? ==> r.value == ParseLayout(s[..|s| - 3]).value + ParseInt(s[|s| - 3..]).value
    ensures |s| >= 3 && ParseLayout(s[..|s| - 3]).Failure? ==> r == Failure(TimeParseError(s[..|s| - 3]))
    ensures |s| >= 3 && ParseLayout(s[..|s| - 3]).Success? && ParseInt(s[|s| - 3..]).Failure? ==>
              r == Failure(IntParseError(s[|s| - 3..]))
  {
    if |s| < 3 then Failure(IndexOutOfRange)
    else
      var t :- ParseLayout(s[..|s| - 3]);
      var ms :- ParseInt(s[|s| - 3..]);
      Success(t + ms)
  }

  /** When the last three characters are digits, they are the milliseconds
      within the second that the layout part names. */
  lemma ParseTimeWithinSecond(s: string)
    requires ParseTime(s).Success? && AllDigits(s[|s| - 3..])
    ensures Floor(ParseTime(s).value) == ParseLayout(s[..|s| - 3]).value
    ensures ParseTime(s).value % 1000 == DigitsValue(s[|s| - 3..])
  {
    var t := ParseLayout(s[..|s| - 3]).value;
    var ms := s[|s| - 3..];
    assert |ms| == 3 && Pow10(3) == 1000;
    ParseIntOfDigits(ms);
    assert ParseTime(s).value == t + DigitsValue(ms);
    FloorOfSum(t, DigitsValue(ms));
  }

  /** A layout followed by three characters reads as the layout's time plus
      the number those characters denote. */
  lemma ParseTimeOfParts(layout: string, ms: string)
    requires |ms| == 3 && ParseLayout(layout).Success? && ParseInt(ms).Success?
    ensures ParseTime(layout + ms) == Success(ParseLayout(layout).value + ParseInt(ms).value)
  {
    hide ParseLayout, ParseInt;
    var s := layout + ms;
    assert s[..|s| - 3] == layout;
    assert s[|s| - 3..] == ms;
  }

  /** A tick time written as the server writes it (layout, then three digits of
      milliseconds) is read back exactly. */
  lemma ParseTimeOfFormat(t: int)
    requires Writable(t)
    ensures ParseTime(TickTimeText(t)) == Success(t)
  {
    hide ParseTime, ParseLayout, ParseInt, FormatLayout, MillisecondsText;
    ParseOfFormat(t);
    MillisecondsReadBack(t % 1000);
    ParseTimeOfParts(FormatLayout(t), MillisecondsText(t % 1000));
    assert Floor(t) + t % 1000 == t;
  }

  /** Three digits of milliseconds, zero-padded. */
  function MillisecondsText(ms: int): (s: string)
    requires 0 <= ms < 1000
    ensures |s| == 3 && AllDigits(s)
  {
    [DigitChar(ms / 100), DigitChar(ms / 10 % 10), DigitChar(ms % 10)]
  }

  /** Three digits of milliseconds are read back as that number. */
  lemma MillisecondsReadBack(ms: int)
    requires 0 <= ms < 1000
    ensures ParseInt(MillisecondsText(ms)) == Success(ms)
  {
    hide ParseInt, DigitsValue;
    var s := MillisecondsText(ms);
    DigitsValueOfThree(s);
    assert ms / 10 == 10 * (ms / 100) + ms / 10 % 10;
    assert DigitsValue(s) == ms;
    ParseIntOfDigits(s);
  }

  /** The documented example: "20161004143005123" is 2016-10-04 14:30:05.123. */
  lemma ParseTimeExample()
    ensures ParseTime("20161004143005123") == Success(ToMs(DateTime(2016, 10, 4, 14, 30, 5)) + 123)
  {
    var s := "20161004143005123";
    assert s[..|s| - 3] == "20161004143005";
    assert s[|s| - 3..] == "123";
    assert Fields("20161004143005") == DateTime(2016, 10, 4, 14, 30, 5);
    ParseLayoutAccepts("20161004143005");
    DigitsValueOfThree("123");
    ParseIntOfDigits("123");
  }

  /** Decodes every element in order; the first element that fails to decode
      fails the whole sequence with its error. */
  function DecodeEach<X, T>(decode: X -> Result<T>, xs: seq<X>): (r: Result<seq<T>>)
    ensures r.Success? <==> forall i :: 0 <= i < |xs| ==> decode(xs[i]).Success?
    ensures r.Success? ==>
              |r.value| == |xs| && forall i :: 0 <= i < |xs| ==> decode(xs[i]) == Success(r.value[i])
    ensures r.Failure? ==>
              exists k :: 0 <= k < |xs| && decode(xs[k]) == Failure(r.error)
                          && forall j :: 0 <= j < k ==> decode(xs[j]).Success?
  {
    if xs == [] then Success([])
    else
      var prefix :- DecodeEach(decode, xs[..|xs| - 1]);
      var last :- decode(xs[|xs| - 1]);
      Success(prefix + [last])
  }

  /** Decoding everything stops at the first element that fails, with its error. */
  lemma DecodeEachFirstFailure<X, T>(decode: X -> Result<T>, xs: seq<X>, k: nat)
    requires k < |xs| && decode(xs[k]).Failure?
    requires forall j :: 0 <= j < k ==> decode(xs[j]).Success?
    ensures DecodeEach(decode, xs) == Failure(decode(xs[k]).error)
  {
    var r := DecodeEach(decode, xs);
    var k' :| 0 <= k' < |xs| && decode(xs[k']) == Failure(r.error)
              && forall j :: 0 <= j < k' ==> decode(xs[j]).Success?;
    assert k' == k;
  }

  /** Decoding everything succeeds with the elements decoded one by one. */
  lemma DecodeEachAllSuccess<X, T>(decode: X -> Result<T>, xs: seq<X>, ts: seq<T>)
    requires |ts| == |xs| && forall i :: 0 <= i < |xs| ==> decode(xs[i]) == Success(ts[i])
    ensures DecodeEach(decode, xs) == Success(ts)
  {
    var r := DecodeEach(decode, xs);
    assert r.Success?;
    assert r.value == ts;
  }

  const TickFieldCount: int := 9

  /** A trade's fields after its time: price, size, exchange and four condition codes. */
  function DecodeTrade(parseFloat: FloatParser, row: seq<string>, time: int): (r: Result<TickRecord>)
    requires |row| >= TickFieldCount
    ensures r.Success? ==>
              && r.value.tickType == Trade && r.value.time == time
              && parseFloat(row[2]) == Some(r.value.lastPrice)
              && ParseInt(row[3]) == Success(r.value.lastSize)
              && r.value.lastExchange == row[4]
              && |r.value.condition| == 4
              && (forall i :: 0 <= i < 4 ==> ParseInt(row[5 + i]) == Success(r.value.condition[i]))
              && r.value.bidPrice == r.value.askPrice == ZeroFloat
              && r.value.bidSize == r.value.askSize == 0
              && r.value.bidExchange == r.value.askExchange == ""
  {
    var price :- FloatField(parseFloat, row[2]);
    var size :- ParseInt(row[3]);
    var conditions :- DecodeEach(ParseInt, row[5..9]);
    assert forall i :: 0 <= i < 4 ==> row[5..9][i] == row[5 + i];
    Success(EmptyTick(Trade, time).(lastPrice := price, lastSize := size, lastExchange := row[4],
                                    condition := conditions))
  }

  /** A trade row decodes exactly when its price, size and four condition
      codes all parse. */
  lemma DecodeTradeSucceeds(parseFloat: FloatParser, row: seq<string>, time: int)
    requires |row| >= TickFieldCount
    ensures DecodeTrade(parseFloat, row, time).Success? <==>
              parseFloat(row[2]).Some? && ParseInt(row[3]).Success?
              && forall i :: 5 <= i < 9 ==> ParseInt(row[i]).Success?
  {
    hide ParseInt;
    assert forall i :: 0 <= i < 4 ==> row[5..9][i] == row[5 + i];
  }

  /** A trade row that fails reports the first field that does not parse:
      the price, then the size, then the condition codes in order. */
  lemma DecodeTradeFirstError(parseFloat: FloatParser, row: seq<string>, time: int)
    requires |row| >= TickFieldCount
    ensures var r := DecodeTrade(parseFloat, row, time);
      && (parseFloat(row[2]).None? ==> r == Failure(FloatParseError(row[2])))
      && (parseFloat(row[2]).Some? && ParseInt(row[3]).Failure? ==> r == Failure(IntParseError(row[3])))
    ensures forall k :: 5 <= k < 9 && parseFloat(row[2]).Some? && ParseInt(row[3]).Success?
                        && ParseInt(row[k]).Failure? && (forall j :: 5 <= j < k ==> ParseInt(row[j]).Success?) ==>
              DecodeTrade(parseFloat, row, time) == Failure(IntParseError(row[k]))
  {
    hide ParseInt;
    forall k | 5 <= k < 9 && parseFloat(row[2]).Some? && ParseInt(row[3]).Success?
               && ParseInt(row[k]).Failure? && (forall j :: 5 <= j < k ==> ParseInt(row[j]).Success?)
      ensures DecodeTrade(parseFloat, row, time) == Failure(IntParseError(row[k]))
    {
      var codes := row[5..9];
      assert forall i :: 0 <= i < k - 5 ==> codes[i] == row[5 + i];
      DecodeEachFirstFailure(ParseInt, codes, k - 5);
    }
  }

  /** A quote's fields after its time: bid and ask price, bid and ask size,
      bid and ask exchange, and one condition code, stored in slot 0. */
  function DecodeQuote(parseFloat: FloatParser, row: seq<string>, time: int): (r: Result<TickRecord>)
    requires |row| >= TickFieldCount
    ensures r.Success? ==>
              && r.value.tickType == Quote && r.value.time == time
              && parseFloat(row[2]) == Some(r.value.bidPrice)
              && parseFloat(row[3]) == Some(r.value.askPrice)
              && ParseInt(row[4]) == Success(r.value.bidSize)
              && ParseInt(row[5]) == Success(r.value.askSize)
              && r.value.bidExchange == row[6]
              && r.value.askExchange == row[7]
              && |r.value.condition| == 4
              && ParseInt(row[8]) == Success(r.value.condition[0])
              && r.value.condition[1..] == [TradeConditionRegular, TradeConditionRegular, TradeConditionRegular]
              && r.value.lastPrice == ZeroFloat && r.value.lastSize == 0 && r.value.lastExchange == ""
    ensures r.Success? <==>
              parseFloat(row[2]).Some? && parseFloat(row[3]).Some?
              && ParseInt(row[4]).Success? && ParseInt(row[5]).Success? && ParseInt(row[8]).Success?
    // a failure is the error of the first field read that does not parse: 2, 3, 4, 5, then 8
    ensures var bid, ask := parseFloat(row[2]).Some?, parseFloat(row[3]).Some?;
      var bidSize, askSize := ParseInt(row[4]).Success?, ParseInt(row[5]).Success?;
      && (!bid ==> r == Failure(FloatParseError(row[2])))
      && (bid && !ask ==> r == Failure(FloatParseError(row[3])))
      && (bid && ask && !bidSize ==> r == Failure(IntParseError(row[4])))
      && (bid && ask && bidSize && !askSize ==> r == Failure(IntParseError(row[5])))
      && (bid && ask && bidSize && askSize && ParseInt(row[8]).Failure? ==> r == Failure(IntParseError(row[8])))
  {
    var bidPrice :- FloatField(parseFloat, row[2]);
    var askPrice :- FloatField(parseFloat, row[3]);
    var bidSize :- ParseInt(row[4]);
    var askSize :- ParseInt(row[5]);
    var cond :- ParseInt(row[8]);
    var record := EmptyTick(Quote, time);
    Success(record.(bidPrice := bidPrice, askPrice := askPrice, bidSize := bidSize, askSize := askSize,
                    bidExchange := row[6], askExchange := row[7],
                    condition := record.condition[0 := cond]))
  }

  /** What parseTickData returns for a row: the row needs at least nine
      fields, the time comes second, and the tag "T" or "Q" in the first
      field selects how the rest is read. */
  function DecodeTickRow(parseFloat: FloatParser, row: seq<string>): (r: Result<TickRecord>)
    ensures |row| < TickFieldCount ==> r == Failure(MalformedRow(row))
    ensures |row| >= TickFieldCount && ParseTime(row[1]).Failure? ==> r == Failure(ParseTime(row[1]).error)
    ensures |row| >= TickFieldCount && ParseTime(row[1]).Success? && row[0] != "T" && row[0] != "Q" ==>
              r == Failure(UnknownTickType(row[0]))
    ensures r.Success? ==>
              && |row| >= TickFieldCount
              && TickTypeTag(r.value.tickType) == row[0]
              && r.value.time == ParseTime(row[1]).value
  {
    if |row| < TickFieldCount then Failure(MalformedRow(row))
    else
      var t :- ParseTime(row[1]);
      if row[0] == "T" then DecodeTrade(parseFloat, row, t)
      else if row[0] == "Q" then DecodeQuote(parseFloat, row, t)
      else Failure(UnknownTickType(row[0]))
  }

  /** Fields after the ninth never change how a tick row decodes. */
  lemma DecodeTickRowIgnoresExtraFields(parseFloat: FloatParser, row: seq<string>, extra: seq<string>)
    requires |row| == TickFieldCount
    ensures DecodeTickRow(parseFloat, row + extra) == DecodeTickRow(parseFloat, row)
  {
    var long := row + extra;
    assert long[..TickFieldCount] == row;
    assert long[5..9] == row[5..9];
  }

  /** parseTickData, as the Go code runs it: the record is filled in step by
      step and a trade's conditions in a counted loop. */
  method ParseTickData(parseFloat: FloatParser, row: seq<string>) returns (r: Result<TickRecord>)
    ensures r == DecodeTickRow(parseFloat, row)
  {
    if |row| < TickFieldCount {
      return Failure(MalformedRow(row));
    }
    var tickType := row[0];
    var t := ParseTime(row[1]);
    if t.Failure? {
      return Failure(t.error);
    }
    if tickType == "T" {
      r := ParseTradeFields(parseFloat, row, t.value);
    } else if tickType == "Q" {
      r := ParseQuoteFields(parseFloat, row, t.value);
    } else {
      r := Failure(UnknownTickType(tickType));
    }
  }

  /** The trade case of parseTickData. */
  method ParseTradeFields(parseFloat: FloatParser, row: seq<string>, time: int) returns (r: Result<TickRecord>)
    requires |row| >= TickFieldCount
    ensures r == DecodeTrade(parseFloat, row, time)
  {
    var price := FloatField(parseFloat, row[2]);
    if price.Failure? {
      return Failure(price.error);
    }
    var size := ParseInt(row[3]);
    if size.Failure? {
      return Failure(size.error);
    }
    var record := EmptyTick(Trade, time);
    var i := 0;
    while i < |record.condition|
      invariant 0 <= i <= 4
      invariant record == EmptyTick(Trade, time).(condition := record.condition)
      invariant |record.condition| == 4
      invariant forall k :: 0 <= k < i ==> ParseInt(row[5..9][k]) == Success(record.condition[k])
    {
      var tc := ParseInt(row[i + 5]);
      if tc.Failure? {
        assert row[5..9][i] == row[i + 5];
        DecodeEachFirstFailure(ParseInt, row[5..9], i);
        return Failure(tc.error);
      }
      record := record.(condition := record.condition[i := tc.value]);
      i := i + 1;
    }
    DecodeEachAllSuccess(ParseInt, row[5..9], record.condition);
    record := record.(lastPrice := price.value, lastSize := size.value, lastExchange := row[4]);
    return Success(record);
  }

  /** The quote case of parseTickData. */
  method ParseQuoteFields(parseFloat: FloatParser, row: seq<string>, time: int) returns (r: Result<TickRecord>)
    requires |row| >= TickFieldCount
    ensures r == DecodeQuote(parseFloat, row, time)
  {
    var bidPrice := FloatField(parseFloat, row[2]);
    if bidPrice.Failure? {
      return Failure(bidPrice.error);
    }
    var askPrice := FloatField(parseFloat, row[3]);
    if askPrice.Failure? {
      return Failure(askPrice.error);
    }
    var bidSize := ParseInt(row[4]);
    if bidSize.Failure? {
      return Failure(bidSize.error);
    }
    var askSize := ParseInt(row[5]);
    if askSize.Failure? {
      return Failure(askSize.error);
    }
    var cond := ParseInt(row[8]);
    if cond.Failure? {
      return Failure(cond.error);
    }
    var record := EmptyTick(Quote, time);
    record := record.(bidPrice := bidPrice.value, askPrice := askPrice.value);
    record := record.(bidSize := bidSize.value, askSize := askSize.value);
    record := record.(bidExchange := row[6], askExchange := row[7]);
    record := record.(condition := record.condition[0 := cond.value]);
    return Success(record);
  }

  /** A row whose fields read as a trade's fields decodes to that trade. */
  lemma DecodeTradeOfFields(parseFloat: FloatParser, row: seq<string>, tick: TickRecord)
    requires |row| >= TickFieldCount
    requires tick == EmptyTick(Trade, tick.time).(lastPrice := tick.lastPrice, lastSize := tick.lastSize,
                                                   lastExchange := tick.lastExchange, condition := tick.condition)
    requires parseFloat(row[2]) == Some(tick.lastPrice) && ParseInt(row[3]) == Success(tick.lastSize)
    requires row[4] == tick.lastExchange
    requires |tick.condition| == 4
    requires ParseInt(row[5]) == Success(tick.condition[0]) && ParseInt(row[6]) == Success(tick.condition[1])
    requires ParseInt(row[7]) == Success(tick.condition[2]) && ParseInt(row[8]) == Success(tick.condition[3])
    ensures DecodeTrade(parseFloat, row, tick.time) == Success(tick)
  {
    hide ParseInt;
    assert forall i :: 0 <= i < 4 ==> row[5..9][i] == row[5 + i];
    DecodeEachAllSuccess(ParseInt, row[5..9], tick.condition);
  }

  /** A row whose fields read as a quote's fields decodes to that quote. */
  lemma DecodeQuoteOfFields(parseFloat: FloatParser, row: seq<string>, tick: TickRecord)
    requires |row| >= TickFieldCount
    requires |tick.condition| == 4
    requires tick == EmptyTick(Quote, tick.time).(bidPrice := tick.bidPrice, askPrice := tick.askPrice,
                                                   bidSize := tick.bidSize, askSize := tick.askSize,
                                                   bidExchange := tick.bidExchange, askExchange := tick.askExchange,
                                                   condition := [tick.condition[0], 0, 0, 0])
    requires parseFloat(row[2]) == Some(tick.bidPrice) && parseFloat(row[3]) == Some(tick.askPrice)
    requires ParseInt(row[4]) == Success(tick.bidSize) && ParseInt(row[5]) == Success(tick.askSize)
    requires row[6] == tick.bidExchange && row[7] == tick.askExchange
    requires ParseInt(row[8]) == Success(tick.condition[0])
    ensures DecodeQuote(parseFloat, row, tick.time) == Success(tick)
  {
    assert EmptyTick(Quote, tick.time).condition[0 := tick.condition[0]] == [tick.condition[0], 0, 0, 0];
  }

  /** The text the server writes for a tick time: the layout, then three
      digits of milliseconds. */
  function TickTimeText(t: int): (s: string)
    requires Writable(t)
    ensures |s| == 17 && AllDigits(s)
  {
    FormatLayout(t) + MillisecondsText(t % 1000)
  }

  /** The row the server writes for a trade. */
  function TradeRow(tick: TickRecord, priceText: string): (row: seq<string>)
    requires Writable(tick.time) && |tick.condition| == 4
    ensures |row| == TickFieldCount && row[0] == "T"
  {
    ["T", TickTimeText(tick.time), priceText, Itoa(tick.lastSize), tick.lastExchange,
     Itoa(tick.condition[0]), Itoa(tick.condition[1]), Itoa(tick.condition[2]), Itoa(tick.condition[3])]
  }

  /** The row the server writes for a quote; fields 6 and 7 are the exchanges. */
  function QuoteRow(tick: TickRecord, bidText: string, askText: string): (row: seq<string>)
    requires Writable(tick.time) && |tick.condition| == 4
    ensures |row| == TickFieldCount && row[0] == "Q"
  {
    ["Q", TickTimeText(tick.time), bidText, askText, Itoa(tick.bidSize), Itoa(tick.askSize),
     tick.bidExchange, tick.askExchange, Itoa(tick.condition[0])]
  }

  /** A trade written as the server writes it decodes to that trade. */
  lemma DecodeTradeRow(parseFloat: FloatParser, tick: TickRecord, priceText: string)
    requires tick.tickType == Trade && Writable(tick.time)
    requires tick == EmptyTick(Trade, tick.time).(lastPrice := tick.lastPrice, lastSize := tick.lastSize,
                                                   lastExchange := tick.lastExchange, condition := tick.condition)
    requires |tick.condition| == 4 && forall i :: 0 <= i < 4 ==> MinInt64 <= tick.condition[i] <= MaxInt64
    requires MinInt64 <= tick.lastSize <= MaxInt64
    requires parseFloat(priceText) == Some(tick.lastPrice)
    ensures DecodeTickRow(parseFloat, TradeRow(tick, priceText)) == Success(tick)
  {
    var row := TradeRow(tick, priceText);
    TradeRowFields(tick, priceText);
    DecodeTradeOfFields(parseFloat, row, tick);
    assert ParseTime(row[1]) == Success(tick.time);
  }

  /** The fields of a trade row read back as the trade's time, size and conditions. */
  lemma TradeRowFields(tick: TickRecord, priceText: string)
    requires Writable(tick.time)
    requires |tick.condition| == 4 && forall i :: 0 <= i < 4 ==> MinInt64 <= tick.condition[i] <= MaxInt64
    requires MinInt64 <= tick.lastSize <= MaxInt64
    ensures var row := TradeRow(tick, priceText);
      && ParseTime(row[1]) == Success(tick.time)
      && ParseInt(row[3]) == Success(tick.lastSize)
      && ParseInt(row[5]) == Success(tick.condition[0]) && ParseInt(row[6]) == Success(tick.condition[1])
      && ParseInt(row[7]) == Success(tick.condition[2]) && ParseInt(row[8]) == Success(tick.condition[3])
  {
    ParseTimeOfFormat(tick.time);
    ParseIntOfItoa(tick.lastSize);
    ParseIntOfItoa(tick.condition[0]);
    ParseIntOfItoa(tick.condition[1]);
    ParseIntOfItoa(tick.condition[2]);
    ParseIntOfItoa(tick.condition[3]);
  }

  /** A quote written as the server writes it decodes to that quote. */
  lemma DecodeQuoteRow(parseFloat: FloatParser, tick: TickRecord, bidText: string, askText: string)
    requires tick.tickType == Quote && Writable(tick.time)
    requires |tick.condition| == 4
    requires tick == EmptyTick(Quote, tick.time).(bidPrice := tick.bidPrice, askPrice := tick.askPrice,
                                                   bidSize := tick.bidSize, askSize := tick.askSize,
                                                   bidExchange := tick.bidExchange, askExchange := tick.askExchange,
                                                   condition := [tick.condition[0], 0, 0, 0])
    requires MinInt64 <= tick.condition[0] <= MaxInt64
    requires MinInt64 <= tick.bidSize <= MaxInt64 && MinInt64 <= tick.askSize <= MaxInt64
    requires parseFloat(bidText) == Some(tick.bidPrice) && parseFloat(askText) == Some(tick.askPrice)
    ensures DecodeTickRow(parseFloat, QuoteRow(tick, bidText, askText)) == Success(tick)
  {
    var row := QuoteRow(tick, bidText, askText);
    ParseTimeOfFormat(tick.time);
    ParseIntOfItoa(tick.bidSize);
    ParseIntOfItoa(tick.askSize);
    ParseIntOfItoa(tick.condition[0]);
    DecodeQuoteOfFields(parseFloat, row, tick);
  }

  // ---------------------------------------------------------------- requests

  /** parseBarData as a function value, for decoding a whole response. */
  function BarDecoder(parseFloat: FloatParser): seq<string> -> Result<BarDataRecord> {
    row => ParseBarData(parseFloat, row)
  }

  /** parseTickData as a function value, for decoding a whole response. */
  function TickDecoder(parseFloat: FloatParser): seq<string> -> Result<TickRecord> {
    row => DecodeTickRow(parseFloat, row)
  }

  /** GetBarData: one GET of /barData, then every row decoded in order; the
      first row that fails to decode fails the whole call. */
  method GetBarData(client: HttpClient, encode: Encoder, parseFloat: FloatParser, req: BarDataRequest)
    returns (r: Result<seq<BarDataRecord>>)
    requires Writable(req.beginTime) && Writable(req.endTime)
    ensures var csv := GetCsv(client, encode, BarRoute, BarDataParams(req));
      r == if csv.Failure? then Failure(csv.error) else DecodeEach(BarDecoder(parseFloat), csv.value)
  {
    var values := BarDataParams(req);
    var result := GetCsv(client, encode, BarRoute, values);
    if result.Failure? {
      return Failure(result.error);
    }
    var rows := result.value;
    var records: seq<BarDataRecord> := [];
    var n := 0;
    while n < |rows|
      invariant 0 <= n <= |rows|
      invariant |records| == n
      invariant forall i :: 0 <= i < n ==> BarDecoder(parseFloat)(rows[i]) == Success(records[i])
    {
      var record := ParseBarData(parseFloat, rows[n]);
      if record.Failure? {
        DecodeEachFirstFailure(BarDecoder(parseFloat), rows, n);
        return Failure(record.error);
      }
      records := records + [record.value];
      n := n + 1;
    }
    DecodeEachAllSuccess(BarDecoder(parseFloat), rows, records);
    return Success(records);
  }

  /** GetTickData: one GET of /tickData, then every row decoded in order with
      parseTickData; the first row that fails to decode fails the whole call. */
  method GetTickData(client: HttpClient, encode: Encoder, parseFloat: FloatParser, req: TickDataRequest)
    returns (r: Result<seq<TickRecord>>)
    requires Writable(req.beginTime) && Writable(req.endTime)
    ensures var csv := GetCsv(client, encode, TickRoute, TickDataParams(req));
      r == if csv.Failure? then Failure(csv.error) else DecodeEach(TickDecoder(parseFloat), csv.value)
  {
    var values := TickDataParams(req);
    var result := GetCsv(client, encode, TickRoute, values);
    if result.Failure? {
      return Failure(result.error);
    }
    var rows := result.value;
    var records: seq<TickRecord> := [];
    var n := 0;
    while n < |rows|
      invariant 0 <= n <= |rows|
      invariant |records| == n
      invariant forall i :: 0 <= i < n ==> TickDecoder(parseFloat)(rows[i]) == Success(records[i])
    {
      var record := ParseTickData(parseFloat, rows[n]);
      if record.Failure? {
        DecodeEachFirstFailure(TickDecoder(parseFloat), rows, n);
        return Failure(record.error);
      }
      records := records + [record.value];
      n := n + 1;
    }
    DecodeEachAllSuccess(TickDecoder(parseFloat), rows, records);
    return Success(records);
  }
}
