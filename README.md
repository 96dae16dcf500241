# go-activetick: a Dafny model of the HTTP client and its pagers

This project models the core of `go-activetick`, a Go client for the ActiveTick
HTTP API. Two layers are modelled:

- **The request client** (`client.go`). It builds the query parameters of a
  `/barData` or `/tickData` request and assembles the request URL. It decodes
  every CSV row of the answer into a bar record (`parseBarData`) or a tick
  record (`parseTickData`, trade or quote). Tick times carry a millisecond
  suffix (`parseTime`). The first error stops decoding.
- **The paging client** (`paging.go`). The server returns at most 20,000 bars
  (the latest ones) or 100,000 ticks (the earliest ones) per request.
  - Bars are paged backward: each full page moves the request's end time to
    one minute before the oldest bar received, and the page is prepended.
  - Ticks are paged forward: each full page moves the begin time to the last
    tick's second. Ticks already received at or after that second are dropped,
    because the next page repeats them.

Modules:

| file | module | contents |
|---|---|---|
| `wrappers.dfy` | `Wrappers` | `Option`, `Result` and the error kinds |
| `interface.dfy` | `Interface` | requests, records, history and tick types |
| `numbers.dfy` | `Numbers` | `strconv.Itoa` / `strconv.ParseInt` on decimal strings, 64-bit range |
| `timelayout.dfy` | `TimeLayout` | the `20060102150405` layout: a proleptic Gregorian calendar, formatting and parsing |
| `client.dfy` | `Client` | parameters, URL, row decoders, the decode loop, `GetBarData` / `GetTickData` |
| `paging.dfy` | `Paging` | the bar and tick pagers: loop methods proved against recursive specification functions |
| `servermodel.dfy` | `ServerModel` | a server that pages as the API documents, and proofs that both pagers return exactly the requested window |

Times are integers: milliseconds since 0000-01-01 00:00:00 UTC. Go's
`time.Time` comparisons (`Before`, `After`), `Truncate(time.Second)` and
`Add(-time.Minute)` become `<`, `Floor` and `- 60_000`. The client sends
whole seconds only. The model assumes the server reads a request as the
window from second `Floor(begin)` through the end of second `Floor(end)`,
end included (`Paging.InWindow`). Nothing in the client fixes this; see
"Left out".

Go panics are results here. An index out of range becomes
`Failure(IndexOutOfRange)`. The pagers index `resp.Records[0]` and
`page.Records[len-1]`, so both panic on an empty page with nothing
accumulated. The tick pager also panics on an empty page after earlier pages.
`parseTime` panics on a string shorter than three bytes. The model counts
characters, which agree with bytes on ASCII text.

The pager loops are `while true` methods. Each is proved equal to a recursive
function (`BarPaging`, `TickPaging`) that states the whole paging result.
Termination assumes the fetcher honours the request window
(`BarFetcherInWindow`, `TickFetcherInWindow`): each full page then shrinks the
window.

## Model

| member | source | states |
|---|---|---|
| `Interface.HistoryTypeCode` | interface.go:143-149 | the history type's wire code lies in 0..2 |
| `Interface.TickTypeTag` | interface.go:184-189 | a tick type's tag is one character |
| `Interface.EmptyTick` | client.go:154-157 | a fresh record carries the row's type and time and four Regular conditions (the zero value) |
| `Numbers.DigitChar` | client.go:32-33 | a digit character for every value below ten, which reads back as that value |
| `Numbers.DigitCharOfValue` | client.go:32-33 | a digit character is recovered from its value |
| `Numbers.DigitsValue` | client.go:229 | a string of n digits denotes a value below 10^n |
| `Numbers.DigitsValueOfThree` | client.go:229 | the value of a three-digit millisecond field, digit by digit |
| `Numbers.Decimal` | client.go:32-33 | the decimal text of a natural is all digits, has no leading zero and denotes that natural |
| `Numbers.Itoa` | client.go:32-33 | `strconv.Itoa` text is digits, with a leading '-' exactly for negatives |
| `Numbers.ParseInt` | client.go:89-92 | a parsed integer is in the int64 range; a failure names the offending text |
| `Numbers.ParseIntAccepts` | client.go:89-92 | text parses iff it is digits, optionally after one sign, whose signed value fits in int64; the result is that signed value |
| `Numbers.DigitsValueLeadingZero` | client.go:89-92 | a leading zero does not change a digit string's value |
| `Numbers.ParseIntLeadingZero` | client.go:89-92 | a zero after the optional sign changes neither the value nor whether the text parses |
| `Numbers.ParseIntExamples` | client.go:89-92 | "+5" is 5, "-05" is -5; "--5" and "5 " are errors |
| `Numbers.ParseIntOfDigits` | client.go:229 | a digit string within int64 parses to the number it denotes |
| `Numbers.ParseIntRejects` | client.go:89-92 | empty text, a bare sign, or text with a non-digit and no sign is rejected |
| `Numbers.ParseIntOfItoa` | client.go:32-33 | every int64 written by `Itoa` reads back unchanged |
| `TimeLayout.Floor` | paging.go:67 | truncation to the second: the greatest multiple of 1000 not above t |
| `TimeLayout.FloorFacts` | paging.go:67 | truncation is monotone and fixes whole seconds |
| `TimeLayout.FloorOfSum` | client.go:234 | adding fewer than 1000 ms to a whole second keeps that second |
| `TimeLayout.DaysInMonth` | client.go:14 | every month has 28 to 31 days |
| `TimeLayout.DaysBeforeNextYear` | client.go:14 | the day count of year y+1 starts where year y ends |
| `TimeLayout.LeapDivisors` | client.go:14 | the Gregorian leap rule's divisors nest (400, 100, 4) |
| `TimeLayout.DaysBeforeYearOrdered` | client.go:14 | years occupy disjoint, increasing day ranges |
| `TimeLayout.MonthsAdjacent` | client.go:14 | each month starts where the previous one ends, and December ends the year |
| `TimeLayout.MonthsOrdered` | client.go:14 | months occupy disjoint, increasing day ranges |
| `TimeLayout.ToMs` | client.go:14 | a valid calendar time maps to a whole second in years 0000-9999 |
| `TimeLayout.DayNumberBounds` | client.go:14 | a valid date's day number lies within its year and below year 10000 |
| `TimeLayout.YearOf` | client.go:14 | the year search yields a year and a day within it |
| `TimeLayout.YearOfSum` | client.go:14 | the year and day found add back to the day number |
| `TimeLayout.MonthOf` | client.go:14 | the month search yields a month and a valid day adding back to the day of year |
| `TimeLayout.FromMs` | client.go:14 | every time in range maps to a valid calendar time |
| `TimeLayout.DateOf` | client.go:14 | a day number and second of day map to a valid calendar time |
| `TimeLayout.YearOfBelow10000` | client.go:14 | times in range fall in four-digit years |
| `TimeLayout.YearUnique` | client.go:14 | a day number determines the year and day of year |
| `TimeLayout.MonthUnique` | client.go:14 | a day of year determines the month and day |
| `TimeLayout.SplitTime` | client.go:14 | a time splits into day, second of day and milliseconds |
| `TimeLayout.JoinTime` | client.go:14 | day and second of day are recovered from their sum |
| `TimeLayout.SplitSecondOfDay` | client.go:14 | a second of day splits into hour, minute and second |
| `TimeLayout.JoinSecondOfDay` | client.go:14 | hour, minute and second are recovered from the second of day |
| `TimeLayout.FromMsParts` | client.go:14 | the calendar time of t has t's day number and second of day |
| `TimeLayout.ToMsOfFromMs` | client.go:14 | converting to calendar form and back truncates to the second |
| `TimeLayout.DateOfDayNumber` | client.go:14 | a valid calendar time is recovered from its day number and second of day |
| `TimeLayout.FromMsOfToMs` | client.go:14 | converting a valid calendar time to milliseconds and back is the identity |
| `TimeLayout.FieldValue4` | client.go:14 | a four-digit field is below 10000 |
| `TimeLayout.FieldValue2` | client.go:14 | a two-digit field is below 100 |
| `TimeLayout.SplitDigits4` | client.go:14 | a four-digit number splits into its digits |
| `TimeLayout.JoinDigits4` | client.go:14 | digits are recovered from the number they compose |
| `TimeLayout.JoinDigits2` | client.go:14 | a two-digit field's digits are recovered from its value |
| `TimeLayout.ParseLayout` | client.go:64-67 | a parsed time is a whole second in range; a failure names the text |
| `TimeLayout.ParseLayoutAccepts` | client.go:64-67 | the layout accepts exactly 14 digits that form a valid date and time |
| `TimeLayout.Render` | client.go:34-35 | a valid calendar time renders as 14 digits whose fields read back as it |
| `TimeLayout.RenderOfFields` | client.go:64-67 | an accepted 14-digit string is re-rendered unchanged |
| `TimeLayout.FormatLayout` | client.go:34-35 | a formatted time is 14 digits |
| `TimeLayout.ParseOfFormat` | client.go:34-35 | parsing a formatted time gives the time truncated to the second |
| `TimeLayout.FormatOfParse` | client.go:64-67 | formatting a parsed string gives back the string |
| `Client.BarDataParams` | client.go:30-35 | the bar parameters carry the symbol unchanged |
| `Client.BarDataParamsKeys` | client.go:30-35 | bar requests send exactly symbol, historyType, intradayMinutes, beginTime and endTime |
| `Client.BarDataParamsReadBack` | client.go:30-35 | each bar parameter reads back: the history code, the minutes (within int64), and both times to the second |
| `Client.Flag` | client.go:107-116 | a flag is sent as "1" when set and "0" otherwise |
| `Client.TickDataParams` | client.go:105-119 | the tick parameters carry the symbol unchanged and both flags as `Flag` writes them |
| `Client.TickDataParamsKeys` | client.go:105-119 | tick requests send exactly symbol, trades, quotes, beginTime and endTime |
| `Client.TickDataParamsReadBack` | client.go:117-119 | both tick times read back truncated to the second, so milliseconds are not sent |
| `Client.RequestUrl` | client.go:238-242 | the URL is endpoint+route, followed by '?' and the parameters exactly when there are any |
| `Client.GetCsv` | client.go:237-244 | the transport is asked for endpoint+route when the encoded parameters are empty, else for endpoint+route+"?"+parameters |
| `Client.FloatField` | client.go:69-72 | a float field succeeds iff `ParseFloat` accepts it, with its value; otherwise it fails naming the text |
| `Client.ParseBarData` | client.go:58-102 | a row other than six fields is malformed; success iff the time, four prices and volume all parse, with each field in its place; a failure is the error of the first field that does not parse, in the row's order |
| `Client.ParseBarDataOfRow` | client.go:58-102 | a six-field row whose fields parse to a bar's fields decodes to that bar |
| `Client.ParseBarDataOfFields` | client.go:58-102 | a bar written back as a row (layout time, prices, `Itoa` volume) decodes to the same bar |
| `Client.ParseTime` | client.go:223-235 | shorter than three characters panics; success iff the layout head and the last three characters both parse; the result is their sum in ms; a failure is the head's time error, else the tail's integer error |
| `Client.ParseTimeWithinSecond` | client.go:223-235 | a parsed tick time lies in the second of its layout head, with the digit suffix as its milliseconds |
| `Client.ParseTimeOfParts` | client.go:223-235 | a layout time followed by a three-character integer parses to their sum |
| `Client.ParseTimeOfFormat` | client.go:223-235 | every time in range, written as 17 digits, parses back exactly |
| `Client.MillisecondsText` | client.go:229 | milliseconds are written as exactly three digits |
| `Client.MillisecondsReadBack` | client.go:229 | the three-digit millisecond text parses back to the milliseconds |
| `Client.ParseTimeExample` | client.go:223-235 | "20161004143005123" is 2016-10-04 14:30:05 plus 123 ms |
| `Client.DecodeEach` | client.go:46-53 | decoding rows succeeds iff every row decodes, giving one record per row in order; else it fails with the first failing row's error |
| `Client.DecodeEachFirstFailure` | client.go:46-53 | the error returned is the one of the first row that fails |
| `Client.DecodeEachAllSuccess` | client.go:130-137 | rows that all decode give exactly their records, in order |
| `Client.DecodeTrade` | client.go:160-182 | a decoded trade has its price, size, exchange and four conditions from fields 2-8, and the quote fields at zero |
| `Client.DecodeTradeSucceeds` | client.go:160-182 | a trade row decodes iff its price, size and four condition fields all parse |
| `Client.DecodeTradeFirstError` | client.go:160-178 | a failing trade row reports the first field that does not parse: price, size, then conditions in order |
| `Client.DecodeQuote` | client.go:183-215 | a decoded quote has its prices, sizes, exchanges and first condition from fields 2-8, the trade fields at zero; it succeeds iff those five numbers parse; a failure is the first failing field's error, in fields 2, 3, 4, 5, 8 order |
| `Client.DecodeTickRow` | client.go:142-221 | fewer than nine fields is malformed; a bad time fails with its error; a type other than "T"/"Q" is unknown; a success carries the row's type and time |
| `Client.DecodeTickRowIgnoresExtraFields` | client.go:143-146 | fields after the ninth are ignored |
| `Client.ParseTickData` | client.go:142-221 | the imperative decoder computes `DecodeTickRow` |
| `Client.ParseTradeFields` | client.go:160-182 | the trade branch with its condition loop computes `DecodeTrade` |
| `Client.ParseQuoteFields` | client.go:183-215 | the quote branch computes `DecodeQuote` |
| `Client.DecodeTradeOfFields` | client.go:160-182 | a row whose fields parse to a trade's fields decodes to that trade |
| `Client.DecodeQuoteOfFields` | client.go:183-215 | a row whose fields parse to a quote's fields decodes to that quote |
| `Client.TickTimeText` | client.go:223-235 | a tick time is written as 17 digits |
| `Client.TradeRow` | client.go:142-182 | a trade written as a row has nine fields and tag "T" |
| `Client.QuoteRow` | client.go:183-215 | a quote written as a row has nine fields and tag "Q" |
| `Client.DecodeTradeRow` | client.go:142-182 | a trade written as a row decodes back to the same trade |
| `Client.TradeRowFields` | client.go:160-182 | each numeric field of a written trade row reads back to its value |
| `Client.DecodeQuoteRow` | client.go:183-215 | a quote written as a row decodes back to the same quote |
| `Client.GetBarData` | client.go:29-56 | a transport failure is returned as is; otherwise the result is every row decoded in order, or the first decode error |
| `Client.GetTickData` | client.go:104-140 | the same for ticks, with the tick parameters and route |
| `Paging.NextBarRequest` | paging.go:40-46 | the next bar request keeps everything but the end time, which moves to one minute before the oldest bar and so earlier |
| `Paging.GetBarData` | paging.go:25-50 | the loop returns `BarPaging` of the request: fetch, prepend, stop on a short page or an oldest bar not before the end, else page backward |
| `Paging.BarPagingStep` | paging.go:28-47 | one round of the bar loop: prepend the page, panic if nothing has arrived, stop or continue from the oldest bar |
| `Paging.BarPagingEmptyPage` | paging.go:34-38 | an empty page panics when nothing was received, and otherwise ends paging with the bars already received |
| `Paging.BarPagingKeepsSuffix` | paging.go:34 | bars already received are kept, unchanged, as the tail of the result |
| `Paging.BarPagingFailure` | paging.go:29-35 | paging fails only with a fetch error or the empty-first-page panic |
| `Paging.BarPagingInWindow` | paging.go:22-50 | if every page lies in its request's window, every returned bar lies in the original window |
| `Paging.BarPagingSorted` | paging.go:22-50 | sorted pages give a sorted result, because each page ends before the bars already held |
| `Paging.TrimTail` | paging.go:72-79 | the trim keeps a prefix; everything dropped is at or after the cut time; the last kept record is before it |
| `Paging.TrimFrom` | paging.go:72-79 | the backward trimming loop computes `TrimTail` |
| `Paging.TrimTailSorted` | paging.go:72-79 | on sorted ticks the trim keeps exactly the ticks before the cut time |
| `Paging.NextTickRequest` | paging.go:81-87 | the next tick request keeps everything but the begin time, which moves forward to the cut second |
| `Paging.GetTickData` | paging.go:55-91 | the loop returns `TickPaging` of the request: fetch, append, stop on a short page or no progress, else trim and page forward |
| `Paging.TickPagingStep` | paging.go:58-88 | one round of the tick loop on a non-empty page |
| `Paging.TickPagingEmptyPage` | paging.go:66 | any empty tick page panics |
| `Paging.TickPagingFailure` | paging.go:59-66 | paging fails only with a fetch error or the empty-page panic |
| `Paging.TickPagingInWindow` | paging.go:52-91 | if every page lies in its request's window, every returned tick lies in the original window |
| `Paging.TickPagingSorted` | paging.go:52-91 | sorted pages give a sorted result: the trim leaves only ticks before the next request's begin |
| `ServerModel.Cut` | paging.go:22-23 | on sorted times the cut index separates times below x from the rest |
| `ServerModel.CutUnique` | paging.go:22-23 | the cut index is the only index separating the times |
| `ServerModel.CutMonotone` | paging.go:22-23 | a later cut point gives a later cut index |
| `ServerModel.WindowCuts` | paging.go:22-23 | on sorted times a record is in the window iff its index lies between the two cuts |
| `ServerModel.Window` | paging.go:22-23 | the window is a contiguous slice holding exactly the in-window records |
| `ServerModel.TickPage` | paging.go:52-53 | the server's tick page is the first 100,000 ticks of the window |
| `ServerModel.TickPageInWindow` | paging.go:52-53 | every tick on that page lies in the request's window |
| `ServerModel.TickServerInWindow` | paging.go:52-53 | that server honours every request's window |
| `ServerModel.TrimOnServer` | paging.go:72-79 | on server data the trim cuts exactly at the start of the last page's final second |
| `ServerModel.FullTickPage` | paging.go:66-70 | on a full page with fewer than 100,000 ticks per second, the cut second is after the begin time and within the window |
| `ServerModel.TickPagingOnServer` | paging.go:55-91 | from any state of the loop, tick paging on the server ends with exactly the original window |
| `ServerModel.NextTickProgress` | paging.go:72-87 | a full page moves the loop to a state that still holds, with a later begin time |
| `ServerModel.FullTickPageOnServer` | paging.go:55-91 | from a state with a full page ahead, tick paging ends with exactly the original window |
| `ServerModel.TickPagingComplete` | paging.go:52-91 | with sorted ticks, fewer than 100,000 per second, tick paging returns exactly the window, or the panic when it is empty |
| `ServerModel.BarPage` | paging.go:22-23 | the server's bar page is the latest 20,000 bars of the window |
| `ServerModel.BarPageInWindow` | paging.go:22-23 | every bar on that page lies in the request's window |
| `ServerModel.BarServerInWindow` | paging.go:22-23 | that server honours every request's window |
| `ServerModel.FullBarPage` | paging.go:35-45 | on a full page of bars a minute apart, the next end time excludes exactly the page received |
| `ServerModel.NextBarProgress` | paging.go:34-46 | a full page moves the loop to a state that still holds, with an earlier end time |
| `ServerModel.BarPagingOnServer` | paging.go:25-50 | from any state of the loop, bar paging on the server ends with exactly the original window |
| `ServerModel.FullBarPageOnServer` | paging.go:25-50 | from a state with a full page ahead, bar paging ends with exactly the original window |
| `ServerModel.BarPagingComplete` | paging.go:22-50 | with bars at least a minute apart, bar paging returns exactly the window, or the panic when it is empty |

## Left out

- The HTTP transport (`http.Client.Get`, the status check, reading the body) and the CSV reader are one oracle, `HttpClient.get`, returning rows or an error. `NewClient` and `NewPagingClient` only store their arguments and are not modelled.
- `url.Values.Encode` is an oracle parameter. The parameters are a `map`; only the URL assembly around the encoded text is modelled.
- `strconv.ParseFloat` is an oracle returning an optional IEEE-754 bit pattern. Floating-point parsing is not modelled.
- `time.Parse` and `Time.Format` are modelled for the 14-digit layout and years 0000-9999 only. Go's leniency towards a fractional second after the seconds field, and its exact error texts, are not modelled. Error values carry the offending text only.
- `TimeLayout.FormatLayout`, `Client.BarDataParams`, `Client.TickDataParams`, `Client.GetBarData`, `Client.GetTickData`: require request times in years 0000-9999 (`Writable`). Go's `Time.Format` writes any year, but the server cannot read a year outside four digits back.
- `Paging.InWindow`, `ServerModel.Window`, `ServerModel.TickPagingComplete`, `ServerModel.BarPagingComplete`: assume the server includes the whole end second in a request's window. The client does not fix whether the end is inclusive. If the server treated the end as exclusive, a full bar page would lose the bar exactly one minute before its oldest, because the next request ends at that time (paging.go:45). The completeness lemmas would then not hold.
- `Client.BarDataParams`, `Client.TickDataParams`, `Client.BarDataParamsReadBack`, `Client.TickDataParamsReadBack`, `TimeLayout.FormatLayout`, `TimeLayout.ParseOfFormat`: a time is an instant in UTC, in whole milliseconds. Go's `Format` writes the wall clock of the time's own location (client.go:34-35, 118-119), while `time.Parse` reads record times as UTC. For a request time outside UTC, the text sent is not `FormatLayout` of the instant, and the read-back lemmas do not describe it. Precision below one millisecond is dropped.
- Strings are sequences of characters, and Go's `len` and slicing count bytes. `Client.ParseTime`: on non-ASCII text the three-byte split and the panic threshold differ. For example, "éé" is two characters but four bytes, so Go reports a time-parse error where the model reports the panic.
- `Numbers.ParseInt`: accepts an optional sign and decimal digits within int64. It merges Go's syntax and range errors into one error, and it does not model `strconv.ParseInt`'s underscore and base-prefix rules, which base 10 rejects anyway.
- `Client.BarDataParamsReadBack`: the minutes read back only within int64. Go's `int` would wrap on a 64-bit platform, and wider values cannot occur there.
- Records are values, not pointers. A response is a sequence; the pre-sized slice capacity is not modelled.
- `Paging.GetBarData` and `Paging.GetTickData`: require a fetcher that returns records inside its request's window. Without that, the Go loops may never end, so termination cannot be proved.
- `Paging.BarPagingSorted` and `Paging.TickPagingSorted`: assume each page is sorted by time. The source does not document this; only the page caps and which end is kept (paging.go:22-23, 52-53). The pagers rely on it: they take `Records[0]` as the oldest bar (paging.go:35, 45) and `Records[len-1]` as the latest tick (paging.go:66-67).
- `ServerModel.TickPagingComplete`: assumes fewer than 100,000 ticks in any one second. With more, the loop stops at that second and the ticks after the page are lost.
- `ServerModel.BarPagingComplete`: assumes bars are at least one minute apart. Closer bars would be skipped by the one-minute step back.
- Concurrency: none in the source, and none modelled.
