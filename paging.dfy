/** The paging client: repeats a bar or tick request until the whole time
    window has been fetched, because one response holds at most 20,000 bars
    or 100,000 ticks.

    One request of a page is a function value `fetch`: a bar fetcher stands
    for the request client's GetBarData, a tick fetcher for its GetTickData.
    The Go loops run until the server stops returning full pages; they need
    the server to answer inside the requested window to end, and the model
    asks this of `fetch` (see `BarFetcherInWindow`, `TickFetcherInWindow`). */
module Paging {
  import opened Wrappers
  import opened Interface
  import opened TimeLayout

  const MaxBars: int := 20000
  const MaxTicks: int := 100000

  /** One minute: how far before the oldest bar the next bar window ends. */
  const BarStep: int := 60_000

  type BarFetcher = BarDataRequest -> Result<seq<BarDataRecord>>
  type TickFetcher = TickDataRequest -> Result<seq<TickRecord>>

  // ---------------------------------------------------------------- windows

  /** The server reads both window times to the second: a time lies in the
      window when it is not before the whole second of the begin time and its
      own second is not after the second of the end time. */
  predicate InWindow(begin: int, end: int, t: int) {
    Floor(begin) <= t && Floor(t) <= Floor(end)
  }

  predicate BarsInWindow(req: BarDataRequest, bars: seq<BarDataRecord>) {
    forall i :: 0 <= i < |bars| ==> InWindow(req.beginTime, req.endTime, bars[i].time)
  }

  predicate TicksInWindow(req: TickDataRequest, ticks: seq<TickRecord>) {
    forall i :: 0 <= i < |ticks| ==> InWindow(req.beginTime, req.endTime, ticks[i].time)
  }

  /** Every page the bar fetcher returns lies inside the window it was asked for. */
  ghost predicate BarFetcherInWindow(fetch: BarFetcher) {
    forall req :: fetch(req).Success? ==> BarsInWindow(req, fetch(req).value)
  }

  /** Every page the tick fetcher returns lies inside the window it was asked for. */
  ghost predicate TickFetcherInWindow(fetch: TickFetcher) {
    forall req :: fetch(req).Success? ==> TicksInWindow(req, fetch(req).value)
  }

  predicate BarsSorted(bars: seq<BarDataRecord>) {
    forall i, j :: 0 <= i < j < |bars| ==> bars[i].time <= bars[j].time
  }

  predicate TicksSorted(ticks: seq<TickRecord>) {
    forall i, j :: 0 <= i < j < |ticks| ==> ticks[i].time <= ticks[j].time
  }

  /** Every page the bar fetcher returns is in time order. */
  ghost predicate BarFetcherSorted(fetch: BarFetcher) {
    forall req :: fetch(req).Success? ==> BarsSorted(fetch(req).value)
  }

  /** Every page the tick fetcher returns is in time order. */
  ghost predicate TickFetcherSorted(fetch: TickFetcher) {
    forall req :: fetch(req).Success? ==> TicksSorted(fetch(req).value)
  }

  // ---------------------------------------------------------------- bar pager

  /** The request for the page before a full one: same symbol, granularity,
      bar width and begin time, ending one minute before the oldest bar. */
  function NextBarRequest(req: BarDataRequest, oldest: int): (next: BarDataRequest)
    requires oldest < req.endTime
    ensures next.symbol == req.symbol && next.historyType == req.historyType
    ensures next.intradayMinutes == req.intradayMinutes && next.beginTime == req.beginTime
    ensures next.endTime == oldest - BarStep && next.endTime < req.endTime
  {
    req.(endTime := oldest - BarStep)
  }

  /** What the bar pager returns when `acc` holds the bars fetched so far and
      `req` is the next request: each page goes in front of `acc`; paging
      stops after a page with fewer than MaxBars bars or when the oldest bar
      is not before the request's end time. An empty first page has no
      oldest bar: the Go code indexes it and panics. */
  function BarPaging(fetch: BarFetcher, req: BarDataRequest, acc: seq<BarDataRecord>): Result<seq<BarDataRecord>>
    requires BarFetcherInWindow(fetch)
    decreases req.endTime - Floor(req.beginTime) + BarStep
  {
    match fetch(req)
    case Failure(e) => Failure(e)
    case Success(page) =>
      var records := page + acc;
      if records == [] then Failure(IndexOutOfRange)
      else if |page| < MaxBars || records[0].time >= req.endTime then Success(records)
      else
        assert InWindow(req.beginTime, req.endTime, page[0].time);
        BarPaging(fetch, NextBarRequest(req, records[0].time), records)
  }

  /** PagingClient.GetBarData: pages backward from the request's end time. */
  method GetBarData(fetch: BarFetcher, req: BarDataRequest) returns (r: Result<seq<BarDataRecord>>)
    requires BarFetcherInWindow(fetch)
    ensures r == BarPaging(fetch, req, [])
  {
    var current := req;
    var records: seq<BarDataRecord> := [];
    while true
      invariant BarPaging(fetch, current, records) == BarPaging(fetch, req, [])
      decreases current.endTime - Floor(current.beginTime) + BarStep
    {
      var page := fetch(current);
      if page.Failure? {
        return Failure(page.error);
      }
      var pageSize := |page.value|;
      ghost var before := records;
      records := page.value + records;
      if records == [] {
        return Failure(IndexOutOfRange);
      }
      var oldest := records[0].time;
      if pageSize < MaxBars || !(oldest < current.endTime) {
        return Success(records);
      }
      BarPagingStep(fetch, current, before);
      current := NextBarRequest(current, oldest);
    }
  }

  /** One round of the bar pager after a successful page. */
  lemma BarPagingStep(fetch: BarFetcher, req: BarDataRequest, acc: seq<BarDataRecord>)
    requires BarFetcherInWindow(fetch) && fetch(req).Success?
    ensures var records := fetch(req).value + acc;
      BarPaging(fetch, req, acc) ==
        if records == [] then Failure(IndexOutOfRange)
        else if |fetch(req).value| < MaxBars || records[0].time >= req.endTime then Success(records)
        else BarPaging(fetch, NextBarRequest(req, records[0].time), records)
  {
  }

  /** An empty first page makes the bar pager fail: the Go code reads the
      oldest bar of an empty list. Once bars were fetched, an empty page ends
      paging with them. */
  lemma BarPagingEmptyPage(fetch: BarFetcher, req: BarDataRequest, acc: seq<BarDataRecord>)
    requires BarFetcherInWindow(fetch) && fetch(req) == Success([])
    ensures acc == [] ==> BarPaging(fetch, req, acc) == Failure(IndexOutOfRange)
    ensures acc != [] ==> BarPaging(fetch, req, acc) == Success(acc)
  {
    assert [] + acc == acc;
  }

  /** The bar pager only ever puts pages in front: what was fetched before
      ends the result unchanged. */
  lemma {:induction false} BarPagingKeepsSuffix(fetch: BarFetcher, req: BarDataRequest, acc: seq<BarDataRecord>)
    requires BarFetcherInWindow(fetch)
    ensures var r := BarPaging(fetch, req, acc);
      r.Success? ==> |acc| <= |r.value| && r.value[|r.value| - |acc|..] == acc
    decreases req.endTime - Floor(req.beginTime) + BarStep
  {
    match fetch(req)
    case Failure(_) =>
    case Success(page) =>
      var records := page + acc;
      if records != [] && !(|page| < MaxBars || records[0].time >= req.endTime) {
        assert InWindow(req.beginTime, req.endTime, page[0].time);
        var next := NextBarRequest(req, records[0].time);
        BarPagingKeepsSuffix(fetch, next, records);
        var r := BarPaging(fetch, next, records);
        if r.Success? {
          assert r.value[|r.value| - |acc|..] == r.value[|r.value| - |records|..][|page|..];
        }
      }
  }

  /** A failed bar paging reports either the error of one of its page
      requests or, for an empty first page, IndexOutOfRange; no partial
      result is returned. */
  lemma {:induction false} BarPagingFailure(fetch: BarFetcher, req: BarDataRequest, acc: seq<BarDataRecord>)
    requires BarFetcherInWindow(fetch)
    ensures var r := BarPaging(fetch, req, acc);
      r.Failure? ==> r.error == IndexOutOfRange || exists q :: fetch(q) == Failure(r.error)
    decreases req.endTime - Floor(req.beginTime) + BarStep
  {
    match fetch(req)
    case Failure(e) =>
      assert fetch(req) == Failure(e);
    case Success(page) =>
      var records := page + acc;
      if records != [] && !(|page| < MaxBars || records[0].time >= req.endTime) {
        assert InWindow(req.beginTime, req.endTime, page[0].time);
        BarPagingFailure(fetch, NextBarRequest(req, records[0].time), records);
      }
  }

  /** Every bar the pager returns lies in the window first asked for (`orig`):
      later requests keep its begin time and end earlier. */
  lemma {:induction false} BarPagingInWindow(fetch: BarFetcher, orig: BarDataRequest, req: BarDataRequest, acc: seq<BarDataRecord>)
    requires BarFetcherInWindow(fetch) && BarsInWindow(orig, acc)
    requires req.beginTime == orig.beginTime && req.endTime <= orig.endTime
    ensures var r := BarPaging(fetch, req, acc);
      r.Success? ==> BarsInWindow(orig, r.value)
    decreases req.endTime - Floor(req.beginTime) + BarStep
  {
    match fetch(req)
    case Failure(_) =>
    case Success(page) =>
      var records := page + acc;
      FloorFacts(req.endTime, orig.endTime);
      assert BarsInWindow(req, page);
      assert BarsInWindow(orig, records) by {
        forall i | 0 <= i < |records|
          ensures InWindow(orig.beginTime, orig.endTime, records[i].time)
        {
          if i >= |page| {
            assert records[i] == acc[i - |page|];
          }
        }
      }
      if records != [] && !(|page| < MaxBars || records[0].time >= req.endTime) {
        assert InWindow(req.beginTime, req.endTime, page[0].time);
        BarPagingInWindow(fetch, orig, NextBarRequest(req, records[0].time), records);
      }
  }

  /** Everything a bar request's window can hold lies before the oldest bar
      fetched so far. */
  predicate BeforeOldest(req: BarDataRequest, acc: seq<BarDataRecord>) {
    acc == [] || Floor(req.endTime) + 1000 <= acc[0].time
  }

  /** With sorted pages, the bar pager returns bars in time order: the window
      of each next page ends a minute before the oldest bar, so the whole
      page lies before it. */
  lemma {:induction false} BarPagingSorted(fetch: BarFetcher, req: BarDataRequest, acc: seq<BarDataRecord>)
    requires BarFetcherInWindow(fetch) && BarFetcherSorted(fetch)
    requires BarsSorted(acc) && BeforeOldest(req, acc)
    ensures var r := BarPaging(fetch, req, acc);
      r.Success? ==> BarsSorted(r.value)
    decreases req.endTime - Floor(req.beginTime) + BarStep
  {
    match fetch(req)
    case Failure(_) =>
    case Success(page) =>
      var records := page + acc;
      assert BarsSorted(records) by {
        assert BarsInWindow(req, page) && BarsSorted(page);
        forall i, j | 0 <= i < j < |records|
          ensures records[i].time <= records[j].time
        {
          if i < |page| && j >= |page| {
            assert records[j] == acc[j - |page|];
            assert acc[0].time <= acc[j - |page|].time;
          }
        }
      }
      if records != [] && !(|page| < MaxBars || records[0].time >= req.endTime) {
        assert InWindow(req.beginTime, req.endTime, page[0].time);
        var next := NextBarRequest(req, records[0].time);
        BarPagingSorted(fetch, next, records);
      }
  }

  // ---------------------------------------------------------------- tick pager

  /** The records left once the maximal tail of records at or after `latest`
      is cut off: a prefix, whose last record (if any) is before `latest`. */
  function TrimTail(records: seq<TickRecord>, latest: int): (r: seq<TickRecord>)
    ensures |r| <= |records| && r == records[..|r|]
    ensures forall i :: |r| <= i < |records| ==> records[i].time >= latest
    ensures r != [] ==> r[|r| - 1].time < latest
  {
    if records != [] && records[|records| - 1].time >= latest then TrimTail(records[..|records| - 1], latest)
    else records
  }

  /** The tail trim of PagingClient.GetTickData: walks back from the last
      record, dropping it while it is not before `latest`. */
  method TrimFrom(records: seq<TickRecord>, latest: int) returns (r: seq<TickRecord>)
    ensures r == TrimTail(records, latest)
  {
    r := records;
    var i := |records| - 1;
    while i >= 0
      invariant -1 <= i < |records|
      invariant r == records[..i + 1]
      invariant TrimTail(r, latest) == TrimTail(records, latest)
      decreases i
    {
      if !(r[i].time < latest) {
        r := r[..i];
      } else {
        break;
      }
      i := i - 1;
    }
  }

  /** On sorted records the trim keeps exactly the records before `latest`. */
  lemma TrimTailSorted(records: seq<TickRecord>, latest: int)
    requires TicksSorted(records)
    ensures var r := TrimTail(records, latest);
      (forall i :: 0 <= i < |r| ==> r[i].time < latest)
      && (forall i :: |r| <= i < |records| ==> records[i].time >= latest)
  {
    var r := TrimTail(records, latest);
    if r != [] {
      assert forall i :: 0 <= i < |r| ==> r[i].time <= r[|r| - 1].time;
    }
  }

  /** The request after a full tick page: same symbol, flags and end time,
      beginning at the second of the last tick. */
  function NextTickRequest(req: TickDataRequest, latest: int): (next: TickDataRequest)
    requires latest > req.beginTime
    ensures next.symbol == req.symbol && next.trades == req.trades && next.quotes == req.quotes
    ensures next.endTime == req.endTime
    ensures next.beginTime == latest && next.beginTime > req.beginTime
  {
    req.(beginTime := latest)
  }

  /** What the tick pager returns when `acc` holds the ticks fetched so far
      and `req` is the next request: each page goes after `acc`; paging stops
      after a page with fewer than MaxTicks ticks or when the second of its
      last tick is not after the request's begin time; otherwise the ticks of
      that last second are dropped and fetched again by the next request. An
      empty page has no last tick: the Go code indexes it and panics. */
  function TickPaging(fetch: TickFetcher, req: TickDataRequest, acc: seq<TickRecord>): Result<seq<TickRecord>>
    requires TickFetcherInWindow(fetch)
    decreases Floor(req.endTime) - req.beginTime
  {
    match fetch(req)
    case Failure(e) => Failure(e)
    case Success(page) =>
      var records := acc + page;
      if page == [] then Failure(IndexOutOfRange)
      else
        var latest := Floor(page[|page| - 1].time);
        if |page| < MaxTicks || !(latest > req.beginTime) then Success(records)
        else
          assert InWindow(req.beginTime, req.endTime, page[|page| - 1].time);
          TickPaging(fetch, NextTickRequest(req, latest), TrimTail(records, latest))
  }

  /** PagingClient.GetTickData: pages forward from the request's begin time. */
  method GetTickData(fetch: TickFetcher, req: TickDataRequest) returns (r: Result<seq<TickRecord>>)
    requires TickFetcherInWindow(fetch)
    ensures r == TickPaging(fetch, req, [])
  {
    var current := req;
    var records: seq<TickRecord> := [];
    while true
      invariant TickPaging(fetch, current, records) == TickPaging(fetch, req, [])
      decreases Floor(current.endTime) - current.beginTime
    {
      var page := fetch(current);
      if page.Failure? {
        return Failure(page.error);
      }
      ghost var before := records;
      records := records + page.value;
      if page.value == [] {
        return Failure(IndexOutOfRange);
      }
      var latest := Floor(page.value[|page.value| - 1].time);
      if |page.value| < MaxTicks || !(latest > current.beginTime) {
        return Success(records);
      }
      records := TrimFrom(records, latest);
      TickPagingStep(fetch, current, before);
      assert InWindow(current.beginTime, current.endTime, page.value[|page.value| - 1].time);
      current := NextTickRequest(current, latest);
    }
  }

  /** One round of the tick pager after a non-empty page. */
  lemma TickPagingStep(fetch: TickFetcher, req: TickDataRequest, acc: seq<TickRecord>)
    requires TickFetcherInWindow(fetch) && fetch(req).Success? && fetch(req).value != []
    ensures var page := fetch(req).value;
      var latest := Floor(page[|page| - 1].time);
      TickPaging(fetch, req, acc) ==
        if |page| < MaxTicks || !(latest > req.beginTime) then Success(acc + page)
        else TickPaging(fetch, NextTickRequest(req, latest), TrimTail(acc + page, latest))
  {
  }

  /** An empty page makes the tick pager fail, whatever was fetched before. */
  lemma TickPagingEmptyPage(fetch: TickFetcher, req: TickDataRequest, acc: seq<TickRecord>)
    requires TickFetcherInWindow(fetch) && fetch(req) == Success([])
    ensures TickPaging(fetch, req, acc) == Failure(IndexOutOfRange)
  {
  }

  /** A failed tick paging reports either the error of one of its page
      requests or, for an empty page, IndexOutOfRange; no partial result is
      returned. */
  lemma {:induction false} TickPagingFailure(fetch: TickFetcher, req: TickDataRequest, acc: seq<TickRecord>)
    requires TickFetcherInWindow(fetch)
    ensures var r := TickPaging(fetch, req, acc);
      r.Failure? ==> r.error == IndexOutOfRange || exists q :: fetch(q) == Failure(r.error)
    decreases Floor(req.endTime) - req.beginTime
  {
    match fetch(req)
    case Failure(e) =>
      assert fetch(req) == Failure(e);
    case Success(page) =>
      if page != [] {
        var latest := Floor(page[|page| - 1].time);
        if !(|page| < MaxTicks || !(latest > req.beginTime)) {
          assert InWindow(req.beginTime, req.endTime, page[|page| - 1].time);
          TickPagingFailure(fetch, NextTickRequest(req, latest), TrimTail(acc + page, latest));
        }
      }
  }

  /** Every tick the pager returns lies in the window first asked for
      (`orig`): later requests keep its end time and begin later. */
  lemma {:induction false} TickPagingInWindow(fetch: TickFetcher, orig: TickDataRequest, req: TickDataRequest, acc: seq<TickRecord>)
    requires TickFetcherInWindow(fetch) && TicksInWindow(orig, acc)
    requires req.endTime == orig.endTime && orig.beginTime <= req.beginTime
    ensures var r := TickPaging(fetch, req, acc);
      r.Success? ==> TicksInWindow(orig, r.value)
    decreases Floor(req.endTime) - req.beginTime
  {
    match fetch(req)
    case Failure(_) =>
    case Success(page) =>
      var records := acc + page;
      FloorFacts(orig.beginTime, req.beginTime);
      assert TicksInWindow(req, page);
      assert TicksInWindow(orig, records) by {
        forall i | 0 <= i < |records|
          ensures InWindow(orig.beginTime, orig.endTime, records[i].time)
        {
          if i >= |acc| {
            assert records[i] == page[i - |acc|];
          }
        }
      }
      if page != [] {
        var latest := Floor(page[|page| - 1].time);
        if !(|page| < MaxTicks || !(latest > req.beginTime)) {
          assert InWindow(req.beginTime, req.endTime, page[|page| - 1].time);
          var kept := TrimTail(records, latest);
          assert TicksInWindow(orig, kept) by {
            assert forall i :: 0 <= i < |kept| ==> kept[i] == records[i];
          }
          TickPagingInWindow(fetch, orig, NextTickRequest(req, latest), kept);
        }
      }
  }

  /** Every tick fetched so far lies before the window of the next request. */
  predicate BeforeBegin(req: TickDataRequest, acc: seq<TickRecord>) {
    forall i :: 0 <= i < |acc| ==> acc[i].time < Floor(req.beginTime)
  }

  /** With sorted pages, the tick pager returns ticks in time order: the
      trim leaves only ticks before the second the next window begins at. */
  lemma {:induction false} TickPagingSorted(fetch: TickFetcher, req: TickDataRequest, acc: seq<TickRecord>)
    requires TickFetcherInWindow(fetch) && TickFetcherSorted(fetch)
    requires TicksSorted(acc) && BeforeBegin(req, acc)
    ensures var r := TickPaging(fetch, req, acc);
      r.Success? ==> TicksSorted(r.value)
    decreases Floor(req.endTime) - req.beginTime
  {
    match fetch(req)
    case Failure(_) =>
    case Success(page) =>
      var records := acc + page;
      assert TicksSorted(records) by {
        assert TicksInWindow(req, page) && TicksSorted(page);
        forall i, j | 0 <= i < j < |records|
          ensures records[i].time <= records[j].time
        {
          if i < |acc| && j >= |acc| {
            assert records[j] == page[j - |acc|];
            assert InWindow(req.beginTime, req.endTime, page[j - |acc|].time);
          }
        }
      }
      if page != [] {
        var latest := Floor(page[|page| - 1].time);
        if !(|page| < MaxTicks || !(latest > req.beginTime)) {
          assert InWindow(req.beginTime, req.endTime, page[|page| - 1].time);
          var next := NextTickRequest(req, latest);
          var kept := TrimTail(records, latest);
          TrimTailSorted(records, latest);
          FloorFacts(latest, latest);
          assert TicksSorted(kept) by {
            assert forall i :: 0 <= i < |kept| ==> kept[i] == records[i];
          }
          TickPagingSorted(fetch, next, kept);
        }
      }
  }
}
