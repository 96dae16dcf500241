/** A model of the server side of paging: a symbol's history is a dataset of
    records in time order; a bar request returns the latest MaxBars bars of
    its window, a tick request the earliest MaxTicks ticks of its window.
    Against this server the pagers return exactly the records of the window
    asked for, in order, with no gap and no duplicate. */
module ServerModel {
  import opened Wrappers
  import opened Interface
  import opened TimeLayout
  import opened Paging

  predicate SortedTimes(ts: seq<int>) {
    forall i, j :: 0 <= i < j < |ts| ==> ts[i] <= ts[j]
  }

  /** The times of a sequence of records, in order. */
  function Times<R>(records: seq<R>, time: R -> int): (ts: seq<int>)
    ensures |ts| == |records| && forall i :: 0 <= i < |records| ==> ts[i] == time(records[i])
  {
    seq(|records|, i requires 0 <= i < |records| => time(records[i]))
  }

  // ---------------------------------------------------------------- cuts

  /** Where a sorted sequence of times crosses `x`: every time before the cut
      is before `x`, every time from the cut on is not. */
  function Cut(ts: seq<int>, x: int): (n: nat)
    ensures n <= |ts|
    ensures SortedTimes(ts) ==>
      (forall i :: 0 <= i < n ==> ts[i] < x) && (forall i :: n <= i < |ts| ==> ts[i] >= x)
  {
    if ts == [] || ts[|ts| - 1] < x then |ts|
    else
      assert SortedTimes(ts) ==> SortedTimes(ts[..|ts| - 1]);
      Cut(ts[..|ts| - 1], x)
  }

  /** A sorted sequence crosses `x` in one place only. */
  lemma CutUnique(ts: seq<int>, x: int, n: nat)
    requires SortedTimes(ts) && n <= |ts|
    requires forall i :: 0 <= i < n ==> ts[i] < x
    requires forall i :: n <= i < |ts| ==> ts[i] >= x
    ensures Cut(ts, x) == n
  {
  }

  /** A later time cuts a sorted sequence no earlier. */
  lemma CutMonotone(ts: seq<int>, x: int, y: int)
    requires SortedTimes(ts) && x <= y
    ensures Cut(ts, x) <= Cut(ts, y)
  {
  }

  /** Adjacent slices join into one. */
  lemma SliceJoin<T>(s: seq<T>, a: nat, b: nat, c: nat)
    requires a <= b <= c <= |s|
    ensures s[a..b] + s[b..c] == s[a..c]
  {
  }

  /** A prefix of a slice is a slice. */
  lemma SliceOfSlice<T>(s: seq<T>, a: nat, b: nat, k: nat)
    requires a <= b <= |s| && k <= b - a
    ensures s[a..b][..k] == s[a..a + k]
  {
  }

  /** A suffix of a slice is a slice. */
  lemma SuffixOfSlice<T>(s: seq<T>, a: nat, b: nat, k: nat)
    requires a <= b <= |s| && k <= b - a
    ensures s[a..b][k..] == s[a + k..b]
  {
  }

  /** A whole second before the next whole second after `b` is at most `b`. */
  lemma SecondsBelow(a: int, b: int)
    requires a % 1000 == 0 && b % 1000 == 0 && a < b + 1000
    ensures a <= b
  {
    assert a == 1000 * (a / 1000) && b == 1000 * (b / 1000);
  }

  /** The first index of a sorted sequence of times inside a window. */
  function WindowStart(ts: seq<int>, begin: int): nat {
    Cut(ts, Floor(begin))
  }

  /** The index just past the last time of a sorted sequence inside a window. */
  function WindowEnd(ts: seq<int>, end: int): nat {
    Cut(ts, Floor(end) + 1000)
  }

  /** The indices between the two cuts are exactly those whose time is in the window. */
  lemma WindowCuts(ts: seq<int>, begin: int, end: int)
    ensures SortedTimes(ts) ==> forall i :: 0 <= i < |ts| ==>
      (InWindow(begin, end, ts[i]) <==> WindowStart(ts, begin) <= i < WindowEnd(ts, end))
  {
    if SortedTimes(ts) {
      forall i | 0 <= i < |ts|
        ensures InWindow(begin, end, ts[i]) <==> WindowStart(ts, begin) <= i < WindowEnd(ts, end)
      {
        FloorFacts(Floor(end) + 1000, ts[i]);
        FloorFacts(Floor(begin), ts[i]);
      }
    }
  }

  // ---------------------------------------------------------------- the window

  /** The records of a dataset inside a window, given the records' times
      `ts`: a slice starting at the window's first index, which for sorted
      times holds exactly the records whose time is in the window, in
      dataset order. */
  function Window<T>(data: seq<T>, ts: seq<int>, begin: int, end: int): (w: seq<T>)
    requires |ts| == |data|
    ensures var lo, hi := WindowStart(ts, begin), WindowEnd(ts, end);
      |w| == (if lo < hi then hi - lo else 0) && lo + |w| <= |data| && w == data[lo..lo + |w|]
    ensures SortedTimes(ts) ==> forall i :: 0 <= i < |ts| ==>
      (InWindow(begin, end, ts[i]) <==> WindowStart(ts, begin) <= i < WindowStart(ts, begin) + |w|)
  {
    var lo, hi := WindowStart(ts, begin), WindowEnd(ts, end);
    WindowCuts(ts, begin, end);
    if lo < hi then data[lo..hi] else []
  }

  // ---------------------------------------------------------------- tick server

  /** A tick page: the earliest MaxTicks ticks of the request's window. */
  function TickPage(data: seq<TickRecord>, req: TickDataRequest): (page: seq<TickRecord>)
    ensures var w := Window(data, Times(data, TickTime), req.beginTime, req.endTime);
      |page| == (if |w| <= MaxTicks then |w| else MaxTicks) && page == w[..|page|]
  {
    var w := Window(data, Times(data, TickTime), req.beginTime, req.endTime);
    if |w| <= MaxTicks then w else w[..MaxTicks]
  }

  function TickServer(data: seq<TickRecord>): TickFetcher {
    req => Success(TickPage(data, req))
  }

  /** Fewer than MaxTicks ticks of the dataset share one whole second: any
      MaxTicks consecutive ticks span more than one second. */
  ghost predicate NoCrowdedSecond(ts: seq<int>) {
    forall i, j :: 0 <= i < j < |ts| && j - i == MaxTicks - 1 ==> Floor(ts[i]) < Floor(ts[j])
  }

  /** Every tick of a page lies in the request's window. */
  lemma TickPageInWindow(data: seq<TickRecord>, req: TickDataRequest)
    requires SortedTimes(Times(data, TickTime))
    ensures TicksInWindow(req, TickPage(data, req))
  {
    hide Times, Floor, Cut, SortedTimes;
    var ts := Times(data, TickTime);
    var lo := WindowStart(ts, req.beginTime);
    var page := TickPage(data, req);
    forall i | 0 <= i < |page|
      ensures InWindow(req.beginTime, req.endTime, page[i].time)
    {
      assert page[i] == data[lo + i];
      assert InWindow(req.beginTime, req.endTime, ts[lo + i]);
    }
  }

  /** The server answers inside the requested window. */
  lemma TickServerInWindow(data: seq<TickRecord>)
    requires SortedTimes(Times(data, TickTime))
    ensures TickFetcherInWindow(TickServer(data))
  {
    forall req: TickDataRequest
      ensures TicksInWindow(req, TickServer(data)(req).value)
    {
      TickPageInWindow(data, req);
    }
  }

  /** After a full page the trim leaves exactly the dataset's ticks from the
      window's start up to the second of the page's last tick, and that
      second starts inside the page. */
  lemma TrimOnServer(data: seq<TickRecord>, lo0: nat, lo: nat, latest: int)
    requires SortedTimes(Times(data, TickTime))
    requires lo0 <= lo && lo + MaxTicks <= |data|
    requires latest == Floor(data[lo + MaxTicks - 1].time)
    requires forall i :: 0 <= i < lo0 ==> data[i].time < latest
    ensures var cut := WindowStart(Times(data, TickTime), latest);
      lo0 <= cut < lo + MaxTicks && TrimTail(data[lo0..lo + MaxTicks], latest) == data[lo0..cut]
  {
    hide TrimTail, Floor, Cut, Times;
    var ts := Times(data, TickTime);
    var records := data[lo0..lo + MaxTicks];
    var last := lo + MaxTicks - 1;
    var kept := TrimTail(records, latest);
    var k := |kept|;
    forall i | lo0 <= i < lo0 + k
      ensures ts[i] < latest
    {
      assert ts[i] <= ts[lo0 + k - 1];
      assert ts[lo0 + k - 1] == kept[k - 1].time;
    }
    forall i | lo0 + k <= i < |ts|
      ensures ts[i] >= latest
    {
      if i <= last {
        assert ts[i] == records[i - lo0].time;
      } else {
        assert ts[last] <= ts[i];
      }
    }
    CutUnique(ts, latest, lo0 + k);
    FloorFacts(latest, latest);
    assert WindowStart(ts, latest) == lo0 + k;
    SliceOfSlice(data, lo0, lo + MaxTicks, k);
  }

  /** After a full page from the server the pager continues, and the ticks
      it keeps are the window's ticks before the next request's begin time,
      with more of the window still to come. */
  lemma FullTickPage(data: seq<TickRecord>, orig: TickDataRequest, req: TickDataRequest)
    requires SortedTimes(Times(data, TickTime)) && NoCrowdedSecond(Times(data, TickTime))
    requires orig.beginTime <= req.beginTime
    requires var ts := Times(data, TickTime);
      WindowStart(ts, orig.beginTime) <= WindowStart(ts, req.beginTime)
      && WindowStart(ts, req.beginTime) + MaxTicks <= WindowEnd(ts, req.endTime)
    ensures var ts := Times(data, TickTime);
      var lo0, lo, hi := WindowStart(ts, orig.beginTime), WindowStart(ts, req.beginTime), WindowEnd(ts, req.endTime);
      var latest := Floor(data[lo + MaxTicks - 1].time);
      latest > req.beginTime && latest <= Floor(req.endTime) && orig.beginTime <= latest
      && lo0 <= WindowStart(ts, latest) && (forall i :: 0 <= i < lo0 ==> data[i].time < latest)
  {
    hide Floor, Cut, TrimTail, SortedTimes;
    var ts := Times(data, TickTime);
    var lo0, lo, hi := WindowStart(ts, orig.beginTime), WindowStart(ts, req.beginTime), WindowEnd(ts, req.endTime);
    var last := lo + MaxTicks - 1;
    var latest := Floor(data[last].time);
    assert Floor(ts[lo]) < Floor(ts[last]);
    FloorFacts(Floor(req.beginTime), data[lo].time);
    FloorFacts(latest, req.beginTime);
    FloorFacts(latest, latest);
    FloorFacts(orig.beginTime, req.beginTime);
    assert latest > req.beginTime;
    FloorFacts(Floor(req.endTime) + 1000, data[last].time);
    SecondsBelow(latest, Floor(req.endTime));
    assert Floor(latest) == latest;
    CutMonotone(ts, Floor(orig.beginTime), latest);
    assert forall i :: 0 <= i < lo0 ==> data[i].time < Floor(orig.beginTime);
  }

  /** The invariant of the tick pager against the server: the ticks
      fetched so far are the window's ticks before the current request's
      begin time, and the rest of the window is still to come unless
      nothing was fetched. */
  ghost predicate TickProgress(data: seq<TickRecord>, orig: TickDataRequest, req: TickDataRequest, acc: seq<TickRecord>) {
    var ts := Times(data, TickTime);
    req.endTime == orig.endTime && orig.beginTime <= req.beginTime
    && WindowStart(ts, orig.beginTime) <= WindowStart(ts, req.beginTime)
    && acc == data[WindowStart(ts, orig.beginTime)..WindowStart(ts, req.beginTime)]
    && (WindowStart(ts, req.beginTime) < WindowEnd(ts, req.endTime) || acc == [])
  }

  /** What the tick pager returns against the server once `TickProgress` holds. */
  lemma {:induction false} TickPagingOnServer(data: seq<TickRecord>, orig: TickDataRequest, req: TickDataRequest, acc: seq<TickRecord>)
    requires SortedTimes(Times(data, TickTime)) && NoCrowdedSecond(Times(data, TickTime))
    requires TickFetcherInWindow(TickServer(data)) && TickProgress(data, orig, req, acc)
    ensures var ts := Times(data, TickTime);
      var lo0, hi := WindowStart(ts, orig.beginTime), WindowEnd(ts, orig.endTime);
      TickPaging(TickServer(data), req, acc) ==
        if lo0 < hi then Success(data[lo0..hi]) else Failure(IndexOutOfRange)
    decreases Floor(req.endTime) - req.beginTime, 1
  {
    hide TickPage, Window, TrimTail, Cut, TickPaging, Floor, SortedTimes, NoCrowdedSecond, TickFetcherInWindow;
    var ts := Times(data, TickTime);
    var lo0, lo, hi := WindowStart(ts, orig.beginTime), WindowStart(ts, req.beginTime), WindowEnd(ts, req.endTime);
    var page := TickPage(data, req);
    var server := TickServer(data);
    assert server(req) == Success(page);
    if lo < hi {
      assert page == data[lo..lo + |page|];
      if |page| == MaxTicks {
        FullTickPageOnServer(data, orig, req, acc);
      } else {
        TickPagingStep(server, req, acc);
        assert page == data[lo..hi];
        assert acc + page == data[lo0..hi];
      }
    } else {
      assert page == [];
      TickPagingEmptyPage(server, req, acc);
    }
  }

  /** After a full page the trimmed ticks and the next request keep `TickProgress`. */
  lemma NextTickProgress(data: seq<TickRecord>, orig: TickDataRequest, req: TickDataRequest, acc: seq<TickRecord>)
    requires SortedTimes(Times(data, TickTime)) && NoCrowdedSecond(Times(data, TickTime))
    requires TickProgress(data, orig, req, acc)
    requires var ts := Times(data, TickTime);
      WindowStart(ts, req.beginTime) + MaxTicks <= WindowEnd(ts, req.endTime)
    ensures var ts := Times(data, TickTime);
      var lo := WindowStart(ts, req.beginTime);
      var latest := Floor(data[lo + MaxTicks - 1].time);
      req.beginTime < latest <= Floor(req.endTime)
      && TickProgress(data, orig, NextTickRequest(req, latest), TrimTail(acc + data[lo..lo + MaxTicks], latest))
  {
    hide TrimTail, Floor, Cut, SortedTimes, NoCrowdedSecond;
    var ts := Times(data, TickTime);
    var lo0, lo := WindowStart(ts, orig.beginTime), WindowStart(ts, req.beginTime);
    var latest := Floor(data[lo + MaxTicks - 1].time);
    FullTickPage(data, orig, req);
    TrimOnServer(data, lo0, lo, latest);
    SliceJoin(data, lo0, lo, lo + MaxTicks);
  }

  /** A full page from the server moves the tick pager on with `TickProgress` kept. */
  lemma {:induction false} FullTickPageOnServer(data: seq<TickRecord>, orig: TickDataRequest, req: TickDataRequest, acc: seq<TickRecord>)
    requires SortedTimes(Times(data, TickTime)) && NoCrowdedSecond(Times(data, TickTime))
    requires TickFetcherInWindow(TickServer(data)) && TickProgress(data, orig, req, acc)
    requires var ts := Times(data, TickTime);
      WindowStart(ts, req.beginTime) + MaxTicks <= WindowEnd(ts, req.endTime)
    ensures var ts := Times(data, TickTime);
      var lo0, hi := WindowStart(ts, orig.beginTime), WindowEnd(ts, orig.endTime);
      TickPaging(TickServer(data), req, acc) ==
        if lo0 < hi then Success(data[lo0..hi]) else Failure(IndexOutOfRange)
    decreases Floor(req.endTime) - req.beginTime, 0
  {
    hide TickPage, Window, TrimTail, Cut, TickPaging, Floor, SortedTimes, NoCrowdedSecond, TickFetcherInWindow, TickProgress;
    var ts := Times(data, TickTime);
    var lo := WindowStart(ts, req.beginTime);
    var page := TickPage(data, req);
    var server := TickServer(data);
    assert server(req) == Success(page);
    assert page == data[lo..lo + MaxTicks];
    var latest := Floor(data[lo + MaxTicks - 1].time);
    assert page[|page| - 1] == data[lo + MaxTicks - 1];
    TickPagingStep(server, req, acc);
    NextTickProgress(data, orig, req, acc);
    TickPagingOnServer(data, orig, NextTickRequest(req, latest), TrimTail(acc + page, latest));
  }

  /** Against the server, the tick pager returns exactly the ticks of the
      window asked for, in order and each once, provided fewer than MaxTicks
      ticks share a second; a window without ticks makes it fail. */
  lemma TickPagingComplete(data: seq<TickRecord>, req: TickDataRequest)
    requires SortedTimes(Times(data, TickTime)) && NoCrowdedSecond(Times(data, TickTime))
    ensures TickFetcherInWindow(TickServer(data))
    ensures var w := Window(data, Times(data, TickTime), req.beginTime, req.endTime);
      TickPaging(TickServer(data), req, []) == if w == [] then Failure(IndexOutOfRange) else Success(w)
  {
    TickServerInWindow(data);
    assert TickProgress(data, req, req, []);
    TickPagingOnServer(data, req, req, []);
  }

  // ---------------------------------------------------------------- bar server

  /** A bar page: the latest MaxBars bars of the request's window. */
  function BarPage(data: seq<BarDataRecord>, req: BarDataRequest): (page: seq<BarDataRecord>)
    ensures var w := Window(data, Times(data, BarTime), req.beginTime, req.endTime);
      |page| == (if |w| <= MaxBars then |w| else MaxBars) && page == w[|w| - |page|..]
  {
    var w := Window(data, Times(data, BarTime), req.beginTime, req.endTime);
    if |w| <= MaxBars then w else w[|w| - MaxBars..]
  }

  function BarServer(data: seq<BarDataRecord>): BarFetcher {
    req => Success(BarPage(data, req))
  }

  /** Any two bars of the dataset are at least a minute apart, as bars of
      one minute or more are. */
  predicate MinuteApart(ts: seq<int>) {
    forall i, j :: 0 <= i < j < |ts| ==> ts[i] + BarStep <= ts[j]
  }

  /** Every bar of a page lies in the request's window. */
  lemma BarPageInWindow(data: seq<BarDataRecord>, req: BarDataRequest)
    requires SortedTimes(Times(data, BarTime))
    ensures BarsInWindow(req, BarPage(data, req))
  {
    hide Times, Floor, Cut, SortedTimes;
    var ts := Times(data, BarTime);
    var w := Window(data, ts, req.beginTime, req.endTime);
    var lo := WindowStart(ts, req.beginTime);
    var page := BarPage(data, req);
    forall i | 0 <= i < |page|
      ensures InWindow(req.beginTime, req.endTime, page[i].time)
    {
      var j := lo + |w| - |page| + i;
      assert page[i] == data[j];
      assert InWindow(req.beginTime, req.endTime, ts[j]);
    }
  }

  /** The server answers inside the requested window. */
  lemma BarServerInWindow(data: seq<BarDataRecord>)
    requires SortedTimes(Times(data, BarTime))
    ensures BarFetcherInWindow(BarServer(data))
  {
    forall req: BarDataRequest
      ensures BarsInWindow(req, BarServer(data)(req).value)
    {
      BarPageInWindow(data, req);
    }
  }

  /** The invariant of the bar pager against the server: the bars fetched so
      far are the window's bars from the current request's end on, and the
      current window has not moved past the begin time unless nothing was
      fetched. */
  ghost predicate BarProgress(data: seq<BarDataRecord>, orig: BarDataRequest, req: BarDataRequest, acc: seq<BarDataRecord>) {
    var ts := Times(data, BarTime);
    req.beginTime == orig.beginTime && req.endTime <= orig.endTime
    && WindowEnd(ts, req.endTime) <= WindowEnd(ts, orig.endTime)
    && acc == data[WindowEnd(ts, req.endTime)..WindowEnd(ts, orig.endTime)]
    && (WindowStart(ts, req.beginTime) <= WindowEnd(ts, req.endTime) || acc == [])
  }

  /** After a full page the oldest bar is before the request's end, and the
      next window ends exactly where the page began. */
  lemma FullBarPage(data: seq<BarDataRecord>, req: BarDataRequest)
    requires MinuteApart(Times(data, BarTime))
    requires var ts := Times(data, BarTime);
      WindowStart(ts, req.beginTime) + MaxBars <= WindowEnd(ts, req.endTime)
    ensures var ts := Times(data, BarTime);
      var hi := WindowEnd(ts, req.endTime);
      var oldest := data[hi - MaxBars].time;
      Floor(req.beginTime) <= oldest < req.endTime && WindowEnd(ts, oldest - BarStep) == hi - MaxBars
  {
    hide Floor, Cut;
    var ts := Times(data, BarTime);
    var hi := WindowEnd(ts, req.endTime);
    var p := hi - MaxBars;
    var oldest := data[p].time;
    var end := oldest - BarStep;
    assert SortedTimes(ts);
    assert ts[p] + BarStep <= ts[hi - 1];
    assert ts[hi - 1] < Floor(req.endTime) + 1000;
    forall i | 0 <= i < p
      ensures ts[i] < Floor(end) + 1000
    {
      FloorFacts(ts[i], end);
    }
    forall i | p <= i < |ts|
      ensures ts[i] >= Floor(end) + 1000
    {
      assert ts[p] <= ts[i];
    }
    CutUnique(ts, Floor(end) + 1000, p);
  }

  /** After a full page the bars fetched and the next request keep `BarProgress`. */
  lemma NextBarProgress(data: seq<BarDataRecord>, orig: BarDataRequest, req: BarDataRequest, acc: seq<BarDataRecord>)
    requires MinuteApart(Times(data, BarTime)) && BarProgress(data, orig, req, acc)
    requires var ts := Times(data, BarTime);
      WindowStart(ts, req.beginTime) + MaxBars <= WindowEnd(ts, req.endTime)
    ensures var ts := Times(data, BarTime);
      var hi := WindowEnd(ts, req.endTime);
      var oldest := data[hi - MaxBars].time;
      Floor(req.beginTime) <= oldest < req.endTime
      && BarProgress(data, orig, NextBarRequest(req, oldest), data[hi - MaxBars..hi] + acc)
  {
    hide Floor, Cut, MinuteApart;
    var ts := Times(data, BarTime);
    var hi, hi0 := WindowEnd(ts, req.endTime), WindowEnd(ts, orig.endTime);
    FullBarPage(data, req);
    SliceJoin(data, hi - MaxBars, hi, hi0);
  }

  /** What the bar pager returns against the server once `BarProgress` holds. */
  lemma {:induction false} BarPagingOnServer(data: seq<BarDataRecord>, orig: BarDataRequest, req: BarDataRequest, acc: seq<BarDataRecord>)
    requires MinuteApart(Times(data, BarTime))
    requires BarFetcherInWindow(BarServer(data)) && BarProgress(data, orig, req, acc)
    ensures var ts := Times(data, BarTime);
      var lo, hi0 := WindowStart(ts, orig.beginTime), WindowEnd(ts, orig.endTime);
      BarPaging(BarServer(data), req, acc) ==
        if lo < hi0 then Success(data[lo..hi0]) else Failure(IndexOutOfRange)
    decreases req.endTime - Floor(req.beginTime) + BarStep, 1
  {
    hide BarPage, Window, Cut, BarPaging, Floor, MinuteApart, BarFetcherInWindow;
    var ts := Times(data, BarTime);
    var lo, hi, hi0 := WindowStart(ts, req.beginTime), WindowEnd(ts, req.endTime), WindowEnd(ts, orig.endTime);
    var page := BarPage(data, req);
    var server := BarServer(data);
    assert server(req) == Success(page);
    if lo < hi && hi - lo >= MaxBars {
      FullBarPageOnServer(data, orig, req, acc);
    } else if lo < hi {
      assert page == data[lo..hi];
      SliceJoin(data, lo, hi, hi0);
      BarPagingStep(server, req, acc);
    } else {
      assert page == [];
      assert page + acc == acc;
      BarPagingStep(server, req, acc);
    }
  }

  /** A full page from the server moves the bar pager on with `BarProgress` kept. */
  lemma {:induction false} FullBarPageOnServer(data: seq<BarDataRecord>, orig: BarDataRequest, req: BarDataRequest, acc: seq<BarDataRecord>)
    requires MinuteApart(Times(data, BarTime))
    requires BarFetcherInWindow(BarServer(data)) && BarProgress(data, orig, req, acc)
    requires var ts := Times(data, BarTime);
      WindowStart(ts, req.beginTime) + MaxBars <= WindowEnd(ts, req.endTime)
    ensures var ts := Times(data, BarTime);
      var lo, hi0 := WindowStart(ts, orig.beginTime), WindowEnd(ts, orig.endTime);
      BarPaging(BarServer(data), req, acc) ==
        if lo < hi0 then Success(data[lo..hi0]) else Failure(IndexOutOfRange)
    decreases req.endTime - Floor(req.beginTime) + BarStep, 0
  {
    hide BarPage, Window, Cut, BarPaging, Floor, MinuteApart, BarFetcherInWindow, BarProgress;
    var ts := Times(data, BarTime);
    var hi := WindowEnd(ts, req.endTime);
    var page := BarPage(data, req);
    var server := BarServer(data);
    assert server(req) == Success(page);
    var lo := WindowStart(ts, req.beginTime);
    SuffixOfSlice(data, lo, hi, hi - lo - MaxBars);
    assert page == data[hi - MaxBars..hi];
    var records := page + acc;
    assert records[0] == data[hi - MaxBars];
    BarPagingStep(server, req, acc);
    NextBarProgress(data, orig, req, acc);
    BarPagingOnServer(data, orig, NextBarRequest(req, records[0].time), records);
  }

  /** Against the server, the bar pager returns exactly the bars of the
      window asked for, in order and each once, provided bars are at least a
      minute apart; a window without bars makes it fail. */
  lemma BarPagingComplete(data: seq<BarDataRecord>, req: BarDataRequest)
    requires MinuteApart(Times(data, BarTime))
    ensures BarFetcherInWindow(BarServer(data))
    ensures var w := Window(data, Times(data, BarTime), req.beginTime, req.endTime);
      BarPaging(BarServer(data), req, []) == if w == [] then Failure(IndexOutOfRange) else Success(w)
  {
    assert SortedTimes(Times(data, BarTime));
    BarServerInWindow(data);
    assert BarProgress(data, req, req, []);
    BarPagingOnServer(data, req, req, []);
  }
}
