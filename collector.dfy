/**
 * The month-by-month collector `get_monthly_data`: for each month of the
 * configured range, in ascending order, read the month's response from the
 * cache or fetch it live for the month's first-to-last-day window, write a
 * successful live response to the cache, and append the records of every
 * successful response that carries `data.data`.
 *
 * The cache directory is a map keyed by (year, month). The transaction source
 * is a function from the two window dates to an optional response.
 */
module MonthlyCollector {
  import opened Wrappers
  import opened Calendar
  import opened Timestamp
  import opened Source

  /** The settings the collector reads: the test-mode flag and the inclusive test sub-range. */
  datatype Settings = Settings(testMode: bool, testMonthStart: int, testMonthEnd: int)

  type MonthKey = (int, int)

  /** The begin and end dates of one live fetch, as passed to the source. */
  datatype Window = Window(begin: string, end: string)

  /** Python's `range(lo, hi)`. */
  function Range(lo: int, hi: int): (r: seq<int>)
    ensures |r| == if lo < hi then hi - lo else 0
    ensures forall i :: 0 <= i < |r| ==> r[i] == lo + i
    decreases hi - lo
  {
    if hi <= lo then [] else [lo] + Range(lo + 1, hi)
  }

  /** The months processed: 1..12, or the inclusive test sub-range in test mode; ascending either way. */
  function MonthRange(settings: Settings): (months: seq<int>)
    ensures Increasing(months)
    ensures forall m :: m in months <==>
      if settings.testMode then settings.testMonthStart <= m <= settings.testMonthEnd else 1 <= m <= 12
  {
    var lo := if settings.testMode then settings.testMonthStart else 1;
    var hi := if settings.testMode then settings.testMonthEnd + 1 else 13;
    var months := Range(lo, hi);
    assert forall m :: m in months <==> lo <= m < hi by {
      forall m | lo <= m < hi ensures m in months {
        assert months[m - lo] == m;
      }
    }
    months
  }

  /** The live fetch window of a month: its first day through its last day. */
  function MonthWindow(year: int, month: int): Window
    requires 1 <= month <= 12
  {
    Window(FormatDate(Date(year, month, 1)), FormatDate(Date(year, month, DaysInMonth(year, month))))
  }

  /** The response a live fetch of a month obtains. */
  function Fetched(year: int, month: int, source: (string, string) -> Option<Response>): Option<Response>
    requires 1 <= month <= 12
  {
    var w := MonthWindow(year, month);
    source(w.begin, w.end)
  }

  /** A four-digit year's window reads back as the first day and the last valid day of the month. */
  lemma WindowSpansMonth(year: int, month: int)
    requires 1000 <= year <= 9999 && 1 <= month <= 12
    ensures ParseDate(MonthWindow(year, month).begin) == Some(Date(year, month, 1))
    ensures ParseDate(MonthWindow(year, month).end) == Some(Date(year, month, DaysInMonth(year, month)))
  {
    ParseFormattedDate(Date(year, month, 1));
    ParseFormattedDate(Date(year, month, DaysInMonth(year, month)));
  }

  /** The state the loop of `get_monthly_data` carries; `abortedAt` names the month whose
      `calendar.monthrange` call raised. */
  datatype RunState = RunState(
    records: seq<Record>,
    cache: map<MonthKey, Response>,
    fetches: seq<Window>,
    abortedAt: Option<int>)

  /** One iteration of the loop: a cache hit, a live fetch, or the exception of an illegal month. */
  function Step(year: int, st: RunState, month: int, source: (string, string) -> Option<Response>): RunState {
    if st.abortedAt.Some? then st
    else if (year, month) in st.cache then
      st.(records := st.records + Contribution(Some(st.cache[(year, month)])))
    else if !(1 <= month <= 12) then st.(abortedAt := Some(month))
    else
      var response := Fetched(year, month, source);
      RunState(
        st.records + Contribution(response),
        if Successful(response) then st.cache[(year, month) := response.value] else st.cache,
        st.fetches + [MonthWindow(year, month)],
        None)
  }

  /** The loop over a sequence of months, from a given state. */
  function Run(year: int, months: seq<int>, start: RunState, source: (string, string) -> Option<Response>): RunState {
    if months == [] then start
    else Step(year, Run(year, months[..|months| - 1], start, source), months[|months| - 1], source)
  }

  /** No month of the range misses the cache while lying outside 1..12. */
  predicate Completes(year: int, months: seq<int>, cache: map<MonthKey, Response>) {
    forall m :: m in months ==> (year, m) in cache || 1 <= m <= 12
  }

  /** The response a month's iteration sees, given the cache as it stood before the run
      (nothing for a month that would raise). */
  function Answer(year: int, month: int, cache: map<MonthKey, Response>, source: (string, string) -> Option<Response>): Option<Response> {
    if (year, month) in cache then Some(cache[(year, month)])
    else if 1 <= month <= 12 then Fetched(year, month, source)
    else None
  }

  /** Reference result: each month's contribution, concatenated in the order of the months. */
  function Expected(year: int, months: seq<int>, cache: map<MonthKey, Response>, source: (string, string) -> Option<Response>): seq<Record> {
    if months == [] then []
    else Expected(year, months[..|months| - 1], cache, source) + Contribution(Answer(year, months[|months| - 1], cache, source))
  }

  /** Reference fetch log: the windows of the months missing from the cache, in order. */
  function ExpectedFetches(year: int, months: seq<int>, cache: map<MonthKey, Response>): seq<Window> {
    if months == [] then []
    else
      var m := months[|months| - 1];
      ExpectedFetches(year, months[..|months| - 1], cache)
      + (if (year, m) in cache || !(1 <= m <= 12) then [] else [MonthWindow(year, m)])
  }

  /** The loop's state after one more month is one Step from the state before it. */
  lemma RunExtend(year: int, months: seq<int>, i: nat, start: RunState, source: (string, string) -> Option<Response>)
    requires i < |months|
    ensures Run(year, months[..i + 1], start, source) == Step(year, Run(year, months[..i], start, source), months[i], source)
  {
    assert months[..i + 1][..i] == months[..i];
  }

  /** Write-once: an entry already in the cache is never removed or overwritten. */
  lemma {:induction false} RunKeepsEntries(year: int, months: seq<int>, start: RunState, source: (string, string) -> Option<Response>)
    ensures forall k :: k in start.cache ==>
      k in Run(year, months, start, source).cache && Run(year, months, start, source).cache[k] == start.cache[k]
  {
    if months != [] {
      RunKeepsEntries(year, months[..|months| - 1], start, source);
    }
  }

  /** An entry the run adds is for a month of the range whose live fetch succeeded, and holds that response. */
  lemma {:induction false} RunNewEntries(year: int, months: seq<int>, start: RunState, source: (string, string) -> Option<Response>)
    ensures var st := Run(year, months, start, source);
      forall k :: k in st.cache && k !in start.cache ==>
        && k.0 == year && k.1 in months && 1 <= k.1 <= 12
        && Successful(Fetched(year, k.1, source))
        && st.cache[k] == Fetched(year, k.1, source).value
  {
    if months != [] {
      var init := months[..|months| - 1];
      RunNewEntries(year, init, start, source);
      assert forall m :: m in init ==> m in months;
    }
  }

  /** The run raises exactly when some month outside 1..12 misses the cache. */
  lemma {:induction false} RunAborts(year: int, months: seq<int>, start: RunState, source: (string, string) -> Option<Response>)
    requires start.abortedAt == None
    ensures Run(year, months, start, source).abortedAt == None <==> Completes(year, months, start.cache)
  {
    if months != [] {
      var init := months[..|months| - 1];
      var m := months[|months| - 1];
      RunAborts(year, init, start, source);
      RunNewEntries(year, init, start, source);
      RunKeepsEntries(year, init, start, source);
      assert forall x :: x in months <==> x in init || x == m by {
        assert months == init + [m];
      }
      var prev := Run(year, init, start, source);
      assert !(1 <= m <= 12) ==> ((year, m) in prev.cache <==> (year, m) in start.cache);
    }
  }

  /** One step never removes or changes an entry the cache already holds. */
  lemma StepKeepsEntries(year: int, st: RunState, month: int, source: (string, string) -> Option<Response>)
    ensures forall k :: k in st.cache ==>
      k in Step(year, st, month, source).cache && Step(year, st, month, source).cache[k] == st.cache[k]
  {
  }

  /** A month of the range whose live fetch succeeded ends up in the cache, unless the run raised. */
  lemma {:induction false} RunAddsSuccessfulMonths(year: int, months: seq<int>, start: RunState, source: (string, string) -> Option<Response>)
    requires Run(year, months, start, source).abortedAt == None
    ensures forall m :: m in months && 1 <= m <= 12 && Successful(Fetched(year, m, source)) ==>
      (year, m) in Run(year, months, start, source).cache
  {
    if months != [] {
      var init := months[..|months| - 1];
      var last := months[|months| - 1];
      var prev := Run(year, init, start, source);
      var st := Run(year, months, start, source);
      assert st == Step(year, prev, last, source);
      assert prev.abortedAt == None;
      RunAddsSuccessfulMonths(year, init, start, source);
      StepKeepsEntries(year, prev, last, source);
      forall m | m in months && 1 <= m <= 12 && Successful(Fetched(year, m, source))
        ensures (year, m) in st.cache
      {
        if m != last {
          assert months == init + [last];
          assert m in init;
        }
      }
    }
  }

  /** After a run that did not raise, the cache holds the entries it held before plus exactly the
      months of the range whose response was live and successful. */
  lemma RunCacheSpec(year: int, months: seq<int>, start: RunState, source: (string, string) -> Option<Response>)
    requires start.abortedAt == None && Completes(year, months, start.cache)
    ensures var st := Run(year, months, start, source);
      forall k :: k in st.cache <==>
        k in start.cache || (k.0 == year && k.1 in months && Successful(Answer(year, k.1, start.cache, source)))
  {
    RunAborts(year, months, start, source);
    RunKeepsEntries(year, months, start, source);
    RunNewEntries(year, months, start, source);
    RunAddsSuccessfulMonths(year, months, start, source);
  }

  /** One step of a run that has not raised appends the month's contribution and logs its fetch, if any. */
  lemma StepRecords(year: int, st: RunState, month: int, source: (string, string) -> Option<Response>)
    requires st.abortedAt == None && ((year, month) in st.cache || 1 <= month <= 12)
    ensures var next := Step(year, st, month, source);
      && next.abortedAt == None
      && next.records == st.records + Contribution(Answer(year, month, st.cache, source))
      && next.fetches == st.fetches + (if (year, month) in st.cache then [] else [MonthWindow(year, month)])
  {
  }

  lemma LastIsNew(months: seq<int>)
    requires Increasing(months) && months != []
    ensures months[|months| - 1] !in months[..|months| - 1]
    ensures Increasing(months[..|months| - 1])
  {
    var init := months[..|months| - 1];
    forall i | 0 <= i < |init| ensures init[i] != months[|months| - 1] {
      assert init[i] == months[i];
    }
  }

  /** When the cache holds a month before a run over earlier, different months, the month's
      iteration sees the same response as it would have at the start. */
  lemma {:induction false} AnswerUnchanged(year: int, months: seq<int>, m: int, start: RunState, source: (string, string) -> Option<Response>)
    requires m !in months
    ensures Answer(year, m, Run(year, months, start, source).cache, source) == Answer(year, m, start.cache, source)
  {
    if (year, m) in start.cache {
      RunKeepsEntries(year, months, start, source);
    } else {
      RunNewEntries(year, months, start, source);
    }
  }

  /** A run whose months all complete returns the reference concatenation of the months' contributions. */
  lemma {:induction false} RunCollects(year: int, months: seq<int>, start: RunState, source: (string, string) -> Option<Response>)
    requires start.abortedAt == None
    requires Increasing(months) && Completes(year, months, start.cache)
    ensures Run(year, months, start, source).abortedAt == None
    ensures Run(year, months, start, source).records == start.records + Expected(year, months, start.cache, source)
  {
    if months != [] {
      var init := months[..|months| - 1];
      var m := months[|months| - 1];
      LastIsNew(months);
      CompletesPrefix(year, months, start.cache);
      RunCollects(year, init, start, source);
      CollectsOneMore(year, months, start, source);
    }
  }

  /** The step of `RunCollects`: the last month appends its contribution as the cache stood at the start. */
  lemma CollectsOneMore(year: int, months: seq<int>, start: RunState, source: (string, string) -> Option<Response>)
    requires months != [] && start.abortedAt == None
    requires var init := months[..|months| - 1]; var m := months[|months| - 1];
      && Run(year, init, start, source).abortedAt == None
      && Run(year, init, start, source).records == start.records + Expected(year, init, start.cache, source)
      && m !in init && ((year, m) in start.cache || 1 <= m <= 12)
    ensures Run(year, months, start, source).abortedAt == None
    ensures Run(year, months, start, source).records == start.records + Expected(year, months, start.cache, source)
  {
    var init := months[..|months| - 1];
    var m := months[|months| - 1];
    var prev := Run(year, init, start, source);
    RunKeepsEntries(year, init, start, source);
    AnswerUnchanged(year, init, m, start, source);
    StepRecords(year, prev, m, source);
    var answer := Contribution(Answer(year, m, start.cache, source));
    assert Expected(year, months, start.cache, source) == Expected(year, init, start.cache, source) + answer;
    assert Run(year, months, start, source).records == prev.records + answer;
  }

  /** The months before the last of a completing range complete too, and the last month is legal or cached. */
  lemma CompletesPrefix(year: int, months: seq<int>, cache: map<MonthKey, Response>)
    requires months != [] && Completes(year, months, cache)
    ensures Completes(year, months[..|months| - 1], cache)
    ensures var m := months[|months| - 1]; (year, m) in cache || 1 <= m <= 12
  {
    assert months[|months| - 1] in months;
    forall x | x in months[..|months| - 1] ensures (year, x) in cache || 1 <= x <= 12 {
      assert x in months;
    }
  }

  /** A run whose months all complete fetches exactly the windows of the months missing from the
      cache, in order: a cache hit never calls the source. */
  lemma {:induction false} RunFetches(year: int, months: seq<int>, start: RunState, source: (string, string) -> Option<Response>)
    requires start.abortedAt == None
    requires Increasing(months) && Completes(year, months, start.cache)
    ensures Run(year, months, start, source).fetches == start.fetches + ExpectedFetches(year, months, start.cache)
  {
    if months != [] {
      var init := months[..|months| - 1];
      var m := months[|months| - 1];
      LastIsNew(months);
      assert Completes(year, init, start.cache) by {
        assert forall x :: x in init ==> x in months;
      }
      RunFetches(year, init, start, source);
      RunCollects(year, init, start, source);
      var prev := Run(year, init, start, source);
      if (year, m) in start.cache {
        RunKeepsEntries(year, init, start, source);
      } else {
        RunNewEntries(year, init, start, source);
      }
      StepRecords(year, prev, m, source);
    }
  }

  /** When every month of the range is cached, a run makes no source call and leaves the cache alone. */
  lemma {:induction false} CachedRunFetchesNothing(year: int, months: seq<int>, start: RunState, source: (string, string) -> Option<Response>)
    requires start.abortedAt == None
    requires forall m :: m in months ==> (year, m) in start.cache
    ensures var st := Run(year, months, start, source);
      st.abortedAt == None && st.fetches == start.fetches && st.cache == start.cache
  {
    if months != [] {
      CachedRunFetchesNothing(year, months[..|months| - 1], start, source);
    }
  }

  lemma {:induction false} ExpectedAgrees(year: int, months: seq<int>,
                                          cacheA: map<MonthKey, Response>, sourceA: (string, string) -> Option<Response>,
                                          cacheB: map<MonthKey, Response>, sourceB: (string, string) -> Option<Response>)
    requires forall m :: m in months ==> Answer(year, m, cacheA, sourceA) == Answer(year, m, cacheB, sourceB)
    ensures Expected(year, months, cacheA, sourceA) == Expected(year, months, cacheB, sourceB)
  {
    if months != [] {
      var init := months[..|months| - 1];
      assert forall m :: m in init ==> m in months;
      ExpectedAgrees(year, init, cacheA, sourceA, cacheB, sourceB);
    }
  }

  /** Idempotence: once a run has left every month of the range in the cache, a second run,
      whatever the source then answers, makes no source call, changes nothing and returns the same list. */
  lemma SecondRunRepeats(year: int, months: seq<int>, cache: map<MonthKey, Response>,
                         first: (string, string) -> Option<Response>, second: (string, string) -> Option<Response>)
    requires Increasing(months) && Completes(year, months, cache)
    requires forall m :: m in months ==> (year, m) in Run(year, months, RunState([], cache, [], None), first).cache
    ensures var run1 := Run(year, months, RunState([], cache, [], None), first);
      var run2 := Run(year, months, RunState([], run1.cache, [], None), second);
      run2.abortedAt == None && run2.fetches == [] && run2.cache == run1.cache && run2.records == run1.records
  {
    var start1 := RunState([], cache, [], None);
    var run1 := Run(year, months, start1, first);
    var start2 := RunState([], run1.cache, [], None);
    RunCollects(year, months, start1, first);
    RunCacheSpec(year, months, start1, first);
    RunCollects(year, months, start2, second);
    CachedRunFetchesNothing(year, months, start2, second);
    RunKeepsEntries(year, months, start1, first);
    RunNewEntries(year, months, start1, first);
    forall m | m in months
      ensures Answer(year, m, run1.cache, second) == Answer(year, m, cache, first)
    {
      if (year, m) !in cache {
        assert (year, m) in run1.cache;
      }
    }
    ExpectedAgrees(year, months, run1.cache, second, cache, first);
  }

  /** Running on past the month that raised changes nothing: the exception ends the loop. */
  lemma {:induction false} AbortIsFinal(year: int, months: seq<int>, n: nat, start: RunState, source: (string, string) -> Option<Response>)
    requires n <= |months|
    requires Run(year, months[..n], start, source).abortedAt.Some?
    ensures Run(year, months, start, source) == Run(year, months[..n], start, source)
  {
    if n < |months| {
      var init := months[..|months| - 1];
      assert init[..n] == months[..n];
      AbortIsFinal(year, init, n, start, source);
    } else {
      assert months[..n] == months;
    }
  }

  /** A month whose fetch fails contributes nothing and does not stop the loop: with month `a`
      failing and month `b` answering five records, the run returns exactly those five. */
  lemma FailedMonthIsSkipped(year: int, a: int, b: int, records: seq<Record>, source: (string, string) -> Option<Response>)
    requires 1 <= a < b <= 12 && |records| == 5
    requires Fetched(year, a, source) == None
    requires Fetched(year, b, source) == Some(Response(true, Some(Payload(Some(records)))))
    ensures var st := Run(year, [a, b], RunState([], map[], [], None), source);
      && st.abortedAt == None
      && st.records == records
      && st.fetches == [MonthWindow(year, a), MonthWindow(year, b)]
      && st.cache == map[(year, b) := Response(true, Some(Payload(Some(records))))]
  {
    var s0 := RunState([], map[], [], None);
    assert [a, b][..1] == [a];
    assert [a][..0] == [];
    var s1 := Step(year, s0, a, source);
    assert Run(year, [a], s0, source) == s1;
    assert s1 == RunState([], map[], [MonthWindow(year, a)], None);
    assert Run(year, [a, b], s0, source) == Step(year, s1, b, source);
  }

  /** A successful response without `data.data` is still written to the cache; it contributes no
      records, neither now nor on any later run, which reads it back from the cache instead of fetching. */
  lemma CachedButEmpty(year: int, m: int, first: (string, string) -> Option<Response>, second: (string, string) -> Option<Response>)
    requires 1 <= m <= 12
    requires Fetched(year, m, first) == Some(Response(true, None))
    ensures var run1 := Run(year, [m], RunState([], map[], [], None), first);
      var run2 := Run(year, [m], RunState([], run1.cache, [], None), second);
      && run1.records == [] && run1.cache == map[(year, m) := Response(true, None)]
      && run2.records == [] && run2.fetches == [] && run2.cache == run1.cache
  {
    assert [m][..0] == [];
  }

  /** The collector's view of the file system: the cache directory and the log of live fetches
      (one `time.sleep(0.5)` pause follows each). */
  class Collector {
    var cache: map<MonthKey, Response>
    var fetchLog: seq<Window>

    constructor (stored: map<MonthKey, Response>)
      ensures cache == stored && fetchLog == []
    {
      cache := stored;
      fetchLog := [];
    }

    /** `get_monthly_data(year)`; a month outside 1..12 that misses the cache makes it raise. */
    method GetMonthlyData(year: int, settings: Settings, source: (string, string) -> Option<Response>)
      returns (result: Result<seq<Record>, int>)
      modifies this
      ensures var st := Run(year, MonthRange(settings), RunState([], old(cache), old(fetchLog), None), source);
        && cache == st.cache && fetchLog == st.fetches
        && result == (if st.abortedAt.Some? then Failure(st.abortedAt.value) else Success(st.records))
      ensures forall k :: k in old(cache) ==> k in cache && cache[k] == old(cache)[k]
      ensures result.Success? <==> Completes(year, MonthRange(settings), old(cache))
      ensures result.Success? ==>
        && result.value == Expected(year, MonthRange(settings), old(cache), source)
        && fetchLog == old(fetchLog) + ExpectedFetches(year, MonthRange(settings), old(cache))
    {
      var months := MonthRange(settings);
      ghost var start := RunState([], cache, fetchLog, None);
      var allData: seq<Record> := [];
      for i := 0 to |months|
        invariant Run(year, months[..i], start, source) == RunState(allData, cache, fetchLog, None)
      {
        var month := months[i];
        RunExtend(year, months, i, start, source);
        var response: Option<Response>;
        if (year, month) in cache {
          response := Some(cache[(year, month)]);
        } else {
          if !(1 <= month <= 12) {
            AbortIsFinal(year, months, i + 1, start, source);
            RunKeepsEntries(year, months, start, source);
            RunAborts(year, months, start, source);
            return Failure(month);
          }
          var window := MonthWindow(year, month);
          response := source(window.begin, window.end);
          fetchLog := fetchLog + [window];
          if Successful(response) {
            cache := cache[(year, month) := response.value];
          }
        }
        if HasRecords(response) {
          allData := allData + response.value.data.value.data.value;
        }
      }
      assert months[..|months|] == months;
      RunKeepsEntries(year, months, start, source);
      RunAborts(year, months, start, source);
      RunCollects(year, months, start, source);
      RunFetches(year, months, start, source);
      result := Success(allData);
    }
  }
}
