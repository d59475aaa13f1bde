/**
 * `analyze_consumption(year)` up to its plots: collect the year's records through the
 * cache, then compute the statistics over them.
 */
module Analysis {
  import opened Wrappers
  import opened Source
  import opened MonthlyCollector
  import opened Aggregator

  /** Why a yearly analysis produces no report: the collection raised on an uncached month outside
      1..12, or the analysis raised on the collected records. */
  datatype YearFault = CollectionAborted(month: int) | AnalysisFailed(fault: Fault)

  method AnalyzeYear(collector: Collector, year: int, settings: Settings, source: (string, string) -> Option<Response>)
    returns (result: Result<Report, YearFault>)
    modifies collector
    ensures var st := Run(year, MonthRange(settings), RunState([], old(collector.cache), old(collector.fetchLog), None), source);
      collector.cache == st.cache && collector.fetchLog == st.fetches
    ensures !Completes(year, MonthRange(settings), old(collector.cache)) ==>
      result.Failure? && result.error.CollectionAborted?
    ensures Completes(year, MonthRange(settings), old(collector.cache)) ==>
      var records := Expected(year, MonthRange(settings), old(collector.cache), source);
      && (result.Failure? <==> Enrich(records).Failure?)
      && (result.Failure? ==> result.error == AnalysisFailed(Enrich(records).error))
      && (result.Success? ==>
            var txns := Enrich(records).value;
            result.value == Report(TotalConsumption(txns), MonthlyConsumption(txns), CategoryConsumption(txns),
                                   CanteenConsumption(txns), PresentWeekdays(txns), HeatmapMatrix(txns),
                                   WeekHeatmap(txns)))
  {
    var collected := collector.GetMonthlyData(year, settings, source);
    if collected.Failure? {
      return Failure(CollectionAborted(collected.error));
    }
    var analysed := AnalyzeConsumption(collected.value);
    if analysed.Failure? {
      return Failure(AnalysisFailed(analysed.error));
    }
    return Success(analysed.value);
  }
}
