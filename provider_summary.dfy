/**
 * The `/translation-providers` summaries: `buildProviderSummary` in
 * routes/translationAnalytics.ts and the identical mapping inline in
 * routes/analytics.ts.
 */
module ProviderSummary {
  import opened Wrappers
  import opened ProviderStats

  datatype Summary = Summary(
    provider: string,
    selectionCount: nat,
    averageLatencyMs: Option<int>,
    lastSelectedAt: Option<string>)

  /** Euclidean division bounds its quotient. */
  lemma QuotientBounds(a: nat, b: nat)
    requires b > 0
    ensures b * (a / b) <= a < b * (a / b) + b
  {
  }

  /** Multiplying by a positive real preserves and reflects `<=` and `<`. */
  lemma ScaleBounds(lo: real, x: real, hi: real, c: real)
    requires c > 0.0 && lo * c <= x * c < hi * c
    ensures lo <= x < hi
  {
  }

  /** `Math.round(total / count)` equals integer arithmetic for non-negative totals. */
  lemma RoundedAverage(total: nat, count: nat)
    requires count > 0
    ensures JsRound(total as real / count as real) == (2 * total + count) / (2 * count)
  {
    var x := total as real / count as real;
    var c := count as real;
    var n := (2 * total + count) / (2 * count);
    QuotientBounds(2 * total + count, 2 * count);
    var lo := 2 * count * n;
    assert lo <= 2 * total + count < lo + 2 * count;
    var t, nr := total as real, n as real;
    assert lo as real == 2.0 * (c * nr);
    assert 2.0 * (c * nr) <= 2.0 * t + c < 2.0 * (c * nr) + 2.0 * c;
    assert x * c == t;
    assert (nr - 0.5) * c == c * nr - 0.5 * c;
    assert (nr + 0.5) * c == c * nr + 0.5 * c;
    ScaleBounds(n as real - 0.5, x, n as real + 0.5, c);
  }

  /** The mean latency, rounded, or null for a provider never selected. */
  function AverageLatency(stat: Stat): (avg: Option<int>)
    ensures avg.None? <==> stat.selectionCount == 0
    ensures avg.Some? ==> avg.value == (2 * stat.totalLatencyMs + stat.selectionCount) / (2 * stat.selectionCount)
  {
    if stat.selectionCount > 0 then
      RoundedAverage(stat.totalLatencyMs, stat.selectionCount);
      Some(JsRound(stat.totalLatencyMs as real / stat.selectionCount as real))
    else None
  }

  /** `buildProviderSummary`, applied to the result of `list()`. */
  function BuildProviderSummary(stats: seq<Stat>): (summary: seq<Summary>)
    ensures |summary| == |stats|
    ensures forall i :: 0 <= i < |stats| ==>
      && summary[i].provider == stats[i].provider
      && summary[i].selectionCount == stats[i].selectionCount
      && summary[i].lastSelectedAt == stats[i].lastSelectedAt
      && (summary[i].averageLatencyMs.None? <==> stats[i].selectionCount == 0)
      && (stats[i].selectionCount > 0 ==>
            summary[i].averageLatencyMs ==
            Some((2 * stats[i].totalLatencyMs + stats[i].selectionCount) / (2 * stats[i].selectionCount)))
  {
    seq(|stats|, i requires 0 <= i < |stats| =>
      Summary(stats[i].provider, stats[i].selectionCount, AverageLatency(stats[i]), stats[i].lastSelectedAt))
  }

  /** The same mapping as written inline in the analytics router's handler. */
  function AnalyticsRouteProviders(stats: seq<Stat>): (providers: seq<Summary>)
    ensures |providers| == |stats|
    ensures forall i :: 0 <= i < |stats| ==> providers[i].provider == stats[i].provider
  {
    seq(|stats|, i requires 0 <= i < |stats| =>
      Summary(
        stats[i].provider,
        stats[i].selectionCount,
        if stats[i].selectionCount > 0
        then Some(JsRound(stats[i].totalLatencyMs as real / stats[i].selectionCount as real))
        else None,
        stats[i].lastSelectedAt))
  }

  /** Both routes answer the same for every stats list. */
  lemma RoutesAgree(stats: seq<Stat>)
    ensures AnalyticsRouteProviders(stats) == BuildProviderSummary(stats)
  {
    var a, b := AnalyticsRouteProviders(stats), BuildProviderSummary(stats);
    forall i | 0 <= i < |stats| ensures a[i] == b[i] { }
  }

  lemma FindAt(rows: seq<Stat>, i: nat)
    requires ProvidersAscending(rows) && i < |rows|
    ensures Find(rows, rows[i].provider) == Some(rows[i])
  {
    var p := rows[i].provider;
    var r := Find(rows, p);
    assert r.Some?;
    var j :| 0 <= j < |rows| && rows[j] == r.value;
    if j != i {
      StringOrder.LessIrreflexive(p);
    }
  }

  /**
   * Analytics additivity: after N >= 1 calls of `record(p, L1..LN)` on a
   * table without `p`, the summary reports count N and the rounded mean of
   * the stored latencies.
   */
  lemma AverageAfterRecords(rows: seq<Stat>, provider: string, calls: seq<Recording>, i: nat)
    requires ProvidersAscending(rows) && Find(rows, provider).None? && |calls| > 0
    requires i < |RecordAll(rows, provider, calls)| && RecordAll(rows, provider, calls)[i].provider == provider
    ensures BuildProviderSummary(RecordAll(rows, provider, calls))[i].selectionCount == |calls|
    ensures BuildProviderSummary(RecordAll(rows, provider, calls))[i].averageLatencyMs ==
      Some(JsRound(SumSafeLatency(calls) as real / |calls| as real))
  {
    var after := RecordAll(rows, provider, calls);
    RecordAllAdds(rows, provider, calls);
    FindAt(after, i);
    RoundedAverage(SumSafeLatency(calls), |calls|);
  }

  /** With no selections recorded the summary is empty. */
  lemma EmptyTableSummary()
    ensures BuildProviderSummary([]) == []
  {
  }

  /** `record('ollama', 42)` once, then once more with 58. */
  lemma OllamaScenario(t1: string, t2: string)
    ensures BuildProviderSummary(Upserted([], "ollama", SafeLatency(Finite(42.0)), t1)) ==
      [Summary("ollama", 1, Some(42), Some(t1))]
    ensures BuildProviderSummary(Upserted(Upserted([], "ollama", SafeLatency(Finite(42.0)), t1),
                                          "ollama", SafeLatency(Finite(58.0)), t2)) ==
      [Summary("ollama", 2, Some(50), Some(t2))]
  {
    SafeLatencyOfInteger(42);
    SafeLatencyOfInteger(58);
    var once := Upserted([], "ollama", 42, t1);
    assert once == [Stat("ollama", 1, 42, Some(t1))];
    var twice := Upserted(once, "ollama", 58, t2);
    assert twice == [Stat("ollama", 2, 100, Some(t2))];
  }
}
