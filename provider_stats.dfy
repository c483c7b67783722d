/**
 * The translation_provider_stats table and translationAnalyticsRepository:
 * one accumulator row per provider, upserted on every selection.
 */
module ProviderStats {
  import opened Wrappers
  import opened StringOrder

  /** A JavaScript number as `record` sees it: finite, or NaN / an infinity. */
  datatype JsNumber = Finite(v: real) | NonFinite

  /** `Math.round`: the nearest integer, halves rounded towards +infinity. */
  function JsRound(x: real): (n: int)
    ensures n as real - 0.5 <= x < n as real + 0.5
  {
    (x + 0.5).Floor
  }

  /** The latency `record` stores: `max(0, round(latencyMs))` if finite, else 0. */
  function SafeLatency(latency: JsNumber): (n: nat)
    ensures latency.NonFinite? ==> n == 0
    ensures latency.Finite? && latency.v < -0.5 ==> n == 0
    ensures latency.Finite? && latency.v >= -0.5 ==> n as real - 0.5 <= latency.v < n as real + 0.5
  {
    match latency
    case NonFinite => 0
    case Finite(v) => var r := JsRound(v); if r < 0 then 0 else r
  }

  /** An integer latency is stored as itself, or 0 if negative. */
  lemma SafeLatencyOfInteger(ms: int)
    ensures SafeLatency(Finite(ms as real)) == if ms < 0 then 0 else ms
  {
    var r := JsRound(ms as real);
    assert r == ms;
  }

  /** A row of translation_provider_stats. */
  datatype Stat = Stat(provider: string, selectionCount: nat, totalLatencyMs: nat, lastSelectedAt: Option<string>)

  /** Rows in `ORDER BY provider` order; strictness makes `provider` a key. */
  predicate ProvidersAscending(rows: seq<Stat>) {
    forall i, j :: 0 <= i < j < |rows| ==> Less(rows[i].provider, rows[j].provider)
  }

  /** The row of `provider`, if any. */
  function Find(rows: seq<Stat>, provider: string): (r: Option<Stat>)
    ensures r.Some? ==> r.value in rows && r.value.provider == provider
    ensures r.None? <==> forall i :: 0 <= i < |rows| ==> rows[i].provider != provider
  {
    if rows == [] then None
    else if rows[0].provider == provider then Some(rows[0])
    else Find(rows[1..], provider)
  }

  /**
   * The row the upsert leaves for `provider`: INSERT with count 1 and the
   * latency, or ON CONFLICT add 1 and the latency; the timestamp is overwritten.
   */
  function Recorded(previous: Option<Stat>, provider: string, latencyMs: nat, now: string): Stat {
    match previous
    case None => Stat(provider, 1, latencyMs, Some(now))
    case Some(s) => Stat(provider, s.selectionCount + 1, s.totalLatencyMs + latencyMs, Some(now))
  }

  /** The table after the upsert statement, kept in provider order. */
  function Upserted(rows: seq<Stat>, provider: string, latencyMs: nat, now: string): (r: seq<Stat>)
    ensures |r| == |rows| || |r| == |rows| + 1
  {
    if rows == [] then [Recorded(None, provider, latencyMs, now)]
    else if rows[0].provider == provider then [Recorded(Some(rows[0]), provider, latencyMs, now)] + rows[1..]
    else if Less(provider, rows[0].provider) then [Recorded(None, provider, latencyMs, now)] + rows
    else [rows[0]] + Upserted(rows[1..], provider, latencyMs, now)
  }

  lemma AscendingTail(rows: seq<Stat>)
    requires rows != [] && ProvidersAscending(rows)
    ensures ProvidersAscending(rows[1..])
  {
    var t := rows[1..];
    forall i, j | 0 <= i < j < |t| ensures Less(t[i].provider, t[j].provider) {
      assert t[i] == rows[i + 1] && t[j] == rows[j + 1];
    }
  }

  lemma AscendingCons(s: Stat, rows: seq<Stat>)
    requires ProvidersAscending(rows)
    requires forall i :: 0 <= i < |rows| ==> Less(s.provider, rows[i].provider)
    ensures ProvidersAscending([s] + rows)
  {
    var r := [s] + rows;
    forall i, j | 0 <= i < j < |r| ensures Less(r[i].provider, r[j].provider) {
      if i > 0 {
        assert r[i] == rows[i - 1] && r[j] == rows[j - 1];
      }
    }
  }

  /** Every provider of the upserted table is an old provider or the new one. */
  lemma {:induction false} UpsertedProviders(rows: seq<Stat>, provider: string, latencyMs: nat, now: string)
    ensures forall i :: 0 <= i < |Upserted(rows, provider, latencyMs, now)| ==>
      var q := Upserted(rows, provider, latencyMs, now)[i].provider;
      q == provider || exists j :: 0 <= j < |rows| && rows[j].provider == q
  {
    if rows != [] && rows[0].provider != provider && !Less(provider, rows[0].provider) {
      UpsertedProviders(rows[1..], provider, latencyMs, now);
      var r := Upserted(rows, provider, latencyMs, now);
      forall i | 0 <= i < |r|
        ensures r[i].provider == provider || exists j :: 0 <= j < |rows| && rows[j].provider == r[i].provider
      {
        if i == 0 {
          assert rows[0].provider == r[0].provider;
        } else {
          assert r[i] == Upserted(rows[1..], provider, latencyMs, now)[i - 1];
          if r[i].provider != provider {
            var j :| 0 <= j < |rows[1..]| && rows[1..][j].provider == r[i].provider;
            assert rows[j + 1].provider == r[i].provider;
          }
        }
      }
    }
  }

  /** The upsert keeps the table in provider order, so `provider` stays a key. */
  lemma {:induction false} UpsertedAscending(rows: seq<Stat>, provider: string, latencyMs: nat, now: string)
    requires ProvidersAscending(rows)
    ensures ProvidersAscending(Upserted(rows, provider, latencyMs, now))
  {
    if rows == [] {
    } else if rows[0].provider == provider {
      AscendingTail(rows);
      AscendingCons(Recorded(Some(rows[0]), provider, latencyMs, now), rows[1..]);
      assert forall i :: 0 <= i < |rows[1..]| ==> rows[1..][i] == rows[i + 1];
    } else if Less(provider, rows[0].provider) {
      forall i | 0 <= i < |rows| ensures Less(provider, rows[i].provider) {
        if i > 0 {
          LessTransitive(provider, rows[0].provider, rows[i].provider);
        }
      }
      AscendingCons(Recorded(None, provider, latencyMs, now), rows);
    } else {
      AscendingTail(rows);
      UpsertedAscending(rows[1..], provider, latencyMs, now);
      var tail := Upserted(rows[1..], provider, latencyMs, now);
      UpsertedProviders(rows[1..], provider, latencyMs, now);
      NotLessEq(provider, rows[0].provider);
      forall i | 0 <= i < |tail| ensures Less(rows[0].provider, tail[i].provider) {
        if tail[i].provider != provider {
          var j :| 0 <= j < |rows[1..]| && rows[1..][j].provider == tail[i].provider;
          assert rows[j + 1].provider == tail[i].provider;
        }
      }
      AscendingCons(rows[0], tail);
    }
  }

  /**
   * The upsert's effect, provider by provider: the recorded provider's row
   * becomes `Recorded(old row)`, every other provider's row is unchanged.
   */
  lemma {:induction false} UpsertedFind(rows: seq<Stat>, provider: string, latencyMs: nat, now: string, q: string)
    requires ProvidersAscending(rows)
    ensures Find(Upserted(rows, provider, latencyMs, now), q) ==
      if q == provider then Some(Recorded(Find(rows, provider), provider, latencyMs, now)) else Find(rows, q)
  {
    if rows == [] {
    } else if rows[0].provider == provider {
    } else if Less(provider, rows[0].provider) {
      if q == provider {
        forall i | 0 <= i < |rows| ensures rows[i].provider != provider {
          if i > 0 {
            LessTransitive(provider, rows[0].provider, rows[i].provider);
          }
          LessIrreflexive(provider);
        }
      }
      assert ([Recorded(None, provider, latencyMs, now)] + rows)[1..] == rows;
    } else {
      AscendingTail(rows);
      UpsertedFind(rows[1..], provider, latencyMs, now, q);
    }
  }

  /** Counts and latency totals never decrease, and no provider disappears. */
  lemma UpsertedMonotone(rows: seq<Stat>, provider: string, latencyMs: nat, now: string, q: string)
    requires ProvidersAscending(rows) && Find(rows, q).Some?
    ensures Find(Upserted(rows, provider, latencyMs, now), q).Some?
    ensures Find(Upserted(rows, provider, latencyMs, now), q).value.selectionCount >= Find(rows, q).value.selectionCount
    ensures Find(Upserted(rows, provider, latencyMs, now), q).value.totalLatencyMs >= Find(rows, q).value.totalLatencyMs
  {
    UpsertedFind(rows, provider, latencyMs, now, q);
  }

  /** One call of `record(provider, latencyMs)` at time `at`. */
  datatype Recording = Recording(latencyMs: JsNumber, at: string)

  /** The table after a series of `record` calls for one provider, in call order. */
  function RecordAll(rows: seq<Stat>, provider: string, calls: seq<Recording>): seq<Stat>
    decreases |calls|
  {
    if calls == [] then rows
    else RecordAll(Upserted(rows, provider, SafeLatency(calls[0].latencyMs), calls[0].at), provider, calls[1..])
  }

  function SumSafeLatency(calls: seq<Recording>): nat {
    if calls == [] then 0 else SafeLatency(calls[0].latencyMs) + SumSafeLatency(calls[1..])
  }

  /**
   * Additivity: N calls for a provider add N to its count and the sum of
   * their safe latencies to its total, whatever the starting row.
   */
  lemma {:induction false} RecordAllAdds(rows: seq<Stat>, provider: string, calls: seq<Recording>)
    requires ProvidersAscending(rows) && |calls| > 0
    ensures ProvidersAscending(RecordAll(rows, provider, calls))
    ensures Find(RecordAll(rows, provider, calls), provider).Some?
    ensures Find(RecordAll(rows, provider, calls), provider).value.selectionCount ==
      (if Find(rows, provider).Some? then Find(rows, provider).value.selectionCount else 0) + |calls|
    ensures Find(RecordAll(rows, provider, calls), provider).value.totalLatencyMs ==
      (if Find(rows, provider).Some? then Find(rows, provider).value.totalLatencyMs else 0) + SumSafeLatency(calls)
    ensures Find(RecordAll(rows, provider, calls), provider).value.lastSelectedAt == Some(calls[|calls| - 1].at)
    decreases |calls|
  {
    var next := Upserted(rows, provider, SafeLatency(calls[0].latencyMs), calls[0].at);
    UpsertedAscending(rows, provider, SafeLatency(calls[0].latencyMs), calls[0].at);
    UpsertedFind(rows, provider, SafeLatency(calls[0].latencyMs), calls[0].at, provider);
    if |calls| > 1 {
      RecordAllAdds(next, provider, calls[1..]);
    }
  }

  /** The provider-stats table of the SQLite database. */
  class ProviderStatsTable {
    /** The rows, in provider order. */
    var rows: seq<Stat>

    ghost predicate Valid()
      reads this
    {
      ProvidersAscending(rows)
    }

    constructor ()
      ensures Valid() && rows == []
    {
      rows := [];
    }

    /** `record(provider, latencyMs)`: the atomic upsert, stamped with `now`. */
    method Record(provider: string, latencyMs: JsNumber, now: string)
      requires Valid()
      modifies this
      ensures Valid()
      ensures rows == Upserted(old(rows), provider, SafeLatency(latencyMs), now)
    {
      UpsertedAscending(rows, provider, SafeLatency(latencyMs), now);
      rows := Upserted(rows, provider, SafeLatency(latencyMs), now);
    }

    /** `list()`: every row, ordered by provider. */
    method List() returns (stats: seq<Stat>)
      requires Valid()
      ensures stats == rows
      ensures ProvidersAscending(stats)
    {
      stats := rows;
    }
  }
}
