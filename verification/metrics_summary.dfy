/**
 * The integer parts of the summary `get_agent_metrics` computes over the
 * metric rows it fetched: counts and sums, from which the API derives
 * its averages and success rate.
 */
module AgentMetrics {
  import opened Wrappers
  import opened Tables

  /** The integer parts of the summary; the averages and the rate are their quotients. */
  datatype MetricsSummary = MetricsSummary(
    totalExecutions: nat,
    successfulExecutions: nat,
    totalExecutionTimeMs: int,
    totalTokenUsage: int,
    totalErrors: int,
    totalRetries: int)

  /** `sum(f(m) for m in rows)`. */
  function Sum(rows: seq<MetricRow>, f: MetricRow -> int): int
  {
    if rows == [] then 0 else Sum(rows[..|rows| - 1], f) + f(rows[|rows| - 1])
  }

  /** `sum(1 for m in rows if m["success"])`. */
  function SuccessCount(rows: seq<MetricRow>): (n: nat)
    ensures n <= |rows|
  {
    if rows == [] then 0
    else SuccessCount(rows[..|rows| - 1]) + (if rows[|rows| - 1].success then 1 else 0)
  }

  /** `m["token_usage"] or 0`. */
  function TokensOrZero(m: MetricRow): int
  {
    match m.tokenUsage
    case None => 0
    case Some(t) => t
  }

  /** The summary of the fetched rows, absent when there are none. */
  function Summarize(rows: seq<MetricRow>): (s: Option<MetricsSummary>)
    ensures s.None? <==> rows == []
    ensures s.Some? ==> (s.value.totalExecutions == |rows|
      && s.value.successfulExecutions <= s.value.totalExecutions)
  {
    if rows == [] then None
    else Some(MetricsSummary(
      |rows|,
      SuccessCount(rows),
      Sum(rows, (m: MetricRow) => m.executionTimeMs),
      Sum(rows, TokensOrZero),
      Sum(rows, (m: MetricRow) => m.errorCount),
      Sum(rows, (m: MetricRow) => m.retryCount)))
  }

  /** The successful count is the number of rows that succeeded. */
  lemma {:induction false} SuccessCountIsFilter(rows: seq<MetricRow>)
    ensures SuccessCount(rows) == |Filter(rows, (m: MetricRow) => m.success)|
  {
    if rows != [] {
      var init, last := rows[..|rows| - 1], rows[|rows| - 1];
      assert rows == init + [last];
      SuccessCountIsFilter(init);
      FilterAppend(init, [last], (m: MetricRow) => m.success);
    }
  }

  /** Every execution succeeded exactly when the successful count is the total. */
  lemma {:induction false} AllSucceededIff(rows: seq<MetricRow>)
    ensures SuccessCount(rows) == |rows| <==> forall i :: 0 <= i < |rows| ==> rows[i].success
  {
    if rows != [] {
      var init := rows[..|rows| - 1];
      AllSucceededIff(init);
      assert forall i :: 0 <= i < |init| ==> init[i] == rows[i];
    }
  }

  /** Sums split over concatenation. */
  lemma {:induction false} SumAppend(a: seq<MetricRow>, b: seq<MetricRow>, f: MetricRow -> int)
    ensures Sum(a + b, f) == Sum(a, f) + Sum(b, f)
  {
    if b != [] {
      assert (a + b)[..|a + b| - 1] == a + b[..|b| - 1];
      SumAppend(a, b[..|b| - 1], f);
    } else {
      assert a + b == a;
    }
  }

  /**
   * The summary of one row is that row's own figures: one execution, one
   * success exactly when it succeeded, its time, its tokens (NULL as 0),
   * its errors and its retries.
   */
  lemma SummarizeSingle(m: MetricRow)
    ensures Summarize([m]) == Some(MetricsSummary(1, if m.success then 1 else 0, m.executionTimeMs,
                                                  TokensOrZero(m), m.errorCount, m.retryCount))
  {
    assert [m][..0] == [];
    assert Sum([m], (r: MetricRow) => r.executionTimeMs) == m.executionTimeMs;
    assert Sum([m], TokensOrZero) == TokensOrZero(m);
    assert Sum([m], (r: MetricRow) => r.errorCount) == m.errorCount;
    assert Sum([m], (r: MetricRow) => r.retryCount) == m.retryCount;
  }

  /**
   * The summary of two batches of rows combines their summaries field by
   * field: every total is the sum of the two batches' totals.
   */
  lemma SummarizeAppend(a: seq<MetricRow>, b: seq<MetricRow>)
    requires a != [] && b != []
    ensures var s, sa, sb := Summarize(a + b).value, Summarize(a).value, Summarize(b).value;
      && s.totalExecutions == sa.totalExecutions + sb.totalExecutions
      && s.successfulExecutions == sa.successfulExecutions + sb.successfulExecutions
      && s.totalExecutionTimeMs == sa.totalExecutionTimeMs + sb.totalExecutionTimeMs
      && s.totalTokenUsage == sa.totalTokenUsage + sb.totalTokenUsage
      && s.totalErrors == sa.totalErrors + sb.totalErrors
      && s.totalRetries == sa.totalRetries + sb.totalRetries
  {
    SuccessCountIsFilter(a);
    SuccessCountIsFilter(b);
    SuccessCountIsFilter(a + b);
    FilterAppend(a, b, (m: MetricRow) => m.success);
    SumAppend(a, b, (m: MetricRow) => m.executionTimeMs);
    SumAppend(a, b, TokensOrZero);
    SumAppend(a, b, (m: MetricRow) => m.errorCount);
    SumAppend(a, b, (m: MetricRow) => m.retryCount);
  }
}
