/**
 * The rows of the three ORBT tables the escalation engine works on
 * (orbt_error_log, orbt_escalation_queue, orbt_agent_metrics), held in
 * memory as sequences of records. Time is an integer count of seconds.
 */
module Tables {
  import opened Wrappers

  /** The ORBT traffic-light status of an error. */
  datatype OrbtStatus = Green | Yellow | Red

  /** One row of orbt_error_log, restricted to the columns the core reads or writes. */
  datatype ErrorRow = ErrorRow(
    errorId: nat,
    status: OrbtStatus,
    timestamp: int,
    agentId: string,
    agentHierarchy: string,
    errorType: string,
    errorMessage: string,
    escalationLevel: int,
    requiresHuman: bool,
    resolved: bool)

  /** The status column of orbt_escalation_queue. */
  datatype TicketStatus = Pending | InProgress | Resolved | Dismissed

  /**
   * One row of orbt_escalation_queue. Priority is kept as the text the
   * table stores; the nullable timestamp columns are options.
   */
  datatype EscalationRow = EscalationRow(
    escalationId: string,
    errorId: nat,
    priority: string,
    status: TicketStatus,
    escalatedBy: string,
    escalatedAt: int,
    dueAt: Option<int>,
    resolvedAt: Option<int>,
    updatedAt: Option<int>)

  /** One row of orbt_agent_metrics, restricted to its integer and boolean columns. */
  datatype MetricRow = MetricRow(
    metricId: string,
    agentId: string,
    timestamp: int,
    executionTimeMs: int,
    tokenUsage: Option<int>,
    success: bool,
    errorCount: int,
    retryCount: int)

  /** error_id is assumed to be the primary key of the error log. */
  ghost predicate UniqueErrorIds(log: seq<ErrorRow>)
  {
    forall i, j :: 0 <= i < j < |log| ==> log[i].errorId != log[j].errorId
  }

  /** escalation_id is assumed to be the primary key of the escalation queue. */
  ghost predicate UniqueEscalationIds(queue: seq<EscalationRow>)
  {
    forall i, j :: 0 <= i < j < |queue| ==> queue[i].escalationId != queue[j].escalationId
  }

  function EscalationIds(queue: seq<EscalationRow>): (ids: set<string>)
    ensures forall r :: r in queue ==> r.escalationId in ids
    ensures forall id :: id in ids ==> exists r :: r in queue && r.escalationId == id
  {
    set r | r in queue :: r.escalationId
  }

  function ErrorIds(rows: seq<ErrorRow>): (ids: seq<nat>)
    ensures |ids| == |rows|
    ensures forall i :: 0 <= i < |rows| ==> ids[i] == rows[i].errorId
  {
    seq(|rows|, i requires 0 <= i < |rows| => rows[i].errorId)
  }

  /**
   * The rows of `s` that satisfy `keep`, in their order: the model of a
   * WHERE clause (and, negated, of a DELETE).
   */
  function Filter<T(!new)>(s: seq<T>, keep: T -> bool): (r: seq<T>)
    ensures |r| <= |s|
    ensures forall x :: x in r <==> x in s && keep(x)
    ensures multiset(r) <= multiset(s)
  {
    if s == [] then []
    else
      var rest := Filter(s[1..], keep);
      assert s == [s[0]] + s[1..];
      if keep(s[0]) then [s[0]] + rest else rest
  }

  /**
   * Counting lemma: if, position by position, a row of `a` passing `p`
   * implies the row of `b` at the same position passes `q`, then `q`
   * selects at least as many rows of `b` as `p` does of `a`.
   */
  lemma {:induction false} FilterCountMonotone<T(!new), U(!new)>(a: seq<T>, p: T -> bool, b: seq<U>, q: U -> bool)
    requires |a| == |b|
    requires forall i :: 0 <= i < |a| && p(a[i]) ==> q(b[i])
    ensures |Filter(a, p)| <= |Filter(b, q)|
  {
    if a != [] {
      FilterCountMonotone(a[1..], p, b[1..], q);
    }
  }

  /** Two different positions that pass the predicate give at least two kept rows. */
  lemma {:induction false} FilterKeepsTwo<T(!new)>(s: seq<T>, keep: T -> bool, i: nat, j: nat)
    requires i < j < |s| && keep(s[i]) && keep(s[j])
    ensures |Filter(s, keep)| >= 2
  {
    if i == 0 {
      assert s[j] == s[1..][j - 1];
      assert s[j] in Filter(s[1..], keep);
    } else {
      FilterKeepsTwo(s[1..], keep, i - 1, j - 1);
    }
  }

  /** Filtering a list with one more row at its end keeps or drops that row alone. */
  lemma FilterSnoc<T(!new)>(s: seq<T>, x: T, keep: T -> bool)
    ensures Filter(s + [x], keep) == Filter(s, keep) + (if keep(x) then [x] else [])
  {
    FilterAppend(s, [x], keep);
    assert [x][1..] == [];
  }

  /** Filtering a concatenation filters each part. */
  lemma {:induction false} FilterAppend<T(!new)>(a: seq<T>, b: seq<T>, keep: T -> bool)
    ensures Filter(a + b, keep) == Filter(a, keep) + Filter(b, keep)
  {
    if a != [] {
      var ab := a + b;
      assert ab[0] == a[0] && ab[1..] == a[1..] + b;
      FilterAppend(a[1..], b, keep);
      var fa, fb := Filter(a[1..], keep), Filter(b, keep);
      if keep(a[0]) {
        assert Filter(ab, keep) == [a[0]] + (fa + fb);
        assert Filter(a, keep) == [a[0]] + fa;
        assert [a[0]] + (fa + fb) == ([a[0]] + fa) + fb;
      }
    } else {
      assert a + b == b;
    }
  }
}
