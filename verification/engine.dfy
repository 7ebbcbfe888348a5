/**
 * ORBTEscalationSystem: the monitoring cycle's table work. The three
 * tables are sequence fields of one object; "now" and the formatted clock
 * readings used in escalation ids are parameters.
 */
module Engine {
  import opened Wrappers
  import opened Tables
  import opened Priority
  import opened Selection

  const SYSTEM_AUTO: string := "SYSTEM_AUTO"
  /** The escalation_level written on escalated errors. */
  const ESCALATED_LEVEL: int := 2
  const DAY: int := 24 * HOUR
  /** Resolved escalations are kept 30 days, errors 90 days, metrics 7 days. */
  const TICKET_RETENTION: int := 30 * DAY
  const ERROR_RETENTION: int := 90 * DAY
  const METRIC_RETENTION: int := 7 * DAY

  /** The SET part of the UPDATE in `create_escalation`. */
  function Flagged(r: ErrorRow): (f: ErrorRow)
    ensures f.requiresHuman && f.escalationLevel == ESCALATED_LEVEL && f.status == Red
    ensures f.errorId == r.errorId && f.timestamp == r.timestamp && KeyOf(f) == KeyOf(r)
    ensures f.resolved == r.resolved
    ensures f.(requiresHuman := r.requiresHuman, escalationLevel := r.escalationLevel, status := r.status) == r
  {
    r.(requiresHuman := true, escalationLevel := ESCALATED_LEVEL, status := Red)
  }

  /** The error log after flagging every row whose id is in `ids`. */
  function MarkEscalated(log: seq<ErrorRow>, ids: set<nat>): (out: seq<ErrorRow>)
    ensures |out| == |log|
    ensures forall i :: 0 <= i < |log| ==> out[i] == if log[i].errorId in ids then Flagged(log[i]) else log[i]
  {
    seq(|log|, i requires 0 <= i < |log| => if log[i].errorId in ids then Flagged(log[i]) else log[i])
  }

  /** Flagging by one id set and then another is flagging by their union. */
  lemma MarkEscalatedTwice(log: seq<ErrorRow>, a: set<nat>, b: set<nat>)
    ensures MarkEscalated(MarkEscalated(log, a), b) == MarkEscalated(log, a + b)
  {
    var once := MarkEscalated(log, a);
    assert forall i :: 0 <= i < |log| ==> once[i].errorId == log[i].errorId;
  }

  /** Flagging never changes an id, so the primary key stays unique. */
  lemma MarkEscalatedKeepsIds(log: seq<ErrorRow>, ids: set<nat>)
    requires UniqueErrorIds(log)
    ensures UniqueErrorIds(MarkEscalated(log, ids))
  {
  }

  function IdSet(ids: seq<nat>): set<nat>
  {
    set id | id in ids
  }

  /** Every id of the candidates `cs`. */
  function CandidateIds(cs: seq<Candidate>): (ids: set<nat>)
    ensures forall c, id :: c in cs && id in c.allErrorIds ==> id in ids
  {
    if cs == [] then {}
    else
      var init := cs[..|cs| - 1];
      assert cs == init + [cs[|cs| - 1]];
      CandidateIds(init) + IdSet(cs[|cs| - 1].allErrorIds)
  }

  /** `agent_id[:8]`. */
  function AgentPrefix(agentId: string): (p: string)
    ensures |p| <= 8 && p <= agentId
    ensures |agentId| >= 8 ==> |p| == 8
  {
    agentId[..if |agentId| < 8 then |agentId| else 8]
  }

  /** `f"ESC_{stamp}_{agent_id[:8]}"`, with the clock reading already formatted into `stamp`. */
  function EscalationId(stamp: string, agentId: string): string
  {
    "ESC_" + stamp + "_" + AgentPrefix(agentId)
  }

  /**
   * Two escalation ids built from clock readings of one length clash
   * exactly when the readings are equal and the agent ids share their
   * first eight characters.
   */
  lemma EscalationIdClash(s1: string, s2: string, a: string, b: string)
    requires |s1| == |s2|
    ensures EscalationId(s1, a) == EscalationId(s2, b) <==> s1 == s2 && AgentPrefix(a) == AgentPrefix(b)
  {
    var x, y := EscalationId(s1, a), EscalationId(s2, b);
    if x == y {
      assert x[4..4 + |s1|] == s1;
      assert y[4..4 + |s2|] == s2;
      assert x[5 + |s1|..] == AgentPrefix(a);
      assert y[5 + |s2|..] == AgentPrefix(b);
    }
  }

  /**
   * The queue row `create_escalation` inserts for candidate `c`: PENDING,
   * raised by SYSTEM_AUTO at `now`, pointing at the candidate's greatest
   * error id, with the calculated priority and due after that priority's
   * response time (between 1 and 72 hours).
   */
  function NewTicket(c: Candidate, now: int, escalationId: string): (t: EscalationRow)
    ensures t.escalationId == escalationId && t.errorId == c.latestErrorId
    ensures t.status == Pending && t.escalatedBy == SYSTEM_AUTO && t.escalatedAt == now
    ensures OnLadder(t.priority) && t.priority == CalculatePriority(c.occurrenceCount, c.agentId)
    ensures t.dueAt == Some(now + ResponseTimeHours(t.priority) * HOUR)
    ensures now + HOUR <= t.dueAt.value <= now + 72 * HOUR
    ensures t.resolvedAt.None? && t.updatedAt.None?
  {
    var p := CalculatePriority(c.occurrenceCount, c.agentId);
    EscalationRow(escalationId, c.latestErrorId, p, Pending, SYSTEM_AUTO, now,
                  Some(now + ResponseTimeHours(p) * HOUR), None, None)
  }

  /**
   * The rows the loop of `check_for_escalations` inserts for the candidates
   * `cs`, in order; `clock(i)` is the formatted clock reading taken when the
   * i-th candidate is escalated.
   */
  function Tickets(cs: seq<Candidate>, now: int, clock: nat -> string): seq<EscalationRow>
  {
    if cs == [] then []
    else
      var n := |cs| - 1;
      Tickets(cs[..n], now, clock) + [NewTicket(cs[n], now, EscalationId(clock(n), cs[n].agentId))]
  }

  /** One ticket per candidate, each with the escalation id of its own clock reading. */
  lemma {:induction false} TicketsMatchCandidates(cs: seq<Candidate>, now: int, clock: nat -> string)
    ensures |Tickets(cs, now, clock)| == |cs|
    ensures forall i :: 0 <= i < |cs| ==>
              Tickets(cs, now, clock)[i] == NewTicket(cs[i], now, EscalationId(clock(i), cs[i].agentId))
  {
    if cs != [] {
      var n := |cs| - 1;
      var init := cs[..n];
      TicketsMatchCandidates(init, now, clock);
      var prev := Tickets(init, now, clock);
      var last := NewTicket(cs[n], now, EscalationId(clock(n), cs[n].agentId));
      assert Tickets(cs, now, clock) == prev + [last];
      forall i | 0 <= i < n
        ensures (prev + [last])[i] == NewTicket(cs[i], now, EscalationId(clock(i), cs[i].agentId))
      {
        assert init[i] == cs[i];
      }
    }
  }

  /** A row that is eligible after flagging was not flagged, and was eligible before. */
  lemma StillEligibleWasUntouched(log: seq<ErrorRow>, ids: set<nat>, now: int, later: int, i: nat)
    requires now <= later && i < |log|
    requires Eligible(MarkEscalated(log, ids)[i], later)
    ensures MarkEscalated(log, ids)[i] == log[i] && log[i].errorId !in ids
    ensures Eligible(log[i], now)
  {
  }

  /** Flagging rows and moving the window forward can only shrink a group. */
  lemma GroupShrinks(log: seq<ErrorRow>, ids: set<nat>, now: int, later: int, k: GroupKey)
    requires now <= later
    ensures |GroupRows(MarkEscalated(log, ids), later, k)| <= |GroupRows(log, now, k)|
  {
    var log' := MarkEscalated(log, ids);
    forall i | 0 <= i < |log'| && InGroup(log'[i], later, k) ensures InGroup(log[i], now, k) {
      StillEligibleWasUntouched(log, ids, now, later, i);
    }
    FilterCountMonotone(log', r => InGroup(r, later, k), log, r => InGroup(r, now, k));
  }

  /** After flagging every candidate's ids, no group has two eligible rows left, now or later. */
  lemma FlaggedGroupIsSmall(log: seq<ErrorRow>, now: int, later: int, k: GroupKey)
    requires now <= later
    ensures |GroupRows(MarkEscalated(log, CandidateIds(Candidates(log, now))), later, k)| < THRESHOLD
  {
    var ids := CandidateIds(Candidates(log, now));
    var log' := MarkEscalated(log, ids);
    var g' := GroupRows(log', later, k);
    if |g'| >= THRESHOLD {
      assert g'[0] in g';
      var i :| 0 <= i < |log'| && log'[i] == g'[0];
      StillEligibleWasUntouched(log, ids, now, later, i);
      GroupShrinks(log, ids, now, later, k);
      assert log[i] in log && KeyOf(log[i]) == k;
      GroupedRowIsCovered(log, now, log[i]);
      assert false;
    }
  }

  /**
   * Idempotence of the escalation pass: once every candidate's rows are
   * flagged, the candidate query finds nothing, now or at any later time,
   * because selection skips rows with requires_human set.
   */
  lemma {:induction false} EscalationIsIdempotent(log: seq<ErrorRow>, now: int, later: int)
    requires now <= later
    ensures Candidates(MarkEscalated(log, CandidateIds(Candidates(log, now))), later) == []
  {
    var log' := MarkEscalated(log, CandidateIds(Candidates(log, now)));
    if Candidates(log', later) != [] {
      var c' := Candidates(log', later)[0];
      assert c' in Candidates(log', later);
      FlaggedGroupIsSmall(log, now, later, CandidateKey(c'));
      assert false;
    }
  }

  /** Extending the escalated prefix by one candidate adds that candidate's ids. */
  lemma CandidateIdsExtend(cs: seq<Candidate>, n: nat)
    requires n < |cs|
    ensures CandidateIds(cs[..n + 1]) == CandidateIds(cs[..n]) + IdSet(cs[n].allErrorIds)
  {
    assert cs[..n + 1][..n] == cs[..n];
  }

  /** Extending the escalated prefix by one candidate adds that candidate's ticket. */
  lemma TicketsExtend(cs: seq<Candidate>, n: nat, now: int, clock: nat -> string)
    requires n < |cs|
    ensures Tickets(cs[..n + 1], now, clock) == Tickets(cs[..n], now, clock) + [NewTicket(cs[n], now, EscalationId(clock(n), cs[n].agentId))]
  {
    assert cs[..n + 1][..n] == cs[..n];
  }

  predicate Overdue(t: EscalationRow, now: int)
  {
    t.status == Pending && t.dueAt.Some? && t.dueAt.value < now
  }

  /**
   * The SET part of the UPDATE in `handle_overdue_escalation`: the new
   * priority, a due time that priority's response time from now, and the
   * update time; every other column is kept.
   */
  function Reprioritized(t: EscalationRow, p: string, now: int): (u: EscalationRow)
    ensures u.priority == p && u.dueAt == Some(now + ResponseTimeHours(p) * HOUR) && u.updatedAt == Some(now)
    ensures u.(priority := t.priority, dueAt := t.dueAt, updatedAt := t.updatedAt) == t
  {
    t.(priority := p, dueAt := Some(now + ResponseTimeHours(p) * HOUR), updatedAt := Some(now))
  }

  /** The UPDATE of `handle_overdue_escalation` for a row whose priority is on the ladder. */
  function Bumped(t: EscalationRow, now: int): (b: EscalationRow)
    requires OnLadder(t.priority)
    ensures OnLadder(b.priority) && Rank(b.priority) == if Rank(t.priority) < 3 then Rank(t.priority) + 1 else 3
    ensures ResponseTimeHours(b.priority) <= ResponseTimeHours(t.priority)
    ensures b.dueAt == Some(now + ResponseTimeHours(b.priority) * HOUR) && now < b.dueAt.value
    ensures b.updatedAt == Some(now)
    ensures b.(priority := t.priority, dueAt := t.dueAt, updatedAt := t.updatedAt) == t
  {
    EscalateNeverSlower(t.priority);
    Reprioritized(t, EscalatePriority(t.priority).value, now)
  }

  /**
   * `UPDATE orbt_escalation_queue SET ... WHERE escalation_id = id`: every
   * row carrying that id is given priority `p`, the others are untouched.
   */
  function UpdateWhereId(queue: seq<EscalationRow>, id: string, p: string, now: int): (out: seq<EscalationRow>)
    ensures |out| == |queue|
    ensures forall j :: 0 <= j < |queue| ==> out[j].escalationId == queue[j].escalationId
    ensures forall j :: 0 <= j < |queue| && queue[j].escalationId != id ==> out[j] == queue[j]
    ensures forall j :: 0 <= j < |queue| && queue[j].escalationId == id ==> out[j] == Reprioritized(queue[j], p, now)
  {
    seq(|queue|, j requires 0 <= j < |queue| =>
      if queue[j].escalationId == id then Reprioritized(queue[j], p, now) else queue[j])
  }

  /** escalation_id is the key, so the UPDATE by the id of row `i` changes row `i` alone. */
  lemma UpdateWhereIdHitsOneRow(queue: seq<EscalationRow>, i: nat, p: string, now: int)
    requires UniqueEscalationIds(queue) && i < |queue|
    ensures UpdateWhereId(queue, queue[i].escalationId, p, now) == queue[i := Reprioritized(queue[i], p, now)]
  {
    var out := UpdateWhereId(queue, queue[i].escalationId, p, now);
    forall j | 0 <= j < |queue| ensures out[j] == queue[i := Reprioritized(queue[i], p, now)][j] {
      if j != i {
        assert queue[j].escalationId != queue[i].escalationId by {
          if j < i {} else {}
        }
      }
    }
  }

  /** An overdue row whose priority is not on the ladder: `escalate_priority` raises on it. */
  predicate Stuck(t: EscalationRow, now: int)
  {
    Overdue(t, now) && !OnLadder(t.priority)
  }

  /** The position at which the overdue pass raises, or |queue| when it completes. */
  function FirstStuck(queue: seq<EscalationRow>, now: int): (k: nat)
    ensures k <= |queue|
    ensures forall i :: 0 <= i < k ==> !Stuck(queue[i], now)
    ensures k < |queue| ==> Stuck(queue[k], now)
  {
    if queue == [] then 0
    else if Stuck(queue[0], now) then 0
    else 1 + FirstStuck(queue[1..], now)
  }

  /**
   * The queue after the overdue pass: the overdue rows before the stuck one
   * are bumped. Rows that were not overdue are untouched, no escalation id
   * or status changes, no priority goes down, and when no row is stuck
   * nothing is left overdue.
   */
  function AfterOverduePass(queue: seq<EscalationRow>, now: int): (out: seq<EscalationRow>)
    ensures |out| == |queue|
    ensures forall i :: 0 <= i < |queue| && !Overdue(queue[i], now) ==> out[i] == queue[i]
    ensures forall i :: 0 <= i < |queue| ==>
              out[i].escalationId == queue[i].escalationId && out[i].status == queue[i].status
    ensures FirstStuck(queue, now) == |queue| ==> forall i :: 0 <= i < |queue| ==> !Overdue(out[i], now)
    ensures forall i :: 0 <= i < |queue| && OnLadder(queue[i].priority) ==>
              OnLadder(out[i].priority) && Rank(queue[i].priority) <= Rank(out[i].priority)
    ensures forall i :: 0 <= i < FirstStuck(queue, now) && Overdue(queue[i], now) ==> out[i] == Bumped(queue[i], now)
    ensures forall i :: FirstStuck(queue, now) <= i < |queue| ==> out[i] == queue[i]
  {
    var k := FirstStuck(queue, now);
    seq(|queue|, i requires 0 <= i < |queue| =>
      if i < k && Overdue(queue[i], now) then Bumped(queue[i], now) else queue[i])
  }

  /** A resolved escalation closed more than 30 days ago (a NULL resolved_at never matches). */
  predicate TicketExpired(t: EscalationRow, now: int)
  {
    t.status == Resolved && t.resolvedAt.Some? && t.resolvedAt.value < now - TICKET_RETENTION
  }

  /** An error older than 90 days that is neither RED nor waiting for a human. */
  predicate ErrorExpired(r: ErrorRow, now: int)
  {
    r.timestamp < now - ERROR_RETENTION && r.status != Red && !r.requiresHuman
  }

  predicate MetricExpired(m: MetricRow, now: int)
  {
    m.timestamp < now - METRIC_RETENTION
  }

  /** Cleanup never removes a RED error or one that requires a human, however old. */
  lemma CleanupKeepsEscalatedErrors(log: seq<ErrorRow>, now: int, r: ErrorRow)
    requires r in log && (r.status == Red || r.requiresHuman)
    ensures r in Filter(log, e => !ErrorExpired(e, now))
  {
  }

  /** Cleanup never removes an escalation that is not RESOLVED. */
  lemma CleanupKeepsOpenTickets(queue: seq<EscalationRow>, now: int, t: EscalationRow)
    requires t in queue && t.status != Resolved
    ensures t in Filter(queue, e => !TicketExpired(e, now))
  {
  }

  /** A row that a key tells apart from all others stays told apart after a filter. */
  lemma {:induction false} FilterKeepsDistinctErrors(log: seq<ErrorRow>, keep: ErrorRow -> bool)
    requires UniqueErrorIds(log)
    ensures UniqueErrorIds(Filter(log, keep))
  {
    if log != [] {
      FilterKeepsDistinctErrors(log[1..], keep);
      var rest := Filter(log[1..], keep);
      assert forall x :: x in rest ==> x.errorId != log[0].errorId by {
        forall x | x in rest ensures x.errorId != log[0].errorId {
          var j :| 0 <= j < |log[1..]| && log[1..][j] == x;
          assert log[j + 1] == x;
        }
      }
      if keep(log[0]) {
        var out := [log[0]] + rest;
        forall i, j | 0 <= i < j < |out| ensures out[i].errorId != out[j].errorId {
          assert out[j] == rest[j - 1];
          if i > 0 { assert out[i] == rest[i - 1]; }
        }
      }
    }
  }

  lemma {:induction false} FilterKeepsDistinctTickets(queue: seq<EscalationRow>, keep: EscalationRow -> bool)
    requires UniqueEscalationIds(queue)
    ensures UniqueEscalationIds(Filter(queue, keep))
  {
    if queue != [] {
      FilterKeepsDistinctTickets(queue[1..], keep);
      var rest := Filter(queue[1..], keep);
      assert forall x :: x in rest ==> x.escalationId != queue[0].escalationId by {
        forall x | x in rest ensures x.escalationId != queue[0].escalationId {
          var j :| 0 <= j < |queue[1..]| && queue[1..][j] == x;
          assert queue[j + 1] == x;
        }
      }
      if keep(queue[0]) {
        var out := [queue[0]] + rest;
        forall i, j | 0 <= i < j < |out| ensures out[i].escalationId != out[j].escalationId {
          assert out[j] == rest[j - 1];
          if i > 0 { assert out[i] == rest[i - 1]; }
        }
      }
    }
  }

  /** The alert condition of `update_system_health`. */
  predicate HealthAlert(pendingEscalations: nat, recentCriticalErrors: nat, recentFailures: nat)
  {
    pendingEscalations > 10 || recentCriticalErrors > 5 || recentFailures > pendingEscalations * 2
  }

  /** More critical errors or more failures never silence the alert. */
  lemma HealthAlertMonotone(p: nat, c: nat, f: nat, c': nat, f': nat)
    requires c <= c' && f <= f'
    requires HealthAlert(p, c, f)
    ensures HealthAlert(p, c', f')
  {
  }

  /** With no pending escalation, a single recent failure raises the alert. */
  lemma FailureWithNothingPendingAlerts(c: nat, f: nat)
    requires f >= 1
    ensures HealthAlert(0, c, f)
  {
  }

  /** More pending escalations can silence the failure clause: (0, 0, 1) alerts, (1, 0, 1) does not. */
  lemma MorePendingCanSilenceAlert()
    ensures HealthAlert(0, 0, 1) && !HealthAlert(1, 0, 1)
  {
  }

  function PendingCount(queue: seq<EscalationRow>): (n: nat)
    ensures n <= |queue|
  {
    |Filter(queue, (t: EscalationRow) => t.status == Pending)|
  }

  function RecentCriticalCount(log: seq<ErrorRow>, now: int): (n: nat)
    ensures n <= |log|
  {
    |Filter(log, (r: ErrorRow) => r.status == Red && r.timestamp >= now - HOUR)|
  }

  function RecentFailureCount(metrics: seq<MetricRow>, now: int): (n: nat)
    ensures n <= |metrics|
  {
    |Filter(metrics, (m: MetricRow) => !m.success && m.timestamp >= now - HOUR)|
  }

  class EscalationSystem {
    var errorLog: seq<ErrorRow>
    var queue: seq<EscalationRow>
    var metrics: seq<MetricRow>

    /** The primary keys of the two tables the engine writes. */
    ghost predicate Valid()
      reads this
    {
      UniqueErrorIds(errorLog) && UniqueEscalationIds(queue)
    }

    constructor ()
      ensures Valid()
      ensures errorLog == [] && queue == [] && metrics == []
    {
      errorLog, queue, metrics := [], [], [];
    }

    /**
     * `create_escalation`: insert one PENDING ticket pointing at the
     * candidate's greatest error id, then flag every row of the group.
     * A clash on escalation_id makes the INSERT raise, and nothing changes.
     */
    method CreateEscalation(c: Candidate, now: int, stamp: string) returns (ok: bool)
      requires Valid()
      modifies this
      ensures Valid() && metrics == old(metrics)
      ensures ok <==> EscalationId(stamp, c.agentId) !in EscalationIds(old(queue))
      ensures ok ==> queue == old(queue) + [NewTicket(c, now, EscalationId(stamp, c.agentId))]
      ensures ok ==> errorLog == MarkEscalated(old(errorLog), IdSet(c.allErrorIds))
      ensures !ok ==> queue == old(queue) && errorLog == old(errorLog)
    {
      var escalationId := EscalationId(stamp, c.agentId);
      if escalationId in EscalationIds(queue) {
        return false;
      }
      var ticket := NewTicket(c, now, escalationId);
      assert forall i :: 0 <= i < |queue| ==> queue[i].escalationId != escalationId by {
        forall i | 0 <= i < |queue| ensures queue[i].escalationId != escalationId {
          assert queue[i] in queue;
        }
      }
      queue := queue + [ticket];
      assert UniqueEscalationIds(queue);
      var j := 0;
      while j < |c.allErrorIds|
        invariant 0 <= j <= |c.allErrorIds|
        invariant errorLog == MarkEscalated(old(errorLog), IdSet(c.allErrorIds[..j]))
        invariant UniqueErrorIds(errorLog)
        invariant queue == old(queue) + [ticket] && UniqueEscalationIds(queue)
        invariant metrics == old(metrics)
      {
        // UPDATE orbt_error_log SET ... WHERE error_id = c.allErrorIds[j]
        MarkEscalatedTwice(old(errorLog), IdSet(c.allErrorIds[..j]), {c.allErrorIds[j]});
        assert IdSet(c.allErrorIds[..j + 1]) == IdSet(c.allErrorIds[..j]) + {c.allErrorIds[j]} by {
          assert c.allErrorIds[..j + 1] == c.allErrorIds[..j] + [c.allErrorIds[j]];
        }
        MarkEscalatedKeepsIds(errorLog, {c.allErrorIds[j]});
        errorLog := MarkEscalated(errorLog, {c.allErrorIds[j]});
        j := j + 1;
      }
      assert c.allErrorIds[..j] == c.allErrorIds;
      return true;
    }

    /**
     * `check_for_escalations`: run the candidate query once, then escalate
     * the candidates in turn, the i-th with the clock reading `clock(i)`.
     * The loop stops at the first candidate whose escalation id is already
     * taken (the exception leaves the cycle). Once every candidate is
     * escalated, the query finds nothing.
     */
    method CheckForEscalations(now: int, clock: nat -> string) returns (escalated: nat, ok: bool)
      requires Valid()
      modifies this
      ensures Valid() && metrics == old(metrics)
      ensures var cs := Candidates(old(errorLog), now);
        && escalated <= |cs|
        && (ok <==> escalated == |cs|)
        && errorLog == MarkEscalated(old(errorLog), CandidateIds(cs[..escalated]))
        && queue == old(queue) + Tickets(cs[..escalated], now, clock)
        && (!ok ==> EscalationId(clock(escalated), cs[escalated].agentId) in EscalationIds(queue))
      ensures ok ==> forall later :: now <= later ==> Candidates(errorLog, later) == []
    {
      var candidates := Candidates(errorLog, now);
      ghost var log0 := errorLog;
      escalated, ok := EscalateCandidates(candidates, now, clock);
      if ok {
        assert candidates[..escalated] == candidates;
        forall later | now <= later ensures Candidates(errorLog, later) == [] {
          EscalationIsIdempotent(log0, now, later);
        }
      }
    }

    /** The `for candidate in escalation_candidates` loop of `check_for_escalations`. */
    method EscalateCandidates(candidates: seq<Candidate>, now: int, clock: nat -> string)
      returns (escalated: nat, ok: bool)
      requires Valid()
      modifies this
      ensures Valid() && metrics == old(metrics)
      ensures escalated <= |candidates|
      ensures ok <==> escalated == |candidates|
      ensures errorLog == MarkEscalated(old(errorLog), CandidateIds(candidates[..escalated]))
      ensures queue == old(queue) + Tickets(candidates[..escalated], now, clock)
      ensures !ok ==> EscalationId(clock(escalated), candidates[escalated].agentId) in EscalationIds(queue)
    {
      escalated, ok := 0, true;
      while escalated < |candidates|
        invariant escalated <= |candidates|
        invariant Valid() && metrics == old(metrics)
        invariant errorLog == MarkEscalated(old(errorLog), CandidateIds(candidates[..escalated]))
        invariant queue == old(queue) + Tickets(candidates[..escalated], now, clock)
        invariant ok
      {
        var c := candidates[escalated];
        ghost var ticket := NewTicket(c, now, EscalationId(clock(escalated), c.agentId));
        ghost var done := Tickets(candidates[..escalated], now, clock);
        var created := CreateEscalation(c, now, clock(escalated));
        if !created {
          ok := false;
          return;
        }
        CandidateIdsExtend(candidates, escalated);
        TicketsExtend(candidates, escalated, now, clock);
        assert old(queue) + (done + [ticket]) == (old(queue) + done) + [ticket];
        MarkEscalatedTwice(old(errorLog), CandidateIds(candidates[..escalated]), IdSet(c.allErrorIds));
        escalated := escalated + 1;
      }
    }

    /**
     * `handle_overdue_escalation` for the fetched row `escalation`: the new
     * priority is computed from the fetched priority, then every row with
     * its escalation id is updated. A priority off the ladder makes
     * `escalate_priority` raise and nothing changes.
     */
    method HandleOverdueEscalation(escalation: EscalationRow, now: int) returns (ok: bool)
      requires Valid()
      modifies this
      ensures Valid() && errorLog == old(errorLog) && metrics == old(metrics)
      ensures ok <==> OnLadder(escalation.priority)
      ensures ok ==> queue == UpdateWhereId(old(queue), escalation.escalationId,
                                            EscalatePriority(escalation.priority).value, now)
      ensures !ok ==> queue == old(queue)
    {
      match EscalatePriority(escalation.priority)
      case Failure(_) =>
        ok := false;
      case Success(p) =>
        queue := UpdateWhereId(queue, escalation.escalationId, p, now);
        ok := true;
    }

    /**
     * `process_pending_escalations`: every PENDING row whose due_at has
     * passed is bumped one priority step and given a new due time; the pass
     * stops at the first such row whose priority is not on the ladder.
     */
    method ProcessPendingEscalations(now: int) returns (ok: bool)
      requires Valid()
      modifies this
      ensures Valid() && errorLog == old(errorLog) && metrics == old(metrics)
      ensures ok <==> FirstStuck(old(queue), now) == |old(queue)|
      ensures queue == AfterOverduePass(old(queue), now)
    {
      ghost var q0 := queue;
      var i := 0;
      while i < |queue|
        invariant i <= |queue| == |q0|
        invariant i <= FirstStuck(q0, now)
        invariant Valid() && errorLog == old(errorLog) && metrics == old(metrics)
        invariant forall j :: 0 <= j < |q0| ==>
                    queue[j] == if j < i && Overdue(q0[j], now) then Bumped(q0[j], now) else q0[j]
      {
        if Overdue(queue[i], now) {
          if OnLadder(queue[i].priority) {
            UpdateWhereIdHitsOneRow(queue, i, EscalatePriority(queue[i].priority).value, now);
          }
          ok := HandleOverdueEscalation(queue[i], now);
          if !ok {
            assert queue == AfterOverduePass(q0, now);
            return;
          }
        }
        i := i + 1;
      }
      ok := true;
      assert queue == AfterOverduePass(q0, now);
    }

    /**
     * `cleanup_old_entries`: the three DELETE statements. The source returns
     * nothing; the three naturals stand for the n of the "DELETE n" status
     * tags it only writes to its log line.
     */
    method CleanupOldEntries(now: int) returns (deletedEscalations: nat, deletedErrors: nat, deletedMetrics: nat)
      requires Valid()
      modifies this
      ensures Valid()
      ensures queue == Filter(old(queue), t => !TicketExpired(t, now))
      ensures errorLog == Filter(old(errorLog), r => !ErrorExpired(r, now))
      ensures metrics == Filter(old(metrics), m => !MetricExpired(m, now))
      ensures deletedEscalations == |old(queue)| - |queue|
      ensures deletedErrors == |old(errorLog)| - |errorLog|
      ensures deletedMetrics == |old(metrics)| - |metrics|
    {
      var keptQueue := Filter(queue, t => !TicketExpired(t, now));
      FilterKeepsDistinctTickets(queue, t => !TicketExpired(t, now));
      deletedEscalations := |queue| - |keptQueue|;
      queue := keptQueue;

      var keptLog := Filter(errorLog, r => !ErrorExpired(r, now));
      FilterKeepsDistinctErrors(errorLog, r => !ErrorExpired(r, now));
      deletedErrors := |errorLog| - |keptLog|;
      errorLog := keptLog;

      var keptMetrics := Filter(metrics, m => !MetricExpired(m, now));
      deletedMetrics := |metrics| - |keptMetrics|;
      metrics := keptMetrics;
    }

    /** `update_system_health`: whether the counts of the last hour call for a health alert. */
    method UpdateSystemHealth(now: int) returns (alert: bool)
      ensures alert <==> HealthAlert(PendingCount(queue), RecentCriticalCount(errorLog, now),
                                     RecentFailureCount(metrics, now))
    {
      var pending := PendingCount(queue);
      var critical := RecentCriticalCount(errorLog, now);
      var failures := RecentFailureCount(metrics, now);
      alert := pending > 10 || critical > 5 || failures > pending * 2;
    }
  }
}
