/**
 * The escalation-priority ladder LOW < MEDIUM < HIGH < CRITICAL and the
 * three helpers of ORBTEscalationSystem that work on it:
 * calculate_priority, get_response_time_hours and escalate_priority.
 * Priorities are the text values the escalation queue stores.
 */
module Priority {
  import opened Wrappers
  import opened Text

  const LOW: string := "LOW"
  const MEDIUM: string := "MEDIUM"
  const HIGH: string := "HIGH"
  const CRITICAL: string := "CRITICAL"

  /** `priority_levels`, lowest first. */
  const Ladder: seq<string> := [LOW, MEDIUM, HIGH, CRITICAL]

  predicate OnLadder(p: string)
  {
    p in Ladder
  }

  /** `priority_levels.index(p)` for a priority on the ladder. */
  function Rank(p: string): (i: nat)
    requires OnLadder(p)
    ensures i < |Ladder| && Ladder[i] == p
  {
    if p == LOW then 0 else if p == MEDIUM then 1 else if p == HIGH then 2 else 3
  }

  /** The priority an agent starts from, by the kind of agent its id names. */
  function BasePriority(agentId: string): (p: string)
    ensures OnLadder(p) && p != CRITICAL
  {
    var id := Lower(agentId);
    if Contains(id, "orchestrator") then HIGH
    else if Contains(id, "manager") then MEDIUM
    else LOW
  }

  /**
   * "orchestrator" anywhere in the lower-cased id gives HIGH, checked before
   * "manager", which gives MEDIUM; any other agent starts at LOW.
   */
  lemma BasePriorityByAgent(agentId: string)
    ensures Contains(Lower(agentId), "orchestrator") ==> BasePriority(agentId) == HIGH
    ensures !Contains(Lower(agentId), "orchestrator") && Contains(Lower(agentId), "manager") ==>
              BasePriority(agentId) == MEDIUM
    ensures !Contains(Lower(agentId), "orchestrator") && !Contains(Lower(agentId), "manager") ==>
              BasePriority(agentId) == LOW
  {
  }

  /** `calculate_priority(occurrence_count, agent_id)`. */
  function CalculatePriority(occurrenceCount: int, agentId: string): (p: string)
    ensures OnLadder(p)
  {
    var base := BasePriority(agentId);
    if occurrenceCount >= 10 then CRITICAL
    else if occurrenceCount >= 5 then HIGH
    else if occurrenceCount >= 3 && base != LOW then HIGH
    else base
  }

  /**
   * Ten or more occurrences give CRITICAL and nothing else does; five to
   * nine give HIGH; under three keep the agent's base priority; the result
   * is never below the base.
   */
  lemma CalculatePriorityRules(occurrenceCount: int, agentId: string)
    ensures var p := CalculatePriority(occurrenceCount, agentId);
      && (occurrenceCount >= 10 <==> p == CRITICAL)
      && (5 <= occurrenceCount < 10 ==> p == HIGH)
      && (occurrenceCount < 3 ==> p == BasePriority(agentId))
      && Rank(p) >= Rank(BasePriority(agentId))
  {
  }

  /** More occurrences never lower the priority of the same agent. */
  lemma CalculatePriorityMonotone(m: int, n: int, agentId: string)
    requires m <= n
    ensures Rank(CalculatePriority(m, agentId)) <= Rank(CalculatePriority(n, agentId))
  {
  }

  /** An agent whose id mentions "orchestrator", in any case, is never below HIGH. */
  lemma OrchestratorAtLeastHigh(occurrenceCount: int, agentId: string)
    requires Contains(Lower(agentId), "orchestrator")
    ensures Rank(CalculatePriority(occurrenceCount, agentId)) >= Rank(HIGH)
  {
  }

  /** Three or four occurrences lift a MEDIUM or HIGH base to HIGH; a LOW base stays LOW. */
  lemma MidCountLiftsOnlyRaisedBases(occurrenceCount: int, agentId: string)
    requires 3 <= occurrenceCount <= 4
    ensures CalculatePriority(occurrenceCount, agentId) ==
              if BasePriority(agentId) == LOW then LOW else HIGH
  {
  }

  /** `get_response_time_hours(priority)`: the SLA in hours, 24 for text off the ladder. */
  function ResponseTimeHours(p: string): (h: nat)
    ensures h >= 1
    ensures !OnLadder(p) ==> h == 24
    ensures p == CRITICAL ==> h == 1
    ensures p == HIGH ==> h == 4
    ensures p == MEDIUM ==> h == 24
    ensures p == LOW ==> h == 72
  {
    if p == CRITICAL then 1
    else if p == HIGH then 4
    else if p == MEDIUM then 24
    else if p == LOW then 72
    else 24
  }

  /** A higher priority always has a strictly shorter response time. */
  lemma ResponseTimeStrictlyDecreasing(p: string, q: string)
    requires OnLadder(p) && OnLadder(q)
    ensures Rank(p) < Rank(q) <==> ResponseTimeHours(q) < ResponseTimeHours(p)
  {
  }

  /** `.index` raises ValueError for text that is not a priority. */
  datatype PriorityError = NotAPriority(text: string)

  /** `escalate_priority(current_priority)`: one step up the ladder, capped at CRITICAL. */
  function EscalatePriority(p: string): (r: Result<string, PriorityError>)
    ensures r.Success? <==> OnLadder(p)
    ensures r.Failure? ==> r.error == NotAPriority(p)
    ensures r.Success? ==> OnLadder(r.value) && Rank(r.value) == if Rank(p) < 3 then Rank(p) + 1 else 3
  {
    if !OnLadder(p) then Failure(NotAPriority(p))
    else
      var i := Rank(p);
      Success(Ladder[if i + 1 < |Ladder| - 1 then i + 1 else |Ladder| - 1])
  }

  /** CRITICAL is the fixed point of escalation, and the only one. */
  lemma EscalateFixedPoint(p: string)
    requires OnLadder(p)
    ensures EscalatePriority(p) == Success(p) <==> p == CRITICAL
  {
  }

  /** Escalating a priority never lengthens its response time, and shortens it below CRITICAL. */
  lemma EscalateNeverSlower(p: string)
    requires OnLadder(p)
    ensures EscalatePriority(p).Success?
    ensures ResponseTimeHours(EscalatePriority(p).value) <= ResponseTimeHours(p)
    ensures p != CRITICAL ==> ResponseTimeHours(EscalatePriority(p).value) < ResponseTimeHours(p)
  {
    ResponseTimeStrictlyDecreasing(p, EscalatePriority(p).value);
  }
}
