/**
 * `log_error` of the command-ops monitoring API: insert one classified
 * row into the error log the escalation engine reads, and report whether
 * it is RED.
 */
module ErrorLogging {
  import opened Wrappers
  import opened Text
  import opened Tables
  import opened Selection
  import opened Classifier
  import opened Engine

  /** The fields of an ErrorLogEntry request body that the error log keeps. */
  datatype ErrorEntry = ErrorEntry(
    agentId: string,
    agentHierarchy: string,
    errorType: string,
    errorMessage: string)

  /** The body `log_error` answers with (the wall-clock timestamp is left out). */
  datatype LogResponse = LogResponse(errorId: nat, status: OrbtStatus, escalationTriggered: bool)

  /** The INSERT fails when the generated error_id is already a key of the log. */
  datatype LogFailure = DuplicateErrorId(errorId: nat)

  /**
   * The row `log_error` inserts. Columns the INSERT does not name take the
   * defaults this model assumes for the table: created now, escalation
   * level 0, not flagged for a human, not resolved.
   */
  function LoggedRow(errorId: nat, entry: ErrorEntry, now: int): (r: ErrorRow)
    ensures r.errorId == errorId && r.timestamp == now
    ensures r.status == Classify(entry.errorMessage, entry.errorType)
    ensures r.agentId == entry.agentId && r.errorMessage == entry.errorMessage
    ensures Eligible(r, now)
  {
    ErrorRow(errorId, Classify(entry.errorMessage, entry.errorType), now,
      entry.agentId, entry.agentHierarchy, entry.errorType, entry.errorMessage,
      0, false, false)
  }

  /**
   * The response for a logged row: `escalation_triggered` is
   * `orbt_status == "RED"`, so it is set exactly when the lower-cased
   * message mentions a critical keyword.
   */
  function Acknowledge(errorId: nat, entry: ErrorEntry): (resp: LogResponse)
    ensures resp.errorId == errorId
    ensures resp.status == Classify(entry.errorMessage, entry.errorType)
    ensures resp.escalationTriggered <==> Mentions(Lower(entry.errorMessage), CRITICAL_KEYWORDS)
  {
    var status := Classify(entry.errorMessage, entry.errorType);
    LogResponse(errorId, status, status == Red)
  }

  /** The response reports the status that was stored, and an escalation exactly for a RED row. */
  lemma AcknowledgeMatchesStoredRow(errorId: nat, entry: ErrorEntry, now: int)
    ensures Acknowledge(errorId, entry).status == LoggedRow(errorId, entry, now).status
    ensures Acknowledge(errorId, entry).escalationTriggered <==> LoggedRow(errorId, entry, now).status == Red
  {
  }

  /**
   * `log_error`: classify the message, insert one row under the id the
   * database generated, and acknowledge it. A taken id makes the INSERT
   * raise and nothing changes.
   */
  method LogError(sys: EscalationSystem, errorId: nat, entry: ErrorEntry, now: int)
    returns (r: Result<LogResponse, LogFailure>)
    requires sys.Valid()
    modifies sys
    ensures sys.Valid()
    ensures sys.queue == old(sys.queue) && sys.metrics == old(sys.metrics)
    ensures r.Failure? <==> errorId in ErrorIds(old(sys.errorLog))
    ensures r.Failure? ==> r.error == DuplicateErrorId(errorId) && sys.errorLog == old(sys.errorLog)
    ensures r.Success? ==>
      && r.value == Acknowledge(errorId, entry)
      && sys.errorLog == old(sys.errorLog) + [LoggedRow(errorId, entry, now)]
  {
    if errorId in ErrorIds(sys.errorLog) {
      return Failure(DuplicateErrorId(errorId));
    }
    var row := LoggedRow(errorId, entry, now);
    assert forall i :: 0 <= i < |sys.errorLog| ==> sys.errorLog[i].errorId != errorId by {
      forall i | 0 <= i < |sys.errorLog|
        ensures sys.errorLog[i].errorId != errorId
      {
        assert ErrorIds(sys.errorLog)[i] == sys.errorLog[i].errorId;
      }
    }
    sys.errorLog := sys.errorLog + [row];
    r := Success(Acknowledge(errorId, entry));
  }

  /**
   * Two reports of the same message by the same agent within a day make a
   * group the next `check_for_escalations` cycle escalates, however
   * harmless the message is.
   */
  lemma SecondReportIsEscalationCandidate(log: seq<ErrorRow>, id1: nat, id2: nat, entry: ErrorEntry,
                                          t1: int, t2: int, now: int)
    requires now - WINDOW <= t1 && now - WINDOW <= t2
    ensures var log' := log + [LoggedRow(id1, entry, t1), LoggedRow(id2, entry, t2)];
      exists c :: c in Candidates(log', now)
        && c.errorMessage == entry.errorMessage && c.agentId == entry.agentId
        && c.occurrenceCount >= THRESHOLD
  {
    var log' := log + [LoggedRow(id1, entry, t1), LoggedRow(id2, entry, t2)];
    var i, j := |log|, |log| + 1;
    assert log'[i] == LoggedRow(id1, entry, t1) && log'[j] == LoggedRow(id2, entry, t2);
    RepeatedErrorIsCandidate(log', now, i, j);
    var c := MakeCandidate(log', now, KeyOf(log'[i]));
    assert c in Candidates(log', now);
  }
}
