# ORBT error escalation, modelled in Dafny

This project models the error-escalation core of the ORBT ("Operate, Repair,
Build, Train") monitoring system and proves properties of it. The core is two
Python programs:

- `automation/orbt-escalation-system.py` holds the escalation engine. A
  monitoring cycle does four things:
  - It groups the errors of the last 24 hours by `(error_message, agent_id)`.
    Every group of two or more unresolved rows not yet flagged for a human
    gets one escalation ticket, and all its rows are flagged RED with
    `requires_human` set.
  - It bumps the priority of every PENDING ticket that is past its due time.
  - It computes a health-alert condition.
  - It deletes old rows.
- `api/command-ops-monitoring-endpoints.py` holds the monitoring API:
  - `log_error` classifies an error message as GREEN, YELLOW or RED and
    inserts the row.
  - `get_error_log` and `get_dpr_doctrine` build WHERE clauses with
    positional placeholders.
  - `get_agent_metrics` summarises a batch of metric rows.

The three tables (`orbt_error_log`, `orbt_escalation_queue`,
`orbt_agent_metrics`) are sequences of records:

- In `EscalationSystem`, a class whose methods update them in place, as the
  SQL statements do.
- The SQL queries are functions over those sequences:
  - WHERE is `Filter`.
  - `GROUP BY ... HAVING COUNT(*) >= 2` is `Candidates`.
  - `array_agg(... ORDER BY timestamp DESC)` is an insertion sort.
  - DELETE is `Filter` with the negated condition.
- Time is an integer count of seconds, and "now" is a parameter.
- Escalation ids embed the formatted clock (`%Y%m%d_%H%M%S`). The clock is
  read again for each candidate, so the escalation pass takes a parameter
  `clock`, where `clock(i)` is the reading for the i-th candidate.

Modules, one per file:

- `Wrappers`: the Option and Result types.
- `Text`: the Python string operations used. These are:
  - `lower` (ASCII only)
  - the substring test `k in s`
  - `'%d'`-style decimal rendering and parsing back
  - `join`
  - the last index of a character
- `Tables`: the row records, the primary-key predicates and `Filter`.
- `Priority`: `calculate_priority`, `get_response_time_hours` and
  `escalate_priority`.
- `Selection`: the candidate query of `check_for_escalations`.
- `Engine`: `create_escalation`, the escalation loop, overdue handling,
  cleanup and the health alert. This is the `EscalationSystem` class and the
  functions that specify its methods.
- `Classifier`: `classify_error_status`.
- `ErrorLogging`: `log_error`.
- `QueryFilters`: the two WHERE/params builders.
- `AgentMetrics`: the integer parts of the `get_agent_metrics` summary.

Three facts about the code are easy to misread from the names around it:

- The escalation threshold is 2: the candidate query has
  `HAVING COUNT(*) >= 2` (`automation/orbt-escalation-system.py:92`), and the
  header comment says "2+ occurrences" (`automation/orbt-escalation-system.py:2`).
  Yet `heir-drop-in.js:68` names the escalation protocol "3_strike".
- The priority of a new ticket comes from `calculate_priority`
  (`automation/orbt-escalation-system.py:106-109`). It depends on the
  occurrence count and the agent id.
- `log_error` always INSERTs a new row
  (`api/command-ops-monitoring-endpoints.py:208`). It never increments an
  occurrence count on an existing row. Repeats are found later by the
  grouping query. `ErrorLogging.SecondReportIsEscalationCandidate` shows
  that the second report of the same message by the same agent within a day
  forms a candidate group.

## Model

| member | source | states |
|---|---|---|
| Priority.BasePriorityByAgent | automation/orbt-escalation-system.py:286-292 | The base priority is HIGH when the lower-cased agent id contains "orchestrator". Otherwise it is MEDIUM when it contains "manager", and LOW otherwise. "orchestrator" is checked first. |
| Priority.CalculatePriority | automation/orbt-escalation-system.py:284-302 | Always returns one of LOW/MEDIUM/HIGH/CRITICAL. |
| Priority.CalculatePriorityRules | automation/orbt-escalation-system.py:294-302 | The result is CRITICAL if and only if the count is 10 or more. A count of 5-9 gives HIGH, and a count below 3 gives the base priority. The result is never below the base priority. |
| Priority.CalculatePriorityMonotone | automation/orbt-escalation-system.py:294-302 | For a fixed agent id, a larger occurrence count never gives a lower rank on the LOW<MEDIUM<HIGH<CRITICAL ladder. |
| Priority.OrchestratorAtLeastHigh | automation/orbt-escalation-system.py:287-288 | An agent whose lower-cased id contains "orchestrator" never gets less than HIGH. |
| Priority.MidCountLiftsOnlyRaisedBases | automation/orbt-escalation-system.py:299-302 | A count of 3 or 4 lifts a MEDIUM or HIGH base to HIGH. A LOW base stays LOW. |
| Priority.ResponseTimeHours | automation/orbt-escalation-system.py:304-311 | CRITICAL maps to 1, HIGH to 4, MEDIUM to 24 and LOW to 72. Any other string maps to 24. |
| Priority.ResponseTimeStrictlyDecreasing | automation/orbt-escalation-system.py:304-311 | On the ladder, a higher rank has a strictly shorter response time, and conversely. |
| Priority.EscalatePriority | automation/orbt-escalation-system.py:313-317 | Succeeds exactly for priorities on the ladder; `.index` raises on any other. On success the rank goes up by one, capped at CRITICAL. |
| Priority.EscalateFixedPoint | automation/orbt-escalation-system.py:315-317 | Escalation leaves a priority unchanged exactly when it is CRITICAL. |
| Priority.EscalateNeverSlower | automation/orbt-escalation-system.py:304-317 | The escalated priority's response time is never longer than the original's. It is strictly shorter below CRITICAL. |
| Selection.Keys | automation/orbt-escalation-system.py:86-91 | The grouping keys are exactly the `(error_message, agent_id)` pairs of rows in the 24-hour window that are unresolved and not flagged. Each key appears once. |
| Selection.EligibleWindow | automation/orbt-escalation-system.py:88-90 | The WHERE clause never admits a row older than 24 hours, flagged for a human or resolved. It always admits a newer row that is neither. A row admitted at a later time was admitted at any earlier time. |
| Selection.MaxId | automation/orbt-escalation-system.py:82 | `MAX(error_id)`: an id of the group that no id of the group exceeds. |
| Selection.MaxTimestamp | automation/orbt-escalation-system.py:83 | `MAX(timestamp)`: a timestamp of the group that no row of the group exceeds. |
| Selection.MinTimestamp | automation/orbt-escalation-system.py:84 | `MIN(timestamp)`: a timestamp of the group that every row of the group reaches. |
| Selection.SortNewestFirstFacts | automation/orbt-escalation-system.py:85 | The `ORDER BY timestamp DESC` sort is ordered newest first and is a permutation of the group. |
| Selection.MakeCandidate | automation/orbt-escalation-system.py:78-85 | A candidate carries its group's key, and its occurrence count is the group's size. |
| Selection.CandidateIdsAreGroupIds | automation/orbt-escalation-system.py:85 | `all_error_ids` holds one id per row of the group, and its ids are exactly the group's ids. |
| Selection.CandidateExtremes | automation/orbt-escalation-system.py:82-84 | `latest_error_id` is one of the group's ids, and no id of the group exceeds it. `latest_occurrence` and `first_occurrence` bound every row's timestamp. |
| Selection.LatestIdNeedNotBeNewest | automation/orbt-escalation-system.py:82-85 | A witness: in a group whose older row has the larger id (5, older; 3, newer), `latest_error_id` is 5, while `all_error_ids` is [3, 5] and starts with the newest row's id. |
| Selection.CandidateIdsNewestFirst | automation/orbt-escalation-system.py:85 | `all_error_ids` lists the group's ids in newest-first order of timestamps. |
| Selection.CandidatesFor | automation/orbt-escalation-system.py:91-92 | For the given keys, every result row comes from a group of at least 2 rows, and every such group yields its row. |
| Selection.CandidatesForKeysDistinct | automation/orbt-escalation-system.py:91 | Keys given once yield result rows whose `(error_message, agent_id)` keys appear once, position by position. |
| Selection.Candidates | automation/orbt-escalation-system.py:76-93 | Every row of the query is its group's aggregate, and its group has 2 or more rows. Every eligible row of such a group has its group's row in the result. No two positions of the result share a `(error_message, agent_id)` key: `GROUP BY` gives one row per group. |
| Selection.RepeatedErrorIsCandidate | automation/orbt-escalation-system.py:87-92 | Two eligible rows with the same message and agent make their group a candidate. |
| Selection.GroupedRowIsCovered | automation/orbt-escalation-system.py:85-92 | Every eligible row of a group of 2 or more has its id in that group's candidate. |
| Engine.Flagged | automation/orbt-escalation-system.py:127-134 | The UPDATE sets `requires_human`, level 2 and RED, and every other column keeps its value. |
| Engine.MarkEscalated | automation/orbt-escalation-system.py:126-134 | Exactly the rows whose id is in the set are flagged. Every other row is unchanged. |
| Engine.MarkEscalatedTwice | automation/orbt-escalation-system.py:126-134 | The per-id UPDATEs compose: flagging by one set and then another is flagging by their union. |
| Engine.EscalationIdClash | automation/orbt-escalation-system.py:103 | Take two escalation ids built from clock readings of one length. They clash exactly when the readings are equal and the agent ids share their first 8 characters. |
| Engine.NewTicket | automation/orbt-escalation-system.py:106-123 | The inserted ticket has the given escalation id, `error_id = latest_error_id`, PENDING status, SYSTEM_AUTO, `escalated_at = now` and the calculated priority. `due_at` is now plus that priority's response time, which is between 1 and 72 hours. |
| Engine.TicketsMatchCandidates | automation/orbt-escalation-system.py:95-123 | The escalation loop inserts one ticket per candidate, in candidate order. The i-th ticket carries the escalation id built from the i-th clock reading. |
| Engine.EscalationIsIdempotent | automation/orbt-escalation-system.py:86-134 | Once every candidate's rows are flagged, the candidate query returns nothing, at the same time or any later time. |
| Engine.FlaggedGroupIsSmall | automation/orbt-escalation-system.py:86-134 | After every candidate's ids are flagged, no group has two eligible rows left, at the same time or any later time. |
| Engine.EscalationSystem.CreateEscalation | automation/orbt-escalation-system.py:101-134 | `create_escalation` succeeds exactly when the escalation id is not already in the queue. On success it appends exactly one ticket and flags exactly the group's ids. On failure nothing changes. Both primary keys stay unique. |
| Engine.EscalationSystem.CheckForEscalations | automation/orbt-escalation-system.py:71-99 | The queue grows by one ticket per escalated candidate, and exactly their rows are flagged. The loop stops only at a candidate whose escalation id, from its own clock reading, is already taken (under the key assumptions in "## Left out"). When it completes, a later query finds no candidates. |
| Engine.EscalationSystem.EscalateCandidates | automation/orbt-escalation-system.py:95-96 | After the loop has escalated n candidates, the log is flagged by exactly the first n candidates' ids. The queue has gained exactly their n tickets. |
| Engine.Bumped | automation/orbt-escalation-system.py:202-215 | The overdue UPDATE raises the rank by one, capped at CRITICAL. The new `due_at` is now plus the new priority's response time, and `updated_at` is now. Every other column is unchanged. |
| Engine.Reprioritized | automation/orbt-escalation-system.py:205-215 | The SET part of that UPDATE. The row gets the new priority, a `due_at` that priority's response time from now, and `updated_at = now`. Every other column is kept. |
| Engine.UpdateWhereId | automation/orbt-escalation-system.py:205-215 | `WHERE escalation_id = $3`: every row with that id gets the new priority, `due_at` and `updated_at` (`Reprioritized`). Rows with another id are untouched, and no row's escalation id changes. |
| Engine.UpdateWhereIdHitsOneRow | automation/orbt-escalation-system.py:211 | Because `escalation_id` is the key, updating by the id of row i changes row i alone. |
| Engine.FirstStuck | automation/orbt-escalation-system.py:174-188 | The position of the first overdue row whose priority is off the ladder, where `.index` raises. |
| Engine.AfterOverduePass | automation/orbt-escalation-system.py:174-215 | The overdue pass changes only rows that are PENDING with `due_at < now`. It keeps every escalation id and status, and no priority goes down. Every overdue row before the first failing one is bumped (`Bumped`). The failing row and every row after it are unchanged. When the pass completes, no row is overdue. |
| Engine.EscalationSystem.HandleOverdueEscalation | automation/orbt-escalation-system.py:197-215 | The new priority comes from the fetched row's priority. When that priority is on the ladder, every row with the fetched escalation id is updated and the rest are unchanged. Otherwise it raises and nothing changes. The primary keys stay unique. |
| Engine.EscalationSystem.ProcessPendingEscalations | automation/orbt-escalation-system.py:168-195 | The queue becomes `AfterOverduePass` of the old queue. Each update by id reaches exactly the fetched row because the key is unique. The result is true exactly when no overdue row has an off-ladder priority. |
| Engine.CleanupKeepsEscalatedErrors | automation/orbt-escalation-system.py:265-270 | Cleanup never deletes a RED error or one that requires a human, however old it is. |
| Engine.CleanupKeepsOpenTickets | automation/orbt-escalation-system.py:258-262 | Cleanup never deletes an escalation that is not RESOLVED. |
| Engine.FilterKeepsDistinctErrors | automation/orbt-escalation-system.py:265-270 | Deleting rows keeps `error_id` unique. |
| Engine.FilterKeepsDistinctTickets | automation/orbt-escalation-system.py:258-262 | Deleting rows keeps `escalation_id` unique. |
| Engine.EscalationSystem.CleanupOldEntries | automation/orbt-escalation-system.py:252-276 | Each table keeps exactly its rows that the DELETE does not match. The three naturals stand for the n of the "DELETE n" status tags, which the source only logs, and each is the number of rows removed. |
| Engine.HealthAlertMonotone | automation/orbt-escalation-system.py:243-245 | More recent critical errors or more failures never silence the alert. |
| Engine.FailureWithNothingPendingAlerts | automation/orbt-escalation-system.py:245 | With nothing pending, one recent failure raises the alert. |
| Engine.MorePendingCanSilenceAlert | automation/orbt-escalation-system.py:245 | The failure clause is relative to the pending count: (0, 0, 1) alerts and (1, 0, 1) does not. |
| Engine.EscalationSystem.UpdateSystemHealth | automation/orbt-escalation-system.py:234-247 | The alert is raised exactly when there are more than 10 pending, more than 5 RED errors in the last hour, or more failures in the last hour than twice the pending count. |
| Classifier.AnyIn | api/command-ops-monitoring-endpoints.py:507-509 | `any(keyword in s ...)` holds exactly when some keyword of the list occurs in s. |
| Classifier.Classify | api/command-ops-monitoring-endpoints.py:492-513 | RED exactly when the lower-cased message contains a critical keyword, whatever warning keywords it also has. YELLOW exactly when it has no critical keyword and some warning keyword. GREEN exactly when it has neither. |
| Classifier.ClassifyCaseInsensitive | api/command-ops-monitoring-endpoints.py:492-494 | Classifying the lower-cased message gives the same status. `error_type` never matters. |
| Classifier.ClassifyGrowsWithText | api/command-ops-monitoring-endpoints.py:494-513 | Adding text before or after a message never makes its status less severe. |
| ErrorLogging.LoggedRow | api/command-ops-monitoring-endpoints.py:201-220 | The inserted row carries the generated id and the classified status. It is created now and is eligible for the escalation query. |
| ErrorLogging.Acknowledge | api/command-ops-monitoring-endpoints.py:225-231 | The response carries the generated id and the classified status. `escalation_triggered` is true exactly when the lower-cased message contains a critical keyword. |
| ErrorLogging.AcknowledgeMatchesStoredRow | api/command-ops-monitoring-endpoints.py:204-230 | The reported status is the stored row's status, and an escalation is reported exactly for a row stored as RED. |
| ErrorLogging.LogError | api/command-ops-monitoring-endpoints.py:194-234 | Fails exactly when the generated id is already in the log, and then nothing changes. Otherwise it appends exactly the classified row and acknowledges it. The queue and metrics are unchanged. |
| ErrorLogging.SecondReportIsEscalationCandidate | api/command-ops-monitoring-endpoints.py:194-231 | Two reports of the same message by the same agent within 24 hours form a candidate group of at least 2 rows for `check_for_escalations`. |
| QueryFilters.Applied | api/command-ops-monitoring-endpoints.py:132-138 | Only filters with a truthy value contribute, never more than are offered. Absent and empty strings are skipped. |
| QueryFilters.AppliedMembers | api/command-ops-monitoring-endpoints.py:132-138 | A filter contributes exactly when its value is truthy: every given filter is kept, and no other. |
| QueryFilters.AppliedIsFilter | api/command-ops-monitoring-endpoints.py:132-138 | The contributing filters are the given ones taken front to back, in the order the builder tests them. |
| QueryFilters.AppliedPosition | api/command-ops-monitoring-endpoints.py:132-138 | A given filter sits at the position equal to the number of given filters before it, so it is numbered after them. |
| QueryFilters.PlaceholderNumberOf | api/command-ops-monitoring-endpoints.py:133-137 | The condition `"col = $%d" % n` reads back n. |
| QueryFilters.AddCriterion | api/command-ops-monitoring-endpoints.py:132-138 | One `if value:` block keeps the numbering: the k-th given filter's condition has placeholder `$k` and `params[k-1]` holds its value. |
| QueryFilters.NumberedReadsBack | api/command-ops-monitoring-endpoints.py:129-140 | In numbered conditions, the condition at position offset+k carries placeholder `$(k+1)`, and `params[k]` is that filter's value. |
| QueryFilters.ErrorLogQuery | api/command-ops-monitoring-endpoints.py:129-168 | The time-window condition comes first. Then `orbt_status` and `agent_id` come when given, numbered `$1..$n` with matching params. The limit is the last parameter, and the clause is the `" AND "` join. |
| QueryFilters.DoctrineQuery | api/command-ops-monitoring-endpoints.py:393-429 | Category, doctrine type and enforcement level come when given, numbered `$1..$n` with matching params. The clause is "1=1" when there are no conditions. The limit is the last parameter. |
| QueryFilters.DoctrineUnfilteredIffNothingGiven | api/command-ops-monitoring-endpoints.py:396-408 | The doctrine query is unfiltered exactly when none of the three filters is given. |
| AgentMetrics.Summarize | api/command-ops-monitoring-endpoints.py:269-285 | The summary is absent exactly when there are no rows. Otherwise `total_executions` is the row count and is at least the successful count. |
| AgentMetrics.SuccessCountIsFilter | api/command-ops-monitoring-endpoints.py:271 | The successful count is the number of rows with `success` set. |
| AgentMetrics.AllSucceededIff | api/command-ops-monitoring-endpoints.py:270-271 | The successful count equals the total exactly when every row succeeded. |
| AgentMetrics.SummarizeSingle | api/command-ops-monitoring-endpoints.py:269-282 | A single row's summary is that row's own figures: 1 execution, 1 success exactly when it succeeded, its time, its tokens (NULL as 0), its errors and its retries. Together with `SummarizeAppend` this fixes every total. |
| AgentMetrics.SummarizeAppend | api/command-ops-monitoring-endpoints.py:270-282 | The summary of two batches is the field-by-field sum of their summaries: totals, successes, execution time, tokens (NULL as 0), errors and retries. |

## Left out

- Database access is left out: asyncpg connections, SQL execution, and the
  `update_system_status()` stored function (`orbt-escalation-system.py:231`,
  `command-ops-monitoring-endpoints.py:222`). The tables are in-memory
  sequences.
- `generate_error_id()` is not modelled either. The generated id is a
  parameter, and error ids are natural numbers rather than the text the
  database produces. Only their order matters, for `MAX(error_id)`.
- The wall clock is a parameter: `datetime.now()`, the `strftime` text in
  escalation ids, and the NOW() of the SQL.
- Engine.EscalationSystem.CheckForEscalations: one escalation pass uses a
  single `now` for `escalated_at` and `due_at` of every ticket. The source
  reads the clock again for each candidate, and the two readings differ by
  the time the pass has taken. Escalation ids do get one clock reading per
  candidate.
- Notifications are left out: Slack, email, webhooks, `requests.post`,
  logging, the daily summary, `send_urgent_notification` and
  `trigger_system_health_alert`. These are I/O with no effect on the tables.
- The training-log INSERT of `create_escalation` (`log_training_intervention`,
  `orbt-escalation-system.py:156-166`) touches a table outside the core.
- The monitoring loop's scheduling is left out: the infinite
  `monitor_and_escalate` loop, its sleeps and retry, and the command-line
  `main`.
- Floating-point values are left out:
  - the averages and `success_rate` with `round` (`command-ops-monitoring-endpoints.py:272-279`)
  - `overdue_hours`
  - the `avg_performance` column of the health query
- AgentMetrics.Summarize: the averages are the model's sums divided by
  `total_executions`. That division is not modelled.
- The LIMIT placeholder text is not modelled. The f-string writes it as
  `${{len(params) + 1}}` (`command-ops-monitoring-endpoints.py:165, 426`), so
  the query text holds that literal text rather than a number. The models
  only append the limit to `params`.
- The unformatted `'%s hours'` in `get_agent_metrics`
  (`command-ops-monitoring-endpoints.py:263`) is not modelled. The summary
  takes the fetched rows as given.
- The order of SQL results is fixed by the model, because SQL leaves it
  unspecified:
  - groups appear in order of their first row in the log;
  - the overdue query returns rows in queue order;
  - the sort is a stable insertion sort.
- The overdue pass stops at the first row whose priority is off the ladder.
  That is where the `ValueError` from `.index` leaves the cycle. The escalation
  loop likewise stops at the first escalation id that is already taken.
  Rows handled before either stop stay changed, because each statement
  commits on its own.
- Case folding is ASCII only; Unicode `str.lower` is not modelled.
- Request validation is FastAPI's, and the HTTP layer is not modelled:
  `le=` bounds, the status regex, and the HTTPException wrapping.
- `get_orbt_system_status`, `trigger_human_escalation`, `log_agent_metrics`,
  `log_training_intervention` and the health endpoint of the API only read
  or insert rows without any rule to check.
- Columns that no modelled rule reads or writes are not part of the row
  records, such as the stack trace, doctrine section and project context.
- The schemas of `orbt_error_log` and `orbt_escalation_queue` are not part
  of this model; the model assumes these defaults for columns the INSERTs do
  not name:
  - The `log_error` INSERT names neither `timestamp` nor `escalation_level`,
    `requires_human` or `resolved`. The model assumes `timestamp` is the
    insertion time, `escalation_level` is 0, and `requires_human` and
    `resolved` are false. `ErrorLogging.LoggedRow` (its timestamp and its
    eligibility) and `ErrorLogging.SecondReportIsEscalationCandidate` rest on
    these four assumptions.
  - The `create_escalation` INSERT names neither `resolved_at` nor
    `updated_at`. The model assumes both are NULL. `Engine.NewTicket`
    (`resolvedAt.None? && updatedAt.None?`) rests on that assumption.
  - No file of the source declares a key. The model assumes `error_id` and
    `escalation_id` are primary keys, so an INSERT of a taken value raises
    (`Tables.UniqueErrorIds`, `Tables.UniqueEscalationIds`, `Valid()`). It
    also assumes the training-log INSERT of `create_escalation` never fails,
    although its `TRAIN_<%Y%m%d_%H%M%S>` id
    (`orbt-escalation-system.py:522`) repeats within one clock second, and
    a key on `training_id` would then end the pass after that candidate's
    ticket and flags. `Engine.EscalationSystem.CreateEscalation`,
    `Engine.EscalationSystem.EscalateCandidates`,
    `Engine.EscalationSystem.CheckForEscalations` (the stop at a taken
    escalation id is their only failure) and `ErrorLogging.LogError`
    (`DuplicateErrorId`) rest on these assumptions.
- `heir-drop-in.js` and `src/pages/Index.tsx` are scaffolding and static UI.
