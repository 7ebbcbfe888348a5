/**
 * The candidate query of `check_for_escalations`: unresolved errors of the
 * last 24 hours that do not yet require a human, grouped by
 * (error_message, agent_id), keeping groups of two or more rows.
 * The query is declarative, so it is modelled by functions on the log.
 */
module Selection {
  import opened Tables

  const HOUR: int := 3600
  /** `INTERVAL '24 hours'`. */
  const WINDOW: int := 24 * HOUR
  /** `HAVING COUNT(*) >= 2`: escalation fires on the second occurrence. */
  const THRESHOLD: nat := 2

  /** The WHERE clause of the candidate query. */
  predicate Eligible(r: ErrorRow, now: int)
  {
    r.timestamp >= now - WINDOW && !r.requiresHuman && !r.resolved
  }

  /**
   * What the WHERE clause admits: rows older than 24 hours, rows flagged for
   * a human and resolved rows never; a fresh unflagged, unresolved row
   * always; and a row admitted at a later time was admitted earlier.
   */
  lemma EligibleWindow(r: ErrorRow, now: int, later: int)
    requires now <= later
    ensures r.timestamp < later - WINDOW || r.requiresHuman || r.resolved ==> !Eligible(r, later)
    ensures later - WINDOW <= r.timestamp && !r.requiresHuman && !r.resolved ==> Eligible(r, later)
    ensures Eligible(r, later) ==> Eligible(r, now)
  {
  }

  /** The grouping key (error_message, agent_id). */
  datatype GroupKey = GroupKey(errorMessage: string, agentId: string)

  function KeyOf(r: ErrorRow): GroupKey
  {
    GroupKey(r.errorMessage, r.agentId)
  }

  predicate InGroup(r: ErrorRow, now: int, k: GroupKey)
  {
    Eligible(r, now) && KeyOf(r) == k
  }

  /** The eligible rows of one group, in log order. */
  function GroupRows(log: seq<ErrorRow>, now: int, k: GroupKey): seq<ErrorRow>
  {
    Filter(log, r => InGroup(r, now, k))
  }

  /** The distinct keys of eligible rows, in order of first appearance. */
  function Keys(log: seq<ErrorRow>, now: int): (ks: seq<GroupKey>)
    ensures forall k :: k in ks <==> exists r :: r in log && InGroup(r, now, k)
    ensures forall i, j :: 0 <= i < j < |ks| ==> ks[i] != ks[j]
  {
    if log == [] then []
    else
      var init := log[..|log| - 1];
      var last := log[|log| - 1];
      var ks := Keys(init, now);
      assert log == init + [last];
      assert forall r :: r in log <==> r in init || r == last;
      if Eligible(last, now) && KeyOf(last) !in ks then
        var out := ks + [KeyOf(last)];
        assert forall k :: k in out <==> k in ks || k == KeyOf(last);
        assert InGroup(last, now, KeyOf(last));
        out
      else
        ks
  }

  /** One row of the candidate query's result. */
  datatype Candidate = Candidate(
    errorMessage: string,
    agentId: string,
    occurrenceCount: nat,
    latestErrorId: nat,
    latestOccurrence: int,
    firstOccurrence: int,
    allErrorIds: seq<nat>)

  predicate NewestFirst(rows: seq<ErrorRow>)
  {
    forall i, j :: 0 <= i < j < |rows| ==> rows[i].timestamp >= rows[j].timestamp
  }

  function InsertNewestFirst(r: ErrorRow, rows: seq<ErrorRow>): seq<ErrorRow>
  {
    if rows == [] || r.timestamp >= rows[0].timestamp then [r] + rows
    else [rows[0]] + InsertNewestFirst(r, rows[1..])
  }

  predicate AllAtMost(rows: seq<ErrorRow>, t: int)
  {
    forall i :: 0 <= i < |rows| ==> rows[i].timestamp <= t
  }

  lemma {:induction false} InsertKeepsBound(r: ErrorRow, rows: seq<ErrorRow>, t: int)
    requires AllAtMost(rows, t) && r.timestamp <= t
    ensures AllAtMost(InsertNewestFirst(r, rows), t)
  {
    if rows != [] && r.timestamp < rows[0].timestamp {
      InsertKeepsBound(r, rows[1..], t);
    }
  }

  /** A row no older than every row of a newest-first sequence can go in front. */
  lemma PrependKeepsNewestFirst(x: ErrorRow, rest: seq<ErrorRow>)
    requires NewestFirst(rest) && AllAtMost(rest, x.timestamp)
    ensures NewestFirst([x] + rest)
  {
    var out := [x] + rest;
    forall i, j | 0 <= i < j < |out| ensures out[i].timestamp >= out[j].timestamp {
      assert out[j] == rest[j - 1];
      if i > 0 {
        assert out[i] == rest[i - 1];
      }
    }
  }

  /** Inserting adds exactly the one row. */
  lemma {:induction false} InsertNewestFirstAddsOne(r: ErrorRow, rows: seq<ErrorRow>)
    ensures multiset(InsertNewestFirst(r, rows)) == multiset(rows) + multiset{r}
  {
    if rows != [] && r.timestamp < rows[0].timestamp {
      InsertNewestFirstAddsOne(r, rows[1..]);
      assert rows == [rows[0]] + rows[1..];
    }
  }

  /** Inserting into a newest-first sequence keeps it newest first. */
  lemma {:induction false} InsertNewestFirstKeepsOrder(r: ErrorRow, rows: seq<ErrorRow>)
    requires NewestFirst(rows)
    ensures NewestFirst(InsertNewestFirst(r, rows))
  {
    if rows == [] {
    } else if r.timestamp >= rows[0].timestamp {
      assert AllAtMost(rows, r.timestamp) by {
        forall i | 0 <= i < |rows| ensures rows[i].timestamp <= r.timestamp {
          if i > 0 {
            assert rows[0].timestamp >= rows[i].timestamp;
          }
        }
      }
      PrependKeepsNewestFirst(r, rows);
    } else {
      var tail := rows[1..];
      assert NewestFirst(tail) by {
        forall i, j | 0 <= i < j < |tail| ensures tail[i].timestamp >= tail[j].timestamp {
          assert tail[i] == rows[i + 1] && tail[j] == rows[j + 1];
        }
      }
      assert AllAtMost(tail, rows[0].timestamp) by {
        forall i | 0 <= i < |tail| ensures tail[i].timestamp <= rows[0].timestamp {
          assert tail[i] == rows[i + 1];
        }
      }
      InsertNewestFirstKeepsOrder(r, tail);
      InsertKeepsBound(r, tail, rows[0].timestamp);
      PrependKeepsNewestFirst(rows[0], InsertNewestFirst(r, tail));
    }
  }

  /** `ORDER BY timestamp DESC` inside `array_agg` (ties in any order). */
  function SortNewestFirst(rows: seq<ErrorRow>): seq<ErrorRow>
  {
    if rows == [] then [] else InsertNewestFirst(rows[0], SortNewestFirst(rows[1..]))
  }

  /** Sorting keeps exactly the rows it was given and puts the newest first. */
  lemma {:induction false} SortNewestFirstFacts(rows: seq<ErrorRow>)
    ensures NewestFirst(SortNewestFirst(rows))
    ensures multiset(SortNewestFirst(rows)) == multiset(rows)
    ensures |SortNewestFirst(rows)| == |rows|
  {
    if rows != [] {
      SortNewestFirstFacts(rows[1..]);
      InsertNewestFirstAddsOne(rows[0], SortNewestFirst(rows[1..]));
      InsertNewestFirstKeepsOrder(rows[0], SortNewestFirst(rows[1..]));
      assert rows == [rows[0]] + rows[1..];
    }
  }

  /** `MAX(error_id)`. */
  function MaxId(rows: seq<ErrorRow>): (m: nat)
    requires rows != []
    ensures exists r :: r in rows && r.errorId == m
    ensures forall r :: r in rows ==> r.errorId <= m
  {
    if |rows| == 1 then rows[0].errorId
    else
      var rest := MaxId(rows[1..]);
      assert rows == [rows[0]] + rows[1..];
      if rows[0].errorId >= rest then rows[0].errorId else rest
  }

  /** `MAX(timestamp)`. */
  function MaxTimestamp(rows: seq<ErrorRow>): (m: int)
    requires rows != []
    ensures exists r :: r in rows && r.timestamp == m
    ensures forall r :: r in rows ==> r.timestamp <= m
  {
    if |rows| == 1 then rows[0].timestamp
    else
      var rest := MaxTimestamp(rows[1..]);
      assert rows == [rows[0]] + rows[1..];
      if rows[0].timestamp >= rest then rows[0].timestamp else rest
  }

  /** `MIN(timestamp)`. */
  function MinTimestamp(rows: seq<ErrorRow>): (m: int)
    requires rows != []
    ensures exists r :: r in rows && r.timestamp == m
    ensures forall r :: r in rows ==> m <= r.timestamp
  {
    if |rows| == 1 then rows[0].timestamp
    else
      var rest := MinTimestamp(rows[1..]);
      assert rows == [rows[0]] + rows[1..];
      if rows[0].timestamp <= rest then rows[0].timestamp else rest
  }

  /** The aggregate row the query produces for one non-empty group. */
  function MakeCandidate(log: seq<ErrorRow>, now: int, k: GroupKey): (c: Candidate)
    requires GroupRows(log, now, k) != []
    ensures c.errorMessage == k.errorMessage && c.agentId == k.agentId
    ensures c.occurrenceCount == |GroupRows(log, now, k)|
  {
    var g := GroupRows(log, now, k);
    Candidate(k.errorMessage, k.agentId, |g|, MaxId(g), MaxTimestamp(g), MinTimestamp(g),
              ErrorIds(SortNewestFirst(g)))
  }

  /** Sorting neither adds nor drops a row. */
  lemma SortedSameRows(rows: seq<ErrorRow>)
    ensures |SortNewestFirst(rows)| == |rows|
    ensures forall r :: r in SortNewestFirst(rows) <==> r in rows
  {
    var sorted := SortNewestFirst(rows);
    SortNewestFirstFacts(rows);
    forall r ensures r in sorted <==> r in rows {
      assert r in sorted <==> r in multiset(sorted);
      assert r in rows <==> r in multiset(rows);
    }
  }

  /** The ids of a candidate are exactly the ids of its group's rows, one per row. */
  lemma CandidateIdsAreGroupIds(log: seq<ErrorRow>, now: int, k: GroupKey)
    requires GroupRows(log, now, k) != []
    ensures var c := MakeCandidate(log, now, k);
      && |c.allErrorIds| == c.occurrenceCount
      && (forall r :: r in GroupRows(log, now, k) ==> r.errorId in c.allErrorIds)
      && (forall id :: id in c.allErrorIds ==> exists r :: r in GroupRows(log, now, k) && r.errorId == id)
  {
    var g := GroupRows(log, now, k);
    var sorted := SortNewestFirst(g);
    var ids := ErrorIds(sorted);
    SortedSameRows(g);
    forall r | r in g ensures r.errorId in ids {
      var i :| 0 <= i < |sorted| && sorted[i] == r;
      assert ids[i] == r.errorId;
    }
    forall id | id in ids ensures exists r :: r in g && r.errorId == id {
      var i :| 0 <= i < |ids| && ids[i] == id;
      assert sorted[i] in g;
    }
  }

  /**
   * `latest_error_id` is the greatest id of the group, which need not be
   * the newest row's; first and latest occurrence bound every timestamp.
   */
  lemma CandidateExtremes(log: seq<ErrorRow>, now: int, k: GroupKey)
    requires GroupRows(log, now, k) != []
    ensures var c := MakeCandidate(log, now, k);
      && c.latestErrorId in c.allErrorIds
      && (forall id :: id in c.allErrorIds ==> id <= c.latestErrorId)
      && (forall r :: r in GroupRows(log, now, k) ==> c.firstOccurrence <= r.timestamp <= c.latestOccurrence)
  {
    var g := GroupRows(log, now, k);
    var c := MakeCandidate(log, now, k);
    CandidateIdsAreGroupIds(log, now, k);
    var r :| r in g && r.errorId == c.latestErrorId;
    assert c.latestErrorId in c.allErrorIds;
  }

  /** The ids of a candidate are those of its rows listed newest first. */
  lemma CandidateIdsNewestFirst(log: seq<ErrorRow>, now: int, k: GroupKey)
    requires GroupRows(log, now, k) != []
    ensures var sorted := SortNewestFirst(GroupRows(log, now, k));
      && multiset(sorted) == multiset(GroupRows(log, now, k))
      && NewestFirst(sorted)
      && MakeCandidate(log, now, k).allErrorIds == ErrorIds(sorted)
  {
    SortNewestFirstFacts(GroupRows(log, now, k));
  }

  /** The (error_message, agent_id) a candidate row was grouped by. */
  function CandidateKey(c: Candidate): GroupKey
  {
    GroupKey(c.errorMessage, c.agentId)
  }

  /**
   * `latest_error_id` is the greatest id of the group, not the newest row's
   * id: here the older row carries the larger id, so `latest_error_id` is 5
   * while `all_error_ids` starts with the newest row's id, 3.
   */
  lemma LatestIdNeedNotBeNewest()
    ensures var older := ErrorRow(5, Green, 0, "agent", "", "", "boom", 0, false, false);
      var newer := ErrorRow(3, Green, 100, "agent", "", "", "boom", 0, false, false);
      var log := [older, newer];
      && GroupRows(log, 100, KeyOf(older)) == log
      && MakeCandidate(log, 100, KeyOf(older)).latestErrorId == 5
      && MakeCandidate(log, 100, KeyOf(older)).allErrorIds == [3, 5]
  {
    var older := ErrorRow(5, Green, 0, "agent", "", "", "boom", 0, false, false);
    var newer := ErrorRow(3, Green, 100, "agent", "", "", "boom", 0, false, false);
    var log := [older, newer];
    var k := KeyOf(older);
    assert log[1..] == [newer] && [newer][1..] == [];
    assert InGroup(older, 100, k) && InGroup(newer, 100, k);
    assert GroupRows([newer], 100, k) == [newer];
    assert GroupRows(log, 100, k) == [older] + GroupRows([newer], 100, k);
    assert SortNewestFirst([newer]) == [newer];
    assert InsertNewestFirst(older, [newer]) == [newer] + InsertNewestFirst(older, []);
    assert SortNewestFirst(log) == [newer, older];
    assert ErrorIds([newer, older]) == [3, 5];
  }

  /** The query's rows for the keys `ks`: one per key whose group has two or more rows. */
  function CandidatesFor(log: seq<ErrorRow>, now: int, ks: seq<GroupKey>): (cs: seq<Candidate>)
    ensures forall c :: c in cs ==>
              CandidateKey(c) in ks && |GroupRows(log, now, CandidateKey(c))| >= THRESHOLD
              && c == MakeCandidate(log, now, CandidateKey(c))
    ensures forall k :: k in ks && |GroupRows(log, now, k)| >= THRESHOLD ==> MakeCandidate(log, now, k) in cs
    ensures |cs| <= |ks|
  {
    if ks == [] then []
    else
      var rest := CandidatesFor(log, now, ks[1..]);
      assert ks == [ks[0]] + ks[1..];
      if |GroupRows(log, now, ks[0])| >= THRESHOLD then [MakeCandidate(log, now, ks[0])] + rest else rest
  }

  /** Putting a candidate with a new key in front keeps the keys distinct. */
  lemma PrependKeepsKeysDistinct(c: Candidate, rest: seq<Candidate>)
    requires forall x :: x in rest ==> CandidateKey(x) != CandidateKey(c)
    requires forall i, j :: 0 <= i < j < |rest| ==> CandidateKey(rest[i]) != CandidateKey(rest[j])
    ensures forall i, j :: 0 <= i < j < |[c] + rest| ==>
              CandidateKey(([c] + rest)[i]) != CandidateKey(([c] + rest)[j])
  {
    var out := [c] + rest;
    forall i, j | 0 <= i < j < |out| ensures CandidateKey(out[i]) != CandidateKey(out[j]) {
      assert out[j] == rest[j - 1] && out[j] in rest;
      if i > 0 {
        assert out[i] == rest[i - 1];
      }
    }
  }

  /** Keys given once yield candidates whose keys appear once. */
  lemma {:induction false} CandidatesForKeysDistinct(log: seq<ErrorRow>, now: int, ks: seq<GroupKey>)
    requires forall i, j :: 0 <= i < j < |ks| ==> ks[i] != ks[j]
    ensures forall i, j :: 0 <= i < j < |CandidatesFor(log, now, ks)| ==>
              CandidateKey(CandidatesFor(log, now, ks)[i]) != CandidateKey(CandidatesFor(log, now, ks)[j])
  {
    if ks != [] {
      var rest := CandidatesFor(log, now, ks[1..]);
      CandidatesForKeysDistinct(log, now, ks[1..]);
      if |GroupRows(log, now, ks[0])| >= THRESHOLD {
        var c := MakeCandidate(log, now, ks[0]);
        assert ks[0] !in ks[1..];
        PrependKeepsKeysDistinct(c, rest);
      }
    }
  }

  /**
   * The result of the candidate query of `check_for_escalations`. Every row
   * is the aggregate of a group of two or more eligible rows, every such
   * group has its row, and no group has two (GROUP BY yields one row per
   * group).
   */
  function Candidates(log: seq<ErrorRow>, now: int): (cs: seq<Candidate>)
    ensures forall c :: c in cs ==>
              |GroupRows(log, now, CandidateKey(c))| >= THRESHOLD && c.occurrenceCount >= THRESHOLD
              && c == MakeCandidate(log, now, CandidateKey(c))
    ensures forall r :: r in log && Eligible(r, now) && |GroupRows(log, now, KeyOf(r))| >= THRESHOLD ==>
              MakeCandidate(log, now, KeyOf(r)) in cs
    ensures forall i, j :: 0 <= i < j < |cs| ==> CandidateKey(cs[i]) != CandidateKey(cs[j])
  {
    var ks := Keys(log, now);
    assert forall r :: r in log && Eligible(r, now) ==> KeyOf(r) in ks by {
      forall r | r in log && Eligible(r, now) ensures KeyOf(r) in ks {
        assert InGroup(r, now, KeyOf(r));
      }
    }
    CandidatesForKeysDistinct(log, now, ks);
    CandidatesFor(log, now, ks)
  }

  /** Completeness: two eligible rows with the same key always yield a candidate for that key. */
  lemma RepeatedErrorIsCandidate(log: seq<ErrorRow>, now: int, i: nat, j: nat)
    requires i < j < |log|
    requires Eligible(log[i], now) && Eligible(log[j], now) && KeyOf(log[i]) == KeyOf(log[j])
    ensures |GroupRows(log, now, KeyOf(log[i]))| >= THRESHOLD
    ensures MakeCandidate(log, now, KeyOf(log[i])) in Candidates(log, now)
  {
    var k := KeyOf(log[i]);
    FilterKeepsTwo(log, r => InGroup(r, now, k), i, j);
    assert log[i] in log;
  }

  /** Every eligible row of a group of two or more has its id in that group's candidate. */
  lemma GroupedRowIsCovered(log: seq<ErrorRow>, now: int, r: ErrorRow)
    requires r in log && Eligible(r, now)
    requires |GroupRows(log, now, KeyOf(r))| >= THRESHOLD
    ensures MakeCandidate(log, now, KeyOf(r)) in Candidates(log, now)
    ensures r.errorId in MakeCandidate(log, now, KeyOf(r)).allErrorIds
  {
    CandidateIdsAreGroupIds(log, now, KeyOf(r));
  }
}
