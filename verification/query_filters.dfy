/**
 * The WHERE-clause builders of `get_error_log` and `get_dpr_doctrine`:
 * each given filter appends a condition with a positional placeholder
 * `$n`, numbered from the current length of the parallel parameter list,
 * and the row limit is appended to the parameters last.
 */
module QueryFilters {
  import opened Wrappers
  import opened Text
  import opened Tables

  const STATUS_COLUMN: string := "orbt_status"
  const AGENT_COLUMN: string := "agent_id"
  const CATEGORY_COLUMN: string := "doctrine_category"
  const TYPE_COLUMN: string := "doctrine_type"
  const LEVEL_COLUMN: string := "enforcement_level"

  /** A query parameter: asyncpg receives strings and the integer limit. */
  datatype Param = Text(text: string) | Number(number: int)

  /** An optional filter on one column. */
  datatype Criterion = Criterion(column: string, value: Option<string>)

  /** Python truthiness of an optional string: absent and "" both count as not given. */
  predicate Given(v: Option<string>)
  {
    v.Some? && v.value != ""
  }

  /** A criterion contributes a condition exactly when its value is given. */
  predicate Contributes(c: Criterion)
  {
    Given(c.value)
  }

  /** The criteria that contribute a condition, in their fixed order. */
  function Applied(criteria: seq<Criterion>): (a: seq<Criterion>)
    ensures |a| <= |criteria|
    ensures forall i :: 0 <= i < |a| ==> Given(a[i].value)
  {
    if criteria == [] then []
    else
      var last := criteria[|criteria| - 1];
      Applied(criteria[..|criteria| - 1]) + (if Given(last.value) then [last] else [])
  }

  /**
   * The applied criteria are exactly the given ones filtered out of the
   * list front to back, so they keep the order the builder tests them in.
   */
  lemma {:induction false} AppliedIsFilter(criteria: seq<Criterion>)
    ensures Applied(criteria) == Filter(criteria, Contributes)
  {
    if criteria != [] {
      var init, last := criteria[..|criteria| - 1], criteria[|criteria| - 1];
      assert criteria == init + [last];
      AppliedIsFilter(init);
      FilterSnoc(init, last, Contributes);
    }
  }

  /** Every given criterion is applied, and only given ones are. */
  lemma AppliedMembers(criteria: seq<Criterion>)
    ensures forall c :: c in Applied(criteria) <==> c in criteria && Given(c.value)
  {
    AppliedIsFilter(criteria);
  }

  /**
   * A given criterion is applied at the position equal to the number of
   * given criteria before it: its condition gets placeholder `$k` for the
   * k-th given filter, whatever its column.
   */
  lemma AppliedPosition(criteria: seq<Criterion>, i: nat)
    requires i < |criteria| && Given(criteria[i].value)
    ensures |Applied(criteria[..i])| < |Applied(criteria)|
    ensures Applied(criteria)[|Applied(criteria[..i])|] == criteria[i]
  {
    var before, from := criteria[..i], criteria[i..];
    assert criteria == before + from;
    assert from[0] == criteria[i];
    var rest := Filter(from[1..], Contributes);
    assert Filter(from, Contributes) == [criteria[i]] + rest;
    FilterAppend(before, from, Contributes);
    AppliedIsFilter(criteria);
    AppliedIsFilter(before);
    assert Applied(criteria) == Applied(before) + ([criteria[i]] + rest);
  }

  /** The value of a given criterion. */
  function ValueOf(c: Criterion): string
  {
    if c.value.Some? then c.value.value else ""
  }

  /** `"<column> = $%d" % n`. */
  function Placeholder(column: string, n: nat): string
  {
    column + " = $" + NatToString(n)
  }

  /** The number written after the last `$` of a condition, if there is one. */
  function PlaceholderNumber(condition: string): Option<nat>
  {
    match LastIndexOf(condition, '$')
    case None => None
    case Some(i) =>
      var digits := condition[i + 1..];
      if digits != [] && AllDigits(digits) then Some(ParseNat(digits)) else None
  }

  /** Every placeholder reads back the number it was given, whatever the column name. */
  lemma PlaceholderNumberOf(column: string, n: nat)
    ensures PlaceholderNumber(Placeholder(column, n)) == Some(n)
  {
    var cond := Placeholder(column, n);
    var at := |column| + 3;
    var digits := NatToString(n);
    assert cond[at] == '$';
    assert cond[at + 1..] == digits;
    ParseNatToString(n);
  }

  /** `"timestamp >= NOW() - INTERVAL '%s hours'" % hours`, the condition every error-log query starts with. */
  function WindowCondition(hours: int): string
  {
    "timestamp >= NOW() - INTERVAL '" + IntToString(hours) + " hours'"
  }

  /** The filters `get_error_log` offers, in the order it tests them. */
  function ErrorLogCriteria(status: Option<string>, agentId: Option<string>): seq<Criterion>
  {
    [Criterion(STATUS_COLUMN, status), Criterion(AGENT_COLUMN, agentId)]
  }

  /** The filters `get_dpr_doctrine` offers, in the order it tests them. */
  function DoctrineCriteria(category: Option<string>, doctrineType: Option<string>,
                            enforcementLevel: Option<string>): seq<Criterion>
  {
    [Criterion(CATEGORY_COLUMN, category), Criterion(TYPE_COLUMN, doctrineType),
     Criterion(LEVEL_COLUMN, enforcementLevel)]
  }

  /**
   * The k-th applied criterion's condition sits at `offset + k`, uses
   * placeholder `$(k+1)`, and `params[k]` holds its value.
   */
  ghost predicate Numbered(conditions: seq<string>, offset: nat, params: seq<Param>, applied: seq<Criterion>)
  {
    && |conditions| == offset + |applied|
    && |params| >= |applied|
    && forall k :: 0 <= k < |applied| ==>
         && conditions[offset + k] == Placeholder(applied[k].column, k + 1)
         && params[k] == Text(ValueOf(applied[k]))
  }

  /**
   * One `if value: where_conditions.append(...); params.append(value)`
   * block: appends `c`'s condition and value when it is given, numbering
   * the placeholder from the current length of `params`. Given that the
   * criteria `done` before it were numbered, so are `done + [c]`.
   */
  method AddCriterion(conditions: seq<string>, params: seq<Param>, c: Criterion,
                      ghost offset: nat, ghost done: seq<Criterion>)
    returns (conditions': seq<string>, params': seq<Param>)
    requires Numbered(conditions, offset, params, Applied(done)) && |params| == |Applied(done)|
    ensures Numbered(conditions', offset, params', Applied(done + [c]))
    ensures |params'| == |Applied(done + [c])|
    ensures conditions <= conditions'
  {
    conditions', params' := conditions, params;
    if Given(c.value) {
      conditions' := conditions' + [Placeholder(c.column, |params'| + 1)];
      params' := params' + [Text(ValueOf(c))];
    }
    NumberedStep(conditions, offset, params, done, c, conditions', params');
  }

  lemma NumberedStep(conditions: seq<string>, offset: nat, params: seq<Param>,
                     criteria: seq<Criterion>, c: Criterion,
                     conditions': seq<string>, params': seq<Param>)
    requires Numbered(conditions, offset, params, Applied(criteria)) && |params| == |Applied(criteria)|
    requires Given(c.value) ==>
      && conditions' == conditions + [Placeholder(c.column, |params| + 1)]
      && params' == params + [Text(ValueOf(c))]
    requires !Given(c.value) ==> conditions' == conditions && params' == params
    ensures Numbered(conditions', offset, params', Applied(criteria + [c]))
    ensures |params'| == |Applied(criteria + [c])|
  {
    AppliedAppend(criteria, c);
    var a, a' := Applied(criteria), Applied(criteria + [c]);
    if Given(c.value) {
      forall k | 0 <= k < |a'|
        ensures conditions'[offset + k] == Placeholder(a'[k].column, k + 1)
        ensures params'[k] == Text(ValueOf(a'[k]))
      {
        if k < |a| {
          assert a'[k] == a[k];
        }
      }
    }
  }

  lemma AppliedAppend(criteria: seq<Criterion>, c: Criterion)
    ensures Applied(criteria + [c]) == Applied(criteria) + (if Given(c.value) then [c] else [])
  {
    assert (criteria + [c])[..|criteria|] == criteria;
  }

  /** Whatever placeholder a numbered condition carries is its position. */
  lemma NumberedReadsBack(conditions: seq<string>, offset: nat, params: seq<Param>, applied: seq<Criterion>)
    requires Numbered(conditions, offset, params, applied)
    ensures forall j :: offset <= j < |conditions| ==>
      && PlaceholderNumber(conditions[j]) == Some(j - offset + 1)
      && params[j - offset] == Text(ValueOf(applied[j - offset]))
  {
    forall j | offset <= j < |conditions|
      ensures PlaceholderNumber(conditions[j]) == Some(j - offset + 1)
    {
      PlaceholderNumberOf(applied[j - offset].column, j - offset + 1);
    }
  }

  /**
   * The WHERE clause and parameters of `get_error_log`: the time window
   * first, then `orbt_status` and `agent_id` when given, then the limit.
   */
  method ErrorLogQuery(hours: int, status: Option<string>, agentId: Option<string>, limit: int)
    returns (conditions: seq<string>, whereClause: string, params: seq<Param>)
    ensures |conditions| >= 1 && conditions[0] == WindowCondition(hours)
    ensures Numbered(conditions, 1, params, Applied(ErrorLogCriteria(status, agentId)))
    ensures |params| == |Applied(ErrorLogCriteria(status, agentId))| + 1 && params[|params| - 1] == Number(limit)
    ensures whereClause == Join(conditions, " AND ")
  {
    var status', agent := Criterion(STATUS_COLUMN, status), Criterion(AGENT_COLUMN, agentId);
    conditions, params := [WindowCondition(hours)], [];
    assert Numbered(conditions, 1, params, Applied([]));
    conditions, params := AddCriterion(conditions, params, status', 1, []);
    assert [] + [status'] == [status'];
    conditions, params := AddCriterion(conditions, params, agent, 1, [status']);
    assert [status'] + [agent] == ErrorLogCriteria(status, agentId);
    whereClause := Join(conditions, " AND ");
    params := params + [Number(limit)];
  }

  /**
   * The WHERE clause and parameters of `get_dpr_doctrine`: category,
   * doctrine type and enforcement level when given, "1=1" when none is,
   * then the limit.
   */
  method DoctrineQuery(category: Option<string>, doctrineType: Option<string>,
                       enforcementLevel: Option<string>, limit: int)
    returns (conditions: seq<string>, whereClause: string, params: seq<Param>)
    ensures Numbered(conditions, 0, params, Applied(DoctrineCriteria(category, doctrineType, enforcementLevel)))
    ensures |params| == |Applied(DoctrineCriteria(category, doctrineType, enforcementLevel))| + 1
    ensures params[|params| - 1] == Number(limit)
    ensures whereClause == if conditions == [] then "1=1" else Join(conditions, " AND ")
  {
    var cat, kind, level := Criterion(CATEGORY_COLUMN, category),
      Criterion(TYPE_COLUMN, doctrineType), Criterion(LEVEL_COLUMN, enforcementLevel);
    conditions, params := [], [];
    assert Numbered(conditions, 0, params, Applied([]));
    conditions, params := AddCriterion(conditions, params, cat, 0, []);
    assert [] + [cat] == [cat];
    conditions, params := AddCriterion(conditions, params, kind, 0, [cat]);
    assert [cat] + [kind] == [cat, kind];
    conditions, params := AddCriterion(conditions, params, level, 0, [cat, kind]);
    assert [cat, kind] + [level] == DoctrineCriteria(category, doctrineType, enforcementLevel);
    whereClause := if conditions == [] then "1=1" else Join(conditions, " AND ");
    params := params + [Number(limit)];
  }

  /** The doctrine filter is unconditional exactly when no filter value is given. */
  lemma DoctrineUnfilteredIffNothingGiven(category: Option<string>, doctrineType: Option<string>,
                                         enforcementLevel: Option<string>)
    ensures Applied(DoctrineCriteria(category, doctrineType, enforcementLevel)) == []
      <==> !Given(category) && !Given(doctrineType) && !Given(enforcementLevel)
  {
    var cat, kind, level := Criterion(CATEGORY_COLUMN, category),
      Criterion(TYPE_COLUMN, doctrineType), Criterion(LEVEL_COLUMN, enforcementLevel);
    AppliedAppend([], cat);
    AppliedAppend([cat], kind);
    AppliedAppend([cat, kind], level);
    assert [] + [cat] == [cat] && [cat] + [kind] == [cat, kind];
    assert [cat, kind] + [level] == DoctrineCriteria(category, doctrineType, enforcementLevel);
  }
}
