/**
 * Forum activities: the argument check of createActivityDB and the filtered
 * COUNT query of getActivityCountDB, whose text grows by one clause and one
 * parameter for each truthy filter.
 */
module ForumActivity {
  import opened Wrappers
  import opened Strings
  import opened Json

  const MissingParameters := "Missing required parameters"
  const UserIdRequired := "User ID is required"
  const TypeRequired := "Activity type is required"
  const ActivityIdRequired := "Activity ID is required"
  const TargetRequired := "Target type and ID are required"
  const CountBase := "SELECT COUNT(*) as total FROM forum_activities WHERE 1=1"

  /** The recognised filters and their columns, in the order the code tests them. */
  const FilterColumns: seq<(string, string)> :=
    [("userId", "user_id"), ("type", "activity_type"), ("targetType", "target_type"), ("targetId", "target_id")]

  function Clause(column: string): string {
    " AND " + column + " = ?"
  }

  /** The query text and parameters for the filters listed in `columns`,
      appended in list order: a reference definition independent of the four
      ifs. */
  function Clauses(filters: Fields, columns: seq<(string, string)>): (string, seq<Value>) {
    if columns == [] then ("", [])
    else
      var init := Clauses(filters, columns[..|columns| - 1]);
      var last := columns[|columns| - 1];
      var v := Get(filters, last.0);
      if JsTruthy(v) then (init.0 + Clause(last.1), init.1 + [v]) else init
  }

  /** One more filter of the list: its clause and value go at the end. */
  lemma ClausesStep(filters: Fields, k: nat)
    requires k < |FilterColumns|
    ensures var init := Clauses(filters, FilterColumns[..k]);
      var v := Get(filters, FilterColumns[k].0);
      Clauses(filters, FilterColumns[..k + 1]) ==
        (if JsTruthy(v) then (init.0 + Clause(FilterColumns[k].1), init.1 + [v]) else init)
  {
    assert FilterColumns[..k + 1][..k] == FilterColumns[..k];
  }

  /** One `if (filters.x) { sql += ...; params.push(filters.x); }` step, for
      the k-th filter of the list. */
  method AppendFilter(filters: Fields, k: nat, sql: string, params: seq<Value>) returns (sql': string, params': seq<Value>)
    requires k < |FilterColumns|
    requires sql == CountBase + Clauses(filters, FilterColumns[..k]).0 && params == Clauses(filters, FilterColumns[..k]).1
    ensures sql' == CountBase + Clauses(filters, FilterColumns[..k + 1]).0 && params' == Clauses(filters, FilterColumns[..k + 1]).1
  {
    var (key, column) := FilterColumns[k];
    ClausesStep(filters, k);
    sql', params' := sql, params;
    if JsTruthy(Get(filters, key)) {
      var prefix := Clauses(filters, FilterColumns[..k]).0;
      assert (CountBase + prefix) + Clause(column) == CountBase + (prefix + Clause(column));
      sql' := sql' + Clause(column);
      params' := params' + [Get(filters, key)];
    }
  }

  /** The SQL and params of getActivityCountDB: the userId, type, targetType
      and targetId steps in that order. */
  method BuildActivityCount(filters: Fields) returns (sql: string, params: seq<Value>)
    ensures sql == CountBase + Clauses(filters, FilterColumns).0
    ensures params == Clauses(filters, FilterColumns).1
    ensures CountChar(Clauses(filters, FilterColumns).0, '?') == |params|
  {
    sql := CountBase;
    params := [];
    assert FilterColumns[..0] == [];
    sql, params := AppendFilter(filters, 0, sql, params);
    sql, params := AppendFilter(filters, 1, sql, params);
    sql, params := AppendFilter(filters, 2, sql, params);
    sql, params := AppendFilter(filters, 3, sql, params);
    assert FilterColumns[..4] == FilterColumns;
    PlaceholdersMatchParams(filters, 4);
  }

  /** A clause carries exactly one placeholder. */
  lemma ClausePlaceholder(column: string)
    requires '?' !in column
    ensures CountChar(Clause(column), '?') == 1
  {
    CountCharAbsent(" AND " + column, '?');
    CountCharConcat(" AND " + column, " = ?", '?');
    assert CountChar(" = ?", '?') == 1 by {
      assert " = ?"[1..][1..][1..][1..] == [];
    }
  }

  /** The query text holds one placeholder per parameter. */
  lemma {:induction false} PlaceholdersMatchParams(filters: Fields, n: nat)
    requires n <= |FilterColumns|
    ensures CountChar(Clauses(filters, FilterColumns[..n]).0, '?') == |Clauses(filters, FilterColumns[..n]).1|
  {
    if n == 0 {
      assert FilterColumns[..0] == [];
    } else {
      PlaceholdersMatchParams(filters, n - 1);
      ClausesStep(filters, n - 1);
      var col := FilterColumns[n - 1].1;
      assert '?' !in col;
      ClausePlaceholder(col);
      CountCharConcat(Clauses(filters, FilterColumns[..n - 1]).0, Clause(col), '?');
    }
  }

  /** The query depends only on the values of the four filter keys. */
  lemma {:induction false} OnlyFilterKeysMatter(f: Fields, g: Fields, n: nat)
    requires n <= |FilterColumns|
    requires forall i :: 0 <= i < n ==> Get(f, FilterColumns[i].0) == Get(g, FilterColumns[i].0)
    ensures Clauses(f, FilterColumns[..n]) == Clauses(g, FilterColumns[..n])
  {
    if n == 0 {
      assert FilterColumns[..0] == [];
    } else {
      OnlyFilterKeysMatter(f, g, n - 1);
      ClausesStep(f, n - 1);
      ClausesStep(g, n - 1);
    }
  }

  /** With no truthy filter the query is the bare count without parameters. */
  lemma {:induction false} NoTruthyFilterBareQuery(filters: Fields, n: nat)
    requires n <= |FilterColumns|
    requires forall i :: 0 <= i < n ==> !JsTruthy(Get(filters, FilterColumns[i].0))
    ensures Clauses(filters, FilterColumns[..n]) == ("", [])
  {
    if n == 0 {
      assert FilterColumns[..0] == [];
    } else {
      NoTruthyFilterBareQuery(filters, n - 1);
      ClausesStep(filters, n - 1);
    }
  }

  /** No filters, or only the `{ id }` object the controllers pass: the bare query. */
  lemma NoFiltersBareQuery(v: Value)
    ensures Clauses(map[], FilterColumns) == ("", [])
    ensures Clauses(map["id" := v], FilterColumns) == ("", [])
  {
    assert FilterColumns[..4] == FilterColumns;
    NoTruthyFilterBareQuery(map[], 4);
    NoTruthyFilterBareQuery(map["id" := v], 4);
  }

  /** A key other than the four filters changes nothing. */
  lemma UnknownKeysIgnored(filters: Fields, k: string, v: Value)
    requires k !in ["userId", "type", "targetType", "targetId"]
    ensures Clauses(filters[k := v], FilterColumns) == Clauses(filters, FilterColumns)
  {
    assert FilterColumns[..4] == FilterColumns;
    OnlyFilterKeysMatter(filters[k := v], filters, 4);
  }

  /** A falsy filter value adds nothing, whichever filter it is. */
  lemma FalsyFilterIgnored(filters: Fields, k: string, v: Value)
    requires !JsTruthy(v) && !JsTruthy(Get(filters, k))
    ensures Clauses(filters[k := v], FilterColumns) == Clauses(filters, FilterColumns)
  {
    assert FilterColumns[..4] == FilterColumns;
    var f := filters[k := v];
    forall i | 0 <= i < 4 ensures JsTruthy(Get(f, FilterColumns[i].0)) == JsTruthy(Get(filters, FilterColumns[i].0)) {
    }
    TruthinessOnlyMatters(f, filters, 4);
  }

  /** The clauses depend only on which filters are truthy, the values aside. */
  lemma {:induction false} TruthinessOnlyMatters(f: Fields, g: Fields, n: nat)
    requires n <= |FilterColumns|
    requires forall i :: 0 <= i < n ==> JsTruthy(Get(f, FilterColumns[i].0)) == JsTruthy(Get(g, FilterColumns[i].0))
    requires forall i :: 0 <= i < n && JsTruthy(Get(f, FilterColumns[i].0)) ==> Get(f, FilterColumns[i].0) == Get(g, FilterColumns[i].0)
    ensures Clauses(f, FilterColumns[..n]) == Clauses(g, FilterColumns[..n])
  {
    if n == 0 {
      assert FilterColumns[..0] == [];
    } else {
      TruthinessOnlyMatters(f, g, n - 1);
      ClausesStep(f, n - 1);
      ClausesStep(g, n - 1);
    }
  }

  /** createActivityDB's argument check: every argument must be truthy. */
  function CreateActivityCheck(userId: Value, activityType: Value, targetType: Value, targetId: Value): (r: Option<string>)
    ensures r.None? <==> JsTruthy(userId) && JsTruthy(activityType) && JsTruthy(targetType) && JsTruthy(targetId)
    ensures r.Some? ==> r.value == MissingParameters
  {
    if !JsTruthy(userId) || !JsTruthy(activityType) || !JsTruthy(targetType) || !JsTruthy(targetId) then Some(MissingParameters)
    else None
  }

  /** The read and delete functions whose first lines check their arguments. */
  datatype Guarded =
    | ForumActivityByUser
    | ActivitiesByUserId
    | ActivitiesByUserAndType
    | ActivitiesByType
    | DeleteActivityById
    | ActivitiesByTarget
    | ActivityStatsByUserId

  /** The argument check of each guarded function, on its leading arguments
      (`second` is read only by the two-argument checks): the message thrown,
      or None when the query goes ahead. */
  function GuardMessage(op: Guarded, first: Value, second: Value): (r: Option<string>)
    ensures r.None? <==> JsTruthy(first) && (op == ActivitiesByUserAndType || op == ActivitiesByTarget ==> JsTruthy(second))
    ensures r.Some? && (op == ForumActivityByUser || op == ActivitiesByUserId || op == ActivityStatsByUserId) ==>
      r.value == UserIdRequired
    ensures r.Some? && op == ActivitiesByUserAndType ==> r.value == (if JsTruthy(first) then TypeRequired else UserIdRequired)
    ensures r.Some? && op == ActivitiesByType ==> r.value == TypeRequired
    ensures r.Some? && op == DeleteActivityById ==> r.value == ActivityIdRequired
    ensures r.Some? && op == ActivitiesByTarget ==> r.value == TargetRequired
  {
    match op
    case ForumActivityByUser => if !JsTruthy(first) then Some(UserIdRequired) else None
    case ActivitiesByUserId => if !JsTruthy(first) then Some(UserIdRequired) else None
    case ActivitiesByUserAndType =>
      if !JsTruthy(first) then Some(UserIdRequired)
      else if !JsTruthy(second) then Some(TypeRequired)
      else None
    case ActivitiesByType => if !JsTruthy(first) then Some(TypeRequired) else None
    case DeleteActivityById => if !JsTruthy(first) then Some(ActivityIdRequired) else None
    case ActivitiesByTarget => if !JsTruthy(first) || !JsTruthy(second) then Some(TargetRequired) else None
    case ActivityStatsByUserId => if !JsTruthy(first) then Some(UserIdRequired) else None
  }
}
