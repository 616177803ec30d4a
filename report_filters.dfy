/** The report filters: a query builder that the `apply*Filter` helpers
    extend in place with `where` conditions, and what those conditions mean
    on a list of records held in memory. */
module ReportFilters {
  import opened Prelude
  import opened Calendar

  /** A row the report queries read: the employee's user id, the profile
      the record belongs to (its branch and department ids), the status,
      and the date columns that are not null. */
  datatype Profile = Profile(branchId: Option<string>, departmentId: Option<string>)

  datatype Row = Row(employeeId: string, profile: Option<Profile>, status: Option<string>,
                     dates: map<string, Date>)

  /** The request's report filters. Ids and the status are the raw inputs;
      dates are the ones the inputs name (None for an empty input). */
  datatype Filters = Filters(employeeId: Option<string>, branchId: Option<string>,
                             departmentId: Option<string>, status: Option<string>,
                             dateFrom: Option<Date>, dateTo: Option<Date>)

  /** `$request->filled($key)`: present and not only white space. */
  predicate Filled(v: Option<string>)
    ensures Filled(v) <==> v.Some? && exists k :: 0 <= k < |v.value| && !IsTrimChar(v.value[k])
  {
    v.Some? && Trim(v.value) != ""
  }

  /** One `where` of the builder. A null column fails every comparison. */
  datatype Condition =
    | EmployeeIs(employeeId: string)
    | ProfileBranchIs(branchId: string)
    | ProfileDepartmentIs(departmentId: string)
    | DateOnOrAfter(column: string, bound: Date)
    | DateOnOrBefore(column: string, bound: Date)
    | StatusIs(status: string)

  predicate Holds(c: Condition, r: Row) {
    match c
    case EmployeeIs(id) => r.employeeId == id
    case ProfileBranchIs(id) => r.profile.Some? && r.profile.value.branchId == Some(id)
    case ProfileDepartmentIs(id) => r.profile.Some? && r.profile.value.departmentId == Some(id)
    case DateOnOrAfter(column, bound) => column in r.dates && DateLe(bound, r.dates[column])
    case DateOnOrBefore(column, bound) => column in r.dates && DateLe(r.dates[column], bound)
    case StatusIs(s) => r.status == Some(s)
  }

  /** The conditions are joined by AND. */
  predicate Satisfies(cs: seq<Condition>, r: Row) {
    forall k :: 0 <= k < |cs| ==> Holds(cs[k], r)
  }

  lemma SatisfiesAppend(cs: seq<Condition>, more: seq<Condition>, r: Row)
    ensures Satisfies(cs + more, r) <==> Satisfies(cs, r) && Satisfies(more, r)
  {
    if Satisfies(cs, r) && Satisfies(more, r) {
      forall k | 0 <= k < |cs + more| ensures Holds((cs + more)[k], r) {
        if k >= |cs| {
          assert (cs + more)[k] == more[k - |cs|];
        }
      }
    }
    if Satisfies(cs + more, r) {
      forall k | 0 <= k < |cs| ensures Holds(cs[k], r) {
        assert (cs + more)[k] == cs[k];
      }
      forall k | 0 <= k < |more| ensures Holds(more[k], r) {
        assert (cs + more)[|cs| + k] == more[k];
      }
    }
  }

  /** idx lists, in increasing order, the positions of exactly the rows
      that satisfy every condition, and out holds those rows in that
      order. */
  ghost predicate SelectedAt(cs: seq<Condition>, rows: seq<Row>, out: seq<Row>, idx: seq<nat>) {
    RowsAt(rows, out, idx) && Increasing(idx) && PositionsKept(cs, rows, idx)
  }

  /** out holds the rows at the positions idx. */
  ghost predicate RowsAt(rows: seq<Row>, out: seq<Row>, idx: seq<nat>) {
    |idx| == |out| && forall j :: 0 <= j < |idx| ==> idx[j] < |rows| && out[j] == rows[idx[j]]
  }

  ghost predicate Increasing(idx: seq<nat>) {
    forall j, k :: 0 <= j < k < |idx| ==> idx[j] < idx[k]
  }

  /** idx holds the positions of exactly the rows that satisfy cs. */
  ghost predicate PositionsKept(cs: seq<Condition>, rows: seq<Row>, idx: seq<nat>) {
    forall i :: 0 <= i < |rows| ==> (i in idx <==> Satisfies(cs, rows[i]))
  }

  /** The rows a list of conditions keeps, in their order. */
  function Select(cs: seq<Condition>, rows: seq<Row>): (out: seq<Row>)
    ensures |out| <= |rows|
    ensures forall r :: r in out <==> r in rows && Satisfies(cs, r)
    ensures exists idx :: SelectedAt(cs, rows, out, idx)
  {
    if rows == [] then
      assert SelectedAt(cs, rows, [], []);
      []
    else
      var rest := Select(cs, rows[1..]);
      assert rows == [rows[0]] + rows[1..];
      var out := if Satisfies(cs, rows[0]) then [rows[0]] + rest else rest;
      SelectedCons(cs, rows, rows[1..], rest, out);
      out
  }

  /** The selection of the rest, with the first row in front when it is
      kept, is a selection of the whole. */
  lemma SelectedCons(cs: seq<Condition>, rows: seq<Row>, tail: seq<Row>, rest: seq<Row>, out: seq<Row>)
    requires rows != [] && tail == rows[1..] && exists idx' :: SelectedAt(cs, tail, rest, idx')
    requires out == if Satisfies(cs, rows[0]) then [rows[0]] + rest else rest
    ensures exists idx :: SelectedAt(cs, rows, out, idx)
  {
    var idx' :| SelectedAt(cs, tail, rest, idx');
    var idx := (if Satisfies(cs, rows[0]) then [0] else []) + Shifted(idx');
    RowsAtCons(rows, Satisfies(cs, rows[0]), rest, idx');
    IncreasingCons(Satisfies(cs, rows[0]), idx');
    PositionsKeptCons(cs, rows, idx');
    assert SelectedAt(cs, rows, out, idx);
  }

  /** Every position one further on. */
  function Shifted(idx: seq<nat>): (r: seq<nat>)
    ensures |r| == |idx| && forall j :: 0 <= j < |idx| ==> r[j] == idx[j] + 1
  {
    seq(|idx|, j requires 0 <= j < |idx| => idx[j] + 1)
  }

  /** The rows at the positions of the rest are at the shifted positions of
      the whole, after the first row when it is kept. */
  lemma RowsAtCons(rows: seq<Row>, keep: bool, rest: seq<Row>, idx': seq<nat>)
    requires rows != [] && RowsAt(rows[1..], rest, idx')
    ensures RowsAt(rows, if keep then [rows[0]] + rest else rest,
                   (if keep then [0] else []) + Shifted(idx'))
  {
    var idx := (if keep then [0] else []) + Shifted(idx');
    var out := if keep then [rows[0]] + rest else rest;
    var o := if keep then 1 else 0;
    forall j | 0 <= j < |idx|
      ensures idx[j] < |rows| && out[j] == rows[idx[j]]
    {
      if j >= o {
        assert idx[j] == idx'[j - o] + 1 && out[j] == rest[j - o];
        assert rest[j - o] == rows[1..][idx'[j - o]];
      }
    }
  }

  lemma IncreasingCons(keep: bool, idx': seq<nat>)
    requires Increasing(idx')
    ensures Increasing((if keep then [0] else []) + Shifted(idx'))
  {
    var idx := (if keep then [0] else []) + Shifted(idx');
    var o := if keep then 1 else 0;
    forall j, k | 0 <= j < k < |idx|
      ensures idx[j] < idx[k]
    {
      assert idx[k] == idx'[k - o] + 1;
      if j >= o {
        assert idx[j] == idx'[j - o] + 1;
      }
    }
  }

  lemma PositionsKeptCons(cs: seq<Condition>, rows: seq<Row>, idx': seq<nat>)
    requires rows != [] && PositionsKept(cs, rows[1..], idx')
    ensures PositionsKept(cs, rows, (if Satisfies(cs, rows[0]) then [0] else []) + Shifted(idx'))
  {
    var shifted := Shifted(idx');
    var idx := (if Satisfies(cs, rows[0]) then [0] else []) + shifted;
    forall i | 0 <= i < |rows|
      ensures i in idx <==> Satisfies(cs, rows[i])
    {
      if i == 0 {
        assert 0 !in shifted;
      } else {
        assert rows[i] == rows[1..][i - 1];
        if i - 1 in idx' {
          var j :| 0 <= j < |idx'| && idx'[j] == i - 1;
          assert shifted[j] == i;
        }
        if i in shifted {
          var j :| 0 <= j < |shifted| && shifted[j] == i;
          assert idx'[j] == i - 1;
        }
      }
    }
  }

  /** The builder, with the conditions added so far. */
  class Query {
    var conditions: seq<Condition>

    constructor ()
      ensures conditions == []
    {
      conditions := [];
    }

    predicate Matches(r: Row)
      reads this
    {
      Satisfies(conditions, r)
    }

    /** `get()`: the rows the query keeps. */
    function Results(rows: seq<Row>): seq<Row>
      reads this
    {
      Select(conditions, rows)
    }

    method Where(c: Condition)
      modifies this
      ensures conditions == old(conditions) + [c]
    {
      conditions := conditions + [c];
    }
  }

  // ---------------------------------------------------------------------
  // The conditions each helper adds

  function EmployeeConditions(f: Filters): seq<Condition> {
    (if Filled(f.employeeId) then [EmployeeIs(f.employeeId.value)] else [])
    + (if Filled(f.branchId) then [ProfileBranchIs(f.branchId.value)] else [])
    + (if Filled(f.departmentId) then [ProfileDepartmentIs(f.departmentId.value)] else [])
  }

  function DateConditions(column: string, dateFrom: Option<Date>, dateTo: Option<Date>): seq<Condition> {
    (if dateFrom.Some? then [DateOnOrAfter(column, dateFrom.value)] else [])
    + (if dateTo.Some? then [DateOnOrBefore(column, dateTo.value)] else [])
  }

  function LeaveDateConditions(dateFrom: Option<Date>, dateTo: Option<Date>): seq<Condition> {
    (if dateFrom.Some? then [DateOnOrAfter("start_date", dateFrom.value)] else [])
    + (if dateTo.Some? then [DateOnOrBefore("end_date", dateTo.value)] else [])
  }

  function StatusConditions(status: Option<string>): seq<Condition> {
    if Filled(status) && status.value != "all" then [StatusIs(status.value)] else []
  }

  /** applyEmployeeFilters. */
  method ApplyEmployeeFilters(q: Query, f: Filters)
    modifies q
    ensures q.conditions == old(q.conditions) + EmployeeConditions(f)
  {
    if Filled(f.employeeId) {
      q.Where(EmployeeIs(f.employeeId.value));
    }
    if Filled(f.branchId) {
      q.Where(ProfileBranchIs(f.branchId.value));
    }
    if Filled(f.departmentId) {
      q.Where(ProfileDepartmentIs(f.departmentId.value));
    }
  }

  /** applyDateFilter on the given column. */
  method ApplyDateFilter(q: Query, f: Filters, column: string)
    modifies q
    ensures q.conditions == old(q.conditions) + DateConditions(column, f.dateFrom, f.dateTo)
  {
    if f.dateFrom.Some? {
      q.Where(DateOnOrAfter(column, f.dateFrom.value));
    }
    if f.dateTo.Some? {
      q.Where(DateOnOrBefore(column, f.dateTo.value));
    }
  }

  /** applyLeaveDateFilters: the start date against the lower bound, the
      end date against the upper. */
  method ApplyLeaveDateFilters(q: Query, f: Filters)
    modifies q
    ensures q.conditions == old(q.conditions) + LeaveDateConditions(f.dateFrom, f.dateTo)
  {
    if f.dateFrom.Some? {
      q.Where(DateOnOrAfter("start_date", f.dateFrom.value));
    }
    if f.dateTo.Some? {
      q.Where(DateOnOrBefore("end_date", f.dateTo.value));
    }
  }

  /** The status filter of the leave report (and of the other reports
      with a status select). */
  method ApplyStatusFilter(q: Query, f: Filters)
    modifies q
    ensures q.conditions == old(q.conditions) + StatusConditions(f.status)
  {
    if Filled(f.status) && f.status.value != "all" {
      q.Where(StatusIs(f.status.value));
    }
  }

  // ---------------------------------------------------------------------
  // What the conditions mean

  /** A row passes the date filter iff its column is on or after date_from
      when one is given and on or before date_to when one is given. */
  lemma DateFilterMeaning(column: string, dateFrom: Option<Date>, dateTo: Option<Date>, r: Row)
    ensures Satisfies(DateConditions(column, dateFrom, dateTo), r)
            <==> (dateFrom.Some? ==> column in r.dates && DateLe(dateFrom.value, r.dates[column]))
                 && (dateTo.Some? ==> column in r.dates && DateLe(r.dates[column], dateTo.value))
  {
    var lower := if dateFrom.Some? then [DateOnOrAfter(column, dateFrom.value)] else [];
    var upper := if dateTo.Some? then [DateOnOrBefore(column, dateTo.value)] else [];
    SatisfiesAppend(lower, upper, r);
    if dateFrom.Some? {
      assert lower[0] == DateOnOrAfter(column, dateFrom.value);
    }
    if dateTo.Some? {
      assert upper[0] == DateOnOrBefore(column, dateTo.value);
    }
  }

  /** A row passes the leave filter iff the leave starts on or after
      date_from and ends on or before date_to, each when given. */
  lemma LeaveDateFilterMeaning(dateFrom: Option<Date>, dateTo: Option<Date>, r: Row)
    ensures Satisfies(LeaveDateConditions(dateFrom, dateTo), r)
            <==> (dateFrom.Some? ==> "start_date" in r.dates && DateLe(dateFrom.value, r.dates["start_date"]))
                 && (dateTo.Some? ==> "end_date" in r.dates && DateLe(r.dates["end_date"], dateTo.value))
  {
    var lower := if dateFrom.Some? then [DateOnOrAfter("start_date", dateFrom.value)] else [];
    var upper := if dateTo.Some? then [DateOnOrBefore("end_date", dateTo.value)] else [];
    SatisfiesAppend(lower, upper, r);
    if dateFrom.Some? {
      assert lower[0] == DateOnOrAfter("start_date", dateFrom.value);
    }
    if dateTo.Some? {
      assert upper[0] == DateOnOrBefore("end_date", dateTo.value);
    }
  }

  /** No date given, no date condition. */
  lemma NoDatesNoFilter(column: string)
    ensures DateConditions(column, None, None) == [] && LeaveDateConditions(None, None) == []
  {
  }

  /** A status of 'all' or an empty one keeps every row; any other keeps
      exactly the rows with that status. */
  lemma StatusFilterMeaning(status: Option<string>, r: Row)
    ensures !Filled(status) || status.value == "all" ==> Satisfies(StatusConditions(status), r)
    ensures Filled(status) && status.value != "all" ==>
              (Satisfies(StatusConditions(status), r) <==> r.status == status)
  {
    if Filled(status) && status.value != "all" {
      assert StatusConditions(status)[0] == StatusIs(status.value);
    }
  }

  /** A row passes the employee filters iff it belongs to the filled
      employee and its profile has the filled branch and department. */
  lemma EmployeeFilterMeaning(f: Filters, r: Row)
    ensures Satisfies(EmployeeConditions(f), r)
            <==> (Filled(f.employeeId) ==> r.employeeId == f.employeeId.value)
                 && (Filled(f.branchId) ==> r.profile.Some? && r.profile.value.branchId == f.branchId)
                 && (Filled(f.departmentId) ==> r.profile.Some? && r.profile.value.departmentId == f.departmentId)
  {
    var a := if Filled(f.employeeId) then [EmployeeIs(f.employeeId.value)] else [];
    var b := if Filled(f.branchId) then [ProfileBranchIs(f.branchId.value)] else [];
    var c := if Filled(f.departmentId) then [ProfileDepartmentIs(f.departmentId.value)] else [];
    SatisfiesAppend(a, b, r);
    SatisfiesAppend(a + b, c, r);
    if Filled(f.employeeId) {
      assert a[0] == EmployeeIs(f.employeeId.value);
    }
    if Filled(f.branchId) {
      assert b[0] == ProfileBranchIs(f.branchId.value);
    }
    if Filled(f.departmentId) {
      assert c[0] == ProfileDepartmentIs(f.departmentId.value);
    }
  }

  /** The leave report's query: the employee filters, the leave dates and
      the status, in that order; the rows it keeps are those that pass all
      three. */
  method LeaveReportQuery(f: Filters) returns (q: Query)
    ensures fresh(q)
    ensures q.conditions == EmployeeConditions(f) + LeaveDateConditions(f.dateFrom, f.dateTo) + StatusConditions(f.status)
  {
    q := new Query();
    ApplyEmployeeFilters(q, f);
    ApplyLeaveDateFilters(q, f);
    ApplyStatusFilter(q, f);
  }

  lemma LeaveReportRows(f: Filters, r: Row)
    ensures Satisfies(EmployeeConditions(f) + LeaveDateConditions(f.dateFrom, f.dateTo) + StatusConditions(f.status), r)
            <==> Satisfies(EmployeeConditions(f), r)
                 && Satisfies(LeaveDateConditions(f.dateFrom, f.dateTo), r)
                 && Satisfies(StatusConditions(f.status), r)
  {
    SatisfiesAppend(EmployeeConditions(f), LeaveDateConditions(f.dateFrom, f.dateTo), r);
    SatisfiesAppend(EmployeeConditions(f) + LeaveDateConditions(f.dateFrom, f.dateTo), StatusConditions(f.status), r);
  }
}
