/** The per-row helpers of the employee CSV import: the fixed column table,
    header and cell sanitising, blank-row detection, mapping cells to column
    names, tenant-scoped reference resolution, gender and status
    normalisation, the status toggle, the plan quota seed and the import
    template's rows. */
module ImportRows {
  import opened Prelude
  import opened Calendar
  import opened PhpNumeric

  // ---------------------------------------------------------------------
  // The column table

  datatype ColumnSpec = ColumnSpec(name: string, required: bool)

  const AllColumnNames: seq<string> := [
    "employee_id", "name", "date_of_birth", "gender", "branch_id", "department_id",
    "designation_id", "shift_id", "date_of_joining", "employment_type",
    "employment_status", "status", "national_id"
  ]

  /** getEmployeeImportColumns: the names above, each marked required. */
  function ImportColumns(): (t: seq<ColumnSpec>)
    ensures |t| == |AllColumnNames|
    ensures forall k :: 0 <= k < |t| ==> t[k] == ColumnSpec(AllColumnNames[k], true)
  {
    seq(|AllColumnNames|, k requires 0 <= k < |AllColumnNames| => ColumnSpec(AllColumnNames[k], true))
  }

  /** array_keys of the column table. */
  function ColumnNames(table: seq<ColumnSpec>): (r: seq<string>)
    ensures |r| == |table|
    ensures forall k :: 0 <= k < |table| ==> r[k] == table[k].name
  {
    seq(|table|, k requires 0 <= k < |table| => table[k].name)
  }

  /** array_keys(array_filter(table, required)): the required names, in order. */
  function RequiredNames(table: seq<ColumnSpec>): (r: seq<string>)
    ensures |r| <= |table|
    ensures forall c :: c in r <==> exists k :: 0 <= k < |table| && table[k].name == c && table[k].required
  {
    if table == [] then []
    else
      var rest := RequiredNames(table[1..]);
      assert forall k :: 1 <= k < |table| ==> table[k] == table[1..][k - 1];
      if table[0].required then [table[0].name] + rest else rest
  }

  /** With every flag set, the required names are all the names. */
  lemma {:induction false} RequiredWhenAllFlagged(table: seq<ColumnSpec>)
    requires forall k :: 0 <= k < |table| ==> table[k].required
    ensures RequiredNames(table) == ColumnNames(table)
  {
    if table != [] {
      RequiredWhenAllFlagged(table[1..]);
      assert ColumnNames(table) == [table[0].name] + ColumnNames(table[1..]);
    }
  }

  /** Every configured column is required, shift_id and status included. */
  lemma AllColumnsRequired()
    ensures ColumnNames(ImportColumns()) == AllColumnNames
    ensures RequiredNames(ImportColumns()) == AllColumnNames
    ensures |AllColumnNames| == 13 && "shift_id" in AllColumnNames && "status" in AllColumnNames
  {
    NamesOfImportColumns();
    RequiredWhenAllFlagged(ImportColumns());
    ShiftAndStatusListed();
  }

  lemma NamesOfImportColumns()
    ensures ColumnNames(ImportColumns()) == AllColumnNames
  {
  }

  lemma ShiftAndStatusListed()
    ensures |AllColumnNames| == 13 && "shift_id" in AllColumnNames && "status" in AllColumnNames
  {
    assert AllColumnNames[7] == "shift_id" && AllColumnNames[11] == "status";
  }

  function RequiredColumns(): (r: seq<string>)
    ensures r == AllColumnNames
  {
    AllColumnsRequired();
    RequiredNames(ImportColumns())
  }

  // ---------------------------------------------------------------------
  // Sanitising

  const ByteOrderMark: char := '\U{FEFF}'

  /** sanitizeHeaderValue: every U+FEFF removed, then trimmed, then lower-cased. */
  function SanitizeHeader(v: string): (r: string)
    ensures exists a, b :: TrimmedAt(RemoveChar(v, ByteOrderMark), a, b)
                           && r == Lower(RemoveChar(v, ByteOrderMark)[a..b])
    ensures ByteOrderMark !in r
    ensures r == [] || (!IsTrimChar(r[0]) && !IsTrimChar(r[|r| - 1]))
    ensures forall k :: 0 <= k < |r| ==> !IsAsciiUpper(r[k])
  {
    var u := RemoveChar(v, ByteOrderMark);
    var t := Trim(u);
    assert ByteOrderMark !in u;
    LowerKeepsBounds(t);
    Lower(t)
  }

  /** Lower-casing adds no byte-order mark and keeps non-trim ends. */
  lemma LowerKeepsBounds(t: string)
    ensures ByteOrderMark in Lower(t) ==> ByteOrderMark in t
    ensures t == [] || (!IsTrimChar(t[0]) && !IsTrimChar(t[|t| - 1])) ==>
              Lower(t) == [] || (!IsTrimChar(Lower(t)[0]) && !IsTrimChar(Lower(t)[|t| - 1]))
    ensures forall k :: 0 <= k < |t| ==> !IsAsciiUpper(Lower(t)[k])
  {
    LowerHasNoUpper(t);
  }

  /** A header cell reads as the lower-cased name it holds, whatever
      byte-order marks it carries anywhere and whatever trim characters
      surround the name. */
  lemma SanitizeHeaderReadsName(v: string, pre: string, name: string, post: string)
    requires RemoveChar(v, ByteOrderMark) == pre + name + post
    requires forall k :: 0 <= k < |pre| ==> IsTrimChar(pre[k])
    requires forall k :: 0 <= k < |post| ==> IsTrimChar(post[k])
    requires name != [] && !IsTrimChar(name[0]) && !IsTrimChar(name[|name| - 1])
    ensures SanitizeHeader(v) == Lower(name)
  {
    TrimPadding(pre, name, post);
  }

  /** An exported header with a byte-order mark, padding and a capital
      still names the name column. */
  lemma SanitizeHeaderExample()
    ensures SanitizeHeader("\U{FEFF} Name\t") == "name"
  {
    MarkRemoved();
    SanitizeHeaderReadsName("\U{FEFF} Name\t", " ", "Name", "\t");
    LowerName();
  }

  lemma MarkRemoved()
    ensures RemoveChar("\U{FEFF} Name\t", ByteOrderMark) == " " + "Name" + "\t"
  {
    var rest := " " + "Name" + "\t";
    assert "\U{FEFF} Name\t" == [ByteOrderMark] + rest;
    RemoveCharAppend([ByteOrderMark], rest, ByteOrderMark);
    assert RemoveChar([ByteOrderMark], ByteOrderMark) == [];
    assert forall k :: 0 <= k < |rest| ==> rest[k] != ByteOrderMark;
  }

  lemma LowerName()
    ensures Lower("Name") == "name"
  {
    var lowered := Lower("Name");
    assert lowered[0] == 'n' && lowered[1] == 'a' && lowered[2] == 'm' && lowered[3] == 'e';
  }

  /** A sanitised header cell is a fixed point of sanitising. */
  lemma SanitizeHeaderIdempotent(v: string)
    ensures SanitizeHeader(SanitizeHeader(v)) == SanitizeHeader(v)
  {
    var h := SanitizeHeader(v);
    assert RemoveChar(h, ByteOrderMark) == h;
    TrimUnchanged(h);
    assert Lower(h) == h;
  }

  /** The header of every row, cell by cell (array_map). */
  function SanitizeHeaders(row: seq<string>): (h: seq<string>)
    ensures |h| == |row|
    ensures forall k :: 0 <= k < |row| ==> h[k] == SanitizeHeader(row[k])
  {
    seq(|row|, k requires 0 <= k < |row| => SanitizeHeader(row[k]))
  }

  /** sanitizeCellValue: a cell is trimmed, and a cell that trims to ''
      becomes absent; the result is never the empty string. */
  function SanitizeCell(v: Option<string>): (r: Option<string>)
    ensures r != Some("")
    ensures r.None? <==> (v.None? || Trim(v.value) == "")
    ensures r.Some? ==> r.value == Trim(v.value)
  {
    match v
    case None => None
    case Some(s) => if Trim(s) == "" then None else Some(Trim(s))
  }

  lemma SanitizeCellIdempotent(v: Option<string>)
    ensures SanitizeCell(SanitizeCell(v)) == SanitizeCell(v)
  {
    if v.Some? { TrimIdempotent(v.value); }
  }

  predicate BlankCell(s: string) {
    Trim(s) == ""
  }

  /** The specification of isRowEmpty: every cell trims to ''. */
  predicate RowIsBlank(row: seq<string>) {
    forall k :: 0 <= k < |row| ==> BlankCell(row[k])
  }

  /** isRowEmpty: a scan that stops at the first cell with content. */
  method IsRowEmpty(row: seq<string>) returns (empty: bool)
    ensures empty <==> RowIsBlank(row)
  {
    var k := 0;
    while k < |row|
      invariant 0 <= k <= |row|
      invariant forall j :: 0 <= j < k ==> BlankCell(row[j])
    {
      if Trim(row[k]) != "" {
        return false;
      }
      k := k + 1;
    }
    return true;
  }

  // ---------------------------------------------------------------------
  // Mapping cells to column names

  /** `$row[$index] ?? null`: a missing trailing cell is absent. */
  function CellAt(row: seq<string>, j: int): Option<string> {
    if 0 <= j < |row| then Some(row[j]) else None
  }

  /** The cell a column name receives: the one under the LAST header cell
      with that name, since a repeated name is overwritten. */
  function MappedValue(header: seq<string>, row: seq<string>, c: string): Option<string>
    decreases |header|
  {
    if header == [] then None
    else if header[|header| - 1] == c then CellAt(row, |header| - 1)
    else MappedValue(header[..|header| - 1], row, c)
  }

  /** The specification of mapRowValues. */
  function MapRow(header: seq<string>, row: seq<string>): (m: map<string, Option<string>>)
    ensures m.Keys == set c | c in header
  {
    map c | c in header :: MappedValue(header, row, c)
  }

  /** mapRowValues: one pass over the header, later duplicates overwriting. */
  method MapRowValues(header: seq<string>, row: seq<string>) returns (m: map<string, Option<string>>)
    ensures m.Keys == set c | c in header
    ensures forall c :: c in m ==> m[c] == MappedValue(header, row, c)
  {
    m := map[];
    for j := 0 to |header|
      invariant m.Keys == set c | c in header[..j]
      invariant forall c :: c in m ==> m[c] == MappedValue(header[..j], row, c)
    {
      assert header[..j + 1][..j] == header[..j];
      m := m[header[j] := CellAt(row, j)];
    }
    assert header[..|header|] == header;
  }

  /** What mapRowValues computes is MapRow, so sanitising it gives RowData. */
  lemma MappedRowData(header: seq<string>, row: seq<string>, mapped: map<string, Option<string>>)
    requires mapped.Keys == set c | c in header
    requires forall c :: c in mapped ==> mapped[c] == MappedValue(header, row, c)
    ensures mapped == MapRow(header, row)
    ensures SanitizeRow(mapped) == RowData(header, row)
  {
    assert mapped == MapRow(header, row);
  }

  /** The foreach that sanitises every mapped value. */
  function SanitizeRow(m: map<string, Option<string>>): (r: map<string, Option<string>>)
    ensures r.Keys == m.Keys
    ensures forall c :: c in r ==> r[c] == SanitizeCell(m[c])
  {
    map c | c in m :: SanitizeCell(m[c])
  }

  /** A data row as the import loop sees it: mapped, then sanitised. */
  function RowData(header: seq<string>, row: seq<string>): map<string, Option<string>> {
    SanitizeRow(MapRow(header, row))
  }

  /** array_diff($requiredColumns, $header): required names absent from the header, in order. */
  function MissingColumns(required: seq<string>, header: seq<string>): (r: seq<string>)
    ensures |r| <= |required|
    ensures forall c :: c in r <==> c in required && c !in header
    ensures r == [] <==> forall c :: c in required ==> c in header
  {
    if required == [] then []
    else
      var rest := MissingColumns(required[1..], header);
      if required[0] in header then rest else [required[0]] + rest
  }

  /** The missing-values loop: required names whose (sanitised) value is absent, in order. */
  function MissingValues(required: seq<string>, data: map<string, Option<string>>): (r: seq<string>)
    ensures |r| <= |required|
    ensures forall c :: c in r <==> c in required && (c !in data || data[c].None?)
    ensures r == [] <==> forall c :: c in required ==> c in data && data[c].Some?
  {
    if required == [] then []
    else
      var rest := MissingValues(required[1..], data);
      if required[0] in data && data[required[0]].Some? then rest else [required[0]] + rest
  }

  // ---------------------------------------------------------------------
  // resolveOwnedEntityId

  /** A branch, department, designation or shift row: its id, its name and
      the user that created it. */
  datatype Entity = Entity(id: int, name: string, owner: int)

  /** The first entity owned by the tenant with the given id (`->first()`). */
  function FirstWithId(es: seq<Entity>, scope: set<int>, id: int): (r: Option<Entity>)
    ensures r.Some? ==> r.value in es && r.value.owner in scope && r.value.id == id
    ensures r.None? <==> forall e :: e in es && e.owner in scope ==> e.id != id
  {
    if es == [] then None
    else if es[0].owner in scope && es[0].id == id then Some(es[0])
    else FirstWithId(es[1..], scope, id)
  }

  /** The first entity owned by the tenant whose lower-cased name is `lname`. */
  function FirstWithName(es: seq<Entity>, scope: set<int>, lname: string): (r: Option<Entity>)
    ensures r.Some? ==> r.value in es && r.value.owner in scope && Lower(r.value.name) == lname
    ensures r.None? <==> forall e :: e in es && e.owner in scope ==> Lower(e.name) != lname
  {
    if es == [] then None
    else if es[0].owner in scope && Lower(es[0].name) == lname then Some(es[0])
    else FirstWithName(es[1..], scope, lname)
  }

  /** The id a trimmed numeric value asks for, if it is numeric. */
  function RequestedId(v: string): Option<int> {
    match ParseNumeric(v)
    case Some(n) => Some(NumericToInt(n))
    case None => None
  }

  /** resolveOwnedEntityId: absent or blank gives absent; a numeric value is
      first looked up as an id among the tenant's entities; otherwise, or when
      that fails, the first tenant entity whose name matches case-insensitively
      gives its id, unless that id is 0 (PHP reads 0 as no match). */
  function ResolveOwnedEntityId(es: seq<Entity>, value: Option<string>, scope: set<int>): (r: Option<int>)
    ensures value.None? || Trim(value.value) == "" ==> r.None?
    ensures r.Some? ==> exists e :: e in es && e.owner in scope && e.id == r.value
  {
    if value.None? then None
    else
      var v := Trim(value.value);
      if v == "" then None
      else
        var byId := match RequestedId(v)
                    case Some(id) => FirstWithId(es, scope, id)
                    case None => None;
        if byId.Some? then Some(byId.value.id)
        else
          match FirstWithName(es, scope, Lower(v))
          case Some(e) => if e.id != 0 then Some(e.id) else None
          case None => None
  }

  /** What resolveOwnedEntityId promises: absent or blank input resolves to
      nothing; any id it gives belongs to an entity the tenant owns; a
      numeric value that names an owned id resolves to that id; otherwise a
      result comes from a case-insensitive name match; and no result means
      both lookups came up empty (or matched id 0). */
  lemma ResolveOwnedEntityIdSpec(es: seq<Entity>, value: Option<string>, scope: set<int>)
    ensures var r := ResolveOwnedEntityId(es, value, scope);
            ((value.None? || Trim(value.value) == "") ==> r.None?)
            && (r.Some? ==> exists e :: e in es && e.owner in scope && e.id == r.value)
    ensures var r := ResolveOwnedEntityId(es, value, scope);
            value.Some? && Trim(value.value) != "" ==>
              var v := Trim(value.value);
              var byId := if RequestedId(v).Some? then FirstWithId(es, scope, RequestedId(v).value) else None;
              (byId.Some? ==> r == Some(RequestedId(v).value))
              && (byId.None? && r.Some? ==>
                    r.value != 0 && exists e :: e in es && e.owner in scope && e.id == r.value && Lower(e.name) == Lower(v))
              && (r.None? ==> byId.None? && (FirstWithName(es, scope, Lower(v)).None?
                                             || FirstWithName(es, scope, Lower(v)).value.id == 0))
  {
  }

  /** `if (!$branchId)`: the caller treats absent and 0 alike. */
  predicate Resolved(r: Option<int>) {
    r.Some? && r.value != 0
  }

  // ---------------------------------------------------------------------
  // Gender, status, dates

  /** PHP truthiness of a string that may be absent: '' and '0' are false. */
  predicate Truthy(v: Option<string>) {
    v.Some? && v.value != "" && v.value != "0"
  }

  /** Lines 862-865: lower-cased, and any value outside male/female/other becomes
      other; a falsy cell gives no gender. */
  function NormalizeGender(v: Option<string>): (r: Option<string>)
    ensures r.None? <==> !Truthy(v)
    ensures r.Some? ==> r.value == "male" || r.value == "female" || r.value == "other"
    ensures Truthy(v) && Lower(v.value) in ["male", "female", "other"] ==> r == Some(Lower(v.value))
  {
    if !Truthy(v) then None
    else
      var g := Lower(v.value);
      if g in ["male", "female", "other"] then Some(g) else Some("other")
  }

  /** Line 910 as written: the normalised gender is compared with 'M'. */
  function StoredGenderAsWritten(g: Option<string>): string {
    if g == Some("M") then "male" else "female"
  }

  /** As written, every imported employee is stored as female, because the
      value was lower-cased before the comparison with 'M'. */
  lemma StoredGenderAlwaysFemale(v: Option<string>)
    ensures StoredGenderAsWritten(NormalizeGender(v)) == "female"
  {
    var g := NormalizeGender(v);
    if g.Some? {
      assert g.value != "M" by {
        assert g.value[0] != 'M';
      }
    }
  }

  /** The template's first sample row says 'M' and is stored as female. */
  lemma TemplateMaleStoredFemale()
    ensures NormalizeGender(Some("M")) == Some("other")
    ensures StoredGenderAsWritten(NormalizeGender(Some("M"))) == "female"
  {
    assert Lower("M") == "m";
    assert "m" !in ["male", "female", "other"];
  }

  /** The gender line 910 evidently means to store (the import itself uses
      StoredGenderAsWritten): the code letters the template uses
      (M, F) and the names male/female/other, case-insensitively; any other
      truthy value is other, a falsy one none. */
  function StoredGender(v: Option<string>): (r: Option<string>)
    ensures r.None? <==> !Truthy(v)
    ensures r.Some? ==> r.value == "male" || r.value == "female" || r.value == "other"
    ensures Truthy(v) && (Lower(v.value) == "m" || Lower(v.value) == "male") ==> r == Some("male")
    ensures Truthy(v) && (Lower(v.value) == "f" || Lower(v.value) == "female") ==> r == Some("female")
    ensures Truthy(v) && r == Some("other") ==> Lower(v.value) !in ["m", "male", "f", "female"]
  {
    if !Truthy(v) then None
    else
      var g := Lower(v.value);
      if g == "m" || g == "male" then Some("male")
      else if g == "f" || g == "female" then Some("female")
      else Some("other")
  }

  /** Lines 867-869: lower-cased; anything but active/inactive, absent
      included, is active. */
  function NormalizeStatus(v: Option<string>): (r: string)
    ensures r == "active" || r == "inactive"
    ensures r == "inactive" <==> Truthy(v) && Lower(v.value) == "inactive"
  {
    var s := if Truthy(v) then Lower(v.value) else "active";
    if s == "active" || s == "inactive" then s else "active"
  }

  /** parseDateValue: a falsy value gives no date; otherwise the lenient
      parser decides (an unparseable value also gives none). */
  function ParseDateValue(v: Option<string>, parse: string -> Option<Date>): (r: Option<Date>)
    ensures !Truthy(v) ==> r.None?
    ensures Truthy(v) ==> r == parse(v.value)
  {
    if !Truthy(v) then None else parse(v.value)
  }

  // ---------------------------------------------------------------------
  // toggleStatus

  /** The status toggle: active becomes inactive, every other value active. */
  function ToggledStatus(s: string): (r: string)
    ensures r == "active" || r == "inactive"
    ensures r == "inactive" <==> s == "active"
  {
    if s == "active" then "inactive" else "active"
  }

  lemma ToggleTwiceRestores(s: string)
    requires s == "active" || s == "inactive"
    ensures ToggledStatus(ToggledStatus(s)) == s
  {
  }

  datatype ToggleOutcome = PermissionDenied | StatusUpdated(status: string) | UpdateFailed(message: string)

  /** The flash message when the update throws: the exception's own
      message, or a fixed text when that message is falsy ('' or '0'),
      as PHP's `?:` decides. */
  function UpdateFailureMessage(exception: string): (m: string)
    ensures m != "" && m != "0"
    ensures Truthy(Some(exception)) ==> m == exception
    ensures !Truthy(Some(exception)) ==> m == "Failed to update employee status"
  {
    if Truthy(Some(exception)) then exception else "Failed to update employee status"
  }

  /** toggleStatus: an employee created outside the tenant is refused;
      otherwise the account's status is flipped and saved. The save is the
      parameter `update`: for the new status it succeeds (None) or throws
      an exception with the given message. */
  function ToggleStatus(employeeCreator: int, scope: set<int>, current: string,
                        update: string -> Option<string>): (r: ToggleOutcome)
    ensures r.PermissionDenied? <==> employeeCreator !in scope
    ensures r.StatusUpdated? ==> r.status != current || current !in ["active", "inactive"]
    ensures r.StatusUpdated? ==> (r.status == "inactive" <==> current == "active")
    ensures r.StatusUpdated? <==> employeeCreator in scope && update(ToggledStatus(current)).None?
    ensures r.StatusUpdated? ==> r.status == ToggledStatus(current)
    ensures r.UpdateFailed? ==> update(ToggledStatus(current)).Some? && r.message != ""
    ensures r.UpdateFailed? ==> r.message == UpdateFailureMessage(update(ToggledStatus(current)).value)
  {
    if employeeCreator !in scope then PermissionDenied
    else
      match update(ToggledStatus(current))
      case None => StatusUpdated(ToggledStatus(current))
      case Some(e) => UpdateFailed(UpdateFailureMessage(e))
  }

  // ---------------------------------------------------------------------
  // The plan quota

  datatype PlanInfo = PlanInfo(max: int, current: nat, remaining: int)

  /** The remaining allowance: max - current, floored at 0. */
  function SeedQuota(maxEmployees: int, current: nat): (p: PlanInfo)
    ensures p.max == maxEmployees && p.current == current
    ensures p.remaining >= 0 && p.remaining >= maxEmployees - current
    ensures p.remaining == 0 || p.remaining == maxEmployees - current
    ensures p.remaining == 0 <==> maxEmployees <= current
  {
    var diff := maxEmployees - current;
    PlanInfo(maxEmployees, current, if diff > 0 then diff else 0)
  }

  /** A user account as the quota lookup sees it: its type and, when it has
      a plan, the plan's max_employees (already cast to int). */
  datatype Account = Account(kind: string, planMaxEmployees: Option<int>)

  /** getPlanAvailabilityForImport: no quota outside SaaS mode, without a
      signed-in user, for the super admin, or when the company (the user
      itself for a company account, otherwise its creator) has no plan. */
  function PlanAvailability(saas: bool, auth: Option<Account>, creator: Option<Account>,
                            employeeCount: nat): (r: Option<PlanInfo>)
    ensures r.Some? ==> saas && auth.Some? && auth.value.kind != "superadmin"
    ensures r.Some? ==> r.value.remaining >= 0 && r.value.current == employeeCount
    ensures saas && auth.Some? && auth.value.kind == "company" && auth.value.planMaxEmployees.Some?
            ==> r == Some(SeedQuota(auth.value.planMaxEmployees.value, employeeCount))
    ensures saas && auth.Some? && auth.value.kind !in ["company", "superadmin"]
            && creator.Some? && creator.value.planMaxEmployees.Some?
            ==> r == Some(SeedQuota(creator.value.planMaxEmployees.value, employeeCount))
    ensures r.None? <==>
              !saas || auth.None? || auth.value.kind == "superadmin"
              || (auth.value.kind == "company" && auth.value.planMaxEmployees.None?)
              || (auth.value.kind != "company" && (creator.None? || creator.value.planMaxEmployees.None?))
  {
    if !saas || auth.None? || auth.value.kind == "superadmin" then None
    else
      var company := if auth.value.kind == "company" then auth else creator;
      if company.None? || company.value.planMaxEmployees.None? then None
      else Some(SeedQuota(company.value.planMaxEmployees.value, employeeCount))
  }

  // ---------------------------------------------------------------------
  // downloadImportTemplate

  /** The template's sample rows. */
  const SampleRows: seq<map<string, string>> := [
    map["employee_id" := "EMP-1001", "name" := "John Doe", "date_of_birth" := "1990-04-12",
        "gender" := "M", "branch_id" := "1", "department_id" := "1", "designation_id" := "1",
        "shift_id" := "1", "date_of_joining" := "2024-01-15", "employment_type" := "Full-time",
        "employment_status" := "active", "status" := "active", "national_id" := "1234567890"],
    map["employee_id" := "EMP-1002", "name" := "Sara Khan", "date_of_birth" := "1992-09-05",
        "gender" := "F", "branch_id" := "2", "department_id" := "2", "designation_id" := "3",
        "shift_id" := "1", "date_of_joining" := "2024-03-01", "employment_type" := "Contract",
        "employment_status" := "active", "status" := "active", "national_id" := "12345678456"]
  ]

  /** The template file's rows: the column names, then one row per sample
      with the value of each column, or '' where the sample has none. */
  method TemplateRows(columns: seq<string>, samples: seq<map<string, string>>)
    returns (rows: seq<seq<string>>)
    ensures |rows| == |samples| + 1 && rows[0] == columns
    ensures forall i :: 1 <= i < |rows| ==> |rows[i]| == |columns|
    ensures forall i, j :: 0 <= i < |samples| && 0 <= j < |columns| ==>
              rows[i + 1][j] == (if columns[j] in samples[i] then samples[i][columns[j]] else "")
  {
    rows := [columns];
    for i := 0 to |samples|
      invariant |rows| == i + 1 && rows[0] == columns
      invariant forall r :: 1 <= r < |rows| ==> |rows[r]| == |columns|
      invariant forall r, j :: 0 <= r < i && 0 <= j < |columns| ==>
                  rows[r + 1][j] == (if columns[j] in samples[r] then samples[r][columns[j]] else "")
    {
      var row: seq<string> := [];
      for j := 0 to |columns|
        invariant |row| == j
        invariant forall k :: 0 <= k < j ==>
                    row[k] == (if columns[k] in samples[i] then samples[i][columns[k]] else "")
      {
        row := row + [if columns[j] in samples[i] then samples[i][columns[j]] else ""];
      }
      rows := rows + [row];
    }
  }

  /** The template's column names are already in sanitised form, so its
      header passes the import's header check. */
  lemma TemplateHeaderAccepted()
    ensures SanitizeHeaders(ColumnNames(ImportColumns())) == ColumnNames(ImportColumns())
    ensures MissingColumns(RequiredColumns(), SanitizeHeaders(ColumnNames(ImportColumns()))) == []
  {
    AllColumnsRequired();
    AllNamesSanitized();
    HeadersAlreadySanitized(AllColumnNames);
    NoneMissing(AllColumnNames, AllColumnNames);
  }

  lemma HeadersAlreadySanitized(row: seq<string>)
    requires forall c :: c in row ==> SanitizeHeader(c) == c
    ensures SanitizeHeaders(row) == row
  {
    assert forall k :: 0 <= k < |row| ==> row[k] in row;
  }

  lemma NoneMissing(required: seq<string>, header: seq<string>)
    requires forall c :: c in required ==> c in header
    ensures MissingColumns(required, header) == []
  {
  }

  lemma AllNamesSanitized()
    ensures forall c :: c in AllColumnNames ==> SanitizeHeader(c) == c
  {
    AllNamesPlain();
    forall c | c in AllColumnNames ensures SanitizeHeader(c) == c {
      PlainNameSanitized(c);
    }
  }

  lemma AllNamesPlain()
    ensures forall c :: c in AllColumnNames ==> PlainName(c)
  {
    FirstNamesPlain();
    LastNamesPlain();
    assert forall c :: c in AllColumnNames ==> exists k :: 0 <= k < 13 && AllColumnNames[k] == c;
  }

  lemma FirstNamesPlain()
    ensures forall k :: 0 <= k < 6 ==> PlainName(AllColumnNames[k])
  {
    assert PlainName("employee_id") && PlainName("name") && PlainName("date_of_birth");
    assert PlainName("gender") && PlainName("branch_id") && PlainName("department_id");
  }

  lemma LastNamesPlain()
    ensures forall k :: 6 <= k < 13 ==> PlainName(AllColumnNames[k])
  {
    assert PlainName("designation_id") && PlainName("shift_id") && PlainName("date_of_joining");
    assert PlainName("employment_type") && PlainName("employment_status");
    assert PlainName("status") && PlainName("national_id");
  }

  /** Lower-case ASCII letters and '_' only. */
  predicate PlainName(s: string) {
    s != [] && forall k :: 0 <= k < |s| ==> ('a' <= s[k] <= 'z' || s[k] == '_')
  }

  /** A name made of lower-case letters and '_' is its own sanitised form. */
  lemma PlainNameSanitized(s: string)
    requires PlainName(s)
    ensures SanitizeHeader(s) == s
  {
    PlainNameNoMark(s);
    assert RemoveChar(s, ByteOrderMark) == s;
    PlainNameEnds(s);
    assert Trim(s) == s;
    PlainNameLower(s);
  }

  lemma PlainNameNoMark(s: string)
    requires PlainName(s)
    ensures ByteOrderMark !in s
  {
    assert forall k :: 0 <= k < |s| ==> s[k] != ByteOrderMark;
  }

  lemma PlainNameEnds(s: string)
    requires PlainName(s)
    ensures Trim(s) == s
  {
    assert 'a' <= s[0] <= 'z' || s[0] == '_';
    assert 'a' <= s[|s| - 1] <= 'z' || s[|s| - 1] == '_';
    TrimUnchanged(s);
  }

  lemma PlainNameLower(s: string)
    requires PlainName(s)
    ensures Lower(s) == s
  {
    assert forall k :: 0 <= k < |s| ==> Lower(s)[k] == s[k];
  }
}
