/** The employee CSV import: one pass over the uploaded rows. The first
    non-blank row is the header; every later non-blank row is sanitised,
    checked in a fixed order (required values, plan quota, duplicate code,
    branch, department, designation) and then either created through the
    atomic create or recorded in the error ledger. */
module EmployeeImport {
  import opened Prelude
  import opened Calendar
  import opened ImportRows

  // ---------------------------------------------------------------------
  // Results, drafts and the import's inputs

  /** Why a data row was skipped. */
  datatype Failure =
    | MissingRequired(columns: seq<string>)
    | PlanLimitReached
    | DuplicateCode(code: string)
    | InvalidBranch
    | InvalidDepartment
    | InvalidDesignation
    | Unexpected(exception: string)

  /** The text recorded for a failure. */
  function FailureMessage(f: Failure): string {
    match f
    case MissingRequired(columns) => "Missing required values for: " + Join(", ", columns)
    case PlanLimitReached => "Plan limit reached. Remaining rows were skipped."
    case DuplicateCode(code) => "Employee ID \"" + code + "\" already exists."
    case InvalidBranch => "Invalid branch reference."
    case InvalidDepartment => "Invalid department reference."
    case InvalidDesignation => "Invalid designation reference."
    case Unexpected(m) => "Unexpected error: " + m
  }

  /** One recorded error: the row number and why the row was skipped
      (its message is FailureMessage(failure)). */
  datatype ImportError = ImportError(row: nat, failure: Failure)

  /** The `$results` summary. */
  datatype ImportResult = ImportResult(processed: nat, created: nat, skipped: nat, errors: seq<ImportError>)

  /** What the atomic create is asked to save for one row: the user's name
      and status and the employee record's fields. */
  datatype Draft = Draft(code: string, name: string, status: string,
                         dateOfBirth: Option<Date>, gender: string,
                         branch: int, department: int, designation: int, shift: Option<int>,
                         dateOfJoining: Option<Date>, employmentType: string, nationalId: string)

  /** The tenant: the user ids of the company (getCompanyAndUsersId) and the
      reference tables the import resolves against. */
  datatype Tenant = Tenant(scope: set<int>, branches: seq<Entity>, departments: seq<Entity>,
                           designations: seq<Entity>, shifts: seq<Entity>)

  /** Everything the import reads besides the file: the plan quota (from
      getPlanAvailabilityForImport), the tenant, the employee codes already
      stored, the lenient date parser, and the atomic create, which for a
      row number and a draft either succeeds (None) or fails with the
      exception's message. */
  datatype Ctx = Ctx(plan: Option<PlanInfo>, tenant: Tenant, existing: set<string>,
                     parseDate: string -> Option<Date>,
                     create: (nat, Draft) -> Option<string>)

  /** The uploaded file: absent, not openable, or its CSV rows. */
  datatype Upload = NoUpload | Unreadable | Csv(rows: seq<seq<string>>)

  /** Why the whole import was refused. */
  datatype Refusal =
    | NoFile
    | CannotOpen
    | LimitExceeded
    | NoData
    | MissingColumnsIn(columns: seq<string>)

  /** The flash error for a refusal. */
  function RefusalMessage(r: Refusal): string {
    match r
    case NoFile => "Unable to process the uploaded file."
    case CannotOpen => "Unable to open the uploaded file."
    case LimitExceeded =>
      "Employee limit exceeded. Please upgrade your plan or remove users before importing more employees."
    case NoData => "The uploaded file does not contain any data."
    case MissingColumnsIn(columns) => "The uploaded file is missing the required columns: " + Join(", ", columns)
  }

  datatype ImportOutcome =
    | Refused(reason: Refusal)
    | Completed(result: ImportResult, store: set<string>, created: seq<Draft>)

  /** The success flash message of a completed import. */
  function SummaryMessage(r: ImportResult): string {
    "Employee import completed. " + NatToString(r.created) + " created, "
      + NatToString(r.skipped) + " skipped."
  }

  // ---------------------------------------------------------------------
  // One data row

  /** `$rowData[c] ?? null`. */
  function Lookup(data: map<string, Option<string>>, c: string): Option<string> {
    if c in data then data[c] else None
  }

  /** `$rowData[c]` used as a string (null reads as ''). */
  function Text(data: map<string, Option<string>>, c: string): string {
    match Lookup(data, c)
    case Some(v) => v
    case None => ""
  }

  /** The quota counter the loop carries: absent when there is no plan. */
  function QuotaOf(plan: Option<PlanInfo>): Option<int> {
    if plan.Some? then Some(plan.value.remaining) else None
  }

  predicate QuotaLeft(quota: Option<int>) {
    quota.None? || quota.value > 0
  }

  /** The fields a row that passed every check is stored with. The gender
      is stored as written: the normalised value is computed but the stored
      value is the constant 'female' (see StoredGenderAlwaysFemale). */
  function BuildDraft(data: map<string, Option<string>>, branch: int, department: int,
                      designation: int, shift: Option<int>, parseDate: string -> Option<Date>): (d: Draft)
    ensures d.code == Text(data, "employee_id") && d.name == Text(data, "name")
    ensures d.status == "inactive" <==> Truthy(Lookup(data, "status")) && Lower(Lookup(data, "status").value) == "inactive"
    ensures d.status == "active" || d.status == "inactive"
    ensures d.gender == "female"
    ensures d.branch == branch && d.department == department && d.designation == designation && d.shift == shift
    ensures d.dateOfBirth == ParseDateValue(Lookup(data, "date_of_birth"), parseDate)
    ensures d.dateOfJoining == ParseDateValue(Lookup(data, "date_of_joining"), parseDate)
    ensures d.employmentType == Text(data, "employment_type") && d.nationalId == Text(data, "national_id")
  {
    StoredGenderAlwaysFemale(Lookup(data, "gender"));
    Draft(Text(data, "employee_id"), Text(data, "name"), NormalizeStatus(Lookup(data, "status")),
          ParseDateValue(Lookup(data, "date_of_birth"), parseDate),
          StoredGenderAsWritten(NormalizeGender(Lookup(data, "gender"))),
          branch, department, designation, shift,
          ParseDateValue(Lookup(data, "date_of_joining"), parseDate),
          Text(data, "employment_type"), Text(data, "national_id"))
  }

  /** The four references of a row, each resolved among the tenant's own
      entities (resolveOwnedEntityId on branch_id, department_id,
      designation_id and shift_id). The lookups are pure, so resolving all
      four up front is the same as resolving each where the checks reach it. */
  datatype Refs = Refs(branch: Option<int>, department: Option<int>, designation: Option<int>, shift: Option<int>)

  function RowRefs(data: map<string, Option<string>>, t: Tenant): Refs {
    Refs(ResolveOwnedEntityId(t.branches, Lookup(data, "branch_id"), t.scope),
         ResolveOwnedEntityId(t.departments, Lookup(data, "department_id"), t.scope),
         ResolveOwnedEntityId(t.designations, Lookup(data, "designation_id"), t.scope),
         ResolveOwnedEntityId(t.shifts, Lookup(data, "shift_id"), t.scope))
  }

  /** The verdict on one sanitised row. */
  datatype Verdict = Reject(failure: Failure) | Ready(draft: Draft)

  /** The checks of one data row, in the source's order; the first failure
      decides the row. The shift is attached but never rejects. */
  function Classify(required: seq<string>, data: map<string, Option<string>>, store: set<string>,
                    quota: Option<int>, refs: Refs, parseDate: string -> Option<Date>): (v: Verdict)
    ensures v.Ready? ==> v.draft.code == Text(data, "employee_id") && v.draft.code !in store && QuotaLeft(quota)
    ensures v.Ready? ==> v.draft.gender == "female"
  {
    var missing := MissingValues(required, data);
    if missing != [] then Reject(MissingRequired(missing))
    else if !QuotaLeft(quota) then Reject(PlanLimitReached)
    else if Text(data, "employee_id") in store then Reject(DuplicateCode(Text(data, "employee_id")))
    else if !Resolved(refs.branch) then Reject(InvalidBranch)
    else if !Resolved(refs.department) then Reject(InvalidDepartment)
    else if !Resolved(refs.designation) then Reject(InvalidDesignation)
    else Ready(BuildDraft(data, refs.branch.value, refs.department.value, refs.designation.value, refs.shift, parseDate))
  }

  // ---------------------------------------------------------------------
  // The scan, as a function of the rows

  /** The loop's variables: the current row number, the results, the quota
      counter, the codes stored so far, the records created, and whether the
      loop broke off at the plan limit. */
  datatype ScanState = ScanState(rowNumber: nat, result: ImportResult, quota: Option<int>,
                                 store: set<string>, drafts: seq<Draft>, stopped: bool)

  /** recordImportError: one more error and one more skipped row. */
  function WithError(r: ImportResult, row: nat, f: Failure): (r': ImportResult)
    ensures r'.errors == r.errors + [ImportError(row, f)]
    ensures r'.skipped == r.skipped + 1
    ensures r'.processed == r.processed && r'.created == r.created
  {
    r.(skipped := r.skipped + 1, errors := r.errors + [ImportError(row, f)])
  }

  function Decrement(quota: Option<int>): Option<int> {
    if quota.Some? then Some(quota.value - 1) else None
  }

  /** A row check: the verdict on a sanitised row, given the codes stored
      so far and the quota counter. The scan is stated over any check;
      the import runs it with RowCheck. */
  type Classifier = (map<string, Option<string>>, set<string>, Option<int>) -> Verdict

  /** Classify for the import's required columns and context. */
  function RowCheck(required: seq<string>, ctx: Ctx): Classifier {
    (data, store, quota) => Classify(required, data, store, quota, RowRefs(data, ctx.tenant), ctx.parseDate)
  }

  /** A processed row's end: recorded (and, at the plan limit, the loop
      breaks), or handed to the atomic create. */
  function Settle(v: Verdict, n: nat, create: (nat, Draft) -> Option<string>, res: ImportResult,
                  quota: Option<int>, store: set<string>, drafts: seq<Draft>): (r: ScanState)
    ensures r.rowNumber == n && r.result.processed == res.processed
    ensures r.result.created + r.result.skipped == res.created + res.skipped + 1
    ensures res.errors <= r.result.errors && drafts <= r.drafts && store <= r.store
    ensures r.stopped <==> v == Reject(PlanLimitReached)
    ensures r.result.created == res.created + 1 <==> v.Ready? && create(n, v.draft).None?
    ensures r.result.created == res.created + 1 ==> r.drafts == drafts + [v.draft] && r.store == store + {v.draft.code}
    ensures |r.result.errors| <= |res.errors| + 1
    ensures |r.result.errors| == |res.errors| + 1 ==> r.result.errors[|res.errors|].row == n
  {
    match v
    case Reject(f) => ScanState(n, WithError(res, n, f), quota, store, drafts, f == PlanLimitReached)
    case Ready(d) =>
      match create(n, d)
      case Some(m) => ScanState(n, WithError(res, n, Unexpected(m)), quota, store, drafts, false)
      case None =>
        ScanState(n, res.(created := res.created + 1), Decrement(quota), store + {d.code}, drafts + [d], false)
  }

  /** One data row: the row number goes up first, a blank row stops there,
      any other row is processed and ends created or recorded. */
  function Step(header: seq<string>, row: seq<string>, check: Classifier,
                create: (nat, Draft) -> Option<string>, st: ScanState): (r: ScanState)
    ensures r.rowNumber == st.rowNumber + 1
    ensures RowIsBlank(row) ==> r.result == st.result && r.drafts == st.drafts && r.store == st.store
    ensures !RowIsBlank(row) ==> (r.result.processed == st.result.processed + 1
              && r.result.created + r.result.skipped == st.result.created + st.result.skipped + 1)
    ensures st.result.errors <= r.result.errors && st.drafts <= r.drafts && st.store <= r.store
    ensures |r.result.errors| <= |st.result.errors| + 1
    ensures |r.result.errors| == |st.result.errors| + 1 ==> (!RowIsBlank(row)
              && r.result.errors[|st.result.errors|].row == r.rowNumber)
  {
    var n := st.rowNumber + 1;
    if RowIsBlank(row) then st.(rowNumber := n)
    else
      Settle(check(RowData(header, row), st.store, st.quota), n, create,
             st.result.(processed := st.result.processed + 1), st.quota, st.store, st.drafts)
  }

  /** The rows from index i on, until the end or the plan-limit break.
      Errors, created records and stored codes are only ever appended. */
  function ScanFrom(header: seq<string>, rows: seq<seq<string>>, i: nat, check: Classifier,
                    create: (nat, Draft) -> Option<string>, st: ScanState): (r: ScanState)
    ensures st.stopped ==> r == st
    ensures r.rowNumber >= st.rowNumber
    ensures st.result.errors <= r.result.errors && st.drafts <= r.drafts && st.store <= r.store
    decreases |rows| - i
  {
    if i >= |rows| || st.stopped then st
    else ScanFrom(header, rows, i + 1, check, create, Step(header, rows[i], check, create, st))
  }

  /** The index of the first non-blank row at or after i (|rows| if none). */
  function FirstNonBlank(rows: seq<seq<string>>, i: nat): (h: nat)
    requires i <= |rows|
    ensures i <= h <= |rows|
    ensures forall k :: i <= k < h ==> RowIsBlank(rows[k])
    ensures h < |rows| ==> !RowIsBlank(rows[h])
    decreases |rows| - i
  {
    if i == |rows| || !RowIsBlank(rows[i]) then i else FirstNonBlank(rows, i + 1)
  }

  /** The state before the first data row: the header is row 1. */
  function InitialState(ctx: Ctx): ScanState {
    ScanState(1, ImportResult(0, 0, 0, []), QuotaOf(ctx.plan), ctx.existing, [], false)
  }

  /** The import: the up-front refusals (no file, a spent plan quota, an
      unreadable file), then the rows of the CSV file. */
  function RunImport(upload: Upload, ctx: Ctx): (o: ImportOutcome)
    ensures upload.NoUpload? ==> o == Refused(NoFile)
    ensures !upload.NoUpload? && !QuotaLeft(QuotaOf(ctx.plan)) ==> o == Refused(LimitExceeded)
    ensures o.Completed? ==> upload.Csv? && QuotaLeft(QuotaOf(ctx.plan))
  {
    if upload.NoUpload? then Refused(NoFile)
    else if !QuotaLeft(QuotaOf(ctx.plan)) then Refused(LimitExceeded)
    else if upload.Unreadable? then Refused(CannotOpen)
    else ImportCsv(upload.rows, ctx)
  }

  /** The rows of a readable file: the header check against the required
      columns (RequiredColumns, which are all of AllColumnNames), then the
      scan of the rows after the header. */
  function ImportCsv(rows: seq<seq<string>>, ctx: Ctx): (o: ImportOutcome)
    ensures o == Refused(NoData) <==> FirstNonBlank(rows, 0) == |rows|
    ensures o.Refused? ==> o.reason == NoData || (o.reason.MissingColumnsIn? && o.reason.columns != [])
    ensures o.Completed? ==> (FirstNonBlank(rows, 0) < |rows|
              && forall c :: c in AllColumnNames ==> c in SanitizeHeaders(rows[FirstNonBlank(rows, 0)]))
  {
    var h := FirstNonBlank(rows, 0);
    if h == |rows| then Refused(NoData)
    else
      var missing := MissingColumns(AllColumnNames, SanitizeHeaders(rows[h]));
      if missing != [] then Refused(MissingColumnsIn(missing))
      else
        var st := ScanFrom(SanitizeHeaders(rows[h]), rows, h + 1, RowCheck(AllColumnNames, ctx), ctx.create,
                           InitialState(ctx));
        Completed(st.result, st.store, st.drafts)
  }

  /** A readable file with quota left is imported by its rows alone. */
  lemma RunImportReadsCsv(rows: seq<seq<string>>, ctx: Ctx)
    requires QuotaLeft(QuotaOf(ctx.plan))
    ensures RunImport(Csv(rows), ctx) == ImportCsv(rows, ctx)
  {
  }

  /** The refusals, in the source's order: no file, then a spent plan
      quota, then an unreadable file, then no non-blank row, then a header
      that lacks a required column; an import none of these stops is
      completed. */
  lemma RunImportRefusals(upload: Upload, ctx: Ctx)
    ensures var o := RunImport(upload, ctx);
            (upload.NoUpload? ==> o == Refused(NoFile))
            && (!upload.NoUpload? && !QuotaLeft(QuotaOf(ctx.plan)) ==> o == Refused(LimitExceeded))
            && (upload.Unreadable? && QuotaLeft(QuotaOf(ctx.plan)) ==> o == Refused(CannotOpen))
            && (o == Refused(NoData) <==>
                  upload.Csv? && QuotaLeft(QuotaOf(ctx.plan)) && FirstNonBlank(upload.rows, 0) == |upload.rows|)
            && (o.Refused? && o.reason.MissingColumnsIn? ==>
                  upload.Csv? && FirstNonBlank(upload.rows, 0) < |upload.rows|
                  && o.reason.columns != []
                  && forall c :: c in o.reason.columns <==>
                                   c in AllColumnNames && c !in SanitizeHeaders(upload.rows[FirstNonBlank(upload.rows, 0)]))
            && (o.Completed? <==>
                  upload.Csv? && QuotaLeft(QuotaOf(ctx.plan)) && FirstNonBlank(upload.rows, 0) < |upload.rows|
                  && forall c :: c in AllColumnNames ==> c in SanitizeHeaders(upload.rows[FirstNonBlank(upload.rows, 0)]))
  {
  }

  /** The first non-blank row at or after i, located by its witness. */
  lemma {:induction false} FirstNonBlankIs(rows: seq<seq<string>>, i: nat, h: nat)
    requires i <= h <= |rows|
    requires forall k :: i <= k < h ==> RowIsBlank(rows[k])
    requires h < |rows| ==> !RowIsBlank(rows[h])
    ensures FirstNonBlank(rows, i) == h
    decreases h - i
  {
    if i < h {
      FirstNonBlankIs(rows, i + 1, h);
    }
  }

  /** The import once the header is found and complete is the scan of the
      rows after it. */
  lemma RunImportScans(rows: seq<seq<string>>, ctx: Ctx, h: nat)
    requires QuotaLeft(QuotaOf(ctx.plan))
    requires h == FirstNonBlank(rows, 0) && h < |rows|
    requires MissingColumns(AllColumnNames, SanitizeHeaders(rows[h])) == []
    ensures RunImport(Csv(rows), ctx)
            == var st := ScanFrom(SanitizeHeaders(rows[h]), rows, h + 1, RowCheck(AllColumnNames, ctx), ctx.create,
                                  InitialState(ctx));
               Completed(st.result, st.store, st.drafts)
  {
    RunImportReadsCsv(rows, ctx);
  }

  /** The import refuses a header that lacks required columns. */
  lemma RunImportMissing(rows: seq<seq<string>>, ctx: Ctx, h: nat)
    requires QuotaLeft(QuotaOf(ctx.plan))
    requires h == FirstNonBlank(rows, 0) && h < |rows|
    requires MissingColumns(AllColumnNames, SanitizeHeaders(rows[h])) != []
    ensures RunImport(Csv(rows), ctx) == Refused(MissingColumnsIn(MissingColumns(AllColumnNames, SanitizeHeaders(rows[h]))))
  {
    RunImportReadsCsv(rows, ctx);
  }
}
