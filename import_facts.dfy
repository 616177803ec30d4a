/** What the import promises about its results: the counters balance,
    errors come in row order and point at data rows, the plan quota is
    never overrun, every created code is new and unique, the plan-limit
    break is recorded once and last, and the row checks run in their fixed
    order. The scan facts hold for any row check that refuses a row when
    the quota is spent or its code is already stored; the import's own
    check is one. */
module ImportFacts {
  import opened Prelude
  import opened Calendar
  import opened ImportRows
  import opened EmployeeImport

  // ---------------------------------------------------------------------
  // The row checks and their order

  /** The checks of a data row, named in the order the source runs them. */
  datatype Check = RequiredValues | PlanQuota | UniqueCode | BranchRef | DepartmentRef | DesignationRef

  function Rank(c: Check): nat {
    match c
    case RequiredValues => 0
    case PlanQuota => 1
    case UniqueCode => 2
    case BranchRef => 3
    case DepartmentRef => 4
    case DesignationRef => 5
  }

  /** Whether one check, taken alone, refuses the row. */
  ghost predicate Fails(c: Check, required: seq<string>, data: map<string, Option<string>>, store: set<string>,
                  quota: Option<int>, refs: Refs)
  {
    match c
    case RequiredValues => exists col :: col in required && (col !in data || data[col].None?)
    case PlanQuota => quota.Some? && quota.value <= 0
    case UniqueCode => Text(data, "employee_id") in store
    case BranchRef => !Resolved(refs.branch)
    case DepartmentRef => !Resolved(refs.department)
    case DesignationRef => !Resolved(refs.designation)
  }

  /** The check a recorded failure reports (none for a failed create). */
  function CheckOf(f: Failure): Option<Check> {
    match f
    case MissingRequired(_) => Some(RequiredValues)
    case PlanLimitReached => Some(PlanQuota)
    case DuplicateCode(_) => Some(UniqueCode)
    case InvalidBranch => Some(BranchRef)
    case InvalidDepartment => Some(DepartmentRef)
    case InvalidDesignation => Some(DesignationRef)
    case Unexpected(_) => None
  }

  /** The verdict on a row is its first failing check, with the missing
      columns listed in the configured order; a row no check refuses is
      ready, with the shift attached when it resolves and null otherwise. */
  lemma ClassifyFirstFailure(required: seq<string>, data: map<string, Option<string>>, store: set<string>,
                             quota: Option<int>, refs: Refs, parseDate: string -> Option<Date>)
    ensures var v := Classify(required, data, store, quota, refs, parseDate);
            (v.Ready? <==> forall c :: !Fails(c, required, data, store, quota, refs))
            && (v.Reject? ==> CheckOf(v.failure).Some?
                              && Fails(CheckOf(v.failure).value, required, data, store, quota, refs)
                              && forall c :: Rank(c) < Rank(CheckOf(v.failure).value)
                                             ==> !Fails(c, required, data, store, quota, refs))
            && (v == Reject(MissingRequired(MissingValues(required, data)))
                <==> Fails(RequiredValues, required, data, store, quota, refs))
            && (v.Ready? ==> v.draft.code == Text(data, "employee_id")
                             && v.draft.shift == refs.shift)
  {
    var v := Classify(required, data, store, quota, refs, parseDate);
    var missing := MissingValues(required, data);
    if missing != [] {
      assert missing[0] in missing;
      assert Fails(RequiredValues, required, data, store, quota, refs);
    } else {
      assert !Fails(RequiredValues, required, data, store, quota, refs);
    }
    if v.Ready? {
      forall c ensures !Fails(c, required, data, store, quota, refs) {
        match c
        case RequiredValues =>
        case PlanQuota =>
        case UniqueCode =>
        case BranchRef =>
        case DepartmentRef =>
        case DesignationRef =>
      }
    } else {
      var k := CheckOf(v.failure).value;
      assert Fails(k, required, data, store, quota, refs);
      forall c | Rank(c) < Rank(k) ensures !Fails(c, required, data, store, quota, refs) {
        match c
        case RequiredValues =>
        case PlanQuota =>
        case UniqueCode =>
        case BranchRef =>
        case DepartmentRef =>
        case DesignationRef =>
      }
    }
  }

  // ---------------------------------------------------------------------
  // What the scan needs of a row check

  /** A row check never passes a row when the quota is spent or the row's
      code is already stored. */
  ghost predicate Guards(check: Classifier) {
    forall data, store, quota ::
      check(data, store, quota).Ready?
      ==> QuotaLeft(quota) && check(data, store, quota).draft.code !in store
  }

  lemma RowCheckGuards(required: seq<string>, ctx: Ctx)
    ensures Guards(RowCheck(required, ctx))
  {
    var check := RowCheck(required, ctx);
    forall data, store, quota
      ensures check(data, store, quota).Ready?
              ==> QuotaLeft(quota) && check(data, store, quota).draft.code !in store
    {
      var v := Classify(required, data, store, quota, RowRefs(data, ctx.tenant), ctx.parseDate);
      assert check(data, store, quota) == v;
    }
  }

  // ---------------------------------------------------------------------
  // Counters

  /** Every processed row is either created or skipped, every skipped row
      has one error, and every created row one draft. */
  predicate Balanced(st: ScanState) {
    st.result.created + st.result.skipped == st.result.processed
    && st.result.skipped == |st.result.errors|
    && |st.drafts| == st.result.created
  }

  lemma StepBalanced(header: seq<string>, row: seq<string>, check: Classifier,
                     create: (nat, Draft) -> Option<string>, st: ScanState)
    requires Balanced(st)
    ensures Balanced(Step(header, row, check, create, st))
  {
  }

  lemma {:induction false} ScanBalanced(header: seq<string>, rows: seq<seq<string>>, i: nat, check: Classifier,
                                        create: (nat, Draft) -> Option<string>, st: ScanState)
    requires Balanced(st)
    ensures Balanced(ScanFrom(header, rows, i, check, create, st))
    decreases |rows| - i
  {
    if i < |rows| && !st.stopped {
      StepBalanced(header, rows[i], check, create, st);
      ScanBalanced(header, rows, i + 1, check, create, Step(header, rows[i], check, create, st));
    }
  }

  /** The number of non-blank rows from index i on. */
  function NonBlankCount(rows: seq<seq<string>>, i: nat): (n: nat)
    ensures n <= |rows| - i || i > |rows|
    decreases |rows| - i
  {
    if i >= |rows| then 0
    else (if RowIsBlank(rows[i]) then 0 else 1) + NonBlankCount(rows, i + 1)
  }

  /** A blank row only uses up a row number. */
  lemma StepBlank(header: seq<string>, row: seq<string>, check: Classifier,
                  create: (nat, Draft) -> Option<string>, st: ScanState)
    requires RowIsBlank(row)
    ensures Step(header, row, check, create, st).result == st.result
    ensures Step(header, row, check, create, st).rowNumber == st.rowNumber + 1
    ensures Step(header, row, check, create, st).(rowNumber := st.rowNumber) == st
  {
  }

  /** Unless the plan limit broke the loop, every row after the header
      used a row number and every non-blank one was processed. */
  lemma {:induction false} ScanCounts(header: seq<string>, rows: seq<seq<string>>, i: nat, check: Classifier,
                                      create: (nat, Draft) -> Option<string>, st: ScanState)
    requires i <= |rows|
    ensures var r := ScanFrom(header, rows, i, check, create, st);
            !r.stopped ==> r.result.processed == st.result.processed + NonBlankCount(rows, i)
                           && r.rowNumber == st.rowNumber + (|rows| - i)
    decreases |rows| - i
  {
    if i < |rows| && !st.stopped {
      ScanCounts(header, rows, i + 1, check, create, Step(header, rows[i], check, create, st));
    }
  }

  // ---------------------------------------------------------------------
  // Error rows

  /** Errors carry row numbers in strictly ascending order, from 2 (the
      first row after the header) up to the current row number, and each
      names a non-blank row of the file: row number r is rows[h + r - 1]
      when the header is rows[h]. */
  predicate ErrorRows(rows: seq<seq<string>>, h: nat, st: ScanState) {
    var es := st.result.errors;
    1 <= st.rowNumber && h + st.rowNumber <= |rows|
    && (forall j :: 0 <= j < |es| ==> es[j].row <= st.rowNumber)
    && RowsNonBlank(rows, h, es) && RowsAscending(es)
  }

  /** Each error names a row after the header that is not blank. */
  predicate RowsNonBlank(rows: seq<seq<string>>, h: nat, es: seq<ImportError>) {
    forall j :: 0 <= j < |es| ==> 2 <= es[j].row && h + es[j].row - 1 < |rows| && !RowIsBlank(rows[h + es[j].row - 1])
  }

  predicate RowsAscending(es: seq<ImportError>) {
    forall j, k :: 0 <= j < k < |es| ==> es[j].row < es[k].row
  }

  lemma StepErrorRows(header: seq<string>, rows: seq<seq<string>>, h: nat, i: nat, check: Classifier,
                      create: (nat, Draft) -> Option<string>, st: ScanState)
    requires i < |rows| && i == h + st.rowNumber && ErrorRows(rows, h, st)
    ensures ErrorRows(rows, h, Step(header, rows[i], check, create, st))
  {
    ErrorRowsAppend(rows, h, st, Step(header, rows[i], check, create, st));
  }

  /** A state one row further on whose errors are the old ones, or the old
      ones and one error on that row, which is not blank, keeps the error
      rows in order. */
  lemma ErrorRowsAppend(rows: seq<seq<string>>, h: nat, st: ScanState, next: ScanState)
    requires ErrorRows(rows, h, st)
    requires next.rowNumber == st.rowNumber + 1 && h + next.rowNumber <= |rows|
    requires st.result.errors <= next.result.errors && |next.result.errors| <= |st.result.errors| + 1
    requires |next.result.errors| == |st.result.errors| + 1 ==>
               (!RowIsBlank(rows[h + next.rowNumber - 1])
                && next.result.errors[|st.result.errors|].row == next.rowNumber)
    ensures ErrorRows(rows, h, next)
  {
    var es := st.result.errors;
    var es' := next.result.errors;
    if |es'| == |es| {
      assert es' == es;
    } else {
      assert es' == es + [es'[|es|]];
      ErrorAppended(rows, h, st.rowNumber, es, es'[|es|]);
    }
  }

  /** Appending an error on a later non-blank row keeps the errors on
      non-blank rows and ascending. */
  lemma ErrorAppended(rows: seq<seq<string>>, h: nat, n: nat, es: seq<ImportError>, e: ImportError)
    requires forall j :: 0 <= j < |es| ==> es[j].row <= n
    requires RowsNonBlank(rows, h, es) && RowsAscending(es)
    requires 1 <= n && e.row == n + 1 && h + e.row <= |rows| && !RowIsBlank(rows[h + e.row - 1])
    ensures RowsNonBlank(rows, h, es + [e]) && RowsAscending(es + [e])
  {
    NonBlankAppended(rows, h, es, e);
    AscendingAppended(n, es, e);
  }

  lemma NonBlankAppended(rows: seq<seq<string>>, h: nat, es: seq<ImportError>, e: ImportError)
    requires RowsNonBlank(rows, h, es)
    requires 2 <= e.row && h + e.row - 1 < |rows| && !RowIsBlank(rows[h + e.row - 1])
    ensures RowsNonBlank(rows, h, es + [e])
  {
    var es' := es + [e];
    forall j | 0 <= j < |es'|
      ensures 2 <= es'[j].row && h + es'[j].row - 1 < |rows| && !RowIsBlank(rows[h + es'[j].row - 1])
    {
      if j < |es| { assert es'[j] == es[j]; }
    }
  }

  lemma AscendingAppended(n: nat, es: seq<ImportError>, e: ImportError)
    requires forall j :: 0 <= j < |es| ==> es[j].row <= n
    requires RowsAscending(es) && e.row == n + 1
    ensures RowsAscending(es + [e])
  {
    var es' := es + [e];
    forall j, k | 0 <= j < k < |es'|
      ensures es'[j].row < es'[k].row
    {
      assert es'[j] == es[j];
      if k < |es| { assert es'[k] == es[k]; }
    }
  }


  lemma {:induction false} ScanErrorRows(header: seq<string>, rows: seq<seq<string>>, h: nat, i: nat,
                                         check: Classifier, create: (nat, Draft) -> Option<string>, st: ScanState)
    requires i == h + st.rowNumber && ErrorRows(rows, h, st)
    ensures ErrorRows(rows, h, ScanFrom(header, rows, i, check, create, st))
    decreases |rows| - i
  {
    if i < |rows| && !st.stopped {
      StepErrorRows(header, rows, h, i, check, create, st);
      ScanErrorRows(header, rows, h, i + 1, check, create, Step(header, rows[i], check, create, st));
    }
  }

  // ---------------------------------------------------------------------
  // The plan quota

  /** The quota counter started at q0 and went down once per created row,
      never below zero; without a plan there is no counter. */
  predicate QuotaKept(q0: Option<int>, st: ScanState) {
    (q0.None? ==> st.quota.None?)
    && (q0.Some? ==> st.quota.Some? && 0 <= st.quota.value && st.quota.value + st.result.created == q0.value)
  }

  lemma StepQuotaKept(header: seq<string>, row: seq<string>, check: Classifier,
                      create: (nat, Draft) -> Option<string>, q0: Option<int>, st: ScanState)
    requires Guards(check) && QuotaKept(q0, st)
    ensures QuotaKept(q0, Step(header, row, check, create, st))
  {
    if !RowIsBlank(row) {
      var v := check(RowData(header, row), st.store, st.quota);
      assert v.Ready? ==> QuotaLeft(st.quota);
    }
  }

  lemma {:induction false} ScanQuotaKept(header: seq<string>, rows: seq<seq<string>>, i: nat, check: Classifier,
                                         create: (nat, Draft) -> Option<string>, q0: Option<int>, st: ScanState)
    requires Guards(check) && QuotaKept(q0, st)
    ensures QuotaKept(q0, ScanFrom(header, rows, i, check, create, st))
    decreases |rows| - i
  {
    if i < |rows| && !st.stopped {
      StepQuotaKept(header, rows[i], check, create, q0, st);
      ScanQuotaKept(header, rows, i + 1, check, create, q0, Step(header, rows[i], check, create, st));
    }
  }

  // ---------------------------------------------------------------------
  // Employee codes

  function Codes(drafts: seq<Draft>): set<string> {
    set j | 0 <= j < |drafts| :: drafts[j].code
  }

  /** The stored codes are the existing ones and those created, and the
      created codes are pairwise distinct and none of them existed. */
  predicate CodesKept(existing: set<string>, st: ScanState) {
    st.store == existing + Codes(st.drafts) && DistinctCodes(st.drafts) && NewCodes(st.drafts, existing)
  }

  predicate DistinctCodes(drafts: seq<Draft>) {
    forall j, k :: 0 <= j < k < |drafts| ==> drafts[j].code != drafts[k].code
  }

  predicate NewCodes(drafts: seq<Draft>, existing: set<string>) {
    forall j :: 0 <= j < |drafts| ==> drafts[j].code !in existing
  }

  lemma CodesAppend(drafts: seq<Draft>, d: Draft)
    ensures Codes(drafts + [d]) == Codes(drafts) + {d.code}
  {
    var ds := drafts + [d];
    forall c | c in Codes(ds) ensures c in Codes(drafts) + {d.code} {
      var j :| 0 <= j < |ds| && ds[j].code == c;
      if j < |drafts| {
        assert drafts[j].code == c;
      }
    }
    forall c | c in Codes(drafts) ensures c in Codes(ds) {
      var j :| 0 <= j < |drafts| && drafts[j].code == c;
      assert ds[j].code == c;
    }
    assert ds[|drafts|].code == d.code;
  }

  lemma StepCodesKept(header: seq<string>, row: seq<string>, check: Classifier,
                      create: (nat, Draft) -> Option<string>, existing: set<string>, st: ScanState)
    requires Guards(check) && CodesKept(existing, st)
    ensures CodesKept(existing, Step(header, row, check, create, st))
  {
    if !RowIsBlank(row) {
      var v := check(RowData(header, row), st.store, st.quota);
      if v.Ready? && create(st.rowNumber + 1, v.draft).None? {
        var d := v.draft;
        assert d.code !in st.store;
        CodesAppend(st.drafts, d);
        forall j | 0 <= j < |st.drafts| ensures st.drafts[j].code != d.code {
          assert st.drafts[j].code in Codes(st.drafts);
        }
      }
    }
  }

  lemma {:induction false} ScanCodesKept(header: seq<string>, rows: seq<seq<string>>, i: nat, check: Classifier,
                                         create: (nat, Draft) -> Option<string>, existing: set<string>, st: ScanState)
    requires Guards(check) && CodesKept(existing, st)
    ensures CodesKept(existing, ScanFrom(header, rows, i, check, create, st))
    decreases |rows| - i
  {
    if i < |rows| && !st.stopped {
      StepCodesKept(header, rows[i], check, create, existing, st);
      ScanCodesKept(header, rows, i + 1, check, create, existing, Step(header, rows[i], check, create, st));
    }
  }

  // ---------------------------------------------------------------------
  // The plan-limit break

  /** The loop has broken off exactly when the last error is the plan
      limit, and no earlier error is. */
  predicate StopMarked(st: ScanState) {
    (st.stopped <==> EndsAtPlanLimit(st.result.errors)) && PlanLimitOnlyLast(st.result.errors)
  }

  predicate EndsAtPlanLimit(es: seq<ImportError>) {
    |es| > 0 && es[|es| - 1].failure == PlanLimitReached
  }

  /** No error but the last one is the plan limit. */
  predicate PlanLimitOnlyLast(es: seq<ImportError>) {
    forall j :: 0 <= j < |es| - 1 ==> es[j].failure != PlanLimitReached
  }

  lemma StepStopMarked(header: seq<string>, row: seq<string>, check: Classifier,
                       create: (nat, Draft) -> Option<string>, st: ScanState)
    requires StopMarked(st) && !st.stopped
    ensures StopMarked(Step(header, row, check, create, st))
  {
    var next := Step(header, row, check, create, st);
    var es := st.result.errors;
    if |es| > 0 {
      assert es[|es| - 1].failure != PlanLimitReached;
    }
    if |next.result.errors| > |es| {
      assert next.result.errors[..|es|] == es;
    }
  }

  lemma {:induction false} ScanStopMarked(header: seq<string>, rows: seq<seq<string>>, i: nat, check: Classifier,
                                          create: (nat, Draft) -> Option<string>, st: ScanState)
    requires StopMarked(st)
    ensures StopMarked(ScanFrom(header, rows, i, check, create, st))
    decreases |rows| - i
  {
    if i < |rows| && !st.stopped {
      StepStopMarked(header, rows[i], check, create, st);
      ScanStopMarked(header, rows, i + 1, check, create, Step(header, rows[i], check, create, st));
    }
  }

  /** Rows after the plan-limit break are never read: a file that goes on
      past the break gives the same result. */
  lemma {:induction false} ScanIgnoresRest(header: seq<string>, rows: seq<seq<string>>, more: seq<seq<string>>,
                                           i: nat, check: Classifier, create: (nat, Draft) -> Option<string>,
                                           st: ScanState)
    requires ScanFrom(header, rows, i, check, create, st).stopped
    ensures ScanFrom(header, rows + more, i, check, create, st) == ScanFrom(header, rows, i, check, create, st)
    decreases |rows| - i
  {
    if i < |rows| && !st.stopped {
      assert (rows + more)[i] == rows[i];
      ScanIgnoresRest(header, rows, more, i + 1, check, create, Step(header, rows[i], check, create, st));
    }
  }

  // ---------------------------------------------------------------------
  // The import as a whole

  /** What a scan from the state before the first data row ends with, for
      a row check that guards the quota and the stored codes. */
  predicate ScanResultFacts(rows: seq<seq<string>>, h: nat, q0: Option<int>, existing: set<string>, r: ScanState) {
    var es := r.result.errors;
    Balanced(r) && ErrorRows(rows, h, r) && QuotaKept(q0, r) && CodesKept(existing, r) && StopMarked(r)
    && (!r.stopped ==> r.result.processed == NonBlankCount(rows, h + 1))
  }

  lemma ScanFromStart(header: seq<string>, rows: seq<seq<string>>, h: nat, check: Classifier,
                      create: (nat, Draft) -> Option<string>, q0: Option<int>, existing: set<string>)
    requires h < |rows| && Guards(check) && (q0.Some? ==> q0.value >= 0)
    ensures ScanResultFacts(rows, h, q0, existing,
                            ScanFrom(header, rows, h + 1, check, create,
                                     ScanState(1, ImportResult(0, 0, 0, []), q0, existing, [], false)))
  {
    var st0 := ScanState(1, ImportResult(0, 0, 0, []), q0, existing, [], false);
    assert Codes([]) == {};
    ScanBalanced(header, rows, h + 1, check, create, st0);
    ScanErrorRows(header, rows, h, h + 1, check, create, st0);
    ScanQuotaKept(header, rows, h + 1, check, create, q0, st0);
    ScanCodesKept(header, rows, h + 1, check, create, existing, st0);
    ScanStopMarked(header, rows, h + 1, check, create, st0);
    ScanCounts(header, rows, h + 1, check, create, st0);
  }

  /** A completed import's results: the counters balance, the errors name
      data rows in ascending order, no more employees are created than the
      plan had room for, the created codes are new and distinct and are
      added to the stored ones, the plan-limit error is recorded at most
      once and last, and without it every non-blank data row was processed. */
  lemma CompletedImport(rows: seq<seq<string>>, ctx: Ctx)
    requires RunImport(Csv(rows), ctx).Completed?
    ensures var o := RunImport(Csv(rows), ctx);
            var r := o.result;
            var h := FirstNonBlank(rows, 0);
            r.created + r.skipped == r.processed && r.skipped == |r.errors| && |o.created| == r.created
            && RowsNonBlank(rows, h, r.errors) && RowsAscending(r.errors)
            && (ctx.plan.Some? ==> r.created <= ctx.plan.value.remaining)
            && o.store == ctx.existing + Codes(o.created) && DistinctCodes(o.created) && NewCodes(o.created, ctx.existing)
            && PlanLimitOnlyLast(r.errors)
            && (!EndsAtPlanLimit(r.errors) ==> r.processed == NonBlankCount(rows, h + 1))
  {
    var h := FirstNonBlank(rows, 0);
    CompletedPassedChecks(rows, ctx);
    var header := SanitizeHeaders(rows[h]);
    var check := RowCheck(AllColumnNames, ctx);
    var st := ScanFrom(header, rows, h + 1, check, ctx.create, InitialState(ctx));
    RunImportScans(rows, ctx, h);
    assert RunImport(Csv(rows), ctx) == Completed(st.result, st.store, st.drafts);
    RowCheckGuards(AllColumnNames, ctx);
    ScanFromStart(header, rows, h, check, ctx.create, QuotaOf(ctx.plan), ctx.existing);
    ScanFacts(rows, h, QuotaOf(ctx.plan), ctx.existing, st);
  }

  /** An import that completes has passed every up-front check. */
  lemma CompletedPassedChecks(rows: seq<seq<string>>, ctx: Ctx)
    requires RunImport(Csv(rows), ctx).Completed?
    ensures QuotaLeft(QuotaOf(ctx.plan))
    ensures FirstNonBlank(rows, 0) < |rows|
    ensures MissingColumns(AllColumnNames, SanitizeHeaders(rows[FirstNonBlank(rows, 0)])) == []
  {
    RunImportReadsCsv(rows, ctx);
  }

  /** ScanResultFacts, spelled out. */
  lemma ScanFacts(rows: seq<seq<string>>, h: nat, q0: Option<int>, existing: set<string>, st: ScanState)
    requires ScanResultFacts(rows, h, q0, existing, st)
    ensures var r := st.result;
            r.created + r.skipped == r.processed && r.skipped == |r.errors| && |st.drafts| == r.created
            && RowsNonBlank(rows, h, r.errors) && RowsAscending(r.errors)
            && (q0.Some? ==> r.created <= q0.value)
            && st.store == existing + Codes(st.drafts) && DistinctCodes(st.drafts) && NewCodes(st.drafts, existing)
            && PlanLimitOnlyLast(r.errors)
            && (!EndsAtPlanLimit(r.errors) ==> r.processed == NonBlankCount(rows, h + 1))
  {
  }
}
