/** The import as the loop the controller runs: the `$results` ledger
    updated in place, the header found once, and each later row counted,
    checked and settled; proved to compute RunImport. */
module ImportLoop {
  import opened Prelude
  import opened ImportRows
  import opened EmployeeImport

  /** A non-blank row is classified and settled under the next row number. */
  lemma StepOnDataRow(header: seq<string>, row: seq<string>, check: Classifier, create: (nat, Draft) -> Option<string>,
                      st: ScanState, next: ScanState)
    requires !RowIsBlank(row)
    requires next == Settle(check(RowData(header, row), st.store, st.quota), st.rowNumber + 1, create,
                            st.result.(processed := st.result.processed + 1), st.quota, st.store, st.drafts)
    ensures Step(header, row, check, create, st) == next
  {
  }

  /** One more row of a scan that has not broken off. */
  lemma ScanFromStep(header: seq<string>, rows: seq<seq<string>>, i: nat, check: Classifier,
                     create: (nat, Draft) -> Option<string>, st: ScanState)
    requires i < |rows| && !st.stopped
    ensures ScanFrom(header, rows, i, check, create, st)
            == ScanFrom(header, rows, i + 1, check, create, Step(header, rows[i], check, create, st))
  {
  }

  /** The `$results` array, updated in place by the loop and by
      recordImportError. */
  class Ledger {
    var processed: nat
    var created: nat
    var skipped: nat
    var errors: seq<ImportError>

    constructor ()
      ensures Snapshot() == ImportResult(0, 0, 0, [])
    {
      processed := 0;
      created := 0;
      skipped := 0;
      errors := [];
    }

    function Snapshot(): ImportResult
      reads this
    {
      ImportResult(processed, created, skipped, errors)
    }

    method CountProcessed()
      modifies this
      ensures Snapshot() == old(Snapshot()).(processed := old(processed) + 1)
    {
      processed := processed + 1;
    }

    method CountCreated()
      modifies this
      ensures Snapshot() == old(Snapshot()).(created := old(created) + 1)
    {
      created := created + 1;
    }

    /** recordImportError. */
    method RecordImportError(row: nat, f: Failure)
      modifies this
      ensures Snapshot() == WithError(old(Snapshot()), row, f)
    {
      errors := errors + [ImportError(row, f)];
      skipped := skipped + 1;
    }
  }

  /** The foreach that sanitises every mapped value in place. */
  method SanitizeValues(m: map<string, Option<string>>) returns (r: map<string, Option<string>>)
    ensures r == SanitizeRow(m)
  {
    r := m;
    var todo := m.Keys;
    while todo != {}
      invariant todo <= m.Keys && r.Keys == m.Keys
      invariant forall c :: c in r ==> r[c] == (if c in todo then m[c] else SanitizeCell(m[c]))
      decreases todo
    {
      var c :| c in todo;
      r := r[c := SanitizeCell(m[c])];
      todo := todo - {c};
    }
  }

  /** One processed data row, on the ledger and the loop's variables:
      the row's end as Settle describes it. */
  method SettleRow(verdict: Verdict, n: nat, create: (nat, Draft) -> Option<string>, results: Ledger,
                   quota: Option<int>, store: set<string>, created: seq<Draft>)
    returns (quota': Option<int>, store': set<string>, created': seq<Draft>, stop: bool)
    modifies results
    ensures ScanState(n, results.Snapshot(), quota', store', created', stop)
            == Settle(verdict, n, create, old(results.Snapshot()), quota, store, created)
  {
    quota', store', created', stop := quota, store, created, false;
    match verdict
    case Reject(f) =>
      results.RecordImportError(n, f);
      stop := f == PlanLimitReached;
    case Ready(d) =>
      var failure := create(n, d);
      if failure.Some? {
        results.RecordImportError(n, Unexpected(failure.value));
      } else {
        results.CountCreated();
        if quota.Some? {
          quota' := Some(quota.value - 1);
        }
        store' := store + {d.code};
        created' := created + [d];
      }
  }

  /** One row after the header, on the ledger and the loop's variables:
      the step Step describes. */
  method ProcessRow(header: seq<string>, row: seq<string>, check: Classifier, create: (nat, Draft) -> Option<string>,
                    results: Ledger, rowNumber: nat,
                    quota: Option<int>, store: set<string>, created: seq<Draft>)
    returns (rowNumber': nat, quota': Option<int>, store': set<string>, created': seq<Draft>, stop: bool)
    modifies results
    ensures ScanState(rowNumber', results.Snapshot(), quota', store', created', stop)
            == Step(header, row, check, create, ScanState(rowNumber, old(results.Snapshot()), quota, store, created, false))
  {
    rowNumber' := rowNumber + 1;
    var blank := IsRowEmpty(row);
    if blank {
      return rowNumber', quota, store, created, false;
    }
    ghost var before := results.Snapshot();
    quota', store', created', stop := ProcessDataRow(header, row, check, create, results, rowNumber', quota, store, created);
    StepOnDataRow(header, row, check, create, ScanState(rowNumber, before, quota, store, created, false),
                  ScanState(rowNumber', results.Snapshot(), quota', store', created', stop));
  }

  /** A non-blank row after the header: counted, mapped, sanitised,
      classified and settled. */
  method ProcessDataRow(header: seq<string>, row: seq<string>, check: Classifier, create: (nat, Draft) -> Option<string>,
                        results: Ledger, n: nat,
                        quota: Option<int>, store: set<string>, created: seq<Draft>)
    returns (quota': Option<int>, store': set<string>, created': seq<Draft>, stop: bool)
    modifies results
    ensures ScanState(n, results.Snapshot(), quota', store', created', stop)
            == Settle(check(RowData(header, row), store, quota), n, create,
                      old(results.Snapshot()).(processed := old(results.Snapshot()).processed + 1),
                      quota, store, created)
  {
    results.CountProcessed();
    var mapped := MapRowValues(header, row);
    var data := SanitizeValues(mapped);
    MappedRowData(header, row, mapped);
    var verdict := check(data, store, quota);
    quota', store', created', stop := SettleRow(verdict, n, create, results, quota, store, created);
  }

  /** The `if (!$header)` phase of the loop: blank rows before the
      header are passed over. */
  method FindHeader(rows: seq<seq<string>>) returns (h: nat)
    ensures h == FirstNonBlank(rows, 0)
  {
    h := 0;
    var found := false;
    while h < |rows| && !found
      invariant h <= |rows|
      invariant forall k :: 0 <= k < h ==> RowIsBlank(rows[k])
      invariant found ==> h < |rows| && !RowIsBlank(rows[h])
      decreases |rows| - h, !found
    {
      var blank := IsRowEmpty(rows[h]);
      if blank {
        h := h + 1;
      } else {
        found := true;
      }
    }
    FirstNonBlankIs(rows, 0, h);
  }

  /** The rest of the loop, after the header row: each row is the step
      Step describes, until the rows run out or the plan limit breaks it. */
  method ScanRows(header: seq<string>, rows: seq<seq<string>>, start: nat, check: Classifier,
                  create: (nat, Draft) -> Option<string>, results: Ledger, rowNumber: nat,
                  quota: Option<int>, store: set<string>, created: seq<Draft>)
    returns (rowNumber': nat, quota': Option<int>, store': set<string>, created': seq<Draft>, stop: bool)
    modifies results
    ensures ScanState(rowNumber', results.Snapshot(), quota', store', created', stop)
            == ScanFrom(header, rows, start, check, create,
                        ScanState(rowNumber, old(results.Snapshot()), quota, store, created, false))
  {
    rowNumber', quota', store', created', stop := rowNumber, quota, store, created, false;
    var i := start;
    while i < |rows| && !stop
      invariant ScanFrom(header, rows, i, check, create, ScanState(rowNumber', results.Snapshot(), quota', store', created', stop))
                == ScanFrom(header, rows, start, check, create,
                            ScanState(rowNumber, old(results.Snapshot()), quota, store, created, false))
      decreases |rows| - i
    {
      ScanFromStep(header, rows, i, check, create, ScanState(rowNumber', results.Snapshot(), quota', store', created', false));
      rowNumber', quota', store', created', stop :=
        ProcessRow(header, rows[i], check, create, results, rowNumber', quota', store', created');
      i := i + 1;
    }
  }

  /** import(): the up-front refusals, then the rows of the file. */
  method Import(upload: Upload, ctx: Ctx) returns (outcome: ImportOutcome)
    ensures outcome == RunImport(upload, ctx)
  {
    if upload.NoUpload? {
      return Refused(NoFile);
    }
    var quota := QuotaOf(ctx.plan);
    if quota.Some? && quota.value <= 0 {
      return Refused(LimitExceeded);
    }
    if upload.Unreadable? {
      return Refused(CannotOpen);
    }
    outcome := ImportRowsOf(upload.rows, ctx);
    RunImportReadsCsv(upload.rows, ctx);
  }

  /** The body of import() once the file is open: the header row and its
      column check, then the data rows with `$rowNumber`, `$results` and
      the plan counter as mutable state. */
  method ImportRowsOf(rows: seq<seq<string>>, ctx: Ctx) returns (outcome: ImportOutcome)
    requires QuotaLeft(QuotaOf(ctx.plan))
    ensures outcome == ImportCsv(rows, ctx)
  {
    var h := FindHeader(rows);
    if h == |rows| {
      return Refused(NoData);
    }
    var required := RequiredColumns();
    var header := SanitizeHeaders(rows[h]);
    var missing := MissingColumns(required, header);
    if missing != [] {
      return Refused(MissingColumnsIn(missing));
    }
    var results := new Ledger();
    var rowNumber, quota, store, created, stop;
    rowNumber, quota, store, created, stop :=
      ScanRows(header, rows, h + 1, RowCheck(required, ctx), ctx.create, results, 1, QuotaOf(ctx.plan), ctx.existing, []);
    return Completed(results.Snapshot(), store, created);
  }
}
