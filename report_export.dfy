/** The CSV exports of the report controller. The termination export goes
    through generateExcelResponse, which writes a header line and then one
    line per record through a row mapper; the turnover export assembles its
    rows in three loops and writes them with its own callback of the same
    shape. The CSV
    encoding of a line is not modelled: a written line is its cells. */
module ReportExport {
  import opened Prelude
  import opened Calendar
  import opened ReportRecords

  /** The lines a CSV export writes: the header, then each record's row, in
      the records' order. */
  function CsvDocument<T>(header: seq<string>, records: seq<T>, mapper: T -> seq<string>): (lines: seq<seq<string>>)
    ensures |lines| == |records| + 1 && lines[0] == header
    ensures forall i :: 0 <= i < |records| ==> lines[i + 1] == mapper(records[i])
  {
    [header] + seq(|records|, i requires 0 <= i < |records| => mapper(records[i]))
  }

  /** generateExcelResponse's callback: fputcsv of the header, then of each
      mapped record. */
  method WriteCsv<T>(header: seq<string>, records: seq<T>, mapper: T -> seq<string>)
    returns (lines: seq<seq<string>>)
    ensures lines == CsvDocument(header, records, mapper)
  {
    lines := [header];
    for i := 0 to |records|
      invariant |lines| == i + 1 && lines[0] == header
      invariant forall k :: 0 <= k < i ==> lines[k + 1] == mapper(records[k])
    {
      lines := lines + [mapper(records[i])];
    }
  }

  /** When the mapper gives every record as many cells as the header has,
      every line of the file has that many cells. */
  lemma CsvDocumentWidth<T>(header: seq<string>, records: seq<T>, mapper: T -> seq<string>)
    requires forall r :: r in records ==> |mapper(r)| == |header|
    ensures forall k :: 0 <= k < |CsvDocument(header, records, mapper)| ==>
              |CsvDocument(header, records, mapper)[k]| == |header|
  {
    var lines := CsvDocument(header, records, mapper);
    forall k | 0 <= k < |lines| ensures |lines[k]| == |header| {
      if k > 0 {
        assert records[k - 1] in records;
      }
    }
  }

  // ---------------------------------------------------------------------
  // Cells

  /** `?? ''` and `?? 'Not Assigned'`. */
  function OrElse(v: Option<string>, fallback: string): string {
    if v.Some? then v.value else fallback
  }

  /** A date written as 'Y-m-d', or '-' when the column is null. */
  function DateCell(d: Option<Date>): string {
    if d.Some? then FormatYmd(d.value) else "-"
  }

  /** `ucfirst($status ?? 'pending')`. */
  function StatusCell(status: Option<string>): (c: string)
    ensures status.None? ==> c == "Pending"
    ensures status.Some? ==> |c| == |status.value|
    ensures status.Some? && status.value != [] ==>
              c[0] == UpperChar(status.value[0]) && c[1..] == status.value[1..]
  {
    UpperFirst(OrElse(status, "pending"))
  }

  /** The four cells that name the person. */
  function PersonCells(p: Person): (cells: seq<string>)
    ensures |cells| == 4
  {
    [OrElse(p.name, ""), OrElse(p.email, ""), OrElse(p.branch, "Not Assigned"), OrElse(p.department, "Not Assigned")]
  }

  // ---------------------------------------------------------------------
  // The turnover export

  const TurnoverHeader: seq<string> :=
    ["Employee Name", "Employee Email", "Branch", "Department", "Type", "Event Date", "Last Working Day", "Status"]

  const TypeColumn: nat := 4

  function HireRow(h: HireRecord): (row: seq<string>)
    ensures |row| == |TurnoverHeader| && row[TypeColumn] == "New Hire"
  {
    PersonCells(h.who) + ["New Hire", DateCell(h.joined), "-", "-"]
  }

  function ResignationRow(r: ResignationRecord): (row: seq<string>)
    ensures |row| == |TurnoverHeader| && row[TypeColumn] == "Resignation"
  {
    PersonCells(r.who) + ["Resignation", DateCell(r.resignationDate), DateCell(r.lastWorkingDay), StatusCell(r.status)]
  }

  function TerminationRow(t: TerminationRecord): (row: seq<string>)
    ensures |row| == |TurnoverHeader| && row[TypeColumn] == "Termination"
  {
    PersonCells(t.who) + ["Termination", DateCell(t.terminationDate), "-", StatusCell(t.status)]
  }

  /** `$combinedData`: every hire, then every resignation, then every
      termination, each in its query's order. */
  predicate CombinedRows(rows: seq<seq<string>>, hires: seq<HireRecord>,
                         resignations: seq<ResignationRecord>, terminations: seq<TerminationRecord>) {
    |rows| == |hires| + |resignations| + |terminations|
    && (forall i :: 0 <= i < |hires| ==> rows[i] == HireRow(hires[i]))
    && (forall i :: 0 <= i < |resignations| ==> rows[|hires| + i] == ResignationRow(resignations[i]))
    && (forall i :: 0 <= i < |terminations| ==>
          rows[|hires| + |resignations| + i] == TerminationRow(terminations[i]))
  }

  /** exportTurnoverReport's three foreach loops. */
  method TurnoverRows(hires: seq<HireRecord>, resignations: seq<ResignationRecord>,
                      terminations: seq<TerminationRecord>) returns (combined: seq<seq<string>>)
    ensures CombinedRows(combined, hires, resignations, terminations)
  {
    combined := [];
    for i := 0 to |hires|
      invariant |combined| == i
      invariant forall k :: 0 <= k < i ==> combined[k] == HireRow(hires[k])
    {
      combined := combined + [HireRow(hires[i])];
    }
    for i := 0 to |resignations|
      invariant |combined| == |hires| + i
      invariant forall k :: 0 <= k < |hires| ==> combined[k] == HireRow(hires[k])
      invariant forall k :: 0 <= k < i ==> combined[|hires| + k] == ResignationRow(resignations[k])
    {
      combined := combined + [ResignationRow(resignations[i])];
    }
    for i := 0 to |terminations|
      invariant |combined| == |hires| + |resignations| + i
      invariant forall k :: 0 <= k < |hires| ==> combined[k] == HireRow(hires[k])
      invariant forall k :: 0 <= k < |resignations| ==> combined[|hires| + k] == ResignationRow(resignations[k])
      invariant forall k :: 0 <= k < i ==>
                  combined[|hires| + |resignations| + k] == TerminationRow(terminations[k])
    {
      combined := combined + [TerminationRow(terminations[i])];
    }
  }

  /** Every line of the turnover file is eight cells wide. */
  lemma TurnoverFileWidth(combined: seq<seq<string>>, hires: seq<HireRecord>,
                          resignations: seq<ResignationRecord>, terminations: seq<TerminationRecord>)
    requires CombinedRows(combined, hires, resignations, terminations)
    ensures var lines := CsvDocument(TurnoverHeader, combined, (row: seq<string>) => row);
            |lines| == 1 + |hires| + |resignations| + |terminations|
            && forall k :: 0 <= k < |lines| ==> |lines[k]| == |TurnoverHeader|
  {
    var lines := CsvDocument(TurnoverHeader, combined, (row: seq<string>) => row);
    forall k | 0 <= k < |lines| ensures |lines[k]| == |TurnoverHeader| {
      if k > 0 {
        RowOfCombined(combined, hires, resignations, terminations, k - 1);
      }
    }
  }

  /** The Type column groups the rows: new hires first, then resignations,
      then terminations. */
  lemma TurnoverTypeColumn(combined: seq<seq<string>>, hires: seq<HireRecord>,
                           resignations: seq<ResignationRecord>, terminations: seq<TerminationRecord>)
    requires CombinedRows(combined, hires, resignations, terminations)
    ensures forall i :: 0 <= i < |combined| ==>
              |combined[i]| == |TurnoverHeader|
              && (combined[i][TypeColumn] == "New Hire" <==> i < |hires|)
              && (combined[i][TypeColumn] == "Resignation" <==> |hires| <= i < |hires| + |resignations|)
              && (combined[i][TypeColumn] == "Termination" <==> |hires| + |resignations| <= i)
  {
    forall i | 0 <= i < |combined|
      ensures |combined[i]| == |TurnoverHeader|
              && (combined[i][TypeColumn] == "New Hire" <==> i < |hires|)
              && (combined[i][TypeColumn] == "Resignation" <==> |hires| <= i < |hires| + |resignations|)
              && (combined[i][TypeColumn] == "Termination" <==> |hires| + |resignations| <= i)
    {
      RowOfCombined(combined, hires, resignations, terminations, i);
    }
  }

  /** Row i of the combined rows is the row of the record it comes from. */
  lemma RowOfCombined(combined: seq<seq<string>>, hires: seq<HireRecord>,
                      resignations: seq<ResignationRecord>, terminations: seq<TerminationRecord>, i: nat)
    requires CombinedRows(combined, hires, resignations, terminations) && i < |combined|
    ensures |combined[i]| == |TurnoverHeader|
    ensures i < |hires| ==> combined[i][TypeColumn] == "New Hire"
    ensures |hires| <= i < |hires| + |resignations| ==> combined[i][TypeColumn] == "Resignation"
    ensures |hires| + |resignations| <= i ==> combined[i][TypeColumn] == "Termination"
  {
    if i < |hires| {
      assert combined[i] == HireRow(hires[i]);
    } else if i < |hires| + |resignations| {
      assert combined[i] == ResignationRow(resignations[i - |hires|]);
    } else {
      assert combined[i] == TerminationRow(terminations[i - |hires| - |resignations|]);
    }
  }

  /** exportTurnoverReport's callback: the combined rows written under the
      turnover header. */
  method ExportTurnoverReport(hires: seq<HireRecord>, resignations: seq<ResignationRecord>,
                              terminations: seq<TerminationRecord>) returns (lines: seq<seq<string>>)
    ensures |lines| == 1 + |hires| + |resignations| + |terminations| && lines[0] == TurnoverHeader
    ensures forall k :: 0 <= k < |lines| ==> |lines[k]| == |TurnoverHeader|
    ensures CombinedRows(lines[1..], hires, resignations, terminations)
  {
    var combined := TurnoverRows(hires, resignations, terminations);
    lines := WriteCsv(TurnoverHeader, combined, (row: seq<string>) => row);
    TurnoverFileWidth(combined, hires, resignations, terminations);
    assert lines[1..] == combined;
  }

  // ---------------------------------------------------------------------
  // One generateExcelResponse mapper: the termination export

  /** A termination as the termination export reads it. */
  datatype TerminationExportRecord = TerminationExportRecord(
    who: Person, terminationType: Option<string>, terminationDate: Option<Date>, noticeDate: Option<Date>,
    noticePeriod: Option<int>, reason: Option<string>, status: Option<string>, approver: Option<string>)

  const TerminationExportHeader: seq<string> :=
    ["Employee Name", "Employee Email", "Branch", "Department", "Termination Type", "Termination Date",
     "Notice Date", "Notice Period (Days)", "Reason", "Status", "Approved By"]

  function TerminationExportRow(r: TerminationExportRecord): (row: seq<string>)
    ensures |row| == |TerminationExportHeader|
  {
    PersonCells(r.who)
    + [OrElse(r.terminationType, "-"), DateCell(r.terminationDate), DateCell(r.noticeDate),
       if r.noticePeriod.Some? then IntToString(r.noticePeriod.value) else "0",
       OrElse(r.reason, ""), StatusCell(r.status), OrElse(r.approver, "-")]
  }

  /** The termination export: its header, then one line per termination,
      each as wide as the header. */
  method ExportTerminationReport(records: seq<TerminationExportRecord>) returns (lines: seq<seq<string>>)
    ensures |lines| == |records| + 1 && lines[0] == TerminationExportHeader
    ensures forall k :: 0 <= k < |lines| ==> |lines[k]| == |TerminationExportHeader|
    ensures forall i :: 0 <= i < |records| ==> lines[i + 1] == TerminationExportRow(records[i])
  {
    lines := WriteCsv(TerminationExportHeader, records, TerminationExportRow);
    CsvDocumentWidth(TerminationExportHeader, records, TerminationExportRow);
  }
}
