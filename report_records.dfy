/** The turnover report's records, as the queries return them: a profile's
    user and its branch and department names (each possibly missing), and
    the dates each kind of record carries. */
module ReportRecords {
  import opened Prelude
  import opened Calendar

  datatype Person = Person(name: Option<string>, email: Option<string>,
                           branch: Option<string>, department: Option<string>)

  /** An employee hired in the window, by `date_of_joining`. */
  datatype HireRecord = HireRecord(who: Person, joined: Option<Date>)

  /** An approved or completed resignation. */
  datatype ResignationRecord = ResignationRecord(who: Person, resignationDate: Option<Date>,
                                                 lastWorkingDay: Option<Date>, status: Option<string>)

  /** An approved or completed termination. */
  datatype TerminationRecord = TerminationRecord(who: Person, terminationDate: Option<Date>,
                                                 status: Option<string>)
}
