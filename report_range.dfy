/** The report controller's request helpers: the page size, the reporting
    window, and the turnover totals shown above the turnover report. */
module ReportRange {
  import opened Prelude
  import opened PhpNumeric
  import opened Calendar

  // ---------------------------------------------------------------------
  // perPage

  const DefaultPerPage: int := 10
  const MinPerPage: int := 5
  const MaxPerPage: int := 100

  /** `per_page` as given (None when the request has none), cast with
      (int) and clamped into [5, 100]; 10 when absent. */
  function PerPage(perPage: Option<string>): (n: int)
    ensures MinPerPage <= n <= MaxPerPage
    ensures perPage.None? ==> n == DefaultPerPage
  {
    var requested := if perPage.Some? then IntCast(perPage.value) else DefaultPerPage;
    if requested < MinPerPage then MinPerPage
    else if requested > MaxPerPage then MaxPerPage
    else requested
  }

  /** A page size inside the bounds is taken as given; one outside them
      gives the nearer bound. */
  lemma PerPageClamps(s: string)
    ensures MinPerPage <= IntCast(s) <= MaxPerPage ==> PerPage(Some(s)) == IntCast(s)
    ensures IntCast(s) < MinPerPage ==> PerPage(Some(s)) == MinPerPage
    ensures IntCast(s) > MaxPerPage ==> PerPage(Some(s)) == MaxPerPage
  {
  }

  /** A value that is not a number casts to 0, which gives the smallest
      page. */
  lemma PerPageNotNumber(s: string)
    requires !HasLeadingNumber(s)
    ensures PerPage(Some(s)) == MinPerPage
  {
    IntCastWithoutLeadingNumber(s);
  }

  /** A page size written in digits is that number, clamped. */
  lemma PerPageDigits(s: string)
    requires s != [] && forall k :: 0 <= k < |s| ==> IsDigit(s[k])
    ensures PerPage(Some(s)) == if DigitsValue(s) > MaxPerPage then MaxPerPage
                                else if DigitsValue(s) < MinPerPage then MinPerPage
                                else DigitsValue(s)
  {
    IntCastOfDigits(s);
  }

  // ---------------------------------------------------------------------
  // resolveDateRange

  /** The default window's start as the controller writes it: five months
      back with Carbon's subMonths, which lets a day the target month lacks
      spill into the month after, then the start of that month. */
  function DefaultStartAsWritten(now: Moment): (r: Moment)
    requires ValidMoment(now)
    ensures ValidMoment(r) && r.second == 0 && r.date.day == 1
    ensures var target := FirstOfMonth(MonthKey(now.date) - 5);
            MonthKey(r.date)
            == MonthKey(now.date) - (if now.date.day <= DaysInMonth(target.year, target.month) then 5 else 4)
  {
    StartOfMonth(SubMonths(now, 5))
  }

  /** The default window's start as intended: the first day of the month
      five months before the current one. */
  function DefaultStart(now: Moment): (r: Moment)
    ensures ValidMoment(r) && r.second == 0 && r.date.day == 1
    ensures MonthKey(r.date) == MonthKey(now.date) - 5
  {
    Moment(FirstOfMonth(MonthKey(now.date) - 5), 0)
  }

  /** The two starts agree on the days every month has. */
  lemma DefaultStartsAgree(now: Moment)
    requires ValidMoment(now) && now.date.day <= 28
    ensures DefaultStartAsWritten(now) == DefaultStart(now)
  {
  }

  /** On 31 July the written default starts on 1 March: the window then
      holds five months instead of six. */
  lemma DefaultStartAsWrittenSkipsMonth()
    ensures var now := Moment(Date(2026, 7, 31), 0);
            DefaultStartAsWritten(now).date == Date(2026, 3, 1)
            && MonthKey(now.date) - MonthKey(DefaultStartAsWritten(now).date) == 4
  {
    var now := Moment(Date(2026, 7, 31), 0);
    assert MonthKey(now.date) == 24318;
    assert FirstOfMonth(24313) == Date(2026, 2, 1);
    assert FirstOfMonth(24314) == Date(2026, 3, 1);
    assert DaysInMonth(2026, 2) == 28 by {
      assert !IsLeapYear(2026);
    }
    assert SubMonths(now, 5) == Moment(Date(2026, 3, 3), 0);
  }

  /** The window the request asks for, before any swap: `date_from` at the
      start of its day (the default when absent), `date_to` at the end of
      its day (the end of the current month when absent). */
  function RequestedStart(dateFrom: Option<Moment>, now: Moment): (r: Moment)
    requires ValidMoment(now)
    requires dateFrom.Some? ==> ValidMoment(dateFrom.value)
    ensures ValidMoment(r) && r.second == 0
    ensures dateFrom.Some? ==> r.date == dateFrom.value.date
    ensures dateFrom.None? ==> r == DefaultStartAsWritten(now)
  {
    if dateFrom.Some? then StartOfDay(dateFrom.value) else DefaultStartAsWritten(now)
  }

  function RequestedEnd(dateTo: Option<Moment>, now: Moment): (r: Moment)
    requires ValidMoment(now)
    requires dateTo.Some? ==> ValidMoment(dateTo.value)
    ensures ValidMoment(r) && r.second == LastSecond
    ensures dateTo.Some? ==> r.date == dateTo.value.date
    ensures dateTo.None? ==> r == EndOfMonth(now)
  {
    if dateTo.Some? then EndOfDay(dateTo.value) else EndOfMonth(now)
  }

  /** resolveDateRange: dates already parsed by Carbon (None where the
      request leaves the field empty); a start after the end swaps the two
      days. */
  function ResolveDateRange(dateFrom: Option<Moment>, dateTo: Option<Moment>, now: Moment): (r: (Moment, Moment))
    requires ValidMoment(now)
    requires dateFrom.Some? ==> ValidMoment(dateFrom.value)
    requires dateTo.Some? ==> ValidMoment(dateTo.value)
    ensures ValidMoment(r.0) && ValidMoment(r.1)
    ensures MomentLe(r.0, r.1)
    ensures r.0.second == 0 && r.1.second == LastSecond
    ensures var s := RequestedStart(dateFrom, now).date;
            var e := RequestedEnd(dateTo, now).date;
            (r.0.date, r.1.date) == if DateLt(e, s) then (e, s) else (s, e)
  {
    var startDate := RequestedStart(dateFrom, now);
    var endDate := RequestedEnd(dateTo, now);
    DateLeTotal(startDate.date, endDate.date);
    if !MomentLe(startDate, endDate) then (StartOfDay(endDate), EndOfDay(startDate))
    else (startDate, endDate)
  }

  /** A window given the right way round is kept: its start and end days
      are the ones asked for. */
  lemma ResolveDateRangeKeepsOrderedWindow(dateFrom: Moment, dateTo: Moment, now: Moment)
    requires ValidMoment(now) && ValidMoment(dateFrom) && ValidMoment(dateTo)
    requires DateLe(dateFrom.date, dateTo.date)
    ensures ResolveDateRange(Some(dateFrom), Some(dateTo), now)
            == (Moment(dateFrom.date, 0), Moment(dateTo.date, LastSecond))
  {
  }

  /** Without either date the window runs from the written default start
      to the end of the current month: six calendar months when the
      current day exists five months back, five when it spills over, and
      the intended start on the days every month has. */
  lemma DefaultWindow(now: Moment)
    requires ValidMoment(now)
    ensures var r := ResolveDateRange(None, None, now);
            var target := FirstOfMonth(MonthKey(now.date) - 5);
            r.0 == DefaultStartAsWritten(now)
            && r.1 == EndOfMonth(now)
            && MonthKey(r.1.date) - MonthKey(r.0.date)
               == (if now.date.day <= DaysInMonth(target.year, target.month) then 5 else 4)
            && (now.date.day <= 28 ==> r.0 == DefaultStart(now))
  {
    MonthKeyOrder(DefaultStartAsWritten(now).date, EndOfMonth(now).date);
    if now.date.day <= 28 {
      DefaultStartsAgree(now);
    }
  }

  // ---------------------------------------------------------------------
  // The turnover totals

  /** A percentage kept as the exact fraction numerator / denominator. */
  datatype Fraction = Fraction(numerator: nat, denominator: nat)

  datatype TurnoverTotals = TurnoverTotals(hires: nat, separations: nat, rate: Fraction)

  /** Twice the average headcount: the controller's max(1, (start + current)
      / 2), whose rounding to two decimals never changes a half. */
  function DoubleAverageHeadcount(startingHeadcount: nat, currentHeadcount: nat): (d: nat)
    ensures d >= 2
    ensures startingHeadcount + currentHeadcount >= 2 ==> d == startingHeadcount + currentHeadcount
  {
    if startingHeadcount + currentHeadcount < 2 then 2 else startingHeadcount + currentHeadcount
  }

  /** The turnover stats: separations are resignations plus terminations,
      and the rate is 0 exactly when there are none. */
  function Turnover(hires: nat, resignations: nat, terminations: nat,
                    startingHeadcount: nat, currentHeadcount: nat): (t: TurnoverTotals)
    ensures t.hires == hires && t.separations == resignations + terminations
    ensures t.rate.denominator > 0
    ensures t.rate.numerator == 0 <==> resignations + terminations == 0
    ensures startingHeadcount + currentHeadcount >= 2 && t.separations > 0 ==>
              t.rate.numerator * (startingHeadcount + currentHeadcount)
              == 200 * t.separations * t.rate.denominator
  {
    var separations := resignations + terminations;
    var rate := if separations > 0
                then Fraction(200 * separations, DoubleAverageHeadcount(startingHeadcount, currentHeadcount))
                else Fraction(0, 1);
    TurnoverTotals(hires, separations, rate)
  }

  /** With a headcount below one on average the denominator is one head:
      the rate is one hundred percent per separation. */
  lemma TurnoverSmallHeadcount(hires: nat, resignations: nat, terminations: nat,
                               startingHeadcount: nat, currentHeadcount: nat)
    requires startingHeadcount + currentHeadcount < 2 && resignations + terminations > 0
    ensures var t := Turnover(hires, resignations, terminations, startingHeadcount, currentHeadcount);
            t.rate.numerator == 100 * t.separations * t.rate.denominator
  {
  }
}
