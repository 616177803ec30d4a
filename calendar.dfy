/** Proleptic Gregorian dates and second-resolution moments: the parts of
    Carbon the controllers rely on (start and end of a day or a month,
    month arithmetic, the 'Y-m-d' and 'Y-m' keys). */
module Calendar {
  import opened Prelude

  datatype Date = Date(year: int, month: int, day: int)

  /** A moment: a date and the second since midnight. */
  datatype Moment = Moment(date: Date, second: int)

  const LastSecond: int := 86399

  predicate IsLeapYear(y: int) {
    (y % 4 == 0 && y % 100 != 0) || y % 400 == 0
  }

  function DaysInMonth(y: int, m: int): (n: int)
    ensures 28 <= n <= 31
  {
    if m == 2 then (if IsLeapYear(y) then 29 else 28)
    else if m == 4 || m == 6 || m == 9 || m == 11 then 30
    else 31
  }

  predicate ValidDate(d: Date) {
    1 <= d.month <= 12 && 1 <= d.day <= DaysInMonth(d.year, d.month)
  }

  predicate ValidMoment(t: Moment) {
    ValidDate(t.date) && 0 <= t.second <= LastSecond
  }

  /** Chronological order of dates (lexicographic on year, month, day). */
  predicate DateLe(a: Date, b: Date) {
    a.year < b.year
    || (a.year == b.year && a.month < b.month)
    || (a.year == b.year && a.month == b.month && a.day <= b.day)
  }

  predicate DateLt(a: Date, b: Date) {
    DateLe(a, b) && a != b
  }

  /** Chronological order of moments (Carbon's comparison operators). */
  predicate MomentLe(a: Moment, b: Moment) {
    DateLt(a.date, b.date) || (a.date == b.date && a.second <= b.second)
  }

  lemma DateLeTotal(a: Date, b: Date)
    ensures DateLe(a, b) || DateLe(b, a)
    ensures DateLe(a, b) && DateLe(b, a) ==> a == b
  {
  }

  /** Consecutive months are consecutive integers: year * 12 + (month - 1).
      This is the model of Carbon's 'Y-m' bucket key. */
  function MonthKey(d: Date): int {
    d.year * 12 + (d.month - 1)
  }

  /** The first day of the month with the given key. */
  function FirstOfMonth(key: int): (d: Date)
    ensures ValidDate(d) && d.day == 1 && MonthKey(d) == key
  {
    Date(key / 12, key % 12 + 1, 1)
  }

  lemma MonthKeyOrder(a: Date, b: Date)
    requires ValidDate(a) && ValidDate(b)
    ensures DateLe(a, b) ==> MonthKey(a) <= MonthKey(b)
    ensures MonthKey(a) < MonthKey(b) ==> DateLt(a, b)
  {
  }

  /** Midnight on the first of two months compares as the months do. */
  lemma FirstOfMonthOrder(a: int, b: int)
    ensures MomentLe(Moment(FirstOfMonth(a), 0), Moment(FirstOfMonth(b), 0)) <==> a <= b
  {
    if a < b {
      MonthKeyOrder(FirstOfMonth(a), FirstOfMonth(b));
    } else if a > b {
      MonthKeyOrder(FirstOfMonth(b), FirstOfMonth(a));
      DateLeTotal(FirstOfMonth(a), FirstOfMonth(b));
    }
  }

  /** Two valid dates with the same month key lie in the same month. */
  lemma MonthKeySameMonth(a: Date, b: Date)
    requires 1 <= a.month <= 12 && 1 <= b.month <= 12
    requires MonthKey(a) == MonthKey(b)
    ensures a.year == b.year && a.month == b.month
  {
  }

  /** Every date with d's month key, among dates with a month in 1..12,
      is in d's month. */
  lemma MonthOfKey(d: Date)
    requires 1 <= d.month <= 12
    ensures forall u: Date :: 1 <= u.month <= 12 && MonthKey(u) == MonthKey(d) ==> u.year == d.year && u.month == d.month
  {
    forall u: Date | 1 <= u.month <= 12 && MonthKey(u) == MonthKey(d)
      ensures u.year == d.year && u.month == d.month
    {
      MonthKeySameMonth(u, d);
    }
  }

  /** Carbon startOfDay: midnight of the same day, never after t. */
  function StartOfDay(t: Moment): (r: Moment)
    ensures r.date == t.date && r.second == 0
    ensures t.second >= 0 ==> MomentLe(r, t)
    ensures ValidDate(t.date) ==> ValidMoment(r)
  {
    Moment(t.date, 0)
  }

  /** Carbon endOfDay: the last second of the same day, never before t. */
  function EndOfDay(t: Moment): (r: Moment)
    ensures r.date == t.date && r.second == LastSecond
    ensures t.second <= LastSecond ==> MomentLe(t, r)
    ensures ValidDate(t.date) ==> ValidMoment(r)
  {
    Moment(t.date, LastSecond)
  }

  /** Carbon startOfMonth: midnight on the first of t's month, the earliest
      moment of that month. */
  function StartOfMonth(t: Moment): (r: Moment)
    ensures ValidMoment(r) && MonthKey(r.date) == MonthKey(t.date)
    ensures r.date.day == 1 && r.second == 0
    ensures 1 <= t.date.month <= 12 ==> r.date.year == t.date.year && r.date.month == t.date.month
    ensures forall u :: ValidMoment(u) && MonthKey(u.date) == MonthKey(t.date) ==> MomentLe(r, u)
  {
    MonthOfKey(FirstOfMonth(MonthKey(t.date)));
    Moment(FirstOfMonth(MonthKey(t.date)), 0)
  }

  /** Carbon endOfMonth: the last second of the month's last day, the
      latest moment of that month. */
  function EndOfMonth(t: Moment): (r: Moment)
    requires ValidMoment(t)
    ensures ValidMoment(r) && MonthKey(r.date) == MonthKey(t.date)
    ensures r.date.year == t.date.year && r.date.month == t.date.month
    ensures r.date.day == DaysInMonth(t.date.year, t.date.month) && r.second == LastSecond
    ensures forall u :: ValidMoment(u) && MonthKey(u.date) == MonthKey(t.date) ==> MomentLe(u, r)
  {
    MonthOfKey(t.date);
    Moment(Date(t.date.year, t.date.month, DaysInMonth(t.date.year, t.date.month)), LastSecond)
  }

  /** Carbon's subMonths(n) with its default month overflow: the day of the
      month is kept, and a day the target month does not have spills into the
      following month (31 July minus 5 months is 3 March, not 28 February). */
  function SubMonths(t: Moment, n: nat): (r: Moment)
    requires ValidMoment(t)
    ensures ValidMoment(r) && r.second == t.second
    ensures var target := FirstOfMonth(MonthKey(t.date) - n);
            var dim := DaysInMonth(target.year, target.month);
            (t.date.day <= dim ==> MonthKey(r.date) == MonthKey(t.date) - n && r.date.day == t.date.day)
            && (t.date.day > dim ==> MonthKey(r.date) == MonthKey(t.date) - n + 1 && r.date.day == t.date.day - dim)
  {
    var target := FirstOfMonth(MonthKey(t.date) - n);
    var dim := DaysInMonth(target.year, target.month);
    if t.date.day <= dim then Moment(target.(day := t.date.day), t.second)
    else
      var next := FirstOfMonth(MonthKey(t.date) - n + 1);
      Moment(next.(day := t.date.day - dim), t.second)
  }

  /** Carbon's addMonth() applied to the first day of a month. */
  function NextMonth(d: Date): (r: Date)
    ensures ValidDate(r) && r.day == 1 && MonthKey(r) == MonthKey(d) + 1
  {
    FirstOfMonth(MonthKey(d) + 1)
  }

  /** Carbon format('Y'): at least four digits, a minus sign before years
      before year zero. */
  function FormatYear(y: int): string {
    if y < 0 then "-" + PadNat(-y, 4) else PadNat(y, 4)
  }

  /** Carbon format('Y-m-d'): four-digit year, two-digit month and day. */
  function FormatYmd(d: Date): string {
    FormatYear(d.year)
    + "-" + PadNat(if d.month < 0 then 0 else d.month, 2)
    + "-" + PadNat(if d.day < 0 then 0 else d.day, 2)
  }
}
