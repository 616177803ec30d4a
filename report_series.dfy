/** buildTurnoverSeries: the hires, resignations and terminations of the
    report window bucketed by calendar month, and the loop that walks a
    cursor from the window's first month to its last. */
module TurnoverSeries {
  import opened Prelude
  import opened Calendar

  // ---------------------------------------------------------------------
  // Buckets

  /** How many of the dates fall in the month with the given key; a record
      without a date (None) is in no month. */
  function CountInMonth(dates: seq<Option<Date>>, key: int): nat {
    if dates == [] then 0
    else
      var last := dates[|dates| - 1];
      CountInMonth(dates[..|dates| - 1], key) + (if last.Some? && MonthKey(last.value) == key then 1 else 0)
  }

  /** The `filter`, `groupBy('Y-m')` and `count` pipeline: a map from a
      month's key to the number of dated records in it. */
  function Buckets(dates: seq<Option<Date>>): (m: map<int, nat>)
    ensures forall k :: k in m ==> m[k] > 0
  {
    if dates == [] then map[]
    else
      var m := Buckets(dates[..|dates| - 1]);
      var last := dates[|dates| - 1];
      if last.Some? then m[MonthKey(last.value) := BucketGet(m, MonthKey(last.value)) + 1] else m
  }

  /** `$buckets->get($key, 0)`. */
  function BucketGet(m: map<int, nat>, key: int): nat {
    if key in m then m[key] else 0
  }

  /** A month's bucket holds exactly the records dated in that month. */
  lemma {:induction false} BucketsCount(dates: seq<Option<Date>>, key: int)
    ensures BucketGet(Buckets(dates), key) == CountInMonth(dates, key)
  {
    if dates != [] {
      BucketsCount(dates[..|dates| - 1], key);
    }
  }

  /** A record without a date is never bucketed, so the buckets hold at
      most as many records as have a date. */
  function DatedCount(dates: seq<Option<Date>>): nat {
    if dates == [] then 0
    else DatedCount(dates[..|dates| - 1]) + (if dates[|dates| - 1].Some? then 1 else 0)
  }

  /** How many dates fall in the months lo to hi. */
  function CountInWindow(dates: seq<Option<Date>>, lo: int, hi: int): (n: nat)
    ensures n <= DatedCount(dates)
  {
    if dates == [] then 0
    else
      var last := dates[|dates| - 1];
      CountInWindow(dates[..|dates| - 1], lo, hi)
      + (if last.Some? && lo <= MonthKey(last.value) <= hi then 1 else 0)
  }

  /** Every date lies in the months lo to hi. */
  predicate AllInWindow(dates: seq<Option<Date>>, lo: int, hi: int) {
    forall k :: 0 <= k < |dates| && dates[k].Some? ==> lo <= MonthKey(dates[k].value) <= hi
  }

  /** When the query has already kept the records to the window, every
      dated record is in the window's months. */
  lemma {:induction false} AllInWindowCounted(dates: seq<Option<Date>>, lo: int, hi: int)
    requires AllInWindow(dates, lo, hi)
    ensures CountInWindow(dates, lo, hi) == DatedCount(dates)
  {
    if dates != [] {
      var init := dates[..|dates| - 1];
      assert AllInWindow(init, lo, hi) by {
        forall k | 0 <= k < |init| && init[k].Some?
          ensures lo <= MonthKey(init[k].value) <= hi
        {
          assert init[k] == dates[k];
        }
      }
      AllInWindowCounted(init, lo, hi);
    }
  }

  /** One more month at the top of the window adds that month's count. */
  lemma {:induction false} CountInWindowExtend(dates: seq<Option<Date>>, lo: int, hi: int)
    requires lo <= hi
    ensures CountInWindow(dates, lo, hi) == CountInWindow(dates, lo, hi - 1) + CountInMonth(dates, hi)
  {
    if dates != [] {
      CountInWindowExtend(dates[..|dates| - 1], lo, hi);
    }
  }

  // ---------------------------------------------------------------------
  // The series

  const MonthAbbreviations: seq<string> :=
    ["Jan", "Feb", "Mar", "Apr", "May", "Jun", "Jul", "Aug", "Sep", "Oct", "Nov", "Dec"]

  /** Carbon format('M Y') of the month with the given key. */
  function MonthLabel(key: int): string {
    var d := FirstOfMonth(key);
    MonthAbbreviations[d.month - 1] + " " + FormatYear(d.year)
  }

  /** One entry of the series: the month it stands for, the hires and the
      separations of that month; its 'month' label is Month(). The turnover
      rate is not modelled. */
  datatype MonthEntry = MonthEntry(key: int, hires: nat, separations: nat) {
    function Month(): string {
      MonthLabel(key)
    }
  }

  /** The entry for one month, from the record counts. */
  function EntryFor(key: int, hires: seq<Option<Date>>, resignations: seq<Option<Date>>,
                    terminations: seq<Option<Date>>): MonthEntry {
    MonthEntry(key, CountInMonth(hires, key),
               CountInMonth(resignations, key) + CountInMonth(terminations, key))
  }

  /** The series the loop builds: one entry for each month from lo to hi. */
  function Series(lo: int, hi: int, hires: seq<Option<Date>>, resignations: seq<Option<Date>>,
                  terminations: seq<Option<Date>>): (s: seq<MonthEntry>)
    ensures |s| == if lo <= hi then hi - lo + 1 else 0
    ensures forall i :: 0 <= i < |s| ==> s[i].key == lo + i
    ensures forall i :: 0 < i < |s| ==> s[i].key == s[i - 1].key + 1
  {
    if hi < lo then []
    else
      var s := seq(hi - lo + 1, i => EntryFor(lo + i, hires, resignations, terminations));
      assert forall i :: 0 <= i < |s| ==> s[i] == EntryFor(lo + i, hires, resignations, terminations);
      s
  }

  lemma SeriesExtend(lo: int, hi: int, hires: seq<Option<Date>>, resignations: seq<Option<Date>>,
                     terminations: seq<Option<Date>>)
    requires lo <= hi
    ensures Series(lo, hi, hires, resignations, terminations)
            == Series(lo, hi - 1, hires, resignations, terminations) + [EntryFor(hi, hires, resignations, terminations)]
  {
    var s := Series(lo, hi, hires, resignations, terminations);
    var t := Series(lo, hi - 1, hires, resignations, terminations) + [EntryFor(hi, hires, resignations, terminations)];
    assert |s| == |t|;
    forall i | 0 <= i < |s|
      ensures s[i] == t[i]
    {
    }
  }

  function TotalHires(s: seq<MonthEntry>): nat {
    if s == [] then 0 else TotalHires(s[..|s| - 1]) + s[|s| - 1].hires
  }

  function TotalSeparations(s: seq<MonthEntry>): nat {
    if s == [] then 0 else TotalSeparations(s[..|s| - 1]) + s[|s| - 1].separations
  }

  /** Summed over the series, the hires are the hires dated in the window's
      months and the separations the resignations and terminations dated
      there: every record is counted in its own month and only there. */
  lemma {:induction false} SeriesTotals(lo: int, hi: int, hires: seq<Option<Date>>,
                                        resignations: seq<Option<Date>>, terminations: seq<Option<Date>>)
    ensures var s := Series(lo, hi, hires, resignations, terminations);
            TotalHires(s) == CountInWindow(hires, lo, hi)
            && TotalSeparations(s) == CountInWindow(resignations, lo, hi) + CountInWindow(terminations, lo, hi)
    decreases hi - lo
  {
    if hi < lo {
      EmptyWindow(hires, lo, hi);
      EmptyWindow(resignations, lo, hi);
      EmptyWindow(terminations, lo, hi);
    } else {
      SeriesTotals(lo, hi - 1, hires, resignations, terminations);
      SeriesTotalsStep(lo, hi, hires, resignations, terminations);
      CountInWindowExtend(hires, lo, hi);
      CountInWindowExtend(resignations, lo, hi);
      CountInWindowExtend(terminations, lo, hi);
    }
  }

  /** The totals grow by the top month's entry. */
  lemma SeriesTotalsStep(lo: int, hi: int, hires: seq<Option<Date>>,
                         resignations: seq<Option<Date>>, terminations: seq<Option<Date>>)
    requires lo <= hi
    ensures var s := Series(lo, hi, hires, resignations, terminations);
            var init := Series(lo, hi - 1, hires, resignations, terminations);
            TotalHires(s) == TotalHires(init) + CountInMonth(hires, hi)
            && TotalSeparations(s) == TotalSeparations(init) + CountInMonth(resignations, hi) + CountInMonth(terminations, hi)
  {
    var s := Series(lo, hi, hires, resignations, terminations);
    var init := Series(lo, hi - 1, hires, resignations, terminations);
    SeriesExtend(lo, hi, hires, resignations, terminations);
    assert s[..|s| - 1] == init;
    assert s[|s| - 1] == EntryFor(hi, hires, resignations, terminations);
  }

  lemma {:induction false} EmptyWindow(dates: seq<Option<Date>>, lo: int, hi: int)
    requires hi < lo
    ensures CountInWindow(dates, lo, hi) == 0
  {
    if dates != [] {
      EmptyWindow(dates[..|dates| - 1], lo, hi);
    }
  }

  /** One more month of the series is that month's bucket counts. */
  lemma SeriesStep(lo: int, key: int, hires: seq<Option<Date>>, resignations: seq<Option<Date>>,
                   terminations: seq<Option<Date>>)
    requires lo <= key
    ensures Series(lo, key, hires, resignations, terminations)
            == Series(lo, key - 1, hires, resignations, terminations)
               + [MonthEntry(key, BucketGet(Buckets(hires), key),
                             BucketGet(Buckets(resignations), key) + BucketGet(Buckets(terminations), key))]
  {
    BucketsCount(hires, key);
    BucketsCount(resignations, key);
    BucketsCount(terminations, key);
    SeriesExtend(lo, key, hires, resignations, terminations);
  }

  /** buildTurnoverSeries: the buckets, then a cursor from the first of the
      start's month to the first of the end's month, one entry per month. */
  method BuildTurnoverSeries(startDate: Moment, endDate: Moment, hires: seq<Option<Date>>,
                             resignations: seq<Option<Date>>, terminations: seq<Option<Date>>)
    returns (series: seq<MonthEntry>)
    ensures series == Series(MonthKey(startDate.date), MonthKey(endDate.date), hires, resignations, terminations)
  {
    var hireBuckets := Buckets(hires);
    var resignationBuckets := Buckets(resignations);
    var terminationBuckets := Buckets(terminations);
    ghost var lo := MonthKey(startDate.date);
    ghost var hi := MonthKey(endDate.date);
    series := [];
    var cursor := StartOfMonth(startDate);
    var endCursor := StartOfMonth(endDate);
    assert cursor == Moment(FirstOfMonth(lo), 0) && endCursor == Moment(FirstOfMonth(hi), 0);
    FirstOfMonthOrder(lo, hi);
    while MomentLe(cursor, endCursor)
      invariant cursor == Moment(FirstOfMonth(lo + |series|), 0)
      invariant |series| == 0 || lo + |series| <= hi + 1
      invariant series == Series(lo, lo + |series| - 1, hires, resignations, terminations)
      decreases hi - MonthKey(cursor.date)
    {
      FirstOfMonthOrder(lo + |series|, hi);
      var key := MonthKey(cursor.date);
      var hiresCount := BucketGet(hireBuckets, key);
      var separationsCount := BucketGet(resignationBuckets, key) + BucketGet(terminationBuckets, key);
      SeriesStep(lo, key, hires, resignations, terminations);
      series := series + [MonthEntry(key, hiresCount, separationsCount)];
      cursor := Moment(NextMonth(cursor.date), 0);
    }
    FirstOfMonthOrder(lo + |series|, hi);
  }
}
