/** The "recent 8" lists of the turnover report: a collection sorted by a
    date, latest first (`sortByDesc`, which keeps records with the same
    date in their original order), and the first eight of it (`take(8)`). */
module RecentRecords {
  import opened Prelude
  import opened Calendar
  import opened ReportRecords

  /** The order of sort keys; a missing date sorts before every date. */
  predicate KeyLe(a: Option<Date>, b: Option<Date>) {
    a.None? || (b.Some? && DateLe(a.value, b.value))
  }

  predicate KeyLt(a: Option<Date>, b: Option<Date>) {
    KeyLe(a, b) && !KeyLe(b, a)
  }

  lemma KeyLeTotal(a: Option<Date>, b: Option<Date>)
    ensures KeyLe(a, b) || KeyLe(b, a)
  {
  }

  /** Latest first: no record comes after one with an earlier date. */
  predicate Descending<T>(s: seq<T>, key: T -> Option<Date>) {
    forall i, j :: 0 <= i < j < |s| ==> KeyLe(key(s[j]), key(s[i]))
  }

  /** x placed after every record whose date is not earlier than its own. */
  function Insert<T>(x: T, s: seq<T>, key: T -> Option<Date>): (r: seq<T>)
    ensures multiset(r) == multiset(s) + multiset{x}
  {
    if s == [] then [x]
    else if KeyLt(key(s[0]), key(x)) then [x] + s
    else
      assert s == [s[0]] + s[1..];
      [s[0]] + Insert(x, s[1..], key)
  }

  /** Inserting into a list that is latest first keeps it latest first. */
  lemma {:induction false} InsertDescending<T>(x: T, s: seq<T>, key: T -> Option<Date>)
    requires Descending(s, key)
    ensures Descending(Insert(x, s, key), key)
  {
    if s == [] {
    } else if KeyLt(key(s[0]), key(x)) {
      forall j | 0 < j < |s| ensures KeyLe(key(s[j]), key(x)) {
        assert KeyLe(key(s[j]), key(s[0]));
      }
    } else {
      var rest := Insert(x, s[1..], key);
      assert s == [s[0]] + s[1..];
      KeyLeTotal(key(x), key(s[0]));
      assert Descending(s[1..], key);
      InsertDescending(x, s[1..], key);
      forall j | 0 <= j < |rest| ensures KeyLe(key(rest[j]), key(s[0])) {
        assert rest[j] in multiset(rest);
        if rest[j] != x {
          assert rest[j] in multiset(s[1..]);
          var k :| 0 <= k < |s[1..]| && s[1..][k] == rest[j];
          assert s[k + 1] == rest[j];
        }
      }
      assert Insert(x, s, key) == [s[0]] + rest;
    }
  }

  /** sortByDesc: a permutation of the records, latest first. */
  function SortByDateDesc<T>(xs: seq<T>, key: T -> Option<Date>): (r: seq<T>)
    ensures |r| == |xs|
    ensures multiset(r) == multiset(xs)
    ensures Descending(r, key)
  {
    if xs == [] then []
    else
      assert xs == xs[..|xs| - 1] + [xs[|xs| - 1]];
      var r := Insert(xs[|xs| - 1], SortByDateDesc(xs[..|xs| - 1], key), key);
      InsertDescending(xs[|xs| - 1], SortByDateDesc(xs[..|xs| - 1], key), key);
      assert |r| == |multiset(r)|;
      r
  }

  const RecentLimit: nat := 8

  /** `sortByDesc(...)->take(8)`. */
  function Latest<T>(xs: seq<T>, key: T -> Option<Date>): (r: seq<T>)
    ensures |r| == if |xs| < RecentLimit then |xs| else RecentLimit
    ensures multiset(r) <= multiset(xs)
    ensures Descending(r, key)
  {
    var sorted := SortByDateDesc(xs, key);
    var n := if |xs| < RecentLimit then |xs| else RecentLimit;
    assert sorted == sorted[..n] + sorted[n..];
    assert multiset(sorted) == multiset(sorted[..n]) + multiset(sorted[n..]);
    sorted[..n]
  }

  /** A record left out of the eight is no later than any record taken. */
  lemma LatestLeavesOutOnlyEarlier<T>(xs: seq<T>, key: T -> Option<Date>, x: T)
    requires multiset(Latest(xs, key))[x] < multiset(xs)[x]
    ensures forall i :: 0 <= i < |Latest(xs, key)| ==> KeyLe(key(x), key(Latest(xs, key)[i]))
  {
    var sorted := SortByDateDesc(xs, key);
    var r := Latest(xs, key);
    var n := |r|;
    assert sorted == r + sorted[n..];
    assert multiset(sorted) == multiset(r) + multiset(sorted[n..]);
    assert x in multiset(sorted[n..]);
    var k :| 0 <= k < |sorted[n..]| && sorted[n..][k] == x;
    assert sorted[n + k] == x;
    forall i | 0 <= i < n ensures KeyLe(key(x), key(r[i])) {
      assert r[i] == sorted[i];
    }
  }

  // ---------------------------------------------------------------------
  // The two lists

  function JoinedOn(h: HireRecord): Option<Date> {
    h.joined
  }

  /** recentHires: the eight latest hires by joining date. */
  function RecentHires(hires: seq<HireRecord>): (r: seq<HireRecord>)
    ensures |r| <= RecentLimit && (|hires| >= RecentLimit ==> |r| == RecentLimit)
    ensures multiset(r) <= multiset(hires)
    ensures Descending(r, JoinedOn)
  {
    Latest(hires, JoinedOn)
  }

  /** One row of recentSeparations: the person, the date, the type and the
      status. */
  datatype SeparationEvent = SeparationEvent(who: Person, date: Option<Date>, kind: string, status: Option<string>)

  function EventDate(e: SeparationEvent): Option<Date> {
    e.date
  }

  function ResignationEvent(r: ResignationRecord): (e: SeparationEvent)
    ensures e.kind == "resignation" && e.date == r.lastWorkingDay
  {
    SeparationEvent(r.who, r.lastWorkingDay, "resignation", r.status)
  }

  function TerminationEvent(t: TerminationRecord): (e: SeparationEvent)
    ensures e.kind == "termination" && e.date == t.terminationDate
  {
    SeparationEvent(t.who, t.terminationDate, "termination", t.status)
  }

  /** The resignations mapped, then the terminations mapped, merged. */
  function SeparationEvents(resignations: seq<ResignationRecord>, terminations: seq<TerminationRecord>)
    : (es: seq<SeparationEvent>)
    ensures |es| == |resignations| + |terminations|
    ensures forall i :: 0 <= i < |resignations| ==> es[i] == ResignationEvent(resignations[i])
    ensures forall i :: 0 <= i < |terminations| ==> es[|resignations| + i] == TerminationEvent(terminations[i])
  {
    seq(|resignations|, i requires 0 <= i < |resignations| => ResignationEvent(resignations[i]))
    + seq(|terminations|, i requires 0 <= i < |terminations| => TerminationEvent(terminations[i]))
  }

  /** recentSeparations: the eight latest of the merged resignations and
      terminations. */
  function RecentSeparations(resignations: seq<ResignationRecord>, terminations: seq<TerminationRecord>)
    : (r: seq<SeparationEvent>)
    ensures |r| <= RecentLimit
    ensures |resignations| + |terminations| >= RecentLimit ==> |r| == RecentLimit
    ensures multiset(r) <= multiset(SeparationEvents(resignations, terminations))
    ensures Descending(r, EventDate)
  {
    Latest(SeparationEvents(resignations, terminations), EventDate)
  }

  /** Every separation listed is one of the resignations or terminations. */
  lemma RecentSeparationsDrawn(resignations: seq<ResignationRecord>, terminations: seq<TerminationRecord>,
                               e: SeparationEvent)
    requires e in RecentSeparations(resignations, terminations)
    ensures (exists r :: r in resignations && e == ResignationEvent(r))
            || (exists t :: t in terminations && e == TerminationEvent(t))
  {
    var es := SeparationEvents(resignations, terminations);
    assert e in multiset(RecentSeparations(resignations, terminations));
    assert e in multiset(es);
    var k :| 0 <= k < |es| && es[k] == e;
    if k < |resignations| {
      assert resignations[k] in resignations;
    } else {
      assert terminations[k - |resignations|] in terminations;
    }
  }
}
