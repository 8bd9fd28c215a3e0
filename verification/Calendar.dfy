/** Proleptic Gregorian dates as the archiver uses them: comparison, day arithmetic and months. */
module Calendar {
  import opened Wrappers

  // The years that chrono's NaiveDate can represent.
  const MIN_YEAR: int := -262143
  const MAX_YEAR: int := 262142

  datatype Date = Date(year: int, month: int, day: int)

  predicate Leap(year: int) {
    year % 4 == 0 && (year % 100 != 0 || year % 400 == 0)
  }

  function DaysIn(year: int, month: int): int {
    if month == 2 then (if Leap(year) then 29 else 28)
    else if month in {4, 6, 9, 11} then 30
    else 31
  }

  predicate Real(d: Date) {
    1 <= d.month <= 12 && 1 <= d.day <= DaysIn(d.year, d.month)
  }

  function FromYmd(year: int, month: int, day: int): Option<Date> {
    if MIN_YEAR <= year <= MAX_YEAR && Real(Date(year, month, day)) then Some(Date(year, month, day)) else None
  }

  predicate Less(a: Date, b: Date) {
    a.year < b.year || (a.year == b.year && (a.month < b.month || (a.month == b.month && a.day < b.day)))
  }

  predicate AtMost(a: Date, b: Date) {
    !Less(b, a)
  }

  function Succ(d: Date): Date {
    if d.day < DaysIn(d.year, d.month) then d.(day := d.day + 1)
    else if d.month < 12 then Date(d.year, d.month + 1, 1)
    else Date(d.year + 1, 1, 1)
  }

  function Pred(d: Date): Date {
    if d.day > 1 then d.(day := d.day - 1)
    else if d.month > 1 then Date(d.year, d.month - 1, DaysIn(d.year, d.month - 1))
    else Date(d.year - 1, 12, 31)
  }

  function AddDays(d: Date, n: nat): Date {
    if n == 0 then d else Succ(AddDays(d, n - 1))
  }

  function SubDays(d: Date, n: nat): Date {
    if n == 0 then d else Pred(SubDays(d, n - 1))
  }

  /** Months numbered through the years. */
  function MonthOf(d: Date): int {
    12 * d.year + d.month - 1
  }

  function MonthStart(m: int): (d: Date)
    ensures Real(d) && MonthOf(d) == m
  {
    Date(m / 12, m % 12 + 1, 1)
  }

  /** The days of month `m`: from its first day up to, not including, the first day of the next. */
  predicate InMonth(d: Date, m: int) {
    AtMost(MonthStart(m), d) && Less(d, MonthStart(m + 1))
  }

  lemma InMonthIff(d: Date, m: int)
    requires Real(d)
    ensures InMonth(d, m) <==> MonthOf(d) == m
  {
  }

  lemma MonthsFollowDates(a: Date, b: Date)
    requires Real(a) && Real(b) && AtMost(a, b)
    ensures MonthOf(a) <= MonthOf(b)
  {
  }

  lemma SuccIsNext(a: Date, b: Date)
    requires Real(a) && Real(b)
    ensures Real(Succ(a)) && Less(a, Succ(a)) && Pred(Succ(a)) == a
    ensures Less(a, b) ==> AtMost(Succ(a), b)
    ensures Real(Pred(a)) && Less(Pred(a), a) && Succ(Pred(a)) == a
  {
  }

  lemma {:induction false} AddDaysMoves(a: Date, b: Date, n: nat)
    requires Real(a) && Real(b)
    ensures Real(AddDays(a, n)) && AtMost(a, AddDays(a, n))
    ensures Less(a, b) <==> Less(AddDays(a, n), AddDays(b, n))
    decreases n
  {
    if n > 0 {
      AddDaysMoves(a, b, n - 1);
      AddDaysMoves(b, a, n - 1);
      SuccIsNext(AddDays(a, n - 1), AddDays(b, n - 1));
      SuccIsNext(AddDays(b, n - 1), AddDays(a, n - 1));
    }
  }

  lemma {:induction false} AddDaysFirst(a: Date, n: nat)
    ensures AddDays(Succ(a), n) == Succ(AddDays(a, n))
  {
    if n > 0 {
      AddDaysFirst(a, n - 1);
    }
  }

  lemma {:induction false} AddUndoesSub(d: Date, n: nat)
    requires Real(d)
    ensures Real(SubDays(d, n)) && AtMost(SubDays(d, n), d) && AddDays(SubDays(d, n), n) == d
  {
    if n > 0 {
      AddUndoesSub(d, n - 1);
      var e := SubDays(d, n - 1);
      SuccIsNext(e, e);
      AddDaysFirst(Pred(e), n - 1);
    }
  }

  /** More than `n` days before `today`. */
  predicate OlderThan(d: Date, n: nat, today: Date) {
    Less(AddDays(d, n), today)
  }

  /** A month ends by the cutoff `n` days back exactly when each of its days is more than `n` days old. */
  lemma EndsByCutoffIff(m: int, n: nat, today: Date)
    requires Real(today)
    ensures AtMost(MonthStart(m + 1), SubDays(today, n)) <==> forall d :: Real(d) && InMonth(d, m) ==>
      OlderThan(d, n, today)
  {
    var cutoff := SubDays(today, n);
    AddUndoesSub(today, n);
    forall d | Real(d)
      ensures OlderThan(d, n, today) <==> Less(d, cutoff)
    {
      AddDaysMoves(d, cutoff, n);
    }
    var last := Pred(MonthStart(m + 1));
    SuccIsNext(MonthStart(m + 1), cutoff);
    SuccIsNext(last, cutoff);
    InMonthIff(last, m);
  }

  // Dates as numbers of days.

  /** The days of the years before this one, in the proleptic Gregorian calendar, from the start of year 0;
      a year divisible by four is a leap year unless it is divisible by 100 and not by 400. */
  function DaysBefore(year: int): int {
    365 * year + (year + 3) / 4 - (year + 99) / 100 + (year + 399) / 400
  }

  /** The days of a common year before the month. */
  const BEFORE_MONTH: seq<int> := [0, 31, 59, 90, 120, 151, 181, 212, 243, 273, 304, 334]

  function DayNumber(d: Date): int
    requires Real(d)
  {
    var leapDay := if d.month > 2 && DaysBefore(d.year + 1) - DaysBefore(d.year) == 366 then 1 else 0;
    DaysBefore(d.year) + BEFORE_MONTH[d.month - 1] + leapDay + d.day
  }

  lemma YearLength(year: int)
    ensures DaysBefore(year + 1) - DaysBefore(year) ==
      if year % 4 == 0 && (year % 100 != 0 || year % 400 == 0) then 366 else 365
  {
    EveryFourth(year);
    EveryHundredth(year);
    EveryFourHundredth(year);
    assert (year + 1) + 3 == year + 4 && (year + 1) + 99 == year + 100 && (year + 1) + 399 == year + 400;
    Divisibility(year);
  }

  lemma EveryFourth(year: int)
    ensures (year + 4) / 4 - (year + 3) / 4 == if year % 4 == 0 then 1 else 0
  {
  }

  lemma EveryHundredth(year: int)
    ensures (year + 100) / 100 - (year + 99) / 100 == if year % 100 == 0 then 1 else 0
  {
  }

  lemma EveryFourHundredth(year: int)
    ensures (year + 400) / 400 - (year + 399) / 400 == if year % 400 == 0 then 1 else 0
  {
  }

  lemma Divisibility(year: int)
    ensures year % 100 == 0 ==> year % 4 == 0
    ensures year % 400 == 0 ==> year % 100 == 0
  {
  }

  /** The next day has the next number. */
  lemma SuccCounts(d: Date)
    requires Real(d)
    ensures Real(Succ(d)) && DayNumber(Succ(d)) == DayNumber(d) + 1
  {
    YearLength(d.year);
  }

  /** Adding days adds to the number. */
  lemma {:induction false} AddDaysCounts(d: Date, n: nat)
    requires Real(d)
    ensures Real(AddDays(d, n)) && DayNumber(AddDays(d, n)) == DayNumber(d) + n
  {
    if n > 0 {
      AddDaysCounts(d, n - 1);
      SuccCounts(AddDays(d, n - 1));
    }
  }

  lemma SubDaysCounts(d: Date, n: nat)
    requires Real(d)
    ensures Real(SubDays(d, n)) && DayNumber(SubDays(d, n)) == DayNumber(d) - n
  {
    AddUndoesSub(d, n);
    AddDaysCounts(SubDays(d, n), n);
  }
}
