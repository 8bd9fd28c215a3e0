/** Monthly partitions: which to create and which to archive. */
module Partitions {
  import opened Calendar
  import opened PartitionNames

  // Creation.

  function YearMonth(m: int): (int, int) {
    (m / 12, m % 12 + 1)
  }

  /** The months from `first` to `last`, in order. */
  function Months(first: int, last: int): (r: seq<(int, int)>)
    requires first <= last
    ensures |r| == last - first + 1 && forall i :: 0 <= i < |r| ==> r[i] == YearMonth(first + i)
  {
    seq(last - first + 1, i requires 0 <= i => YearMonth(first + i))
  }

  /** Months given by year and month, so that nothing has to be divided. */
  lemma YearMonthIff(m: int, year: int, month: int)
    requires 1 <= month <= 12
    ensures YearMonth(m) == (year, month) <==> m == 12 * year + month - 1
  {
  }

  method PartitionsToCreate(today: Date, advanceDays: nat) returns (result: seq<(int, int)>)
    requires Real(today) && MIN_YEAR <= today.year && AddDays(today, advanceDays).year <= MAX_YEAR
    ensures MonthOf(today) <= MonthOf(AddDays(today, advanceDays))
    ensures result == Months(MonthOf(today), MonthOf(AddDays(today, advanceDays)))
  {
    var target := AddDays(today, advanceDays);
    AddDaysMoves(today, today, advanceDays);
    MonthsFollowDates(today, target);
    var year, month := today.year, today.month;
    ghost var m := MonthOf(today);
    result := [];
    while true
      invariant MonthOf(today) <= m <= MonthOf(target) && m == 12 * year + month - 1 && 1 <= month <= 12 &&
        MIN_YEAR <= year
      invariant |result| == m - MonthOf(today)
      invariant forall i :: 0 <= i < |result| ==> result[i] == YearMonth(MonthOf(today) + i)
      decreases MonthOf(target) - m
    {
      YearMonthIff(m, year, month);
      result := result + [(year, month)];
      if month == 12 {
        year := year + 1;
        month := 1;
      } else {
        month := month + 1;
      }
      m := m + 1;
      var monthStart := FromYmd(year, month, 1);
      if monthStart.None? || !AtMost(monthStart.value, target) {
        break;
      }
    }
    // The month of the target date is always listed already.
    assert m == MonthOf(target) + 1;
    YearMonthIff(MonthOf(target), target.year, target.month);
    assert result[|result| - 1] == (target.year, target.month);
    if (target.year, target.month) !in result {
      result := result + [(target.year, target.month)];
    }
  }

  predicate Contains(ym: (int, int), d: Date) {
    InMonth(d, 12 * ym.0 + ym.1 - 1)
  }

  /** The created months do not overlap, and together they are one unbroken interval of days, from the
      first of today's month to the end of the target's; so every day between the two is covered. */
  lemma CreatedMonthsTile(today: Date, target: Date, d: Date)
    requires Real(today) && Real(target) && Real(d) && AtMost(today, target)
    ensures MonthOf(today) <= MonthOf(target)
    ensures
      var months := Months(MonthOf(today), MonthOf(target));
      && (forall i, j ::
            0 <= i < |months| && 0 <= j < |months| && Contains(months[i], d) && Contains(months[j], d) ==> i == j)
      && ((exists i :: 0 <= i < |months| && Contains(months[i], d)) <==>
            AtMost(MonthStart(MonthOf(today)), d) && Less(d, MonthStart(MonthOf(target) + 1)))
      && (AtMost(today, d) && AtMost(d, target) ==> exists i :: 0 <= i < |months| && Contains(months[i], d))
  {
    MonthsFollowDates(today, target);
    var first, last := MonthOf(today), MonthOf(target);
    var months := Months(first, last);
    forall i | 0 <= i < |months|
      ensures Contains(months[i], d) <==> i == MonthOf(d) - first
    {
      InMonthIff(d, first + i);
    }
    InMonthIff(d, first);
    InMonthIff(d, last);
    if first <= MonthOf(d) <= last {
      assert Contains(months[MonthOf(d) - first], d);
    }
    assert AtMost(MonthStart(first), d) <==> first <= MonthOf(d);
    assert Less(d, MonthStart(last + 1)) <==> MonthOf(d) <= last;
  }

  // Archival.

  function PartitionsToArchive(partitions: seq<PartitionInfo>, today: Date,
                               hotRetentionDays: nat): (r: seq<PartitionInfo>)
    ensures forall p :: p in r <==> p in partitions && AtMost(p.end, SubDays(today, hotRetentionDays))
  {
    if partitions == [] then []
    else
      var rest := PartitionsToArchive(partitions[1..], today, hotRetentionDays);
      if AtMost(partitions[0].end, SubDays(today, hotRetentionDays)) then [partitions[0]] + rest else rest
  }

  /** Selecting goes through the list in order: what is selected from two lists in a row is what is
      selected from each. */
  lemma {:induction false} SelectionAppends(a: seq<PartitionInfo>, b: seq<PartitionInfo>, today: Date, days: nat)
    ensures PartitionsToArchive(a + b, today, days) ==
      PartitionsToArchive(a, today, days) + PartitionsToArchive(b, today, days)
  {
    if a == [] {
      assert a + b == b;
    } else {
      SelectionAppends(a[1..], b, today, days);
      SelectionStep(a[0], a[1..], a, today, days);
      assert a + b == [a[0]] + (a[1..] + b);
      SelectionStep(a[0], a[1..] + b, a + b, today, days);
    }
  }

  lemma SelectionStep(p: PartitionInfo, rest: seq<PartitionInfo>, all: seq<PartitionInfo>, today: Date, days: nat)
    requires all == [p] + rest
    ensures PartitionsToArchive(all, today, days)
         == (if AtMost(p.end, SubDays(today, days)) then [p] else []) + PartitionsToArchive(rest, today, days)
  {
    assert all[0] == p && all[1..] == rest;
  }

  /** Every expired partition is selected as often as it is listed, and no other is. */
  lemma {:induction false} SelectionCounts(partitions: seq<PartitionInfo>, today: Date, hotRetentionDays: nat,
                                           p: PartitionInfo)
    ensures multiset(PartitionsToArchive(partitions, today, hotRetentionDays))[p]
         == if AtMost(p.end, SubDays(today, hotRetentionDays)) then multiset(partitions)[p] else 0
  {
    if partitions != [] {
      SelectionCounts(partitions[1..], today, hotRetentionDays, p);
      assert partitions == [partitions[0]] + partitions[1..];
    }
  }

  predicate IsMonth(p: PartitionInfo, m: int) {
    p.start == MonthStart(m) && p.end == MonthStart(m + 1)
  }

  /** A monthly partition is selected exactly when every day it can hold is past the retention period. */
  lemma SelectedIffExpired(partitions: seq<PartitionInfo>, today: Date, hotRetentionDays: nat, p: PartitionInfo, m: int)
    requires Real(today) && p in partitions && IsMonth(p, m)
    ensures p in PartitionsToArchive(partitions, today, hotRetentionDays)
      <==> forall d :: Real(d) && InMonth(d, m) ==> OlderThan(d, hotRetentionDays, today)
  {
    EndsByCutoffIff(m, hotRetentionDays, today);
  }

  /** No month that is created on a day is selected for archival on that day. */
  lemma CreatedNeverArchived(partitions: seq<PartitionInfo>, today: Date, advanceDays: nat, hotRetentionDays: nat,
                             p: PartitionInfo, i: nat)
    requires Real(today) && i <= MonthOf(AddDays(today, advanceDays)) - MonthOf(today) && IsMonth(p, MonthOf(today) + i)
    ensures p !in PartitionsToArchive(partitions, today, hotRetentionDays)
  {
    AddUndoesSub(today, hotRetentionDays);
    InMonthIff(today, MonthOf(today));
  }
}
