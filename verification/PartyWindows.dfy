/**
 The one-year windows a name search is split into: calendar years from 2021 to today.
 */
module PartyWindows {

  // DJEN publishes nothing before this year.
  const COVERAGE_START_YEAR: nat := 2021

  datatype Date = Date(year: nat, month: nat, day: nat) {
    predicate Valid() { 1 <= month <= 12 && 1 <= day <= DaysIn(year, month) }

    predicate AtMost(d: Date) {
      year < d.year || (year == d.year && (month < d.month || (month == d.month && day <= d.day)))
    }

    function Next(): Date {
      if day < DaysIn(year, month) then Date(year, month, day + 1)
      else if month < 12 then Date(year, month + 1, 1)
      else Date(year + 1, 1, 1)
    }
  }

  predicate Leap(year: nat) { year % 4 == 0 && (year % 100 != 0 || year % 400 == 0) }

  function DaysIn(year: nat, month: nat): nat {
    if month == 2 then (if Leap(year) then 29 else 28)
    else if month in {4, 6, 9, 11} then 30
    else 31
  }

  // The calendar, by the months of 31 days and the leap years.
  lemma CalendarIs(year: nat, month: nat)
    ensures month in {1, 3, 5, 7, 8, 10, 12} ==> DaysIn(year, month) == 31
    ensures month == 4 || month == 6 || month == 9 || month == 11 ==> DaysIn(year, month) == 30
    ensures DaysIn(year, 2) == if year % 400 == 0 || (year % 4 == 0 && year % 100 != 0) then 29 else 28
  {
  }

  datatype Window = Window(from: Date, to: Date) {
    predicate Contains(d: Date) { from.AtMost(d) && d.AtMost(to) }
  }

  // A search in a year before coverage began has no window; further back the source's
  // allocation of the list has a negative size.
  predicate Searchable(today: Date) { today.Valid() && today.year + 1 >= COVERAGE_START_YEAR }

  function WindowCount(today: Date): nat
    requires Searchable(today)
  {
    today.year + 1 - COVERAGE_START_YEAR
  }

  function WindowAt(today: Date, i: nat): Window {
    var year := COVERAGE_START_YEAR + i;
    Window(Date(year, 1, 1), if year < today.year then Date(year, 12, 31) else today)
  }

  method Windows(today: Date) returns (ws: seq<Window>)
    requires Searchable(today)
    ensures |ws| == WindowCount(today) == today.year + 1 - 2021
    ensures forall i | 0 <= i < |ws| :: ws[i] == WindowAt(today, i)
  {
    ws := [];
    for year := COVERAGE_START_YEAR to today.year + 1
      invariant |ws| == year - COVERAGE_START_YEAR
      invariant forall i | 0 <= i < |ws| :: ws[i] == WindowAt(today, i)
    {
      var to := Date(year, 12, 31);
      if !to.AtMost(today) { to := today; }
      ws := ws + [Window(Date(year, 1, 1), to)];
    }
  }

  // Every covered day lies in exactly one window, and no window reaches outside the covered span.
  lemma WindowsPartitionCoverage(today: Date, d: Date)
    requires Searchable(today) && d.Valid()
    ensures (exists i: nat | i < WindowCount(today) :: WindowAt(today, i).Contains(d)) <==>
            2021 <= d.year && d.AtMost(today)
    ensures forall i: nat, j: nat | i < WindowCount(today) && j < WindowCount(today) ::
              WindowAt(today, i).Contains(d) && WindowAt(today, j).Contains(d) ==> i == j
  {
    if 2021 <= d.year && d.AtMost(today) {
      assert WindowAt(today, d.year - COVERAGE_START_YEAR).Contains(d);
    }
  }

  // Each window lies inside one calendar year and the next one starts on the day after it ends.
  lemma WindowsAreContiguousYears(today: Date, i: nat)
    requires Searchable(today) && i < WindowCount(today)
    ensures var w := WindowAt(today, i);
      && w.from.Valid() && w.to.Valid()
      && w.from.year == w.to.year && w.from.AtMost(w.to)
      && w.to == (if i + 1 < WindowCount(today) then w.to else today)
      && (i + 1 < WindowCount(today) ==> WindowAt(today, i + 1).from == w.to.Next())
  {
  }
}
