/** The static calendar tables of the dashboard: the month-length table (which has no leap
    years), the month abbreviations, the cumulative slider marks and the conversion of a
    day-of-year slider value into a month and day. */
module Calendar {
  import opened Results

  /** `days_in_month[m]`: `None` stands for the `KeyError` raised outside 1..12.
      February always has 28 days. */
  function MonthDays(m: int): (r: Option<nat>)
    ensures r.Some? <==> 1 <= m <= 12
    ensures r.Some? ==> 28 <= r.value <= 31
  {
    match m
    case 1 => Some(31)
    case 2 => Some(28)
    case 3 => Some(31)
    case 4 => Some(30)
    case 5 => Some(31)
    case 6 => Some(30)
    case 7 => Some(31)
    case 8 => Some(31)
    case 9 => Some(30)
    case 10 => Some(31)
    case 11 => Some(30)
    case 12 => Some(31)
    case _ => None
  }

  /** `month_names[m]` for a month of the table. */
  function MonthName(m: int): string
    requires 1 <= m <= 12
  {
    match m
    case 1 => "Jan"
    case 2 => "Feb"
    case 3 => "Mar"
    case 4 => "Apr"
    case 5 => "May"
    case 6 => "Jun"
    case 7 => "Jul"
    case 8 => "Aug"
    case 9 => "Sep"
    case 10 => "Oct"
    case 11 => "Nov"
    case 12 => "Dec"
  }

  /** Number of days in the months before month `m` (so `DaysBefore(13)` is the year). */
  function DaysBefore(m: int): nat
    requires 1 <= m <= 13
  {
    if m == 1 then 0 else DaysBefore(m - 1) + MonthDays(m - 1).value
  }

  /** The running total of month lengths at the end of month `m`. */
  function MonthEnd(m: int): nat
    requires 1 <= m <= 12
  {
    DaysBefore(m) + MonthDays(m).value
  }

  /** Position of day `d` of month `m` in the table's year. */
  function DayOfYear(m: int, d: int): int
    requires 1 <= m <= 12
  {
    DaysBefore(m) + d
  }

  /** The table's year has 365 days. */
  lemma {:induction false} YearLength()
    ensures DaysBefore(13) == 365
  {
    assert DaysBefore(1) == 0;
    assert DaysBefore(7) == 181;
  }

  /** Cumulative month lengths grow strictly: a later month starts later. */
  lemma {:induction false} DaysBeforeIncreasing(m: int, n: int)
    requires 1 <= m < n <= 13
    ensures DaysBefore(m) + MonthDays(m).value <= DaysBefore(n)
    decreases n - m
  {
    if m + 1 < n {
      DaysBeforeIncreasing(m + 1, n);
    }
  }

  /** Month-and-day pairs are determined by their day of year: two valid pairs with the same
      position are the same pair, so `MonthAndDay` is the inverse of `DayOfYear`. */
  lemma DayOfYearInjective(m: int, d: int, m': int, d': int)
    requires 1 <= m <= 12 && 1 <= d <= MonthDays(m).value
    requires 1 <= m' <= 12 && 1 <= d' <= MonthDays(m').value
    requires DayOfYear(m, d) == DayOfYear(m', d')
    ensures m == m' && d == d'
  {
    if m < m' {
      DaysBeforeIncreasing(m, m');
    } else if m' < m {
      DaysBeforeIncreasing(m', m);
    }
  }

  /** The slider marks: a running total of month lengths, each total labelled with the
      abbreviation of the month it ends. The last mark is at day 365, labelled `Dec`. */
  method SliderMarks() returns (marks: map<int, string>)
    ensures marks.Keys == set m | 1 <= m <= 12 :: MonthEnd(m)
    ensures forall m :: 1 <= m <= 12 ==> marks[MonthEnd(m)] == MonthName(m)
    ensures 365 in marks && marks[365] == "Dec"
  {
    marks := map[];
    var dayCount := 0;
    var month := 1;
    while month < 13
      invariant 1 <= month <= 13
      invariant dayCount == DaysBefore(month)
      invariant marks.Keys == set m | 1 <= m < month :: MonthEnd(m)
      invariant forall m :: 1 <= m < month ==> marks[MonthEnd(m)] == MonthName(m)
    {
      dayCount := dayCount + MonthDays(month).value;
      assert dayCount == MonthEnd(month);
      var before := marks;
      marks := marks[dayCount := MonthName(month)];
      forall m | 1 <= m <= month
        ensures marks[MonthEnd(m)] == MonthName(m)
      {
        if m < month {
          DaysBeforeIncreasing(m, month);
          assert marks[MonthEnd(m)] == before[MonthEnd(m)];
        }
      }
      assert marks.Keys == before.Keys + {MonthEnd(month)};
      month := month + 1;
    }
    YearLength();
    assert MonthEnd(12) == 365;
  }

  /** The day-of-year loop of the map callback: subtract month lengths until the remainder
      fits in the current month. A value above 365 runs past December and the table lookup
      for month 13 fails (`None`); a value below 1 is returned unchanged as a day of January. */
  method MonthAndDay(dayOfYear: int) returns (r: Option<(int, int)>)
    ensures r.None? <==> dayOfYear > 365
    ensures 1 <= dayOfYear <= 365 ==>
      var (m, d) := r.value;
      1 <= m <= 12 && 1 <= d <= MonthDays(m).value && DayOfYear(m, d) == dayOfYear
    ensures dayOfYear < 1 ==> r == Some((1, dayOfYear))
  {
    var month := 1;
    var day := dayOfYear;
    var length := MonthDays(month);
    while length.Some? && day > length.value
      invariant 1 <= month <= 13
      invariant day == dayOfYear - DaysBefore(month)
      invariant length == MonthDays(month)
      invariant month > 1 ==> day > 0
      decreases 13 - month
    {
      day := day - length.value;
      month := month + 1;
      length := MonthDays(month);
    }
    YearLength();
    if length.None? {
      return None;
    }
    if dayOfYear > 365 {
      DaysBeforeIncreasing(month, 13);
    }
    return Some((month, day));
  }
}
