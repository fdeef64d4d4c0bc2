/** Proleptic Gregorian civil dates, day numbers counted from 1970-01-01,
    weekdays (Sunday = 0) and day arithmetic.  Both the server (moment-timezone
    dates) and the browser (JS `Date` objects) use these operations; here they
    work on civil dates, with no time of day and no time zone. */
module CivilDate {
  import opened Wrappers

  datatype Date = Date(year: int, month: int, day: int)

  /** The seven weekday names, indexed by weekday number (Sunday = 0). */
  const DayNames: seq<string> :=
    ["Sunday", "Monday", "Tuesday", "Wednesday", "Thursday", "Friday", "Saturday"]

  predicate IsLeapYear(y: int) {
    y % 4 == 0 && (y % 100 != 0 || y % 400 == 0)
  }

  function DaysInMonth(y: int, m: int): (n: int)
    requires 1 <= m <= 12
    ensures 28 <= n <= 31
    ensures n == 29 <==> m == 2 && IsLeapYear(y)
  {
    if m == 2 then (if IsLeapYear(y) then 29 else 28)
    else if m == 4 || m == 6 || m == 9 || m == 11 then 30
    else 31
  }

  function DaysInYear(y: int): int {
    if IsLeapYear(y) then 366 else 365
  }

  predicate ValidDate(d: Date) {
    1 <= d.month <= 12 && 1 <= d.day <= DaysInMonth(d.year, d.month)
  }

  /** Days from 1970-01-01 to January 1st of year y (negative before 1970). */
  function DaysBeforeYear(y: int): int
    decreases if y < 1970 then 1970 - y else y - 1970
  {
    if y == 1970 then 0
    else if y > 1970 then DaysBeforeYear(y - 1) + DaysInYear(y - 1)
    else DaysBeforeYear(y + 1) - DaysInYear(y)
  }

  /** Number of leap years among 1 .. y-1 (Euclidean division makes it
      meaningful for every integer y). */
  function LeapYearsBefore(y: int): int {
    (y - 1) / 4 - (y - 1) / 100 + (y - 1) / 400
  }

  /** Days from January 1st of year y to the 1st of month m (m = 13 is the next January). */
  function DaysBeforeMonth(y: int, m: int): (n: int)
    requires 1 <= m <= 13
    ensures 0 <= n <= DaysInYear(y)
  {
    var cumulative := [0, 31, 59, 90, 120, 151, 181, 212, 243, 273, 304, 334, 365];
    cumulative[m - 1] + (if IsLeapYear(y) && m > 2 then 1 else 0)
  }

  /** Days since 1970-01-01 (negative before it). */
  function DayNumber(d: Date): int
    requires 1 <= d.month <= 12
  {
    DaysBeforeYear(d.year) + DaysBeforeMonth(d.year, d.month) + d.day - 1
  }

  /** Weekday of a date, Sunday = 0 .. Saturday = 6 (1970-01-01 was a Thursday). */
  function Weekday(d: Date): (w: int)
    requires 1 <= d.month <= 12
    ensures 0 <= w < 7
  {
    (DayNumber(d) + 4) % 7
  }

  /** The seven names are distinct. */
  lemma DayNamesDistinct()
    ensures forall i, j :: 0 <= i < j < 7 ==> DayNames[i] != DayNames[j]
  {
  }

  /** The weekday numbers by name (the source's `dayMap`). */
  const DayMap: map<string, int> :=
    map["Sunday" := 0, "Monday" := 1, "Tuesday" := 2, "Wednesday" := 3,
        "Thursday" := 4, "Friday" := 5, "Saturday" := 6]

  /** Index of a weekday name in DayNames, None for any other string
      (the source's `dayMap[dayName]`). */
  function DayIndex(name: string): (r: Option<int>)
    ensures r.Some? <==> name in DayNames
    ensures r.Some? ==> 0 <= r.value < 7 && DayNames[r.value] == name
  {
    if name in DayMap then Some(DayMap[name]) else None
  }

  /** Stepping y by one changes y / 4 by one exactly when 4 divides y. */
  lemma DivStep4(y: int)
    ensures y / 4 - (y - 1) / 4 == (if y % 4 == 0 then 1 else 0)
  {
  }

  lemma DivStep100(y: int)
    ensures y / 100 - (y - 1) / 100 == (if y % 100 == 0 then 1 else 0)
  {
  }

  lemma DivStep400(y: int)
    ensures y / 400 - (y - 1) / 400 == (if y % 400 == 0 then 1 else 0)
  {
  }

  lemma Multiple400Is100(y: int)
    ensures y % 400 == 0 ==> y % 100 == 0
  {
    if y % 400 == 0 {
      assert y == 100 * (4 * (y / 400));
    }
  }

  lemma Multiple100Is4(y: int)
    ensures y % 100 == 0 ==> y % 4 == 0
  {
    if y % 100 == 0 {
      assert y == 4 * (25 * (y / 100));
    }
  }

  /** One more year adds one leap year exactly when that year is a leap year. */
  lemma LeapYearsStep(y: int)
    ensures LeapYearsBefore(y + 1) == LeapYearsBefore(y) + (if IsLeapYear(y) then 1 else 0)
  {
    DivStep4(y);
    DivStep100(y);
    DivStep400(y);
    Multiple400Is100(y);
    Multiple100Is4(y);
  }

  /** The closed form of DaysBeforeYear: 365 days a year plus one per leap year. */
  lemma {:induction false} DaysBeforeYearClosedForm(y: int)
    ensures DaysBeforeYear(y) == 365 * (y - 1970) + LeapYearsBefore(y) - LeapYearsBefore(1970)
    decreases if y < 1970 then 1970 - y else y - 1970
  {
    if y > 1970 {
      DaysBeforeYearClosedForm(y - 1);
      LeapYearsStep(y - 1);
    } else if y < 1970 {
      DaysBeforeYearClosedForm(y + 1);
      LeapYearsStep(y);
    }
  }

  lemma DaysBeforeNextYear(y: int)
    ensures DaysBeforeYear(y + 1) == DaysBeforeYear(y) + DaysInYear(y)
  {
  }

  /** The day after d; month and year roll over as a JS `Date` normalises them. */
  function NextDay(d: Date): (r: Date)
    requires ValidDate(d)
    ensures ValidDate(r) && DayNumber(r) == DayNumber(d) + 1
  {
    if d.day < DaysInMonth(d.year, d.month) then Date(d.year, d.month, d.day + 1)
    else if d.month < 12 then Date(d.year, d.month + 1, 1)
    else DaysBeforeNextYear(d.year); Date(d.year + 1, 1, 1)
  }

  /** The day before d. */
  function PrevDay(d: Date): (r: Date)
    requires ValidDate(d)
    ensures ValidDate(r) && DayNumber(r) == DayNumber(d) - 1
  {
    if d.day > 1 then Date(d.year, d.month, d.day - 1)
    else if d.month > 1 then Date(d.year, d.month - 1, DaysInMonth(d.year, d.month - 1))
    else DaysBeforeNextYear(d.year - 1); Date(d.year - 1, 12, 31)
  }

  /** Every integer is the day number of some valid date. */
  lemma {:induction false} DayNumberReached(n: int)
    ensures exists d :: ValidDate(d) && DayNumber(d) == n
    decreases if n < 0 then -n else n
  {
    if n == 0 {
      assert ValidDate(Date(1970, 1, 1)) && DayNumber(Date(1970, 1, 1)) == 0;
    } else if n > 0 {
      DayNumberReached(n - 1);
      var d :| ValidDate(d) && DayNumber(d) == n - 1;
      assert DayNumber(NextDay(d)) == n;
    } else {
      DayNumberReached(n + 1);
      var d :| ValidDate(d) && DayNumber(d) == n + 1;
      assert DayNumber(PrevDay(d)) == n;
    }
  }

  /** d shifted by k days (k may be negative): the date whose day number is k
      more than d's.  This is the civil-date meaning of a JS
      `setDate(getDate() + k)` and of moment's `add(k, 'days')`. */
  function AddDays(d: Date, k: int): (r: Date)
    requires ValidDate(d)
    ensures ValidDate(r) && DayNumber(r) == DayNumber(d) + k
  {
    DayNumberReached(DayNumber(d) + k);
    DayNumberInjectiveAll();
    var r :| ValidDate(r) && DayNumber(r) == DayNumber(d) + k;
    r
  }

  lemma DayNumberInjectiveAll()
    ensures forall a, b :: ValidDate(a) && ValidDate(b) && DayNumber(a) == DayNumber(b) ==> a == b
  {
    forall a, b | ValidDate(a) && ValidDate(b) && DayNumber(a) == DayNumber(b)
      ensures a == b
    {
      DayNumberInjective(a, b);
    }
  }

  /** Within one year the day number grows with (month, day). */
  lemma DayOfYearBounds(d: Date)
    requires ValidDate(d)
    ensures DaysBeforeYear(d.year) <= DayNumber(d) < DaysBeforeYear(d.year) + DaysInYear(d.year)
    ensures DaysBeforeMonth(d.year, d.month) <= DayNumber(d) - DaysBeforeYear(d.year)
              < DaysBeforeMonth(d.year, d.month + 1)
  {
  }

  /** January 1st of later years has a larger day number. */
  lemma {:induction false} DaysBeforeYearMonotone(y1: int, y2: int)
    requires y1 < y2
    ensures DaysBeforeYear(y1) + DaysInYear(y1) <= DaysBeforeYear(y2)
    decreases y2 - y1
  {
    DaysBeforeNextYear(y1);
    if y1 + 1 < y2 {
      DaysBeforeYearMonotone(y1 + 1, y2);
    }
  }

  /** Distinct valid dates have distinct day numbers. */
  lemma DayNumberInjective(a: Date, b: Date)
    requires ValidDate(a) && ValidDate(b) && DayNumber(a) == DayNumber(b)
    ensures a == b
  {
    DayOfYearBounds(a);
    DayOfYearBounds(b);
    if a.year < b.year {
      DaysBeforeYearMonotone(a.year, b.year);
    } else if b.year < a.year {
      DaysBeforeYearMonotone(b.year, a.year);
    }
  }

  /** Two valid dates are equal iff they have the same day number. */
  lemma SameDayNumberIff(a: Date, b: Date)
    requires ValidDate(a) && ValidDate(b)
    ensures DayNumber(a) == DayNumber(b) <==> a == b
  {
    if DayNumber(a) == DayNumber(b) {
      DayNumberInjective(a, b);
    }
  }

  /** Shifting by i + 1 days is the day after shifting by i days. */
  lemma AddDaysSucc(d: Date, i: int)
    requires ValidDate(d)
    ensures AddDays(d, i + 1) == NextDay(AddDays(d, i))
  {
    DayNumberInjective(AddDays(d, i + 1), NextDay(AddDays(d, i)));
  }

  /** Shifting by seven days keeps the weekday; in general weekdays advance by k mod 7. */
  lemma WeekdayAfter(d: Date, k: int)
    requires ValidDate(d)
    ensures Weekday(AddDays(d, k)) == (Weekday(d) + k) % 7
  {
    var n := DayNumber(d) + 4;
    ModAddMultiple(n + k, -(n / 7));
    assert n + k + 7 * -(n / 7) == n % 7 + k;
  }

  lemma ModAddMultiple(x: int, q: int)
    ensures (x + 7 * q) % 7 == x % 7
  {
  }

  /** JS `date.setMonth(monthIndex)` on a civil date.  monthIndex is 0-based
      and may leave 0..11 (the year rolls over); the day of month is kept and,
      when the new month is shorter, spills over into the month after it. */
  function SetMonth(d: Date, monthIndex: int): (r: Date)
    requires ValidDate(d)
    ensures ValidDate(r)
  {
    AddDays(Date(d.year + monthIndex / 12, monthIndex % 12 + 1, 1), d.day - 1)
  }

  /** When the target month is long enough, setMonth lands on the same day of that month. */
  lemma SetMonthKeepsDay(d: Date, monthIndex: int)
    requires ValidDate(d)
    requires d.day <= DaysInMonth(d.year + monthIndex / 12, monthIndex % 12 + 1)
    ensures SetMonth(d, monthIndex) == Date(d.year + monthIndex / 12, monthIndex % 12 + 1, d.day)
  {
    DayNumberInjective(SetMonth(d, monthIndex), Date(d.year + monthIndex / 12, monthIndex % 12 + 1, d.day));
  }

  /** When the target month is too short, setMonth spills the surplus days,
      at most three, into the following month.  December has 31 days, so the
      target month is never December and the spill never changes the year. */
  lemma SetMonthOverflow(d: Date, monthIndex: int)
    requires ValidDate(d)
    requires d.day > DaysInMonth(d.year + monthIndex / 12, monthIndex % 12 + 1)
    ensures var y, m := d.year + monthIndex / 12, monthIndex % 12 + 1;
            var spill := d.day - DaysInMonth(y, m);
            && m < 12 && 1 <= spill <= 3
            && SetMonth(d, monthIndex) == Date(y, m + 1, spill)
  {
    var y, m := d.year + monthIndex / 12, monthIndex % 12 + 1;
    var target := Date(y, m + 1, d.day - DaysInMonth(y, m));
    assert DayNumber(target) == DayNumber(Date(y, m, 1)) + d.day - 1;
    DayNumberInjective(SetMonth(d, monthIndex), target);
  }

  /** In a common year, setMonth(1) on January 31st gives March 3rd. */
  lemma JanuaryLastToMarch(y: int)
    requires !IsLeapYear(y)
    ensures SetMonth(Date(y, 1, 31), 1) == Date(y, 3, 3)
  {
    var r, march3 := SetMonth(Date(y, 1, 31), 1), Date(y, 3, 3);
    assert DayNumber(r) == DayNumber(Date(y, 2, 1)) + 30;
    DayNumberInjective(r, march3);
  }

  /** The browser's "next month" button on 2025-01-31 shows March, not February:
      setMonth(1) on January 31st gives March 3rd. */
  lemma NextMonthSkipsFebruary()
    ensures ValidDate(Date(2025, 1, 31))
    ensures SetMonth(Date(2025, 1, 31), 1) == Date(2025, 3, 3)
  {
    JanuaryLastToMarch(2025);
  }

  /** Stepping forward then back one month returns to the start date whenever
      the day of month is at most 28. */
  lemma NextPrevMonthRoundTrip(d: Date)
    requires ValidDate(d) && d.day <= 28
    ensures SetMonth(SetMonth(d, d.month), SetMonth(d, d.month).month - 2) == d
  {
    var n := SetMonth(d, d.month);
    SetMonthKeepsDay(d, d.month);
    if d.month == 12 {
      assert n == Date(d.year + 1, 1, d.day);
      assert (n.month - 2) / 12 == -1 && (n.month - 2) % 12 == 11;
    } else {
      assert n == Date(d.year, d.month + 1, d.day);
      assert (n.month - 2) / 12 == 0 && (n.month - 2) % 12 == d.month - 1;
    }
    SetMonthKeepsDay(n, n.month - 2);
  }

  /** 2024-06-10 is a Monday. */
  lemma Weekday20240610()
    ensures ValidDate(Date(2024, 6, 10)) && Weekday(Date(2024, 6, 10)) == 1
  {
    DaysBeforeYearClosedForm(2024);
    assert LeapYearsBefore(2024) == 490 && LeapYearsBefore(1970) == 477;
    assert DaysBeforeYear(2024) == 19723;
    assert DayNumber(Date(2024, 6, 10)) == 19884;
  }
}
