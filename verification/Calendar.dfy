/** The proleptic Gregorian calendar of Go's `time` package at one fixed UTC offset. Days are numbered from
    Monday 1 January of year 1; months from January of year 0. */
module Calendar {
  const DAY_MINUTES := 1440
  const MINUTE_NS := 60_000_000_000

  predicate Leap(year: int) {
    year % 4 == 0 && (year % 100 != 0 || year % 400 == 0)
  }

  /** The length of month number `k`, by the usual rule. */
  function DaysIn(k: int): (n: int)
    ensures 28 <= n <= 31
  {
    var m := k % 12;
    if m == 1 then (if Leap(k / 12) then 29 else 28)
    else if m == 3 || m == 5 || m == 8 || m == 10 then 30
    else 31
  }

  /** The number of the first day of month `k`: month lengths added up from January of year 0. */
  function MonthStart(k: int): int
    decreases if k < 0 then -k else k
  {
    if k == 0 then -366
    else if k > 0 then MonthStart(k - 1) + DaysIn(k - 1)
    else MonthStart(k + 1) - DaysIn(k)
  }

  lemma MonthLength(k: int)
    ensures MonthStart(k + 1) == MonthStart(k) + DaysIn(k)
  {
  }

  lemma {:induction false} MonthsIncrease(a: int, b: int)
    requires a <= b
    ensures MonthStart(b) >= MonthStart(a) + 28 * (b - a)
    decreases b - a
  {
    if a < b {
      MonthLength(b - 1);
      MonthsIncrease(a, b - 1);
    }
  }

  /** The month that holds `day`, found from a guess `k`. */
  function MonthFrom(day: int, k: int): (r: int)
    ensures MonthStart(r) <= day < MonthStart(r + 1)
    decreases if day < MonthStart(k) then MonthStart(k) - day else day - MonthStart(k)
  {
    MonthLength(k);
    MonthLength(k - 1);
    if day < MonthStart(k) then
      if MonthStart(k - 1) <= day then k - 1 else MonthFrom(day, k - 1)
    else if day >= MonthStart(k + 1) then MonthFrom(day, k + 1)
    else k
  }

  function MonthOf(day: int): (k: int)
    ensures MonthStart(k) <= day < MonthStart(k + 1)
  {
    MonthFrom(day, 0)
  }

  /** A day lies in one month only. */
  lemma MonthUnique(day: int, k: int)
    requires MonthStart(k) <= day < MonthStart(k + 1)
    ensures MonthOf(day) == k
  {
    var r := MonthOf(day);
    if r < k {
      MonthsIncrease(r + 1, k);
    } else if k < r {
      MonthsIncrease(k + 1, r);
    }
  }

  lemma MonthOfMonotone(a: int, b: int)
    requires a <= b
    ensures MonthOf(a) <= MonthOf(b)
  {
    if MonthOf(b) < MonthOf(a) { MonthsIncrease(MonthOf(b) + 1, MonthOf(a)); }
  }

  function DayOfMonth(day: int): (d: int)
    ensures 1 <= d <= DaysIn(MonthOf(day))
  {
    MonthLength(MonthOf(day));
    day - MonthStart(MonthOf(day)) + 1
  }

  /** Sunday is 0, as in Go's `time.Weekday`. */
  function Weekday(day: int): int {
    (day + 1) % 7
  }

  /** Weekdays follow each other round the week. */
  lemma WeekdaysInTurn(day: int)
    ensures 0 <= Weekday(day) < 7
    ensures Weekday(day + 1) == if Weekday(day) == 6 then 0 else Weekday(day) + 1
  {
  }

  /** `time.Date` for day `d` of month `k`: a day past the month's end runs on into the next. */
  function Date(k: int, d: int): int {
    MonthStart(k) + d - 1
  }

  /** A date stays in its month exactly when the month has that day, */
  lemma DateInMonthIff(k: int, d: int)
    requires 1 <= d <= 31
    ensures MonthOf(Date(k, d)) == k <==> d <= DaysIn(k)
  {
    MonthLength(k);
    if d <= DaysIn(k) { MonthUnique(Date(k, d), k); }
  }

  /** so a day of at most 28 never runs on. */
  lemma DateStaysInMonth(k: int, d: int)
    requires 1 <= d <= 28
    ensures MonthOf(Date(k, d)) == k && DayOfMonth(Date(k, d)) == d
  {
    DateInMonthIff(k, d);
  }

  /** Days before 1 January of `year`, in closed form. */
  function YearStart(year: int): int {
    var y := year - 1;
    365 * y + y / 4 - y / 100 + y / 400
  }

  lemma YearLength(year: int)
    ensures YearStart(year + 1) == YearStart(year) + if Leap(year) then 366 else 365
  {
    var y := year;
    assert y / 4 == (y - 1) / 4 + if y % 4 == 0 then 1 else 0;
    assert y / 100 == (y - 1) / 100 + if y % 100 == 0 then 1 else 0;
    assert y / 400 == (y - 1) / 400 + if y % 400 == 0 then 1 else 0;
    assert y % 400 == 0 ==> y % 100 == 0;
    assert y % 100 == 0 ==> y % 4 == 0;
  }

  lemma MonthStep(year: int, m: int)
    requires 0 <= m < 12
    ensures MonthStart(12 * year + m + 1) == MonthStart(12 * year + m) +
              if m == 1 then (if Leap(year) then 29 else 28)
              else if m == 3 || m == 5 || m == 8 || m == 10 then 30 else 31
  {
    var k := 12 * year + m;
    assert k % 12 == m && k / 12 == year;
    MonthLength(k);
  }

  lemma FirstQuarter(year: int)
    ensures MonthStart(12 * year + 3) == MonthStart(12 * year) + if Leap(year) then 91 else 90
  {
    MonthStep(year, 0); MonthStep(year, 1); MonthStep(year, 2);
  }

  lemma ThreeMonths(year: int, m: int)
    requires m == 3 || m == 6 || m == 9
    ensures MonthStart(12 * year + m + 3) == MonthStart(12 * year + m) + if m == 3 then 91 else 92
  {
    MonthStep(year, m); MonthStep(year, m + 1); MonthStep(year, m + 2);
  }

  lemma TwelveMonths(year: int)
    ensures MonthStart(12 * year + 12) == MonthStart(12 * year) + if Leap(year) then 366 else 365
  {
    FirstQuarter(year);
    ThreeMonths(year, 3);
    ThreeMonths(year, 6);
    ThreeMonths(year, 9);
  }

  /** Month lengths added up give the closed form of the Gregorian year, for every year. */
  lemma {:induction false} YearStartClosed(year: int)
    ensures MonthStart(12 * year) == YearStart(year)
    decreases if year < 0 then -year else year
  {
    if year > 0 {
      YearStartClosed(year - 1);
      TwelveMonths(year - 1);
      YearLength(year - 1);
    } else if year < 0 {
      YearStartClosed(year + 1);
      TwelveMonths(year);
      YearLength(year);
    }
  }

  /** The anchor: 1 January 1970, where year 1970 starts, is day 719162, a Thursday. */
  lemma EpochIsThursday()
    ensures YearStart(1970) == 719_162 && Weekday(YearStart(1970)) == 4
  {
  }
}
