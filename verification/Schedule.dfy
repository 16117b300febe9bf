/** Schedules and their next instant (internal/scheduler/schedule.go). Instants are nanoseconds on the local
    clock since day 0 of `Calendar`. */
module Schedules {
  import opened Calendar

  datatype Schedule =
    | Hourly(minute: int)
    | Daily(hour: int, minute: int)
    | Weekly(weekday: int, hour: int, minute: int)
    | Monthly(monthDay: int, hour: int, minute: int)

  /** What `ParseSchedule` lets through. */
  predicate Valid(s: Schedule) {
    && 0 <= s.minute <= 59
    && (!s.Hourly? ==> 0 <= s.hour <= 23)
    && (s.Weekly? ==> 0 <= s.weekday <= 6)
    && (s.Monthly? ==> 1 <= s.monthDay <= 28)
  }

  function TimeOfDay(s: Schedule): int
    requires !s.Hourly?
  {
    s.hour * 60 + s.minute
  }

  /** Minute number `c` is one the schedule names. */
  predicate MatchesMinute(s: Schedule, c: int) {
    var day, tod := c / DAY_MINUTES, c % DAY_MINUTES;
    match s
    case Hourly(m) => c % 60 == m
    case Daily(h, m) => tod == h * 60 + m
    case Weekly(w, h, m) => tod == h * 60 + m && Weekday(day) == w
    case Monthly(d, h, m) => tod == h * 60 + m && DayOfMonth(day) == d
  }

  predicate Matches(s: Schedule, t: int) {
    t % MINUTE_NS == 0 && MatchesMinute(s, t / MINUTE_NS)
  }

  /** What a schedule names, read off the wall clock: hour, minute, no seconds, and the day if it tells. */
  lemma MatchesIsWallClock(s: Schedule, t: int)
    requires Valid(s)
    ensures var minute, hour, day := t / 60_000_000_000 % 60, t / 3_600_000_000_000 % 24, t / 86_400_000_000_000;
            Matches(s, t) <==>
              && t % 60_000_000_000 == 0
              && minute == s.minute
              && (!s.Hourly? ==> hour == s.hour)
              && (s.Weekly? ==> Weekday(day) == s.weekday)
              && (s.Monthly? ==> DayOfMonth(day) == s.monthDay)
  {
    var c := t / MINUTE_NS;
    ClockParts(t);
    assert s.Hourly? || (c % 1440 == s.hour * 60 + s.minute <==> c % 1440 / 60 == s.hour && c % 60 == s.minute);
  }

  lemma ClockParts(t: int)
    ensures var c := t / 60_000_000_000;
            && t / 3_600_000_000_000 == c / 60 && t / 86_400_000_000_000 == c / 1440
            && c % 1440 % 60 == c % 60 && c % 1440 / 60 == c / 60 % 24
  {
  }

  ghost predicate IsNext(s: Schedule, after: int, c: int) {
    && Matches(s, c) && after < c
    && forall d :: Matches(s, d) && after < d ==> c <= d
  }

  /** The least matching minute after minute `m`, in closed form. */
  function NextMinute(s: Schedule, m: int): int {
    var t := m + 1;
    match s
    case Hourly(minute) =>
      var c := t / 60 * 60 + minute;
      if c <= m then c + 60 else c
    case Daily(_, _) => FirstDay(s, m)
    case Weekly(w, _, _) =>
      FirstDay(s, m) + DaysUntil(FirstDay(s, m) / DAY_MINUTES, w) * DAY_MINUTES
    case Monthly(d, _, _) =>
      var k := MonthOf(t / DAY_MINUTES);
      var c := Date(k, d) * DAY_MINUTES + TimeOfDay(s);
      if c <= m then Date(k + 1, d) * DAY_MINUTES + TimeOfDay(s) else c
  }

  /** The schedule's time of day on the first day it comes after minute `m`. */
  function FirstDay(s: Schedule, m: int): int
    requires !s.Hourly?
  {
    var c := (m + 1) / DAY_MINUTES * DAY_MINUTES + TimeOfDay(s);
    if c <= m then c + DAY_MINUTES else c
  }

  /** Days from `day` to the first weekday `w` on or after it. */
  function DaysUntil(day: int, w: int): (n: int)
    ensures 0 <= n < 7
    ensures 0 <= w < 7 ==> Weekday(day + n) == w
  {
    (w - Weekday(day)) % 7
  }

  function NextOf(s: Schedule, after: int): int {
    NextMinute(s, after / MINUTE_NS) * MINUTE_NS
  }

  lemma DayAndTime(day: int, tod: int)
    requires 0 <= tod < DAY_MINUTES
    ensures (day * DAY_MINUTES + tod) / DAY_MINUTES == day && (day * DAY_MINUTES + tod) % DAY_MINUTES == tod
  {
  }

  lemma FirstDayFacts(s: Schedule, m: int)
    requires Valid(s) && !s.Hourly?
    ensures var c := FirstDay(s, m); m < c <= m + DAY_MINUTES && c % DAY_MINUTES == TimeOfDay(s)
  {
    var day := (m + 1) / DAY_MINUTES;
    DayAndTime(day, TimeOfDay(s));
    DayAndTime(day + 1, TimeOfDay(s));
    assert FirstDay(s, m) == day * DAY_MINUTES + TimeOfDay(s)
           || FirstDay(s, m) == (day + 1) * DAY_MINUTES + TimeOfDay(s);
  }

  lemma WeeklyFacts(s: Schedule, m: int, d: int)
    requires Valid(s) && s.Weekly?
    ensures m < NextMinute(s, m) && MatchesMinute(s, NextMinute(s, m))
    ensures MatchesMinute(s, d) && m < d ==> NextMinute(s, m) <= d
  {
    FirstDayFacts(s, m);
    var c, tod := FirstDay(s, m), TimeOfDay(s);
    var day := c / DAY_MINUTES;
    var n := DaysUntil(day, s.weekday);
    assert NextMinute(s, m) == (day + n) * DAY_MINUTES + tod;
    DayAndTime(day + n, tod);
    if MatchesMinute(s, d) && m < d {
      assert c <= d && d == d / DAY_MINUTES * DAY_MINUTES + tod;
      WeekdayShift(day, d / DAY_MINUTES - day, s.weekday);
    }
  }

  /** A monthly schedule names one minute of each month. */
  lemma MonthlyMatch(s: Schedule, k: int)
    requires Valid(s) && s.Monthly?
    ensures MatchesMinute(s, Date(k, s.monthDay) * DAY_MINUTES + TimeOfDay(s))
  {
    DateStaysInMonth(k, s.monthDay);
    DayAndTime(Date(k, s.monthDay), TimeOfDay(s));
  }

  lemma MonthlyMatches(s: Schedule, m: int)
    requires Valid(s) && s.Monthly?
    ensures m < NextMinute(s, m) && MatchesMinute(s, NextMinute(s, m))
  {
    var k := MonthOf((m + 1) / DAY_MINUTES);
    MonthlyMatch(s, k);
    MonthlyMatch(s, k + 1);
    assert Date(k + 1, s.monthDay) > (m + 1) / DAY_MINUTES;
  }

  lemma MonthlyLeast(s: Schedule, m: int, d: int)
    requires Valid(s) && s.Monthly? && MatchesMinute(s, d) && m < d
    ensures NextMinute(s, m) <= d
  {
    var k, k' := MonthOf((m + 1) / DAY_MINUTES), MonthOf(d / DAY_MINUTES);
    assert d == Date(k', s.monthDay) * DAY_MINUTES + TimeOfDay(s);
    MonthOfMonotone((m + 1) / DAY_MINUTES, d / DAY_MINUTES);
    if k < k' {
      MonthsIncrease(k + 1, k');
      assert Date(k + 1, s.monthDay) <= Date(k', s.monthDay);
      MonthLength(k);
      assert Date(k, s.monthDay) <= Date(k + 1, s.monthDay);
    }
  }

  lemma NextMinuteMatches(s: Schedule, m: int)
    requires Valid(s)
    ensures m < NextMinute(s, m) && MatchesMinute(s, NextMinute(s, m))
  {
    match s
    case Hourly(_) =>
    case Daily(_, _) => FirstDayFacts(s, m);
    case Weekly(_, _, _) => WeeklyFacts(s, m, m);
    case Monthly(_, _, _) => MonthlyMatches(s, m);
  }

  lemma NextMinuteLeast(s: Schedule, m: int, d: int)
    requires Valid(s) && MatchesMinute(s, d) && m < d
    ensures NextMinute(s, m) <= d
  {
    match s
    case Hourly(_) =>
    case Daily(_, _) =>
    case Weekly(_, _, _) => WeeklyFacts(s, m, d);
    case Monthly(_, _, _) => MonthlyLeast(s, m, d);
  }

  /** From a day, the next weekday `w` is never further than any later day that is a `w`. */
  lemma WeekdayShift(day: int, e: int, w: int)
    requires e >= 0 && Weekday(day + e) == w
    ensures DaysUntil(day, w) <= e
  {
  }

  /** `Next` is the least matching instant strictly after `after`. */
  lemma NextOfIsNext(s: Schedule, after: int)
    requires Valid(s)
    ensures IsNext(s, after, NextOf(s, after))
  {
    var m := after / MINUTE_NS;
    NextMinuteMatches(s, m);
    forall d | Matches(s, d) && after < d ensures NextOf(s, after) <= d {
      NextMinuteLeast(s, m, d / MINUTE_NS);
    }
  }

  lemma MinuteReached(c: int, after: int)
    ensures c * MINUTE_NS <= after <==> c <= after / MINUTE_NS
  {
  }

  /** The goal lies at most seven days past the time of day on `day`, the first day tried. */
  lemma WeeklyGoal(s: Schedule, m: int, day: int) returns (n: nat)
    requires Valid(s) && s.Weekly? && day == (m + 1) / DAY_MINUTES
    ensures n <= 7
    ensures NextMinute(s, m) == (day + n) * DAY_MINUTES + TimeOfDay(s)
  {
    var tod := TimeOfDay(s);
    var start := if day * DAY_MINUTES + tod <= m then day + 1 else day;
    DayAndTime(start, tod);
    assert FirstDay(s, m) == start * DAY_MINUTES + tod;
    n := start - day + DaysUntil(start, s.weekday);
  }

  /** The weekly loop: a day at a time until the candidate is late enough and on the right weekday.
      It turns at most seven times. */
  method NextWeekly(s: Schedule, after: int) returns (c: int, ghost turns: nat)
    requires Valid(s) && s.Weekly?
    ensures c == NextMinute(s, after / MINUTE_NS)
    ensures turns <= 7
  {
    turns := 0;
    ghost var m := after / MINUTE_NS;
    ghost var day := (m + 1) / DAY_MINUTES;
    c := (after / MINUTE_NS + 1) / DAY_MINUTES * DAY_MINUTES + TimeOfDay(s);
    ghost var n := WeeklyGoal(s, m, day);
    ghost var goal := NextMinute(s, m);
    WeeklyStop(s, m, goal);
    while c * MINUTE_NS <= after || Weekday(c / DAY_MINUTES) != s.weekday
      invariant c == (day + turns) * DAY_MINUTES + TimeOfDay(s) && turns <= n
      decreases n - turns
    {
      MinuteReached(c, after);
      assert c != goal;
      c := c + DAY_MINUTES;
      turns := turns + 1;
    }
    MinuteReached(c, after);
    DayAndTime(day + turns, TimeOfDay(s));
    WeeklyStop(s, m, c);
  }

  /** Where the loop may stop: past `m`, at the time of day, on the weekday; the goal is the first such minute. */
  lemma WeeklyStop(s: Schedule, m: int, c: int)
    requires Valid(s) && s.Weekly?
    ensures m < NextMinute(s, m) && Weekday(NextMinute(s, m) / DAY_MINUTES) == s.weekday
    ensures m < c && c % DAY_MINUTES == TimeOfDay(s) && Weekday(c / DAY_MINUTES) == s.weekday ==> NextMinute(s, m) <= c
  {
    NextMinuteMatches(s, m);
    if MatchesMinute(s, c) && m < c { NextMinuteLeast(s, m, c); }
  }

  /** Steps the candidate as the source does, for every kind of schedule. */
  method Next(s: Schedule, after: int) returns (next: int)
    requires Valid(s)
    ensures next == NextOf(s, after) && IsNext(s, after, next)
  {
    var t := after / MINUTE_NS + 1;
    var c: int;
    match s {
      case Hourly(minute) =>
        c := t / 60 * 60 + minute;
        MinuteReached(c, after);
        if c * MINUTE_NS <= after { c := c + 60; }
      case Daily(_, _) =>
        c := t / DAY_MINUTES * DAY_MINUTES + TimeOfDay(s);
        MinuteReached(c, after);
        if c * MINUTE_NS <= after { c := c + DAY_MINUTES; }
      case Weekly(_, _, _) =>
        ghost var turns;
        c, turns := NextWeekly(s, after);
      case Monthly(monthDay, _, _) =>
        var k := MonthOf(t / DAY_MINUTES);
        c := Date(k, monthDay) * DAY_MINUTES + TimeOfDay(s);
        MinuteReached(c, after);
        if c * MINUTE_NS <= after { c := Date(k + 1, monthDay) * DAY_MINUTES + TimeOfDay(s); }
    }
    assert c == NextMinute(s, after / MINUTE_NS);
    next := c * MINUTE_NS;
    NextOfIsNext(s, after);
  }
}
