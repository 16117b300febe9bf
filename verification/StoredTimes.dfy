/** Times as text in the database. Samples are stored as RFC 3339 (`...T...Z`, internal/collectors/zpool.go,
    `persistSeries`), while every cutoff is what SQLite's `datetime` prints (a blank instead of the `T`). Their
    comparison as strings is a comparison of days. Times are Unix seconds, UTC. */
module StoredTimes {
  import opened Calendar
  import opened SnapshotNames

  /** Day number of 1 January 1970. */
  const EPOCH_DAY := 719_162

  function Day(t: int): int { t / DAY_SECONDS }

  /** Days are whole, and counted from the start of 1970. */
  lemma DayHolds(t: int)
    ensures 86_400 * Day(t) <= t < 86_400 * (Day(t) + 1)
    ensures EPOCH_DAY == YearStart(1970)
  {
  }

  /** Years 1970 to 9999: what a four-digit date can say of a Unix time that is not negative. */
  predicate Printable(day: int) {
    0 <= day && Year(EPOCH_DAY + day) <= 9999
  }

  lemma DateParts(day: int)
    requires Printable(day)
    ensures 1 <= Year(EPOCH_DAY + day) && 1 <= MonthOf(EPOCH_DAY + day) % 12 + 1 <= 12
  {
    FirstYear(EPOCH_DAY + day);
  }

  /** `YYYY-MM-DD`. */
  function DateText(day: int): (s: string)
    requires Printable(day)
    ensures |s| == 10
  {
    DateParts(day);
    var d := EPOCH_DAY + day;
    Triple(Year(d), MonthOf(d) % 12 + 1, DayOfMonth(d))
  }

  function Triple(y: nat, m: nat, d: nat): string {
    Digits(y, 4) + "-" + (Digits(m, 2) + "-" + Digits(d, 2))
  }

  function ClockText(second: nat): string {
    Digits(second / 3600, 2) + ":" + Digits(second / 60 % 60, 2) + ":" + Digits(second % 60, 2)
  }

  function Rfc3339(t: int): string
    requires Printable(Day(t))
  {
    DateText(Day(t)) + "T" + ClockText(t % DAY_SECONDS) + "Z"
  }

  function Sqlite(t: int): string
    requires Printable(Day(t))
  {
    DateText(Day(t)) + " " + ClockText(t % DAY_SECONDS)
  }

  /** SQLite's order of text: byte by byte, a prefix first. */
  predicate Before(a: string, b: string) {
    b != "" && (a == "" || a[0] < b[0] || (a[0] == b[0] && Before(a[1..], b[1..])))
  }

  lemma {:induction false} BeforeSplit(a: string, b: string, x: string, y: string)
    requires |a| == |b|
    ensures Before(a + x, b + y) <==> Less(a, b) || (a == b && Before(x, y))
    decreases |a|
  {
    if a == "" {
      assert a + x == x && b + y == y;
    } else {
      BeforeSplit(a[1..], b[1..], x, y);
      assert (a + x)[1..] == a[1..] + x && (b + y)[1..] == b[1..] + y;
    }
  }

  lemma PartsIncrease(d: int, e: int)
    requires d < e
    ensures var j, k := MonthOf(d), MonthOf(e);
            || j / 12 < k / 12
            || (j / 12 == k / 12 && j % 12 < k % 12)
            || (j / 12 == k / 12 && j % 12 == k % 12 && DayOfMonth(d) < DayOfMonth(e))
  {
    MonthOfMonotone(d, e);
  }

  lemma TripleOrder(y: nat, m: nat, d: nat, y': nat, m': nat, d': nat)
    requires y' < 10_000 && m' < 100 && d' < 100
    requires y < y' || (y == y' && (m < m' || (m == m' && d < d')))
    ensures Less(Triple(y, m, d), Triple(y', m', d'))
  {
    assert Pow10(2) == 100;
    assert Pow10(4) == 10_000;
    var a, b, c := Digits(y, 4), Digits(m, 2), Digits(d, 2);
    var a', b', c' := Digits(y', 4), Digits(m', 2), Digits(d', 2);
    if y < y' {
      DigitsOrder(y, y', 4);
      LessAppend(a, a', "-", "-");
    } else if m < m' {
      DigitsOrder(m, m', 2);
      LessAppend(b, b', "-", "-");
    } else {
      DigitsOrder(d, d', 2);
    }
    LessAppend(b + "-", b' + "-", c, c');
    LessAppend(a + "-", a' + "-", b + "-" + c, b' + "-" + c');
  }

  lemma DateTextLater(a: int, b: int)
    requires Printable(a) && Printable(b) && a < b
    ensures Less(DateText(a), DateText(b))
  {
    var d, e := EPOCH_DAY + a, EPOCH_DAY + b;
    DateParts(a);
    DateParts(b);
    PartsIncrease(d, e);
    TripleOrder(Year(d), MonthOf(d) % 12 + 1, DayOfMonth(d), Year(e), MonthOf(e) % 12 + 1, DayOfMonth(e));
  }

  lemma DateTextOrder(a: int, b: int)
    requires Printable(a) && Printable(b)
    ensures Less(DateText(a), DateText(b)) <==> a < b
  {
    if a < b {
      DateTextLater(a, b);
    } else if b < a {
      DateTextLater(b, a);
      LessAsymmetric(DateText(b), DateText(a));
    } else if Less(DateText(a), DateText(b)) {
      LessAsymmetric(DateText(a), DateText(b));
    }
  }

  lemma LetterAfterBlank(x: string, y: string)
    ensures !Before("T" + x, " " + y)
  {
    assert ("T" + x)[0] == 'T' && (" " + y)[0] == ' ';
  }

  /** A stored sample compares below a cutoff exactly when it is of an earlier day: on the cutoff's own day
      'T' is greater than ' ', whatever the hours. */
  lemma SampleBeforeCutoff(t: int, cutoff: int)
    requires Printable(Day(t)) && Printable(Day(cutoff))
    ensures Before(Rfc3339(t), Sqlite(cutoff)) <==> Day(t) < Day(cutoff)
  {
    var a, b := DateText(Day(t)), DateText(Day(cutoff));
    var x, y := ClockText(t % DAY_SECONDS) + "Z", ClockText(cutoff % DAY_SECONDS);
    DateTextOrder(Day(t), Day(cutoff));
    assert Rfc3339(t) == a + ("T" + x) && Sqlite(cutoff) == b + (" " + y);
    BeforeSplit(a, b, "T" + x, " " + y);
    LetterAfterBlank(x, y);
  }
}
