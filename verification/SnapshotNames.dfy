/** Snapshot names `ezrepl-YYYYMMDD-HHMMSS` (internal/replication/runner.go, `run` and `prune`): `prune` sorts
    them as strings, which is right because string order is time order. Stamps are seconds since day 0. */
module SnapshotNames {
  import opened Calendar

  const DAY_SECONDS := 86_400

  function Pow10(w: nat): nat {
    if w == 0 then 1 else 10 * Pow10(w - 1)
  }

  /** `n` in exactly `w` decimal digits. */
  function Digits(n: nat, w: nat): (s: string)
    ensures |s| == w
  {
    if w == 0 then "" else Digits(n / 10, w - 1) + ['0' + (n % 10) as char]
  }

  /** Byte order of strings of one length. */
  predicate Less(a: string, b: string)
    requires |a| == |b|
  {
    a != "" && (a[0] < b[0] || (a[0] == b[0] && Less(a[1..], b[1..])))
  }

  lemma {:induction false} LessAppend(a: string, b: string, x: string, y: string)
    requires |a| == |b| && |x| == |y|
    ensures Less(a, b) ==> Less(a + x, b + y)
    ensures a == b && Less(x, y) ==> Less(a + x, b + y)
    decreases |a|
  {
    if a == "" {
      assert a + x == x && b + y == y;
    } else {
      LessAppend(a[1..], b[1..], x, y);
      assert (a + x)[1..] == a[1..] + x && (b + y)[1..] == b[1..] + y;
    }
  }

  lemma {:induction false} DigitsOrder(n: nat, m: nat, w: nat)
    requires n < m < Pow10(w)
    ensures Less(Digits(n, w), Digits(m, w))
    decreases w
  {
    if n / 10 < m / 10 {
      DigitsOrder(n / 10, m / 10, w - 1);
    }
    LessAppend(Digits(n / 10, w - 1), Digits(m / 10, w - 1), ['0' + (n % 10) as char], ['0' + (m % 10) as char]);
  }

  function Year(day: int): int { MonthOf(day) / 12 }

  /** YYYYMM as a number. */
  function MonthNumber(k: int): int { k / 12 * 100 + k % 12 + 1 }

  /** YYYYMMDD as a number. */
  function DateNumber(day: int): int {
    MonthNumber(MonthOf(day)) * 100 + DayOfMonth(day)
  }

  /** HHMMSS as a number, from the second of the day. */
  function ClockNumber(second: int): int {
    (second / 3600 * 100 + second / 60 % 60) * 100 + second % 60
  }

  predicate FourDigitYear(stamp: nat) {
    Year(stamp / DAY_SECONDS) <= 9999
  }

  lemma DateNumberFits(day: int)
    requires 0 <= day && Year(day) <= 9999
    ensures 0 <= DateNumber(day) < 1_0000_00_00
  {
    FirstYear(day);
  }

  lemma FirstYear(day: int)
    requires 0 <= day
    ensures MonthOf(day) >= 12
  {
    if MonthOf(day) < 12 {
      MonthsIncrease(MonthOf(day) + 1, 12);
      YearStartClosed(1);
    }
  }

  lemma DateNumberOrder(a: int, b: int)
    requires a < b
    ensures DateNumber(a) < DateNumber(b)
  {
    var j, k := MonthOf(a), MonthOf(b);
    MonthOfMonotone(a, b);
    if j < k {
      MonthNumberOrder(j, k);
    }
  }

  lemma MonthNumberOrder(j: int, k: int)
    requires j < k
    ensures MonthNumber(j) + 1 <= MonthNumber(k)
  {
  }

  lemma ClockNumberOrder(a: int, b: int)
    requires 0 <= a < b < DAY_SECONDS
    ensures 0 <= ClockNumber(a) < ClockNumber(b) < 1_000_000
  {
    var p, q := a / 60, b / 60;
    assert a / 3600 == p / 60 && b / 3600 == q / 60;
    assert p / 60 * 100 + p % 60 <= q / 60 * 100 + q % 60;
  }

  lemma ClockNumberFits(s: int)
    requires 0 <= s < DAY_SECONDS
    ensures 0 <= ClockNumber(s) < 1_000_000
  {
    if s > 0 { ClockNumberOrder(0, s); } else { ClockNumberOrder(s, 1); }
  }

  function Name(stamp: nat): string
    requires FourDigitYear(stamp)
  {
    DateNumberFits(stamp / DAY_SECONDS);
    ClockNumberFits(stamp % DAY_SECONDS);
    Digits(DateNumber(stamp / DAY_SECONDS), 8) + "-" + Digits(ClockNumber(stamp % DAY_SECONDS), 6)
  }

  // ---------- what a name says ----------

  /** Two more digits. */
  lemma DigitsSplit(a: nat, b: nat, w: nat)
    requires b < 100
    ensures Digits(a * 100 + b, w + 2) == Digits(a, w) + Digits(b, 2)
  {
    var n := a * 100 + b;
    assert n / 10 == a * 10 + b / 10 && n / 10 / 10 == a && n / 10 % 10 == b / 10 && n % 10 == b % 10;
    assert Digits(b, 2) == Digits(b / 10, 1) + ['0' + (b % 10) as char];
    assert Digits(b / 10, 1) == Digits(b / 10 / 10, 0) + ['0' + (b / 10 % 10) as char];
    assert Digits(n, w + 2) == (Digits(a, w) + ['0' + (b / 10) as char]) + ['0' + (b % 10) as char];
  }

  /** A name is the year in four digits, month, day, a dash, hour, minute and second in two each. */
  lemma NameReads(stamp: nat)
    requires FourDigitYear(stamp)
    ensures var day, second := stamp / 86_400, stamp % 86_400;
            MonthOf(day) >= 12
            && Name(stamp) == Digits(Year(day), 4) + Digits(MonthOf(day) % 12 + 1, 2) + Digits(DayOfMonth(day), 2)
                              + "-" + Digits(second / 3600, 2) + Digits(second / 60 % 60, 2) + Digits(second % 60, 2)
  {
    var day, second := stamp / DAY_SECONDS, stamp % DAY_SECONDS;
    DateReads(day);
    ClockReads(second);
    var y, m, d := Year(day), MonthOf(day) % 12 + 1, DayOfMonth(day);
    DateNumberFits(day);
    ClockNumberFits(second);
    Joined(Digits(y, 4), Digits(m, 2), Digits(d, 2), Digits(second / 3600, 2), Digits(second / 60 % 60, 2),
           Digits(second % 60, 2));
  }

  lemma DateReads(day: int)
    requires 0 <= day && Year(day) <= 9999
    ensures MonthOf(day) >= 12 && DateNumber(day) >= 0
    ensures Digits(DateNumber(day), 8)
         == (Digits(Year(day), 4) + Digits(MonthOf(day) % 12 + 1, 2)) + Digits(DayOfMonth(day), 2)
  {
    FirstYear(day);
    DateNumberFits(day);
    var y, m := Year(day), MonthOf(day) % 12 + 1;
    DigitsSplit(y * 100 + m, DayOfMonth(day), 6);
    DigitsSplit(y, m, 4);
  }

  lemma ClockReads(second: int)
    requires 0 <= second < DAY_SECONDS
    ensures ClockNumber(second) >= 0
    ensures Digits(ClockNumber(second), 6)
         == (Digits(second / 3600, 2) + Digits(second / 60 % 60, 2)) + Digits(second % 60, 2)
  {
    var h, m := second / 3600, second / 60 % 60;
    DigitsSplit(h * 100 + m, second % 60, 4);
    DigitsSplit(h, m, 2);
  }

  lemma Joined(a: string, b: string, c: string, d: string, e: string, f: string)
    ensures ((a + b) + c) + "-" + ((d + e) + f) == a + b + c + "-" + d + e + f
  {
  }

  /** The decimal value of a text. */
  function Value(s: string): int {
    if s == "" then 0 else 10 * Value(s[..|s| - 1]) + (s[|s| - 1] as int - '0' as int)
  }

  /** Digits mean the number they were made from. */
  lemma {:induction false} DigitsMean(n: nat, w: nat)
    requires n < Pow10(w)
    ensures Value(Digits(n, w)) == n
    decreases w
  {
    if w > 0 {
      DigitsMean(n / 10, w - 1);
      var front := Digits(n / 10, w - 1);
      assert Digits(n, w) == front + ['0' + (n % 10) as char];
      assert (front + ['0' + (n % 10) as char])[..w - 1] == front;
    }
  }

  /** The year of a day is the one that begins no later and the next of which begins later. */
  lemma YearHolds(day: int)
    ensures YearStart(Year(day)) <= day < YearStart(Year(day) + 1)
  {
    var k := MonthOf(day);
    var y := Year(day);
    MonthsIncrease(12 * y, k);
    MonthsIncrease(k + 1, 12 * y + 12);
    YearStartClosed(y);
    YearStartClosed(y + 1);
  }

  lemma LessAsymmetric(a: string, b: string)
    requires |a| == |b| && Less(a, b)
    ensures !Less(b, a)
    decreases |a|
  {
    if a[0] == b[0] { LessAsymmetric(a[1..], b[1..]); }
  }

  /** Sorting the names sorts the snapshots by time: both orders agree on every pair. */
  lemma NameOrder(a: nat, b: nat)
    requires FourDigitYear(a) && FourDigitYear(b)
    ensures |Name(a)| == |Name(b)| == 15 && (Less(Name(a), Name(b)) <==> a < b)
  {
    if a < b {
      LaterNameGreater(a, b);
    } else if b < a {
      LaterNameGreater(b, a);
      LessAsymmetric(Name(b), Name(a));
    } else if Less(Name(a), Name(b)) {
      LessAsymmetric(Name(a), Name(b));
    }
  }

  lemma LaterNameGreater(a: nat, b: nat)
    requires a < b && FourDigitYear(a) && FourDigitYear(b)
    ensures Less(Name(a), Name(b))
  {
    var da, db, sa, sb := a / DAY_SECONDS, b / DAY_SECONDS, a % DAY_SECONDS, b % DAY_SECONDS;
    DateNumberFits(da); DateNumberFits(db); ClockNumberFits(sa); ClockNumberFits(sb);
    var pa, pb := Digits(DateNumber(da), 8) + "-", Digits(DateNumber(db), 8) + "-";
    var xa, xb := Digits(ClockNumber(sa), 6), Digits(ClockNumber(sb), 6);
    assert Pow10(8) == 1_0000_00_00 && Pow10(6) == 1_000_000 by { Powers(); }
    if da < db {
      DateNumberOrder(da, db);
      DigitsOrder(DateNumber(da), DateNumber(db), 8);
      LessAppend(Digits(DateNumber(da), 8), Digits(DateNumber(db), 8), "-", "-");
    } else {
      ClockNumberOrder(sa, sb);
      DigitsOrder(ClockNumber(sa), ClockNumber(sb), 6);
    }
    LessAppend(pa, pb, xa, xb);
  }

  lemma Powers()
    ensures Pow10(6) == 1_000_000 && Pow10(8) == 1_0000_00_00
  {
    assert Pow10(2) == 100;
    assert Pow10(4) == 10_000;
    assert Pow10(6) == 1_000_000;
  }
}
