/** The text form of schedules (internal/scheduler/schedule.go, `ParseSchedule`, `parseHM`). */
module ScheduleText {
  import opened Options
  import opened Schedules

  /** `strings.Cut`: the text around the first `c`, or all of it and nothing. */
  function Cut(s: string, c: char): (r: (string, string, bool))
    ensures r.2 <==> c in s
    ensures r.2 ==> s == r.0 + [c] + r.1 && c !in r.0
    ensures !r.2 ==> r.0 == s && r.1 == ""
  {
    if s == "" then ("", "", false)
    else if s[0] == c then ("", s[1..], true)
    else
      var (a, b, found) := Cut(s[1..], c);
      ([s[0]] + a, b, found)
  }

  predicate IsDigit(c: char) { '0' <= c <= '9' }

  function Number(s: string): nat
    requires forall c :: c in s ==> IsDigit(c)
  {
    if s == "" then 0 else
      assert IsDigit(s[|s| - 1]);
      10 * Number(s[..|s| - 1]) + (s[|s| - 1] as int - '0' as int)
  }

  /** `strconv.Atoi`: an optional sign and at least one digit. */
  function Atoi(s: string): Option<int> {
    var body := if s != "" && (s[0] == '+' || s[0] == '-') then s[1..] else s;
    if body == "" || exists c :: c in body && !IsDigit(c) then None
    else
      var n: int := Number(body);
      Some(if s[0] == '-' then -n else n)
  }

  function ParseHM(s: string): (r: Option<(int, int)>)
    ensures r.Some? ==> 0 <= r.value.0 <= 23 && 0 <= r.value.1 <= 59
  {
    var (hs, ms, found) := Cut(s, ':');
    var h, m := Atoi(hs), Atoi(ms);
    if !found || h.None? || m.None? || h.value < 0 || h.value > 23 || m.value < 0 || m.value > 59 then None
    else Some((h.value, m.value))
  }

  const WEEKDAYS: seq<string> := ["sun", "mon", "tue", "wed", "thu", "fri", "sat"]

  function WeekdayOf(s: string): Option<int> {
    if s == "sun" then Some(0) else if s == "mon" then Some(1) else if s == "tue" then Some(2)
    else if s == "wed" then Some(3) else if s == "thu" then Some(4) else if s == "fri" then Some(5)
    else if s == "sat" then Some(6) else None
  }

  /** The parts of a schedule's text: its kind, its modifier and its time. */
  function ParseParts(kind: string, mod: string, hm: string): (r: Option<Schedule>)
    ensures r.Some? ==> Valid(r.value)
  {
    if kind == "hourly" then
      var m := Atoi(if hm != "" && hm[0] == ':' then hm[1..] else hm);
      if m.None? || m.value < 0 || m.value > 59 then None else Some(Hourly(m.value))
    else if kind == "daily" then
      var t := ParseHM(hm);
      if t.None? then None else Some(Daily(t.value.0, t.value.1))
    else if kind == "weekly" then
      var w, t := WeekdayOf(mod), ParseHM(hm);
      if w.None? || t.None? then None else Some(Weekly(w.value, t.value.0, t.value.1))
    else if kind == "monthly" then
      var d, t := Atoi(mod), ParseHM(hm);
      if d.None? || d.value < 1 || d.value > 28 || t.None? then None else Some(Monthly(d.value, t.value.0, t.value.1))
    else None
  }

  /** Whatever is accepted is a schedule `Next` can handle; in particular no month is ever too short. */
  function Parse(raw: string): (r: Option<Schedule>)
    ensures r.Some? ==> Valid(r.value)
  {
    var (body, hm, found) := Cut(raw, '@');
    var (kind, mod, _) := Cut(body, ':');
    if found then ParseParts(kind, mod, hm) else None
  }

  // ---------- round trip ----------

  function Two(n: int): string
    requires 0 <= n <= 99
  {
    [('0' as int + n / 10) as char, ('0' as int + n % 10) as char]
  }

  function Format(s: Schedule): string
    requires Valid(s)
  {
    match s
    case Hourly(m) => "hourly" + "@" + (":" + Two(m))
    case Daily(h, m) => "daily" + "@" + (Two(h) + ":" + Two(m))
    case Weekly(w, h, m) => ("weekly" + ":" + WEEKDAYS[w]) + "@" + (Two(h) + ":" + Two(m))
    case Monthly(d, h, m) => ("monthly" + ":" + Two(d)) + "@" + (Two(h) + ":" + Two(m))
  }

  lemma {:induction false} CutAt(a: string, c: char, b: string)
    requires c !in a
    ensures Cut(a + [c] + b, c) == (a, b, true)
    decreases |a|
  {
    if a == "" {
      assert a + [c] + b == [c] + b;
    } else {
      assert (a + [c] + b)[1..] == a[1..] + [c] + b;
      CutAt(a[1..], c, b);
      assert [a[0]] + a[1..] == a;
    }
  }

  lemma TwoIsNumber(n: int)
    requires 0 <= n <= 99
    ensures Atoi(Two(n)) == Some(n) && ':' !in Two(n) && '@' !in Two(n)
  {
    var s := Two(n);
    assert s[..1] == [s[0]] && s[..1][..0] == "";
    assert Number(s[..1][..0]) == 0;
    assert Number(s[..1]) == n / 10;
    assert forall c :: c in s ==> IsDigit(c);
    assert Number(s) == n;
  }

  lemma ParseHMOfTwo(h: int, m: int)
    requires 0 <= h <= 23 && 0 <= m <= 59
    ensures ParseHM(Two(h) + ":" + Two(m)) == Some((h, m))
  {
    TwoIsNumber(h);
    TwoIsNumber(m);
    CutAt(Two(h), ':', Two(m));
  }

  lemma WeekdayNames(w: int)
    requires 0 <= w <= 6
    ensures WeekdayOf(WEEKDAYS[w]) == Some(w) && '@' !in WEEKDAYS[w]
  {
    assert w == 0 || w == 1 || w == 2 || w == 3 || w == 4 || w == 5 || w == 6;
  }

  lemma CutBoth(kind: string, mod: string, hm: string)
    requires ':' !in kind && '@' !in kind && '@' !in mod
    ensures Parse((kind + ":" + mod) + "@" + hm) == ParseParts(kind, mod, hm)
  {
    CutAt(kind, ':', mod);
    CutAt(kind + ":" + mod, '@', hm);
  }

  lemma CutKind(kind: string, hm: string)
    requires ':' !in kind && '@' !in kind
    ensures Parse(kind + "@" + hm) == ParseParts(kind, "", hm)
  {
    CutAt(kind, '@', hm);
  }

  // ---------- exactly what is accepted ----------

  /** A number in its shortest form. */
  function Decimal(n: nat): string {
    var last := [('0' as int + n % 10) as char];
    if n < 10 then last else Decimal(n / 10) + last
  }

  lemma {:induction false} DecimalIsNumber(n: nat)
    ensures Decimal(n) != "" && (forall c :: c in Decimal(n) ==> IsDigit(c)) && Number(Decimal(n)) == n
  {
    var s, last := Decimal(n), ('0' as int + n % 10) as char;
    if n < 10 {
      assert s == [last] && s[..0] == "" && Number("") == 0;
    } else {
      DecimalIsNumber(n / 10);
      assert s == Decimal(n / 10) + [last] && s[..|s| - 1] == Decimal(n / 10);
    }
  }

  /** Every number can be written out, with or without a sign or zeros in front; nothing but digits after a sign is a
      number. */
  lemma AtoiOfDecimal(n: nat)
    ensures Atoi(Decimal(n)) == Some(n) && Atoi("0" + Decimal(n)) == Some(n)
    ensures Atoi("+" + Decimal(n)) == Some(n) && Atoi("-" + Decimal(n)) == Some(0 - n)
  {
    DecimalIsNumber(n);
    ZeroInFront(Decimal(n));
    SignInFront(Decimal(n));
    assert IsDigit(Decimal(n)[0]);
    assert ("0" + Decimal(n))[0] == '0';
  }

  lemma SignInFront(s: string)
    requires s != "" && forall c :: c in s ==> IsDigit(c)
    ensures Atoi("+" + s) == Some(Number(s)) && Atoi("-" + s) == Some(0 - Number(s))
  {
    assert ("+" + s)[1..] == s && ("-" + s)[1..] == s;
  }

  lemma {:induction false} ZeroInFront(s: string)
    requires forall c :: c in s ==> IsDigit(c)
    ensures (forall c :: c in "0" + s ==> IsDigit(c)) && Number("0" + s) == Number(s)
  {
    if s == "" {
      assert "0" + s == "0" && "0"[..0] == "" && Number("") == 0;
    } else {
      var k := |s| - 1;
      ZeroInFront(s[..k]);
      assert ("0" + s)[..|s|] == "0" + s[..k];
    }
  }

  lemma AtoiNeedsDigits(s: string)
    requires s == "" || s == "+" || s == "-" || exists i :: 0 < i < |s| && !IsDigit(s[i])
    ensures Atoi(s).None?
  {
    if i :| 0 < i < |s| && !IsDigit(s[i]) {
      assert s[i] in s && s[i] == s[1..][i - 1] && s[i] in s[1..];
    }
  }

  lemma ParseHMIff(hs: string, ms: string, h: int, m: int)
    requires ':' !in hs
    ensures ParseHM(hs + ":" + ms) == Some((h, m)) <==>
              Atoi(hs) == Some(h) && Atoi(ms) == Some(m) && 0 <= h < 24 && 0 <= m < 60
  {
    CutAt(hs, ':', ms);
  }

  lemma ParseHMNeedsColon(s: string)
    requires ':' !in s
    ensures ParseHM(s).None?
  {
  }

  lemma HourlyIff(hm: string, s: Schedule)
    ensures Parse("hourly" + "@" + hm) == Some(s) <==>
              && s.Hourly? && 0 <= s.minute < 60
              && Atoi(if hm != "" && hm[0] == ':' then hm[1..] else hm) == Some(s.minute)
  {
    CutKind("hourly", hm);
  }

  lemma DailyIff(hm: string, s: Schedule)
    ensures Parse("daily" + "@" + hm) == Some(s) <==> s.Daily? && ParseHM(hm) == Some((s.hour, s.minute))
  {
    CutKind("daily", hm);
  }

  lemma WeeklyIff(mod: string, hm: string, s: Schedule)
    requires '@' !in mod
    ensures Parse(("weekly" + ":" + mod) + "@" + hm) == Some(s) <==>
              && s.Weekly? && ParseHM(hm) == Some((s.hour, s.minute))
              && ((mod == "sun" && s.weekday == 0) || (mod == "mon" && s.weekday == 1)
                  || (mod == "tue" && s.weekday == 2) || (mod == "wed" && s.weekday == 3)
                  || (mod == "thu" && s.weekday == 4)
                  || (mod == "fri" && s.weekday == 5) || (mod == "sat" && s.weekday == 6))
  {
    CutBoth("weekly", mod, hm);
  }

  lemma MonthlyIff(mod: string, hm: string, s: Schedule)
    requires '@' !in mod
    ensures Parse(("monthly" + ":" + mod) + "@" + hm) == Some(s) <==>
              && s.Monthly? && ParseHM(hm) == Some((s.hour, s.minute))
              && Atoi(mod) == Some(s.monthDay) && 1 <= s.monthDay <= 28
  {
    CutBoth("monthly", mod, hm);
  }

  /** Hourly and daily schedules may carry a modifier, which says nothing. */
  lemma ModifierIgnored(mod: string, hm: string)
    requires '@' !in mod
    ensures Parse(("hourly" + ":" + mod) + "@" + hm) == Parse("hourly" + "@" + hm)
    ensures Parse(("daily" + ":" + mod) + "@" + hm) == Parse("daily" + "@" + hm)
  {
    CutBoth("hourly", mod, hm);
    CutKind("hourly", hm);
    CutBoth("daily", mod, hm);
    CutKind("daily", hm);
  }

  /** Nothing else is a schedule: a text needs an '@', and before it, up to a ':', one of the four kinds. */
  lemma OtherTextsAreRefused(raw: string)
    ensures '@' !in raw ==> Parse(raw).None?
    ensures var kind := Cut(Cut(raw, '@').0, ':').0;
            kind != "hourly" && kind != "daily" && kind != "weekly" && kind != "monthly" ==> Parse(raw).None?
  {
  }

  lemma HourlyParses(m: int)
    requires 0 <= m <= 59
    ensures Parse(Format(Hourly(m))) == Some(Hourly(m))
  {
    CutKind("hourly", ":" + Two(m));
    TwoIsNumber(m);
    assert (":" + Two(m))[1..] == Two(m);
  }

  lemma DailyParses(h: int, m: int)
    requires 0 <= h <= 23 && 0 <= m <= 59
    ensures Parse(Format(Daily(h, m))) == Some(Daily(h, m))
  {
    CutKind("daily", Two(h) + ":" + Two(m));
    ParseHMOfTwo(h, m);
  }

  lemma WeeklyParses(w: int, h: int, m: int)
    requires 0 <= w <= 6 && 0 <= h <= 23 && 0 <= m <= 59
    ensures Parse(Format(Weekly(w, h, m))) == Some(Weekly(w, h, m))
  {
    WeekdayNames(w);
    WeeklyModParses(WEEKDAYS[w], w, h, m);
  }

  lemma WeeklyModParses(mod: string, w: int, h: int, m: int)
    requires WeekdayOf(mod) == Some(w) && '@' !in mod && 0 <= w <= 6 && 0 <= h <= 23 && 0 <= m <= 59
    ensures Parse(("weekly" + ":" + mod) + "@" + (Two(h) + ":" + Two(m))) == Some(Weekly(w, h, m))
  {
    ParseHMOfTwo(h, m);
    CutBoth("weekly", mod, Two(h) + ":" + Two(m));
  }

  lemma MonthlyParses(d: int, h: int, m: int)
    requires 1 <= d <= 28 && 0 <= h <= 23 && 0 <= m <= 59
    ensures Parse(Format(Monthly(d, h, m))) == Some(Monthly(d, h, m))
  {
    var day, hm := Two(d), Two(h) + ":" + Two(m);
    TwoIsNumber(d);
    ParseHMOfTwo(h, m);
    assert ParseParts("monthly", day, hm) == Some(Monthly(d, h, m));
    CutBoth("monthly", day, hm);
  }

  /** Every valid schedule has a text that parses back to it. */
  lemma FormatParses(s: Schedule)
    requires Valid(s)
    ensures Parse(Format(s)) == Some(s)
  {
    match s
    case Hourly(m) => HourlyParses(m);
    case Daily(h, m) => DailyParses(h, m);
    case Weekly(w, h, m) => WeeklyParses(w, h, m);
    case Monthly(d, h, m) => MonthlyParses(d, h, m);
  }
}
