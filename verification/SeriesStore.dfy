/** What a range shows of the samples that were stored: the two tables as the rollup keeps them, read by `Range`
    (internal/db/db.go, `RollupSeriesToDaily`; internal/series/series.go, `Range`). The rollup runs once a day, while
    `Range` reckons its cutoff afresh each time. */
module SeriesStore {
  import opened StoredTimes
  import opened Lttb
  import opened SeriesRange
  import R = Rollup

  function PointOf(x: R.Sample): Point { Point(x.ts, x.value) }

  /** The raw rows of one source, as `rangeTable` reads them. */
  ghost predicate RawRows(t: R.Tables, src: string, rows: seq<Point>) {
    Sorted(rows) && forall p :: p in rows <==> exists x :: x in t.series && x.source == src && p == PointOf(x)
  }

  /** The daily rows of one source, as `rangeDaily` reads them. */
  ghost predicate DailyRows(t: R.Tables, src: string, daily: seq<DayMean>) {
    DaysAscend(daily) && forall r :: r in daily <==> (src, r.day) in t.daily && r.avg == t.daily[(src, r.day)].avg
  }

  predicate Asked(day: int, from: int, to: int) { Day(from) <= day < Day(to) }

  /** A stored sample of the days asked for is shown exactly when it is not older than the cutoff's day. */
  lemma RawShownIff(t: R.Tables, src: string, rows: seq<Point>, from: int, to: int, cutoff: int, x: R.Sample)
    requires RawRows(t, src, rows) && x in t.series && x.source == src
    ensures PointOf(x) in RawPart(rows, from, to, cutoff) <==> Asked(R.DayOf(x), from, to) && Day(cutoff) <= R.DayOf(x)
  {
    var lo := if from < cutoff then cutoff else from;
    SelectRawFacts(rows, lo, to);
    assert PointOf(x) in rows;
    DayMonotone(from, cutoff);
    DayMonotone(cutoff, from);
    DayMonotone(to, cutoff);
  }

  lemma DayMonotone(a: int, b: int)
    ensures a <= b ==> Day(a) <= Day(b)
  {
  }

  /** A stored day of those asked for is shown exactly when it is older than the cutoff's. */
  lemma DayShownIff(t: R.Tables, src: string, daily: seq<DayMean>, from: int, to: int, cutoff: int, r: DayMean)
    requires DailyRows(t, src, daily) && r in daily
    ensures NoonPoint(r) in DailyPart(daily, from, to, cutoff) <==> Asked(r.day, from, to) && r.day < Day(cutoff)
  {
    var hi := if to > cutoff then cutoff else to;
    SelectDailyFacts(daily, from, hi);
    NoonInDay(r);
    DayMonotone(to, cutoff);
    DayMonotone(cutoff, to);
    DayMonotone(cutoff, from);
  }

  // ---------- a store whose samples come in time ----------

  /** The cutoff of the last rollup; `first` before there is one. */
  ghost function LastCut(acts: seq<R.Action>, first: int): int {
    if acts == [] then first
    else
      var before := acts[..|acts| - 1];
      match acts[|acts| - 1]
      case Insert(_) => LastCut(before, first)
      case Roll(c) => c
  }

  /** Cutoffs do not go back, and no sample is older than the last rollup's when it comes. */
  ghost predicate InTime(acts: seq<R.Action>, first: int) {
    acts != [] ==>
      var before := acts[..|acts| - 1];
      && InTime(before, first)
      && match acts[|acts| - 1]
         case Insert(x) => LastCut(before, first) <= R.DayOf(x)
         case Roll(c) => LastCut(before, first) <= c
  }

  /** Then the tables divide the days at the last cutoff. */
  lemma {:induction false} TablesDivide(acts: seq<R.Action>, first: int)
    requires InTime(acts, first)
    ensures forall x :: x in R.Replay(acts).series ==> LastCut(acts, first) <= R.DayOf(x)
    ensures forall k :: k in R.Replay(acts).daily ==> k.1 < LastCut(acts, first)
  {
    if acts != [] {
      var before, last := acts[..|acts| - 1], acts[|acts| - 1];
      TablesDivide(before, first);
      if last.Roll? { RollDivides(R.Replay(before), last.cutoff); }
    }
  }

  lemma RollDivides(t: R.Tables, c: int)
    requires forall k :: k in t.daily ==> k.1 < c
    ensures forall x :: x in R.Rolled(t, c).series ==> c <= R.DayOf(x)
    ensures forall k :: k in R.Rolled(t, c).daily ==> k.1 < c
  {
    forall x | x in R.Rolled(t, c).series ensures c <= R.DayOf(x) { R.NotOlderMembers(t.series, c, x); }
    forall x | x in R.Older(t.series, c) ensures R.DayOf(x) < c { R.OlderMembers(t.series, c, x); }
  }

  /** All that is stored of the days asked for is shown. */
  ghost predicate MissesNothing(t: R.Tables, src: string, rows: seq<Point>, daily: seq<DayMean>, from: int, to: int,
                                cutoff: int)
  {
    && (forall x :: x in t.series && x.source == src && Asked(R.DayOf(x), from, to) ==>
          PointOf(x) in RawPart(rows, from, to, cutoff))
    && (forall r :: r in daily && Asked(r.day, from, to) ==> NoonPoint(r) in DailyPart(daily, from, to, cutoff))
  }

  /** A sample between the cutoffs: of a day before the one `Range` cuts at, but not before the one that the last rollup
      cut at. */
  ghost predicate InGap(x: R.Sample, src: string, from: int, to: int, cut: int, cutoff: int) {
    x.source == src && Asked(R.DayOf(x), from, to) && cut <= R.DayOf(x) < Day(cutoff)
  }

  /** Exactly what a range misses: nothing of the daily rows, and of the samples those of days that have passed the
      cutoff since the last rollup. They are in neither part until the next one. */
  lemma RangeMissesIff(acts: seq<R.Action>, first: int, src: string, rows: seq<Point>, daily: seq<DayMean>, from: int,
                       to: int, cutoff: int)
    requires InTime(acts, first) && LastCut(acts, first) <= Day(cutoff)
    requires RawRows(R.Replay(acts), src, rows) && DailyRows(R.Replay(acts), src, daily)
    ensures MissesNothing(R.Replay(acts), src, rows, daily, from, to, cutoff)
            <==> forall x :: x in R.Replay(acts).series ==> !InGap(x, src, from, to, LastCut(acts, first), cutoff)
  {
    var t := R.Replay(acts);
    TablesDivide(acts, first);
    forall x | x in t.series && x.source == src
      ensures PointOf(x) in RawPart(rows, from, to, cutoff)
              <==> Asked(R.DayOf(x), from, to) && Day(cutoff) <= R.DayOf(x)
    {
      RawShownIff(t, src, rows, from, to, cutoff, x);
    }
    forall r | r in daily && Asked(r.day, from, to) ensures NoonPoint(r) in DailyPart(daily, from, to, cutoff) {
      DayShownIff(t, src, daily, from, to, cutoff, r);
    }
  }

  /** So right after a rollup with the same cutoff nothing is missed. */
  lemma NothingMissedAfterRollup(acts: seq<R.Action>, first: int, src: string, rows: seq<Point>, daily: seq<DayMean>,
                                 from: int, to: int, cutoff: int)
    requires InTime(acts, first) && LastCut(acts, first) == Day(cutoff)
    requires RawRows(R.Replay(acts), src, rows) && DailyRows(R.Replay(acts), src, daily)
    ensures MissesNothing(R.Replay(acts), src, rows, daily, from, to, cutoff)
  {
    RangeMissesIff(acts, first, src, rows, daily, from, to, cutoff);
  }

  const SAMPLE := R.Sample("s", 10 * 86_400, 1.0)

  const GAP_RUN := [R.Insert(SAMPLE), R.Roll(10)]

  lemma GapTables()
    ensures R.Replay(GAP_RUN) == R.Tables([SAMPLE], map[]) && InTime(GAP_RUN, 0)
  {
    assert GAP_RUN[..1] == [R.Insert(SAMPLE)] && [R.Insert(SAMPLE)][..0] == [];
    assert R.Replay([R.Insert(SAMPLE)]) == R.Tables([] + [SAMPLE], map[]);
    assert InTime([R.Insert(SAMPLE)], 0);
    GapRoll();
  }

  lemma GapRoll()
    ensures R.Rolled(R.Tables([SAMPLE], map[]), 10) == R.Tables([SAMPLE], map[])
  {
    R.NothingOlder([SAMPLE], 10);
    assert R.DayOf(SAMPLE) == 10;
    assert R.Keys([]) == {};
  }

  /** After midnight, before the day's rollup: a sample of the day the cutoff has just left is stored and not shown. */
  lemma MidnightGap()
    ensures var rows := [PointOf(SAMPLE)];
            var from, to, cutoff := 0, 20 * 86_400, 11 * 86_400;
            && InTime(GAP_RUN, 0) && RawRows(R.Replay(GAP_RUN), "s", rows) && DailyRows(R.Replay(GAP_RUN), "s", [])
            && SAMPLE in R.Replay(GAP_RUN).series && Asked(R.DayOf(SAMPLE), from, to)
            && DailyPart([], from, to, cutoff) + RawPart(rows, from, to, cutoff) == []
  {
    GapTables();
    GapReads();
    GapHides();
  }

  lemma GapReads()
    ensures RawRows(R.Tables([SAMPLE], map[]), "s", [PointOf(SAMPLE)]) && DailyRows(R.Tables([SAMPLE], map[]), "s", [])
  {
    var t := R.Tables([SAMPLE], map[]);
    forall p ensures p in [PointOf(SAMPLE)] <==> exists x :: x in t.series && x.source == "s" && p == PointOf(x) {
      if p == PointOf(SAMPLE) { assert SAMPLE in t.series; }
    }
  }

  lemma GapHides()
    ensures DailyPart([], 0, 20 * 86_400, 11 * 86_400) + RawPart([PointOf(SAMPLE)], 0, 20 * 86_400, 11 * 86_400) == []
  {
    var rows := [PointOf(SAMPLE)];
    assert rows[..0] == [] && Day(PointOf(SAMPLE).ts) == 10 && Day(11 * 86_400) == 11;
    assert SelectRaw(rows, 11 * 86_400, 20 * 86_400) == SelectRaw([], 11 * 86_400, 20 * 86_400) + [];
    assert SelectDaily([], 0, 11 * 86_400) == [];
  }
}
