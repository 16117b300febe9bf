/** A range of a series: daily means for the old part, raw samples for the recent part, merged and thinned
    (internal/series/series.go, `Range`, `rangeTable`, `rangeDaily`, `mergePoints`). Times are Unix seconds. Both
    queries compare text, so by `StoredTimes` their bounds act as days. */
module SeriesRange {
  import opened SnapshotNames
  import opened StoredTimes
  import opened Lttb

  datatype DayMean = DayMean(day: int, avg: real)

  const NOON := 43_200

  ghost predicate Sorted(s: seq<Point>) {
    forall i, j :: 0 <= i < j < |s| ==> s[i].ts <= s[j].ts
  }

  ghost predicate DaysAscend(s: seq<DayMean>) {
    forall i, j :: 0 <= i < j < |s| ==> s[i].day < s[j].day
  }

  // ---------- the queries ----------

  /** `rangeTable` over the rows in `ORDER BY ts` order. */
  function SelectRaw(rows: seq<Point>, from: int, to: int): seq<Point> {
    if rows == [] then []
    else SelectRaw(rows[..|rows| - 1], from, to)
         + (if Day(from) <= Day(rows[|rows| - 1].ts) < Day(to) then [rows[|rows| - 1]] else [])
  }

  /** `rangeDaily`: a day's mean is placed at its noon. */
  function SelectDaily(rows: seq<DayMean>, from: int, to: int): seq<Point> {
    if rows == [] then []
    else
      var r := rows[|rows| - 1];
      SelectDaily(rows[..|rows| - 1], from, to)
      + (if Day(from) <= r.day < Day(to) then [NoonPoint(r)] else [])
  }

  lemma {:induction false} SelectRawMember(rows: seq<Point>, from: int, to: int, p: Point)
    ensures p in SelectRaw(rows, from, to) <==> p in rows && Day(from) <= Day(p.ts) < Day(to)
  {
    if rows != [] {
      var n := |rows| - 1;
      SelectRawMember(rows[..n], from, to, p);
      assert rows == rows[..n] + [rows[n]];
    }
  }

  lemma {:induction false} SelectRawSorted(rows: seq<Point>, from: int, to: int)
    requires Sorted(rows)
    ensures Sorted(SelectRaw(rows, from, to))
  {
    if rows != [] {
      var n := |rows| - 1;
      SelectRawSorted(rows[..n], from, to);
      var front := SelectRaw(rows[..n], from, to);
      forall i | 0 <= i < |front| ensures front[i].ts <= rows[n].ts {
        SelectRawMember(rows[..n], from, to, front[i]);
      }
    }
  }

  /** The query returns exactly the samples of the days asked for, in order. */
  lemma SelectRawFacts(rows: seq<Point>, from: int, to: int)
    requires Sorted(rows)
    ensures Sorted(SelectRaw(rows, from, to))
    ensures forall p :: p in SelectRaw(rows, from, to) <==> p in rows && Day(from) <= Day(p.ts) < Day(to)
  {
    SelectRawSorted(rows, from, to);
    forall p ensures p in SelectRaw(rows, from, to) <==> p in rows && Day(from) <= Day(p.ts) < Day(to) {
      SelectRawMember(rows, from, to, p);
    }
  }

  function NoonPoint(r: DayMean): Point { Point(r.day * DAY_SECONDS + NOON, r.avg) }

  lemma {:induction false} SelectDailyMember(rows: seq<DayMean>, from: int, to: int, p: Point)
    ensures p in SelectDaily(rows, from, to)
            <==> exists r :: r in rows && Day(from) <= r.day < Day(to) && p == NoonPoint(r)
  {
    if rows != [] {
      var n := |rows| - 1;
      SelectDailyMember(rows[..n], from, to, p);
      assert rows == rows[..n] + [rows[n]];
    }
  }

  lemma {:induction false} SelectDailySorted(rows: seq<DayMean>, from: int, to: int)
    requires DaysAscend(rows)
    ensures Sorted(SelectDaily(rows, from, to))
  {
    if rows != [] {
      var n := |rows| - 1;
      SelectDailySorted(rows[..n], from, to);
      var front := SelectDaily(rows[..n], from, to);
      forall i | 0 <= i < |front| ensures front[i].ts <= NoonPoint(rows[n]).ts {
        SelectDailyMember(rows[..n], from, to, front[i]);
        var r :| r in rows[..n] && front[i] == NoonPoint(r);
      }
    }
  }

  /** A day's mean is shown at twelve o'clock of the day. */
  lemma NoonInDay(r: DayMean)
    ensures Day(NoonPoint(r).ts) == r.day && NoonPoint(r).ts % 86_400 == 12 * 3600 && NoonPoint(r).value == r.avg
  {
  }

  /** The query returns exactly the stored days of the range, each at its noon, in order. */
  lemma SelectDailyFacts(rows: seq<DayMean>, from: int, to: int)
    requires DaysAscend(rows)
    ensures Sorted(SelectDaily(rows, from, to))
    ensures forall r :: r in rows && Day(from) <= r.day < Day(to) ==> NoonPoint(r) in SelectDaily(rows, from, to)
    ensures forall p :: p in SelectDaily(rows, from, to) ==>
              Day(from) <= Day(p.ts) < Day(to) && exists r :: r in rows && p == NoonPoint(r)
  {
    SelectDailySorted(rows, from, to);
    forall r | r in rows && Day(from) <= r.day < Day(to) ensures NoonPoint(r) in SelectDaily(rows, from, to) {
      SelectDailyMember(rows, from, to, NoonPoint(r));
    }
    forall p | p in SelectDaily(rows, from, to)
      ensures Day(from) <= Day(p.ts) < Day(to) && exists r :: r in rows && p == NoonPoint(r)
    {
      SelectDailyMember(rows, from, to, p);
      var r :| r in rows && Day(from) <= r.day < Day(to) && p == NoonPoint(r);
      NoonInDay(r);
    }
  }

  // ---------- the merge ----------

  function Merged(a: seq<Point>, b: seq<Point>): seq<Point> {
    if a == [] then b
    else if b == [] then a
    else if a[0].ts <= b[0].ts then [a[0]] + Merged(a[1..], b)
    else [b[0]] + Merged(a, b[1..])
  }

  /** The merge keeps every point and the order. */
  lemma {:induction false} MergedFacts(a: seq<Point>, b: seq<Point>)
    requires Sorted(a) && Sorted(b)
    ensures Sorted(Merged(a, b)) && multiset(Merged(a, b)) == multiset(a) + multiset(b)
    decreases |a| + |b|
  {
    if a != [] && b != [] {
      if a[0].ts <= b[0].ts {
        MergedFacts(a[1..], b);
        assert a == [a[0]] + a[1..];
        LeadSorted(a[0], a[1..], b);
      } else {
        MergedFacts(a, b[1..]);
        assert b == [b[0]] + b[1..];
        LeadSorted(b[0], a, b[1..]);
      }
    }
  }

  lemma LeadSorted(p: Point, a: seq<Point>, b: seq<Point>)
    requires Sorted(Merged(a, b)) && multiset(Merged(a, b)) == multiset(a) + multiset(b)
    requires forall q :: q in a || q in b ==> p.ts <= q.ts
    ensures Sorted([p] + Merged(a, b))
  {
    var m := Merged(a, b);
    forall i | 0 <= i < |m| ensures p.ts <= m[i].ts {
      assert m[i] in multiset(m);
    }
  }

  /** When one series ends before the other starts, merging is concatenating. */
  lemma {:induction false} MergedSeparate(a: seq<Point>, b: seq<Point>)
    requires forall p, q :: p in a && q in b ==> p.ts <= q.ts
    ensures Merged(a, b) == a + b
    decreases |a|
  {
    if a != [] && b != [] {
      assert a == [a[0]] + a[1..];
      MergedSeparate(a[1..], b);
    }
  }

  lemma MergedHead(a: seq<Point>, b: seq<Point>, i: nat, j: nat)
    requires i < |a| && j < |b|
    ensures a[i].ts <= b[j].ts ==> Merged(a[i..], b[j..]) == [a[i]] + Merged(a[i + 1..], b[j..])
    ensures a[i].ts > b[j].ts ==> Merged(a[i..], b[j..]) == [b[j]] + Merged(a[i..], b[j + 1..])
  {
    assert a[i..][1..] == a[i + 1..] && b[j..][1..] == b[j + 1..];
  }

  lemma Regroup(out: seq<Point>, p: Point, rest: seq<Point>)
    ensures out + ([p] + rest) == (out + [p]) + rest
  {
  }

  method MergePoints(a: seq<Point>, b: seq<Point>) returns (out: seq<Point>)
    ensures out == Merged(a, b)
  {
    out := [];
    var i, j := 0, 0;
    while i < |a| && j < |b|
      invariant 0 <= i <= |a| && 0 <= j <= |b|
      invariant Merged(a, b) == out + Merged(a[i..], b[j..])
      decreases |a| - i + |b| - j
    {
      MergedHead(a, b, i, j);
      if a[i].ts <= b[j].ts {
        Regroup(out, a[i], Merged(a[i + 1..], b[j..]));
        out := out + [a[i]];
        i := i + 1;
      } else {
        Regroup(out, b[j], Merged(a[i..], b[j + 1..]));
        out := out + [b[j]];
        j := j + 1;
      }
    }
    out := out + a[i..];
    out := out + b[j..];
  }

  // ---------- the endpoint's range ----------

  ghost function DailyPart(daily: seq<DayMean>, from: int, to: int, cutoff: int): seq<Point> {
    if from < cutoff then SelectDaily(daily, from, if to > cutoff then cutoff else to) else []
  }

  ghost function RawPart(rows: seq<Point>, from: int, to: int, cutoff: int): seq<Point> {
    if to > cutoff then SelectRaw(rows, if from < cutoff then cutoff else from, to) else []
  }

  /** How many of `n` points are returned. A threshold of 1 still returns both ends, and one of 0 or less all. */
  function Size(n: nat, threshold: int): int {
    if n <= threshold || threshold <= 0 then n else if threshold == 1 then 2 else threshold
  }

  /** The bound callers rely on holds exactly from a threshold of two on, or when there is nothing to thin. */
  lemma SizeWithinThresholdIff(n: nat, threshold: int)
    ensures Size(n, threshold) <= threshold <==> threshold >= 2 || n <= threshold
  {
  }

  ghost predicate Within(s: seq<Point>, from: int, to: int) {
    forall p :: p in s ==> Day(from) <= Day(p.ts) < Day(to)
  }

  /** The two tables never overlap in a range: the days before the cutoff's come from one, the rest from the other. */
  lemma PartsSeparate(daily: seq<DayMean>, rows: seq<Point>, from: int, to: int, cutoff: int)
    requires DaysAscend(daily) && Sorted(rows)
    ensures Merged(DailyPart(daily, from, to, cutoff), RawPart(rows, from, to, cutoff))
         == DailyPart(daily, from, to, cutoff) + RawPart(rows, from, to, cutoff)
    ensures Sorted(DailyPart(daily, from, to, cutoff)) && Sorted(RawPart(rows, from, to, cutoff))
    ensures Within(DailyPart(daily, from, to, cutoff), from, to) && Within(RawPart(rows, from, to, cutoff), from, to)
  {
    var d, r := DailyPart(daily, from, to, cutoff), RawPart(rows, from, to, cutoff);
    if from < cutoff { SelectDailyFacts(daily, from, if to > cutoff then cutoff else to); }
    if to > cutoff { SelectRawFacts(rows, if from < cutoff then cutoff else from, to); }
    forall p, q | p in d && q in r ensures p.ts <= q.ts {
      assert Day(p.ts) < Day(cutoff) <= Day(q.ts);
    }
    MergedSeparate(d, r);
  }

  lemma PartsJoined(daily: seq<DayMean>, rows: seq<Point>, from: int, to: int, cutoff: int)
    requires DaysAscend(daily) && Sorted(rows)
    ensures var d, r := DailyPart(daily, from, to, cutoff), RawPart(rows, from, to, cutoff);
            Merged(d, r) == d + r && Sorted(d + r) && Within(d + r, from, to)
  {
    var d, r := DailyPart(daily, from, to, cutoff), RawPart(rows, from, to, cutoff);
    PartsSeparate(daily, rows, from, to, cutoff);
    MergedFacts(d, r);
  }

  lemma ThinnedWithin(all: seq<Point>, threshold: int, out: seq<Point>, from: int, to: int)
    requires IsThinned(all, threshold, out) && Within(all, from, to)
    ensures Within(out, from, to)
  {
  }

  lemma SampleSorted(data: seq<Point>, threshold: int, idx: seq<int>)
    requires 2 <= threshold < |data| && IsSample(data, threshold, idx) && Sorted(data)
    ensures Sorted(At(data, idx)) && forall p :: p in At(data, idx) ==> p in data
  {
    var out := At(data, idx);
    forall i, j | 0 <= i < j < |out| ensures out[i].ts <= out[j].ts {
      SampleIncreases(data, threshold, idx, i, j);
    }
  }

  /** What thinning promises of `out`, the points of `all` that are returned. */
  ghost predicate IsThinned(all: seq<Point>, threshold: int, out: seq<Point>) {
    && (2 <= threshold < |all| ==> IsSampled(all, threshold, out))
    && Sorted(out)
    && |out| == Size(|all|, threshold)
    && (|all| <= threshold || threshold <= 0 ==> out == all)
    && (0 < threshold < |all| ==> out[0] == all[0] && out[|out| - 1] == all[|all| - 1])
    && forall p :: p in out ==> p in all
  }

  /** `out` are the points of the sample. */
  ghost predicate IsSampled(all: seq<Point>, threshold: int, out: seq<Point>)
    requires 2 <= threshold < |all|
  {
    exists idx :: IsSample(all, threshold, idx) && out == At(all, idx)
  }

  method Thin(all: seq<Point>, threshold: int) returns (out: seq<Point>)
    requires Sorted(all)
    ensures IsThinned(all, threshold, out)
  {
    if |all| <= threshold { return all; }
    ghost var idx;
    out, idx := Downsample(all, threshold);
    if 2 <= threshold { SampleSorted(all, threshold, idx); }
  }

  /** `Range`. The result is the parts, one after the other, thinned; it shows only days from `from`'s on and before
      `to`'s: samples of `to`'s own day are never shown, although they are stored. `daily` and `rows` are the
      tables in order. */
  method Range(daily: seq<DayMean>, rows: seq<Point>, from: int, to: int, threshold: int, cutoff: int)
    returns (out: seq<Point>)
    requires DaysAscend(daily) && Sorted(rows)
    ensures to <= from ==> out == []
    ensures from < to ==>
              IsThinned(DailyPart(daily, from, to, cutoff) + RawPart(rows, from, to, cutoff), threshold, out)
    ensures Within(out, from, to)
  {
    if to <= from { return []; }
    var raw: seq<Point> := [];
    if to > cutoff {
      var rawStart := from;
      if rawStart < cutoff { rawStart := cutoff; }
      raw := SelectRaw(rows, rawStart, to);
    }
    var means: seq<Point> := [];
    if from < cutoff {
      var dailyEnd := to;
      if dailyEnd > cutoff { dailyEnd := cutoff; }
      means := SelectDaily(daily, from, dailyEnd);
    }
    assert means == DailyPart(daily, from, to, cutoff) && raw == RawPart(rows, from, to, cutoff);
    PartsJoined(daily, rows, from, to, cutoff);
    var merged := MergePoints(means, raw);
    out := Thin(merged, threshold);
    ThinnedWithin(merged, threshold, out, from, to);
  }
}
