/** Raw samples rolled up into daily aggregates and then deleted (internal/db/db.go, `RollupSeriesToDaily`,
    `PurgeSeries`), with floats as reals. By `StoredTimes.SampleBeforeCutoff` a cutoff acts as its day. */
module Rollup {
  import opened StoredTimes

  /** A row of `series`; its time in Unix seconds. */
  datatype Sample = Sample(source: string, ts: int, value: real)

  function DayOf(x: Sample): int { Day(x.ts) }

  type Key = (string, int)

  /** A row of `series_daily`. */
  datatype Row = Row(avg: real, min: real, max: real, count: nat)

  datatype Tables = Tables(series: seq<Sample>, daily: map<Key, Row>)

  const EMPTY := Tables([], map[])

  // ---------- SQL's aggregates ----------

  function Sum(v: seq<real>): real {
    if v == [] then 0.0 else Sum(v[..|v| - 1]) + v[|v| - 1]
  }

  function Min(v: seq<real>): real
    requires v != []
  {
    if |v| == 1 then v[0]
    else var m := Min(v[..|v| - 1]); if v[|v| - 1] < m then v[|v| - 1] else m
  }

  function Max(v: seq<real>): real
    requires v != []
  {
    if |v| == 1 then v[0]
    else var m := Max(v[..|v| - 1]); if v[|v| - 1] > m then v[|v| - 1] else m
  }

  /** `AVG`, `MIN`, `MAX` and `COUNT` of a group. */
  function Batch(v: seq<real>): Row
    requires v != []
  {
    Row(Mean(Sum(v), |v|), Min(v), Max(v), |v|)
  }

  function Mean(sum: real, n: nat): real
    requires n > 0
  {
    sum / n as real
  }

  /** Two means, each weighted by its count. */
  function Blend(a: real, m: nat, b: real, n: nat): real
    requires m + n > 0
  {
    (a * m as real + b * n as real) / (m + n) as real
  }

  /** `ON CONFLICT DO UPDATE`. */
  function Upsert(a: Row, b: Row): Row
    requires a.count + b.count > 0
  {
    Row(Blend(a.avg, a.count, b.avg, b.count),
        if b.min < a.min then b.min else a.min,
        if b.max > a.max then b.max else a.max,
        a.count + b.count)
  }

  lemma {:induction false} SumAppend(a: seq<real>, b: seq<real>)
    ensures Sum(a + b) == Sum(a) + Sum(b)
    decreases |b|
  {
    if b == [] {
      assert a + b == a;
    } else {
      assert (a + b)[..|a + b| - 1] == a + b[..|b| - 1];
      SumAppend(a, b[..|b| - 1]);
    }
  }

  lemma {:induction false} MinMaxAppend(a: seq<real>, b: seq<real>)
    requires a != [] && b != []
    ensures Min(a + b) == if Min(b) < Min(a) then Min(b) else Min(a)
    ensures Max(a + b) == if Max(b) > Max(a) then Max(b) else Max(a)
    decreases |b|
  {
    assert (a + b)[..|a + b| - 1] == a + b[..|b| - 1];
    if |b| == 1 {
      assert a + b[..0] == a;
    } else {
      MinMaxAppend(a, b[..|b| - 1]);
    }
  }

  lemma Divide(s: real, n: real)
    requires n != 0.0
    ensures s / n * n == s
  {
  }

  lemma BlendOfMeans(s: real, m: nat, t: real, n: nat)
    requires m > 0 && n > 0
    ensures Blend(Mean(s, m), m, Mean(t, n), n) == Mean(s + t, m + n)
  {
    Divide(s, m as real);
    Divide(t, n as real);
  }

  /** Folding a group into a row is aggregating the two groups together. */
  lemma UpsertIsBatch(a: seq<real>, b: seq<real>)
    requires a != [] && b != []
    ensures Upsert(Batch(a), Batch(b)) == Batch(a + b)
  {
    SumAppend(a, b);
    MinMaxAppend(a, b);
    BlendOfMeans(Sum(a), |a|, Sum(b), |b|);
  }

  // ---------- the statements ----------

  function Older(s: seq<Sample>, cutoff: int): seq<Sample> {
    if s == [] then []
    else Older(s[..|s| - 1], cutoff) + (if DayOf(s[|s| - 1]) < cutoff then [s[|s| - 1]] else [])
  }

  function NotOlder(s: seq<Sample>, cutoff: int): seq<Sample> {
    if s == [] then []
    else NotOlder(s[..|s| - 1], cutoff) + (if DayOf(s[|s| - 1]) < cutoff then [] else [s[|s| - 1]])
  }

  function KeyOf(x: Sample): Key { (x.source, DayOf(x)) }

  /** The values of one source and day. */
  function Values(s: seq<Sample>, k: Key): seq<real> {
    if s == [] then []
    else Values(s[..|s| - 1], k) + (if KeyOf(s[|s| - 1]) == k then [s[|s| - 1].value] else [])
  }

  function Keys(s: seq<Sample>): set<Key> {
    set x | x in s :: KeyOf(x)
  }

  lemma {:induction false} ValuesNonEmpty(s: seq<Sample>, k: Key)
    ensures k in Keys(s) <==> Values(s, k) != []
  {
    if s != [] {
      var n := |s| - 1;
      ValuesNonEmpty(s[..n], k);
      assert s == s[..n] + [s[n]];
    }
  }

  lemma {:induction false} ValuesAppend(a: seq<Sample>, b: seq<Sample>, k: Key)
    ensures Values(a + b, k) == Values(a, k) + Values(b, k)
    decreases |b|
  {
    if b == [] {
      assert a + b == a;
    } else {
      assert (a + b)[..|a + b| - 1] == a + b[..|b| - 1];
      ValuesAppend(a, b[..|b| - 1], k);
    }
  }

  /** The `INSERT ... SELECT ... GROUP BY` over the old samples. */
  function Aggregated(daily: map<Key, Row>, past: seq<Sample>): map<Key, Row>
  {
    map k | k in daily.Keys + Keys(past) ::
      ValuesNonEmpty(past, k);
      if k !in Keys(past) then daily[k]
      else if k in daily then Upsert(daily[k], Batch(Values(past, k)))
      else Batch(Values(past, k))
  }

  function Rolled(t: Tables, cutoff: int): Tables {
    Tables(NotOlder(t.series, cutoff), Aggregated(t.daily, Older(t.series, cutoff)))
  }

  function Purged(t: Tables, cutoff: int): Tables {
    t.(series := NotOlder(t.series, cutoff))
  }

  // ---------- histories ----------

  datatype Action = Insert(sample: Sample) | Roll(cutoff: int)

  function Apply(t: Tables, a: Action): Tables {
    match a
    case Insert(x) => t.(series := t.series + [x])
    case Roll(c) => Rolled(t, c)
  }

  function Replay(acts: seq<Action>): Tables {
    if acts == [] then EMPTY else Apply(Replay(acts[..|acts| - 1]), acts[|acts| - 1])
  }

  /** The samples that the rollups of a history took out of `series`, in the order they went. */
  ghost function Removed(acts: seq<Action>): seq<Sample> {
    if acts == [] then []
    else
      var before := acts[..|acts| - 1];
      match acts[|acts| - 1]
      case Insert(_) => Removed(before)
      case Roll(c) => Removed(before) + Older(Replay(before).series, c)
  }

  ghost function Inserted(acts: seq<Action>): seq<Sample> {
    if acts == [] then []
    else
      var before := acts[..|acts| - 1];
      match acts[|acts| - 1]
      case Insert(x) => Inserted(before) + [x]
      case Roll(_) => Inserted(before)
  }

  ghost predicate Describes(daily: map<Key, Row>, gone: seq<Sample>) {
    && daily.Keys == Keys(gone)
    && forall k :: k in daily ==> Values(gone, k) != [] && daily[k] == Batch(Values(gone, k))
  }

  lemma AggregatedDescribes(daily: map<Key, Row>, gone: seq<Sample>, more: seq<Sample>)
    requires Describes(daily, gone)
    ensures Describes(Aggregated(daily, more), gone + more)
  {
    var d := Aggregated(daily, more);
    assert Keys(gone + more) == Keys(gone) + Keys(more);
    forall k | k in d ensures Values(gone + more, k) != [] && d[k] == Batch(Values(gone + more, k)) {
      ValuesAppend(gone, more, k);
      ValuesNonEmpty(gone, k);
      ValuesNonEmpty(more, k);
      if k !in Keys(more) {
        assert Values(gone + more, k) == Values(gone, k);
      } else if k in daily {
        UpsertIsBatch(Values(gone, k), Values(more, k));
      } else {
        assert Values(gone + more, k) == Values(more, k);
      }
    }
  }

  /** Over any history, each daily row is the mean, minimum, maximum and number of exactly the samples of its
      source and day that were removed, however many rollups it took to remove them. */
  lemma {:induction false} DailyRowsAreExact(acts: seq<Action>)
    ensures Describes(Replay(acts).daily, Removed(acts))
  {
    if acts != [] {
      var before := acts[..|acts| - 1];
      DailyRowsAreExact(before);
      if acts[|acts| - 1].Roll? {
        var past := Older(Replay(before).series, acts[|acts| - 1].cutoff);
        AggregatedDescribes(Replay(before).daily, Removed(before), past);
      }
    }
  }

  // ---------- the same in plain terms ----------

  /** How many of the samples are of source `src` and day `d`, and the sum of their values. */
  ghost function CountOf(s: seq<Sample>, src: string, d: int): nat {
    if s == [] then 0
    else
      var x := s[|s| - 1];
      CountOf(s[..|s| - 1], src, d) + if x.source == src && Day(x.ts) == d then 1 else 0
  }

  ghost function SumOf(s: seq<Sample>, src: string, d: int): real {
    if s == [] then 0.0
    else
      var x := s[|s| - 1];
      SumOf(s[..|s| - 1], src, d) + if x.source == src && Day(x.ts) == d then x.value else 0.0
  }

  /** The row describes the samples of its source and day, and no others. */
  ghost predicate RowFits(r: Row, s: seq<Sample>, src: string, d: int) {
    && r.count == CountOf(s, src, d) && r.count > 0 && RowMean(r, s, src, d) && RowBounds(r, s, src, d)
  }

  ghost predicate RowMean(r: Row, s: seq<Sample>, src: string, d: int) {
    r.avg * r.count as real == SumOf(s, src, d)
  }

  ghost predicate RowBounds(r: Row, s: seq<Sample>, src: string, d: int) {
    && (exists x :: x in s && x.source == src && Day(x.ts) == d && x.value == r.min)
    && (exists x :: x in s && x.source == src && Day(x.ts) == d && x.value == r.max)
    && forall x :: x in s && x.source == src && Day(x.ts) == d ==> r.min <= x.value <= r.max
  }

  /** Every sample has a row of its own source and day, and every row fits. */
  ghost predicate RowsFit(daily: map<Key, Row>, s: seq<Sample>) {
    && (forall x :: x in s ==> (x.source, Day(x.ts)) in daily)
    && forall src, d :: (src, d) in daily ==> RowFits(daily[(src, d)], s, src, d)
  }

  lemma {:induction false} ValuesCounted(s: seq<Sample>, src: string, d: int)
    ensures |Values(s, (src, d))| == CountOf(s, src, d) && Sum(Values(s, (src, d))) == SumOf(s, src, d)
  {
    if s != [] {
      var n := |s| - 1;
      var front := Values(s[..n], (src, d));
      ValuesCounted(s[..n], src, d);
      if s[n].source == src && Day(s[n].ts) == d {
        assert Values(s, (src, d)) == front + [s[n].value] && (front + [s[n].value])[..|front|] == front;
      } else {
        assert Values(s, (src, d)) == front;
      }
    }
  }

  lemma {:induction false} ValuesMembers(s: seq<Sample>, src: string, d: int, v: real)
    ensures v in Values(s, (src, d)) <==> exists x :: x in s && x.source == src && Day(x.ts) == d && x.value == v
  {
    if s != [] {
      var n := |s| - 1;
      ValuesMembers(s[..n], src, d, v);
      assert s == s[..n] + [s[n]];
    }
  }

  lemma {:induction false} MinMaxFacts(v: seq<real>)
    requires v != []
    ensures Min(v) in v && Max(v) in v && forall i :: 0 <= i < |v| ==> Min(v) <= v[i] <= Max(v)
  {
    if |v| > 1 {
      var n := |v| - 1;
      MinMaxFacts(v[..n]);
      assert v == v[..n] + [v[n]];
      forall i | 0 <= i < |v| ensures Min(v) <= v[i] <= Max(v) {
        if i < n { assert v[..n][i] == v[i]; }
      }
    }
  }

  lemma BatchFits(s: seq<Sample>, src: string, d: int)
    requires Values(s, (src, d)) != []
    ensures RowFits(Batch(Values(s, (src, d))), s, src, d)
  {
    var v := Values(s, (src, d));
    ValuesCounted(s, src, d);
    BatchMean(s, src, d, v);
    BatchBounds(s, src, d, v);
  }

  lemma BatchMean(s: seq<Sample>, src: string, d: int, v: seq<real>)
    requires v != [] && Sum(v) == SumOf(s, src, d)
    ensures RowMean(Batch(v), s, src, d)
  {
    Divide(Sum(v), |v| as real);
  }

  lemma BatchBounds(s: seq<Sample>, src: string, d: int, v: seq<real>)
    requires v != [] && v == Values(s, (src, d))
    ensures RowBounds(Batch(v), s, src, d)
  {
    MinMaxFacts(v);
    ValuesMembers(s, src, d, Min(v));
    ValuesMembers(s, src, d, Max(v));
    forall x | x in s && x.source == src && Day(x.ts) == d ensures Min(v) <= x.value <= Max(v) {
      ValuesMembers(s, src, d, x.value);
      var i :| 0 <= i < |v| && v[i] == x.value;
    }
  }

  lemma DescribesFits(daily: map<Key, Row>, gone: seq<Sample>)
    requires Describes(daily, gone)
    ensures RowsFit(daily, gone)
  {
    forall src, d | (src, d) in daily ensures RowFits(daily[(src, d)], gone, src, d) { BatchFits(gone, src, d); }
    forall x | x in gone ensures (x.source, Day(x.ts)) in daily { assert KeyOf(x) in Keys(gone); }
  }

  /** Over any history: every sample removed has a row of its source and day; each row counts exactly the removed
      samples of that source and day, its average times its count is their sum, and its minimum and maximum are of them
      and bound them. */
  lemma DailyRowsFit(acts: seq<Action>)
    ensures RowsFit(Replay(acts).daily, Removed(acts))
  {
    DailyRowsAreExact(acts);
    DescribesFits(Replay(acts).daily, Removed(acts));
  }

  /** One statement: rows are those there were and those of the group's sources and days, and each grows by the samples
      of its own. */
  lemma AggregatedCounts(daily: map<Key, Row>, past: seq<Sample>, src: string, d: int)
    ensures (src, d) in Aggregated(daily, past) <==>
              (src, d) in daily || exists x :: x in past && x.source == src && Day(x.ts) == d
    ensures (src, d) in Aggregated(daily, past) ==>
              Aggregated(daily, past)[(src, d)].count
                == (if (src, d) in daily then daily[(src, d)].count else 0) + CountOf(past, src, d)
  {
    ValuesCounted(past, src, d);
    ValuesNonEmpty(past, (src, d));
    if x :| x in past && x.source == src && Day(x.ts) == d { assert KeyOf(x) in Keys(past); }
    if (src, d) in Keys(past) { var x :| x in past && KeyOf(x) == (src, d); }
  }

  lemma PutEither<T>(a: seq<T>, b: seq<T>, s: seq<T>, x: T)
    requires multiset(a) + multiset(b) == multiset(s)
    ensures multiset(a + [x]) + multiset(b + []) == multiset(s + [x])
    ensures multiset(a + []) + multiset(b + [x]) == multiset(s + [x])
  {
    assert a + [] == a && b + [] == b;
  }

  lemma {:induction false} FilterSplits(s: seq<Sample>, c: int)
    ensures multiset(Older(s, c)) + multiset(NotOlder(s, c)) == multiset(s)
  {
    if s != [] {
      var n := |s| - 1;
      var x, t := s[n], s[..n];
      FilterSplits(t, c);
      assert s == t + [x];
      if DayOf(x) < c {
        assert Older(s, c) == Older(t, c) + [x] && NotOlder(s, c) == NotOlder(t, c) + [];
      } else {
        assert Older(s, c) == Older(t, c) + [] && NotOlder(s, c) == NotOlder(t, c) + [x];
      }
      PutEither(Older(t, c), NotOlder(t, c), t, x);
    }
  }

  lemma {:induction false} OlderMembers(s: seq<Sample>, c: int, x: Sample)
    ensures x in Older(s, c) <==> x in s && DayOf(x) < c
  {
    if s != [] {
      var n := |s| - 1;
      OlderMembers(s[..n], c, x);
      assert s == s[..n] + [s[n]];
    }
  }

  lemma {:induction false} NotOlderMembers(s: seq<Sample>, c: int, x: Sample)
    ensures x in NotOlder(s, c) <==> x in s && DayOf(x) >= c
  {
    if s != [] {
      var n := |s| - 1;
      NotOlderMembers(s[..n], c, x);
      assert s == s[..n] + [s[n]];
    }
  }

  /** Every sample ever inserted is either still raw or was removed into its day, once. */
  lemma {:induction false} SamplesConserved(acts: seq<Action>)
    ensures multiset(Replay(acts).series) + multiset(Removed(acts)) == multiset(Inserted(acts))
  {
    if acts != [] {
      var before := acts[..|acts| - 1];
      SamplesConserved(before);
      if acts[|acts| - 1].Roll? { FilterSplits(Replay(before).series, acts[|acts| - 1].cutoff); }
    }
  }

  // ---------- counts ----------

  ghost function Total(keys: set<Key>, s: seq<Sample>): nat {
    if keys == {} then 0 else
      var k :| k in keys;
      |Values(s, k)| + Total(keys - {k}, s)
  }

  lemma {:induction false} TotalPick(keys: set<Key>, s: seq<Sample>, k: Key)
    requires k in keys
    ensures Total(keys, s) == |Values(s, k)| + Total(keys - {k}, s)
    decreases keys
  {
    var j :| j in keys && Total(keys, s) == |Values(s, j)| + Total(keys - {j}, s);
    if j != k {
      TotalPick(keys - {j}, s, k);
      TotalPick(keys - {k}, s, j);
      assert keys - {j} - {k} == keys - {k} - {j};
    }
  }

  lemma {:induction false} TotalSnoc(keys: set<Key>, s: seq<Sample>, x: Sample)
    ensures Total(keys, s + [x]) == Total(keys, s) + if KeyOf(x) in keys then 1 else 0
    decreases keys
  {
    if keys != {} {
      var k :| k in keys;
      TotalPick(keys, s, k);
      TotalPick(keys, s + [x], k);
      TotalSnoc(keys - {k}, s, x);
      ValuesAppend(s, [x], k);
    }
  }

  lemma {:induction false} TotalAll(keys: set<Key>, s: seq<Sample>)
    requires Keys(s) <= keys
    ensures Total(keys, s) == |s|
    decreases |s|
  {
    if s == [] {
      TotalNone(keys);
    } else {
      var n := |s| - 1;
      assert s == s[..n] + [s[n]];
      TotalAll(keys, s[..n]);
      TotalSnoc(keys, s[..n], s[n]);
    }
  }

  lemma {:induction false} TotalNone(keys: set<Key>)
    ensures Total(keys, []) == 0
    decreases keys
  {
    if keys != {} {
      var k :| k in keys;
      TotalPick(keys, [], k);
      TotalNone(keys - {k});
    }
  }

  ghost function Counts(daily: map<Key, Row>, keys: set<Key>): nat
    requires keys <= daily.Keys
  {
    if keys == {} then 0 else
      var k :| k in keys;
      daily[k].count + Counts(daily, keys - {k})
  }

  lemma {:induction false} CountsAreTotal(daily: map<Key, Row>, gone: seq<Sample>, keys: set<Key>)
    requires Describes(daily, gone) && keys <= daily.Keys
    ensures Counts(daily, keys) == Total(keys, gone)
    decreases keys
  {
    if keys != {} {
      var k :| k in keys && Counts(daily, keys) == daily[k].count + Counts(daily, keys - {k});
      TotalPick(keys, gone, k);
      CountsAreTotal(daily, gone, keys - {k});
    }
  }

  /** The counts of the daily rows and the raw samples left add up to the samples inserted. */
  lemma CountsConserved(acts: seq<Action>)
    ensures var t := Replay(acts); Counts(t.daily, t.daily.Keys) + |t.series| == |Inserted(acts)|
  {
    var t, gone := Replay(acts), Removed(acts);
    DailyRowsAreExact(acts);
    SamplesConserved(acts);
    CountsAreTotal(t.daily, gone, t.daily.Keys);
    TotalAll(t.daily.Keys, gone);
    assert |multiset(t.series) + multiset(gone)| == |t.series| + |gone|;
  }

  // ---------- reruns and purges ----------

  lemma {:induction false} NothingOlder(s: seq<Sample>, c: int)
    ensures (forall x :: x in s ==> DayOf(x) >= c) <==> Older(s, c) == []
    ensures Older(s, c) == [] <==> NotOlder(s, c) == s
    ensures |NotOlder(s, c)| <= |s|
  {
    if s != [] {
      var n := |s| - 1;
      NothingOlder(s[..n], c);
      assert s == s[..n] + [s[n]];
    }
  }

  /** A rerun with the same cutoff changes nothing. */
  lemma RerunChangesNothing(t: Tables, c: int)
    ensures Rolled(Rolled(t, c), c) == Rolled(t, c)
  {
    var left, d := NotOlder(t.series, c), Rolled(t, c).daily;
    forall x | x in left ensures DayOf(x) >= c { NotOlderMembers(t.series, c, x); }
    NothingOlder(left, c);
    assert Keys([]) == {};
    assert Aggregated(d, []) == d;
  }

  /** The purge that follows a rollup deletes unaggregated samples exactly when its own cutoff, reckoned a moment
      later, has passed the day of one that the rollup left. */
  lemma PurgeAfterRollupIsSafeIff(t: Tables, c: int, later: int)
    ensures Purged(Rolled(t, c), later) == Rolled(t, c)
            <==> !(exists x :: x in t.series && c <= DayOf(x) < later)
  {
    var left := NotOlder(t.series, c);
    NothingOlder(left, later);
    forall x ensures x in left <==> x in t.series && DayOf(x) >= c { NotOlderMembers(t.series, c, x); }
  }

  /** The upsert, one group at a time. */
  method UpsertGroups(daily: map<Key, Row>, past: seq<Sample>) returns (rows: map<Key, Row>)
    ensures rows == Aggregated(daily, past)
  {
    var keys := Keys(past);
    rows := daily;
    while keys != {}
      invariant keys <= Keys(past)
      invariant rows.Keys == daily.Keys + (Keys(past) - keys)
      invariant forall k :: k in rows ==> rows[k] == if k in keys then daily[k] else Aggregated(daily, past)[k]
      decreases keys
    {
      var k :| k in keys;
      ValuesNonEmpty(past, k);
      var group := Batch(Values(past, k));
      rows := rows[k := if k in rows then Upsert(rows[k], group) else group];
      keys := keys - {k};
    }
  }

  lemma ReplayNext(acts: seq<Action>, a: Action)
    ensures Replay(acts + [a]) == Apply(Replay(acts), a)
  {
    assert (acts + [a])[..|acts|] == acts;
  }

  /** The two tables, as the maintenance job changes them. */
  class Db {
    var series: seq<Sample>
    var daily: map<Key, Row>
    ghost var history: seq<Action>

    ghost predicate Valid()
      reads this
    {
      Tables(series, daily) == Replay(history)
    }

    constructor ()
      ensures Valid() && history == []
    {
      series, daily, history := [], map[], [];
    }

    method Add(x: Sample)
      requires Valid()
      modifies this
      ensures Valid() && history == old(history) + [Insert(x)]
    {
      ReplayNext(history, Insert(x));
      series := series + [x];
      history := history + [Insert(x)];
    }

    /** Aggregates what is older than the cutoff, then deletes it; every daily row stays exact. */
    method RollupToDaily(cutoff: int) returns (deleted: nat)
      requires Valid()
      modifies this
      ensures Valid() && history == old(history) + [Roll(cutoff)]
      ensures deleted == |old(series)| - |series|
      ensures forall x :: x in series <==> x in old(series) && Day(x.ts) >= cutoff
      ensures RowsFit(daily, Removed(history))
    {
      ReplayNext(history, Roll(cutoff));
      var left := NotOlder(series, cutoff);
      NothingOlder(series, cutoff);
      forall x ensures x in left <==> x in series && Day(x.ts) >= cutoff { NotOlderMembers(series, cutoff, x); }
      daily := UpsertGroups(daily, Older(series, cutoff));
      deleted := |series| - |left|;
      series := left;
      history := history + [Roll(cutoff)];
      DailyRowsFit(history);
    }
  }
}
