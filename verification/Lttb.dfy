/** Largest-Triangle-Three-Buckets downsampling (internal/series/series.go, `LTTB`), with floats as reals. */
module Lttb {
  datatype Point = Point(ts: int, value: real)

  // ---------- buckets ----------

  function Every(n: int, threshold: int): real
    requires threshold > 2
  {
    (n - 2) as real / (threshold - 2) as real
  }

  /** Where bucket `i` starts: `int(float64(i)*every) + 1`. */
  function Start(n: int, threshold: int, i: int): int
    requires threshold > 2
  {
    (i as real * Every(n, threshold)).Floor + 1
  }

  lemma EveryFacts(n: int, threshold: int)
    requires 2 < threshold < n
    ensures Every(n, threshold) >= 1.0
    ensures (threshold - 2) as real * Every(n, threshold) == (n - 2) as real
  {
  }

  lemma FloorStep(x: real, y: real)
    requires x + 1.0 <= y
    ensures x.Floor + 1 <= y.Floor
  {
  }

  lemma BucketNonEmpty(n: int, threshold: int, i: int)
    requires 2 < threshold < n && 0 <= i
    ensures Start(n, threshold, i) < Start(n, threshold, i + 1)
  {
    var e := Every(n, threshold);
    EveryFacts(n, threshold);
    assert (i + 1) as real * e == i as real * e + e;
    FloorStep(i as real * e, (i + 1) as real * e);
  }

  lemma {:induction false} StartsIncrease(n: int, threshold: int, i: int, k: int)
    requires 2 < threshold < n && 0 <= i <= k
    ensures Start(n, threshold, i) + (k - i) <= Start(n, threshold, k)
    decreases k - i
  {
    if i < k {
      StartsIncrease(n, threshold, i, k - 1);
      BucketNonEmpty(n, threshold, k - 1);
    }
  }

  lemma BucketEnds(n: int, threshold: int)
    requires 2 < threshold < n
    ensures Start(n, threshold, 0) == 1 && Start(n, threshold, threshold - 2) == n - 1
  {
    EveryFacts(n, threshold);
  }

  /** Every inner index lies in exactly one bucket: the buckets partition 1..n-2. */
  lemma {:induction false} BucketsPartition(n: int, threshold: int, j: int, top: int) returns (i: int)
    requires 2 < threshold < n && 0 < top <= threshold - 2
    requires 1 <= j < Start(n, threshold, top)
    ensures 0 <= i < top && Start(n, threshold, i) <= j < Start(n, threshold, i + 1)
    ensures forall k :: 0 <= k < threshold - 2 && Start(n, threshold, k) <= j < Start(n, threshold, k + 1) ==> k == i
    decreases top
  {
    BucketEnds(n, threshold);
    if Start(n, threshold, top - 1) <= j {
      i := top - 1;
      forall k | 0 <= k < threshold - 2 && Start(n, threshold, k) <= j < Start(n, threshold, k + 1) ensures k == i {
        if k < i { StartsIncrease(n, threshold, k + 1, i); }
        if i < k { StartsIncrease(n, threshold, i + 1, k); }
      }
    } else {
      i := BucketsPartition(n, threshold, j, top - 1);
    }
  }

  // ---------- picks ----------

  ghost function SumTs(data: seq<Point>, lo: int, hi: int): real
    requires 0 <= lo <= hi <= |data|
    decreases hi - lo
  {
    if lo == hi then 0.0 else SumTs(data, lo, hi - 1) + data[hi - 1].ts as real
  }

  ghost function SumValue(data: seq<Point>, lo: int, hi: int): real
    requires 0 <= lo <= hi <= |data|
    decreases hi - lo
  {
    if lo == hi then 0.0 else SumValue(data, lo, hi - 1) + data[hi - 1].value
  }

  function Abs(x: real): real { if x < 0.0 then -x else x }

  /** Twice the area of the triangle of `a`, `p` and `(x, y)`. */
  function Area(a: Point, p: Point, x: real, y: real): real {
    Abs((a.ts as real - x) * (p.value - a.value) - (a.ts as real - p.ts as real) * (y - a.value))
  }

  /** It is the size of the determinant of the two sides that leave `a`, and so twice the triangle's area. */
  lemma AreaIsDeterminant(a: Point, p: Point, x: real, y: real)
    ensures var det := (p.ts as real - a.ts as real) * (y - a.value) - (x - a.ts as real) * (p.value - a.value);
            Area(a, p, x, y) == if det >= 0.0 then det else -det
  {
    var u, v, r, s := p.ts as real - a.ts as real, p.value - a.value, x - a.ts as real, y - a.value;
    assert (a.ts as real - x) * v == -(r * v) && (a.ts as real - p.ts as real) * s == -(u * s);
  }

  /** The end of the bucket averaged for pick `i`, cut at the end of the data. */
  function NextEnd(n: int, threshold: int, i: int): int
    requires threshold > 2
  {
    if Start(n, threshold, i + 2) > n then n else Start(n, threshold, i + 2)
  }

  lemma NextBucketNonEmpty(n: int, threshold: int, i: int)
    requires 2 < threshold < n && 0 <= i < threshold - 2
    ensures 1 <= Start(n, threshold, i) < Start(n, threshold, i + 1) <= n - 1
    ensures Start(n, threshold, i + 1) < NextEnd(n, threshold, i) <= n
  {
    BucketEnds(n, threshold);
    StartsIncrease(n, threshold, 0, i);
    BucketNonEmpty(n, threshold, i);
    BucketNonEmpty(n, threshold, i + 1);
    StartsIncrease(n, threshold, i + 1, threshold - 2);
  }

  /** `p` is the first point of bucket `i` whose triangle with point `a` and the next bucket's mean is largest. */
  ghost predicate Picks(data: seq<Point>, threshold: int, i: int, a: int, p: int)
    requires 2 < threshold < |data| && 0 <= i < threshold - 2 && 0 <= a < |data|
  {
    NextBucketNonEmpty(|data|, threshold, i);
    var lo, hi := Start(|data|, threshold, i + 1), NextEnd(|data|, threshold, i);
    var x, y := SumTs(data, lo, hi) / (hi - lo) as real, SumValue(data, lo, hi) / (hi - lo) as real;
    IsFirstLargest(data, a, Start(|data|, threshold, i), lo, x, y, p)
  }

  ghost predicate IsFirstLargest(data: seq<Point>, a: int, first: int, last: int, x: real, y: real, p: int)
    requires 0 <= first < last <= |data| && 0 <= a < |data|
  {
    && first <= p < last
    && (forall j :: first <= j < last ==> Area(data[a], data[j], x, y) <= Area(data[a], data[p], x, y))
    && (forall j :: first <= j < p ==> Area(data[a], data[j], x, y) < Area(data[a], data[p], x, y))
  }

  /** The indices LTTB keeps. */
  ghost predicate IsSample(data: seq<Point>, threshold: int, idx: seq<int>)
    requires 2 <= threshold < |data|
  {
    |idx| == threshold && idx[threshold - 1] == |data| - 1 && Begins(data, threshold, idx, threshold - 2)
  }

  /** The first `m` picks. */
  ghost predicate Begins(data: seq<Point>, threshold: int, idx: seq<int>, m: int)
    requires 2 <= threshold < |data| && 0 <= m <= threshold - 2
  {
    && m < |idx| && idx[0] == 0
    && (forall k :: 0 <= k < |idx| ==> 0 <= idx[k] < |data|)
    && (forall i, j :: 0 <= i < m && j == i + 1 ==> Picks(data, threshold, i, idx[i], idx[j]))
  }

  /** There is only one sample: LTTB is a function of its data. */
  lemma {:induction false} SampleUnique(data: seq<Point>, threshold: int, p: seq<int>, q: seq<int>, k: int)
    requires 2 <= threshold < |data| && IsSample(data, threshold, p) && IsSample(data, threshold, q)
    requires 0 <= k < threshold
    ensures p[k] == q[k]
    decreases k
  {
    if 0 < k < threshold - 1 {
      SampleUnique(data, threshold, p, q, k - 1);
      var i := k - 1;
      assert Picks(data, threshold, i, p[i], p[i + 1]) && Picks(data, threshold, i, q[i], q[i + 1]);
    }
  }

  /** The sample runs forward through the data. */
  lemma {:induction false} SampleIncreases(data: seq<Point>, threshold: int, idx: seq<int>, i: int, k: int)
    requires 2 <= threshold < |data| && IsSample(data, threshold, idx)
    requires 0 <= i < k < threshold
    ensures idx[i] < idx[k]
    decreases k - i
  {
    if i + 1 < k {
      SampleIncreases(data, threshold, idx, i, k - 1);
      SampleIncreases(data, threshold, idx, k - 1, k);
    } else if threshold > 2 {
      var n := |data|;
      BucketEnds(n, threshold);
      if i < threshold - 2 {
        assert Picks(data, threshold, i, idx[i], idx[k]);
        NextBucketNonEmpty(n, threshold, i);
        if i > 0 { assert Picks(data, threshold, i - 1, idx[i - 1], idx[i]); }
      } else {
        assert Picks(data, threshold, i - 1, idx[i - 1], idx[i]);
      }
    }
  }

  ghost function At(data: seq<Point>, idx: seq<int>): seq<Point>
    requires forall k :: 0 <= k < |idx| ==> 0 <= idx[k] < |data|
  {
    seq(|idx|, k requires 0 <= k < |idx| => data[idx[k]])
  }

  /** The mean of `data[lo..hi]`, by the accumulating loop. */
  method Mean(data: seq<Point>, lo: int, hi: int) returns (x: real, y: real)
    requires 0 <= lo < hi <= |data|
    ensures x == SumTs(data, lo, hi) / (hi - lo) as real
    ensures y == SumValue(data, lo, hi) / (hi - lo) as real
  {
    x, y := 0.0, 0.0;
    var j := lo;
    while j < hi
      invariant lo <= j <= hi
      invariant x == SumTs(data, lo, j) && y == SumValue(data, lo, j)
    {
      x, y := x + data[j].ts as real, y + data[j].value;
      j := j + 1;
    }
    x, y := x / (hi - lo) as real, y / (hi - lo) as real;
  }

  /** The greedy choice in one bucket. */
  method Pick(data: seq<Point>, a: int, first: int, last: int, x: real, y: real) returns (p: int)
    requires 0 <= first < last <= |data| && 0 <= a < |data|
    ensures IsFirstLargest(data, a, first, last, x, y, p)
  {
    var maxArea := -1.0;
    p := first;
    var j := first;
    while j < last
      invariant first <= j <= last && first <= p < last
      invariant j == first ==> maxArea == -1.0
      invariant j > first ==> p < j && maxArea == Area(data[a], data[p], x, y)
      invariant forall k :: first <= k < j ==> Area(data[a], data[k], x, y) <= maxArea
      invariant forall k :: first <= k < p ==> Area(data[a], data[k], x, y) < maxArea
    {
      var area := Area(data[a], data[j], x, y);
      if area > maxArea {
        maxArea, p := area, j;
      }
      j := j + 1;
    }
  }

  /** One turn of the loop: the next bucket's mean, then the greedy choice in this one. */
  method NextPick(data: seq<Point>, threshold: int, i: int, a: int) returns (next: int)
    requires 2 < threshold < |data| && 0 <= i < threshold - 2 && 0 <= a < |data|
    ensures Picks(data, threshold, i, a, next) && 0 <= next < |data|
  {
    var n := |data|;
    NextBucketNonEmpty(n, threshold, i);
    var rangeStart := Start(n, threshold, i + 1);
    var rangeEnd := Start(n, threshold, i + 2);
    if rangeEnd > n { rangeEnd := n; }
    var x, y := Mean(data, rangeStart, rangeEnd);
    next := Pick(data, a, Start(n, threshold, i), Start(n, threshold, i + 1), x, y);
  }

  /** `LTTB`. A threshold of 1 still keeps both ends; `every` is never used for thresholds below 3. */
  method Downsample(data: seq<Point>, threshold: int) returns (out: seq<Point>, ghost idx: seq<int>)
    ensures threshold >= |data| || threshold <= 0 ==> out == data
    ensures 2 <= threshold < |data| ==> IsSample(data, threshold, idx) && out == At(data, idx)
    ensures threshold == 1 < |data| ==> out == [data[0], data[|data| - 1]]
  {
    var n := |data|;
    idx := [];
    if threshold >= n || threshold <= 0 {
      return data, idx;
    }
    out, idx := [data[0]], [0];
    if threshold > 2 {
      var a := 0;
      var i := 0;
      while i < threshold - 2
        invariant 0 <= i <= threshold - 2
        invariant |idx| == i + 1 && a == idx[i]
        invariant Begins(data, threshold, idx, i)
        invariant out == At(data, idx)
      {
        var next := NextPick(data, threshold, i, a);
        out, idx := out + [data[next]], idx + [next];
        a := next;
        i := i + 1;
      }
    }
    out, idx := out + [data[n - 1]], idx + [n - 1];
  }
}
