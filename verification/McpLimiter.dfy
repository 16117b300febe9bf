/** The fixed-window limiter of `/mcp` (internal/mcp/auth.go, `rateLimit`). Times are nanoseconds. */
module McpLimiter {
  import opened Options
  import opened Windows

  const WINDOW := 60_000_000_000

  datatype Bucket = Bucket(start: int, count: nat)

  /** One request: whether it passes, and the bucket afterwards. */
  function Ask(b: Option<Bucket>, now: int, perMin: int): (bool, Bucket) {
    var c := if b.None? || now - b.value.start >= WINDOW then Bucket(now, 1) else b.value.(count := b.value.count + 1);
    (c.count <= perMin, c)
  }

  class Limiter {
    const perMin: int
    var buckets: map<string, Bucket>

    constructor (perMin: int)
      ensures this.perMin == perMin && buckets == map[]
    {
      this.perMin, buckets := perMin, map[];
    }

    function Get(ip: string): Option<Bucket>
      reads this
    {
      if ip in buckets then Some(buckets[ip]) else None
    }

    method Allow(ip: string, now: int) returns (ok: bool)
      modifies this
      ensures Get(ip).Some? && (ok, Get(ip).value) == Ask(old(Get(ip)), now, perMin)
      ensures forall other :: other != ip ==> Get(other) == old(Get(other))
    {
      if ip !in buckets || now - buckets[ip].start >= WINDOW {
        buckets := buckets[ip := Bucket(now, 0)];
      }
      buckets := buckets[ip := buckets[ip].(count := buckets[ip].count + 1)];
      ok := buckets[ip].count <= perMin;
    }
  }

  // ---------- all the requests of one address ----------

  /** The bucket, the admissions, and for each admission the start of its window. */
  datatype Track = Track(b: Option<Bucket>, log: seq<int>, starts: seq<int>)

  function Requests(times: seq<int>, perMin: int): Track {
    if times == [] then Track(None, [], [])
    else
      var n := |times| - 1;
      var t := Requests(times[..n], perMin);
      var (ok, b) := Ask(t.b, times[n], perMin);
      if ok then Track(Some(b), t.log + [times[n]], t.starts + [b.start]) else t.(b := Some(b))
  }

  /** The admissions fall into groups by window: windows start at least `WINDOW` apart, an admission lies in its own,
      and the last group is the open bucket's, as large as its count up to the limit. */
  ghost predicate Grouped(t: Track, perMin: nat, last: int) {
    && |t.log| == |t.starts| && Ascending(t.log)
    && (forall i :: 0 <= i < |t.log| ==> t.starts[i] <= t.log[i] < t.starts[i] + WINDOW && t.log[i] <= last)
    && (t.b.None? ==> t.log == [])
    && (t.b.Some? ==> t.b.value.start <= last && LastGroup(t, perMin))
    && RowsOutlast(t.starts, perMin)
  }

  function GroupSize(b: Bucket, perMin: nat): nat {
    if b.count <= perMin then b.count else perMin
  }

  ghost predicate LastGroup(t: Track, perMin: nat)
    requires t.b.Some?
  {
    var c, m := GroupSize(t.b.value, perMin), |t.starts|;
    && c <= m
    && (forall i :: m - c <= i < m ==> t.starts[i] == t.b.value.start)
    && (forall i :: 0 <= i < m - c ==> t.starts[i] + WINDOW <= t.b.value.start)
  }

  /** Of `perMin + 1` admissions in a row, the last is of a later window than the first. */
  ghost predicate RowsOutlast(starts: seq<int>, perMin: nat) {
    forall i, j :: 0 <= i && j == i + perMin && j < |starts| ==> starts[i] + WINDOW <= starts[j]
  }

  lemma StartsBounded(t: Track, perMin: nat, last: int)
    requires Grouped(t, perMin, last) && t.b.Some?
    ensures forall i :: 0 <= i < |t.starts| ==> t.starts[i] <= t.b.value.start
  {
  }

  /** A request that opens a new window. */
  lemma NewWindow(t: Track, perMin: nat, last: int, now: int)
    requires Grouped(t, perMin, last) && last <= now && (t.b.None? || now - t.b.value.start >= WINDOW)
    ensures Grouped(if 1 <= perMin then Track(Some(Bucket(now, 1)), t.log + [now], t.starts + [now])
                    else t.(b := Some(Bucket(now, 1))), perMin, now)
  {
    if t.b.Some? { StartsBounded(t, perMin, last); }
  }

  lemma AskKeeps(t: Track, perMin: nat, last: int, now: int)
    requires Grouped(t, perMin, last) && last <= now
    ensures var (ok, b) := Ask(t.b, now, perMin);
            Grouped(if ok then Track(Some(b), t.log + [now], t.starts + [b.start]) else t.(b := Some(b)), perMin, now)
  {
    if t.b.None? || now - t.b.value.start >= WINDOW {
      NewWindow(t, perMin, last, now);
    } else {
      StartsBounded(t, perMin, last);
    }
  }

  lemma {:induction false} RequestsGrouped(times: seq<int>, perMin: nat, last: int)
    requires Ascending(times) && (times != [] ==> last == times[|times| - 1])
    ensures Grouped(Requests(times, perMin), perMin, last)
    decreases |times|
  {
    if times != [] {
      var n := |times| - 1;
      var before := if n > 0 then times[n - 1] else last;
      RequestsGrouped(times[..n], perMin, before);
      AskKeeps(Requests(times[..n], perMin), perMin, before, last);
    }
  }

  /** Over every run with nondecreasing times, no closed minute [x, x+60s] holds more than twice the limit. */
  lemma AtMostTwicePerMinute(times: seq<int>, perMin: nat, x: int)
    requires Ascending(times)
    ensures CountIn(Requests(times, perMin).log, x, x + 60_000_000_000 + 1) <= 2 * perMin
  {
    var t := Requests(times, perMin);
    RequestsGrouped(times, perMin, if times == [] then 0 else times[|times| - 1]);
    forall i, j | 0 <= i && j == i + 2 * perMin && j < |t.log| ensures t.log[j] >= t.log[i] + (WINDOW + 1) {
      var k := i + perMin;
      assert t.starts[i] + WINDOW <= t.starts[k] && t.starts[k] + WINDOW <= t.starts[j];
    }
    SpacedBoundsWindows(t.log, 2 * perMin, WINDOW + 1, x);
  }

  /** A request passes exactly when it opens a window, a minute after the last was opened or for the first time, or
      fewer than the limit were admitted since the open one was. */
  lemma AdmittedIff(times: seq<int>, now: int, perMin: nat)
    requires perMin > 0 && Ascending(times) && (times != [] ==> times[|times| - 1] <= now)
    ensures var t := Requests(times, perMin);
            Ask(t.b, now, perMin).0 <==>
              || t.b.None? || now - t.b.value.start >= 60_000_000_000
              || CountIn(t.log, t.b.value.start, now + 1) < perMin
  {
    var t := Requests(times, perMin);
    var last := if times == [] then now else times[|times| - 1];
    RequestsGrouped(times, perMin, last);
    if t.b.Some? { OpenWindowCount(t, perMin, last, now); }
  }

  /** The admissions since the open window was opened are its group. */
  lemma OpenWindowCount(t: Track, perMin: nat, last: int, now: int)
    requires Grouped(t, perMin, last) && t.b.Some? && last <= now
    ensures CountIn(t.log, t.b.value.start, now + 1) == GroupSize(t.b.value, perMin)
  {
    var m, c := |t.log|, GroupSize(t.b.value, perMin);
    forall i | 0 <= i < m - c ensures t.log[i] < t.b.value.start {
      assert t.starts[i] + WINDOW <= t.b.value.start;
    }
    forall i | m - c <= i < m ensures t.b.value.start <= t.log[i] < now + 1 {
      assert t.starts[i] == t.b.value.start;
    }
    CountTail(t.log, m - c, t.b.value.start, now + 1);
  }

  lemma {:induction false} CountTail(log: seq<int>, k: nat, lo: int, hi: int)
    requires k <= |log|
    requires forall i :: 0 <= i < k ==> log[i] < lo
    requires forall i :: k <= i < |log| ==> lo <= log[i] < hi
    ensures CountIn(log, lo, hi) == |log| - k
  {
    if log != [] {
      var n := |log| - 1;
      if k <= n {
        CountTail(log[..n], k, lo, hi);
      } else {
        CountTail(log[..n], n, lo, hi);
      }
    }
  }

  // ---------- the bound is reached ----------

  /** `m` requests at 0 and then `n` a whole window later, none over the limit. */
  function Burst(m: nat, n: nat): seq<int> {
    seq(m + n, i => if i < m then 0 else WINDOW)
  }

  lemma BurstSplits(m: nat, n: nat)
    ensures n > 0 ==> Burst(m, n) == Burst(m, n - 1) + [WINDOW]
    ensures m > 0 ==> Burst(m, 0) == Burst(m - 1, 0) + [0]
  {
  }

  /** What one more request does to the record. */
  lemma RequestsNext(times: seq<int>, now: int, perMin: nat, t: Track)
    requires Requests(times, perMin) == t && Ask(t.b, now, perMin).0
    ensures Requests(times + [now], perMin)
         == Track(Some(Ask(t.b, now, perMin).1), t.log + [now], t.starts + [Ask(t.b, now, perMin).1.start])
  {
    assert (times + [now])[..|times|] == times;
  }

  lemma {:induction false} FirstHalfPasses(perMin: nat, m: nat) returns (t: Track)
    requires 0 < m <= perMin
    ensures t == Requests(Burst(m, 0), perMin) && t.log == Burst(m, 0) && t.b == Some(Bucket(0, m))
  {
    BurstSplits(m, 0);
    if m > 1 {
      t := FirstHalfPasses(perMin, m - 1);
    } else {
      assert Burst(0, 0) == [];
      t := Track(None, [], []);
    }
    RequestsNext(Burst(m - 1, 0), 0, perMin, t);
    t := Requests(Burst(m, 0), perMin);
  }

  lemma {:induction false} BurstPasses(perMin: nat, n: nat) returns (t: Track)
    requires 0 < perMin && n <= perMin
    ensures t == Requests(Burst(perMin, n), perMin) && t.log == Burst(perMin, n)
    ensures t.b == Some(if n == 0 then Bucket(0, perMin) else Bucket(WINDOW, n))
  {
    if n == 0 {
      t := FirstHalfPasses(perMin, perMin);
    } else {
      BurstSplits(perMin, n);
      t := BurstPasses(perMin, n - 1);
      RequestsNext(Burst(perMin, n - 1), WINDOW, perMin, t);
      t := Requests(Burst(perMin, n), perMin);
    }
  }

  lemma {:induction false} CountAll(s: seq<int>, lo: int, hi: int)
    requires forall i :: 0 <= i < |s| ==> lo <= s[i] < hi
    ensures CountIn(s, lo, hi) == |s|
  {
    if s != [] { CountAll(s[..|s| - 1], lo, hi); }
  }

  lemma BurstAscends(m: nat, n: nat)
    ensures Ascending(Burst(m, n)) && |Burst(m, n)| == m + n
    ensures forall i :: 0 <= i < m + n ==> 0 <= Burst(m, n)[i] < WINDOW + 1
  {
  }

  /** A limit of `perMin` a minute can let through twice as many within a minute, and no fewer bounds it. */
  lemma TwiceIsReached(perMin: nat)
    requires perMin > 0
    ensures Ascending(Burst(perMin, perMin))
    ensures CountIn(Requests(Burst(perMin, perMin), perMin).log, 0, 60_000_000_000 + 1) == 2 * perMin
  {
    var t := BurstPasses(perMin, perMin);
    BurstAscends(perMin, perMin);
    CountAll(t.log, 0, WINDOW + 1);
  }
}
