/** Logs of admitted requests and how many of them a stretch of time can hold. */
module Windows {
  ghost predicate Ascending(log: seq<int>) {
    forall i, j :: 0 <= i < j < |log| ==> log[i] <= log[j]
  }

  /** Of any `max + 1` admissions in a row, the last is at least `gap` after the first. */
  ghost predicate Spaced(log: seq<int>, max: nat, gap: int) {
    forall i, j :: 0 <= i && j == i + max && j < |log| ==> log[j] >= log[i] + gap
  }

  /** Admissions in [lo, hi). */
  ghost function CountIn(log: seq<int>, lo: int, hi: int): nat {
    if log == [] then 0
    else CountIn(log[..|log| - 1], lo, hi) + if lo <= log[|log| - 1] < hi then 1 else 0
  }

  lemma {:induction false} CountedInARow(log: seq<int>, lo: int, hi: int) returns (p: int)
    requires Ascending(log) && CountIn(log, lo, hi) > 0
    ensures 0 <= p - CountIn(log, lo, hi) + 1 <= p < |log|
    ensures log[p - CountIn(log, lo, hi) + 1] >= lo && log[p] < hi
    decreases |log|
  {
    var n := |log| - 1;
    var front := log[..n];
    if CountIn(front, lo, hi) == 0 {
      p := n;
    } else {
      p := CountedInARow(front, lo, hi);
      if lo <= log[n] < hi { p := n; }
    }
  }

  lemma FarApart(log: seq<int>, max: nat, gap: int, i: nat, p: nat)
    requires Ascending(log) && Spaced(log, max, gap) && i + max <= p < |log|
    ensures log[p] >= log[i] + gap
  {
    var j := i + max;
    assert log[j] >= log[i] + gap;
  }

  /** So no stretch of length `gap` holds more than `max` admissions. */
  lemma SpacedBoundsWindows(log: seq<int>, max: nat, gap: int, lo: int)
    requires Ascending(log) && Spaced(log, max, gap)
    ensures CountIn(log, lo, lo + gap) <= max
  {
    var c := CountIn(log, lo, lo + gap);
    if c > max {
      var p := CountedInARow(log, lo, lo + gap);
      FarApart(log, max, gap, p - c + 1, p);
    }
  }

  /** The admissions after `cut`. */
  function After(log: seq<int>, cut: int): seq<int> {
    if log == [] then []
    else After(log[..|log| - 1], cut) + (if log[|log| - 1] > cut then [log[|log| - 1]] else [])
  }

  lemma UpToLast(log: seq<int>, now: int)
    requires Ascending(log) && (log != [] ==> log[|log| - 1] <= now)
    ensures forall i :: 0 <= i < |log| ==> log[i] <= now
  {
  }

  /** Of a log up to `now`, what comes after `cut` is what lies between. */
  lemma {:induction false} CountIsAfter(log: seq<int>, cut: int, now: int)
    requires forall i :: 0 <= i < |log| ==> log[i] <= now
    ensures CountIn(log, cut + 1, now + 1) == |After(log, cut)|
  {
    if log != [] { CountIsAfter(log[..|log| - 1], cut, now); }
  }

  lemma {:induction false} AfterTwice(log: seq<int>, c: int, d: int)
    requires c <= d
    ensures After(After(log, c), d) == After(log, d)
  {
    if log != [] {
      var n := |log| - 1;
      AfterTwice(log[..n], c, d);
      var a := After(log[..n], c);
      if log[n] > c {
        assert (a + [log[n]])[..|a|] == a;
        assert After(log, c) == a + [log[n]];
      } else {
        assert After(log, c) == a;
      }
    }
  }

  /** Of an ascending log, what comes after `cut` is a tail: everything from index `k` on, if `log[k]` does. */
  lemma {:induction false} AfterIsTail(log: seq<int>, cut: int, k: nat)
    requires Ascending(log) && k < |log| && log[k] > cut
    ensures |After(log, cut)| >= |log| - k
    decreases |log|
  {
    var n := |log| - 1;
    if k < n { AfterIsTail(log[..n], cut, k); }
  }

  lemma {:induction false} AfterMembers(log: seq<int>, cut: int)
    ensures forall t :: t in After(log, cut) <==> t in log && t > cut
    ensures Ascending(log) ==> Ascending(After(log, cut))
  {
    if log != [] {
      var n := |log| - 1;
      AfterMembers(log[..n], cut);
      assert log == log[..n] + [log[n]];
      var front := After(log[..n], cut);
      if Ascending(log) {
        forall i | 0 <= i < |front| ensures front[i] <= log[n] { assert front[i] in front; }
      }
    }
  }

  lemma {:induction false} DropFirst(s: seq<int>, cut: int)
    requires s != [] && s[0] <= cut
    ensures After(s[1..], cut) == After(s, cut)
    decreases |s|
  {
    var n := |s| - 1;
    if n > 0 {
      DropFirst(s[..n], cut);
      assert s[..n][1..] == s[1..][..n - 1];
    }
  }

  lemma {:induction false} AllAfter(s: seq<int>, cut: int)
    requires Ascending(s) && (s != [] ==> s[0] > cut)
    ensures After(s, cut) == s
    decreases |s|
  {
    if s != [] {
      AllAfter(s[..|s| - 1], cut);
      assert s == s[..|s| - 1] + [s[|s| - 1]];
    }
  }

  lemma AfterNext(log: seq<int>, now: int, cut: int)
    requires now > cut
    ensures After(log + [now], cut) == After(log, cut) + [now]
  {
    assert (log + [now])[..|log|] == log;
  }

  /** Admitting at `now` while fewer than `max` admissions are younger than `gap` keeps the log spaced. */
  lemma AdmitKeepsSpaced(log: seq<int>, now: int, max: nat, gap: int)
    requires Ascending(log) && Spaced(log, max, gap)
    requires log != [] ==> log[|log| - 1] <= now
    requires |After(log, now - gap)| < max
    ensures Ascending(log + [now]) && Spaced(log + [now], max, gap)
  {
    var n := |log|;
    if n >= max && log[n - max] > now - gap {
      AfterIsTail(log, now - gap, n - max);
    }
  }
}
