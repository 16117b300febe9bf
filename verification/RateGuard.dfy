/** The sliding-window guard on mutations (internal/httpapi/httpapi.go, `rateGuardBucket.allow`). */
module RateGuard {
  import opened Windows

  /** The leading hits before `cutoff` dropped. */
  function Trimmed(hits: seq<int>, cutoff: int): seq<int> {
    if hits != [] && hits[0] < cutoff then Trimmed(hits[1..], cutoff) else hits
  }

  /** One request at `now` for an address with these hits: whether it is admitted, and its hits afterwards. */
  function Ask(hits: seq<int>, now: int, max: nat, window: nat): (bool, seq<int>) {
    var list := Trimmed(hits, now - window);
    if |list| >= max then (false, list) else (true, list + [now])
  }

  class Bucket {
    var hits: map<string, seq<int>>

    constructor ()
      ensures hits == map[]
    {
      hits := map[];
    }

    function Hits(ip: string): seq<int>
      reads this
    {
      if ip in hits then hits[ip] else []
    }

    method Allow(ip: string, now: int, max: nat, window: nat) returns (ok: bool)
      modifies this
      ensures (ok, Hits(ip)) == Ask(old(Hits(ip)), now, max, window)
      ensures forall other :: other != ip ==> Hits(other) == old(Hits(other))
    {
      var list := Hits(ip);
      var cutoff := now - window;
      var j := 0;
      while j < |list| && list[j] < cutoff
        invariant 0 <= j <= |list|
        invariant Trimmed(list[j..], cutoff) == Trimmed(list, cutoff)
      {
        assert list[j..][1..] == list[j + 1..];
        j := j + 1;
      }
      list := list[j..];
      if |list| >= max {
        hits := hits[ip := list];
        return false;
      }
      list := list + [now];
      hits := hits[ip := list];
      ok := true;
    }
  }

  // ---------- all the requests of one address ----------

  datatype Track = Track(hits: seq<int>, log: seq<int>)

  /** The hits kept and the admissions ever made, after requests at these times. */
  function Requests(times: seq<int>, max: nat, window: nat): Track {
    if times == [] then Track([], [])
    else
      var n := |times| - 1;
      var t := Requests(times[..n], max, window);
      var (ok, hits) := Ask(t.hits, times[n], max, window);
      Track(hits, if ok then t.log + [times[n]] else t.log)
  }

  lemma {:induction false} TrimmedIsAfter(hits: seq<int>, cutoff: int)
    requires Ascending(hits)
    ensures Trimmed(hits, cutoff) == After(hits, cutoff - 1)
    decreases |hits|
  {
    if hits != [] {
      if hits[0] < cutoff {
        TrimmedIsAfter(hits[1..], cutoff);
        DropFirst(hits, cutoff - 1);
      } else {
        AllAfter(hits, cutoff - 1);
      }
    }
  }

  /** The guard keeps exactly the admissions of the last window, and any `max + 1` admissions outlast one. */
  ghost predicate Kept(t: Track, last: int, max: nat, window: nat) {
    && Ascending(t.log) && Spaced(t.log, max, window + 1)
    && t.hits == After(t.log, last - window - 1)
    && (t.log != [] ==> t.log[|t.log| - 1] <= last)
  }

  lemma TrimKept(t: Track, last: int, cutoff: int, max: nat, window: nat)
    requires Kept(t, last, max, window) && last - window <= cutoff
    ensures Trimmed(t.hits, cutoff) == After(t.log, cutoff - 1)
  {
    AfterTwice(t.log, last - window - 1, cutoff - 1);
    AfterMembers(t.log, last - window - 1);
    TrimmedIsAfter(t.hits, cutoff);
  }

  lemma AskKeeps(t: Track, last: int, now: int, max: nat, window: nat)
    requires Kept(t, last, max, window) && last <= now
    ensures var (ok, hits) := Ask(t.hits, now, max, window);
            Kept(Track(hits, if ok then t.log + [now] else t.log), now, max, window)
  {
    TrimKept(t, last, now - window, max, window);
    if |After(t.log, now - window - 1)| < max {
      AdmitKeepsSpaced(t.log, now, max, window + 1);
      AfterNext(t.log, now, now - window - 1);
    }
  }

  lemma {:induction false} RequestsKept(times: seq<int>, last: int, max: nat, window: nat)
    requires Ascending(times) && (times != [] ==> last == times[|times| - 1])
    ensures Kept(Requests(times, max, window), last, max, window)
    decreases |times|
  {
    if times != [] {
      var n := |times| - 1;
      var before := if n > 0 then times[n - 1] else last;
      RequestsKept(times[..n], before, max, window);
      AskKeeps(Requests(times[..n], max, window), before, last, max, window);
    }
  }

  lemma RequestsNext(times: seq<int>, now: int, max: nat, window: nat)
    ensures var t, e := Requests(times, max, window), Requests(times + [now], max, window);
            var (ok, hits) := Ask(t.hits, now, max, window);
            e == Track(hits, if ok then t.log + [now] else t.log)
  {
    assert (times + [now])[..|times|] == times;
  }

  lemma KeptDecides(t: Track, last: int, now: int, max: nat, window: nat)
    requires Kept(t, last, max, window) && last <= now
    ensures Ask(t.hits, now, max, window).0 <==> CountIn(t.log, now - window, now + 1) < max
  {
    TrimKept(t, last, now - window, max, window);
    UpToLast(t.log, now);
    CountIsAfter(t.log, now - window - 1, now);
  }

  /** A request is admitted exactly when fewer than `max` admissions are at most a window old. */
  lemma AdmittedIff(times: seq<int>, now: int, max: nat, window: nat)
    requires Ascending(times) && (times != [] ==> times[|times| - 1] <= now)
    ensures var log := Requests(times, max, window).log;
            Requests(times + [now], max, window).log
              == if CountIn(log, now - window, now + 1) < max then log + [now] else log
  {
    var last := if times == [] then now else times[|times| - 1];
    RequestsKept(times, last, max, window);
    KeptDecides(Requests(times, max, window), last, now, max, window);
    RequestsNext(times, now, max, window);
  }

  /** Whatever is asked for and when, no closed interval of the window's length holds more than `max` admissions. */
  lemma AtMostMaxInAnyWindow(times: seq<int>, max: nat, window: nat, lo: int)
    requires Ascending(times)
    ensures CountIn(Requests(times, max, window).log, lo, lo + window + 1) <= max
  {
    RequestsKept(times, if times == [] then 0 else times[|times| - 1], max, window);
    SpacedBoundsWindows(Requests(times, max, window).log, max, window + 1, lo);
  }
}
