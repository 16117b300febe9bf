/** The login limiter (internal/httpapi/auth_handlers.go, `loginLimiter.allow`, `failure`, `success`). Times are
    nanoseconds. The clean-up of an address table of over 1024 keys is not part of the model. */
module LoginLimiter {
  import opened Options
  import opened Windows

  const MINUTE := 60_000_000_000
  const BLOCK := 15 * MINUTE
  const MAX_PER_MINUTE := 5
  const BLOCK_AFTER := 10

  datatype Attempt = Attempt(window: seq<int>, failures: nat, blockedTo: Option<int>)

  const NEW := Attempt([], 0, None)

  predicate Blocked(a: Attempt, now: int) {
    a.blockedTo.Some? && now < a.blockedTo.value
  }

  function Try(a: Attempt, now: int): (bool, Attempt) {
    if Blocked(a, now) then (false, a)
    else
      var kept := After(a.window, now - MINUTE);
      if |kept| >= MAX_PER_MINUTE then (false, a.(window := kept)) else (true, a.(window := kept + [now]))
  }

  function Fail(a: Attempt, now: int): Attempt {
    if a.failures + 1 >= BLOCK_AFTER then a.(blockedTo := Some(now + BLOCK), failures := 0)
    else a.(failures := a.failures + 1)
  }

  function Succeed(a: Attempt): Attempt {
    a.(failures := 0, blockedTo := None)
  }

  class Limiter {
    var att: map<string, Attempt>

    constructor ()
      ensures att == map[]
    {
      att := map[];
    }

    function Get(key: string): Attempt
      reads this
    {
      if key in att then att[key] else NEW
    }

    /** Records an attempt and says whether it may proceed, or when to come back. */
    method Allow(key: string, now: int) returns (ok: bool, retry: int)
      modifies this
      ensures (ok, Get(key)) == Try(old(Get(key)), now)
      ensures att.Keys == old(att.Keys) + {key}
      ensures forall other :: other != key ==> Get(other) == old(Get(other))
      ensures !ok ==> retry > 0
      ensures !ok && Blocked(Get(key), now) ==> now + retry == Get(key).blockedTo.value
      ensures ok ==> retry == 0
      ensures !ok && !Blocked(Get(key), now) ==> Get(key).window != [] && now + retry == Get(key).window[0] + MINUTE
    {
      var a := Get(key);
      if Blocked(a, now) {
        att := att[key := a];
        return false, a.blockedTo.value - now;
      }
      var kept := Recent(a.window, now - MINUTE);
      AfterMembers(a.window, now - MINUTE);
      a := a.(window := kept);
      if |kept| >= MAX_PER_MINUTE {
        att := att[key := a];
        assert kept[0] in kept;
        return false, MINUTE - (now - kept[0]);
      }
      att := att[key := a.(window := kept + [now])];
      ok, retry := true, 0;
    }

    /** The attempts after `cut`, kept in order. */
    method Recent(window: seq<int>, cut: int) returns (kept: seq<int>)
      ensures kept == After(window, cut)
    {
      kept := [];
      var i := 0;
      while i < |window|
        invariant 0 <= i <= |window|
        invariant kept == After(window[..i], cut)
      {
        assert window[..i + 1][..i] == window[..i];
        if window[i] > cut { kept := kept + [window[i]]; }
        i := i + 1;
      }
      assert window[..i] == window;
    }

    method Failure(key: string, now: int)
      modifies this
      ensures key !in old(att) ==> att == old(att)
      ensures key in old(att) && old(att)[key].failures + 1 < 10 ==>
                att == old(att)[key := old(att)[key].(failures := old(att)[key].failures + 1)]
      ensures key in old(att) && old(att)[key].failures + 1 >= 10 ==>
                att == old(att)[key := Attempt(old(att)[key].window, 0, Some(now + 900_000_000_000))]
      ensures att == if key in old(att) then old(att)[key := Fail(old(att)[key], now)] else old(att)
    {
      if key !in att { return; }
      var a := att[key].(failures := att[key].failures + 1);
      if a.failures >= BLOCK_AFTER {
        a := a.(blockedTo := Some(now + BLOCK), failures := 0);
      }
      att := att[key := a];
    }

    method Success(key: string)
      modifies this
      ensures key !in old(att) ==> att == old(att)
      ensures key in old(att) ==> att == old(att)[key := Attempt(old(att)[key].window, 0, None)]
      ensures att == if key in old(att) then old(att)[key := Succeed(old(att)[key])] else old(att)
    {
      if key !in att { return; }
      att := att[key := att[key].(failures := 0, blockedTo := None)];
    }
  }

  lemma {:induction false} AfterShorter(s: seq<int>, cut: int)
    ensures |After(s, cut)| <= |s|
  {
    if s != [] { AfterShorter(s[..|s| - 1], cut); }
  }

  // ---------- all the events of one key ----------

  /** What reaches the limiter for one key, in the order it does. An attempt carries the time it was made; a failure
      carries the time its login began, so it may be older than attempts made meanwhile. */
  datatype Event = Asked(at: int) | Failed(began: int) | Succeeded

  /** The stored attempt, if the key was ever asked for, the admissions ever made, and how far back the window was
      last trimmed. */
  datatype Track = Track(a: Attempt, known: bool, log: seq<int>, cut: int)

  function Step(t: Track, e: Event): Track {
    match e
    case Asked(now) =>
      var (ok, a) := Try(t.a, now);
      Track(a, true, if ok then t.log + [now] else t.log, if Blocked(t.a, now) then t.cut else now - MINUTE)
    case Failed(began) => if t.known then t.(a := Fail(t.a, began)) else t
    case Succeeded => if t.known then t.(a := Succeed(t.a)) else t
  }

  function Events(t: Track, es: seq<Event>): Track
    decreases |es|
  {
    if es == [] then t else Events(Step(t, es[0]), es[1..])
  }

  /** The attempts are in order of time, from `last` on. */
  ghost predicate InOrder(last: int, es: seq<Event>)
    decreases |es|
  {
    es != [] ==>
      if es[0].Asked? then last <= es[0].at && InOrder(es[0].at, es[1..]) else InOrder(last, es[1..])
  }

  /** The time of the last attempt. */
  function LastAsked(last: int, es: seq<Event>): int
    decreases |es|
  {
    if es == [] then last else LastAsked(if es[0].Asked? then es[0].at else last, es[1..])
  }

  ghost predicate Kept(t: Track, last: int) {
    && Ascending(t.log) && Spaced(t.log, MAX_PER_MINUTE, MINUTE)
    && t.a.window == After(t.log, t.cut) && t.cut <= last - MINUTE
    && (t.log != [] ==> t.log[|t.log| - 1] <= last)
    && t.a.failures < BLOCK_AFTER && |t.a.window| <= MAX_PER_MINUTE
    && (!t.known ==> t.a == NEW && t.log == [])
  }

  lemma Trim(t: Track, last: int, now: int)
    requires Kept(t, last) && last <= now
    ensures After(t.a.window, now - MINUTE) == After(t.log, now - MINUTE)
    ensures |After(t.a.window, now - MINUTE)| <= MAX_PER_MINUTE
  {
    AfterTwice(t.log, t.cut, now - MINUTE);
    AfterShorter(t.a.window, now - MINUTE);
  }

  lemma Admit(log: seq<int>, now: int)
    requires Ascending(log) && Spaced(log, MAX_PER_MINUTE, MINUTE) && (log != [] ==> log[|log| - 1] <= now)
    requires |After(log, now - MINUTE)| < MAX_PER_MINUTE
    ensures Ascending(log + [now]) && Spaced(log + [now], MAX_PER_MINUTE, MINUTE)
    ensures After(log + [now], now - MINUTE) == After(log, now - MINUTE) + [now]
  {
    AdmitKeepsSpaced(log, now, MAX_PER_MINUTE, MINUTE);
    AfterNext(log, now, now - MINUTE);
  }

  lemma TryKeeps(t: Track, last: int, now: int)
    requires Kept(t, last) && last <= now && !Blocked(t.a, now)
    ensures Kept(Step(t, Asked(now)), now)
  {
    Trim(t, last, now);
    var kept := After(t.log, now - MINUTE);
    if |kept| < MAX_PER_MINUTE {
      AdmitKeeps(t, last, now, kept);
    } else {
      assert Step(t, Asked(now)) == Track(t.a.(window := kept), true, t.log, now - MINUTE);
    }
  }

  lemma AdmitKeeps(t: Track, last: int, now: int, kept: seq<int>)
    requires Kept(t, last) && last <= now && !Blocked(t.a, now)
    requires kept == After(t.log, now - MINUTE) == After(t.a.window, now - MINUTE) && |kept| < MAX_PER_MINUTE
    ensures Kept(Step(t, Asked(now)), now)
  {
    Admit(t.log, now);
    assert Step(t, Asked(now)) == Track(t.a.(window := kept + [now]), true, t.log + [now], now - MINUTE);
  }

  lemma StepKeeps(t: Track, last: int, e: Event)
    requires Kept(t, last) && (e.Asked? ==> last <= e.at)
    ensures Kept(Step(t, e), if e.Asked? then e.at else last)
  {
    if e.Asked? && !Blocked(t.a, e.at) { TryKeeps(t, last, e.at); }
  }

  lemma {:induction false} EventsKept(t: Track, last: int, es: seq<Event>)
    requires Kept(t, last) && InOrder(last, es)
    ensures Kept(Events(t, es), LastAsked(last, es))
    decreases |es|
  {
    if es != [] {
      StepKeeps(t, last, es[0]);
      EventsKept(Step(t, es[0]), if es[0].Asked? then es[0].at else last, es[1..]);
    }
  }

  function Fresh(start: int): Track {
    Track(NEW, false, [], start - MINUTE)
  }

  lemma FreshKept(start: int)
    ensures Kept(Fresh(start), start)
  {
  }

  /** Over every run whose attempts are in order of time, whenever their failures come: any minute (x, x+60s] holds at
      most five admitted attempts, and the failure count stays below ten. */
  lemma AtMostFivePerMinute(start: int, es: seq<Event>, x: int)
    requires InOrder(start, es)
    ensures var t := Events(Fresh(start), es);
            CountIn(t.log, x + 1, x + 1 + 60_000_000_000) <= 5 && t.a.failures < 10
  {
    FreshKept(start);
    EventsKept(Fresh(start), start, es);
    KeptBounds(Events(Fresh(start), es), LastAsked(start, es), x);
  }

  lemma KeptBounds(t: Track, last: int, x: int)
    requires Kept(t, last)
    ensures CountIn(t.log, x + 1, x + 1 + MINUTE) <= MAX_PER_MINUTE && t.a.failures < BLOCK_AFTER
  {
    SpacedBoundsWindows(t.log, MAX_PER_MINUTE, MINUTE, x + 1);
  }

  lemma FullMinute(b: Attempt, later: int)
    requires |b.window| == MAX_PER_MINUTE && Ascending(b.window) && !Blocked(b, later)
    ensures Try(b, later).0 <==> b.window[0] + MINUTE <= later
  {
    var cut := later - MINUTE;
    if b.window[0] > cut {
      AfterIsTail(b.window, cut, 0);
    } else {
      DropFirst(b.window, cut);
      AfterShorter(b.window[1..], cut);
    }
  }

  lemma WindowAscends(t: Track, last: int)
    requires Kept(t, last)
    ensures Ascending(t.a.window)
  {
    AfterMembers(t.log, t.cut);
  }

  /** `Retry-After` is exact: refused for a full minute at `now`, the key would be admitted at a later time exactly
      when the first attempt of its window is a minute old. */
  lemma RetryAfterIsExact(start: int, es: seq<Event>, now: int, later: int)
    requires InOrder(start, es) && LastAsked(start, es) <= now <= later
    ensures var a := Events(Fresh(start), es).a;
            var (ok, b) := Try(a, now);
            !ok && !Blocked(a, now) ==> b.window != [] && (Try(b, later).0 <==> b.window[0] + 60_000_000_000 <= later)
  {
    var t := Events(Fresh(start), es);
    FreshKept(start);
    EventsKept(Fresh(start), start, es);
    StepKeeps(t, LastAsked(start, es), Asked(now));
    WindowAscends(Step(t, Asked(now)), now);
    var (ok, b) := Try(t.a, now);
    if !ok && !Blocked(t.a, now) { FullMinute(b, later); }
  }

  // ---------- blocking ----------

  ghost predicate NoSuccess(es: seq<Event>) {
    forall i :: 0 <= i < |es| ==> !es[i].Succeeded?
  }

  ghost function Failures(es: seq<Event>): nat {
    if es == [] then 0 else (if es[0].Failed? then 1 else 0) + Failures(es[1..])
  }

  /** The failure that makes the consecutive ones ten blocks the key from the time its login began. */
  lemma {:induction false} TenthFailureBlocks(t: Track, es: seq<Event>, began: int)
    requires t.known && NoSuccess(es) && t.a.failures + Failures(es) == 9
    ensures var e := Events(t, es + [Failed(began)]);
            e.known && e.a.blockedTo == Some(began + 900_000_000_000) && e.a.failures == 0
    decreases |es|
  {
    if es == [] {
      assert es + [Failed(began)] == [Failed(began)];
      assert Events(t, [Failed(began)]) == Events(Step(t, Failed(began)), []);
    } else {
      assert (es + [Failed(began)])[1..] == es[1..] + [Failed(began)];
      TenthFailureBlocks(Step(t, es[0]), es[1..], began);
    }
  }

  /** The failure blocks the key again, and for less: it is a tenth one, of a login that began too early. */
  predicate Shortens(t: Track, e: Event, until: int) {
    e.Failed? && t.known && t.a.failures + 1 >= BLOCK_AFTER && e.began + BLOCK < until
  }

  ghost predicate AnyShortens(t: Track, es: seq<Event>, until: int)
    decreases |es|
  {
    es != [] && (Shortens(t, es[0], until) || AnyShortens(Step(t, es[0]), es[1..], until))
  }

  /** All along `es` the key is blocked until `until` at least. */
  ghost predicate BlockedAlong(t: Track, es: seq<Event>, until: int)
    decreases |es|
  {
    && t.a.blockedTo.Some? && t.a.blockedTo.value >= until
    && (es != [] ==> BlockedAlong(Step(t, es[0]), es[1..], until))
  }

  /** Without a success a block is lifted early exactly by ten more failures, the tenth of a login that began long
      enough before. */
  lemma {:induction false} BlockLastsIff(t: Track, es: seq<Event>, until: int)
    requires NoSuccess(es) && t.a.blockedTo.Some? && t.a.blockedTo.value >= until
    ensures BlockedAlong(t, es, until) <==> !AnyShortens(t, es, until)
    decreases |es|
  {
    if es != [] {
      var e := Step(t, es[0]);
      if Shortens(t, es[0], until) {
        assert !BlockedAlong(e, es[1..], until);
      } else {
        BlockLastsIff(e, es[1..], until);
      }
    }
  }

  /** While it lasts nothing is admitted. */
  lemma {:induction false} BlockHolds(t: Track, es: seq<Event>, until: int)
    requires BlockedAlong(t, es, until)
    ensures var e := Events(t, es);
            t.log <= e.log && forall i :: |t.log| <= i < |e.log| ==> e.log[i] >= until
    decreases |es|
  {
    if es != [] {
      BlockHolds(Step(t, es[0]), es[1..], until);
    }
  }

  /** After ten consecutive failures nothing is admitted for fifteen minutes from the tenth's time, unless a success
      comes between or ten more failures shorten the block. */
  lemma TenFailuresLockOut(t: Track, es: seq<Event>, began: int, later: seq<Event>)
    requires t.known && t.a.failures == 0 && NoSuccess(es) && Failures(es) == BLOCK_AFTER - 1
    requires NoSuccess(later) && !AnyShortens(Events(t, es + [Failed(began)]), later, began + BLOCK)
    ensures var b := Events(t, es + [Failed(began)]);
            var e := Events(b, later);
            b.log <= e.log && forall i :: |b.log| <= i < |e.log| ==> e.log[i] >= began + 900_000_000_000
  {
    TenthFailureBlocks(t, es, began);
    var b := Events(t, es + [Failed(began)]);
    BlockLastsIff(b, later, began + BLOCK);
    BlockHolds(b, later, began + BLOCK);
  }

  /** Failures of logins that began no earlier shorten nothing. */
  lemma {:induction false} LaterLoginsShortenNothing(t: Track, es: seq<Event>, until: int)
    requires forall i :: 0 <= i < |es| && es[i].Failed? ==> es[i].began + BLOCK >= until
    ensures !AnyShortens(t, es, until)
    decreases |es|
  {
    if es != [] { LaterLoginsShortenNothing(Step(t, es[0]), es[1..], until); }
  }

  /** Nor do fewer than it takes for another block. */
  lemma {:induction false} FewFailuresShortenNothing(t: Track, es: seq<Event>, until: int)
    requires t.a.failures + Failures(es) < BLOCK_AFTER
    ensures !AnyShortens(t, es, until)
    decreases |es|
  {
    if es != [] { FewFailuresShortenNothing(Step(t, es[0]), es[1..], until); }
  }

  /** But ten of logins that began earlier, and came to nothing later, do. */
  lemma EarlierLoginsShorten(t: Track, es: seq<Event>, began: int, old': seq<Event>, earlier: int)
    requires t.known && t.a.failures == 0 && NoSuccess(es) && Failures(es) == BLOCK_AFTER - 1
    requires NoSuccess(old') && Failures(old') == BLOCK_AFTER - 1 && earlier < began
    ensures var b := Events(t, es + [Failed(began)]);
            var e := Events(b, old' + [Failed(earlier)]);
            b.a.blockedTo == Some(began + BLOCK) && e.a.blockedTo == Some(earlier + BLOCK)
            && Blocked(b.a, earlier + BLOCK) && !Blocked(e.a, earlier + BLOCK)
  {
    TenthFailureBlocks(t, es, began);
    TenthFailureBlocks(Events(t, es + [Failed(began)]), old', earlier);
  }

  // ---------- successes ----------

  lemma {:induction false} StaysKnown(t: Track, es: seq<Event>)
    requires t.known
    ensures Events(t, es).known
    decreases |es|
  {
    if es != [] { StaysKnown(Step(t, es[0]), es[1..]); }
  }

  /** Failures are counted in tens, and every tenth blocks. */
  lemma {:induction false} FailuresCount(t: Track, es: seq<Event>) returns (tens: nat)
    requires t.known && NoSuccess(es) && t.a.failures < 10
    ensures var e := Events(t, es);
            && t.a.failures + Failures(es) == 10 * tens + e.a.failures && e.a.failures < 10
            && (e.a.blockedTo.Some? <==> t.a.blockedTo.Some? || tens > 0)
    decreases |es|
  {
    tens := 0;
    if es != [] {
      tens := FailuresCount(Step(t, es[0]), es[1..]);
      if es[0].Failed? && t.a.failures == 9 { tens := tens + 1; }
    }
  }

  /** A success forgets all failures and any block: from then on a key is blocked only by ten failures after it, and the
      count is of those. */
  lemma CountsFromSuccess(t: Track, es: seq<Event>, later: seq<Event>)
    requires t.known && NoSuccess(later)
    ensures var e := Events(t, es + [Succeeded] + later);
            && e.a.failures == Failures(later) % 10
            && (e.a.blockedTo.Some? <==> Failures(later) >= 10)
  {
    EventsAppend(t, es + [Succeeded], later);
    EventsOne(t, es, Succeeded);
    StaysKnown(t, es);
    var tens := FailuresCount(Events(t, es + [Succeeded]), later);
  }

  /** A success leaves the attempts of the last minute counted. */
  lemma SuccessKeepsWindow(t: Track, es: seq<Event>)
    ensures Events(t, es + [Succeeded]).a.window == Events(t, es).a.window
    ensures Events(t, es + [Succeeded]).log == Events(t, es).log
  {
    EventsOne(t, es, Succeeded);
  }

  /** An attempt is admitted exactly when no block stands and fewer than five were admitted in the last minute. */
  lemma AdmittedIff(start: int, es: seq<Event>, now: int)
    requires InOrder(start, es) && LastAsked(start, es) <= now
    ensures var t := Events(Fresh(start), es);
            Step(t, Asked(now)).log
              == if (t.a.blockedTo.None? || now >= t.a.blockedTo.value)
                    && CountIn(t.log, now - 60_000_000_000 + 1, now + 1) < 5 then t.log + [now] else t.log
  {
    FreshKept(start);
    EventsKept(Fresh(start), start, es);
    KeptDecides(Events(Fresh(start), es), LastAsked(start, es), now);
  }

  lemma KeptDecides(t: Track, last: int, now: int)
    requires Kept(t, last) && last <= now
    ensures Step(t, Asked(now)).log
         == if !Blocked(t.a, now) && CountIn(t.log, now - MINUTE + 1, now + 1) < 5 then t.log + [now] else t.log
  {
    WindowCount(t, last, now);
    if !Blocked(t.a, now) {
      assert Try(t.a, now).0 <==> |After(t.a.window, now - MINUTE)| < MAX_PER_MINUTE;
    }
  }

  lemma WindowCount(t: Track, last: int, now: int)
    requires Kept(t, last) && last <= now
    ensures |After(t.a.window, now - MINUTE)| == CountIn(t.log, now - MINUTE + 1, now + 1)
  {
    Trim(t, last, now);
    UpToLast(t.log, now);
    CountIsAfter(t.log, now - MINUTE, now);
  }

  // ---------- a shortened block ----------

  function Copies(at: int, k: nat): seq<int> {
    if k == 0 then [] else Copies(at, k - 1) + [at]
  }

  /** `k` attempts at one time, and `k` failures of such attempts. */
  function Attempts(at: int, k: nat): seq<Event> {
    if k == 0 then [] else Attempts(at, k - 1) + [Asked(at)]
  }

  function Fails(began: int, k: nat): seq<Event> {
    if k == 0 then [] else Fails(began, k - 1) + [Failed(began)]
  }

  lemma {:induction false} EventsAppend(t: Track, a: seq<Event>, b: seq<Event>)
    ensures Events(t, a + b) == Events(Events(t, a), b)
    decreases |a|
  {
    if a == [] {
      assert a + b == b;
    } else {
      assert (a + b)[1..] == a[1..] + b;
      EventsAppend(Step(t, a[0]), a[1..], b);
    }
  }

  lemma EventsOne(t: Track, a: seq<Event>, e: Event)
    ensures Events(t, a + [e]) == Step(Events(t, a), e)
  {
    EventsAppend(t, a, [e]);
    assert Events(Events(t, a), [e]) == Events(Step(Events(t, a), e), []);
  }

  lemma {:induction false} CopiesAfter(at: int, k: nat, cut: int)
    ensures |Copies(at, k)| == k && After(Copies(at, k), cut) == if at > cut then Copies(at, k) else []
  {
    if k > 0 {
      CopiesAfter(at, k - 1, cut);
      var front := Copies(at, k - 1);
      assert Copies(at, k) == front + [at] && (front + [at])[..k - 1] == front;
    }
  }

  /** Up to five attempts at a time a minute after the last are admitted. */
  lemma {:induction false} AttemptsAdmitted(t: Track, at: int, k: nat)
    requires 0 < k <= MAX_PER_MINUTE && !Blocked(t.a, at) && After(t.a.window, at - MINUTE) == []
    ensures Events(t, Attempts(at, k))
         == Track(t.a.(window := Copies(at, k)), true, t.log + Copies(at, k), at - MINUTE)
  {
    var before := Attempts(at, k - 1);
    EventsOne(t, before, Asked(at));
    if k == 1 {
      assert before == [] && Copies(at, 1) == [at] && Copies(at, 0) == [];
      AdmittedNext(t, at, []);
    } else {
      AttemptsAdmitted(t, at, k - 1);
      AttemptsNext(t, at, k);
    }
  }

  lemma AttemptsNext(t: Track, at: int, k: nat)
    requires 1 < k <= MAX_PER_MINUTE && !Blocked(t.a, at)
    ensures Step(Track(t.a.(window := Copies(at, k - 1)), true, t.log + Copies(at, k - 1), at - MINUTE), Asked(at))
         == Track(t.a.(window := Copies(at, k)), true, t.log + Copies(at, k), at - MINUTE)
  {
    var before := Copies(at, k - 1);
    CopiesAfter(at, k - 1, at - MINUTE);
    AdmittedNext(Track(t.a.(window := before), true, t.log + before, at - MINUTE), at, before);
    assert t.log + (before + [at]) == (t.log + before) + [at];
  }

  lemma AdmittedNext(t: Track, at: int, kept: seq<int>)
    requires !Blocked(t.a, at) && After(t.a.window, at - MINUTE) == kept && |kept| < MAX_PER_MINUTE
    ensures Step(t, Asked(at)) == Track(t.a.(window := kept + [at]), true, t.log + [at], at - MINUTE)
  {
  }

  /** Failures touch no admission. */
  lemma {:induction false} FailsKeep(t: Track, es: seq<Event>)
    requires forall i :: 0 <= i < |es| ==> es[i].Failed?
    ensures var e := Events(t, es); e.log == t.log && e.a.window == t.a.window && e.cut == t.cut && e.known == t.known
    decreases |es|
  {
    if es != [] { FailsKeep(Step(t, es[0]), es[1..]); }
  }

  lemma {:induction false} FailsFacts(began: int, k: nat)
    ensures |Fails(began, k)| == k && forall i :: 0 <= i < k ==> Fails(began, k)[i] == Failed(began)
  {
    if k > 0 { FailsFacts(began, k - 1); }
  }

  lemma {:induction false} AllFailures(es: seq<Event>)
    requires forall i :: 0 <= i < |es| ==> es[i].Failed?
    ensures Failures(es) == |es| && NoSuccess(es)
    decreases |es|
  {
    if es != [] { AllFailures(es[1..]); }
  }

  /** Twice five failures, `k` of logins of each time: the last of them blocks. */
  lemma TenFails(t: Track, first: int, second: int, k: nat)
    requires t.known && t.a.failures == 0 && k + k == BLOCK_AFTER
    ensures var e := Events(t, Fails(first, k) + Fails(second, k));
            && e.known && e.a == t.a.(blockedTo := Some(second + BLOCK), failures := 0) && e.log == t.log
  {
    var nine := Fails(first, k) + Fails(second, k - 1);
    FailsFacts(first, k);
    FailsFacts(second, k - 1);
    FailsFacts(second, k);
    AllFailures(nine);
    TenthFailureBlocks(t, nine, second);
    assert Fails(first, k) + Fails(second, k) == nine + [Failed(second)];
    FailsKeep(t, nine + [Failed(second)]);
  }

  /** Four times with as many attempts each, a minute apart and all within fourteen minutes. */
  datatype Times = Times(a: int, b: int, c: int, d: int)

  predicate Apart(m: Times) {
    m.a + MINUTE <= m.b && m.b + MINUTE <= m.c && m.c + MINUTE <= m.d && m.d + MINUTE <= m.a + BLOCK
  }

  function FourMinutes(m: Times, k: nat): seq<Event> {
    Attempts(m.a, k) + Attempts(m.b, k) + Attempts(m.c, k) + Attempts(m.d, k)
  }

  function FourTimes(m: Times, k: nat): seq<int> {
    Copies(m.a, k) + Copies(m.b, k) + Copies(m.c, k) + Copies(m.d, k)
  }

  /** Nothing stands in the way of five attempts at `at`. */
  ghost predicate OpenAt(t: Track, at: int) {
    t.a.blockedTo.None? && t.a.failures == 0 && After(t.a.window, at - MINUTE) == []
  }

  /** Another minute's attempts. */
  lemma MoreAttempts(t: Track, es: seq<Event>, at: int, k: nat, next: int)
    requires 0 < k <= MAX_PER_MINUTE && at + MINUTE <= next && OpenAt(Events(t, es), at)
    ensures var e, f := Events(t, es), Events(t, es + Attempts(at, k));
            f.known && f.log == e.log + Copies(at, k) && f.a == Attempt(Copies(at, k), 0, None) && OpenAt(f, next)
  {
    EventsAppend(t, es, Attempts(at, k));
    AttemptsAdmitted(Events(t, es), at, k);
    CopiesAfter(at, k, next - MINUTE);
  }

  lemma FourMinutesAdmitted(m: Times, k: nat)
    requires 0 < k <= MAX_PER_MINUTE && Apart(m)
    ensures var e := Events(Fresh(m.a), FourMinutes(m, k));
            e.known && e.log == FourTimes(m, k) && e.a == Attempt(Copies(m.d, k), 0, None)
  {
    TwoMinutesAdmitted(m, k);
    var t, two := Fresh(m.a), Attempts(m.a, k) + Attempts(m.b, k);
    MoreAttempts(t, two, m.c, k, m.d);
    MoreAttempts(t, two + Attempts(m.c, k), m.d, k, m.d + MINUTE);
  }

  lemma TwoMinutesAdmitted(m: Times, k: nat)
    requires 0 < k <= MAX_PER_MINUTE && Apart(m)
    ensures var e := Events(Fresh(m.a), Attempts(m.a, k) + Attempts(m.b, k));
            e.log == Copies(m.a, k) + Copies(m.b, k) && OpenAt(e, m.c)
  {
    var t, one := Fresh(m.a), Attempts(m.a, k);
    MoreAttempts(t, [], m.a, k, m.b);
    assert [] + one == one && [] + Copies(m.a, k) == Copies(m.a, k);
    MoreAttempts(t, one, m.b, k, m.c);
  }

  /** The times at which the logins that failed began. */
  function Began(es: seq<Event>): seq<int> {
    if es == [] then []
    else Began(es[..|es| - 1]) + (if es[|es| - 1].Failed? then [es[|es| - 1].began] else [])
  }

  lemma {:induction false} BeganAppend(a: seq<Event>, b: seq<Event>)
    ensures Began(a + b) == Began(a) + Began(b)
    decreases |b|
  {
    if b == [] {
      assert a + b == a;
    } else {
      assert (a + b)[..|a + b| - 1] == a + b[..|b| - 1];
      BeganAppend(a, b[..|b| - 1]);
    }
  }

  lemma {:induction false} BeganFails(at: int, k: nat)
    ensures Began(Fails(at, k)) == Copies(at, k)
  {
    if k > 0 {
      BeganFails(at, k - 1);
      BeganAppend(Fails(at, k - 1), [Failed(at)]);
      assert Began([Failed(at)]) == [at] by { assert [Failed(at)][..0] == []; }
    }
  }

  function LateFails(m: Times, k: nat): seq<Event> { Fails(m.c, k) + Fails(m.d, k) }

  function EarlyFails(m: Times, k: nat): seq<Event> { Fails(m.b, k) + Fails(m.a, k) }

  lemma EachFailureOfItsAttempt(m: Times, k: nat)
    ensures multiset(Began(LateFails(m, k) + EarlyFails(m, k))) == multiset(FourTimes(m, k))
  {
    BeganAppend(LateFails(m, k), EarlyFails(m, k));
    BeganAppend(Fails(m.c, k), Fails(m.d, k));
    BeganAppend(Fails(m.b, k), Fails(m.a, k));
    BeganFails(m.a, k);
    BeganFails(m.b, k);
    BeganFails(m.c, k);
    BeganFails(m.d, k);
    FourPieces(Copies(m.a, k), Copies(m.b, k), Copies(m.c, k), Copies(m.d, k));
  }

  lemma FourPieces(a: seq<int>, b: seq<int>, c: seq<int>, d: seq<int>)
    ensures multiset((c + d) + (b + a)) == multiset(a + b + c + d)
  {
  }

  lemma AdmittedAgain(t: Track, at: int, now: int, k: nat)
    requires t.a == Attempt(Copies(at, k), 0, Some(now)) && at + MINUTE <= now
    ensures Step(t, Asked(now)).log == t.log + [now]
  {
    CopiesAfter(at, k, now - MINUTE);
  }

  lemma {:induction false} InOrderAppend(last: int, a: seq<Event>, b: seq<Event>)
    requires InOrder(last, a) && InOrder(LastAsked(last, a), b)
    ensures InOrder(last, a + b) && LastAsked(last, a + b) == LastAsked(LastAsked(last, a), b)
    decreases |a|
  {
    if a == [] {
      assert a + b == b;
    } else {
      assert (a + b)[1..] == a[1..] + b;
      InOrderAppend(if a[0].Asked? then a[0].at else last, a[1..], b);
    }
  }

  lemma {:induction false} AttemptsInOrder(last: int, at: int, k: nat)
    requires last <= at
    ensures InOrder(last, Attempts(at, k)) && LastAsked(last, Attempts(at, k)) == if k == 0 then last else at
  {
    if k > 0 {
      AttemptsInOrder(last, at, k - 1);
      assert InOrder(if k == 1 then last else at, [Asked(at)]) by { assert [Asked(at)][1..] == []; }
      InOrderAppend(last, Attempts(at, k - 1), [Asked(at)]);
    }
  }

  lemma FourMinutesInOrder(m: Times, k: nat)
    requires k > 0 && Apart(m)
    ensures InOrder(m.a, FourMinutes(m, k)) && LastAsked(m.a, FourMinutes(m, k)) == m.d
  {
    var one := Attempts(m.a, k);
    AttemptsInOrder(m.a, m.a, k);
    AttemptsInOrder(m.a, m.b, k);
    InOrderAppend(m.a, one, Attempts(m.b, k));
    AttemptsInOrder(m.b, m.c, k);
    InOrderAppend(m.a, one + Attempts(m.b, k), Attempts(m.c, k));
    AttemptsInOrder(m.c, m.d, k);
    InOrderAppend(m.a, one + Attempts(m.b, k) + Attempts(m.c, k), Attempts(m.d, k));
  }

  lemma SlowRun(m: Times, k: nat)
    requires 0 < k <= MAX_PER_MINUTE && k + k == BLOCK_AFTER && Apart(m)
    ensures var a := Events(Fresh(m.a), FourMinutes(m, k));
            var b := Events(a, LateFails(m, k));
            var c := Events(b, EarlyFails(m, k));
            && a.log == FourTimes(m, k) && b.a.blockedTo == Some(m.d + BLOCK) && c.log == a.log
            && Step(c, Asked(m.a + BLOCK)).log == a.log + [m.a + BLOCK]
  {
    FourMinutesAdmitted(m, k);
    TwentyFailures(Events(Fresh(m.a), FourMinutes(m, k)), m, k);
  }

  lemma TwentyFailures(a: Track, m: Times, k: nat)
    requires k + k == BLOCK_AFTER && Apart(m) && a.known && a.a == Attempt(Copies(m.d, k), 0, None)
    ensures var b := Events(a, LateFails(m, k));
            var c := Events(b, EarlyFails(m, k));
            && b.a.blockedTo == Some(m.d + BLOCK) && c.log == a.log
            && Step(c, Asked(m.a + BLOCK)).log == a.log + [m.a + BLOCK]
  {
    TenFails(a, m.c, m.d, k);
    var b := Events(a, LateFails(m, k));
    TenFails(b, m.b, m.a, k);
    AdmittedAgain(Events(b, EarlyFails(m, k)), m.d, m.a + BLOCK, k);
  }

  /** From the key's first attempt at `start`: `late` and `early` are failures of the attempts admitted from `asked`,
      one of each; the late ones block the key until `blocked`, the early ones come after them, and an attempt is
      admitted at `again`. */
  ghost predicate IsShortened(start: int, asked: seq<Event>, late: seq<Event>, early: seq<Event>, blocked: int,
                              again: int)
  {
    var a := Events(Fresh(start), asked);
    var b := Events(a, late);
    var c := Events(b, early);
    && InOrder(start, asked) && LastAsked(start, asked) <= again
    && (forall e :: e in late + early ==> e.Failed?)
    && multiset(Began(late + early)) == multiset(a.log)
    && b.a.blockedTo == Some(blocked) && c.log == a.log
    && Step(c, Asked(again)).log == a.log + [again]
  }

  /** Logins that are slow enough shorten a block: five attempts at each of four times, all admitted. Those of the last
      two times fail first and block the key; then the earlier ones fail, and the block ends fifteen minutes after the
      first. */
  lemma SlowLoginsShorten(m: Times) returns (asked: seq<Event>, late: seq<Event>, early: seq<Event>)
    requires Apart(m)
    ensures IsShortened(m.a, asked, late, early, m.d + BLOCK, m.a + BLOCK)
  {
    var k := MAX_PER_MINUTE;
    asked, late, early := FourMinutes(m, k), LateFails(m, k), EarlyFails(m, k);
    FourMinutesInOrder(m, k);
    SlowRun(m, k);
    EachFailureOfItsAttempt(m, k);
    OnlyFails(m, k);
  }

  lemma OnlyFails(m: Times, k: nat)
    ensures forall e :: e in LateFails(m, k) + EarlyFails(m, k) ==> e.Failed?
  {
    FailsFacts(m.a, k);
    FailsFacts(m.b, k);
    FailsFacts(m.c, k);
    FailsFacts(m.d, k);
  }
}
