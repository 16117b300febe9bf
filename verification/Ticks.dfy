/** The 30-second tick that starts due jobs (internal/scheduler/scheduler.go, `check`, `runJob`, `MarkRun`;
    internal/replication/runner.go, `check`). Times are nanoseconds on the local clock, as in `Schedules`. */
module Ticks {
  import opened Options
  import opened Calendar
  import opened Schedules
  import opened Sets
  import opened Seconds

  /** A stored job; a zero `created` reads as `None`. */
  datatype Job = Job(enabled: bool, schedule: Schedule, created: Option<int>, lastRun: Option<int>)

  /** The base the next run is reckoned from: the last run, else the creation, else the present. */
  function Base(j: Job, now: int): int {
    if j.lastRun.Some? then j.lastRun.value else if j.created.Some? then j.created.value else now
  }

  predicate Due(j: Job, now: int) {
    j.enabled && NextOf(j.schedule, Base(j, now)) <= now
  }

  ghost function Instants(s: Schedule, lo: int, hi: int): set<int> {
    set c: int | lo < c <= hi && Matches(s, c)
  }

  /** The schedule has named an instant since the job last ran, or if it never did, since it was created. */
  ghost predicate InstantPassed(j: Job, now: int) {
    || (j.lastRun.Some? && Instants(j.schedule, j.lastRun.value, now) != {})
    || (j.lastRun.None? && j.created.Some? && Instants(j.schedule, j.created.value, now) != {})
  }

  lemma NextPassedIff(s: Schedule, base: int, now: int)
    requires Valid(s)
    ensures NextOf(s, base) <= now <==> Instants(s, base, now) != {}
  {
    NextOfIsNext(s, base);
    if NextOf(s, base) <= now { assert NextOf(s, base) in Instants(s, base, now); }
  }

  /** A job that has run is due exactly when it is enabled and its schedule has named an instant since the last run;
      one that never ran, since its creation; one of which neither is known is never due. */
  lemma DueIffInstantPassed(j: Job, now: int)
    requires Valid(j.schedule)
    ensures j.lastRun.Some? ==> (Due(j, now) <==> j.enabled && Instants(j.schedule, j.lastRun.value, now) != {})
    ensures j.lastRun.None? && j.created.Some? ==>
              (Due(j, now) <==> j.enabled && Instants(j.schedule, j.created.value, now) != {})
    ensures j.lastRun.None? && j.created.None? ==> !Due(j, now)
    ensures Due(j, now) <==> j.enabled && InstantPassed(j, now)
  {
    if j.lastRun.Some? {
      NextPassedIff(j.schedule, j.lastRun.value, now);
    } else if j.created.Some? {
      NextPassedIff(j.schedule, j.created.value, now);
    } else {
      NextOfIsNext(j.schedule, now);
    }
  }

  /** A job that a tick ran, and whose run was stored, is not due again before the next instant after its end. */
  lemma NotAgainBeforeNext(j: Job, finish: int, later: int)
    requires Valid(j.schedule)
    ensures Due(j.(lastRun := Some(ToSecond(finish))), later)
            <==> j.enabled && NextOf(j.schedule, ToSecond(finish)) <= later
  {
  }

  /** What becomes of the job over a tick that ran it or not, and whose `MarkRun` worked or not. */
  function Ran(j: Job, now: int, finish: int, stored: bool): Job {
    if Due(j, now) && stored then j.(lastRun := Some(ToSecond(finish))) else j
  }

  /** One tick of the scheduler: when it looks, when a run of each job, if it is started, ends, and whether its
      `MarkRun` works. */
  datatype Tick = Tick(now: int, finish: seq<int>, stored: seq<bool>)

  /** The scheduler waits for its runs: whatever a tick starts has ended when the next looks. */
  ghost predicate InTurn(ticks: seq<Tick>, jobs: nat) {
    && (forall t :: 0 <= t < |ticks| ==> |ticks[t].finish| == |ticks[t].stored| == jobs)
    && forall a, b, i :: 0 <= a < b < |ticks| && 0 <= i < jobs ==> ticks[a].finish[i] <= ticks[b].finish[i]
  }

  lemma WholeSecondsAscend(a: int, b: int)
    requires a <= b
    ensures ToSecond(a) <= ToSecond(b)
  {
  }

  /** The scheduler's store; `check` runs the due jobs one after another. */
  class Scheduler {
    var jobs: seq<Job>

    constructor (jobs: seq<Job>)
      ensures this.jobs == jobs
    {
      this.jobs := jobs;
    }

    /** `finish[i]` is when a run of job `i`, if it is started, ends, and `stored[i]` whether its `MarkRun` works: a
        failure is logged and no more. */
    method Check(now: int, finish: seq<int>, stored: seq<bool>) returns (ran: seq<nat>)
      requires |finish| == |stored| == |jobs|
      requires forall j :: j in jobs ==> Valid(j.schedule)
      modifies this
      ensures |jobs| == |old(jobs)|
      ensures forall i: nat :: i in ran ==> i < |jobs|
      ensures forall i: nat :: i < |jobs| && old(jobs)[i].lastRun.Some? ==>
                (i in ran <==> old(jobs)[i].enabled
                               && Instants(old(jobs)[i].schedule, old(jobs)[i].lastRun.value, now) != {})
      ensures forall i: nat :: i < |jobs| && old(jobs)[i].lastRun.None? && old(jobs)[i].created.Some? ==>
                (i in ran <==> old(jobs)[i].enabled
                               && Instants(old(jobs)[i].schedule, old(jobs)[i].created.value, now) != {})
      ensures forall i: nat :: i < |jobs| && old(jobs)[i].lastRun.None? && old(jobs)[i].created.None? ==> i !in ran
      ensures forall a, b :: 0 <= a < b < |ran| ==> ran[a] < ran[b]
      ensures forall i: nat :: i < |jobs| ==>
                jobs[i] == if i in ran && stored[i] then old(jobs)[i].(lastRun := Some(ToSecond(finish[i])))
                           else old(jobs)[i]
    {
      ran := [];
      var i := 0;
      while i < |jobs|
        invariant 0 <= i <= |jobs| == |old(jobs)|
        invariant forall k :: 0 <= k < i ==> jobs[k] == Ran(old(jobs)[k], now, finish[k], stored[k])
        invariant forall k :: i <= k < |jobs| ==> jobs[k] == old(jobs)[k]
        invariant forall k: nat :: k in ran <==> k < i && Due(old(jobs)[k], now)
        invariant forall a, b :: 0 <= a < b < |ran| ==> ran[a] < ran[b]
        invariant forall a :: 0 <= a < |ran| ==> ran[a] < i
      {
        var j := jobs[i];
        assert j in old(jobs);
        if j.enabled {
          var next := Next(j.schedule, Base(j, now));
          if next <= now {
            if stored[i] { jobs := jobs[i := j.(lastRun := Some(ToSecond(finish[i])))]; }
            ran := ran + [i];
          }
        }
        i := i + 1;
      }
      forall k: nat | k < |jobs|
        ensures Due(old(jobs)[k], now) <==> old(jobs)[k].enabled && InstantPassed(old(jobs)[k], now)
      {
        assert old(jobs)[k] in old(jobs);
        DueIffInstantPassed(old(jobs)[k], now);
      }
    }

    /** The ticker: one look after another. A job that one tick ran, and whose run was stored, is run by a later tick
        only if its schedule has named an instant since that run ended. */
    method Run(ticks: seq<Tick>) returns (ran: seq<seq<nat>>)
      requires InTurn(ticks, |jobs|)
      requires forall j :: j in jobs ==> Valid(j.schedule)
      modifies this
      ensures |ran| == |ticks| && |jobs| == |old(jobs)|
      ensures forall i: nat :: i < |jobs| ==> jobs[i].schedule == old(jobs)[i].schedule
      ensures RunsApart(ticks, ran, jobs)
    {
      ran := [];
      var t := 0;
      while t < |ticks|
        invariant t == |ran| <= |ticks| && |jobs| == |old(jobs)|
        invariant forall i: nat :: i < |jobs| ==> jobs[i].schedule == old(jobs)[i].schedule
        invariant RunsRecorded(ticks, ran, jobs) && RunsApart(ticks, ran, jobs)
      {
        ghost var was := jobs;
        forall j | j in jobs ensures Valid(j.schedule) {
          var i :| 0 <= i < |jobs| && jobs[i] == j;
          assert old(jobs)[i] in old(jobs);
        }
        var now := Check(ticks[t].now, ticks[t].finish, ticks[t].stored);
        RunStep(ticks, ran, was, now, jobs);
        ran := ran + [now];
        t := t + 1;
      }
    }
  }

  /** Of any two ticks that ran job `i`, the first recording it, the later one had an instant since the earlier run. */
  ghost predicate RunsApart(ticks: seq<Tick>, ran: seq<seq<nat>>, jobs: seq<Job>)
    requires |ran| <= |ticks| && InTurn(ticks, |jobs|)
  {
    forall a, b, i: nat :: 0 <= a < b < |ran| && i in ran[a] && i in ran[b] && i < |jobs| && ticks[a].stored[i] ==>
      Instants(jobs[i].schedule, ToSecond(ticks[a].finish[i]), ticks[b].now) != {}
  }

  ghost predicate RunsRecorded(ticks: seq<Tick>, ran: seq<seq<nat>>, jobs: seq<Job>)
    requires |ran| <= |ticks| && InTurn(ticks, |jobs|)
  {
    forall a, i: nat :: 0 <= a < |ran| && i in ran[a] && i < |jobs| && ticks[a].stored[i] ==>
      jobs[i].lastRun.Some? && ToSecond(ticks[a].finish[i]) <= jobs[i].lastRun.value
  }

  lemma RunStep(ticks: seq<Tick>, ran: seq<seq<nat>>, was: seq<Job>, now: seq<nat>, jobs: seq<Job>)
    requires |ran| < |ticks| && InTurn(ticks, |was|) && |jobs| == |was|
    requires RunsRecorded(ticks, ran, was) && RunsApart(ticks, ran, was)
    requires forall i: nat :: i < |was| && i in now && was[i].lastRun.Some? ==>
               Instants(was[i].schedule, was[i].lastRun.value, ticks[|ran|].now) != {}
    requires forall i: nat :: i < |was| ==>
               jobs[i] == if i in now && ticks[|ran|].stored[i]
                          then was[i].(lastRun := Some(ToSecond(ticks[|ran|].finish[i]))) else was[i]
    ensures RunsRecorded(ticks, ran + [now], jobs) && RunsApart(ticks, ran + [now], jobs)
  {
    var t, all := |ran|, ran + [now];
    forall a, i: nat | 0 <= a < |all| && i in all[a] && i < |jobs| && ticks[a].stored[i]
      ensures jobs[i].lastRun.Some? && ToSecond(ticks[a].finish[i]) <= jobs[i].lastRun.value
    {
      if a < t { WholeSecondsAscend(ticks[a].finish[i], ticks[t].finish[i]); }
    }
    forall a, b, i: nat | 0 <= a < b < |all| && i in all[a] && i in all[b] && i < |jobs| && ticks[a].stored[i]
      ensures Instants(jobs[i].schedule, ToSecond(ticks[a].finish[i]), ticks[b].now) != {}
    {
      if b == t {
        SinceEarlier(was[i].schedule, ToSecond(ticks[a].finish[i]), was[i].lastRun.value, ticks[t].now);
      }
    }
  }

  lemma SinceEarlier(s: Schedule, early: int, late: int, now: int)
    requires early <= late && Instants(s, late, now) != {}
    ensures Instants(s, early, now) != {}
  {
    var c :| c in Instants(s, late, now);
    assert c in Instants(s, early, now);
  }

  // ---------- one job over a whole run ----------

  /** `seen` is the base and time of the tick's last look at the store, `running` the instant the run in
      progress was started for, `starts` how many runs ticks have started. */
  datatype State = State(base: int, clock: int, seen: Option<(int, int)>, running: Option<int>, starts: nat)

  /** The moves of one job. `Manual` is a run somebody asked for, at its end; `stored` is whether `MarkRun` worked. */
  datatype Move = Look(now: int) | Begin | Finish(at: int, stored: bool) | Manual(at: int, stored: bool)

  predicate Possible(st: State, m: Move) {
    match m
    case Look(now) => st.clock <= now
    case Begin => st.seen.Some? && st.running.None?
    case Finish(at, _) => st.clock <= at && st.running.Some?
    case Manual(at, _) => st.clock <= at
  }

  function Do(s: Schedule, st: State, m: Move): State {
    if !Possible(st, m) then st else
    match m
    case Look(now) => st.(clock := now, seen := Some((st.base, now)))
    case Begin =>
      var n := NextOf(s, st.seen.value.0);
      if n <= st.seen.value.1 then st.(seen := None, running := Some(n), starts := st.starts + 1)
      else st.(seen := None)
    case Finish(at, stored) => st.(clock := at, base := if stored then ToSecond(at) else st.base, running := None)
    case Manual(at, stored) => st.(clock := at, base := if stored then ToSecond(at) else st.base)
  }

  function DoAll(s: Schedule, st: State, moves: seq<Move>): State
    decreases |moves|
  {
    if moves == [] then st else DoAll(s, Do(s, st, moves[0]), moves[1..])
  }

  function Fresh(base: int, clock: int): State {
    State(base, clock, None, None, 0)
  }

  /** The moves are what happens to a stored job: a tick that looks, begins and waits for the end leaves the base at the
      job's new last run, and starts a run exactly if the job was due. */
  lemma TickMovesJob(j: Job, clock: int, now: int, finish: int, stored: bool)
    requires j.enabled && j.lastRun.Some? && clock <= now <= finish
    ensures var st := DoAll(j.schedule, Fresh(j.lastRun.value, clock), [Look(now), Begin, Finish(finish, stored)]);
            && Some(st.base) == Ran(j, now, finish, stored).lastRun && st.running.None?
            && st.starts == if Due(j, now) then 1 else 0
  {
    var s, s0 := j.schedule, Fresh(j.lastRun.value, clock);
    var s1 := Do(s, s0, Look(now));
    var s2 := Do(s, s1, Begin);
    Unroll(s, s0, [Look(now), Begin, Finish(finish, stored)]);
    Unroll(s, s1, [Begin, Finish(finish, stored)]);
    Unroll(s, s2, [Finish(finish, stored)]);
  }

  /** So does a run that somebody asked for, when it ends. */
  lemma ManualMovesJob(j: Job, st: State, at: int, stored: bool)
    requires st.clock <= at && j.lastRun == Some(st.base)
    ensures Do(j.schedule, st, Manual(at, stored)).base
         == if stored then ToSecond(at) else st.base
    ensures Do(j.schedule, st, Manual(at, stored)).running == st.running
  {
  }

  /** The move starts a run. */
  predicate Starts(s: Schedule, st: State, m: Move) {
    m.Begin? && Possible(st, m) && NextOf(s, st.seen.value.0) <= st.seen.value.1
  }

  lemma ToSecondFacts(t: int, used: int)
    requires used % SECOND_NS == 0 && used <= t
    ensures used <= ToSecond(t) <= t && ToSecond(t) % SECOND_NS == 0
  {
    assert t == t / SECOND_NS * SECOND_NS + t % SECOND_NS && used == used / SECOND_NS * SECOND_NS;
  }

  lemma WholeMinute(n: int)
    requires n % MINUTE_NS == 0
    ensures n % SECOND_NS == 0
  {
    assert n == n / MINUTE_NS * 60 * SECOND_NS;
  }

  // ---------- when a start repeats an instant ----------

  /** The last start was for `used`, reckoned from the base `from`; before the first start both are `base0`. Nothing
      is assumed of when the tick looks, and results may be lost. */
  ghost predicate Loose(s: Schedule, st: State, base0: int, from: int, used: int) {
    && base0 <= from <= used <= st.clock && from <= st.base <= st.clock
    && (if from == used then used == base0 else used == NextOf(s, from))
    && st.base % SECOND_NS == 0
    && (st.running.Some? ==> used == st.running.value)
    && (st.seen.Some? ==> from <= st.seen.value.0 <= st.base && st.seen.value.1 <= st.clock)
  }

  /** A start is for a new, later instant exactly when the last run it read is not before the instant last started;
      otherwise it is for that same instant once more. */
  lemma RepeatsIffStale(s: Schedule, st: State, base0: int, from: int, used: int)
    requires Valid(s) && Loose(s, st, base0, from, used) && Starts(s, st, Begin)
    ensures var n := Do(s, st, Begin).running.value;
            && (n > used <==> st.seen.value.0 >= used)
            && (n == used <==> st.seen.value.0 < used)
  {
    var b := st.seen.value.0;
    NextOfIsNext(s, b);
    if b < used { NextOfIsNext(s, from); }
  }

  lemma LooseStep(s: Schedule, st: State, m: Move, base0: int, from: int, used: int) returns (from': int)
    requires Valid(s) && Loose(s, st, base0, from, used)
    ensures Loose(s, Do(s, st, m), base0, from', if Starts(s, st, m) then Do(s, st, m).running.value else used)
  {
    from' := from;
    if Possible(st, m) {
      match m
      case Look(_) =>
      case Begin =>
        if Starts(s, st, m) {
          from' := st.seen.value.0;
          NextOfIsNext(s, from');
        }
      case Finish(at, _) => ToSecondFacts(at, st.base);
      case Manual(at, _) => ToSecondFacts(at, st.base);
    }
  }

  /** The instants ticks started runs for, in order. */
  function Started(s: Schedule, st: State, moves: seq<Move>): seq<int>
    decreases |moves|
  {
    if moves == [] then []
    else
      var e := Do(s, st, moves[0]);
      (if Starts(s, st, moves[0]) then [e.running.value] else []) + Started(s, e, moves[1..])
  }

  /** How many starts read a last run from before the instant last started, which is `used` to begin with. */
  function StaleStarts(s: Schedule, st: State, moves: seq<Move>, used: int): nat
    decreases |moves|
  {
    if moves == [] then 0
    else
      var e := Do(s, st, moves[0]);
      if Starts(s, st, moves[0]) then
        (if st.seen.value.0 < used then 1 else 0) + StaleStarts(s, e, moves[1..], e.running.value)
      else StaleStarts(s, e, moves[1..], used)
  }

  ghost function Distinct(q: seq<int>): set<int> { set x | x in q }

  /** The instants started for, from a loose state on. */
  ghost predicate RunsOn(q: seq<int>, s: Schedule, base0: int, used: int, clock: int) {
    && (forall x :: x in q ==> used <= x <= clock && Matches(s, x) && base0 < x)
    && (forall i, k :: 0 <= i < k < |q| ==> q[i] <= q[k])
  }

  lemma RunsOnFirst(n: int, q: seq<int>, s: Schedule, base0: int, used: int, clock: int)
    requires RunsOn(q, s, base0, n, clock) && used <= n <= clock && Matches(s, n) && base0 < n
    ensures RunsOn([n] + q, s, base0, used, clock)
  {
    forall i | 0 <= i < |q| ensures n <= q[i] { assert q[i] in q; }
  }

  lemma {:induction false} ClockGoesOn(s: Schedule, st: State, moves: seq<Move>)
    ensures st.clock <= DoAll(s, st, moves).clock
    decreases |moves|
  {
    if moves != [] { ClockGoesOn(s, Do(s, st, moves[0]), moves[1..]); }
  }

  lemma {:induction false} StartedRunsOn(s: Schedule, st: State, moves: seq<Move>, base0: int, from: int, used: int)
    requires Valid(s) && Loose(s, st, base0, from, used)
    ensures RunsOn(Started(s, st, moves), s, base0, used, DoAll(s, st, moves).clock)
    decreases |moves|
  {
    if moves != [] {
      var m, rest := moves[0], moves[1..];
      var e := Do(s, st, m);
      var from' := LooseStep(s, st, m, base0, from, used);
      if Starts(s, st, m) {
        var n := e.running.value;
        StartedRunsOn(s, e, rest, base0, from', n);
        RepeatsIffStale(s, st, base0, from, used);
        NextOfIsNext(s, st.seen.value.0);
        ClockGoesOn(s, e, rest);
        RunsOnFirst(n, Started(s, e, rest), s, base0, used, DoAll(s, e, rest).clock);
      } else {
        StartedRunsOn(s, e, rest, base0, from', used);
        assert Started(s, st, moves) == Started(s, e, rest);
      }
    }
  }

  lemma {:induction false} StartedCount(s: Schedule, st: State, moves: seq<Move>, base0: int, from: int, used: int)
    requires Valid(s) && Loose(s, st, base0, from, used)
    ensures var q := Started(s, st, moves);
            && |q| + st.starts == DoAll(s, st, moves).starts
            && |Distinct(q) - {used}| + StaleStarts(s, st, moves, used) == |q|
    decreases |moves|
  {
    if moves != [] {
      var m, rest := moves[0], moves[1..];
      var e := Do(s, st, m);
      var from' := LooseStep(s, st, m, base0, from, used);
      if Starts(s, st, m) {
        var n := e.running.value;
        StartedCount(s, e, rest, base0, from', n);
        StartedRunsOn(s, e, rest, base0, from', n);
        RepeatsIffStale(s, st, base0, from, used);
        OneMore(n, Started(s, e, rest), used);
      } else {
        StartedCount(s, e, rest, base0, from', used);
        assert Started(s, st, moves) == Started(s, e, rest);
      }
    }
  }

  /** One more start in front of others not before it. */
  lemma OneMore(n: int, q: seq<int>, used: int)
    requires used <= n && forall x :: x in q ==> n <= x
    ensures |Distinct([n] + q) - {used}| == |Distinct(q) - {n}| + if n > used then 1 else 0
  {
    if n > used {
      assert Distinct([n] + q) - {used} == (Distinct(q) - {n}) + {n};
    } else {
      assert Distinct([n] + q) - {used} == Distinct(q) - {n};
    }
  }

  /** Over every sequence of ticks, delays, manual runs and results, stored or lost: the instants started for never go
      back, every one is an instant since the base, and of all starts exactly the stale ones repeat an instant. So
      each instant is started for at most once if and only if no start is stale, and the starts beyond the number of
      instants are at most the stale ones. */
  lemma RepeatsAreStaleStarts(s: Schedule, base: int, clock: int, moves: seq<Move>)
    requires Valid(s) && base <= clock && base % SECOND_NS == 0
    ensures var st, q := Fresh(base, clock), Started(s, Fresh(base, clock), moves);
            var e, stale := DoAll(s, st, moves), StaleStarts(s, st, moves, base);
            && |q| == e.starts
            && (forall i, k :: 0 <= i < k < |q| ==> q[i] <= q[k])
            && Distinct(q) <= Instants(s, base, e.clock)
            && |Distinct(q)| + stale == e.starts
            && e.starts <= |Instants(s, base, e.clock)| + stale
            && (stale == 0 <==> forall i, k :: 0 <= i < k < |q| ==> q[i] < q[k])
  {
    var st, q := Fresh(base, clock), Started(s, Fresh(base, clock), moves);
    StartedCount(s, st, moves, base, base, base);
    StartedRunsOn(s, st, moves, base, base, base);
    var d := Distinct(q);
    assert d - {base} == d;
    assert d <= Instants(s, base, DoAll(s, st, moves).clock);
    SubsetSize(d, Instants(s, base, DoAll(s, st, moves).clock));
    AscendingIffDistinct(q);
  }

  lemma {:induction false} AscendingIffDistinct(q: seq<int>)
    requires forall i, k :: 0 <= i < k < |q| ==> q[i] <= q[k]
    ensures |Distinct(q)| <= |q|
    ensures |Distinct(q)| == |q| <==> forall i, k :: 0 <= i < k < |q| ==> q[i] < q[k]
    decreases |q|
  {
    if q != [] {
      var n := |q| - 1;
      var front, x := q[..n], q[n];
      assert q == front + [x];
      AscendingIffDistinct(front);
      DistinctNext(front, x);
      if x in front {
        var i :| 0 <= i < n && front[i] == x;
        assert q[i] == q[n];
      } else {
        forall i | 0 <= i < n ensures q[i] < x { assert front[i] in front; }
      }
    }
  }

  lemma DistinctNext(front: seq<int>, x: int)
    ensures |Distinct(front + [x])| == |Distinct(front)| + if x in front then 0 else 1
  {
    assert Distinct(front + [x]) == Distinct(front) + {x};
  }

  // ---------- the scheduler's tick ----------

  /** The scheduler's tick runs its jobs itself, so it never looks while a run of its own is in progress. The store
      takes the results of its runs. */
  ghost predicate Sequential(s: Schedule, st: State, moves: seq<Move>)
    decreases |moves|
  {
    moves != [] ==>
      && (moves[0].Look? ==> st.running.None?)
      && (moves[0].Finish? ==> moves[0].stored)
      && Sequential(s, Do(s, st, moves[0]), moves[1..])
  }

  /** While no run is in progress, the last run stored is not before the instant last started. */
  ghost predicate UpToDate(st: State, used: int) {
    && (st.running.None? ==> used <= st.base)
    && (st.running.Some? ==> st.seen.None?)
    && (st.seen.Some? ==> used <= st.seen.value.0)
  }

  lemma {:induction false} NeverStale(s: Schedule, st: State, moves: seq<Move>, base0: int, from: int, used: int)
    requires Valid(s) && Loose(s, st, base0, from, used) && UpToDate(st, used) && used % SECOND_NS == 0
    requires Sequential(s, st, moves)
    ensures StaleStarts(s, st, moves, used) == 0
    decreases |moves|
  {
    if moves != [] {
      var m := moves[0];
      var e := Do(s, st, m);
      var from' := LooseStep(s, st, m, base0, from, used);
      if Starts(s, st, m) {
        NextOfIsNext(s, st.seen.value.0);
        WholeMinute(e.running.value);
        NeverStale(s, e, moves[1..], base0, from', e.running.value);
      } else {
        StaysUpToDate(s, st, m, used);
        NeverStale(s, e, moves[1..], base0, from', used);
      }
    }
  }

  lemma StaysUpToDate(s: Schedule, st: State, m: Move, used: int)
    requires UpToDate(st, used) && used <= st.clock && used % SECOND_NS == 0 && !Starts(s, st, m)
    requires (m.Look? ==> st.running.None?) && (m.Finish? ==> m.stored)
    ensures UpToDate(Do(s, st, m), used)
  {
    if Possible(st, m) && (m.Finish? || m.Manual?) { ToSecondFacts(m.at, used); }
  }

  /** However ticks, manual runs and delays fall, the scheduler never starts a job more often than its schedule
      has named instants since the job's base, and never twice for one, although the last run is stored without its
      fraction. */
  lemma StartsWithinInstants(s: Schedule, base: int, clock: int, moves: seq<Move>)
    requires Valid(s) && base <= clock && base % SECOND_NS == 0 && Sequential(s, Fresh(base, clock), moves)
    ensures var e, q := DoAll(s, Fresh(base, clock), moves), Started(s, Fresh(base, clock), moves);
            && e.starts <= |Instants(s, base, e.clock)|
            && forall i, k :: 0 <= i < k < |q| ==> q[i] < q[k]
  {
    RepeatsAreStaleStarts(s, base, clock, moves);
    NeverStale(s, Fresh(base, clock), moves, base, base, base);
  }

  // ---------- how a start becomes stale ----------

  lemma Unroll(s: Schedule, st: State, moves: seq<Move>)
    requires moves != []
    ensures DoAll(s, st, moves) == DoAll(s, Do(s, st, moves[0]), moves[1..])
  {
  }

  lemma OnlyInstant(at: int)
    requires 60 * MINUTE_NS <= at < 120 * MINUTE_NS
    ensures NextOf(Hourly(0), 0) == 60 * MINUTE_NS && Instants(Hourly(0), 0, at) == {60 * MINUTE_NS}
  {
    var t := 60 * MINUTE_NS;
    assert t in Instants(Hourly(0), 0, at);
    forall c | c in Instants(Hourly(0), 0, at) ensures c == t {
      assert c / MINUTE_NS % 60 == 0;
    }
  }

  /** Replication's tick starts its runs in the background, so it can look while one is in progress and take
      the slot just after it ends: two runs for one instant. */
  lemma LookingDuringARunRepeatsAnInstant()
    ensures var s, t := Hourly(0), 60 * MINUTE_NS;
            var t' := t + 30 * SECOND_NS;
            var e := DoAll(s, Fresh(0, 0), [Look(t), Begin, Look(t'), Finish(t', true), Begin]);
            e.starts == 2 && Instants(s, 0, e.clock) == {t}
  {
    var s, t := Hourly(0), 60 * MINUTE_NS;
    var t' := t + 30 * SECOND_NS;
    OnlyInstant(t');
    var s0 := Fresh(0, 0);
    var s1 := Do(s, s0, Look(t));
    var s2 := Do(s, s1, Begin);
    var s3 := Do(s, s2, Look(t'));
    var s4 := Do(s, s3, Finish(t', true));
    Unroll(s, s0, [Look(t), Begin, Look(t'), Finish(t', true), Begin]);
    Unroll(s, s1, [Begin, Look(t'), Finish(t', true), Begin]);
    Unroll(s, s2, [Look(t'), Finish(t', true), Begin]);
    Unroll(s, s3, [Finish(t', true), Begin]);
    Unroll(s, s4, [Begin]);
  }

  /** A result that the store refused makes either tick start the instant again. */
  lemma LostResultRepeatsAnInstant()
    ensures var s, t := Hourly(0), 60 * MINUTE_NS;
            var t' := t + 30 * SECOND_NS;
            var e := DoAll(s, Fresh(0, 0), [Look(t), Begin, Finish(t, false), Look(t'), Begin]);
            e.starts == 2 && Instants(s, 0, e.clock) == {t}
  {
    var s, t := Hourly(0), 60 * MINUTE_NS;
    var t' := t + 30 * SECOND_NS;
    OnlyInstant(t');
    var s0 := Fresh(0, 0);
    var s1 := Do(s, s0, Look(t));
    var s2 := Do(s, s1, Begin);
    var s3 := Do(s, s2, Finish(t, false));
    var s4 := Do(s, s3, Look(t'));
    Unroll(s, s0, [Look(t), Begin, Finish(t, false), Look(t'), Begin]);
    Unroll(s, s1, [Begin, Finish(t, false), Look(t'), Begin]);
    Unroll(s, s2, [Finish(t, false), Look(t'), Begin]);
    Unroll(s, s3, [Look(t'), Begin]);
    Unroll(s, s4, [Begin]);
  }
}
