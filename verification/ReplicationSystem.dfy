/** All jobs at once: ticks and requests read job copies, take slots, and run their commands in any
    interleaving (internal/replication/runner.go, `RunNow`, `check`, `TryAcquire`, `Release`, `execute`).
    Jobs have distinct sources and destinations, so each has a `Pair` of its own. */
module ReplicationSystem {
  import opened Options
  import opened Zfs
  import opened ReplicationRun
  import opened ReplicationJob

  type JobId = nat
  type Tid = nat

  /** A goroutine that took the slot: the copy it was started with and where it stands. */
  datatype Live = Live(job: JobId, copy: Row, phase: Phase, marked: bool)

  /** A goroutine that has read a job and not yet asked for the slot. */
  datatype Pending = Pending(job: JobId, copy: Row)

  /** `unsaved` are the jobs whose last `MarkRun` failed in the store. */
  datatype System = System(rows: map<JobId, Row>, pairs: map<JobId, Pair>, waiting: map<Tid, Pending>,
                           live: map<Tid, Live>, inFlight: set<JobId>, unsaved: set<JobId>, clock: nat)

  datatype Action =
    | Advance(seconds: nat)
    | Edit(job: JobId, forceFull: bool)
    | Read(tid: Tid, job: JobId)
    | Acquire(tid: Tid)
    | Command(tid: Tid, fate: Fate)
    | Mark(tid: Tid, stored: bool)
    | Release(tid: Tid)

  predicate Enabled(s: System, a: Action) {
    match a
    case Advance(_) => true
    case Edit(j, _) => j in s.rows
    case Read(t, j) => j in s.rows && t !in s.waiting && t !in s.live
    case Acquire(t) => t in s.waiting
    case Command(t, _) => t in s.live && s.live[t].job in s.pairs && !s.live[t].phase.Ended?
    case Mark(t, _) => t in s.live && s.live[t].job in s.rows && s.live[t].phase.Ended? && !s.live[t].marked
    case Release(t) => t in s.live && s.live[t].marked
  }

  /** One atomic action; an action that is not enabled changes nothing. */
  ghost function Perform(s: System, a: Action): System {
    if !Enabled(s, a) then s else
    match a
    case Advance(d) => s.(clock := s.clock + d)
    case Edit(j, ff) => s.(rows := s.rows[j := s.rows[j].(forceFull := ff)])
    case Read(t, j) => s.(waiting := s.waiting[t := Pending(j, s.rows[j])])
    case Acquire(t) =>
      var p := s.waiting[t];
      var s' := s.(waiting := s.waiting - {t});
      if p.job in s.inFlight then s'
      else s'.(inFlight := s.inFlight + {p.job}, live := s.live[t := Live(p.job, p.copy, Start, false)])
    case Command(t, f) =>
      var l := s.live[t];
      var (p', z') := Exec(l.copy, l.phase, s.pairs[l.job], f, s.clock);
      s.(live := s.live[t := l.(phase := p')], pairs := s.pairs[l.job := z'])
    case Mark(t, stored) =>
      var l := s.live[t];
      var r := l.phase.result;
      var row := s.rows[l.job];
      var row' := row.(last := if r.Some? then r else l.copy.last, lastOk := Some(r.Some?));
      s.(live := s.live[t := l.(marked := true)],
         rows := if stored then s.rows[l.job := row'] else s.rows,
         unsaved := if stored then s.unsaved - {l.job} else s.unsaved + {l.job})
    case Release(t) =>
      s.(inFlight := s.inFlight - {s.live[t].job}, live := s.live - {t})
  }

  ghost function After(s: System, acts: seq<Action>): System
    decreases |acts|
  {
    if acts == [] then s else After(Perform(s, acts[0]), acts[1..])
  }

  /** A daemon just started, over any state of the pools in which the jobs that say ok are in sync. */
  ghost predicate Init(s: System) {
    && s.rows.Keys == s.pairs.Keys
    && s.waiting == map[] && s.live == map[] && s.inFlight == {} && s.unsaved == {}
    && (forall j :: j in s.rows && s.rows[j].lastOk == Some(true) ==> Synced(s.rows[j], s.pairs[j]))
    && (forall j :: j in s.pairs ==> s.pairs[j].UpTo(s.clock))
  }

  // ---------- the invariant ----------

  ghost predicate Owned(s: System, j: JobId) {
    exists t :: t in s.live && s.live[t].job == j
  }

  /** The slots taken are those of the live executions, and no job has two. */
  ghost predicate SlotsExact(s: System) {
    && (forall t :: t in s.live ==> s.live[t].job in s.inFlight)
    && (forall j :: j in s.inFlight ==> Owned(s, j))
    && (forall t, u :: t in s.live && u in s.live && s.live[t].job == s.live[u].job ==> t == u)
  }

  ghost predicate WellFormed(s: System) {
    && s.rows.Keys == s.pairs.Keys
    && (forall t :: t in s.waiting ==> s.waiting[t].job in s.rows && t !in s.live)
    && (forall t :: t in s.live ==> s.live[t].job in s.rows)
    && (forall j :: j in s.pairs ==> s.pairs[j].UpTo(s.clock))
  }

  /** What holds of a live execution whose job has row `row` and pools `z`. */
  ghost predicate ExecutionSound(l: Live, row: Row, z: Pair, clock: nat, saved: bool) {
    && Sound(l.copy, l.phase, z, clock)
    && (l.marked ==> l.phase.Ended? && (saved ==> Recorded(row, l.phase.result)))
  }

  ghost predicate Recorded(row: Row, r: Option<nat>) {
    row.lastOk == Some(r.Some?) && (r.Some? ==> row.last == r)
  }

  ghost predicate LiveSound(s: System)
    requires WellFormed(s)
  {
    forall t :: t in s.live ==>
      ExecutionSound(s.live[t], s.rows[s.live[t].job], s.pairs[s.live[t].job], s.clock, s.live[t].job !in s.unsaved)
  }

  /** The promise about a job at rest. */
  ghost predicate RestSynced(s: System)
    requires WellFormed(s)
  {
    forall j :: j in s.rows && j !in s.inFlight && j !in s.unsaved && s.rows[j].lastOk == Some(true) ==>
      Synced(s.rows[j], s.pairs[j])
  }

  ghost predicate Inv(s: System) {
    WellFormed(s) && SlotsExact(s) && LiveSound(s) && RestSynced(s)
  }

  lemma InitInv(s: System)
    requires Init(s)
    ensures Inv(s)
  {
  }

  lemma PerformKeepsKeys(s: System, a: Action)
    requires Inv(s)
    ensures var e := Perform(s, a); e.rows.Keys == s.rows.Keys && e.pairs.Keys == s.pairs.Keys && s.clock <= e.clock
  {
  }

  lemma PerformPair(s: System, a: Action, j: JobId)
    requires Inv(s) && j in s.pairs
    ensures var e := Perform(s, a); j in e.pairs && e.pairs[j].UpTo(e.clock)
  {
    if a.Command? && Enabled(s, a) {
      var l := s.live[a.tid];
      ExecSound(l.copy, l.phase, s.pairs[l.job], a.fate, s.clock);
    }
  }

  lemma PerformThreads(s: System, a: Action)
    requires Inv(s)
    ensures var e := Perform(s, a);
            && (forall t :: t in e.waiting ==> e.waiting[t].job in s.rows && t !in e.live)
            && (forall t :: t in e.live ==> e.live[t].job in s.rows)
  {
  }

  lemma PerformWellFormed(s: System, a: Action)
    requires Inv(s)
    ensures WellFormed(Perform(s, a))
  {
    var e := Perform(s, a);
    PerformKeepsKeys(s, a);
    PerformThreads(s, a);
    forall j | j in e.pairs ensures e.pairs[j].UpTo(e.clock) { PerformPair(s, a, j); }
  }

  lemma PerformSlots(s: System, a: Action)
    requires Inv(s)
    ensures SlotsExact(Perform(s, a))
  {
    match a
    case Acquire(t) => AcquireSlots(s, t);
    case Release(t) => ReleaseSlots(s, t);
    case _ => OtherSlots(s, a);
  }

  lemma AcquireSlots(s: System, t: Tid)
    requires Inv(s)
    ensures SlotsExact(Perform(s, Acquire(t)))
  {
    var e := Perform(s, Acquire(t));
    if Enabled(s, Acquire(t)) && s.waiting[t].job !in s.inFlight {
      TakeSlot(s, e, t, s.waiting[t].job);
    } else {
      SameSlots(s, e);
    }
  }

  lemma ReleaseSlots(s: System, t: Tid)
    requires Inv(s)
    ensures SlotsExact(Perform(s, Release(t)))
  {
    if Enabled(s, Release(t)) { GiveSlot(s, Perform(s, Release(t)), t); }
  }

  lemma SlotsUntouched(s: System, a: Action)
    requires Inv(s) && !a.Acquire? && !a.Release?
    ensures var e := Perform(s, a);
            && e.inFlight == s.inFlight && e.live.Keys == s.live.Keys
            && forall t :: t in s.live ==> e.live[t].job == s.live[t].job
  {
  }

  lemma OtherSlots(s: System, a: Action)
    requires Inv(s) && !a.Acquire? && !a.Release?
    ensures SlotsExact(Perform(s, a))
  {
    SlotsUntouched(s, a);
    SameSlots(s, Perform(s, a));
  }

  lemma SameSlots(s: System, e: System)
    requires SlotsExact(s) && e.inFlight == s.inFlight && e.live.Keys == s.live.Keys
    requires forall t :: t in s.live ==> e.live[t].job == s.live[t].job
    ensures SlotsExact(e)
  {
    forall j | j in e.inFlight ensures Owned(e, j) {
      assert Owned(s, j);
      var u :| u in s.live && s.live[u].job == j;
      assert u in e.live && e.live[u].job == j;
    }
  }

  lemma TakeSlot(s: System, e: System, t: Tid, j: JobId)
    requires SlotsExact(s) && t !in s.live && j !in s.inFlight
    requires e.inFlight == s.inFlight + {j} && e.live.Keys == s.live.Keys + {t} && e.live[t].job == j
    requires forall u :: u in s.live ==> e.live[u] == s.live[u]
    ensures SlotsExact(e)
  {
    assert Owned(e, j);
    forall k | k in s.inFlight ensures Owned(e, k) {
      assert Owned(s, k);
      var u :| u in s.live && s.live[u].job == k;
      assert u in e.live && e.live[u].job == k;
    }
  }

  lemma GiveSlot(s: System, e: System, t: Tid)
    requires SlotsExact(s) && t in s.live
    requires e.inFlight == s.inFlight - {s.live[t].job} && e.live == s.live - {t}
    ensures SlotsExact(e)
  {
    forall k | k in e.inFlight ensures Owned(e, k) {
      assert Owned(s, k);
      var u :| u in s.live && s.live[u].job == k;
      assert u in e.live && e.live[u].job == k;
    }
  }

  /** A goroutine asks for the slot once: it goes on with its copy if the slot is free, and is gone if it is not. */
  lemma AsksOnce(s: System, t: Tid)
    requires Inv(s) && t in s.waiting
    ensures var e, p := Perform(s, Acquire(t)), s.waiting[t];
            && t !in e.waiting
            && (forall u :: u in s.waiting && u != t ==> u in e.waiting && e.waiting[u] == s.waiting[u])
            && (t in e.live <==> p.job !in s.inFlight)
            && (t in e.live ==> e.live[t] == Live(p.job, p.copy, Start, false) && e.inFlight == s.inFlight + {p.job})
            && (t !in e.live ==> e.live == s.live && e.inFlight == s.inFlight)
            && e.rows == s.rows && e.pairs == s.pairs
  {
  }

  /** What a goroutine reads is the job's row as it is then. */
  lemma ReadsCurrent(s: System, t: Tid, j: JobId)
    requires Enabled(s, Read(t, j))
    ensures var e := Perform(s, Read(t, j)); t in e.waiting && e.waiting[t] == Pending(j, s.rows[j])
  {
  }

  /** An edit sets the job's `force_full` as asked, in its row only, and nothing else. */
  lemma EditsRow(s: System, j: JobId, forceFull: bool)
    requires j in s.rows
    ensures Perform(s, Edit(j, forceFull)) == s.(rows := s.rows[j := s.rows[j].(forceFull := forceFull)])
  {
  }

  ghost predicate ByAnother(a: Action, t: Tid) {
    match a
    case Command(u, _) => u != t
    case Mark(u, _) => u != t
    case Release(u) => u != t
    case _ => true
  }

  /** No action of another goroutine reaches a live execution, nor its pools, */
  lemma Undisturbed(s: System, a: Action, t: Tid)
    requires Inv(s) && t in s.live && ByAnother(a, t)
    ensures var e := Perform(s, a);
            && t in e.live && e.live[t] == s.live[t]
            && s.live[t].job in e.pairs && e.pairs[s.live[t].job] == s.pairs[s.live[t].job]
  {
  }

  /** nor what `MarkRun` writes in its row. */
  lemma RowUndisturbed(s: System, a: Action, t: Tid)
    requires Inv(s) && t in s.live && ByAnother(a, t)
    ensures var e, j := Perform(s, a), s.live[t].job;
            && j in e.rows && e.rows[j].last == s.rows[j].last && e.rows[j].lastOk == s.rows[j].lastOk
            && (j in s.unsaved <==> j in e.unsaved) && s.clock <= e.clock
  {
  }

  lemma PerformLive(s: System, a: Action)
    requires Inv(s) && WellFormed(Perform(s, a))
    ensures LiveSound(Perform(s, a))
  {
    var e := Perform(s, a);
    forall t | t in e.live
      ensures ExecutionSound(e.live[t], e.rows[e.live[t].job], e.pairs[e.live[t].job], e.clock,
                             e.live[t].job !in e.unsaved)
    {
      PerformLiveOne(s, a, t);
    }
  }

  /** Execution `t` is in both states, at the same point, and its job's pools and result are the same. */
  ghost predicate SameExecution(s: System, e: System, t: Tid) {
    t in s.live && t in e.live && e.live[t] == s.live[t] && SameJob(s, e, s.live[t].job)
  }

  ghost predicate SameJob(s: System, e: System, j: JobId) {
    && j in s.pairs && j in e.pairs && e.pairs[j] == s.pairs[j]
    && j in s.rows && j in e.rows && e.rows[j].last == s.rows[j].last && e.rows[j].lastOk == s.rows[j].lastOk
    && (j in s.unsaved <==> j in e.unsaved)
  }

  /** What held of an execution still holds when neither it, its row nor its pools changed. */
  lemma StillSound(s: System, e: System, t: Tid)
    requires WellFormed(s) && WellFormed(e) && LiveSound(s)
    requires SameExecution(s, e, t) && s.clock <= e.clock
    ensures ExecutionSound(e.live[t], e.rows[e.live[t].job], e.pairs[e.live[t].job], e.clock,
                           e.live[t].job !in e.unsaved)
  {
  }

  lemma PerformLiveOne(s: System, a: Action, t: Tid)
    requires Inv(s) && WellFormed(Perform(s, a)) && t in Perform(s, a).live
    ensures var e := Perform(s, a);
            ExecutionSound(e.live[t], e.rows[e.live[t].job], e.pairs[e.live[t].job], e.clock,
                           e.live[t].job !in e.unsaved)
  {
    var e := Perform(s, a);
    if t !in s.live {
      assert e.live[t].phase.Start? && !e.live[t].marked;
    } else if ByAnother(a, t) {
      Undisturbed(s, a, t);
      RowUndisturbed(s, a, t);
      StillSound(s, e, t);
    } else if a.Command? && Enabled(s, a) {
      var l := s.live[t];
      ExecSound(l.copy, l.phase, s.pairs[l.job], a.fate, s.clock);
    }
  }

  /** No action but an edit reaches a job at rest, and an edit leaves its result alone. */
  lemma IdleUndisturbed(s: System, a: Action, j: JobId)
    requires Inv(s) && j in s.rows && j !in s.inFlight
    ensures SameJob(s, Perform(s, a), j)
  {
    match a
    case Command(t, _) => if t in s.live { assert s.live[t].job != j; }
    case Mark(t, _) => if t in s.live { assert s.live[t].job != j; }
    case _ =>
  }

  lemma ReleaseRest(s: System, t: Tid)
    requires Inv(s) && Enabled(s, Release(t))
    ensures var e, j := Perform(s, Release(t)), s.live[t].job;
            && j in e.rows && j in e.pairs
            && (j !in e.unsaved && e.rows[j].lastOk == Some(true) ==> Synced(e.rows[j], e.pairs[j]))
  {
    var l := s.live[t];
    assert ExecutionSound(l, s.rows[l.job], s.pairs[l.job], s.clock, l.job !in s.unsaved);
  }

  lemma PerformRest(s: System, a: Action)
    requires Inv(s) && WellFormed(Perform(s, a))
    ensures RestSynced(Perform(s, a))
  {
    var e := Perform(s, a);
    PerformKeepsKeys(s, a);
    forall j | j in e.rows && j !in e.inFlight && j !in e.unsaved && e.rows[j].lastOk == Some(true)
      ensures Synced(e.rows[j], e.pairs[j])
    {
      if j !in s.inFlight {
        IdleUndisturbed(s, a, j);
      } else {
        assert a.Release? && Enabled(s, a) && s.live[a.tid].job == j;
        ReleaseRest(s, a.tid);
      }
    }
  }

  lemma PerformInv(s: System, a: Action)
    requires Inv(s)
    ensures Inv(Perform(s, a))
  {
    PerformWellFormed(s, a);
    PerformSlots(s, a);
    PerformLive(s, a);
    PerformRest(s, a);
  }

  lemma {:induction false} AfterInv(s: System, acts: seq<Action>)
    requires Inv(s)
    ensures Inv(After(s, acts))
    decreases |acts|
  {
    if acts != [] {
      PerformInv(s, acts[0]);
      AfterInv(Perform(s, acts[0]), acts[1..]);
    }
  }

  // ---------- the promises ----------

  /** Over every interleaving and every pattern of failures: a job at rest whose last recorded result is ok is
      in sync, its bookmark, destination and source agreeing on `last_bookmark`. */
  lemma RestingJobsAreInSync(s: System, acts: seq<Action>, j: JobId)
    requires Init(s)
    ensures var e := After(s, acts);
            j in e.rows && j !in e.inFlight && j !in e.unsaved && e.rows[j].lastOk == Some(true) ==>
              && j in e.pairs && e.rows[j].last.Some? && e.pairs[j].mark == e.rows[j].last
              && e.pairs[j].Newest() == e.rows[j].last && Repl(e.rows[j].last.value) in e.pairs[j].snaps
  {
    InitInv(s);
    AfterInv(s, acts);
  }

  /** Over every interleaving: slots are exactly the jobs with a live execution, and no job has two. */
  lemma OneExecutionPerJob(s: System, acts: seq<Action>, t: Tid, u: Tid)
    requires Init(s)
    ensures var e := After(s, acts);
            && e.inFlight == (set v | v in e.live :: e.live[v].job)
            && (t in e.live && u in e.live && e.live[t].job == e.live[u].job ==> t == u)
  {
    InitInv(s);
    AfterInv(s, acts);
  }

  /** How often job `j`'s slot is taken, and given back, along a run. */
  ghost function Acquired(s: System, acts: seq<Action>, j: JobId): nat
    decreases |acts|
  {
    if acts == [] then 0 else
      (if acts[0].Acquire? && j !in s.inFlight && j in Perform(s, acts[0]).inFlight then 1 else 0)
      + Acquired(Perform(s, acts[0]), acts[1..], j)
  }

  ghost function Released(s: System, acts: seq<Action>, j: JobId): nat
    decreases |acts|
  {
    if acts == [] then 0 else
      (if acts[0].Release? && Enabled(s, acts[0]) && s.live[acts[0].tid].job == j then 1 else 0)
      + Released(Perform(s, acts[0]), acts[1..], j)
  }

  ghost function Held(s: System, j: JobId): nat { if j in s.inFlight then 1 else 0 }

  lemma StepBalances(s: System, a: Action, j: JobId)
    requires Inv(s)
    ensures Held(s, j) + (if a.Acquire? && j !in s.inFlight && j in Perform(s, a).inFlight then 1 else 0)
         == (if a.Release? && Enabled(s, a) && s.live[a.tid].job == j then 1 else 0) + Held(Perform(s, a), j)
  {
  }

  /** Every slot taken is given back exactly once: what is taken is what is returned plus what is held. */
  lemma {:induction false} SlotsBalance(s: System, acts: seq<Action>, j: JobId)
    requires Inv(s)
    ensures Held(s, j) + Acquired(s, acts, j) == Released(s, acts, j) + Held(After(s, acts), j)
    decreases |acts|
  {
    if acts != [] {
      var e := Perform(s, acts[0]);
      PerformInv(s, acts[0]);
      StepBalances(s, acts[0], j);
      SlotsBalance(e, acts[1..], j);
    }
  }

  /** The commands of `t` among the actions end as `o` says. */
  ghost predicate Follows(s: System, acts: seq<Action>, t: Tid, o: Fates)
    decreases |acts|
  {
    acts != [] ==>
      && (acts[0].Command? && acts[0].tid == t && t in s.live ==> acts[0].fate == FateOf(o, s.live[t].phase))
      && Follows(Perform(s, acts[0]), acts[1..], t, o)
  }

  ghost predicate KeepsRunning(acts: seq<Action>, t: Tid) {
    forall a :: a in acts ==> (a.Mark? || a.Release?) ==> a.tid != t
  }

  /** Refinement: however the commands of an execution interleave with everything else, from its snapshot on it
      heads for the outcome of running alone. */
  lemma {:induction false} InterleavedRunIsAtomic(s: System, acts: seq<Action>, t: Tid, o: Fates, now: nat)
    requires Inv(s) && t in s.live && !s.live[t].phase.Start?
    requires Follows(s, acts, t, o) && KeepsRunning(acts, t)
    ensures var e := After(s, acts);
            && t in e.live && e.live[t].job == s.live[t].job && e.live[t].copy == s.live[t].copy
            && e.live[t].job in e.pairs
            && Complete(e.live[t].copy, e.live[t].phase, e.pairs[e.live[t].job], o, now)
               == Complete(s.live[t].copy, s.live[t].phase, s.pairs[s.live[t].job], o, now)
    decreases |acts|
  {
    if acts != [] {
      var a, l := acts[0], s.live[t];
      var e := Perform(s, a);
      PerformInv(s, a);
      assert a in acts;
      assert forall b :: b in acts[1..] ==> b in acts;
      if a.Command? && a.tid == t {
        if Enabled(s, a) {
          ClockUnused(l.copy, l.phase, s.pairs[l.job], a.fate, s.clock, now);
        }
      } else {
        Undisturbed(s, a, t);
      }
      InterleavedRunIsAtomic(e, acts[1..], t, o, now);
    }
  }

  /** Only the snapshot looks at the clock. */
  lemma ClockUnused(c: Row, p: Phase, z: Pair, f: Fate, now: nat, then': nat)
    requires !p.Start?
    ensures Exec(c, p, z, f, now) == Exec(c, p, z, f, then')
    ensures !Exec(c, p, z, f, now).0.Start?
  {
  }

  /** Exact recovery among all the other jobs: an execution whose commands do not fail of themselves ends, whatever
      else goes on before, between and after them, with its job in sync exactly when its copy was recoverable. */
  lemma {:induction false} RecoveryExactInSystem(s: System, acts: seq<Action>, t: Tid)
    requires Inv(s) && t in s.live && s.live[t].phase.Start? && s.live[t].copy.valid
    requires s.pairs[s.live[t].job].Before(s.clock)
    requires Follows(s, acts, t, ALL_WORK) && KeepsRunning(acts, t)
    ensures EndsInSyncIff(After(s, acts), t, s.live[t].job, Recoverable(s.live[t].copy, s.pairs[s.live[t].job]))
    decreases |acts|
  {
    if acts != [] {
      var a, e := acts[0], Perform(s, acts[0]);
      PerformInv(s, a);
      assert a in acts;
      assert forall b :: b in acts[1..] ==> b in acts;
      if a.Command? && a.tid == t {
        RecoveryFromSnapshot(s, acts, t);
      } else {
        Undisturbed(s, a, t);
        PerformKeepsKeys(s, a);
        RecoveryExactInSystem(e, acts[1..], t);
      }
    }
  }

  /** Execution `t` of job `j` is there, and once it has ended, recording its result leaves `j` in sync if and only
      if `good`. */
  ghost predicate EndsInSyncIff(e: System, t: Tid, j: JobId, good: bool) {
    && t in e.live && e.live[t].job == j
    && (e.live[t].phase.Ended? && !e.live[t].marked ==> (InSyncNow(Perform(e, Mark(t, true)), j) <==> good))
  }

  ghost predicate InSyncNow(s: System, j: JobId) {
    j in s.rows && j in s.pairs && Synced(s.rows[j], s.pairs[j])
  }

  lemma RecoveryFromSnapshot(s: System, acts: seq<Action>, t: Tid)
    requires Inv(s) && t in s.live && s.live[t].phase.Start? && s.live[t].copy.valid
    requires s.pairs[s.live[t].job].Before(s.clock)
    requires acts != [] && acts[0].Command? && acts[0].tid == t
    requires Follows(s, acts, t, ALL_WORK) && KeepsRunning(acts, t)
    ensures EndsInSyncIff(After(s, acts), t, s.live[t].job, Recoverable(s.live[t].copy, s.pairs[s.live[t].job]))
  {
    var l, z := s.live[t], s.pairs[s.live[t].job];
    assert acts[0] == Command(t, Works);
    var s1 := Perform(s, acts[0]);
    PerformInv(s, acts[0]);
    FirstCommand(s, t);
    assert forall b :: b in acts[1..] ==> b in acts;
    InterleavedRunIsAtomic(s1, acts[1..], t, ALL_WORK, s.clock);
    AfterInv(s1, acts[1..]);
    FinishedSynced(After(s, acts), t, l.copy, z, s.clock);
  }

  lemma FirstCommand(s: System, t: Tid)
    requires Inv(s) && t in s.live && s.live[t].phase.Start?
    ensures var e := Perform(s, Command(t, Works)); var l := s.live[t];
            && t in e.live && e.live[t].job == l.job && e.live[t].copy == l.copy && !e.live[t].phase.Start?
            && l.job in e.pairs
            && Complete(l.copy, Start, s.pairs[l.job], ALL_WORK, s.clock)
               == Complete(l.copy, e.live[t].phase, e.pairs[l.job], ALL_WORK, s.clock)
  {
  }

  lemma FinishedSynced(e: System, t: Tid, copy: Row, z: Pair, now: nat)
    requires Inv(e) && t in e.live && e.live[t].copy == copy && copy.valid && z.Before(now)
    requires Complete(copy, e.live[t].phase, e.pairs[e.live[t].job], ALL_WORK, now)
          == Complete(copy, Start, z, ALL_WORK, now)
    ensures EndsInSyncIff(e, t, e.live[t].job, Recoverable(copy, z))
  {
    RecoveryExact(copy, z, now);
    if e.live[t].phase.Ended? {
      assert Complete(copy, e.live[t].phase, e.pairs[e.live[t].job], ALL_WORK, now)
          == (e.live[t].phase.result, e.pairs[e.live[t].job]);
    }
  }

  // ---------- a destination nobody may destroy ----------

  /** `force_full` is off in job `j`, in every copy read of it and in every execution of it. */
  ghost predicate NeverForced(s: System, j: JobId) {
    && (j in s.rows ==> !s.rows[j].forceFull)
    && (forall t :: t in s.waiting && s.waiting[t].job == j ==> !s.waiting[t].copy.forceFull)
    && (forall t :: t in s.live && s.live[t].job == j ==> !s.live[t].copy.forceFull)
  }

  lemma PerformNeverForces(s: System, a: Action, j: JobId)
    requires Inv(s) && NeverForced(s, j) && a != Edit(j, true)
    ensures NeverForced(Perform(s, a), j)
  {
    RowsNotForced(s, a, j);
    WaitingNotForced(s, a, j);
    LiveNotForced(s, a, j);
  }

  lemma RowsNotForced(s: System, a: Action, j: JobId)
    requires Inv(s) && NeverForced(s, j) && a != Edit(j, true)
    ensures var e := Perform(s, a); j in e.rows ==> !e.rows[j].forceFull
  {
  }

  lemma WaitingNotForced(s: System, a: Action, j: JobId)
    requires Inv(s) && NeverForced(s, j)
    ensures var e := Perform(s, a); forall t :: t in e.waiting && e.waiting[t].job == j ==> !e.waiting[t].copy.forceFull
  {
  }

  lemma LiveNotForced(s: System, a: Action, j: JobId)
    requires Inv(s) && NeverForced(s, j)
    ensures var e := Perform(s, a); forall t :: t in e.live && e.live[t].job == j ==> !e.live[t].copy.forceFull
  {
  }

  lemma PerformKeepsHistory(s: System, a: Action, j: JobId)
    requires Inv(s) && j in s.pairs && NeverForced(s, j)
    ensures var e := Perform(s, a); j in e.pairs && s.pairs[j].History() <= e.pairs[j].History()
  {
    if a.Command? && Enabled(s, a) && s.live[a.tid].job == j {
      ExecKeepsHistory(s.live[a.tid].copy, s.live[a.tid].phase, s.pairs[j], a.fate, s.clock);
    } else {
      assert Perform(s, a).pairs[j] == s.pairs[j];
    }
  }

  /** While nobody switches `force_full` on, the destination's history only ever grows at its end. */
  lemma {:induction false} HistoryOnlyGrows(s: System, acts: seq<Action>, j: JobId)
    requires Inv(s) && j in s.pairs && NeverForced(s, j) && Edit(j, true) !in acts
    ensures var e := After(s, acts); j in e.pairs && s.pairs[j].History() <= e.pairs[j].History()
    decreases |acts|
  {
    if acts != [] {
      PerformInv(s, acts[0]);
      PerformNeverForces(s, acts[0], j);
      PerformKeepsHistory(s, acts[0], j);
      HistoryOnlyGrows(Perform(s, acts[0]), acts[1..], j);
    }
  }

  // ---------- stale copies ----------

  /** What a stale copy costs: the job is in sync and at rest, a goroutine that read it some time ago takes the slot,
      and nothing fails of itself. The job is in sync afterwards exactly when the copy has a `last_bookmark`. */
  lemma StaleRunKeepsSyncIff(s: System, acts: seq<Action>, t: Tid)
    requires Inv(s) && t in s.waiting && s.waiting[t].job !in s.inFlight && s.waiting[t].copy.valid
    requires InSyncNow(s, s.waiting[t].job) && s.pairs[s.waiting[t].job].Before(s.clock)
    requires Follows(Perform(s, Acquire(t)), acts, t, ALL_WORK) && KeepsRunning(acts, t)
    ensures EndsInSyncIff(After(Perform(s, Acquire(t)), acts), t, s.waiting[t].job, s.waiting[t].copy.last.Some?)
  {
    PerformInv(s, Acquire(t));
    RecoveryExactInSystem(Perform(s, Acquire(t)), acts, t);
  }

  /** Execution `t` of a copy without `last_bookmark` runs against a destination that exists: it can only fail. */
  ghost predicate SendsInVain(s: System, t: Tid) {
    && t in s.live && s.live[t].job in s.pairs && !s.live[t].marked
    && s.live[t].copy.last.None? && s.pairs[s.live[t].job].dest.Some?
    && (s.live[t].phase.Start? || s.live[t].phase.Send? || s.live[t].phase == Ended(None))
  }

  lemma {:induction false} StaysInVain(s: System, acts: seq<Action>, t: Tid)
    requires Inv(s) && SendsInVain(s, t) && KeepsRunning(acts, t)
    ensures SendsInVain(After(s, acts), t) && After(s, acts).live[t].job == s.live[t].job
    decreases |acts|
  {
    if acts != [] {
      var a, e := acts[0], Perform(s, acts[0]);
      assert a in acts;
      assert forall b :: b in acts[1..] ==> b in acts;
      PerformInv(s, a);
      if ByAnother(a, t) { Undisturbed(s, a, t); }
      StaysInVain(e, acts[1..], t);
    }
  }

  /** Without a `last_bookmark` in the copy the job is lost, however the commands end and whatever else happens: as
      soon as the result is recorded, no run of the job as it then stands can repair it. */
  lemma StaleEmptyCopyLocksOut(s: System, acts: seq<Action>, t: Tid)
    requires Inv(s) && t in s.waiting && s.waiting[t].job !in s.inFlight && s.waiting[t].copy.last.None?
    requires InSyncNow(s, s.waiting[t].job) && KeepsRunning(acts, t)
    ensures var e, j := After(Perform(s, Acquire(t)), acts), s.waiting[t].job;
            && t in e.live && e.live[t].job == j
            && (e.live[t].phase.Ended? ==> RowUnrecoverable(Perform(e, Mark(t, true)), j))
  {
    var s1, j := Perform(s, Acquire(t)), s.waiting[t].job;
    PerformInv(s, Acquire(t));
    StaysInVain(s1, acts, t);
    AfterInv(s1, acts);
  }

  ghost predicate RowUnrecoverable(s: System, j: JobId) {
    j in s.rows && j in s.pairs && !Recoverable(s.rows[j], s.pairs[j])
  }

  // ---------- lock-out ----------

  /** Running `c` could help a job that has this row and these pools: it repairs the job itself, or it fails and
      writes a `last_bookmark` from which the job can be repaired. */
  ghost predicate Helps(c: Row, row: Row, z: Pair) {
    (c.valid && Recoverable(c, z)) || Recoverable(row.(last := c.last), z)
  }

  /** A copy that is no more recoverable than the row may still help: read before `force_full` was switched on, it fails
      and writes the `last_bookmark` that a forced run needs. */
  lemma UnrecoverableCopyMayHelp()
    ensures var z := Pair({Repl(1)}, Some(1), Some([2]));
            var row, c := Row(true, true, None, Some(false)), Row(true, false, Some(1), Some(true));
            !Recoverable(row, z) && !Recoverable(c, z) && Helps(c, row, z)
  {
  }

  /** Neither the job's row nor any copy of it that still waits for the slot can help. */
  ghost predicate Hopeless(s: System, j: JobId) {
    && RowUnrecoverable(s, j)
    && forall t :: t in s.waiting && s.waiting[t].job == j ==> !Helps(s.waiting[t].copy, s.rows[j], s.pairs[j])
  }

  /** Execution `l` cannot help and has not got anywhere. */
  ghost predicate Doomed(l: Live, row: Row, z: Pair) {
    && !Helps(l.copy, row, z)
    && match l.phase
       case Start => true
       case Send(_) => !Recoverable(l.copy, z)
       case DestroyDest(_) => z.dest.None?
       case Ended(r) => r.None?
       case _ => false
  }

  ghost predicate LockedOut(s: System, j: JobId) {
    && Hopeless(s, j)
    && forall t :: t in s.live && s.live[t].job == j ==> Doomed(s.live[t], s.rows[j], s.pairs[j])
  }

  lemma DoomedCommand(c: Row, p: Phase, z: Pair, f: Fate, now: nat, row: Row)
    requires Doomed(Live(0, c, p, false), row, z)
    ensures var (p', z') := Exec(c, p, z, f, now);
            z'.dest == z.dest && z'.mark == z.mark && Doomed(Live(0, c, p', false), row, z')
  {
    match p
    case Send(s) => assert !CanSend(z, s, c.last.Some?);
    case _ =>
  }

  /** What no action can do to the row and pools of a job that is locked out. */
  lemma LockedRow(s: System, a: Action, j: JobId)
    requires Inv(s) && LockedOut(s, j) && a != Edit(j, true)
    ensures var e := Perform(s, a);
            && j in e.rows && j in e.pairs && e.pairs[j].dest == s.pairs[j].dest && e.pairs[j].mark == s.pairs[j].mark
            && !Recoverable(e.rows[j], e.pairs[j])
            && (e.rows[j].forceFull ==> s.rows[j].forceFull)
  {
    if a.Command? && Enabled(s, a) && s.live[a.tid].job == j {
      var l := s.live[a.tid];
      DoomedCommand(l.copy, l.phase, s.pairs[j], a.fate, s.clock, s.rows[j]);
    }
  }

  /** Less help than before. */
  lemma HelpsNoMore(c: Row, row: Row, z: Pair, row': Row, z': Pair)
    requires z'.dest == z.dest && z'.mark == z.mark && (row'.forceFull ==> row.forceFull)
    ensures Helps(c, row', z') ==> Helps(c, row, z)
  {
  }

  lemma LockedWaiting(s: System, a: Action, j: JobId, t: Tid)
    requires Inv(s) && LockedOut(s, j) && a != Edit(j, true)
    requires t in Perform(s, a).waiting && Perform(s, a).waiting[t].job == j
    ensures var e := Perform(s, a);
            j in e.rows && j in e.pairs && !Helps(e.waiting[t].copy, e.rows[j], e.pairs[j])
  {
    var e := Perform(s, a);
    LockedRow(s, a, j);
    var c := e.waiting[t].copy;
    assert c == s.rows[j] || (t in s.waiting && s.waiting[t] == e.waiting[t]);
    HelpsNoMore(c, s.rows[j], s.pairs[j], e.rows[j], e.pairs[j]);
  }

  lemma LockedLive(s: System, a: Action, j: JobId, t: Tid)
    requires Inv(s) && LockedOut(s, j) && a != Edit(j, true)
    requires t in Perform(s, a).live && Perform(s, a).live[t].job == j
    ensures var e := Perform(s, a);
            j in e.rows && j in e.pairs && Doomed(e.live[t], e.rows[j], e.pairs[j])
  {
    var e := Perform(s, a);
    LockedRow(s, a, j);
    LiveFrom(s, a, t);
    if t !in s.live {
      HelpsNoMore(e.live[t].copy, s.rows[j], s.pairs[j], e.rows[j], e.pairs[j]);
    } else if a.Command? && a.tid == t && Enabled(s, a) {
      var l := s.live[t];
      DoomedCommand(l.copy, l.phase, s.pairs[j], a.fate, s.clock, s.rows[j]);
    } else {
      DoomedNoLess(s.live[t], s.rows[j], s.pairs[j], e.live[t], e.rows[j], e.pairs[j]);
    }
  }

  lemma DoomedNoLess(l: Live, row: Row, z: Pair, l': Live, row': Row, z': Pair)
    requires Doomed(l, row, z) && l'.copy == l.copy && l'.phase == l.phase
    requires z'.dest == z.dest && z'.mark == z.mark && (row'.forceFull ==> row.forceFull)
    ensures Doomed(l', row', z')
  {
    HelpsNoMore(l.copy, row, z, row', z');
  }

  /** Where a live execution comes from. */
  lemma LiveFrom(s: System, a: Action, t: Tid)
    requires Inv(s) && t in Perform(s, a).live
    ensures var l := Perform(s, a).live[t];
            if t in s.live then
              l.job == s.live[t].job && l.copy == s.live[t].copy
              && ((a.Command? && a.tid == t && Enabled(s, a)) || l.phase == s.live[t].phase)
            else t in s.waiting && l == Live(s.waiting[t].job, s.waiting[t].copy, Start, false)
  {
  }

  lemma StaysLockedOut(s: System, a: Action, j: JobId)
    requires Inv(s) && LockedOut(s, j) && a != Edit(j, true)
    ensures LockedOut(Perform(s, a), j)
  {
    var e := Perform(s, a);
    LockedRow(s, a, j);
    forall t | t in e.waiting && e.waiting[t].job == j ensures !Helps(e.waiting[t].copy, e.rows[j], e.pairs[j]) {
      LockedWaiting(s, a, j, t);
    }
    forall t | t in e.live && e.live[t].job == j ensures Doomed(e.live[t], e.rows[j], e.pairs[j]) {
      LockedLive(s, a, j, t);
    }
  }

  /** A job that is locked out never comes back into sync, whatever happens, unless `force_full` is switched on. */
  lemma {:induction false} LockedOutForGood(s: System, acts: seq<Action>, j: JobId)
    requires Inv(s) && LockedOut(s, j) && Edit(j, true) !in acts
    ensures !InSyncNow(After(s, acts), j)
    decreases |acts|
  {
    if acts != [] {
      PerformInv(s, acts[0]);
      StaysLockedOut(s, acts[0], j);
      LockedOutForGood(Perform(s, acts[0]), acts[1..], j);
    }
  }

  ghost predicate NoEdits(acts: seq<Action>) {
    forall a :: a in acts ==> !a.Edit?
  }

  lemma {:induction false} AfterConcat(s: System, a: seq<Action>, b: seq<Action>)
    ensures After(s, a + b) == After(After(s, a), b)
    decreases |a|
  {
    if a == [] {
      assert a + b == b;
    } else {
      assert (a + b)[1..] == a[1..] + b;
      AfterConcat(Perform(s, a[0]), a[1..], b);
    }
  }

  /** From `s` to `e` execution `t` ran to its end, nothing failing of itself, and nothing else happened. */
  ghost predicate RanAlone(s: System, e: System, t: Tid)
    requires Inv(s) && t in s.live
  {
    var l := s.live[t];
    && e.rows == s.rows && t in e.live && l.job in e.pairs
    && e.live[t] == l.(phase := e.live[t].phase) && e.live[t].phase.Ended?
    && Complete(l.copy, l.phase, s.pairs[l.job], ALL_WORK, s.clock) == (e.live[t].phase.result, e.pairs[l.job])
  }

  /** From `e` to `f` the result of `t` was recorded and its slot given back. */
  ghost predicate GaveBack(e: System, f: System, t: Tid)
    requires t in e.live && e.live[t].phase.Ended?
  {
    var l := e.live[t];
    && f.pairs == e.pairs && l.job !in f.inFlight && l.job in f.rows && l.job in e.rows
    && f.rows[l.job] == Marked(e.rows[l.job], l.copy, l.phase.result)
  }

  /** The rest of an execution alone, nothing failing of itself. */
  lemma {:induction false} RunToEnd(s: System, t: Tid) returns (acts: seq<Action>)
    requires Inv(s) && t in s.live
    ensures NoEdits(acts)
    ensures Inv(After(s, acts)) && RanAlone(s, After(s, acts), t)
    decreases s.live[t].phase.Rank(), s.live[t].phase.Todo()
  {
    var l := s.live[t];
    if l.phase.Ended? {
      acts := [];
    } else {
      var a := Command(t, FateOf(ALL_WORK, l.phase));
      PerformInv(s, a);
      ExecProgress(l.copy, l.phase, s.pairs[l.job], a.fate, s.clock);
      acts := RunToEnd(Perform(s, a), t);
      assert ([a] + acts)[1..] == acts;
      acts := [a] + acts;
    }
  }

  lemma TakeFreeSlot(s: System, t: Tid)
    requires Inv(s) && t in s.waiting && s.waiting[t].job !in s.inFlight
    ensures var e, p := After(s, [Advance(1), Acquire(t)]), s.waiting[t];
            && Inv(e) && e.rows == s.rows && e.pairs == s.pairs && e.clock == s.clock + 1
            && t in e.live && e.live[t] == Live(p.job, p.copy, Start, false)
  {
    var s1 := Perform(s, Advance(1));
    PerformInv(s, Advance(1));
    assert s1 == s.(clock := s.clock + 1);
    PerformInv(s1, Acquire(t));
    Take(s1, t);
    AfterTwo(s, Advance(1), Acquire(t));
  }

  lemma Take(s: System, t: Tid)
    requires t in s.waiting && s.waiting[t].job !in s.inFlight
    ensures var e, p := Perform(s, Acquire(t)), s.waiting[t];
            && e.rows == s.rows && e.pairs == s.pairs && e.clock == s.clock
            && t in e.live && e.live[t] == Live(p.job, p.copy, Start, false)
  {
  }

  lemma AfterTwo(s: System, a: Action, b: Action)
    ensures After(s, [a, b]) == Perform(Perform(s, a), b)
  {
    assert [a, b][1..] == [b];
    assert After(Perform(s, a), [b]) == After(Perform(Perform(s, a), b), []);
  }

  /** What `MarkRun` makes of a row. */
  ghost function Marked(row: Row, c: Row, r: Option<nat>): Row {
    row.(last := if r.Some? then r else c.last, lastOk := Some(r.Some?))
  }

  lemma Record(s: System, t: Tid)
    requires Inv(s) && t in s.live && s.live[t].phase.Ended? && !s.live[t].marked
    ensures var e, l := Perform(s, Mark(t, true)), s.live[t];
            && e.pairs == s.pairs && t in e.live && e.live[t] == l.(marked := true)
            && l.job in s.rows && l.job in e.rows && e.rows[l.job] == Marked(s.rows[l.job], l.copy, l.phase.result)
  {
  }

  lemma GiveBack(s: System, t: Tid)
    requires Inv(s) && t in s.live && s.live[t].marked
    ensures var e := Perform(s, Release(t)); e.pairs == s.pairs && e.rows == s.rows && s.live[t].job !in e.inFlight
  {
  }

  lemma RecordAndRelease(s: System, t: Tid)
    requires Inv(s) && t in s.live && s.live[t].phase.Ended? && !s.live[t].marked
    ensures var e := After(s, [Mark(t, true), Release(t)]); Inv(e) && GaveBack(s, e, t)
  {
    var m := Perform(s, Mark(t, true));
    PerformInv(s, Mark(t, true));
    Record(s, t);
    PerformInv(m, Release(t));
    GiveBack(m, t);
    AfterTwo(s, Mark(t, true), Release(t));
  }

  lemma RunLive(s: System, t: Tid) returns (acts: seq<Action>)
    requires Inv(s) && t in s.live && s.live[t].phase.Start? && !s.live[t].marked
    ensures NoEdits(acts)
    ensures var e, l := After(s, acts), s.live[t];
            && Inv(e) && l.job in s.rows && l.job in s.pairs
            && RestsAs(e, l.job, s.rows[l.job], l.copy, s.pairs[l.job], s.clock)
  {
    var finish := [Mark(t, true), Release(t)];
    acts := RunToEnd(s, t);
    var e := After(s, acts);
    RecordAndRelease(e, t);
    EndedRests(s, e, After(e, finish), t);
    AfterConcat(s, acts, finish);
    acts := acts + finish;
  }

  lemma EndedRests(s: System, e: System, f: System, t: Tid)
    requires Inv(s) && Inv(f) && t in s.live && s.live[t].phase.Start?
    requires RanAlone(s, e, t) && GaveBack(e, f, t)
    ensures RestsAs(f, s.live[t].job, s.rows[s.live[t].job], s.live[t].copy, s.pairs[s.live[t].job], s.clock)
  {
  }

  /** One goroutine that waits takes the free slot, runs to the end, records and releases. */
  lemma RunWaiting(s: System, t: Tid) returns (acts: seq<Action>)
    requires Inv(s) && t in s.waiting && s.waiting[t].job !in s.inFlight
    ensures NoEdits(acts)
    ensures var e, j, c := After(s, acts), s.waiting[t].job, s.waiting[t].copy;
            && Inv(e) && j in s.rows && j in s.pairs && RestsAs(e, j, s.rows[j], c, s.pairs[j], s.clock + 1)
  {
    var take := [Advance(1), Acquire(t)];
    TakeFreeSlot(s, t);
    var rest := RunLive(After(s, take), t);
    acts := take + rest;
    AfterConcat(s, take, rest);
  }

  /** Job `j` rests with what a run of `c` alone, nothing failing of itself, makes of `row` and `z`. */
  ghost predicate RestsAs(e: System, j: JobId, row: Row, c: Row, z: Pair, now: nat) {
    && j in e.rows && j in e.pairs && j !in e.inFlight
    && var (r, z') := Complete(c, Start, z, ALL_WORK, now);
       e.rows[j] == Marked(row, c, r) && e.pairs[j] == z'
  }

  lemma UnusedTid(used: set<Tid>) returns (t: Tid)
    ensures t !in used
  {
    var top := HighestTid(used);
    t := top + 1;
  }

  lemma {:induction false} HighestTid(used: set<Tid>) returns (top: nat)
    ensures forall u :: u in used ==> u <= top
    decreases used
  {
    top := 0;
    if used != {} {
      var x :| x in used;
      var rest := HighestTid(used - {x});
      top := if rest < x then x else rest;
      forall u | u in used ensures u <= top { assert u == x || u in used - {x}; }
    }
  }

  /** A copy that waits and is recoverable repairs the job. */
  lemma CopyRepairs(s: System, t: Tid) returns (acts: seq<Action>)
    requires Inv(s) && t in s.waiting && s.waiting[t].job !in s.inFlight && s.waiting[t].copy.valid
    requires Recoverable(s.waiting[t].copy, s.pairs[s.waiting[t].job])
    ensures NoEdits(acts)
    ensures InSyncNow(After(s, acts), s.waiting[t].job)
  {
    acts := RunWaiting(s, t);
    RecoveryExact(s.waiting[t].copy, s.pairs[s.waiting[t].job], s.clock + 1);
  }

  /** So does a new request, if the row is. */
  lemma RequestRepairs(s: System, j: JobId) returns (acts: seq<Action>)
    requires Inv(s) && j in s.rows && j !in s.inFlight && s.rows[j].valid && Recoverable(s.rows[j], s.pairs[j])
    ensures NoEdits(acts)
    ensures InSyncNow(After(s, acts), j)
  {
    var t := UnusedTid(s.waiting.Keys + s.live.Keys);
    PerformInv(s, Read(t, j));
    var rest := CopyRepairs(Perform(s, Read(t, j)), t);
    acts := [Read(t, j)] + rest;
    assert acts[1..] == rest;
  }

  /** So does a copy that waits and, failing, writes a `last_bookmark` from which the row is. */
  lemma FailureHelps(s: System, t: Tid) returns (acts: seq<Action>)
    requires Inv(s) && t in s.waiting && s.waiting[t].job !in s.inFlight && s.rows[s.waiting[t].job].valid
    requires var c, j := s.waiting[t].copy, s.waiting[t].job;
             !(c.valid && Recoverable(c, s.pairs[j])) && Recoverable(s.rows[j].(last := c.last), s.pairs[j])
    ensures NoEdits(acts)
    ensures InSyncNow(After(s, acts), s.waiting[t].job)
  {
    var c, j := s.waiting[t].copy, s.waiting[t].job;
    var first := RunWaiting(s, t);
    var e := After(s, first);
    if c.valid { StepStays(c, s.pairs[j], ALL_WORK, s.clock + 1); }
    assert Recoverable(e.rows[j], e.pairs[j]);
    var second := RequestRepairs(e, j);
    acts := first + second;
    AfterConcat(s, first, second);
  }

  lemma Rescue(s: System, j: JobId) returns (acts: seq<Action>)
    requires Inv(s) && j in s.rows && j !in s.inFlight && s.rows[j].valid && !Hopeless(s, j)
    ensures Edit(j, true) !in acts && InSyncNow(After(s, acts), j)
  {
    if Recoverable(s.rows[j], s.pairs[j]) {
      acts := RequestRepairs(s, j);
    } else {
      var t :| t in s.waiting && s.waiting[t].job == j && Helps(s.waiting[t].copy, s.rows[j], s.pairs[j]);
      if s.waiting[t].copy.valid && Recoverable(s.waiting[t].copy, s.pairs[j]) {
        acts := CopyRepairs(s, t);
      } else {
        acts := FailureHelps(s, t);
      }
    }
  }

  /** Exactly when a job at rest is beyond repair: nothing that can happen, short of switching `force_full` on, brings
      it back into sync if and only if neither its row nor any copy of it that still waits for the slot can help. */
  lemma LockedOutIff(s: System, j: JobId)
    requires Inv(s) && j in s.rows && j !in s.inFlight && s.rows[j].valid
    ensures (forall acts :: Edit(j, true) !in acts ==> !InSyncNow(After(s, acts), j)) <==> Hopeless(s, j)
  {
    if Hopeless(s, j) {
      forall acts | Edit(j, true) !in acts ensures !InSyncNow(After(s, acts), j) { LockedOutForGood(s, acts, j); }
    } else {
      var acts := Rescue(s, j);
    }
  }

  // ---------- concrete runs ----------

  const NEW_ROW := Row(true, true, None, None)
  const NO_POOLS := Pair({}, None, None)
  const SECOND_REQUEST: map<Tid, Pending> := map[2 := Pending(0, NEW_ROW)]

  /** One job at rest, and one with an execution in progress. */
  ghost function Idle(row: Row, z: Pair, w: map<Tid, Pending>, clock: nat): System {
    System(map[0 := row], map[0 := z], w, map[], {}, {}, clock)
  }

  ghost function Busy(row: Row, z: Pair, w: map<Tid, Pending>, t: Tid, l: Live, clock: nat): System {
    System(map[0 := row], map[0 := z], w, map[t := l], {0}, {}, clock)
  }

  /** One job that never ran, at second 1. */
  ghost const NEW_SYSTEM := Idle(NEW_ROW, NO_POOLS, map[], 1)

  ghost predicate RestsInSync(s: System, j: JobId) {
    s.inFlight == {} && InSyncNow(s, j)
  }

  /** At rest, saying ok, and not in sync. */
  ghost predicate RestsMisleading(s: System, j: JobId) {
    s.inFlight == {} && j in s.rows && s.rows[j].lastOk == Some(true) && !InSyncNow(s, j)
  }

  lemma AfterAppend(s: System, acts: seq<Action>, a: Action)
    ensures After(s, acts + [a]) == Perform(After(s, acts), a)
  {
    AfterConcat(s, acts, [a]);
    assert After(After(s, acts), [a]) == After(Perform(After(s, acts), a), []);
  }

  lemma SoloAcquire(row: Row, c: Row, z: Pair, w: map<Tid, Pending>, t: Tid, clock: nat)
    requires t !in w
    ensures Perform(Idle(row, z, w[t := Pending(0, c)], clock), Acquire(t))
         == Busy(row, z, w, t, Live(0, c, Start, false), clock)
  {
    assert w[t := Pending(0, c)] - {t} == w;
  }

  lemma SoloCommand(row: Row, c: Row, z: Pair, w: map<Tid, Pending>, t: Tid, p: Phase, f: Fate, clock: nat)
    requires !p.Ended?
    ensures var (p', z') := Exec(c, p, z, f, clock);
            Perform(Busy(row, z, w, t, Live(0, c, p, false), clock), Command(t, f))
              == Busy(row, z', w, t, Live(0, c, p', false), clock)
  {
  }

  lemma SoloFinish(row: Row, c: Row, z: Pair, w: map<Tid, Pending>, t: Tid, r: Option<nat>, clock: nat)
    ensures Perform(Perform(Busy(row, z, w, t, Live(0, c, Ended(r), false), clock), Mark(t, true)), Release(t))
         == Idle(Marked(row, c, r), z, w, clock)
  {
    var e := Perform(Busy(row, z, w, t, Live(0, c, Ended(r), false), clock), Mark(t, true));
    assert e == Busy(Marked(row, c, r), z, w, t, Live(0, c, Ended(r), true), clock);
  }

  /** The slot taken and the whole execution, with its commands ending as `o` says. */
  lemma SoloRun(s: System, acts: seq<Action>, row: Row, c: Row, z: Pair, w: map<Tid, Pending>, t: Tid, o: Fates,
                clock: nat)
    returns (all: seq<Action>)
    requires After(s, acts) == Idle(row, z, w[t := Pending(0, c)], clock) && t !in w
    ensures var (r, z') := Complete(c, Start, z, o, clock);
            acts <= all && After(s, all) == Busy(row, z', w, t, Live(0, c, Ended(r), false), clock)
  {
    AfterAppend(s, acts, Acquire(t));
    SoloAcquire(row, c, z, w, t, clock);
    all := SoloCommands(s, acts + [Acquire(t)], row, c, z, w, t, Start, o, clock);
  }

  lemma {:induction false} SoloCommands(s: System, acts: seq<Action>, row: Row, c: Row, z: Pair, w: map<Tid, Pending>,
                                        t: Tid, p: Phase, o: Fates, clock: nat)
    returns (all: seq<Action>)
    requires After(s, acts) == Busy(row, z, w, t, Live(0, c, p, false), clock)
    ensures var (r, z') := Complete(c, p, z, o, clock);
            acts <= all && After(s, all) == Busy(row, z', w, t, Live(0, c, Ended(r), false), clock)
    decreases p.Rank(), p.Todo()
  {
    all := acts;
    if !p.Ended? {
      var a := Command(t, FateOf(o, p));
      var (p', z') := Exec(c, p, z, a.fate, clock);
      ExecProgress(c, p, z, a.fate, clock);
      SoloCommand(row, c, z, w, t, p, a.fate, clock);
      AfterAppend(s, acts, a);
      all := SoloCommands(s, acts + [a], row, c, z', w, t, p', o, clock);
    }
  }

  lemma SoloRecord(s: System, acts: seq<Action>, row: Row, c: Row, z: Pair, w: map<Tid, Pending>, t: Tid,
                   r: Option<nat>, clock: nat)
    requires After(s, acts) == Busy(row, z, w, t, Live(0, c, Ended(r), false), clock)
    ensures After(s, acts + [Mark(t, true)] + [Release(t)])
         == Idle(Marked(row, c, r), z, w, clock)
  {
    SoloFinish(row, c, z, w, t, r, clock);
    AfterAppend(s, acts, Mark(t, true));
    AfterAppend(s, acts + [Mark(t, true)], Release(t));
  }

  const SYNCED_ROW := Row(true, true, Some(1), Some(true))

  /** The first run of the new system, beside whatever requests wait. */
  lemma FirstRun(acts: seq<Action>, w: map<Tid, Pending>) returns (all: seq<Action>, z: Pair)
    requires 1 !in w && After(NEW_SYSTEM, acts) == Idle(NEW_ROW, NO_POOLS, w[1 := Pending(0, NEW_ROW)], 1)
    ensures acts <= all && z.InSync(1) && z.UpTo(1)
    ensures After(NEW_SYSTEM, all) == Idle(SYNCED_ROW, z, w, 1)
  {
    RecoveryExact(NEW_ROW, NO_POOLS, 1);
    ResultIsOwnSnapshot(NEW_ROW, Start, NO_POOLS, ALL_WORK, 1);
    CompleteSound(NEW_ROW, Start, NO_POOLS, ALL_WORK, 1);
    var outcome := Complete(NEW_ROW, Start, NO_POOLS, ALL_WORK, 1);
    z := outcome.1;
    all := SoloRun(NEW_SYSTEM, acts, NEW_ROW, NEW_ROW, NO_POOLS, w, 1, ALL_WORK, 1);
    SoloRecord(NEW_SYSTEM, all, NEW_ROW, NEW_ROW, z, w, 1, outcome.0, 1);
    all := all + [Mark(1, true)] + [Release(1)];
  }

  /** Two requests read a new job, `force_full` and all, before either takes the slot; the first replicates, and leaves
      the job in sync and at rest; the second then fails on its stale copy and leaves the job beyond repair. */
  lemma StaleRequestLocksOut() returns (first: seq<Action>, second: seq<Action>)
    ensures Init(NEW_SYSTEM) && first <= second
    ensures RestsInSync(After(NEW_SYSTEM, first), 0)
    ensures After(NEW_SYSTEM, second).inFlight == {} && Hopeless(After(NEW_SYSTEM, second), 0)
  {
    var s := NEW_SYSTEM;
    AfterAppend(s, [], Read(2, 0));
    AfterAppend(s, [Read(2, 0)], Read(1, 0));
    assert [] + [Read(2, 0)] == [Read(2, 0)];
    var z: Pair;
    first, z := FirstRun([Read(2, 0)] + [Read(1, 0)], SECOND_REQUEST);
    AfterAppend(s, first, Advance(1));
    assert After(s, first + [Advance(1)]) == Idle(SYNCED_ROW, z, map[][2 := Pending(0, NEW_ROW)], 2);
    StaleCopyLocksOut(SYNCED_ROW, NEW_ROW, z, ALL_WORK, 2);
    var (r, z') := Complete(NEW_ROW, Start, z, ALL_WORK, 2);
    second := SoloRun(s, first + [Advance(1)], SYNCED_ROW, NEW_ROW, z, map[], 2, ALL_WORK, 2);
    SoloRecord(s, second, SYNCED_ROW, NEW_ROW, z', map[], 2, r, 2);
    second := second + [Mark(2, true)] + [Release(2)];
  }

  /** The second run of a job is cancelled in the last instant, with its stream received, and the store refuses its
      result: the job rests, says ok, and is not in sync. */
  lemma LostResultMisleads() returns (first: seq<Action>, second: seq<Action>)
    ensures Init(NEW_SYSTEM) && first <= second
    ensures RestsInSync(After(NEW_SYSTEM, first), 0)
    ensures RestsMisleading(After(NEW_SYSTEM, second), 0)
  {
    var s := NEW_SYSTEM;
    var o := ALL_WORK.(send := Cancelled(true));
    AfterAppend(s, [], Read(1, 0));
    assert [] + [Read(1, 0)] == [Read(1, 0)];
    var z: Pair;
    first, z := FirstRun([Read(1, 0)], map[]);
    AfterAppend(s, first, Advance(1));
    AfterAppend(s, first + [Advance(1)], Read(2, 0));
    assert After(s, first + [Advance(1)] + [Read(2, 0)]) == Idle(SYNCED_ROW, z, map[][2 := Pending(0, SYNCED_ROW)], 2);
    LostResultIff(SYNCED_ROW, SYNCED_ROW, z, o, 2);
    var (r, z') := Complete(SYNCED_ROW, Start, z, o, 2);
    second := SoloRun(s, first + [Advance(1)] + [Read(2, 0)], SYNCED_ROW, SYNCED_ROW, z, map[], 2, o, 2);
    AfterAppend(s, second, Mark(2, false));
    AfterAppend(s, second + [Mark(2, false)], Release(2));
    SoloLost(SYNCED_ROW, SYNCED_ROW, z', map[], 2, r, 2);
    second := second + [Mark(2, false)] + [Release(2)];
  }

  lemma SoloLost(row: Row, c: Row, z: Pair, w: map<Tid, Pending>, t: Tid, r: Option<nat>, clock: nat)
    ensures Perform(Perform(Busy(row, z, w, t, Live(0, c, Ended(r), false), clock), Mark(t, false)), Release(t))
         == Idle(row, z, w, clock).(unsaved := {0})
  {
    var e := Perform(Busy(row, z, w, t, Live(0, c, Ended(r), false), clock), Mark(t, false));
    assert e == Busy(row, z, w, t, Live(0, c, Ended(r), true), clock).(unsaved := {0});
  }
}
