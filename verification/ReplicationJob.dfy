/** What whole runs of one replication job achieve: recovery, pruning, and what they may destroy. */
module ReplicationJob {
  import opened Options
  import opened Zfs
  import opened ReplicationRun
  import opened Sets

  /** One `execute` on a copy just read: run to the end, then `MarkRun`. */
  ghost function JobRun(row: Row, z: Pair, o: Fates, now: nat): (Row, Pair) {
    var (r, z') := Complete(row, Start, z, o, now);
    (row.(last := if r.Some? then r else row.last, lastOk := Some(r.Some?)), z')
  }

  ghost function JobRuns(row: Row, z: Pair, plan: seq<(Fates, nat)>): (Row, Pair)
    decreases |plan|
  {
    if plan == [] then (row, z)
    else
      var (row', z') := JobRun(row, z, plan[0].0, plan[0].1);
      JobRuns(row', z', plan[1..])
  }

  ghost predicate Synced(row: Row, z: Pair) {
    row.lastOk == Some(true) && row.last.Some? && z.InSync(row.last.value)
  }

  // ---------- recovery ----------

  /** The states one undisturbed run brings back into sync. */
  ghost predicate Recoverable(row: Row, z: Pair) {
    || (row.last.None? && z.dest.None?)
    || (row.last.Some? && z.mark.Some? && z.Newest() == z.mark)
    || (row.last.Some? && row.forceFull && z.dest.Some?)
  }

  /** Exactly the recoverable states are repaired by a run in which no command fails of itself. */
  lemma RecoveryExact(row: Row, z: Pair, now: nat)
    requires row.valid && z.Before(now)
    ensures var (row', z') := JobRun(row, z, ALL_WORK, now); Synced(row', z') <==> Recoverable(row, z)
  {
    var z1 := z.(snaps := z.snaps + {Repl(now)});
    assert Complete(row, Start, z, ALL_WORK, now) == Complete(row, Send(now), z1, ALL_WORK, now);
    var incremental := row.last.Some?;
    if CanSend(z1, now, incremental) {
      assert Complete(row, Send(now), z1, ALL_WORK, now)
          == Complete(row, DropMark(now), Receive(z1, now), ALL_WORK, now);
      DeliveredSucceeds(row, Receive(z1, now), now);
    } else if incremental && row.forceFull && z.dest.Some? {
      var z2 := z1.(dest := None);
      assert Complete(row, Send(now), z1, ALL_WORK, now) == Complete(row, DestroyDest(now), z1, ALL_WORK, now);
      assert Complete(row, DestroyDest(now), z1, ALL_WORK, now) == Complete(row, Resend(now), z2, ALL_WORK, now);
      assert Complete(row, Resend(now), z2, ALL_WORK, now)
          == Complete(row, DropMark(now), Receive(z2, now), ALL_WORK, now);
      DeliveredSucceeds(row, Receive(z2, now), now);
    } else {
      StepStays(row, z, ALL_WORK, now);
    }
  }

  /** Once the stream has arrived, a run whose remaining commands work ends in sync. */
  lemma DeliveredSucceeds(row: Row, z: Pair, now: nat)
    requires Latest(z, now) && z.Newest() == Some(now) && z.UpTo(now)
    ensures var (r, z') := Complete(row, DropMark(now), z, ALL_WORK, now); r == Some(now) && z'.InSync(now)
  {
    var z1 := z.(mark := None);
    var z2 := z1.(mark := Some(now));
    assert Complete(row, DropMark(now), z, ALL_WORK, now) == Complete(row, SetMark(now), z1, ALL_WORK, now);
    assert Complete(row, SetMark(now), z1, ALL_WORK, now) == Complete(row, ListSnaps(now), z2, ALL_WORK, now);
    assert Complete(row, ListSnaps(now), z2, ALL_WORK, now)
        == Complete(row, Prune(now, Victims(z2.snaps)), z2, ALL_WORK, now);
    PruneEffect(row, now, Victims(z2.snaps), z2, ALL_WORK, now);
    forall n | n in Victims(z2.snaps) ensures n < now { VictimsOlder(z2, now, n); }
  }

  /** A run from an unrecoverable state fails and leaves an unrecoverable state, however its commands end. */
  lemma StepStays(row: Row, z: Pair, o: Fates, now: nat)
    requires !Recoverable(row, z)
    ensures var (row', z') := JobRun(row, z, o, now);
            && row' == row.(lastOk := Some(false))
            && z'.dest == z.dest && z'.mark == z.mark
            && !Recoverable(row', z')
  {
    var (p1, z1) := Exec(row, Start, z, o.snapshot, now);
    assert Complete(row, Start, z, o, now) == Complete(row, p1, z1, o, now);
    if p1.Send? {
      assert !CanSend(z1, now, row.last.Some?);
      var (p2, z2) := Exec(row, p1, z1, o.send, now);
      assert z2 == z1;
      assert Complete(row, p1, z1, o, now) == Complete(row, p2, z2, o, now);
      if p2.DestroyDest? {
        var (p3, z3) := Exec(row, p2, z2, o.destroy, now);
        assert z.dest.None? && p3 == Ended(None) && z3 == z2;
        assert Complete(row, p2, z2, o, now) == Complete(row, p3, z3, o, now);
      }
    }
  }

  /** Every other state stays out of sync however often the job runs and whatever its commands do. */
  lemma {:induction false} StuckForever(row: Row, z: Pair, plan: seq<(Fates, nat)>)
    requires !Recoverable(row, z)
    ensures var (row', z') := JobRuns(row, z, plan);
            !Recoverable(row', z') && (plan != [] ==> !Synced(row', z'))
    decreases |plan|
  {
    if plan != [] {
      StepStays(row, z, plan[0].0, plan[0].1);
      var (row', z') := JobRun(row, z, plan[0].0, plan[0].1);
      StuckForever(row', z', plan[1..]);
    }
  }

  // ---------- which failures lock a job out ----------

  /** The first pipeline ends in an error: of itself, or because ZFS refuses the stream. */
  ghost predicate PipelineErrs(z: Pair, o: Fates, now: nat) {
    o.send.Fails? || (o.send.Works? && !CanSend(z.(snaps := z.snaps + {Repl(now)}), now, true))
  }

  /** What may fail in a run of a recoverable job without locking it out. */
  ghost predicate Spares(row: Row, z: Pair, o: Fates, now: nat) {
    || !o.snapshot.Works?
    || (if row.last.None? then
          !o.send.Applies() || (o.send.Works? && o.mark.Works? && (z.mark.None? || o.drop.Applies()))
        else if row.forceFull then
          !(PipelineErrs(z, o, now) && o.destroy.Applies() && !(o.destroy.Works? && o.resend.Applies()))
        else
          !o.send.Applies() || (o.send.Works? && o.drop.Applies() && o.mark.Applies()))
  }

  /** What pruning, if it comes to that, leaves alone. */
  lemma {:induction false} TailKeeps(c: Row, p: Phase, z: Pair, o: Fates, now: nat)
    requires p.ListSnaps? || p.Prune? || p.Ended?
    ensures var (r, z') := Complete(c, p, z, o, now);
            && r == (if p.Ended? then p.result else Some(p.snap))
            && z'.mark == z.mark && z'.dest == z.dest
            && (!p.ListSnaps? && !p.Prune? ==> z' == z)
            && (p.ListSnaps? && Latest(z, p.snap) ==> Repl(p.snap) in z'.snaps)
    decreases p.Rank(), p.Todo()
  {
    match p
    case Prune(s, todo) => PruneEffect(c, s, todo, z, o, now);
    case ListSnaps(s) =>
      var (p', z') := Exec(c, p, z, FateOf(o, p), now);
      assert Complete(c, p, z, o, now) == Complete(c, p', z', o, now);
      if p'.Prune? {
        PruneEffect(c, s, p'.todo, z, o, now);
        if Latest(z, s) { forall n | n in p'.todo ensures n < s { VictimsOlder(z, s, n); } }
      }
    case Ended(_) =>
  }

  /** What is left of a run whose stream has arrived: it succeeds exactly when the bookmark could be set. */
  lemma DeliveredOutcome(c: Row, s: nat, z: Pair, o: Fates, now: nat)
    requires Repl(s) in z.snaps
    ensures var (r, z') := Complete(c, DropMark(s), z, o, now);
            var free := z.mark.None? || o.drop.Applies();
            && z'.dest == z.dest
            && r == (if free && o.mark.Works? then Some(s) else None)
            && z'.mark == (if free && o.mark.Applies() then Some(s) else if o.drop.Applies() then None else z.mark)
  {
    var (p1, z1) := Exec(c, DropMark(s), z, o.drop, now);
    assert Complete(c, DropMark(s), z, o, now) == Complete(c, p1, z1, o, now);
    var (p2, z2) := Exec(c, p1, z1, o.mark, now);
    assert Complete(c, p1, z1, o, now) == Complete(c, p2, z2, o, now);
    TailKeeps(c, p2, z2, o, now);
  }

  /** The outcome of the second, full, send. */
  lemma ForcedOutcome(c: Row, s: nat, z: Pair, o: Fates, now: nat)
    requires Repl(s) in z.snaps && z.dest.Some?
    ensures var (r, z') := Complete(c, DestroyDest(s), z, o, now);
            && z'.dest == (if !o.destroy.Applies() then z.dest
                           else if o.destroy.Works? && o.resend.Applies() then Some([s]) else None)
            && (r.Some? ==> z'.dest == Some([s]))
  {
    var (p1, z1) := Exec(c, DestroyDest(s), z, o.destroy, now);
    assert Complete(c, DestroyDest(s), z, o, now) == Complete(c, p1, z1, o, now);
    if p1.Resend? {
      var (p2, z2) := Exec(c, p1, z1, o.resend, now);
      assert Complete(c, p1, z1, o, now) == Complete(c, p2, z2, o, now);
      assert [] + [s] == [s];
      if p2.DropMark? { DeliveredOutcome(c, s, z2, o, now); }
    }
  }

  /** Exactly which failures of a run turn a recoverable job into one that no run repairs. */
  lemma LockOutIff(row: Row, z: Pair, o: Fates, now: nat)
    requires row.valid && z.Before(now) && Recoverable(row, z)
    ensures var (row', z') := JobRun(row, z, o, now); Recoverable(row', z') <==> Spares(row, z, o, now)
  {
    var (p1, z1) := Exec(row, Start, z, o.snapshot, now);
    assert Complete(row, Start, z, o, now) == Complete(row, p1, z1, o, now);
    if p1.Send? {
      var (p2, z2) := Exec(row, p1, z1, o.send, now);
      assert Complete(row, p1, z1, o, now) == Complete(row, p2, z2, o, now);
      match p2 {
        case DropMark(_) => DeliveredOutcome(row, now, z2, o, now);
        case DestroyDest(_) => ForcedOutcome(row, now, z2, o, now);
        case _ =>
      }
    }
  }

  /** A first send whose stream arrives, and then one `zfs bookmark` that fails: `last_bookmark` stays empty, the
      destination is there, and the job is locked out, `force_full` or not. */
  lemma FailedBookmarkLocksOut(forceFull: bool)
    ensures var row, z := Row(true, forceFull, None, None), Pair({}, None, None);
            var (row', z') := JobRun(row, z, ALL_WORK.(mark := Fails(false)), 1);
            Recoverable(row, z) && !Recoverable(row', z')
  {
    var row, z := Row(true, forceFull, None, None), Pair({}, None, None);
    LockOutIff(row, z, ALL_WORK.(mark := Fails(false)), 1);
  }

  /** `force_full` destroys the destination of a job in sync after a send that failed, and the full send fails too. */
  lemma FailedResendLocksOut()
    ensures var row, z := Row(true, true, Some(1), Some(true)), Pair({Repl(1)}, Some(1), Some([1]));
            var (row', z') := JobRun(row, z, ALL_WORK.(send := Fails(false), resend := Fails(false)), 2);
            Synced(row, z) && !Recoverable(row', z')
  {
    var row, z := Row(true, true, Some(1), Some(true)), Pair({Repl(1)}, Some(1), Some([1]));
    LockOutIff(row, z, ALL_WORK.(send := Fails(false), resend := Fails(false)), 2);
  }

  // ---------- results that are not recorded ----------

  /** A copy read before the first full send, executed after it, fails and puts the empty `last_bookmark`
      back: the job, in sync until then, is out of sync for good, `force_full` or not. */
  lemma StaleCopyLocksOut(row: Row, stale: Row, z: Pair, o: Fates, now: nat)
    requires Synced(row, z) && stale.last.None?
    ensures var (r, z') := Complete(stale, Start, z, o, now);
            && r.None?
            && !Recoverable(row.(last := stale.last, lastOk := Some(false)), z')
  {
    assert !Recoverable(stale, z);
    StepStays(stale, z, o, now);
  }

  /** A job in sync, a run of any copy of it, current or stale, that ends in whatever way, and a result that is not
      stored: the row still says ok. The job is still in sync exactly when the run came to nothing: no snapshot, a
      full send, which ZFS refuses, or no stream received and no destination destroyed. */
  lemma LostResultIff(row: Row, c: Row, z: Pair, o: Fates, now: nat)
    requires c.valid && Synced(row, z) && z.Before(now)
    ensures var z' := Complete(c, Start, z, o, now).1;
            Synced(row, z') <==>
              || !o.snapshot.Works?
              || c.last.None?
              || (!o.send.Applies() && !(c.forceFull && o.send.Fails? && o.destroy.Applies()))
  {
    var (p1, z1) := Exec(c, Start, z, o.snapshot, now);
    assert Complete(c, Start, z, o, now) == Complete(c, p1, z1, o, now);
    if p1.Send? {
      var (p2, z2) := Exec(c, p1, z1, o.send, now);
      assert Complete(c, p1, z1, o, now) == Complete(c, p2, z2, o, now);
      match p2 {
        case DropMark(_) => DeliveredOutcome(c, now, z2, o, now);
        case DestroyDest(_) => ForcedLost(c, now, z2, o, now);
        case _ =>
      }
    }
  }

  /** A forced run leaves the pools as they were only if the destroy did nothing. */
  lemma ForcedLost(c: Row, s: nat, z: Pair, o: Fates, now: nat)
    requires Repl(s) in z.snaps && z.dest.Some?
    ensures var z' := Complete(c, DestroyDest(s), z, o, now).1;
            if o.destroy.Applies() then z'.Newest() == None || z'.Newest() == Some(s) else z' == z
  {
    ForcedOutcome(c, s, z, o, now);
    var (p1, z1) := Exec(c, DestroyDest(s), z, o.destroy, now);
    assert Complete(c, DestroyDest(s), z, o, now) == Complete(c, p1, z1, o, now);
  }

  /** A run succeeds, if at all, with the snapshot it took. */
  lemma {:induction false} ResultIsOwnSnapshot(c: Row, p: Phase, z: Pair, o: Fates, now: nat)
    ensures var r := Complete(c, p, z, o, now).0;
            r.Some? ==> r == if p.Start? then Some(now) else if p.Ended? then p.result else Some(p.snap)
    decreases p.Rank(), p.Todo()
  {
    if !p.Ended? {
      ExecProgress(c, p, z, FateOf(o, p), now);
      var (p', z') := Exec(c, p, z, FateOf(o, p), now);
      ResultIsOwnSnapshot(c, p', z', o, now);
    }
  }

  // ---------- pruning ----------

  ghost function Removed(todo: seq<nat>, spared: set<nat>): set<Snap> {
    set n | n in todo && n !in spared :: Repl(n)
  }

  lemma {:induction false} PruneEffect(c: Row, s: nat, todo: seq<nat>, z: Pair, o: Fates, now: nat)
    ensures Complete(c, Prune(s, todo), z, o, now)
         == (Some(s), z.(snaps := z.snaps - Removed(todo, o.spared)))
    decreases |todo|
  {
    if todo == [] {
      assert z.snaps - Removed(todo, o.spared) == z.snaps;
    } else {
      var (p', z') := Exec(c, Prune(s, todo), z, FateOf(o, Prune(s, todo)), now);
      PruneEffect(c, s, todo[1..], z', o, now);
      assert todo == [todo[0]] + todo[1..];
      assert z'.snaps - Removed(todo[1..], o.spared) == z.snaps - Removed(todo, o.spared);
    }
  }

  ghost function Survivors(snaps: set<Snap>): set<nat> {
    set n | n in Stamps(snaps) && n !in Victims(snaps)
  }

  lemma SurvivorsCount(snaps: set<Snap>)
    ensures |Survivors(snaps)| == if |Stamps(snaps)| <= 2 then |Stamps(snaps)| else 2
  {
    var q, todo := Sorted(Stamps(snaps)), Victims(snaps);
    assert forall n :: n in Survivors(snaps) <==> n in q && n !in todo;
    if |q| <= 2 {
      assert todo == [];
      assert Survivors(snaps) == Stamps(snaps);
    } else {
      assert todo == q[..|q| - 2];
      SortedIncreases(Stamps(snaps));
      LastTwoSurvive(q, todo);
      TwoElements(Survivors(snaps), q[|q| - 2], q[|q| - 1]);
    }
  }

  lemma TwoElements(s: set<nat>, a: nat, b: nat)
    requires a < b && forall n :: n in s <==> n == a || n == b
    ensures |s| == 2
  {
    assert s == {a, b};
  }

  lemma LastTwoSurvive(q: seq<nat>, todo: seq<nat>)
    requires |q| > 2 && todo == q[..|q| - 2]
    requires forall i, j :: 0 <= i < j < |q| ==> q[i] < q[j]
    ensures q[|q| - 2] < q[|q| - 1]
    ensures forall n :: n in q && n !in todo <==> n == q[|q| - 2] || n == q[|q| - 1]
  {
    assert q == todo + [q[|q| - 2], q[|q| - 1]];
  }

  /** With its destroys working, prune leaves the two newest replication snapshots and all foreign ones. */
  lemma PruneKeepsTwoNewest(c: Row, s: nat, z: Pair, o: Fates, now: nat)
    requires Latest(z, s) && o.list.Works? && o.spared == {}
    ensures var (r, z') := Complete(c, ListSnaps(s), z, o, now);
            && r == Some(s)
            && z'.mark == z.mark && z'.dest == z.dest
            && z'.snaps <= z.snaps
            && (forall x :: x in z.snaps && x.Foreign? ==> x in z'.snaps)
            && Latest(z', s)
            && |Stamps(z'.snaps)| == (if |Stamps(z.snaps)| <= 2 then |Stamps(z.snaps)| else 2)
            && forall g: nat, k: nat :: Repl(g) in z.snaps && Repl(g) !in z'.snaps && Repl(k) in z'.snaps ==> g < k
  {
    var todo := Victims(z.snaps);
    assert Complete(c, ListSnaps(s), z, o, now) == Complete(c, Prune(s, todo), z, o, now);
    PruneEffect(c, s, todo, z, o, now);
    var z' := z.(snaps := z.snaps - Removed(todo, o.spared));
    VictimsFacts(z.snaps, s);
    forall n | n in todo ensures n < s { VictimsOlder(z, s, n); }
    assert Stamps(z'.snaps) == Survivors(z.snaps);
    SurvivorsCount(z.snaps);
    forall g: nat, k: nat | Repl(g) in z.snaps && Repl(g) !in z'.snaps && Repl(k) in z'.snaps ensures g < k {
      VictimsBeforeKept(z.snaps, g, k);
    }
  }

  /** A run adds at most its own snapshot, and takes away only replication snapshots. */
  lemma {:induction false} RunAddsOne(c: Row, p: Phase, z: Pair, o: Fates, now: nat)
    requires Sound(c, p, z, now)
    ensures var (r, z') := Complete(c, p, z, o, now);
            && Stamps(z'.snaps) <= Stamps(z.snaps) + (if p.Start? then {now} else {})
            && (forall x: Snap :: x.Foreign? ==> (x in z'.snaps <==> x in z.snaps))
    decreases p.Rank(), p.Todo()
  {
    if !p.Ended? {
      ExecSound(c, p, z, FateOf(o, p), now);
      ExecProgress(c, p, z, FateOf(o, p), now);
      var (p', z') := Exec(c, p, z, FateOf(o, p), now);
      RunAddsOne(c, p', z', o, now);
    }
  }

  /** Two, or the count before plus one, by how each run of the plan ends. */
  ghost function Backlog(row: Row, z: Pair, plan: seq<(Fates, nat)>, n: nat): nat
    decreases |plan|
  {
    if plan == [] then n
    else
      var (row', z') := JobRun(row, z, plan[0].0, plan[0].1);
      Backlog(row', z', plan[1..], if row'.lastOk == Some(true) then 2 else n + 1)
  }

  ghost predicate Increasing(z: Pair, plan: seq<(Fates, nat)>)
    decreases |plan|
  {
    plan != [] ==> z.UpTo(plan[0].1) && forall i, j :: 0 <= i < j < |plan| ==> plan[i].1 <= plan[j].1
  }

  lemma SuccessLeavesTwo(c: Row, p: Phase, z: Pair, o: Fates, now: nat)
    requires Sound(c, p, z, now) && !p.Prune? && !p.Ended?
    requires o.list.Works? && o.spared == {}
    ensures var (r, z') := Complete(c, p, z, o, now); r.Some? ==> |Stamps(z'.snaps)| <= 2
    decreases p.Rank()
  {
    if p.ListSnaps? {
      PruneKeepsTwoNewest(c, p.snap, z, o, now);
    } else {
      ExecSound(c, p, z, FateOf(o, p), now);
      var (p', z') := Exec(c, p, z, FateOf(o, p), now);
      if !p'.Ended? { SuccessLeavesTwo(c, p', z', o, now); }
    }
  }

  /** At most two replication snapshots plus one for each failed run since the last success. */
  lemma {:induction false} SnapshotCount(row: Row, z: Pair, plan: seq<(Fates, nat)>, n: nat)
    requires Increasing(z, plan) && |Stamps(z.snaps)| <= n
    requires forall i :: 0 <= i < |plan| ==> plan[i].0.list.Works? && plan[i].0.spared == {}
    ensures |Stamps(JobRuns(row, z, plan).1.snaps)| <= Backlog(row, z, plan, n)
    decreases |plan|
  {
    if plan != [] {
      var (o, now) := plan[0];
      RunAddsOne(row, Start, z, o, now);
      SuccessLeavesTwo(row, Start, z, o, now);
      CompleteSound(row, Start, z, o, now);
      var (row', z') := JobRun(row, z, o, now);
      SubsetSize(Stamps(z'.snaps), Stamps(z.snaps) + {now});
      var rest := plan[1..];
      if rest != [] { assert rest[0] == plan[1]; }
      SnapshotCount(row', z', rest, if row'.lastOk == Some(true) then 2 else n + 1);
    }
  }

  // ---------- what a run may destroy ----------

  /** How many `zfs destroy` commands for the destination the rest of the execution issues. */
  ghost function DestroysIssued(c: Row, p: Phase, z: Pair, o: Fates, now: nat): nat
    decreases p.Rank(), p.Todo()
  {
    if p.Ended? then 0
    else
      ExecProgress(c, p, z, FateOf(o, p), now);
      var (p', z') := Exec(c, p, z, FateOf(o, p), now);
      (if p.DestroyDest? then 1 else 0) + DestroysIssued(c, p', z', o, now)
  }

  lemma {:induction false} NoDestroyLater(c: Row, p: Phase, z: Pair, o: Fates, now: nat)
    requires p.Rank() < 6
    ensures DestroysIssued(c, p, z, o, now) == 0
    decreases p.Rank(), p.Todo()
  {
    if !p.Ended? {
      ExecProgress(c, p, z, FateOf(o, p), now);
      var (p', z') := Exec(c, p, z, FateOf(o, p), now);
      NoDestroyLater(c, p', z', o, now);
    }
  }

  /** The destination is destroyed at most once a run, and exactly when the job allows it, the pipeline was
      incremental, it was launched, and it ended in an error rather than a cancellation. */
  lemma DestroyOnlyWhenForced(c: Row, z: Pair, o: Fates, now: nat)
    ensures var taken := c.valid && Repl(now) !in z.snaps && o.snapshot.Works?;
            var sent := z.(snaps := z.snaps + {Repl(now)});
            var error := o.send.Fails? || (o.send.Works? && !CanSend(sent, now, true));
            DestroysIssued(c, Start, z, o, now)
              == if taken && c.last.Some? && c.forceFull && error then 1 else 0
  {
    var (p1, z1) := Exec(c, Start, z, o.snapshot, now);
    if p1.Send? {
      var (p2, z2) := Exec(c, p1, z1, o.send, now);
      if p2.DestroyDest? {
        var (p3, z3) := Exec(c, p2, z2, o.destroy, now);
        NoDestroyLater(c, p3, z3, o, now);
        assert DestroysIssued(c, p2, z2, o, now) == 1 + DestroysIssued(c, p3, z3, o, now);
      } else {
        NoDestroyLater(c, p2, z2, o, now);
      }
      assert DestroysIssued(c, p1, z1, o, now) == DestroysIssued(c, p2, z2, o, now);
    }
  }

  /** Without `force_full` no command takes anything from the destination's history. */
  lemma ExecKeepsHistory(c: Row, p: Phase, z: Pair, f: Fate, now: nat)
    requires Sound(c, p, z, now) && !c.forceFull
    ensures z.History() <= Exec(c, p, z, f, now).1.History()
  {
  }
}
