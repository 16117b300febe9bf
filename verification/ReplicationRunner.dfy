/** The replication runner as the program writes it (internal/replication/runner.go): methods over mutable
    state, each tied to the step functions of `ReplicationRun`. */
module ReplicationRunner {
  import opened Options
  import opened Schedules
  import opened Seconds
  import opened Ticks
  import opened Zfs
  import opened ReplicationRun

  datatype Status = Done | Error | Canceled | NotLaunched

  /** The pools of one job. Each method is one command; its fate says how the command will end. */
  class Host {
    var snaps: set<Snap>
    var mark: Option<nat>
    var dest: Option<seq<nat>>

    constructor (z: Pair)
      ensures View() == z
    {
      snaps, mark, dest := z.snaps, z.mark, z.dest;
    }

    function View(): Pair
      reads this
    {
      Pair(snaps, mark, dest)
    }

    method Snapshot(now: nat, f: Fate) returns (ok: bool)
      modifies this
      ensures ok == (Repl(now) !in old(snaps) && f.Works?)
      ensures View() == if Repl(now) !in old(snaps) && f.Applies() then old(View()).(snaps := old(snaps) + {Repl(now)})
                        else old(View())
    {
      ok := Repl(now) !in snaps && f.Works?;
      if Repl(now) !in snaps && f.Applies() { snaps := snaps + {Repl(now)}; }
    }

    method Pipeline(s: nat, incremental: bool, f: Fate) returns (status: Status)
      modifies this
      ensures var can := CanSend(old(View()), s, incremental);
              && View() == (if can && f.Applies() then Receive(old(View()), s) else old(View()))
              && status == (if f.NotStarted? then NotLaunched else if f.Cancelled? then Canceled
                            else if can && f.Works? then Done else Error)
    {
      var can := CanSend(View(), s, incremental);
      if can && f.Applies() { dest := Receive(View(), s).dest; }
      status := if f.NotStarted? then NotLaunched else if f.Cancelled? then Canceled
                else if can && f.Works? then Done else Error;
    }

    method DestroyDest(f: Fate) returns (ok: bool)
      modifies this
      ensures ok == (old(dest).Some? && f.Works?)
      ensures View() == if f.Applies() then old(View()).(dest := None) else old(View())
    {
      ok := dest.Some? && f.Works?;
      if f.Applies() { dest := None; }
    }

    method DestroyMark(f: Fate)
      modifies this
      ensures View() == if f.Applies() then old(View()).(mark := None) else old(View())
    {
      if f.Applies() { mark := None; }
    }

    method Bookmark(s: nat, f: Fate) returns (ok: bool)
      modifies this
      ensures var can := old(mark).None? && Repl(s) in old(snaps);
              ok == (can && f.Works?)
              && View() == if can && f.Applies() then old(View()).(mark := Some(s)) else old(View())
    {
      var can := mark.None? && Repl(s) in snaps;
      ok := can && f.Works?;
      if can && f.Applies() { mark := Some(s); }
    }

    method DestroySnap(s: nat, f: Fate)
      modifies this
      ensures View() == if f.Applies() then old(View()).(snaps := old(snaps) - {Repl(s)}) else old(View())
    {
      if f.Applies() { snaps := snaps - {Repl(s)}; }
    }
  }

  /** The smallest of a set, however it is found. */
  method TakeLeast(s: set<nat>) returns (m: nat)
    requires s != {}
    ensures m == Least(s) && m in s
  {
    LeastExists(s);
    m :| m in s && forall n :: n in s ==> m <= n;
    assert IsLeast(m, s);
  }

  lemma SortedHead(q: seq<nat>, rest: set<nat>, m: nat)
    requires rest != {} && m == Least(rest)
    ensures q + Sorted(rest) == (q + [m]) + Sorted(rest - {m})
  {
  }

  /** `sort.Strings` on the names, which orders them by stamp. */
  method SortStamps(s: set<nat>) returns (q: seq<nat>)
    ensures q == Sorted(s)
  {
    q := [];
    var rest := s;
    while rest != {}
      invariant Sorted(s) == q + Sorted(rest)
      decreases rest
    {
      var m := TakeLeast(rest);
      SortedHead(q, rest, m);
      q := q + [m];
      rest := rest - {m};
    }
  }

  /** What one destroy of the loop does to the rest of the execution. */
  lemma PruneStep(c: Row, s: nat, todo: seq<nat>, i: nat, z: Pair, o: Fates, now: nat)
    requires i < |todo|
    ensures Complete(c, ReplicationRun.Prune(s, todo[i..]), z, o, now)
         == Complete(c, ReplicationRun.Prune(s, todo[i + 1..]),
                     if todo[i] in o.spared then z else z.(snaps := z.snaps - {Repl(todo[i])}), o, now)
  {
    assert todo[i..][0] == todo[i] && todo[i..][1..] == todo[i + 1..];
  }

  /** Keeps the two newest replication snapshots; a failed destroy is skipped over. */
  method Prune(host: Host, c: Row, s: nat, o: Fates, now: nat)
    modifies host
    ensures Complete(c, ListSnaps(s), old(host.View()), o, now) == (Some(s), host.View())
  {
    ghost var z := host.View();
    if !o.list.Works? { return; }
    var names := SortStamps(Stamps(host.snaps));
    var n := if |names| <= 2 then 0 else |names| - 2;
    ghost var todo := Victims(z.snaps);
    assert todo == names[..n];
    assert Complete(c, ListSnaps(s), z, o, now) == Complete(c, ReplicationRun.Prune(s, todo), z, o, now);
    var i := 0;
    while i < n
      invariant 0 <= i <= n
      invariant Complete(c, ReplicationRun.Prune(s, todo[i..]), host.View(), o, now)
             == Complete(c, ReplicationRun.Prune(s, todo), z, o, now)
    {
      PruneStep(c, s, todo, i, host.View(), o, now);
      host.DestroySnap(names[i], if names[i] in o.spared then Fails(false) else Works);
      i := i + 1;
    }
    PruneNothing(c, s, host.View(), o, now);
  }

  lemma PruneNothing(c: Row, s: nat, z: Pair, o: Fates, now: nat)
    ensures Complete(c, ReplicationRun.Prune(s, []), z, o, now) == (Some(s), z)
  {
    assert Complete(c, Ended(Some(s)), z, o, now) == (Some(s), z);
  }

  /** Moves the bookmark to `s` and prunes. */
  method PostSuccess(host: Host, c: Row, s: nat, o: Fates, now: nat) returns (r: Option<nat>)
    modifies host
    ensures Complete(c, DropMark(s), old(host.View()), o, now) == (r, host.View())
  {
    ghost var z := host.View();
    host.DestroyMark(o.drop);
    ghost var z1 := host.View();
    assert Complete(c, DropMark(s), z, o, now) == Complete(c, SetMark(s), z1, o, now);
    var ok := host.Bookmark(s, o.mark);
    if !ok {
      assert Complete(c, SetMark(s), z1, o, now) == Complete(c, Ended(None), host.View(), o, now);
      return None;
    }
    assert Complete(c, SetMark(s), z1, o, now) == Complete(c, ListSnaps(s), host.View(), o, now);
    Prune(host, c, s, o, now);
    r := Some(s);
  }

  /** The body of one execution: the new snapshot if it succeeded. */
  method Run(host: Host, c: Row, o: Fates, now: nat) returns (r: Option<nat>)
    modifies host
    ensures Complete(c, Start, old(host.View()), o, now) == (r, host.View())
  {
    ghost var z := host.View();
    if !c.valid {
      assert Complete(c, Start, z, o, now) == Complete(c, Ended(None), z, o, now);
      return None;
    }
    var ok := host.Snapshot(now, o.snapshot);
    ghost var z1 := host.View();
    if !ok {
      assert Complete(c, Start, z, o, now) == Complete(c, Ended(None), z1, o, now);
      return None;
    }
    assert Complete(c, Start, z, o, now) == Complete(c, Send(now), z1, o, now);
    var incremental := c.last.Some?;
    var status := host.Pipeline(now, incremental, o.send);
    ghost var z2 := host.View();
    if status == Done {
      assert Complete(c, Send(now), z1, o, now) == Complete(c, DropMark(now), z2, o, now);
      r := PostSuccess(host, c, now, o, now);
      return;
    }
    if status == NotLaunched || status == Canceled || !incremental || !c.forceFull {
      assert Complete(c, Send(now), z1, o, now) == Complete(c, Ended(None), z2, o, now);
      return None;
    }
    assert Complete(c, Send(now), z1, o, now) == Complete(c, ReplicationRun.DestroyDest(now), z2, o, now);
    ok := host.DestroyDest(o.destroy);
    ghost var z3 := host.View();
    if !ok {
      assert Complete(c, ReplicationRun.DestroyDest(now), z2, o, now) == Complete(c, Ended(None), z3, o, now);
      return None;
    }
    assert Complete(c, ReplicationRun.DestroyDest(now), z2, o, now) == Complete(c, Resend(now), z3, o, now);
    status := host.Pipeline(now, false, o.resend);
    ghost var z4 := host.View();
    if status != Done {
      assert Complete(c, Resend(now), z3, o, now) == Complete(c, Ended(None), z4, o, now);
      return None;
    }
    assert Complete(c, Resend(now), z3, o, now) == Complete(c, DropMark(now), z4, o, now);
    r := PostSuccess(host, c, now, o, now);
  }

  /** A row of `replication_jobs`: what an execution uses and what the tick uses. */
  datatype Stored = Stored(id: nat, row: Row, timing: Job)

  datatype Answer = Started(copy: Row) | AlreadyRunning | NotFound

  class Runner {
    var jobs: seq<Stored>
    var inFlight: set<nat>

    constructor (jobs: seq<Stored>)
      ensures this.jobs == jobs && inFlight == {}
    {
      this.jobs, inFlight := jobs, {};
    }

    /** Ids are the table's primary key. */
    ghost predicate Valid()
      reads this
    {
      && (forall i, k :: 0 <= i < k < |jobs| ==> jobs[i].id != jobs[k].id)
      && (forall i :: 0 <= i < |jobs| ==> Schedules.Valid(jobs[i].timing.schedule))
    }

    method TryAcquire(id: nat) returns (ok: bool)
      modifies this`inFlight
      ensures ok <==> id !in old(inFlight)
      ensures inFlight == old(inFlight) + {id}
    {
      ok := id !in inFlight;
      inFlight := inFlight + {id};
    }

    method Release(id: nat)
      modifies this`inFlight
      ensures inFlight == old(inFlight) - {id}
    {
      inFlight := inFlight - {id};
    }

    /** `RunNow` reads the job first and asks for the slot afterwards. */
    method RunNow(id: nat) returns (a: Answer)
      modifies this`inFlight
      ensures a == NotFound <==> forall i :: 0 <= i < |jobs| ==> jobs[i].id != id
      ensures a == AlreadyRunning ==> id in old(inFlight)
      ensures a.Started? ==>
                id !in old(inFlight) && exists i :: 0 <= i < |jobs| && jobs[i].id == id && a.copy == jobs[i].row
      ensures inFlight == if a.Started? then old(inFlight) + {id} else old(inFlight)
    {
      var i := 0;
      while i < |jobs| && jobs[i].id != id
        invariant 0 <= i <= |jobs|
        invariant forall k :: 0 <= k < i ==> jobs[k].id != id
      {
        i := i + 1;
      }
      if i == |jobs| { return NotFound; }
      var ok := TryAcquire(id);
      a := if ok then Started(jobs[i].row) else AlreadyRunning;
    }

    /** One tick: starts exactly the due jobs whose slot is free, and takes those slots. */
    method Check(now: int) returns (started: seq<nat>)
      requires Valid()
      modifies this`inFlight
      ensures Valid()
      ensures forall i: nat :: i in started ==> i < |jobs| && jobs[i].id !in old(inFlight)
      ensures forall i: nat :: i < |jobs| && jobs[i].timing.lastRun.Some? && jobs[i].id !in old(inFlight) ==>
                (i in started <==>
                  var j := jobs[i].timing; j.enabled && Instants(j.schedule, j.lastRun.value, now) != {})
      ensures forall i: nat :: i < |jobs| && jobs[i].timing.lastRun.None? && jobs[i].timing.created.Some?
                               && jobs[i].id !in old(inFlight) ==>
                (i in started <==>
                  var j := jobs[i].timing; j.enabled && Instants(j.schedule, j.created.value, now) != {})
      ensures forall i: nat :: i < |jobs| && jobs[i].timing.lastRun.None? && jobs[i].timing.created.None? ==>
                i !in started
      ensures forall a, b :: 0 <= a < b < |started| ==> started[a] < started[b]
      ensures inFlight == old(inFlight) + set i | i in started && i < |jobs| :: jobs[i].id
    {
      started := [];
      var i := 0;
      while i < |jobs|
        invariant 0 <= i <= |jobs|
        invariant forall k: nat :: k in started <==>
                    (k < i && Due(jobs[k].timing, now) && jobs[k].id !in old(inFlight))
        invariant forall a, b :: 0 <= a < b < |started| ==> started[a] < started[b]
        invariant forall a :: 0 <= a < |started| ==> started[a] < i
        invariant inFlight == old(inFlight) + set k | k in started && k < |jobs| :: jobs[k].id
      {
        var j := jobs[i].timing;
        if j.enabled {
          var next := Next(j.schedule, Base(j, now));
          if next <= now && jobs[i].id !in inFlight {
            var ok := TryAcquire(jobs[i].id);
            started := started + [i];
          }
        }
        i := i + 1;
      }
      forall k: nat | k < |jobs|
        ensures Due(jobs[k].timing, now) <==> jobs[k].timing.enabled && InstantPassed(jobs[k].timing, now)
      {
        DueIffInstantPassed(jobs[k].timing, now);
      }
    }

    /** A whole execution: run, record, give the slot back. `at` is the end, `stored` whether the write worked. */
    method Execute(host: Host, i: nat, copy: Row, o: Fates, now: nat, at: int, stored: bool)
      requires Valid() && i < |jobs| && jobs[i].id in inFlight
      modifies this, host
      ensures Valid() && |jobs| == |old(jobs)|
      ensures inFlight == old(inFlight) - {old(jobs)[i].id}
      ensures forall k :: 0 <= k < |jobs| && (k != i || !stored) ==> jobs[k] == old(jobs)[k]
      ensures host.View() == Complete(copy, Start, old(host.View()), o, now).1
      ensures var r := Complete(copy, Start, old(host.View()), o, now).0;
              stored ==>
                && jobs[i].id == old(jobs)[i].id
                && jobs[i].timing == old(jobs)[i].timing.(lastRun := Some(ToSecond(at)))
                && jobs[i].row == old(jobs)[i].row.(last := if r.Some? then r else copy.last, lastOk := Some(r.Some?))
    {
      var r := Run(host, copy, o, now);
      var bookmark := if r.Some? then r else copy.last;
      if stored {
        var j := jobs[i];
        jobs := jobs[i := j.(timing := j.timing.(lastRun := Some(ToSecond(at))),
                             row := j.row.(last := bookmark, lastOk := Some(r.Some?)))];
      }
      Release(jobs[i].id);
    }
  }
}
