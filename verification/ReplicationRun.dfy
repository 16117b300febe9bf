/** One execution of a replication job, command by command (internal/replication/runner.go, `run`,
    `postSuccess` and `prune`). `Exec` is one command; `Complete` runs an execution to its end. */
module ReplicationRun {
  import opened Options
  import opened Zfs

  /** The part of a stored job that an execution reads and `MarkRun` writes. `last` is `last_bookmark`. */
  datatype Row = Row(valid: bool, forceFull: bool, last: Option<nat>, lastOk: Option<bool>)

  /** Where an execution stands: the command it issues next, with the snapshot it is about. */
  datatype Phase =
    | Start
    | Send(snap: nat)
    | DestroyDest(snap: nat)
    | Resend(snap: nat)
    | DropMark(snap: nat)
    | SetMark(snap: nat)
    | ListSnaps(snap: nat)
    | Prune(snap: nat, todo: seq<nat>)
    | Ended(result: Option<nat>)
  {
    ghost function Rank(): nat {
      match this
      case Start => 8
      case Send(_) => 7
      case DestroyDest(_) => 6
      case Resend(_) => 5
      case DropMark(_) => 4
      case SetMark(_) => 3
      case ListSnaps(_) => 2
      case Prune(_, _) => 1
      case Ended(_) => 0
    }

    ghost function Todo(): nat {
      if Prune? then |todo| else 0
    }
  }

  // ---------- which snapshots prune gives up ----------

  function Stamps(snaps: set<Snap>): (r: set<nat>)
    ensures forall n :: n in r <==> Repl(n) in snaps
  {
    set x | x in snaps && x.Repl? :: x.stamp
  }

  ghost predicate IsLeast(m: nat, s: set<nat>) {
    m in s && forall n :: n in s ==> m <= n
  }

  lemma LeastExists(s: set<nat>)
    requires s != {}
    ensures exists m: nat :: IsLeast(m, s)
  {
    var x: nat :| x in s;
    if s == {x} {
      assert IsLeast(x, s);
    } else {
      LeastExists(s - {x});
      var m: nat :| IsLeast(m, s - {x});
      forall n | n in s ensures (if m < x then m else x) <= n { assert n == x || n in s - {x}; }
      assert IsLeast(if m < x then m else x, s);
    }
  }

  ghost function Least(s: set<nat>): (m: nat)
    requires s != {}
    ensures IsLeast(m, s)
  {
    LeastExists(s);
    var m: nat :| IsLeast(m, s);
    m
  }

  /** The stamps in increasing order, as `sort.Strings` leaves the names. */
  ghost function Sorted(s: set<nat>): (q: seq<nat>)
    ensures |q| == |s|
    ensures forall n :: n in q <==> n in s
  {
    if s == {} then [] else [Least(s)] + Sorted(s - {Least(s)})
  }

  lemma {:induction false} SortedIncreases(s: set<nat>)
    ensures forall i, j :: 0 <= i < j < |Sorted(s)| ==> Sorted(s)[i] < Sorted(s)[j]
  {
    if s != {} {
      var m, rest := Least(s), Sorted(s - {Least(s)});
      SortedIncreases(s - {m});
      var q := Sorted(s);
      assert q == [m] + rest;
      forall i, j | 0 <= i < j < |q| ensures q[i] < q[j] {
        assert q[j] == rest[j - 1] && rest[j - 1] in rest;
        if i > 0 { assert q[i] == rest[i - 1]; }
      }
    }
  }

  /** `snaps[:max(0, len-2)]`: every replication snapshot but the two newest. */
  ghost function Victims(snaps: set<Snap>): seq<nat> {
    var q := Sorted(Stamps(snaps));
    if |q| <= 2 then [] else q[..|q| - 2]
  }

  // ---------- one command ----------

  /** The command of phase `p` ends with fate `f` at second `now`. */
  ghost function Exec(c: Row, p: Phase, z: Pair, f: Fate, now: nat): (Phase, Pair) {
    match p
    case Start =>
      var free := c.valid && Repl(now) !in z.snaps;
      var z' := if free && f.Applies() then z.(snaps := z.snaps + {Repl(now)}) else z;
      (if free && f.Works? then Send(now) else Ended(None), z')
    case Send(s) =>
      var incremental := c.last.Some?;
      var can := CanSend(z, s, incremental);
      var z' := if can && f.Applies() then Receive(z, s) else z;
      if can && f.Works? then (DropMark(s), z')
      else if !f.NotStarted? && !f.Cancelled? && incremental && c.forceFull then (DestroyDest(s), z')
      else (Ended(None), z')
    case DestroyDest(s) =>
      var z' := if f.Applies() then z.(dest := None) else z;
      (if z.dest.Some? && f.Works? then Resend(s) else Ended(None), z')
    case Resend(s) =>
      var can := CanSend(z, s, false);
      var z' := if can && f.Applies() then Receive(z, s) else z;
      (if can && f.Works? then DropMark(s) else Ended(None), z')
    case DropMark(s) =>
      (SetMark(s), if f.Applies() then z.(mark := None) else z)
    case SetMark(s) =>
      var can := z.mark.None? && Repl(s) in z.snaps;
      var z' := if can && f.Applies() then z.(mark := Some(s)) else z;
      (if can && f.Works? then ListSnaps(s) else Ended(None), z')
    case ListSnaps(s) =>
      (if f.Works? then Prune(s, Victims(z.snaps)) else Ended(Some(s)), z)
    case Prune(s, todo) =>
      if todo == [] then (Ended(Some(s)), z)
      else (Prune(s, todo[1..]), if f.Applies() then z.(snaps := z.snaps - {Repl(todo[0])}) else z)
    case Ended(_) => (p, z)
  }

  /** Every command moves the execution on: none can run for ever. */
  lemma ExecProgress(c: Row, p: Phase, z: Pair, f: Fate, now: nat)
    requires !p.Ended?
    ensures var p' := Exec(c, p, z, f, now).0;
            p'.Rank() < p.Rank() || (p'.Rank() == p.Rank() && p'.Todo() < p.Todo())
  {
  }

  // ---------- a whole execution ----------

  /** How each command of one execution will end; `spared` are the stamps whose destroy fails. */
  datatype Fates = Fates(snapshot: Fate, send: Fate, destroy: Fate, resend: Fate,
                         drop: Fate, mark: Fate, list: Fate, spared: set<nat>)

  const ALL_WORK := Fates(Works, Works, Works, Works, Works, Works, Works, {})

  function FateOf(o: Fates, p: Phase): Fate {
    match p
    case Start => o.snapshot
    case Send(_) => o.send
    case DestroyDest(_) => o.destroy
    case Resend(_) => o.resend
    case DropMark(_) => o.drop
    case SetMark(_) => o.mark
    case ListSnaps(_) => o.list
    case Prune(_, todo) => if todo != [] && todo[0] in o.spared then Fails(false) else Works
    case Ended(_) => Works
  }

  ghost function Complete(c: Row, p: Phase, z: Pair, o: Fates, now: nat): (r: (Option<nat>, Pair))
    decreases p.Rank(), p.Todo()
  {
    if p.Ended? then (p.result, z)
    else
      ExecProgress(c, p, z, FateOf(o, p), now);
      var (p', z') := Exec(c, p, z, FateOf(o, p), now);
      Complete(c, p', z', o, now)
  }

  // ---------- what holds at every command ----------

  /** The invariant of an execution that is at phase `p` of a copy `c`. */
  ghost predicate Sound(c: Row, p: Phase, z: Pair, clock: nat) {
    && z.UpTo(clock)
    && match p
       case Start => true
       case Send(s) => Latest(z, s)
       case DestroyDest(s) => Latest(z, s) && c.forceFull && c.last.Some?
       case Resend(s) => Latest(z, s) && c.forceFull && c.last.Some?
       case DropMark(s) => Latest(z, s) && z.Newest() == Some(s)
       case SetMark(s) => Latest(z, s) && z.Newest() == Some(s)
       case ListSnaps(s) => Latest(z, s) && z.InSync(s)
       case Prune(s, todo) => Latest(z, s) && z.InSync(s) && Older(todo, s)
       case Ended(r) => r.Some? ==> z.InSync(r.value)
  }

  ghost predicate Older(todo: seq<nat>, s: nat) {
    forall n :: n in todo ==> n < s
  }

  /** `s` is the newest replication snapshot of the source. */
  ghost predicate Latest(z: Pair, s: nat) {
    Repl(s) in z.snaps && forall n: nat :: Repl(n) in z.snaps ==> n <= s
  }

  lemma VictimsFacts(snaps: set<Snap>, n: nat)
    ensures n in Victims(snaps) ==> Repl(n) in snaps
    ensures |Victims(snaps)| == if |Stamps(snaps)| <= 2 then 0 else |Stamps(snaps)| - 2
    ensures forall i, j :: 0 <= i < j < |Victims(snaps)| ==> Victims(snaps)[i] < Victims(snaps)[j]
  {
    SortedIncreases(Stamps(snaps));
  }

  /** Every victim is older than every replication snapshot that is kept. */
  lemma VictimsBeforeKept(snaps: set<Snap>, v: nat, k: nat)
    requires v in Victims(snaps) && Repl(k) in snaps && k !in Victims(snaps)
    ensures v < k
  {
    var q := Sorted(Stamps(snaps));
    SortedIncreases(Stamps(snaps));
    var i :| 0 <= i < |q| - 2 && q[i] == v;
    assert forall x :: 0 <= x < |q| - 2 ==> q[x] in Victims(snaps);
    assert k in q;
    var j :| 0 <= j < |q| && q[j] == k;
  }

  /** The newest snapshot is never a victim, nor is anything older than a survivor kept in its place. */
  lemma VictimsOlder(z: Pair, s: nat, n: nat)
    requires Latest(z, s)
    requires n in Victims(z.snaps)
    ensures n < s
  {
    VictimsFacts(z.snaps, n);
    var q := Sorted(Stamps(z.snaps));
    SortedIncreases(Stamps(z.snaps));
    var i :| 0 <= i < |q| - 2 && q[i] == n;
    assert q[i] < q[|q| - 1];
    assert q[|q| - 1] in q;
  }

  lemma ExecSound(c: Row, p: Phase, z: Pair, f: Fate, clock: nat)
    requires Sound(c, p, z, clock)
    ensures var (p', z') := Exec(c, p, z, f, clock); Sound(c, p', z', clock)
  {
    var (p', z') := Exec(c, p, z, f, clock);
    match p
    case ListSnaps(s) =>
      forall n | n in Victims(z.snaps) ensures n < s { VictimsOlder(z, s, n); }
    case Prune(s, todo) =>
      if todo != [] {
        assert todo[0] in todo;
        assert forall n :: n in todo[1..] ==> n in todo;
      }
    case _ =>
  }

  /** The result of an execution, and the state it leaves, whatever its commands did. */
  lemma {:induction false} CompleteSound(c: Row, p: Phase, z: Pair, o: Fates, now: nat)
    requires Sound(c, p, z, now)
    ensures var (r, z') := Complete(c, p, z, o, now); z'.UpTo(now) && (r.Some? ==> z'.InSync(r.value))
    decreases p.Rank(), p.Todo()
  {
    if !p.Ended? {
      ExecSound(c, p, z, FateOf(o, p), now);
      ExecProgress(c, p, z, FateOf(o, p), now);
      var (p', z') := Exec(c, p, z, FateOf(o, p), now);
      CompleteSound(c, p', z', o, now);
    }
  }
}
