/** The ZFS side of one replication job: what the `zfs` commands need, what they change, and how they may end. */
module Zfs {
  import opened Options

  /** A snapshot of the source: one taken by replication, named by its second, or somebody else's. */
  datatype Snap = Repl(stamp: nat) | Foreign(name: string)

  /** The source's snapshots, its bookmark `ezrepl-last` (by the snapshot it came from), and the
      snapshots the destination received, oldest first; `None` is a dataset that does not exist. */
  datatype Pair = Pair(snaps: set<Snap>, mark: Option<nat>, dest: Option<seq<nat>>) {
    /** The destination's newest snapshot. */
    ghost function Newest(): Option<nat> {
      if dest.Some? && dest.value != [] then Some(dest.value[|dest.value| - 1]) else None
    }

    ghost function History(): seq<nat> {
      if dest.Some? then dest.value else []
    }

    /** Bookmark and destination both stand at `s`, which the source still has. */
    ghost predicate InSync(s: nat) {
      mark == Some(s) && Newest() == Some(s) && Repl(s) in snaps
    }

    /** Nothing in the pair is as late as `t`. */
    ghost predicate Before(t: nat) {
      && (forall n: nat :: Repl(n) in snaps ==> n < t)
      && (mark.Some? ==> mark.value < t)
    }

    ghost predicate UpTo(t: nat) {
      && (forall n: nat :: Repl(n) in snaps ==> n <= t)
      && (mark.Some? ==> mark.value <= t)
    }
  }

  /** How a command ends. One that fails or is cancelled may still have taken effect: a time-out can
      strike after the work is done, and a cancellation asked for in the last instant wins over success. */
  datatype Fate = Works | Fails(applied: bool) | Cancelled(applied: bool) | NotStarted {
    predicate Applies() {
      match this
      case Works => true
      case Fails(a) => a
      case Cancelled(a) => a
      case NotStarted => false
    }
  }

  /** What a fate leaves behind. */
  lemma AppliesIff(f: Fate)
    ensures f.Applies() <==> f == Works || f == Fails(true) || f == Cancelled(true)
  {
  }

  /** `zfs send [-i bookmark] snap | zfs recv dest` is refused unless this holds. */
  predicate CanSend(z: Pair, s: nat, incremental: bool) {
    && Repl(s) in z.snaps
    && if incremental then
         && z.mark.Some? && z.dest.Some? && z.dest.value != []
         && z.mark.value < s
         && z.dest.value[|z.dest.value| - 1] == z.mark.value
       else z.dest.None?
  }

  function Receive(z: Pair, s: nat): Pair {
    z.(dest := Some((if z.dest.Some? then z.dest.value else []) + [s]))
  }
}
