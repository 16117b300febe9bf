/** Long-running processes and their registry (internal/longops/longops.go). */
module Longops {
  import opened Options

  const MAX_LINES := 50
  const DONE_TTL := 3600

  datatype Status = Running | Done | Error | Canceled

  /** What is known of one op; `cancel` is whether its cancel function is still there. */
  datatype State = State(status: Status, ended: Option<int>, lines: seq<string>, cancel: bool, canceledReq: bool)

  const STARTED := State(Running, None, [], true, false)

  /** What can happen to an op: it prints a line, somebody cancels it, or `watch` sees the process end. */
  datatype Event = Line(text: string) | Cancel | Close(failed: bool, at: int)

  function Last(s: seq<string>): seq<string> {
    if |s| > MAX_LINES then s[|s| - MAX_LINES..] else s
  }

  /** `s` is the end of `all`. */
  ghost predicate IsTail(s: seq<string>, all: seq<string>) {
    |s| <= |all| && forall i :: 0 <= i < |s| ==> s[i] == all[|all| - |s| + i]
  }

  /** `watch` drains the output before it closes the op and closes it once, so nothing but a late
      cancellation request can still come after that. */
  function Step(o: State, e: Event): State {
    match e
    case Line(text) => if o.ended.Some? then o else o.(lines := Last(o.lines + [text]))
    case Cancel => if o.cancel then o.(canceledReq := true) else o
    case Close(failed, at) =>
      if o.ended.Some? then o
      else o.(ended := Some(at), cancel := false,
              status := if o.canceledReq then Canceled else if failed then Error else Done)
  }

  function Life(o: State, events: seq<Event>): State
    decreases |events|
  {
    if events == [] then o else Step(Life(o, events[..|events| - 1]), events[|events| - 1])
  }

  /** Where the op is closed: the first close, or the end of the events. */
  function ClosedAt(events: seq<Event>): (k: nat)
    ensures k <= |events|
    ensures k < |events| ==> events[k].Close?
    ensures forall i :: 0 <= i < k ==> !events[i].Close?
  {
    if events == [] then 0 else if events[0].Close? then 0 else 1 + ClosedAt(events[1..])
  }

  function Output(events: seq<Event>): seq<string> {
    if events == [] then []
    else Output(events[..|events| - 1]) + (if events[|events| - 1].Line? then [events[|events| - 1].text] else [])
  }

  /** An open op after events without a close. */
  lemma {:induction false} LifeOpen(events: seq<Event>)
    requires forall i :: 0 <= i < |events| ==> !events[i].Close?
    ensures Life(STARTED, events) == State(Running, None, Last(Output(events)), true, Cancel in events)
    decreases |events|
  {
    if events != [] {
      var n := |events| - 1;
      var e, before := events[n], events[..n];
      LifeOpen(before);
      assert Life(STARTED, events) == Step(Life(STARTED, before), e);
      assert events == before + [e];
      if e.Line? {
        LastAppend(Output(before), e.text);
        assert Output(events) == Output(before) + [e.text];
      } else {
        assert Output(events) == Output(before);
      }
    }
  }

  /** Keeping the last lines one by one keeps the last lines of all. */
  lemma LastAppend(s: seq<string>, line: string)
    ensures Last(Last(s) + [line]) == Last(s + [line])
  {
  }

  /** Terminal states do not change. */
  lemma {:induction false} LifeClosed(events: seq<Event>, k: nat)
    requires k < |events| && events[k].Close? && forall i :: 0 <= i < k ==> !events[i].Close?
    ensures Life(STARTED, events) == Life(STARTED, events[..k + 1])
    decreases |events|
  {
    if k + 1 == |events| {
      assert events[..k + 1] == events;
    } else {
      var n := |events| - 1;
      LifeClosed(events[..n], k);
      assert events[..n][..k + 1] == events[..k + 1];
      LifeOpen(events[..k]);
      assert events[..k + 1][..k] == events[..k];
    }
  }

  /** The whole life of an op, whatever happens to it and in whatever order: running with its cancel function
      until the first close, then for ever in one terminal state, which is `Canceled` exactly when cancellation was
      asked for before that close; and always the last fifty lines printed until then. */
  lemma LifeOfAnOp(events: seq<Event>)
    ensures var o, k := Life(STARTED, events), ClosedAt(events);
            && (o.status == Running <==> k == |events|)
            && (o.status == Running <==> o.cancel) && (o.status == Running <==> o.ended.None?)
            && (o.status == Canceled <==> k < |events| && Cancel in events[..k])
            && (o.status == Error <==> k < |events| && Cancel !in events[..k] && events[k].failed)
            && (k < |events| ==> o.ended == Some(events[k].at))
            && IsTail(o.lines, Output(events[..k]))
            && |o.lines| == if |Output(events[..k])| <= 50 then |Output(events[..k])| else 50
  {
    var k := ClosedAt(events);
    LifeOpen(events[..k]);
    if k < |events| {
      LifeClosed(events, k);
      assert events[..k + 1][..k] == events[..k];
    } else {
      assert events[..k] == events;
    }
  }

  // ---------- the registry ----------

  class Op {
    const id: nat
    const target: string
    var status: Status
    var ended: Option<int>
    var lines: seq<string>
    var cancel: bool
    var canceledReq: bool

    constructor (id: nat, target: string)
      ensures this.id == id && this.target == target && View() == STARTED
    {
      this.id, this.target := id, target;
      status, ended, lines, cancel, canceledReq := Running, None, [], true, false;
    }

    function View(): State
      reads this
    {
      State(status, ended, lines, cancel, canceledReq)
    }

    /** Called while the op is open. */
    method AppendLine(line: string)
      requires ended.None?
      modifies this
      ensures View() == Step(old(View()), Line(line))
    {
      lines := lines + [line];
      if |lines| > MAX_LINES {
        lines := lines[|lines| - MAX_LINES..];
      }
    }

    /** The end of `watch`. */
    method Finish(failed: bool, at: int)
      requires ended.None?
      modifies this
      ensures View() == Step(old(View()), Close(failed, at))
    {
      ended := Some(at);
      if canceledReq {
        status := Canceled;
      } else if failed {
        status := Error;
      } else {
        status := Done;
      }
      cancel := false;
    }
  }

  /** An op ended before the cutoff is forgotten. */
  predicate Keep(ended: Option<int>, cutoff: int) {
    ended.None? || ended.value >= cutoff
  }

  ghost function Dead(ops: seq<Op>, cutoff: int): set<Op>
    reads ops
  {
    set o | o in ops && !Keep(o.ended, cutoff)
  }

  /** `ops` without those in `dead`, in order. */
  ghost function Without(ops: seq<Op>, dead: set<Op>): seq<Op> {
    if ops == [] then []
    else
      var n := |ops| - 1;
      Without(ops[..n], dead) + (if ops[n] in dead then [] else [ops[n]])
  }

  /** Moves the ops that stay to the front of the slice; the result is how many they are. */
  method Compact(buf: array<Op>, len: nat, cutoff: int) returns (k: nat)
    requires len <= buf.Length
    modifies buf
    ensures k <= len && buf[..k] == Without(old(buf[..len]), old(Dead(buf[..len], cutoff)))
    ensures forall o :: o in buf[..k] <==> o in old(buf[..len]) && (o.ended.None? || o.ended.value >= cutoff)
  {
    ghost var all, dead := buf[..len], Dead(buf[..len], cutoff);
    ghost var kept: seq<Op> := [];
    k := 0;
    var i := 0;
    while i < len
      invariant 0 <= k <= i <= len == |all|
      invariant kept == Without(all[..i], dead) && |kept| == k
      invariant forall j :: 0 <= j < k ==> buf[j] == kept[j]
      invariant forall j :: i <= j < len ==> buf[j] == all[j]
    {
      var op := buf[i];
      WithoutNext(all, i, dead);
      assert op in all;
      if Keep(op.ended, cutoff) {
        buf[k] := op;
        kept := kept + [op];
        k := k + 1;
      }
      i := i + 1;
    }
    assert all[..i] == all;
    assert buf[..k] == kept;
    WithoutIff(all, dead);
  }

  class Manager {
    /** The slice `ops` is the first `len` elements of `buf`, most recent first. */
    var buf: array<Op>
    var len: nat
    var seqNo: nat

    ghost predicate Valid()
      reads this, buf
    {
      && len <= buf.Length
      && (forall i :: 0 <= i < len ==> buf[i].id <= seqNo)
      && (forall i, k :: 0 <= i < k < len ==> buf[i].id > buf[k].id)
    }

    ghost function Contents(): seq<Op>
      requires len <= buf.Length
      reads this, buf
    {
      buf[..len]
    }

    constructor ()
      ensures Valid() && Contents() == [] && fresh(buf)
    {
      buf, len, seqNo := new Op[0], 0, 0;
    }

    /** Registers a new op in front of a fresh copy of the list. */
    method Start(target: string) returns (op: Op)
      requires Valid()
      modifies this
      ensures Valid() && fresh(buf) && fresh(op)
      ensures op.View() == STARTED && op.target == target
      ensures Contents() == [op] + old(Contents())
      ensures forall o :: o in old(Contents()) ==> o.id < op.id
    {
      seqNo := seqNo + 1;
      op := new Op(seqNo, target);
      var previous := buf;
      var n := len;
      buf := new Op[n + 1](i requires 0 <= i < n + 1 && n <= previous.Length reads previous =>
        if i == 0 then op else previous[i - 1]);
      len := n + 1;
      assert Contents() == [op] + old(Contents());
    }

    /** The position of op `id`, or `len`. */
    method Find(id: nat) returns (i: nat)
      requires Valid()
      ensures i <= len
      ensures i < len ==> buf[i].id == id
      ensures i == len ==> forall o :: o in Contents() ==> o.id != id
    {
      i := 0;
      while i < len && buf[i].id != id
        invariant i <= len
        invariant forall k :: 0 <= k < i ==> buf[k].id != id
      {
        i := i + 1;
      }
    }

    method Get(id: nat) returns (r: Option<State>)
      requires Valid()
      ensures r.None? <==> forall o :: o in Contents() ==> o.id != id
      ensures r.Some? ==> forall o :: o in Contents() && o.id == id ==> r.value == o.View()
    {
      var i := Find(id);
      if i == len { return None; }
      assert buf[i] in Contents();
      r := Some(buf[i].View());
    }

    /** Asks for cancellation: refused for an op not registered or no longer running. */
    method Cancel(id: nat) returns (r: CancelResult)
      requires Valid()
      modifies Contents()
      ensures Valid() && Contents() == old(Contents())
      ensures r == NotFound <==> forall o :: o in Contents() ==> o.id != id
      ensures forall o :: o in Contents() ==>
                o.View() == if o.id == id then Step(old(o.View()), Event.Cancel) else old(o.View())
      ensures forall o :: o in Contents() && o.id == id ==> (r == Requested <==> old(o.cancel))
    {
      var i := Find(id);
      if i == len { return NotFound; }
      var op := buf[i];
      assert forall k :: 0 <= k < len && k != i ==> buf[k].id != id;
      var cancel := op.cancel;
      if cancel { op.canceledReq := true; }
      r := if cancel then Requested else NotRunning;
    }

    /** Forgets ops ended before the cutoff, in place and in order. */
    method Purge(cutoff: int)
      requires Valid()
      modifies this`len, buf
      ensures Valid() && buf == old(buf)
      ensures forall o :: o in Contents() <==>
                o in old(Contents()) && (o.ended.None? || o.ended.value >= cutoff)
      ensures Contents() == Without(old(Contents()), old(Dead(Contents(), cutoff)))
    {
      ghost var all, dead := Contents(), Dead(Contents(), cutoff);
      WithoutOrder(all, dead, seqNo);
      var k := Compact(buf, len, cutoff);
      len := k;
      assert forall i :: 0 <= i < len ==> buf[i] == Contents()[i];
    }

    /** Purges what ended more than an hour before `now` and copies out the rest. */
    method List(now: int) returns (out: seq<State>)
      requires Valid()
      modifies this`len, buf
      ensures Valid() && buf == old(buf)
      ensures forall o :: o in Contents() <==>
                o in old(Contents()) && (o.ended.None? || o.ended.value >= now - 3600)
      ensures Contents() == Without(old(Contents()), old(Dead(Contents(), now - DONE_TTL)))
      ensures |out| == len && forall i :: 0 <= i < len ==> out[i] == buf[i].View()
    {
      Purge(now - DONE_TTL);
      out := Copies();
    }

    /** Copies of all ops, which nobody outside can change them through. */
    method Copies() returns (out: seq<State>)
      requires Valid()
      ensures |out| == len && forall i :: 0 <= i < len ==> out[i] == buf[i].View()
    {
      out := [];
      var i := 0;
      while i < len
        invariant 0 <= i <= len
        invariant |out| == i && forall j :: 0 <= j < i ==> out[j] == buf[j].View()
      {
        out := out + [buf[i].View()];
        i := i + 1;
      }
    }
  }

  datatype CancelResult = Requested | NotRunning | NotFound

  ghost predicate Descending(ops: seq<Op>, top: nat) {
    && (forall i :: 0 <= i < |ops| ==> ops[i].id <= top)
    && (forall i, k :: 0 <= i < k < |ops| ==> ops[i].id > ops[k].id)
  }

  lemma WithoutNext(ops: seq<Op>, i: nat, dead: set<Op>)
    requires i < |ops|
    ensures Without(ops[..i + 1], dead) == Without(ops[..i], dead) + (if ops[i] in dead then [] else [ops[i]])
  {
    assert ops[..i + 1][..i] == ops[..i];
  }

  lemma WithoutIff(ops: seq<Op>, dead: set<Op>)
    ensures forall o :: o in Without(ops, dead) <==> o in ops && o !in dead
  {
    WithoutMembers(ops, dead);
    var kept := Without(ops, dead);
    forall o ensures o in kept <==> o in ops && o !in dead {
      if o in kept { var i :| 0 <= i < |kept| && kept[i] == o; }
      if o in ops && o !in dead { var i :| 0 <= i < |ops| && ops[i] == o; }
    }
  }

  /** Purging takes away the dead and nothing else, */
  lemma {:induction false} WithoutMembers(ops: seq<Op>, dead: set<Op>)
    ensures forall i :: 0 <= i < |Without(ops, dead)| ==> Without(ops, dead)[i] in ops && Without(ops, dead)[i] !in dead
    ensures forall i :: 0 <= i < |ops| && ops[i] !in dead ==> ops[i] in Without(ops, dead)
    decreases |ops|
  {
    if ops != [] {
      var n := |ops| - 1;
      WithoutMembers(ops[..n], dead);
      assert ops == ops[..n] + [ops[n]];
      assert forall i :: 0 <= i < n ==> ops[..n][i] == ops[i];
    }
  }

  /** and keeps the order. */
  lemma {:induction false} WithoutOrder(ops: seq<Op>, dead: set<Op>, top: nat)
    requires Descending(ops, top)
    ensures Descending(Without(ops, dead), top)
    decreases |ops|
  {
    if ops != [] {
      var n := |ops| - 1;
      var front := Without(ops[..n], dead);
      WithoutOrder(ops[..n], dead, top);
      WithoutMembers(ops[..n], dead);
      forall i | 0 <= i < |front| ensures front[i].id > ops[n].id {
        assert front[i] in ops[..n];
        var j :| 0 <= j < n && ops[..n][j] == front[i];
        assert ops[j].id > ops[n].id;
      }
    }
  }
}
