/** Alerts raised by several goroutines at once: `RaiseKind` selects first and then updates or inserts, without a
    transaction, so other raises and acknowledgements may come between (internal/alerts/alerts.go, `RaiseKind`,
    `Ack`). */
module AlertRaces {
  import opened Options
  import opened Alerts

  datatype Raise = Raise(level: string, source: string, message: string, kind: string)

  /** A raise that has selected, the row it found, and how many rows there were. */
  datatype Pending = Pending(r: Raise, found: Option<nat>, seen: nat)

  datatype Board = Board(rows: seq<Row>, pending: map<nat, Pending>)

  datatype Action = Select(tid: nat, r: Raise) | Write(tid: nat) | Acknowledge(id: nat)

  predicate Matches(row: Row, r: Raise) { Same(row, r.source, r.kind, r.message) }

  /** The first row from `i` on that the select finds. */
  function First(rows: seq<Row>, r: Raise, i: nat): (k: Option<nat>)
    requires i <= |rows|
    ensures k.Some? ==> i <= k.value < |rows| && Matches(rows[k.value], r)
    ensures k.None? ==> forall j :: i <= j < |rows| ==> !Matches(rows[j], r)
    decreases |rows| - i
  {
    if i == |rows| then None else if Matches(rows[i], r) then Some(i) else First(rows, r, i + 1)
  }

  function Written(rows: seq<Row>, p: Pending): seq<Row> {
    match p.found
    case Some(i) =>
      if p.r.kind != "" && i < |rows| then rows[i := rows[i].(level := p.r.level, message := p.r.message)] else rows
    case None => rows + [Row(p.r.source, p.r.kind, p.r.level, p.r.message, false)]
  }

  function Do(b: Board, a: Action): Board {
    match a
    case Select(t, r) =>
      if t in b.pending then b
      else b.(pending := b.pending[t := Pending(r, First(b.rows, r, 0), |b.rows|)])
    case Write(t) =>
      if t in b.pending then Board(Written(b.rows, b.pending[t]), b.pending - {t}) else b
    case Acknowledge(id) => if id < |b.rows| then b.(rows := b.rows[id := b.rows[id].(acked := true)]) else b
  }

  function After(b: Board, acts: seq<Action>): Board
    decreases |acts|
  {
    if acts == [] then b else After(Do(b, acts[0]), acts[1..])
  }

  /** Row `i` is active and has this subject: the kind, or without a kind the message. */
  ghost predicate ClashAt(rows: seq<Row>, i: int, r: Raise) {
    && 0 <= i < |rows| && !rows[i].acked && rows[i].source == r.source && rows[i].kind == r.kind
    && (r.kind == "" ==> rows[i].message == r.message)
  }

  /** The row a raise found is still there, with the subject it had; if it found none, no row that was there has its
      subject even now. */
  ghost predicate PendingSound(rows: seq<Row>, p: Pending) {
    && p.seen <= |rows|
    && (p.found.Some? ==>
          p.found.value < |rows| && rows[p.found.value].source == p.r.source
          && (p.r.kind != "" ==> rows[p.found.value].kind == p.r.kind))
    && (p.found.None? ==> forall i :: 0 <= i < p.seen ==> !ClashAt(rows, i, p.r))
  }

  ghost predicate Sound(b: Board) {
    forall t :: t in b.pending ==> PendingSound(b.rows, b.pending[t])
  }

  /** Rows only come, are refreshed under their kind, or are acknowledged. */
  ghost predicate Evolves(rows: seq<Row>, rows': seq<Row>) {
    && |rows| <= |rows'|
    && forall i :: 0 <= i < |rows| ==>
         && rows'[i].source == rows[i].source && rows'[i].kind == rows[i].kind && (rows[i].acked ==> rows'[i].acked)
         && (rows[i].kind == "" ==> rows'[i].message == rows[i].message)
  }

  lemma DoEvolves(b: Board, a: Action)
    requires Sound(b)
    ensures Evolves(b.rows, Do(b, a).rows)
  {
    if a.Write? && a.tid in b.pending { assert PendingSound(b.rows, b.pending[a.tid]); }
  }

  /** So an old row never takes on a subject. */
  lemma StaysSound(rows: seq<Row>, rows': seq<Row>, p: Pending)
    requires PendingSound(rows, p) && Evolves(rows, rows')
    ensures PendingSound(rows', p)
  {
    if p.found.None? {
      forall i | 0 <= i < p.seen ensures !ClashAt(rows', i, p.r) { assert !ClashAt(rows, i, p.r); }
    }
  }

  lemma DoSound(b: Board, a: Action)
    requires Sound(b)
    ensures Sound(Do(b, a))
  {
    var e := Do(b, a);
    DoEvolves(b, a);
    forall t | t in e.pending ensures PendingSound(e.rows, e.pending[t]) {
      if t in b.pending {
        StaysSound(b.rows, e.rows, b.pending[t]);
      } else {
        SelectSound(b.rows, a.r);
      }
    }
  }

  lemma SelectSound(rows: seq<Row>, r: Raise)
    ensures PendingSound(rows, Pending(r, First(rows, r, 0), |rows|))
  {
    forall i | First(rows, r, 0).None? && 0 <= i < |rows| ensures !ClashAt(rows, i, r) {
      assert !Matches(rows[i], r);
    }
  }

  /** The write inserts, and since its select another raise of its subject inserted a row that is still active. */
  ghost predicate Overtaken(b: Board, a: Action) {
    && a.Write? && a.tid in b.pending && b.pending[a.tid].found.None?
    && exists i :: b.pending[a.tid].seen <= i && ClashAt(b.rows, i, b.pending[a.tid].r)
  }

  lemma InsertIff(rows: seq<Row>, r: Raise)
    requires Deduplicated(rows)
    ensures Deduplicated(rows + [Row(r.source, r.kind, r.level, r.message, false)])
            <==> !exists i :: ClashAt(rows, i, r)
  {
    var all := rows + [Row(r.source, r.kind, r.level, r.message, false)];
    if i :| ClashAt(rows, i, r) {
      assert all[i] == rows[i] && all[|rows|].kind == r.kind;
    } else {
      forall i, j | 0 <= i < j < |all| && !all[i].acked && !all[j].acked && all[i].source == all[j].source
                    && all[i].kind == all[j].kind
        ensures all[i].kind == "" && all[i].message != all[j].message
      {
        if j == |rows| { assert !ClashAt(rows, i, r); }
      }
    }
  }

  /** One step keeps the table deduplicated if and only if it is not a write that was overtaken. */
  lemma OvertakenIff(b: Board, a: Action)
    requires Sound(b) && Deduplicated(b.rows)
    ensures Deduplicated(Do(b, a).rows) <==> !Overtaken(b, a)
  {
    if a.Write? && a.tid in b.pending {
      var p := b.pending[a.tid];
      assert PendingSound(b.rows, p);
      if p.found.None? {
        InsertIff(b.rows, p.r);
        forall i | ClashAt(b.rows, i, p.r) ensures p.seen <= i {
        }
      }
    }
  }

  ghost predicate AlwaysDeduplicated(b: Board, acts: seq<Action>)
    decreases |acts|
  {
    Deduplicated(b.rows) && (acts != [] ==> AlwaysDeduplicated(Do(b, acts[0]), acts[1..]))
  }

  ghost predicate AnyOvertaken(b: Board, acts: seq<Action>)
    decreases |acts|
  {
    acts != [] && (Overtaken(b, acts[0]) || AnyOvertaken(Do(b, acts[0]), acts[1..]))
  }

  /** Over every interleaving: there is at most one active alert of each subject all the time, if and only if no insert
      comes after another raise of the same subject inserted, since its select, a row that is still active. */
  lemma {:induction false} DeduplicatedIff(b: Board, acts: seq<Action>)
    requires Sound(b) && Deduplicated(b.rows)
    ensures AlwaysDeduplicated(b, acts) <==> !AnyOvertaken(b, acts)
    decreases |acts|
  {
    if acts != [] {
      OvertakenIff(b, acts[0]);
      if Overtaken(b, acts[0]) {
        assert !AlwaysDeduplicated(Do(b, acts[0]), acts[1..]);
      } else {
        DoSound(b, acts[0]);
        DeduplicatedIff(Do(b, acts[0]), acts[1..]);
      }
    }
  }

  lemma {:induction false} StillPending(b: Board, acts: seq<Action>, t: nat)
    requires t in b.pending && Write(t) !in acts
    ensures t in After(b, acts).pending && After(b, acts).pending[t] == b.pending[t]
    decreases |acts|
  {
    if acts != [] {
      assert acts[0] in acts;
      StillPending(Do(b, acts[0]), acts[1..], t);
    }
  }

  lemma {:induction false} AfterSound(b: Board, acts: seq<Action>)
    requires Sound(b)
    ensures Sound(After(b, acts))
    decreases |acts|
  {
    if acts != [] {
      DoSound(b, acts[0]);
      AfterSound(Do(b, acts[0]), acts[1..]);
    }
  }

  /** One raise from its select to its write, whatever happens between: its write makes a second active row if and only
      if its select found none and another raise of its subject inserted one meanwhile that is still active. */
  lemma DoublesSinceSelect(b: Board, t: nat, r: Raise, acts: seq<Action>)
    requires Sound(b) && t !in b.pending && Write(t) !in acts
    ensures var e := After(Do(b, Select(t, r)), acts);
            Deduplicated(e.rows) ==>
              (!Deduplicated(Do(e, Write(t)).rows)
               <==> First(b.rows, r, 0).None? && exists i :: |b.rows| <= i && ClashAt(e.rows, i, r))
  {
    var s := Do(b, Select(t, r));
    DoSound(b, Select(t, r));
    StillPending(s, acts, t);
    AfterSound(s, acts);
    var e := After(s, acts);
    if Deduplicated(e.rows) { OvertakenIff(e, Write(t)); }
  }

  /** A raise that nothing interrupts between its select and its write never makes a second one. */
  lemma UninterruptedNeverDoubles(b: Board, t: nat, r: Raise)
    requires Sound(b) && Deduplicated(b.rows) && t !in b.pending
    ensures Deduplicated(After(b, [Select(t, r), Write(t)]).rows)
  {
    var s := Do(b, Select(t, r));
    DoublesSinceSelect(b, t, r, []);
    assert After(s, []) == s && s.rows == b.rows;
    assert [Select(t, r), Write(t)][1..] == [Write(t)];
    assert After(s, [Write(t)]) == After(Do(s, Write(t)), []);
  }

  /** Uninterrupted, it refreshes level and text of the first active row of its kind, leaves an active row of its
      message alone, and otherwise inserts. */
  lemma UninterruptedRaises(b: Board, t: nat, r: Raise)
    requires t !in b.pending
    ensures var k, rows := First(b.rows, r, 0), After(b, [Select(t, r), Write(t)]).rows;
            && (k.None? ==> rows == b.rows + [Row(r.source, r.kind, r.level, r.message, false)])
            && (k.Some? && r.kind == "" ==> rows == b.rows)
            && (k.Some? && r.kind != "" ==>
                  rows == b.rows[k.value := b.rows[k.value].(level := r.level, message := r.message)])
  {
    var s := Do(b, Select(t, r));
    assert [Select(t, r), Write(t)][1..] == [Write(t)];
    assert After(s, [Write(t)]) == After(Do(s, Write(t)), []);
  }

  /** Two raises of a new subject that both select before either writes leave two active alerts. */
  lemma TwoSelectsDouble(r: Raise)
    ensures var b := Board([], map[]);
            !Deduplicated(After(b, [Select(1, r), Select(2, r), Write(1), Write(2)]).rows)
  {
    var b := Board([], map[]);
    var acts := [Select(2, r), Write(1)];
    var row := Row(r.source, r.kind, r.level, r.message, false);
    var b1 := Do(b, Select(1, r));
    var b2 := Do(b1, Select(2, r));
    var b3 := Do(b2, Write(1));
    assert b1.pending[1] == Pending(r, None, 0) && b2.pending[1] == Pending(r, None, 0);
    assert b3.rows == [row] && b3.pending[2] == Pending(r, None, 0);
    var b4 := Do(b3, Write(2));
    assert b4.rows == [row, row];
    assert b4.rows[0] == row && b4.rows[1] == row;
    var all := [Select(1, r), Select(2, r), Write(1), Write(2)];
    assert all[1..] == [Select(2, r), Write(1), Write(2)] && all[1..][1..] == [Write(1), Write(2)];
    assert all[1..][1..][1..] == [Write(2)];
    assert After(b3, [Write(2)]) == After(b4, []);
    assert After(b2, [Write(1), Write(2)]) == After(b3, [Write(2)]);
    assert After(b1, [Select(2, r), Write(1), Write(2)]) == After(b2, [Write(1), Write(2)]);
  }
}
