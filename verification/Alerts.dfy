/** Alerts: one active row per subject (internal/alerts/alerts.go, `RaiseKind`, `Ack`), and pools that were seen and are
    gone (`trackPools`, `MissingPools`). Times are nanoseconds; the table keeps whole seconds. */
module Alerts {
  import opened Seconds

  datatype Row = Row(source: string, kind: string, level: string, message: string, acked: bool)

  /** What a raise looks for among the active rows: the kind if it has one, else the message. */
  predicate Same(r: Row, source: string, kind: string, message: string) {
    !r.acked && r.source == source && if kind != "" then r.kind == kind else r.message == message
  }

  ghost predicate Active(rows: seq<Row>, source: string, kind: string, message: string) {
    exists i :: 0 <= i < |rows| && Same(rows[i], source, kind, message)
  }

  /** No two active rows of one source and kind, nor of one source and message without a kind. */
  ghost predicate Deduplicated(rows: seq<Row>) {
    forall i, j :: 0 <= i < j < |rows| && !rows[i].acked && !rows[j].acked && rows[i].source == rows[j].source
                   && rows[i].kind == rows[j].kind ==>
      rows[i].kind == "" && rows[i].message != rows[j].message
  }

  const MISSING := "pool_missing"

  class Alerter {
    const missingAfter: int
    var rows: seq<Row>
    /** Last sighting of every pool ever seen. */
    var known: map<string, int>
    /** Indices of the rows announced as `alert.new`. */
    ghost var published: seq<nat>

    ghost predicate Valid()
      reads this
    {
      && missingAfter > 0
      && Deduplicated(rows)
      && |published| == |rows| && forall i :: 0 <= i < |rows| ==> published[i] == i
    }

    constructor (missingAfter: int)
      ensures Valid() && rows == [] && known == map[]
      ensures this.missingAfter == if missingAfter <= 0 then 300 * SECOND_NS else missingAfter
    {
      this.missingAfter := if missingAfter <= 0 then 300 * SECOND_NS else missingAfter;
      rows, known, published := [], map[], [];
    }

    /** Refreshes the active row of the same subject, or inserts and announces a new one. */
    method RaiseKind(level: string, source: string, message: string, kind: string)
      requires Valid()
      modifies this`rows, this`published
      ensures Valid()
      ensures |rows| == |old(rows)| <==>
                exists i :: 0 <= i < |old(rows)| && !old(rows)[i].acked && old(rows)[i].source == source
                            && (if kind != "" then old(rows)[i].kind == kind else old(rows)[i].message == message)
      ensures old(Active(rows, source, kind, message)) ==> |rows| == |old(rows)|
      ensures !old(Active(rows, source, kind, message)) ==>
                rows == old(rows) + [Row(source, kind, level, message, false)]
      ensures forall i :: 0 <= i < |old(rows)| ==>
                rows[i] == if kind != "" && Same(old(rows)[i], source, kind, message)
                           then old(rows)[i].(level := level, message := message) else old(rows)[i]
      ensures Active(rows, source, kind, message)
    {
      var i := 0;
      while i < |rows| && !Same(rows[i], source, kind, message)
        invariant 0 <= i <= |rows|
        invariant forall k :: 0 <= k < i ==> !Same(rows[k], source, kind, message)
      {
        i := i + 1;
      }
      if i < |rows| {
        if kind != "" {
          rows := rows[i := rows[i].(level := level, message := message)];
        }
        assert Same(rows[i], source, kind, message);
        return;
      }
      rows := rows + [Row(source, kind, level, message, false)];
      published := published + [|rows| - 1];
      assert Same(rows[i], source, kind, message);
    }

    /** Acknowledges an alert; a second time, or for no alert, nothing happens. */
    method Ack(id: int)
      requires Valid()
      modifies this`rows
      ensures Valid() && |rows| == |old(rows)|
      ensures forall i :: 0 <= i < |rows| ==> rows[i] == if i == id then old(rows)[i].(acked := true) else old(rows)[i]
    {
      if 0 <= id < |rows| && !rows[id].acked {
        rows := rows[id := rows[id].(acked := true)];
      }
    }

    /** Whether a pool was seen before and its last sighting is older than the window. */
    predicate Missing(name: string, now: int)
      reads this
    {
      name in known && known[name] < ToSecond(now - missingAfter)
    }

    ghost function Gone(now: int): set<string>
      reads this
    {
      set n | n in known && Missing(n, now)
    }

    /** Notes the pools seen and raises an alert for every known one gone too long: exactly one active alert each,
        however often this runs, and nothing else. */
    method TrackPools(pools: seq<string>, now: int)
      requires Valid()
      modifies this
      ensures Valid()
      ensures known == map n | n in old(known).Keys + (set p | p in pools) ::
                if n in pools then ToSecond(now) else old(known)[n]
      ensures Tracked(old(rows), rows, Gone(now), Gone(now))
    {
      NotePools(pools, now);
      label Noted:
      var todo := MissingPools(now);
      ghost var gone, done := todo, {};
      assert gone == Gone(now);
      while todo != {}
        invariant Valid() && todo == gone - done && done <= gone == Gone(now) && known == old@Noted(known)
        invariant Tracked(old(rows), rows, gone, done)
        decreases todo
      {
        var n :| n in todo;
        ghost var was := rows;
        RaiseKind("crit", "pool." + n, "Pool " + n, MISSING);
        RaiseTracked(old(rows), was, rows, gone, done, n, "Pool " + n);
        todo, done := todo - {n}, done + {n};
      }
      assert done == gone;
    }

    method NotePools(pools: seq<string>, now: int)
      requires Valid()
      modifies this`known
      ensures Valid()
      ensures known == map n | n in old(known).Keys + (set p | p in pools) ::
                if n in pools then ToSecond(now) else old(known)[n]
      ensures forall n :: Missing(n, now) <==>
                n in old(known) && n !in pools && old(known)[n] < ToSecond(now - missingAfter)
    {
      var i := 0;
      while i < |pools|
        invariant 0 <= i <= |pools|
        invariant known.Keys == old(known).Keys + set p | p in pools[..i]
        invariant forall n :: n in known ==> known[n] == if n in pools[..i] then ToSecond(now) else old(known)[n]
      {
        assert pools[..i + 1] == pools[..i] + [pools[i]];
        known := known[pools[i] := ToSecond(now)];
        i := i + 1;
      }
      assert pools[..i] == pools;
    }

    /** The pools missing now. */
    method MissingPools(now: int) returns (names: set<string>)
      requires Valid()
      ensures forall n :: n in names <==> Missing(n, now)
    {
      names := set n | n in known && known[n] < ToSecond(now - missingAfter);
    }
  }

  /** The alert of one of these pools. */
  ghost predicate IsAbout(r: Row, pools: set<string>) {
    r.kind == MISSING && exists n :: n in pools && r.source == "pool." + n
  }

  /** A row that was there before is as it was, or it is the active alert of a missing pool with fresh text. */
  ghost predicate Refreshed(was: Row, r: Row, gone: set<string>) {
    r == was || (!was.acked && IsAbout(was, gone) && r == was.(level := "crit", message := r.message))
  }

  /** From `was` to `rows`, the pools in `done` got their one active alert, and only missing pools' alerts changed. */
  ghost predicate Tracked(was: seq<Row>, rows: seq<Row>, gone: set<string>, done: set<string>) {
    && |was| <= |rows|
    && (forall i :: 0 <= i < |was| ==> Refreshed(was[i], rows[i], gone))
    && (forall i :: |was| <= i < |rows| ==> rows[i].level == "crit" && !rows[i].acked && IsAbout(rows[i], gone))
    && (forall n :: n in done ==> Reported(rows, n))
  }

  lemma RaiseTracked(was: seq<Row>, before: seq<Row>, rows: seq<Row>, gone: set<string>, done: set<string>, n: string,
                     message: string)
    requires Tracked(was, before, gone, done) && n in gone && Deduplicated(rows)
    requires Active(rows, "pool." + n, MISSING, message) && |before| <= |rows|
    requires forall i :: 0 <= i < |before| ==>
               rows[i] == if Same(before[i], "pool." + n, MISSING, message)
                          then before[i].(level := "crit", message := message) else before[i]
    requires forall i :: |before| <= i < |rows| ==> rows[i] == Row("pool." + n, MISSING, "crit", message, false)
    ensures Tracked(was, rows, gone, done + {n})
  {
    OnlyOne(rows, n, message);
    forall m | m in done ensures Reported(rows, m) { StillReported(before, rows, m); }
    forall i | 0 <= i < |was| ensures Refreshed(was[i], rows[i], gone) {
      assert Refreshed(was[i], before[i], gone);
      if rows[i] != before[i] { assert IsAbout(was[i], gone); }
    }
  }

  /** Row `i` is the one active alert that pool `source` is missing. */
  ghost predicate IsOnly(rows: seq<Row>, i: int, source: string) {
    && 0 <= i < |rows| && !rows[i].acked && rows[i].source == source && rows[i].kind == MISSING
    && forall j :: 0 <= j < |rows| && !rows[j].acked && rows[j].source == source && rows[j].kind == MISSING ==> j == i
  }

  /** There is exactly one active alert that pool `n` is missing. */
  ghost predicate Reported(rows: seq<Row>, n: string) {
    exists i :: IsOnly(rows, i, "pool." + n)
  }

  lemma OnlyOne(rows: seq<Row>, n: string, message: string)
    requires Deduplicated(rows) && Active(rows, "pool." + n, MISSING, message)
    ensures Reported(rows, n)
  {
    var i :| 0 <= i < |rows| && Same(rows[i], "pool." + n, MISSING, message);
    assert IsOnly(rows, i, "pool." + n);
  }

  /** Raising and refreshing other rows does not lose it. */
  lemma StillReported(was: seq<Row>, rows: seq<Row>, n: string)
    requires Deduplicated(rows) && Reported(was, n) && |was| <= |rows|
    requires forall i :: 0 <= i < |was| ==>
               rows[i].source == was[i].source && rows[i].kind == was[i].kind && rows[i].acked == was[i].acked
    ensures Reported(rows, n)
  {
    var i :| IsOnly(was, i, "pool." + n);
    assert Same(rows[i], "pool." + n, MISSING, "");
    OnlyOne(rows, n, "");
  }
}
