/** The push sender as the program writes it: its tables change in place (internal/push/push.go, `Subscribe`,
    `Unsubscribe`, `Notify`; internal/push/prefs.go, `drainQueue`, `drainUser`, `clearQueue`). Each method is a step
    of `PushRuns`, or several in a row. */
module PushSender {
  import opened Options
  import opened Push
  import opened PushRuns

  class Sender {
    var subs: seq<Sub>
    var queue: seq<Item>
    var next: nat
    var alerts: map<nat, Alerting>
    var drain: Option<Drain>
    /** Every push handed out so far. */
    ghost var log: seq<Handed>

    ghost function View(): State
      reads this
    {
      State(subs, queue, log, next, alerts, drain)
    }

    ghost predicate Valid()
      reads this
    {
      Inv(View())
    }

    constructor ()
      ensures Valid() && View() == EMPTY
    {
      subs, queue, next, alerts, drain, log := [], [], 0, map[], None, [];
    }

    /** A new device, or one that changes hands. */
    method Subscribe(device: nat, user: string)
      requires Valid()
      modifies this
      ensures Valid() && View() == Do(old(View()), Action.Subscribe(device, user))
      ensures forall s :: s in subs <==> s == Sub(device, user) || (s in old(subs) && s.device != device)
    {
      DoKeeps(View(), Action.Subscribe(device, user));
      OthersFacts(subs, device);
      var keep := Remove(device);
      subs := keep + [Sub(device, user)];
    }

    /** Removes a device, if it is this user's. */
    method Unsubscribe(device: nat, user: string)
      requires Valid()
      modifies this
      ensures Valid() && View() == Do(old(View()), Action.Unsubscribe(device, user))
      ensures forall s :: s in subs <==> s in old(subs) && s != Sub(device, user)
    {
      DoKeeps(View(), Action.Unsubscribe(device, user));
      OthersFacts(subs, device);
      if Sub(device, user) in subs {
        OnlyOwner(subs, device, user);
        var keep := Remove(device);
        subs := keep;
      }
    }

    method Remove(device: nat) returns (keep: seq<Sub>)
      ensures keep == Others(subs, device)
    {
      keep := [];
      var i := 0;
      while i < |subs|
        invariant 0 <= i <= |subs|
        invariant keep == Others(subs[..i], device)
      {
        assert subs[..i + 1][..i] == subs[..i];
        if subs[i].device != device { keep := keep + [subs[i]]; }
        i := i + 1;
      }
      assert subs[..i] == subs;
    }

    // ---------- alerts ----------

    /** The start of `Notify`: the devices are read. */
    method Raise(crit: bool, kind: string) returns (no: nat)
      requires Valid()
      modifies this
      ensures Valid() && no == old(next) && View() == Do(old(View()), Action.Raise(crit, kind))
    {
      DoKeeps(View(), Action.Raise(crit, kind));
      no := next;
      alerts := alerts[no := Alerting(Alert(no, crit, kind), subs, map[], 0)];
      next := next + 1;
    }

    /** One turn of the loop over the devices: a user is decided for at the first device met. */
    method Look(no: nat, n: Now)
      requires Valid() && no in alerts && alerts[no].met < |alerts[no].subs|
      modifies this
      ensures Valid() && View() == Do(old(View()), Action.Look(no, n))
    {
      DoKeeps(View(), Action.Look(no, n));
      var g := alerts[no];
      var sent, waiting, skip := Meet(g, n);
      log, queue, alerts := log + sent, queue + waiting, alerts[no := g.(skip := skip, met := g.met + 1)];
    }

    /** The whole of `Notify` with nothing in between; `n(i)` is what is answered at device `i`. */
    method Notify(crit: bool, kind: string, n: nat -> Now)
      requires Valid()
      modifies this
      ensures Valid() && next == old(next) + 1 && subs == old(subs) && drain == old(drain)
      ensures var a := Alert(old(next), crit, kind);
              log == old(log) + Direct(subs, n, a) && queue == old(queue) + Queued(subs, n, a)
      ensures ReachesWhom(subs, n, Alert(old(next), crit, kind), log, queue)
    {
      NotifyExact(View(), Alert(next, crit, kind), n);
      RaiseAndLook(crit, kind, n);
    }

    method RaiseAndLook(crit: bool, kind: string, n: nat -> Now)
      requires Valid()
      modifies this
      ensures Valid() && next == old(next) + 1 && subs == old(subs) && drain == old(drain)
      ensures var a := Alert(old(next), crit, kind);
              log == old(log) + Direct(subs, n, a) && queue == old(queue) + Queued(subs, n, a)
    {
      ghost var was, a := View(), Alert(next, crit, kind);
      NotifyingStarts(was, crit, kind, n);
      var no := Raise(crit, kind);
      var k, count := 0, |subs|;
      while k < count
        invariant Valid() && k <= count == |was.subs| && no == was.next && View() == Notifying(was, a, n, k)
      {
        NotifyingStep(was, a, n, k);
        Look(no, n(k));
        k := k + 1;
      }
      assert was.subs[..k] == was.subs;
    }

    // ---------- the queue ----------

    /** The start of a drain: one user's rows and devices, when the tick found the user's window closed. */
    method ReadRows(user: string, tick: Now)
      requires Valid() && drain.None? && user !in tick.quiet
      modifies this
      ensures Valid() && View() == Do(old(View()), Action.ReadRows(user, tick))
    {
      DoKeeps(View(), Action.ReadRows(user, tick));
      drain := Some(Drain(user, DevicesOf(subs, user), Of(queue, user), 0, None));
    }

    /** One turn of the drain's loops: begins a row, pushes it to a device, or is done with it. */
    method Turn(n: Now)
      requires Valid() && drain.Some? && drain.value.sent < |drain.value.items|
      modifies this
      ensures Valid() && View() == Do(old(View()), Action.Turn(n))
      ensures var d := old(drain).value; var it := d.items[d.sent];
              && (d.dev.None? ==>
                    log == old(log)
                    && drain == Some(if (it.user, it.alert.kind) in n.off then d.(sent := d.sent + 1)
                                     else d.(dev := Some(0))))
              && (d.dev.Some? && d.dev.value < |d.mine| && (it.alert.crit || it.user !in n.active) ==>
                    log == old(log) + [Handed(d.mine[d.dev.value].device, it.user, it.alert.no)]
                    && drain == Some(d.(dev := Some(d.dev.value + 1))))
              && (d.dev.Some? && !(d.dev.value < |d.mine| && (it.alert.crit || it.user !in n.active)) ==>
                    log == old(log) && drain == Some(d.(sent := d.sent + 1, dev := None)))
    {
      DoKeeps(View(), Action.Turn(n));
      var d := drain.value;
      var it := d.items[d.sent];
      if d.dev.None? {
        drain := Some(if (it.user, it.alert.kind) in n.off then d.(sent := d.sent + 1) else d.(dev := Some(0)));
      } else if d.dev.value >= |d.mine| || (!it.alert.crit && it.user in n.active) {
        drain := Some(d.(sent := d.sent + 1, dev := None));
      } else {
        log := log + [Handed(d.mine[d.dev.value].device, it.user, it.alert.no)];
        drain := Some(d.(dev := Some(d.dev.value + 1)));
      }
    }

    /** The inner loop: hands out one row. `n(0)` answers for its kind, `n(j + 1)` at device `j`. */
    method HandRow(n: nat -> Now)
      requires Valid() && drain.Some? && drain.value.sent < |drain.value.items| && drain.value.dev.None?
      modifies this
      ensures Valid() && View() == RowHanded(old(View()), n)
    {
      ghost var was := View();
      RowStarts(was, n);
      Turn(n(0));
      if drain.value.dev.None? { return; }
      var j := 0;
      ghost var last := RowReach(was, n);
      while drain.Some? && drain.value.dev.Some?
        invariant Valid() && j <= last + 1
        invariant View() == if j <= last then RowAt(was, n, j) else RowHanded(was, n)
        decreases last + 1 - j
      {
        RowStep(was, n, j);
        Turn(n(j + 1));
        j := j + 1;
      }
    }

    /** The end of a drain: deletes the user's rows. */
    method ClearQueue()
      requires Valid() && drain.Some? && drain.value.sent == |drain.value.items|
      modifies this
      ensures Valid() && View() == Do(old(View()), Clear)
    {
      DoKeeps(View(), Clear);
      queue, drain := NotOf(queue, drain.value.user), None;
    }

    /** A whole drain with nothing in between: the user is handed all that waited, in order, and every row of the user
        is gone. `n(k)` answers for row `k`. */
    method DrainUser(u: string, tick: Now, n: nat -> nat -> Now)
      requires Valid() && drain.None? && u !in tick.quiet
      modifies this
      ensures Valid() && drain.None? && subs == old(subs) && next == old(next) && alerts == old(alerts)
      ensures log == old(log) + Deliveries(DevicesOf(subs, u), n, Of(old(queue), u))
      ensures queue == NotOf(old(queue), u)
    {
      ghost var was := View();
      ReadRows(u, tick);
      HandingStarts(was, u, tick, n);
      assert View() == Handing(was, u, n, 0);
      var k, count := 0, |drain.value.items|;
      while k < count
        invariant Valid() && k <= count == |Of(was.queue, u)| && View() == Handing(was, u, n, k)
      {
        HandingStep(was, u, n, k);
        HandRow(n(k));
        k := k + 1;
      }
      HandingEnds(was, u, n);
      ClearQueue();
    }

    /** One turn of the ticker: drains the users whose window is closed when it asks, and leaves the others alone.
        What is pushed may go out later, when a window has opened. */
    method DrainQueue(tick: Now, n: string -> nat -> nat -> Now)
      requires Valid() && drain.None?
      modifies this
      ensures Valid() && drain.None? && subs == old(subs) && next == old(next) && alerts == old(alerts)
      ensures var was, o := Outbox(old(log), old(queue)), Outbox(log, queue);
              && (forall u :: u !in tick.quiet ==> Emptied(was, o, subs, n(u), u))
              && (forall u :: u in tick.quiet ==> LeftAlone(was, o, u))
    {
      var users := set it | it in queue && it.user !in tick.quiet :: it.user;
      ghost var due, done, was := users, {}, Outbox(log, queue);
      while users != {}
        invariant Valid() && drain.None? && subs == old(subs) && next == old(next) && alerts == old(alerts)
        invariant users == due - done && done <= due
        invariant Drained(was, Outbox(log, queue), subs, n, done)
        decreases users
      {
        var u :| u in users;
        DrainStep(was, Outbox(log, queue), subs, n, done, u);
        DrainUser(u, tick, n(u));
        users, done := users - {u}, done + {u};
      }
      DrainedAll(was, Outbox(log, queue), subs, n, due, tick.quiet);
    }
  }

  /** What the turn does: the push, the row, and who is passed over from now on. */
  method Meet(g: Alerting, n: Now) returns (sent: seq<Handed>, waiting: seq<Item>, skip: map<string, bool>)
    requires g.met < |g.subs|
    ensures var a, s := g.alert, g.subs[g.met];
            var u := s.user;
            && (u !in g.skip ==>
                  && skip == g.skip[u := !a.crit && ((u, a.kind) in n.off || u in n.quiet)]
                  && sent == (if a.crit || ((u, a.kind) !in n.off && u !in n.quiet && u !in n.active)
                              then [Handed(s.device, u, a.no)] else [])
                  && waiting == (if !a.crit && (u, a.kind) !in n.off && u in n.quiet then [Item(u, a)] else []))
            && (u in g.skip ==>
                  && skip == g.skip && waiting == []
                  && sent == if !g.skip[u] && (a.crit || u !in n.active) then [Handed(s.device, u, a.no)] else [])
    ensures sent == LookPush(g, n) && waiting == LookRow(g, n) && g.(skip := skip, met := g.met + 1) == Looked(g, n)
  {
    sent, waiting, skip := [], [], g.skip;
    var a, s := g.alert, g.subs[g.met];
    if s.user !in skip {
      var omit, wait := !a.crit && (s.user, a.kind) in n.off, false;
      if !omit && !a.crit && s.user in n.quiet {
        waiting := [Item(s.user, a)];
        wait := true;
      }
      skip := skip[s.user := omit || wait];
    }
    if !skip[s.user] && (a.crit || s.user !in n.active) {
      sent := [Handed(s.device, s.user, a.no)];
    }
    assert g.skip[s.user := Passes(g, n, s.user)] == skip;
  }

  lemma OnlyOwner(subs: seq<Sub>, device: nat, user: string)
    requires Distinct(subs) && Sub(device, user) in subs
    ensures forall s :: s in subs && s.device == device ==> s.user == user
  {
  }

  // ---------- Notify as steps ----------

  /** The sender while it notifies, with `k` devices dealt with. */
  ghost function Notifying(st: State, a: Alert, n: nat -> Now, k: nat): State
    requires k <= |st.subs|
  {
    var met := st.subs[..k];
    st.(log := st.log + Direct(met, n, a), queue := st.queue + Queued(met, n, a), next := st.next + 1,
        alerts := st.alerts[st.next := Alerting(a, st.subs, Skips(met, n, a), k)])
  }

  lemma NotifyingStarts(st: State, crit: bool, kind: string, n: nat -> Now)
    ensures Do(st, Action.Raise(crit, kind)) == Notifying(st, Alert(st.next, crit, kind), n, 0)
  {
    assert st.subs[..0] == [] && st.log + [] == st.log && st.queue + [] == st.queue;
  }

  lemma NotifyingStep(st: State, a: Alert, n: nat -> Now, k: nat)
    requires k < |st.subs| && a.no == st.next
    ensures Enabled(Notifying(st, a, n, k), Action.Look(a.no, n(k)))
    ensures Do(Notifying(st, a, n, k), Action.Look(a.no, n(k))) == Notifying(st, a, n, k + 1)
  {
    var g := Alerting(a, st.subs, Skips(st.subs[..k], n, a), k);
    PrefixNext(st.subs, k, n, a);
    SkipsFacts(st.subs[..k], n, a);
    LookIsNext(g, n, k);
    Regroup(st.log, Direct(st.subs[..k], n, a), LookPush(g, n(k)));
    Regroup(st.queue, Queued(st.subs[..k], n, a), LookRow(g, n(k)));
    assert Notifying(st, a, n, k).alerts[a.no] == g;
    Overwrite(st.alerts, a.no, g, Looked(g, n(k)));
  }

  lemma Regroup<T>(a: seq<T>, b: seq<T>, c: seq<T>)
    ensures (a + b) + c == a + (b + c)
  {
  }

  lemma Overwrite(m: map<nat, Alerting>, no: nat, a: Alerting, b: Alerting)
    ensures m[no := a][no := b] == m[no := b]
  {
  }

  /** Whom alert `a` went to, and whom it waits for. With `i` the first device of user `u`: it went to device `j` of `u`
      exactly if it is critical, or its kind was on and the window closed when `i` was met and the app not open when `j`
      was; and it waits for `u` exactly if it is not critical, its kind was on and the window open when `i` was met. */
  ghost predicate ReachesWhom(subs: seq<Sub>, n: nat -> Now, a: Alert, log: seq<Handed>, queue: seq<Item>) {
    && (forall i: nat, j: nat :: IsFirst(subs, i) && j < |subs| && subs[j].user == subs[i].user ==>
          var u := subs[i].user;
          (Handed(subs[j].device, u, a.no) in log <==>
            a.crit || ((u, a.kind) !in n(i).off && u !in n(i).quiet && u !in n(j).active)))
    && (forall i: nat :: IsFirst(subs, i) ==>
          var u := subs[i].user;
          (Item(u, a) in queue <==> !a.crit && (u, a.kind) !in n(i).off && u in n(i).quiet))
  }

  /** No push and no row of the number were there before, so those there now are of this alert. */
  lemma NotifyExact(st: State, a: Alert, n: nat -> Now)
    requires Inv(st) && a.no == st.next
    ensures ReachesWhom(st.subs, n, a, st.log + Direct(st.subs, n, a), st.queue + Queued(st.subs, n, a))
  {
    forall i: nat, j: nat | IsFirst(st.subs, i) && j < |st.subs| && st.subs[j].user == st.subs[i].user
      ensures var u := st.subs[i].user;
              (Handed(st.subs[j].device, u, a.no) in st.log + Direct(st.subs, n, a) <==>
                a.crit || ((u, a.kind) !in n(i).off && u !in n(i).quiet && u !in n(j).active))
    {
      DirectIff(st.subs, n, a, i, j);
    }
    forall i: nat | IsFirst(st.subs, i)
      ensures var u := st.subs[i].user;
              (Item(u, a) in st.queue + Queued(st.subs, n, a) <==>
                !a.crit && (u, a.kind) !in n(i).off && u in n(i).quiet)
    {
      QueuedIff(st.subs, n, a, i);
    }
  }

  lemma LookIsNext(g: Alerting, n: nat -> Now, k: nat)
    requires k < |g.subs| && g.met == k && g.skip == Skips(g.subs[..k], n, g.alert)
    ensures var u, after := g.subs[k].user, Skips(g.subs[..k + 1], n, g.alert);
            && Looked(g, n(k)) == g.(skip := after, met := k + 1)
            && LookPush(g, n(k))
                 == (if SentAt(after, n(k), u, g.alert) then [Handed(g.subs[k].device, u, g.alert.no)] else [])
            && LookRow(g, n(k))
                 == (if u !in Users(g.subs[..k]) && Defers(n(k), u, g.alert) then [Item(u, g.alert)] else [])
  {
    PrefixNext(g.subs, k, n, g.alert);
    SkipsFacts(g.subs[..k], n, g.alert);
    var u := g.subs[k].user;
    if u in g.skip { assert g.skip[u := g.skip[u]] == g.skip; }
  }

  // ---------- a row as steps ----------

  ghost predicate AtRow(st: State) {
    st.drain.Some? && st.drain.value.sent < |st.drain.value.items| && st.drain.value.dev.None?
  }

  ghost function RowReach(st: State, n: nat -> Now): nat
    requires AtRow(st)
  {
    var d := st.drain.value;
    Reach(d.mine, n, d.items[d.sent], 0)
  }

  /** The sender with the row begun and `j` of its pushes out. */
  ghost function RowAt(st: State, n: nat -> Now, j: nat): State
    requires AtRow(st) && j <= RowReach(st, n)
  {
    var d := st.drain.value;
    st.(log := st.log + Pushes(d.mine[..j], d.items[d.sent]), drain := Some(d.(dev := Some(j))))
  }

  /** The sender when it is done with the row. */
  ghost function RowHanded(st: State, n: nat -> Now): State
    requires AtRow(st)
  {
    var d := st.drain.value;
    st.(log := st.log + Delivery(d.mine, n, d.items[d.sent]), drain := Some(d.(sent := d.sent + 1)))
  }

  lemma RowStarts(st: State, n: nat -> Now)
    requires AtRow(st)
    ensures var d := st.drain.value; var it := d.items[d.sent];
            Do(st, Action.Turn(n(0)))
              == if (it.user, it.alert.kind) in n(0).off then RowHanded(st, n) else RowAt(st, n, 0)
  {
    assert st.log + [] == st.log;
    assert Pushes(st.drain.value.mine[..0], st.drain.value.items[st.drain.value.sent]) == [];
  }

  lemma RowStep(st: State, n: nat -> Now, j: nat)
    requires AtRow(st) && j <= RowReach(st, n)
    requires var d := st.drain.value; var it := d.items[d.sent]; (it.user, it.alert.kind) !in n(0).off
    ensures Do(RowAt(st, n, j), Action.Turn(n(j + 1)))
         == if j < RowReach(st, n) then RowAt(st, n, j + 1) else RowHanded(st, n)
  {
    var d := st.drain.value;
    var it := d.items[d.sent];
    assert j < RowReach(st, n) ==> Away(n, it, j);
    if j < |d.mine| {
      assert Pushes(d.mine[..j + 1], it) == Pushes(d.mine[..j], it) + [Handed(d.mine[j].device, it.user, it.alert.no)];
    }
    assert RowAt(st, n, j).log + [] == RowAt(st, n, j).log;
  }

  // ---------- a drain as steps ----------

  /** The sender while it drains user `u`, with `k` rows dealt with. */
  ghost function Handing(st: State, u: string, n: nat -> nat -> Now, k: nat): State
    requires k <= |Of(st.queue, u)|
  {
    var mine, items := DevicesOf(st.subs, u), Of(st.queue, u);
    st.(log := st.log + Deliveries(mine, n, items[..k]), drain := Some(Drain(u, mine, items, k, None)))
  }

  lemma HandingStarts(st: State, u: string, tick: Now, n: nat -> nat -> Now)
    requires st.drain.None? && u !in tick.quiet
    ensures Do(st, Action.ReadRows(u, tick)) == Handing(st, u, n, 0)
  {
    assert Of(st.queue, u)[..0] == [] && st.log + [] == st.log;
  }

  lemma HandingStep(st: State, u: string, n: nat -> nat -> Now, k: nat)
    requires k < |Of(st.queue, u)|
    ensures AtRow(Handing(st, u, n, k)) && RowHanded(Handing(st, u, n, k), n(k)) == Handing(st, u, n, k + 1)
  {
    var mine, items := DevicesOf(st.subs, u), Of(st.queue, u);
    assert items[..k + 1][..k] == items[..k];
    var d, e := Deliveries(mine, n, items[..k]), Delivery(mine, n(k), items[k]);
    assert Deliveries(mine, n, items[..k + 1]) == d + e;
    assert (st.log + d) + e == st.log + (d + e);
  }

  lemma HandingEnds(st: State, u: string, n: nat -> nat -> Now)
    ensures Do(Handing(st, u, n, |Of(st.queue, u)|), Clear)
         == st.(log := st.log + Deliveries(DevicesOf(st.subs, u), n, Of(st.queue, u)), queue := NotOf(st.queue, u),
                drain := None)
  {
    assert Of(st.queue, u)[..|Of(st.queue, u)|] == Of(st.queue, u);
  }

  // ---------- users drain apart ----------

  /** The pushes one user was handed, in order. */
  ghost function HandedTo(log: seq<Handed>, u: string): seq<Handed> {
    if log == [] then []
    else HandedTo(log[..|log| - 1], u) + (if log[|log| - 1].user == u then [log[|log| - 1]] else [])
  }

  lemma {:induction false} HandedAppend(a: seq<Handed>, b: seq<Handed>, u: string)
    ensures HandedTo(a + b, u) == HandedTo(a, u) + HandedTo(b, u)
    decreases |b|
  {
    if b == [] {
      assert a + b == a;
    } else {
      assert (a + b)[..|a + b| - 1] == a + b[..|b| - 1];
      HandedAppend(a, b[..|b| - 1], u);
    }
  }

  lemma {:induction false} HandedToOne(d: seq<Handed>, u: string, v: string)
    requires forall h :: h in d ==> h.user == u
    ensures HandedTo(d, v) == if v == u then d else []
  {
    if d != [] {
      var k := |d| - 1;
      assert d == d[..k] + [d[k]] && d[k] in d;
      HandedToOne(d[..k], u, v);
    }
  }

  lemma {:induction false} OfNotOf(queue: seq<Item>, u: string, v: string)
    ensures Of(NotOf(queue, u), v) == if v == u then [] else Of(queue, v)
  {
    if queue != [] {
      var k := |queue| - 1;
      OfNotOf(queue[..k], u, v);
      var front := NotOf(queue[..k], u);
      if queue[k].user != u {
        assert (front + [queue[k]])[..|front|] == front;
        assert NotOf(queue, u) == front + [queue[k]];
      } else {
        assert NotOf(queue, u) == front;
      }
    }
  }

  ghost predicate Has(s: seq<Item>, u: string) {
    exists it :: it in s && it.user == u
  }

  lemma {:induction false} NoneOf(queue: seq<Item>, u: string)
    requires !Has(queue, u)
    ensures Of(queue, u) == []
  {
    if queue != [] { NoneOf(queue[..|queue| - 1], u); }
  }

  datatype Outbox = Outbox(log: seq<Handed>, queue: seq<Item>)

  /** From `was` to `o` user `u` was handed all that waited, and nothing waits any more; */
  ghost predicate Emptied(was: Outbox, o: Outbox, subs: seq<Sub>, n: nat -> nat -> Now, u: string) {
    && Of(o.queue, u) == []
    && HandedTo(o.log, u) == HandedTo(was.log, u) + Deliveries(DevicesOf(subs, u), n, Of(was.queue, u))
  }

  /** or nothing happened to the user. */
  ghost predicate LeftAlone(was: Outbox, o: Outbox, u: string) {
    Of(o.queue, u) == Of(was.queue, u) && HandedTo(o.log, u) == HandedTo(was.log, u)
  }

  /** From `was` to `o`, the users in `done` were drained and nothing else happened to any user. */
  ghost predicate Drained(was: Outbox, o: Outbox, subs: seq<Sub>, n: string -> nat -> nat -> Now, done: set<string>) {
    && (forall u :: u in done ==> Emptied(was, o, subs, n(u), u))
    && (forall u :: u !in done ==> LeftAlone(was, o, u))
  }

  ghost function DrainedOne(o: Outbox, subs: seq<Sub>, n: nat -> nat -> Now, u: string): Outbox {
    Outbox(o.log + Deliveries(DevicesOf(subs, u), n, Of(o.queue, u)), NotOf(o.queue, u))
  }

  /** Draining one user leaves every other user's items and pushes as they were. */
  lemma DrainedApart(o: Outbox, subs: seq<Sub>, n: nat -> nat -> Now, u: string, v: string)
    requires Distinct(subs) && OneEach(o.queue)
    ensures if v == u then Emptied(o, DrainedOne(o, subs, n, u), subs, n, v)
            else LeftAlone(o, DrainedOne(o, subs, n, u), v)
  {
    var d := Deliveries(DevicesOf(subs, u), n, Of(o.queue, u));
    OfFacts(o.queue, u);
    DevicesOfFacts(subs, u);
    DeliveriesFacts(DevicesOf(subs, u), n, Of(o.queue, u), u);
    HandedAppend(o.log, d, v);
    HandedToOne(d, u, v);
    OfNotOf(o.queue, u, v);
  }

  lemma DrainStep(was: Outbox, o: Outbox, subs: seq<Sub>, n: string -> nat -> nat -> Now, done: set<string>, u: string)
    requires Distinct(subs) && OneEach(o.queue) && u !in done && Drained(was, o, subs, n, done)
    ensures Drained(was, DrainedOne(o, subs, n(u), u), subs, n, done + {u})
  {
    var o' := DrainedOne(o, subs, n(u), u);
    forall v | v in done + {u} ensures Emptied(was, o', subs, n(v), v) { DrainedApart(o, subs, n(u), u, v); }
    forall v | v !in done + {u} ensures LeftAlone(was, o', v) { DrainedApart(o, subs, n(u), u, v); }
  }

  /** Draining every user with rows and no open window drains every user without one. */
  lemma DrainedAll(was: Outbox, o: Outbox, subs: seq<Sub>, n: string -> nat -> nat -> Now, due: set<string>,
                   quiet: set<string>)
    requires Drained(was, o, subs, n, due)
    requires forall u :: u in due <==> u !in quiet && Has(was.queue, u)
    ensures forall u :: u !in quiet ==> Emptied(was, o, subs, n(u), u)
    ensures forall u :: u in quiet ==> LeftAlone(was, o, u)
  {
    forall u | u !in quiet ensures Emptied(was, o, subs, n(u), u) {
      if u !in due { NoneOf(was.queue, u); }
    }
  }
}
