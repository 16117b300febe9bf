/** Every run of the push sender: subscriptions, alerts and the drain of the queue, step by step, with other steps
    between any two (internal/push/push.go, `Subscribe`, `Unsubscribe`, `Notify`; internal/push/prefs.go, `drainQueue`,
    `drainUser`, `clearQueue`). One step hands out at most one push: a push may sleep, and the clock goes on. */
module PushRuns {
  import opened Options
  import opened Push

  /** `Notify` under way: the devices it read, whom it passes over, and how many devices it has dealt with. */
  datatype Alerting = Alerting(alert: Alert, subs: seq<Sub>, skip: map<string, bool>, met: nat)

  /** A drain under way: the user's rows and devices it read, how many rows it is done with, and how many devices of the
      next row, once that is begun. */
  datatype Drain = Drain(user: string, mine: seq<Sub>, items: seq<Item>, sent: nat, dev: Option<nat>)

  /** The tables, every push handed out so far, the number of the next alert, and what is under way. */
  datatype State = State(subs: seq<Sub>, queue: seq<Item>, log: seq<Handed>, next: nat, alerts: map<nat, Alerting>,
                         drain: Option<Drain>)

  const EMPTY := State([], [], [], 0, map[], None)

  /** `Look` is one turn of the loop of `Notify` for alert `no`; `ReadRows` begins the drain of a user whose window is
      closed at the tick; `Turn` is one turn of its loops; `Abandon` is a drain that could not list the devices. */
  datatype Action =
    | Subscribe(device: nat, user: string)
    | Unsubscribe(device: nat, user: string)
    | Raise(crit: bool, kind: string)
    | Look(no: nat, n: Now)
    | ReadRows(user: string, tick: Now)
    | Turn(n: Now)
    | Clear
    | Abandon

  predicate Enabled(st: State, a: Action) {
    match a
    case Look(no, _) => no in st.alerts && st.alerts[no].met < |st.alerts[no].subs|
    case ReadRows(user, tick) => st.drain.None? && user !in tick.quiet
    case Turn(_) => st.drain.Some? && st.drain.value.sent < |st.drain.value.items|
    case Clear => st.drain.Some? && st.drain.value.sent == |st.drain.value.items|
    case Abandon => st.drain.Some? && st.drain.value.sent == 0 && st.drain.value.dev.None?
    case _ => true
  }

  function Others(subs: seq<Sub>, device: nat): seq<Sub> {
    if subs == [] then []
    else
      Others(subs[..|subs| - 1], device)
      + (if subs[|subs| - 1].device == device then [] else [subs[|subs| - 1]])
  }

  // ---------- one turn of Notify ----------

  predicate Passes(g: Alerting, n: Now, u: string) {
    if u in g.skip then g.skip[u] else Omits(n, u, g.alert) || Defers(n, u, g.alert)
  }

  function Looked(g: Alerting, n: Now): Alerting
    requires g.met < |g.subs|
  {
    var u := g.subs[g.met].user;
    g.(skip := g.skip[u := Passes(g, n, u)], met := g.met + 1)
  }

  function LookPush(g: Alerting, n: Now): seq<Handed>
    requires g.met < |g.subs|
  {
    var s := g.subs[g.met];
    if !Passes(g, n, s.user) && (g.alert.crit || s.user !in n.active) then [Handed(s.device, s.user, g.alert.no)]
    else []
  }

  function LookRow(g: Alerting, n: Now): seq<Item>
    requires g.met < |g.subs|
  {
    var u := g.subs[g.met].user;
    if u !in g.skip && Defers(n, u, g.alert) then [Item(u, g.alert)] else []
  }

  // ---------- one turn of a drain ----------

  function Turned(d: Drain, n: Now): Drain
    requires d.sent < |d.items|
  {
    var it := d.items[d.sent];
    match d.dev
    case None => if (it.user, it.alert.kind) in n.off then d.(sent := d.sent + 1) else d.(dev := Some(0))
    case Some(j) =>
      if j >= |d.mine| || InApp(n, it) then d.(sent := d.sent + 1, dev := None) else d.(dev := Some(j + 1))
  }

  function TurnPush(d: Drain, n: Now): seq<Handed>
    requires d.sent < |d.items|
  {
    var it := d.items[d.sent];
    if d.dev.Some? && d.dev.value < |d.mine| && !InApp(n, it) then
      [Handed(d.mine[d.dev.value].device, it.user, it.alert.no)]
    else []
  }

  // ---------- steps ----------

  /** The push that a step hands out, if any. */
  function PushOf(st: State, a: Action): seq<Handed> {
    if !Enabled(st, a) then []
    else if a.Look? then LookPush(st.alerts[a.no], a.n)
    else if a.Turn? then TurnPush(st.drain.value, a.n)
    else []
  }

  function Do(st: State, a: Action): State {
    if !Enabled(st, a) then st else
    match a
    case Subscribe(device, user) => st.(subs := Others(st.subs, device) + [Sub(device, user)])
    case Unsubscribe(device, user) =>
      st.(subs := if Sub(device, user) in st.subs then Others(st.subs, device) else st.subs)
    case Raise(crit, kind) =>
      st.(next := st.next + 1, alerts := st.alerts[st.next := Alerting(Alert(st.next, crit, kind), st.subs, map[], 0)])
    case Look(no, n) =>
      var g := st.alerts[no];
      st.(log := st.log + LookPush(g, n), queue := st.queue + LookRow(g, n), alerts := st.alerts[no := Looked(g, n)])
    case ReadRows(user, _) =>
      st.(drain := Some(Drain(user, DevicesOf(st.subs, user), Of(st.queue, user), 0, None)))
    case Turn(n) =>
      var d := st.drain.value;
      st.(log := st.log + TurnPush(d, n), drain := Some(Turned(d, n)))
    case Clear => st.(queue := NotOf(st.queue, st.drain.value.user), drain := None)
    case Abandon => st.(drain := None)
  }

  function After(st: State, acts: seq<Action>): State
    decreases |acts|
  {
    if acts == [] then st else After(Do(st, acts[0]), acts[1..])
  }

  lemma LogOfStep(st: State, a: Action)
    ensures Do(st, a).log == st.log + PushOf(st, a)
  {
  }

  // ---------- the invariant ----------

  /** The rows the drain has begun. */
  function Begun(d: Drain): nat { d.sent + if d.dev.Some? then 1 else 0 }

  ghost predicate Handled(drain: Option<Drain>, it: Item) {
    drain.Some? && Begun(drain.value) <= |drain.value.items| && it in drain.value.items[..Begun(drain.value)]
  }

  /** No row waits for an alert its user was handed, but for rows the drain under way has begun. */
  ghost predicate Settled(log: seq<Handed>, queue: seq<Item>, drain: Option<Drain>) {
    forall h, it :: h in log && it in queue && h.user == it.user && h.no == it.alert.no ==> Handled(drain, it)
  }

  /** The drain's rows come first among its user's. */
  ghost predicate DrainSound(queue: seq<Item>, drain: Option<Drain>) {
    drain.Some? ==>
      var d := drain.value;
      && Distinct(d.mine) && Begun(d) <= |d.items| && d.items <= Of(queue, d.user)
      && (d.dev.Some? ==> d.dev.value <= |d.mine|)
  }

  /** The row begun went to devices already met, and to no others. */
  ghost predicate RowSound(log: seq<Handed>, drain: Option<Drain>) {
    drain.Some? && drain.value.dev.Some? && drain.value.sent < |drain.value.items| ==>
      forall h :: h in log && IsOf(h, drain.value.items[drain.value.sent]) ==> MetInRow(drain.value, h.device)
  }

  ghost predicate IsOf(h: Handed, it: Item) { h.user == it.user && h.no == it.alert.no }

  ghost predicate MetInRow(d: Drain, device: nat)
    requires d.dev.Some?
  {
    exists i :: 0 <= i < d.dev.value && i < |d.mine| && d.mine[i].device == device
  }

  /** An alert under way: nothing was done for users not met yet; who was passed over was handed it by a drain, if at
      all, and who was not has no row. */
  ghost predicate AlertingSound(g: Alerting, no: nat, log: seq<Handed>, queue: seq<Item>) {
    && g.alert.no == no && Distinct(g.subs) && g.met <= |g.subs|
    && (forall h :: h in log && h.no == no ==> h.user in g.skip && (g.skip[h.user] || MetBefore(g, h)))
    && (forall it :: it in queue && it.alert.no == no ==> it.user in g.skip && g.skip[it.user])
  }

  ghost predicate MetBefore(g: Alerting, h: Handed) {
    exists i :: 0 <= i < g.met && i < |g.subs| && g.subs[i] == Sub(h.device, h.user)
  }

  ghost predicate AlertsSound(alerts: map<nat, Alerting>, next: nat, log: seq<Handed>, queue: seq<Item>) {
    forall no :: no in alerts ==> no < next && AlertingSound(alerts[no], no, log, queue)
  }

  ghost predicate Numbered(log: seq<Handed>, queue: seq<Item>, next: nat) {
    && (forall h :: h in log ==> h.no < next)
    && (forall it :: it in queue ==> it.alert.no < next && !it.alert.crit)
  }

  ghost predicate Inv(st: State) {
    && Distinct(st.subs) && OneEach(st.queue) && NoRepeats(st.log) && Numbered(st.log, st.queue, st.next)
    && DrainSound(st.queue, st.drain) && Settled(st.log, st.queue, st.drain) && RowSound(st.log, st.drain)
    && AlertsSound(st.alerts, st.next, st.log, st.queue)
  }

  lemma {:induction false} OthersFacts(subs: seq<Sub>, device: nat)
    ensures forall s :: s in Others(subs, device) <==> s in subs && s.device != device
    ensures Distinct(subs) ==> Distinct(Others(subs, device))
  {
    if subs != [] {
      var k := |subs| - 1;
      OthersFacts(subs[..k], device);
      assert subs == subs[..k] + [subs[k]];
      if Distinct(subs) {
        var front := Others(subs[..k], device);
        forall i | 0 <= i < |front| ensures front[i].device != subs[k].device {
          assert front[i] in front;
          var j :| 0 <= j < k && subs[j] == front[i];
        }
      }
    }
  }

  lemma {:induction false} OfAppend(a: seq<Item>, b: seq<Item>, u: string)
    ensures Of(a + b, u) == Of(a, u) + Of(b, u)
    decreases |b|
  {
    if b == [] {
      assert a + b == a;
    } else {
      assert (a + b)[..|a + b| - 1] == a + b[..|b| - 1];
      OfAppend(a, b[..|b| - 1], u);
    }
  }

  /** A user has one row for an alert. */
  lemma SameRow(queue: seq<Item>, a: Item, b: Item)
    requires OneEach(queue) && a in queue && b in queue && a.user == b.user && a.alert.no == b.alert.no
    ensures a == b
  {
    var i :| 0 <= i < |queue| && queue[i] == a;
    var j :| 0 <= j < |queue| && queue[j] == b;
  }

  lemma AppendNew(log: seq<Handed>, p: seq<Handed>)
    requires NoRepeats(log) && |p| <= 1 && forall h :: h in p ==> h !in log
    ensures NoRepeats(log + p)
  {
    if |p| == 1 { assert p[0] in p; }
  }

  lemma AppendRow(queue: seq<Item>, w: seq<Item>)
    requires OneEach(queue) && |w| <= 1
    requires forall r, it :: r in w && it in queue ==> it.user != r.user || it.alert.no != r.alert.no
    ensures OneEach(queue + w)
  {
    if |w| == 1 {
      assert w[0] in w;
      forall i | 0 <= i < |queue| ensures queue[i].user != w[0].user || queue[i].alert.no != w[0].alert.no {
        assert queue[i] in queue;
      }
    }
  }

  // ---------- Notify keeps it ----------

  /** What a turn of `Notify` hands out or queues is for a user and alert of which there is no row, and no such push;
      and it does not do both. */
  lemma LookIsNew(g: Alerting, no: nat, log: seq<Handed>, queue: seq<Item>, n: Now)
    requires AlertingSound(g, no, log, queue) && g.met < |g.subs|
    ensures var u := g.subs[g.met].user;
            && (forall h :: h in LookPush(g, n) ==> h.no == no && h.user == u && h !in log)
            && (LookPush(g, n) != [] ==>
                  LookRow(g, n) == [] && forall it :: it in queue ==> it.user != u || it.alert.no != no)
            && (forall r :: r in LookRow(g, n) ==> r == Item(u, g.alert) && !g.alert.crit)
            && (LookRow(g, n) != [] ==>
                  && (forall it :: it in queue ==> it.user != u || it.alert.no != no)
                  && (forall h :: h in log ==> h.user != u || h.no != no))
  {
    var s := g.subs[g.met];
    if LookPush(g, n) != [] {
      assert LookPush(g, n) == [Handed(s.device, s.user, no)];
      assert !MetBefore(g, Handed(s.device, s.user, no));
    }
  }

  lemma LookedSound(g: Alerting, no: nat, log: seq<Handed>, queue: seq<Item>, n: Now)
    requires AlertingSound(g, no, log, queue) && g.met < |g.subs|
    ensures AlertingSound(Looked(g, n), no, log + LookPush(g, n), queue + LookRow(g, n))
  {
    var s := g.subs[g.met];
    var e := Looked(g, n);
    forall h | h in log + LookPush(g, n) && h.no == no ensures h.user in e.skip && (e.skip[h.user] || MetBefore(e, h)) {
      if h in log {
        if MetBefore(g, h) {
          var i :| 0 <= i < g.met && i < |g.subs| && g.subs[i] == Sub(h.device, h.user);
          assert e.subs[i] == Sub(h.device, h.user);
        }
      } else {
        assert h == Handed(s.device, s.user, no) && e.subs[g.met] == Sub(h.device, h.user);
      }
    }
  }

  /** A push or row for alert `no` concerns no other alert under way. */
  lemma OtherAlert(g: Alerting, no: nat, log: seq<Handed>, queue: seq<Item>, p: seq<Handed>, w: seq<Item>)
    requires AlertingSound(g, no, log, queue)
    requires (forall h :: h in p ==> h.no != no) && forall r :: r in w ==> r.alert.no != no
    ensures AlertingSound(g, no, log + p, queue + w)
  {
  }

  lemma LookSettled(log: seq<Handed>, queue: seq<Item>, drain: Option<Drain>, p: seq<Handed>, w: seq<Item>)
    requires Settled(log, queue, drain)
    requires forall h, it :: h in p && it in queue + w ==> !IsOf(h, it)
    requires forall h, r :: h in log && r in w ==> !IsOf(h, r)
    ensures Settled(log + p, queue + w, drain)
  {
    forall h, it | h in log + p && it in queue + w && h.user == it.user && h.no == it.alert.no
      ensures Handled(drain, it)
    {
      assert h in log || h in p;
      assert it in queue || it in w;
      assert !IsOf(h, it) || (h in log && it in queue);
    }
  }

  lemma LookDrain(log: seq<Handed>, queue: seq<Item>, drain: Option<Drain>, p: seq<Handed>, w: seq<Item>)
    requires DrainSound(queue, drain) && RowSound(log, drain)
    requires forall h, it :: h in p && it in queue ==> !IsOf(h, it)
    ensures DrainSound(queue + w, drain) && RowSound(log + p, drain)
  {
    if drain.Some? {
      var d := drain.value;
      OfAppend(queue, w, d.user);
      OfFacts(queue, d.user);
      if d.dev.Some? && d.sent < |d.items| {
        assert d.items[d.sent] == Of(queue, d.user)[d.sent] && Of(queue, d.user)[d.sent] in Of(queue, d.user);
      }
    }
  }

  lemma LookKeeps(st: State, no: nat, n: Now)
    requires Inv(st) && Enabled(st, Look(no, n))
    ensures Inv(Do(st, Look(no, n)))
  {
    var g := st.alerts[no];
    var p, w := LookPush(g, n), LookRow(g, n);
    LookIsNew(g, no, st.log, st.queue, n);
    AppendNew(st.log, p);
    AppendRow(st.queue, w);
    LookSettled(st.log, st.queue, st.drain, p, w);
    LookDrain(st.log, st.queue, st.drain, p, w);
    LookAlerts(st, no, n);
  }

  lemma LookAlerts(st: State, no: nat, n: Now)
    requires Inv(st) && Enabled(st, Look(no, n))
    ensures var e := Do(st, Look(no, n));
            AlertsSound(e.alerts, e.next, e.log, e.queue) && Numbered(e.log, e.queue, e.next)
  {
    var g := st.alerts[no];
    var p, w := LookPush(g, n), LookRow(g, n);
    LookIsNew(g, no, st.log, st.queue, n);
    LookedSound(g, no, st.log, st.queue, n);
    var e := Do(st, Look(no, n));
    forall m | m in e.alerts ensures m < e.next && AlertingSound(e.alerts[m], m, e.log, e.queue) {
      if m != no { OtherAlert(st.alerts[m], m, st.log, st.queue, p, w); }
    }
  }

  lemma RaiseKeeps(st: State, crit: bool, kind: string)
    requires Inv(st)
    ensures Inv(Do(st, Raise(crit, kind)))
  {
    var e := Do(st, Raise(crit, kind));
    forall m | m in e.alerts ensures m < e.next && AlertingSound(e.alerts[m], m, e.log, e.queue) {
      if m != st.next { assert AlertingSound(st.alerts[m], m, st.log, st.queue); }
    }
  }

  // ---------- a drain keeps it ----------

  /** The row whose turn it is. */
  lemma NextRow(queue: seq<Item>, d: Drain)
    requires OneEach(queue) && DrainSound(queue, Some(d)) && d.sent < |d.items|
    ensures var it := d.items[d.sent]; it in queue && it.user == d.user && it !in d.items[..d.sent]
  {
    var mine := Of(queue, d.user);
    OfFacts(queue, d.user);
    assert d.items[d.sent] == mine[d.sent] && mine[d.sent] in mine;
    forall i | 0 <= i < d.sent ensures d.items[..d.sent][i] != d.items[d.sent] {
      assert d.items[i] == mine[i] && mine[i] in mine;
    }
  }

  /** Rows begun stay begun. */
  lemma BegunGrows(d: Drain, n: Now, it: Item)
    requires d.sent < |d.items| && Begun(d) <= |d.items| && Handled(Some(d), it)
    ensures Handled(Some(Turned(d, n)), it)
  {
    var e := Turned(d, n);
    assert e.items[..Begun(d)] <= e.items[..Begun(e)];
  }

  /** The row that a turn begins was handed to nobody. */
  lemma BeginsNew(log: seq<Handed>, queue: seq<Item>, d: Drain, h: Handed)
    requires OneEach(queue) && DrainSound(queue, Some(d)) && Settled(log, queue, Some(d))
    requires d.sent < |d.items| && d.dev.None? && h in log
    ensures !IsOf(h, d.items[d.sent])
  {
    NextRow(queue, d);
    assert !Handled(Some(d), d.items[d.sent]);
  }

  /** A push of a drain is new: to a device its row was not pushed to. */
  lemma TurnIsNew(log: seq<Handed>, queue: seq<Item>, d: Drain, n: Now)
    requires OneEach(queue) && DrainSound(queue, Some(d)) && RowSound(log, Some(d)) && d.sent < |d.items|
    ensures forall h :: h in TurnPush(d, n) ==> h !in log && IsOf(h, d.items[d.sent])
  {
    if TurnPush(d, n) != [] {
      var h := Handed(d.mine[d.dev.value].device, d.items[d.sent].user, d.items[d.sent].alert.no);
      assert TurnPush(d, n) == [h];
      assert !MetInRow(d, h.device);
    }
  }

  lemma TurnRow(log: seq<Handed>, queue: seq<Item>, d: Drain, n: Now)
    requires OneEach(queue) && DrainSound(queue, Some(d)) && Settled(log, queue, Some(d)) && RowSound(log, Some(d))
    requires d.sent < |d.items|
    ensures RowSound(log + TurnPush(d, n), Some(Turned(d, n)))
  {
    var e, it := Turned(d, n), d.items[d.sent];
    if e.dev.Some? {
      forall h | h in log + TurnPush(d, n) && IsOf(h, it) ensures MetInRow(e, h.device) {
        if d.dev.None? {
          if h in log { BeginsNew(log, queue, d, h); }
        } else if h in log {
          assert MetInRow(d, h.device);
          var i :| 0 <= i < d.dev.value && i < |d.mine| && d.mine[i].device == h.device;
          assert e.mine[i].device == h.device;
        } else {
          assert e.mine[d.dev.value].device == h.device;
        }
      }
    }
  }

  lemma TurnSettled(log: seq<Handed>, queue: seq<Item>, d: Drain, n: Now)
    requires OneEach(queue) && DrainSound(queue, Some(d)) && Settled(log, queue, Some(d)) && RowSound(log, Some(d))
    requires d.sent < |d.items|
    ensures Settled(log + TurnPush(d, n), queue, Some(Turned(d, n)))
  {
    var it := d.items[d.sent];
    NextRow(queue, d);
    TurnIsNew(log, queue, d, n);
    forall h, r | h in log + TurnPush(d, n) && r in queue && h.user == r.user && h.no == r.alert.no
      ensures Handled(Some(Turned(d, n)), r)
    {
      if h !in log {
        SameRow(queue, it, r);
        assert d.items[..d.sent + 1] == d.items[..d.sent] + [it];
      }
      assert Handled(Some(d), r);
      BegunGrows(d, n, r);
    }
  }

  lemma TurnAlerts(st: State, n: Now)
    requires Inv(st) && Enabled(st, Turn(n))
    ensures var e := Do(st, Turn(n));
            AlertsSound(e.alerts, e.next, e.log, e.queue) && Numbered(e.log, e.queue, e.next)
  {
    var d := st.drain.value;
    var it, p := d.items[d.sent], TurnPush(d, n);
    NextRow(st.queue, d);
    TurnIsNew(st.log, st.queue, d, n);
    forall no | no in st.alerts ensures AlertingSound(st.alerts[no], no, st.log + p, st.queue) {
      assert AlertingSound(st.alerts[no], no, st.log, st.queue);
    }
  }

  lemma TurnKeeps(st: State, n: Now)
    requires Inv(st) && Enabled(st, Turn(n))
    ensures Inv(Do(st, Turn(n)))
  {
    var d := st.drain.value;
    TurnIsNew(st.log, st.queue, d, n);
    AppendNew(st.log, TurnPush(d, n));
    TurnRow(st.log, st.queue, d, n);
    TurnSettled(st.log, st.queue, d, n);
    TurnAlerts(st, n);
  }

  lemma ReadKeeps(st: State, u: string, tick: Now)
    requires Inv(st) && Enabled(st, ReadRows(u, tick))
    ensures Inv(Do(st, ReadRows(u, tick)))
  {
    DevicesOfFacts(st.subs, u);
  }

  lemma HandledIsMine(queue: seq<Item>, d: Drain, it: Item)
    requires DrainSound(queue, Some(d)) && Handled(Some(d), it)
    ensures it.user == d.user
  {
    OfFacts(queue, d.user);
    var i :| 0 <= i < Begun(d) && d.items[i] == it;
    assert Of(queue, d.user)[i] in Of(queue, d.user);
  }

  lemma ClearKeeps(st: State)
    requires Inv(st) && Enabled(st, Clear)
    ensures Inv(Do(st, Clear))
  {
    var d, e := st.drain.value, Do(st, Clear);
    OfFacts(st.queue, d.user);
    forall h, it | h in st.log && it in e.queue ensures !IsOf(h, it) {
      if Handled(st.drain, it) { HandledIsMine(st.queue, d, it); }
    }
    forall no | no in st.alerts ensures AlertingSound(st.alerts[no], no, e.log, e.queue) {
      assert AlertingSound(st.alerts[no], no, st.log, st.queue);
    }
  }

  /** Nothing was handed out yet. */
  lemma AbandonKeeps(st: State)
    requires Inv(st) && Enabled(st, Abandon)
    ensures Inv(Do(st, Abandon))
  {
    forall it ensures !Handled(st.drain, it) {
    }
  }

  lemma SubsKeep(st: State, a: Action)
    requires Inv(st) && (a.Subscribe? || a.Unsubscribe?)
    ensures Inv(Do(st, a))
  {
    OthersFacts(st.subs, a.device);
    var keep := Others(st.subs, a.device);
    forall i | 0 <= i < |keep| ensures keep[i].device != a.device { assert keep[i] in keep; }
  }

  /** Every step, in any state a run can reach, keeps the invariant. */
  lemma DoKeeps(st: State, a: Action)
    requires Inv(st)
    ensures Inv(Do(st, a))
  {
    if Enabled(st, a) {
      match a {
        case Subscribe(_, _) => SubsKeep(st, a);
        case Unsubscribe(_, _) => SubsKeep(st, a);
        case Raise(crit, kind) => RaiseKeeps(st, crit, kind);
        case Look(no, n) => LookKeeps(st, no, n);
        case ReadRows(u, tick) => ReadKeeps(st, u, tick);
        case Turn(n) => TurnKeeps(st, n);
        case Clear => ClearKeeps(st);
        case Abandon => AbandonKeeps(st);
      }
    }
  }

  lemma {:induction false} AfterKeeps(st: State, acts: seq<Action>)
    requires Inv(st)
    ensures Inv(After(st, acts))
    decreases |acts|
  {
    if acts != [] {
      DoKeeps(st, acts[0]);
      AfterKeeps(Do(st, acts[0]), acts[1..]);
    }
  }
}
