/** What every run of the push sender does and does not do: how often an alert is handed out, what goes into an open
    window, and what a drain loses. */
module PushClaims {
  import opened Options
  import opened Push
  import opened PushRuns

  // ---------- how often an alert is handed out ----------

  /** Over every run: as long as a device is one user's, it is handed an alert at most once; and no row waits for an
      alert that its user was handed, except in the drain that is handing it out. */
  lemma HandedOncePerOwner(acts: seq<Action>, i: nat, j: nat)
    requires i < j < |After(EMPTY, acts).log|
    ensures var e := After(EMPTY, acts);
            && (e.log[i].device == e.log[j].device && e.log[i].no == e.log[j].no ==> e.log[i].user != e.log[j].user)
            && forall it :: it in e.queue && IsOf(e.log[i], it) ==> Handled(e.drain, it)
  {
    AfterKeeps(EMPTY, acts);
    var log := After(EMPTY, acts).log;
    assert log[i] in log && log[i] != log[j];
  }

  /** Each device was handed each alert at most once. */
  ghost predicate OncePerDevice(log: seq<Handed>) {
    forall i, j :: 0 <= i < j < |log| ==> log[i].device != log[j].device || log[i].no != log[j].no
  }

  ghost predicate WasHanded(log: seq<Handed>, device: nat, no: nat) {
    exists h :: h in log && h.device == device && h.no == no
  }

  /** The turn is at a device that was handed the alert before, as another user's, and its user is to be handed it. */
  ghost predicate Repeats(st: State, a: Action) {
    Enabled(st, a) &&
    match a
    case Look(no, n) =>
      var g := st.alerts[no];
      var s := g.subs[g.met];
      !Passes(g, n, s.user) && (g.alert.crit || s.user !in n.active) && WasHanded(st.log, s.device, no)
    case Turn(n) =>
      var d := st.drain.value;
      var it := d.items[d.sent];
      d.dev.Some? && d.dev.value < |d.mine| && !InApp(n, it)
      && WasHanded(st.log, d.mine[d.dev.value].device, it.alert.no)
    case _ => false
  }

  lemma AppendOnce(log: seq<Handed>, h: Handed)
    requires OncePerDevice(log)
    ensures OncePerDevice(log + [h]) <==> !WasHanded(log, h.device, h.no)
  {
    var all := log + [h];
    if WasHanded(log, h.device, h.no) {
      var g :| g in log && g.device == h.device && g.no == h.no;
      var i :| 0 <= i < |log| && log[i] == g;
      assert all[i] == g && all[|log|] == h;
    } else {
      forall i | 0 <= i < |log| ensures log[i].device != h.device || log[i].no != h.no { assert log[i] in log; }
    }
  }

  lemma RepeatsIff(st: State, a: Action)
    requires Inv(st) && OncePerDevice(st.log)
    ensures OncePerDevice(Do(st, a).log) <==> !Repeats(st, a)
  {
    LogOfStep(st, a);
    var p := PushOf(st, a);
    if p == [] {
      assert st.log + p == st.log;
    } else {
      if a.Look? { assert AlertingSound(st.alerts[a.no], a.no, st.log, st.queue); }
      assert p == [p[0]];
      AppendOnce(st.log, p[0]);
    }
  }

  ghost predicate AnyRepeats(st: State, acts: seq<Action>)
    decreases |acts|
  {
    acts != [] && (Repeats(st, acts[0]) || AnyRepeats(Do(st, acts[0]), acts[1..]))
  }

  lemma {:induction false} LogGrows(st: State, acts: seq<Action>)
    ensures st.log <= After(st, acts).log
    decreases |acts|
  {
    if acts != [] {
      LogOfStep(st, acts[0]);
      LogGrows(Do(st, acts[0]), acts[1..]);
    }
  }

  lemma {:induction false} OnceFrom(st: State, acts: seq<Action>)
    requires Inv(st) && OncePerDevice(st.log)
    ensures OncePerDevice(After(st, acts).log) <==> !AnyRepeats(st, acts)
    decreases |acts|
  {
    if acts != [] {
      var e := Do(st, acts[0]);
      RepeatsIff(st, acts[0]);
      if Repeats(st, acts[0]) {
        LogGrows(e, acts[1..]);
        StaysTwice(e.log, After(e, acts[1..]).log);
      } else {
        DoKeeps(st, acts[0]);
        OnceFrom(e, acts[1..]);
      }
    }
  }

  lemma StaysTwice(a: seq<Handed>, b: seq<Handed>)
    requires a <= b && !OncePerDevice(a)
    ensures !OncePerDevice(b)
  {
    var i, j :| 0 <= i < j < |a| && !(a[i].device != a[j].device || a[i].no != a[j].no);
    assert b[i] == a[i] && b[j] == a[j];
  }

  /** Exactly when every device is handed every alert at most once: when no turn is at a device that was handed the same
      alert as another user's. */
  lemma DeviceOnceIff(acts: seq<Action>)
    ensures OncePerDevice(After(EMPTY, acts).log) <==> !AnyRepeats(EMPTY, acts)
  {
    OnceFrom(EMPTY, acts);
  }

  ghost predicate AllOwned(subs: seq<Sub>, owner: nat -> string) {
    forall s :: s in subs ==> s.user == owner(s.device)
  }

  /** Every device in sight belongs to the user that `owner` says. */
  ghost predicate Owned(st: State, owner: nat -> string) {
    && AllOwned(st.subs, owner)
    && (forall no :: no in st.alerts ==> AllOwned(st.alerts[no].subs, owner))
    && (st.drain.Some? ==>
          && AllOwned(st.drain.value.mine, owner)
          && forall s :: s in st.drain.value.mine ==> s.user == st.drain.value.user)
    && (forall h :: h in st.log ==> h.user == owner(h.device))
  }

  /** No device changes hands. */
  ghost predicate FixedOwners(acts: seq<Action>, owner: nat -> string) {
    forall a :: a in acts && a.Subscribe? ==> a.user == owner(a.device)
  }

  lemma OwnedPush(st: State, a: Action, owner: nat -> string, h: Handed)
    requires Inv(st) && Owned(st, owner) && h in PushOf(st, a)
    ensures h.user == owner(h.device)
  {
    match a
    case Look(no, _) =>
      var g := st.alerts[no];
      assert g.subs[g.met] in g.subs;
    case Turn(_) =>
      var d := st.drain.value;
      NextRow(st.queue, d);
      assert d.mine[d.dev.value] in d.mine;
  }

  lemma OwnedStep(st: State, a: Action, owner: nat -> string)
    requires Inv(st) && Owned(st, owner) && (a.Subscribe? ==> a.user == owner(a.device))
    ensures Owned(Do(st, a), owner)
  {
    LogOfStep(st, a);
    forall h | h in PushOf(st, a) ensures h.user == owner(h.device) { OwnedPush(st, a, owner, h); }
    if a.Subscribe? || a.Unsubscribe? { OthersFacts(st.subs, a.device); }
    if a.ReadRows? { DevicesOfFacts(st.subs, a.user); }
  }

  lemma {:induction false} OwnedAfter(st: State, acts: seq<Action>, owner: nat -> string)
    requires Inv(st) && Owned(st, owner) && FixedOwners(acts, owner)
    ensures Owned(After(st, acts), owner)
    decreases |acts|
  {
    if acts != [] {
      assert acts[0] in acts;
      assert forall a :: a in acts[1..] ==> a in acts;
      DoKeeps(st, acts[0]);
      OwnedStep(st, acts[0], owner);
      OwnedAfter(Do(st, acts[0]), acts[1..], owner);
    }
  }

  /** So if no device ever changes hands, every device is handed every alert at most once. */
  lemma FixedOwnersOncePerDevice(acts: seq<Action>, owner: nat -> string)
    requires FixedOwners(acts, owner)
    ensures OncePerDevice(After(EMPTY, acts).log)
  {
    AfterKeeps(EMPTY, acts);
    OwnedAfter(EMPTY, acts, owner);
    var log := After(EMPTY, acts).log;
    forall i, j | 0 <= i < j < |log| ensures log[i].device != log[j].device || log[i].no != log[j].no {
      assert log[i] in log && log[j] in log && log[i] != log[j];
    }
  }

  // ---------- pushes into an open window ----------

  /** The alert that a turn is about is critical. */
  ghost predicate IsCritical(st: State, a: Action) {
    || (a.Look? && a.no in st.alerts && st.alerts[a.no].alert.crit)
    || (a.Turn? && Enabled(st, a) && st.drain.value.items[st.drain.value.sent].alert.crit)
  }

  /** The step hands a push of an alert that is not critical to a user whose window is open at that moment. */
  ghost predicate IntoWindow(st: State, a: Action) {
    (a.Look? || a.Turn?) && !IsCritical(st, a)
    && exists h :: h in Do(st, a).log[|st.log|..] && h.user in a.n.quiet
  }

  /** The window has opened since the program asked: the user of the device met was decided for at an earlier device, or
      the drain of the user began, with the window closed; and the push goes out, for the app is not open. */
  ghost predicate OpenedSince(st: State, a: Action) {
    Enabled(st, a) &&
    match a
    case Look(no, n) =>
      var g := st.alerts[no];
      var u := g.subs[g.met].user;
      !g.alert.crit && u in n.quiet && u in g.skip && !g.skip[u] && u !in n.active
    case Turn(n) =>
      var d := st.drain.value;
      d.user in n.quiet && d.user !in n.active && d.dev.Some? && d.dev.value < |d.mine|
    case _ => false
  }

  /** Exactly the turns that meet a window opened since push into it; in particular no user is ever decided for, nor any
      drain begun, in an open window. */
  lemma IntoWindowIff(st: State, a: Action)
    requires Inv(st)
    ensures IntoWindow(st, a) <==> OpenedSince(st, a)
  {
    LogOfStep(st, a);
    var p := PushOf(st, a);
    assert Do(st, a).log[|st.log|..] == p;
    if Enabled(st, a) && a.Turn? {
      var d := st.drain.value;
      NextRow(st.queue, d);
      if p != [] { assert p[0] in p; }
    }
    if Enabled(st, a) && a.Look? && p != [] {
      assert AlertingSound(st.alerts[a.no], a.no, st.log, st.queue);
      assert p[0] in p;
    }
  }

  ghost predicate AnyIntoWindow(st: State, acts: seq<Action>)
    decreases |acts|
  {
    acts != [] && (IntoWindow(st, acts[0]) || AnyIntoWindow(Do(st, acts[0]), acts[1..]))
  }

  ghost predicate AnyOpenedSince(st: State, acts: seq<Action>)
    decreases |acts|
  {
    acts != [] && (OpenedSince(st, acts[0]) || AnyOpenedSince(Do(st, acts[0]), acts[1..]))
  }

  lemma {:induction false} WindowsFrom(st: State, acts: seq<Action>)
    requires Inv(st)
    ensures AnyIntoWindow(st, acts) <==> AnyOpenedSince(st, acts)
    decreases |acts|
  {
    if acts != [] {
      IntoWindowIff(st, acts[0]);
      DoKeeps(st, acts[0]);
      WindowsFrom(Do(st, acts[0]), acts[1..]);
    }
  }

  /** Exactly when a run never hands an alert that is not critical to a user whose window is open: when no turn of an
      alert or of a drain meets a window that opened since the program asked about it. */
  lemma NeverIntoWindowIff(acts: seq<Action>)
    ensures AnyIntoWindow(EMPTY, acts) <==> AnyOpenedSince(EMPTY, acts)
  {
    WindowsFrom(EMPTY, acts);
  }

  /** No window opens: of any two moments the program asks about, the later has no window open that the earlier had not.
      `quiet` are the windows open before. */
  ghost predicate WindowsOnlyClose(acts: seq<Action>, quiet: set<string>)
    decreases |acts|
  {
    acts != [] ==>
      var now := if acts[0].Look? || acts[0].Turn? then acts[0].n.quiet
                 else if acts[0].ReadRows? then acts[0].tick.quiet else quiet;
      now <= quiet && WindowsOnlyClose(acts[1..], now)
  }

  /** Whoever is being handed something has no window among `quiet`. */
  ghost predicate BeganOutside(st: State, quiet: set<string>) {
    && (st.drain.Some? ==> st.drain.value.user !in quiet)
    && forall no, u :: no in st.alerts && Sending(st.alerts[no], u) ==> u !in quiet
  }

  /** The alert is not critical, has devices still to meet, and goes to this user's. */
  ghost predicate Sending(g: Alerting, u: string) {
    !g.alert.crit && g.met < |g.subs| && u in g.skip && !g.skip[u]
  }

  /** No alert and no drain is in the middle of something. */
  ghost predicate NothingUnderWay(st: State) {
    st.drain.None? && forall no :: no in st.alerts ==> st.alerts[no].met >= |st.alerts[no].subs|
  }

  lemma BeganOutsideStep(st: State, a: Action, quiet: set<string>, now: set<string>)
    requires BeganOutside(st, quiet) && now <= quiet
    requires (a.Look? || a.Turn? ==> now == a.n.quiet) && (a.ReadRows? ==> now == a.tick.quiet)
    ensures BeganOutside(Do(st, a), now) && !OpenedSince(st, a)
  {
  }

  lemma {:induction false} OutsideFrom(st: State, acts: seq<Action>, quiet: set<string>)
    requires BeganOutside(st, quiet) && WindowsOnlyClose(acts, quiet)
    ensures !AnyOpenedSince(st, acts)
    decreases |acts|
  {
    if acts != [] {
      var now := if acts[0].Look? || acts[0].Turn? then acts[0].n.quiet
                 else if acts[0].ReadRows? then acts[0].tick.quiet else quiet;
      BeganOutsideStep(st, acts[0], quiet, now);
      OutsideFrom(Do(st, acts[0]), acts[1..], now);
    }
  }

  /** So from any state a run can reach with nothing under way, as long as no window opens no alert that is not critical
      is handed to a user whose window is open. */
  lemma NoneIntoWindowUntilOneOpens(before: seq<Action>, acts: seq<Action>, quiet: set<string>)
    requires NothingUnderWay(After(EMPTY, before)) && WindowsOnlyClose(acts, quiet)
    ensures !AnyIntoWindow(After(EMPTY, before), acts)
  {
    AfterKeeps(EMPTY, before);
    WindowsFrom(After(EMPTY, before), acts);
    OutsideFrom(After(EMPTY, before), acts, quiet);
  }

  // ---------- what a drain loses ----------

  /** The rows of the drain's user that were queued after it read: it deletes them unsent. */
  ghost function Late(st: State): seq<Item> {
    if st.drain.None? then []
    else
      var d, mine := st.drain.value, Of(st.queue, st.drain.value.user);
      if |d.items| <= |mine| then mine[|d.items|..] else []
  }

  /** The alert is queued for `u` by this step. */
  predicate Queues(st: State, a: Action, u: string) {
    a.Look? && Enabled(st, a) && LookRow(st.alerts[a.no], a.n) == [Item(u, st.alerts[a.no].alert)]
  }

  /** A row becomes late exactly by an alert that is queued for the drain's user between the read and the delete. */
  lemma LateStep(st: State, a: Action)
    requires Inv(st) && st.drain.Some? && !a.Clear? && !a.Abandon?
    ensures var e, u := Do(st, a), st.drain.value.user;
            && e.drain.Some? && e.drain.value.user == u && e.drain.value.items == st.drain.value.items
            && Late(e) == Late(st) + if Queues(st, a, u) then [Item(u, st.alerts[a.no].alert)] else []
  {
    if a.Look? && Enabled(st, a) { LateLook(st, LookRow(st.alerts[a.no], a.n)); }
  }

  lemma LateLook(st: State, w: seq<Item>)
    requires st.drain.Some? && DrainSound(st.queue, st.drain) && |w| <= 1
    ensures Late(st.(queue := st.queue + w)) == Late(st) + if w != [] && w[0].user == st.drain.value.user then w else []
  {
    var d := st.drain.value;
    OfAppend(st.queue, w, d.user);
    assert Of(w, d.user) == if w != [] && w[0].user == d.user then w else [] by {
      if w != [] { assert w[..0] == [] && w == [w[0]]; }
    }
    assert Of(st.queue + w, d.user)[|d.items|..] == Of(st.queue, d.user)[|d.items|..] + Of(w, d.user);
  }

  /** A late row is none of those read. */
  lemma LateIsNew(st: State, it: Item)
    requires OneEach(st.queue) && DrainSound(st.queue, st.drain) && it in Late(st)
    ensures it in st.queue && it.user == st.drain.value.user && it !in st.drain.value.items
  {
    var d := st.drain.value;
    var mine := Of(st.queue, d.user);
    OfFacts(st.queue, d.user);
    var k :| 0 <= k < |Late(st)| && Late(st)[k] == it;
    assert it == mine[|d.items| + k] && mine[|d.items| + k] in mine;
    forall i | 0 <= i < |d.items| ensures d.items[i] != it {
      RowsDiffer(mine, d.user, i, |d.items| + k);
    }
  }

  lemma RowsDiffer(mine: seq<Item>, u: string, i: nat, k: nat)
    requires OneEach(mine) && (forall it :: it in mine ==> it.user == u) && i < k < |mine|
    ensures mine[i] != mine[k]
  {
    assert mine[i] in mine && mine[k] in mine;
  }

  lemma HeadIn<T>(s: seq<T>)
    ensures s != [] ==> s[0] in s
  {
  }

  lemma ReadThenLate(st: State)
    requires DrainSound(st.queue, st.drain) && st.drain.Some?
    ensures Of(st.queue, st.drain.value.user) == st.drain.value.items + Late(st)
  {
  }

  lemma ClearedRows(st: State, it: Item)
    requires Inv(st) && Enabled(st, Clear)
    ensures it in st.queue && it !in Do(st, Clear).queue <==> it in st.drain.value.items + Late(st)
  {
    OfFacts(st.queue, st.drain.value.user);
    ReadThenLate(st);
  }

  /** The delete takes exactly the rows that were read and the late ones: it loses nothing if and only if none is
      late. */
  lemma ClearTakes(st: State)
    requires Inv(st) && Enabled(st, Clear)
    ensures forall it :: it in st.queue && it !in Do(st, Clear).queue <==> it in st.drain.value.items || it in Late(st)
    ensures Late(st) == [] <==> forall it :: it in st.queue && it !in Do(st, Clear).queue ==> it in st.drain.value.items
  {
    forall it ensures it in st.queue && it !in Do(st, Clear).queue <==> it in st.drain.value.items || it in Late(st) {
      ClearedRows(st, it);
    }
    HeadIn(Late(st));
    if Late(st) != [] { LateIsNew(st, Late(st)[0]); }
  }

  /** User `u` was not handed alert `no`, and never will be. */
  ghost predicate Lost(st: State, u: string, no: nat) {
    && no < st.next
    && (forall h :: h in st.log ==> h.user != u || h.no != no)
    && (forall it :: it in st.queue ==> it.user != u || it.alert.no != no)
    && (st.drain.Some? ==> forall it :: it in st.drain.value.items ==> it.user != u || it.alert.no != no)
    && (no in st.alerts ==> u in st.alerts[no].skip && st.alerts[no].skip[u])
  }

  lemma LostLook(st: State, no': nat, n: Now, u: string, no: nat)
    requires Inv(st) && Lost(st, u, no) && Enabled(st, Look(no', n))
    ensures Lost(Do(st, Look(no', n)), u, no)
  {
    assert AlertingSound(st.alerts[no'], no', st.log, st.queue);
  }

  lemma LostStep(st: State, a: Action, u: string, no: nat)
    requires Inv(st) && Lost(st, u, no)
    ensures Lost(Do(st, a), u, no)
  {
    if Enabled(st, a) {
      match a {
        case Look(no', n) => LostLook(st, no', n, u, no);
        case ReadRows(v, _) => OfFacts(st.queue, v);
        case Clear => OfFacts(st.queue, st.drain.value.user);
        case _ =>
      }
    }
  }

  lemma {:induction false} LostForGood(st: State, acts: seq<Action>, u: string, no: nat)
    requires Inv(st) && Lost(st, u, no)
    ensures Lost(After(st, acts), u, no)
    decreases |acts|
  {
    if acts != [] {
      DoKeeps(st, acts[0]);
      LostStep(st, acts[0], u, no);
      LostForGood(Do(st, acts[0]), acts[1..], u, no);
    }
  }

  /** A row that is late when the drain deletes is never handed out, whatever happens afterwards. */
  lemma LateRowsAreLost(st: State, it: Item, acts: seq<Action>)
    requires Inv(st) && Enabled(st, Clear) && it in Late(st)
    ensures Lost(After(Do(st, Clear), acts), it.user, it.alert.no)
  {
    LateIsNew(st, it);
    OfFacts(st.queue, st.drain.value.user);
    assert !Handled(st.drain, it);
    if it.alert.no in st.alerts {
      assert AlertingSound(st.alerts[it.alert.no], it.alert.no, st.log, st.queue);
    }
    DoKeeps(st, Clear);
    LostForGood(Do(st, Clear), acts, it.user, it.alert.no);
  }
}
