/** Web Push decisions: who is handed an alert at once, for whom it waits until the quiet hours end, and who is handed
    what waited (internal/push/push.go, `Notify`; internal/push/prefs.go, `inQuietHours`, `drainUser`). A push may take
    long, so what a decision depends on is asked for anew each time the program asks. */
module Push {
  // ---------- quiet hours ----------

  /** The window test as the program makes it. */
  predicate InWindow(start: int, end: int, h: int) {
    if start == end then false
    else if start < end then start <= h && h < end
    else h >= start || h < end
  }

  /** It is the circular test: `h` is less than a window's length past its start, round the clock. */
  lemma WindowIsCircular(start: int, end: int, h: int)
    requires 0 <= start < 24 && 0 <= end < 24 && 0 <= h < 24
    ensures InWindow(start, end, h) <==> (h - start) % 24 < (end - start) % 24
  {
  }

  // ---------- state ----------

  datatype Sub = Sub(device: nat, user: string)

  datatype Alert = Alert(no: nat, crit: bool, kind: string)

  /** A row of `notification_queue`. */
  datatype Item = Item(user: string, alert: Alert)

  /** A push handed to a device, and whose device it was then. */
  datatype Handed = Handed(device: nat, user: string, no: nat)

  /** What the decisions depend on at one moment: the users whose window is open, who has the app open, and the kinds
      switched off. */
  datatype Now = Now(quiet: set<string>, active: set<string>, off: set<(string, string)>)

  predicate Omits(n: Now, u: string, a: Alert) { !a.crit && (u, a.kind) in n.off }

  predicate Defers(n: Now, u: string, a: Alert) { !a.crit && !Omits(n, u, a) && u in n.quiet }

  function Users(subs: seq<Sub>): set<string> {
    set s | s in subs :: s.user
  }

  ghost predicate Distinct(subs: seq<Sub>) {
    forall i, j :: 0 <= i < j < |subs| ==> subs[i].device != subs[j].device
  }

  /** No two of these pushes went to the same device. */
  ghost predicate DevicesDiffer(log: seq<Handed>) {
    forall i, j :: 0 <= i < j < |log| ==> log[i].device != log[j].device
  }

  ghost predicate NoRepeats(log: seq<Handed>) {
    forall i, j :: 0 <= i < j < |log| ==> log[i] != log[j]
  }

  /** No user has two rows for one alert. */
  ghost predicate OneEach(queue: seq<Item>) {
    forall i, j :: 0 <= i < j < |queue| ==> queue[i].user != queue[j].user || queue[i].alert.no != queue[j].alert.no
  }

  // ---------- what Notify does ----------

  /** Which users are passed over, decided for each at the first device met; `n(i)` is what is answered at device
      `i`. */
  function Skips(subs: seq<Sub>, n: nat -> Now, a: Alert): map<string, bool> {
    if subs == [] then map[]
    else
      var k := |subs| - 1;
      var front, u := Skips(subs[..k], n, a), subs[k].user;
      if u in front then front else front[u := Omits(n(k), u, a) || Defers(n(k), u, a)]
  }

  /** The device is sent the alert at once. */
  predicate SentAt(skip: map<string, bool>, n: Now, u: string, a: Alert) {
    u in skip && !skip[u] && (a.crit || u !in n.active)
  }

  /** The pushes sent at once. */
  function Direct(subs: seq<Sub>, n: nat -> Now, a: Alert): seq<Handed> {
    if subs == [] then []
    else
      var k := |subs| - 1;
      Direct(subs[..k], n, a)
      + (if SentAt(Skips(subs, n, a), n(k), subs[k].user, a) then [Handed(subs[k].device, subs[k].user, a.no)] else [])
  }

  /** The rows queued: one for every user it waits for, however many devices. */
  function Queued(subs: seq<Sub>, n: nat -> Now, a: Alert): seq<Item> {
    if subs == [] then []
    else
      var k := |subs| - 1;
      var front, u := subs[..k], subs[k].user;
      Queued(front, n, a) + (if u !in Users(front) && Defers(n(k), u, a) then [Item(u, a)] else [])
  }

  /** Device `i` is the first of its user. */
  ghost predicate IsFirst(subs: seq<Sub>, i: nat) {
    i < |subs| && forall j :: 0 <= j < i ==> subs[j].user != subs[i].user
  }

  lemma {:induction false} SkipsKeys(subs: seq<Sub>, n: nat -> Now, a: Alert)
    ensures Skips(subs, n, a).Keys == Users(subs)
    ensures a.crit ==> forall u :: u in Skips(subs, n, a) ==> !Skips(subs, n, a)[u]
    decreases |subs|
  {
    if subs != [] {
      var k := |subs| - 1;
      SkipsKeys(subs[..k], n, a);
      assert subs == subs[..k] + [subs[k]];
      assert Users(subs) == Users(subs[..k]) + {subs[k].user};
    }
  }

  lemma {:induction false} SkipsFirst(subs: seq<Sub>, n: nat -> Now, a: Alert, i: nat)
    requires IsFirst(subs, i)
    ensures var u := subs[i].user;
            u in Skips(subs, n, a) && Skips(subs, n, a)[u] == (Omits(n(i), u, a) || Defers(n(i), u, a))
    decreases |subs|
  {
    var k := |subs| - 1;
    SkipsKeys(subs[..k], n, a);
    if i < k {
      FirstFront(subs, i);
      SkipsFirst(subs[..k], n, a, i);
    } else {
      FirstNew(subs, k);
    }
  }

  /** Everybody is decided for, at the first device, and nobody is passed over by a critical alert. */
  lemma SkipsFacts(subs: seq<Sub>, n: nat -> Now, a: Alert)
    ensures Skips(subs, n, a).Keys == Users(subs)
    ensures forall i: nat :: IsFirst(subs, i) ==>
              subs[i].user in Skips(subs, n, a)
              && Skips(subs, n, a)[subs[i].user] == (Omits(n(i), subs[i].user, a) || Defers(n(i), subs[i].user, a))
    ensures a.crit ==> forall u :: u in Skips(subs, n, a) ==> !Skips(subs, n, a)[u]
  {
    SkipsKeys(subs, n, a);
    forall i: nat | IsFirst(subs, i)
      ensures subs[i].user in Skips(subs, n, a)
              && Skips(subs, n, a)[subs[i].user] == (Omits(n(i), subs[i].user, a) || Defers(n(i), subs[i].user, a))
    {
      SkipsFirst(subs, n, a, i);
    }
  }

  ghost predicate IsSent(subs: seq<Sub>, n: nat -> Now, a: Alert, i: nat) {
    i < |subs| && SentAt(Skips(subs, n, a), n(i), subs[i].user, a)
  }

  ghost predicate SentTo(subs: seq<Sub>, n: nat -> Now, a: Alert, h: Handed) {
    exists i: nat :: IsSent(subs, n, a, i) && h == Handed(subs[i].device, subs[i].user, a.no)
  }

  /** A user once decided for stays so. */
  lemma IsSentFront(subs: seq<Sub>, n: nat -> Now, a: Alert, i: nat)
    requires i + 1 < |subs|
    ensures IsSent(subs, n, a, i) <==> IsSent(subs[..|subs| - 1], n, a, i)
  {
    var front := subs[..|subs| - 1];
    SkipsKeys(front, n, a);
    assert front[i] == subs[i] && front[i] in front;
  }

  lemma {:induction false} DirectMember(subs: seq<Sub>, n: nat -> Now, a: Alert, h: Handed)
    ensures h in Direct(subs, n, a) <==> SentTo(subs, n, a, h)
    decreases |subs|
  {
    if subs != [] {
      var k := |subs| - 1;
      DirectMember(subs[..k], n, a, h);
      if SentTo(subs[..k], n, a, h) {
        var i: nat :| IsSent(subs[..k], n, a, i) && h == Handed(subs[..k][i].device, subs[..k][i].user, a.no);
        IsSentFront(subs, n, a, i);
        assert IsSent(subs, n, a, i);
      }
      if SentTo(subs, n, a, h) {
        var i: nat :| IsSent(subs, n, a, i) && h == Handed(subs[i].device, subs[i].user, a.no);
        if i < k {
          IsSentFront(subs, n, a, i);
          assert IsSent(subs[..k], n, a, i);
        }
      }
    }
  }

  lemma {:induction false} DirectDevices(subs: seq<Sub>, n: nat -> Now, a: Alert)
    requires Distinct(subs)
    ensures DevicesDiffer(Direct(subs, n, a))
    decreases |subs|
  {
    if subs != [] {
      var k := |subs| - 1;
      DirectDevices(subs[..k], n, a);
      var d := Direct(subs[..k], n, a);
      forall i | 0 <= i < |d| ensures d[i].device != subs[k].device {
        DirectMember(subs[..k], n, a, d[i]);
        var j: nat :| IsSent(subs[..k], n, a, j) && d[i] == Handed(subs[..k][j].device, subs[..k][j].user, a.no);
        assert subs[..k][j] == subs[j];
      }
    }
  }

  /** The alert goes at once to exactly those devices whose user was not passed over and, unless it is critical, does
      not have the app open when the device is met; to none twice. A critical one goes to every device. */
  lemma DirectFacts(subs: seq<Sub>, n: nat -> Now, a: Alert)
    requires Distinct(subs)
    ensures DevicesDiffer(Direct(subs, n, a))
    ensures forall h :: h in Direct(subs, n, a) <==> SentTo(subs, n, a, h)
    ensures a.crit ==> forall s :: s in subs ==> Handed(s.device, s.user, a.no) in Direct(subs, n, a)
  {
    DirectDevices(subs, n, a);
    forall h ensures h in Direct(subs, n, a) <==> SentTo(subs, n, a, h) { DirectMember(subs, n, a, h); }
    SkipsKeys(subs, n, a);
    forall s | a.crit && s in subs ensures SentTo(subs, n, a, Handed(s.device, s.user, a.no)) {
      var i :| 0 <= i < |subs| && subs[i] == s;
      assert IsSent(subs, n, a, i);
    }
  }

  /** It is queued for exactly the users whose window is open, and whose kind is not off, when their first device is
      met; for each of them once. A critical one is queued for nobody. */
  lemma {:induction false} QueuedFacts(subs: seq<Sub>, n: nat -> Now, a: Alert)
    ensures forall it :: it in Queued(subs, n, a) <==> WaitsFor(subs, n, a, it)
    ensures forall i, j :: 0 <= i < j < |Queued(subs, n, a)| ==>
              Queued(subs, n, a)[i].user != Queued(subs, n, a)[j].user
    ensures a.crit ==> Queued(subs, n, a) == []
    decreases |subs|
  {
    if subs != [] {
      var k := |subs| - 1;
      var front := subs[..k];
      QueuedFacts(front, n, a);
      var q := Queued(front, n, a);
      forall it ensures it in Queued(subs, n, a) <==> WaitsFor(subs, n, a, it) { WaitsNext(subs, n, a, it); }
      forall i | 0 <= i < |q| ensures q[i].user in Users(front) {
        assert q[i] in q;
        WaitsKnown(front, n, a, q[i]);
      }
    }
  }

  /** The same in plain terms. With `i` the first device of user `u`, and `j` any: an alert that is not critical goes at
      once to device `j` exactly if its kind is on and the window closed when `i` is met, and the app not open when `j`
      is; a critical one always. */
  lemma DirectIff(subs: seq<Sub>, n: nat -> Now, a: Alert, i: nat, j: nat)
    requires Distinct(subs) && IsFirst(subs, i) && j < |subs| && subs[j].user == subs[i].user
    ensures var u := subs[i].user;
            Handed(subs[j].device, u, a.no) in Direct(subs, n, a) <==>
              || a.crit
              || ((u, a.kind) !in n(i).off && u !in n(i).quiet && u !in n(j).active)
  {
    var u, h := subs[i].user, Handed(subs[j].device, subs[i].user, a.no);
    DirectMember(subs, n, a, h);
    SkipsFirst(subs, n, a, i);
    if SentTo(subs, n, a, h) {
      var k: nat :| IsSent(subs, n, a, k) && h == Handed(subs[k].device, subs[k].user, a.no);
      assert k == j;
    }
    if IsSent(subs, n, a, j) { assert SentTo(subs, n, a, h); }
  }

  /** It waits for the user exactly if it is not critical, its kind is on, and the window open, when `i` is met. */
  lemma QueuedIff(subs: seq<Sub>, n: nat -> Now, a: Alert, i: nat)
    requires IsFirst(subs, i)
    ensures var u := subs[i].user;
            Item(u, a) in Queued(subs, n, a) <==> !a.crit && (u, a.kind) !in n(i).off && u in n(i).quiet
  {
    var u := subs[i].user;
    QueuedFacts(subs, n, a);
    if WaitsFor(subs, n, a, Item(u, a)) {
      var k: nat :| IsFirst(subs, k) && subs[k].user == u && Defers(n(k), u, a);
      assert k == i;
    }
    if Defers(n(i), u, a) { assert WaitsFor(subs, n, a, Item(u, a)); }
  }

  ghost predicate WaitsFor(subs: seq<Sub>, n: nat -> Now, a: Alert, it: Item) {
    it.alert == a && exists i: nat :: IsFirst(subs, i) && subs[i].user == it.user && Defers(n(i), it.user, a)
  }

  lemma WaitsKnown(subs: seq<Sub>, n: nat -> Now, a: Alert, it: Item)
    requires WaitsFor(subs, n, a, it)
    ensures it.user in Users(subs)
  {
    var i: nat :| IsFirst(subs, i) && subs[i].user == it.user && Defers(n(i), it.user, a);
    assert subs[i] in subs;
  }

  lemma FirstFront(subs: seq<Sub>, i: nat)
    requires i + 1 < |subs|
    ensures IsFirst(subs, i) <==> IsFirst(subs[..|subs| - 1], i)
  {
    var front := subs[..|subs| - 1];
    assert forall j :: 0 <= j <= i ==> front[j] == subs[j];
  }

  lemma FirstNew(subs: seq<Sub>, k: nat)
    requires k < |subs|
    ensures IsFirst(subs, k) <==> subs[k].user !in Users(subs[..k])
  {
    if subs[k].user in Users(subs[..k]) {
      var s :| s in subs[..k] && s.user == subs[k].user;
      var j :| 0 <= j < k && subs[..k][j] == s;
      assert subs[j].user == subs[k].user;
    } else {
      forall j | 0 <= j < k ensures subs[j].user != subs[k].user { assert subs[..k][j] in subs[..k]; }
    }
  }

  lemma WaitsNext(subs: seq<Sub>, n: nat -> Now, a: Alert, it: Item)
    requires subs != []
    ensures var k := |subs| - 1;
            WaitsFor(subs, n, a, it) <==>
              WaitsFor(subs[..k], n, a, it)
              || (subs[k].user !in Users(subs[..k]) && Defers(n(k), subs[k].user, a) && it == Item(subs[k].user, a))
  {
    var k := |subs| - 1;
    FirstNew(subs, k);
    if WaitsFor(subs[..k], n, a, it) {
      var i: nat :| IsFirst(subs[..k], i) && subs[..k][i].user == it.user && Defers(n(i), it.user, a);
      FirstFront(subs, i);
      assert IsFirst(subs, i) && subs[i].user == it.user;
    }
    if WaitsFor(subs, n, a, it) {
      var i: nat :| IsFirst(subs, i) && subs[i].user == it.user && Defers(n(i), it.user, a);
      if i < k {
        FirstFront(subs, i);
        assert IsFirst(subs[..k], i) && subs[..k][i].user == it.user;
      }
    }
  }

  lemma PrefixNext(subs: seq<Sub>, i: nat, n: nat -> Now, a: Alert)
    requires i < |subs|
    ensures var u, skip := subs[i].user, Skips(subs[..i], n, a);
            && Skips(subs[..i + 1], n, a)
                 == (if u in skip then skip else skip[u := Omits(n(i), u, a) || Defers(n(i), u, a)])
            && Direct(subs[..i + 1], n, a) == Direct(subs[..i], n, a)
                 + (if SentAt(Skips(subs[..i + 1], n, a), n(i), u, a) then [Handed(subs[i].device, u, a.no)] else [])
            && Queued(subs[..i + 1], n, a) == Queued(subs[..i], n, a)
                 + (if u !in Users(subs[..i]) && Defers(n(i), u, a) then [Item(u, a)] else [])
  {
    assert subs[..i + 1][..i] == subs[..i];
  }

  // ---------- what a drain does ----------

  function Of(queue: seq<Item>, u: string): seq<Item> {
    if queue == [] then []
    else Of(queue[..|queue| - 1], u) + (if queue[|queue| - 1].user == u then [queue[|queue| - 1]] else [])
  }

  function NotOf(queue: seq<Item>, u: string): seq<Item> {
    if queue == [] then []
    else NotOf(queue[..|queue| - 1], u) + (if queue[|queue| - 1].user == u then [] else [queue[|queue| - 1]])
  }

  /** The devices of one user. */
  function DevicesOf(subs: seq<Sub>, u: string): seq<Sub> {
    if subs == [] then []
    else DevicesOf(subs[..|subs| - 1], u) + (if subs[|subs| - 1].user == u then [subs[|subs| - 1]] else [])
  }

  lemma {:induction false} DevicesOfFacts(subs: seq<Sub>, u: string)
    ensures forall s :: s in DevicesOf(subs, u) <==> s in subs && s.user == u
    ensures Distinct(subs) ==> Distinct(DevicesOf(subs, u))
  {
    if subs != [] {
      var k := |subs| - 1;
      DevicesOfFacts(subs[..k], u);
      assert subs == subs[..k] + [subs[k]];
      if Distinct(subs) {
        var front := DevicesOf(subs[..k], u);
        forall i | 0 <= i < |front| ensures front[i].device != subs[k].device {
          assert front[i] in front;
          var j :| 0 <= j < k && subs[j] == front[i];
        }
      }
    }
  }

  /** The app is open, so a push would only repeat what is on the screen. */
  predicate InApp(n: Now, it: Item) { !it.alert.crit && it.user in n.active }

  /** The app is not open when device `j` is met. */
  predicate Away(n: nat -> Now, it: Item, j: nat) { !InApp(n(j + 1), it) }

  lemma AwayIff(n: nat -> Now, it: Item, j: nat)
    ensures Away(n, it, j) <==> it.alert.crit || it.user !in n(j + 1).active
  {
  }

  /** How many of its user's devices a queued alert is pushed to: those met before the app is found open, if any.
      `n(0)` answers for the kind, `n(j + 1)` at device `j`. */
  function Reach(mine: seq<Sub>, n: nat -> Now, it: Item, j: nat): (m: nat)
    requires j <= |mine|
    ensures j <= m <= |mine|
    ensures forall i :: j <= i < m ==> Away(n, it, i)
    ensures m < |mine| ==> !Away(n, it, m)
    decreases |mine| - j
  {
    if j == |mine| || !Away(n, it, j) then j else Reach(mine, n, it, j + 1)
  }

  function Pushes(mine: seq<Sub>, it: Item): seq<Handed> {
    seq(|mine|, i requires 0 <= i < |mine| => Handed(mine[i].device, it.user, it.alert.no))
  }

  /** The pushes for one queued alert; none if its kind was switched off meanwhile. */
  function Delivery(mine: seq<Sub>, n: nat -> Now, it: Item): seq<Handed> {
    if (it.user, it.alert.kind) in n(0).off then [] else Pushes(mine[..Reach(mine, n, it, 0)], it)
  }

  /** Alert by alert, in the order they were queued; `n(k)` answers for row `k`. */
  function Deliveries(mine: seq<Sub>, n: nat -> nat -> Now, items: seq<Item>): seq<Handed> {
    if items == [] then []
    else Deliveries(mine, n, items[..|items| - 1]) + Delivery(mine, n(|items| - 1), items[|items| - 1])
  }

  lemma {:induction false} OfMembers(queue: seq<Item>, u: string)
    ensures forall it :: it in Of(queue, u) <==> it in queue && it.user == u
    ensures forall it :: it in NotOf(queue, u) <==> it in queue && it.user != u
  {
    if queue != [] {
      var k := |queue| - 1;
      OfMembers(queue[..k], u);
      assert queue == queue[..k] + [queue[k]];
    }
  }

  lemma {:induction false} OfOrder(queue: seq<Item>, u: string)
    requires OneEach(queue)
    ensures OneEach(Of(queue, u)) && OneEach(NotOf(queue, u))
  {
    if queue != [] {
      var k := |queue| - 1;
      OfOrder(queue[..k], u);
      OfMembers(queue[..k], u);
      OneEachNext(queue, Of(queue[..k], u));
      OneEachNext(queue, NotOf(queue[..k], u));
    }
  }

  /** Items of the front may be followed by the last one. */
  lemma OneEachNext(queue: seq<Item>, part: seq<Item>)
    requires queue != [] && OneEach(queue) && OneEach(part)
    requires forall it :: it in part ==> it in queue[..|queue| - 1]
    ensures OneEach(part + [queue[|queue| - 1]])
  {
    var k := |queue| - 1;
    forall i | 0 <= i < |part| ensures part[i].user != queue[k].user || part[i].alert.no != queue[k].alert.no {
      assert part[i] in part;
      assert part[i] in queue[..k];
      var j :| 0 <= j < k && queue[..k][j] == part[i];
      assert queue[j] == part[i];
    }
  }

  lemma OfFacts(queue: seq<Item>, u: string)
    ensures forall it :: it in Of(queue, u) <==> it in queue && it.user == u
    ensures forall it :: it in NotOf(queue, u) <==> it in queue && it.user != u
    ensures OneEach(queue) ==> OneEach(Of(queue, u)) && OneEach(NotOf(queue, u))
  {
    OfMembers(queue, u);
    if OneEach(queue) { OfOrder(queue, u); }
  }

  /** A queued alert goes to its user's devices in turn, to none twice, up to the first at which the app is open. */
  lemma DeliveryFacts(mine: seq<Sub>, n: nat -> Now, it: Item)
    requires Distinct(mine)
    ensures DevicesDiffer(Delivery(mine, n, it))
    ensures forall h :: h in Delivery(mine, n, it) <==>
              && h.user == it.user && h.no == it.alert.no && (it.user, it.alert.kind) !in n(0).off
              && exists j: nat :: j < |mine| && mine[j].device == h.device && forall i :: 0 <= i <= j ==> Away(n, it, i)
  {
    var d, m := Delivery(mine, n, it), Reach(mine, n, it, 0);
    if (it.user, it.alert.kind) !in n(0).off {
      assert forall i :: 0 <= i < m ==> d[i] == Handed(mine[i].device, it.user, it.alert.no);
      forall h ensures h in d <==>
                 && h.user == it.user && h.no == it.alert.no
                 && exists j: nat ::
                      j < |mine| && mine[j].device == h.device && forall i :: 0 <= i <= j ==> Away(n, it, i)
      {
        if h in d {
          var j :| 0 <= j < m && d[j] == h;
          assert mine[j].device == h.device;
        }
        if j: nat :| h.user == it.user && h.no == it.alert.no
                     && j < |mine| && mine[j].device == h.device && forall i :: 0 <= i <= j ==> Away(n, it, i) {
          assert j < m;
          assert d[j] == h;
        }
      }
    }
  }

  /** The pushes `d` are for rows of `items`, row after row. */
  ghost predicate RowByRow(d: seq<Handed>, items: seq<Item>) {
    && (forall h :: h in d ==> exists it :: it in items && it.alert.no == h.no)
    && RowsAscend(d, items)
  }

  ghost predicate RowsAscend(d: seq<Handed>, items: seq<Item>) {
    forall i, j, r, s :: 0 <= i < j < |d| && IsFor(d[i], items, r) && IsFor(d[j], items, s) ==> r <= s
  }

  ghost predicate IsFor(h: Handed, items: seq<Item>, r: int) {
    0 <= r < |items| && h.no == items[r].alert.no
  }

  /** Delivering one user's rows keeps their order and repeats nothing. */
  lemma {:induction false} DeliveriesFacts(mine: seq<Sub>, n: nat -> nat -> Now, items: seq<Item>, u: string)
    requires Distinct(mine) && OneEach(items) && forall it :: it in items ==> it.user == u
    ensures var d := Deliveries(mine, n, items);
            NoRepeats(d) && RowByRow(d, items) && forall h :: h in d ==> h.user == u
    decreases |items|
  {
    if items != [] {
      var k := |items| - 1;
      assert items == items[..k] + [items[k]];
      DeliveriesFacts(mine, n, items[..k], u);
      DeliveryFacts(mine, n(k), items[k]);
      RowAppended(Deliveries(mine, n, items[..k]), Delivery(mine, n(k), items[k]), items, u);
    }
  }

  lemma RowAppended(a: seq<Handed>, b: seq<Handed>, items: seq<Item>, u: string)
    requires items != [] && OneEach(items) && forall it :: it in items ==> it.user == u
    requires NoRepeats(a) && RowByRow(a, items[..|items| - 1]) && DevicesDiffer(b)
    requires forall h :: h in b ==> h.no == items[|items| - 1].alert.no
    ensures NoRepeats(a + b) && RowByRow(a + b, items)
  {
    var k := |items| - 1;
    var last := items[k].alert.no;
    forall i | 0 <= i < k ensures items[i].alert.no != last { assert items[i] in items && items[k] in items; }
    forall i | 0 <= i < |b| ensures b[i].no == last { assert b[i] in b; }
    forall i | 0 <= i < |a| ensures a[i].no != last {
      assert a[i] in a;
      var it :| it in items[..k] && it.alert.no == a[i].no;
      var j :| 0 <= j < k && items[..k][j] == it;
      assert items[j] == it;
    }
    forall h | h in a + b ensures exists it :: it in items && it.alert.no == h.no {
      if h in a {
        var it :| it in items[..k] && it.alert.no == h.no;
        assert it in items;
      } else {
        assert h in b && items[k] in items;
      }
    }
    RowOrder(a, b, items);
  }

  lemma RowOrder(a: seq<Handed>, b: seq<Handed>, items: seq<Item>)
    requires items != [] && RowByRow(a, items[..|items| - 1])
    requires forall i :: 0 <= i < |a| ==> a[i].no != items[|items| - 1].alert.no
    requires forall i :: 0 <= i < |b| ==> b[i].no == items[|items| - 1].alert.no
    requires forall i :: 0 <= i < |items| - 1 ==> items[i].alert.no != items[|items| - 1].alert.no
    ensures RowsAscend(a + b, items)
  {
    var k, d := |items| - 1, a + b;
    forall i, j, r, s | 0 <= i < j < |d| && IsFor(d[i], items, r) && IsFor(d[j], items, s) ensures r <= s {
      if j < |a| {
        assert IsFor(a[i], items[..k], r) && IsFor(a[j], items[..k], s);
      } else {
        assert d[j] == b[j - |a|] && s == k;
      }
    }
  }
}
