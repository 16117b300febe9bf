/** Concrete runs of the push sender in which it does what one might not expect. */
module PushWitnesses {
  import opened Options
  import opened Push
  import opened PushRuns
  import opened PushClaims

  lemma TwoSteps(st: State, a: Action, mid: State, b: Action, end: State, rest: seq<Action>)
    requires Do(st, a) == mid && Do(mid, b) == end
    ensures After(st, [a, b] + rest) == After(end, rest)
  {
    assert ([a, b] + rest)[1..] == [b] + rest && ([b] + rest)[1..] == rest;
    assert After(st, [a, b] + rest) == After(mid, [b] + rest);
    assert After(mid, [b] + rest) == After(end, rest);
  }

  const CALM := Now({}, {}, {})
  const QUIET_U := Now({"u"}, {}, {})
  const QUIET_V := Now({"v"}, {}, {})
  const FIRST := Alert(0, false, "k")
  const SECOND := Alert(1, false, "k")
  const DEVICE := Sub(1, "u")

  /** One device of u's, and alert 0 queued for u. */
  const WAITING := State([DEVICE], [Item("u", FIRST)], [], 1,
                         map[0 := Alerting(FIRST, [DEVICE], map["u" := true], 1)], None)

  lemma QueueOne() returns (acts: seq<Action>)
    ensures |acts| == 4 && forall rest :: After(EMPTY, acts + rest) == After(WAITING, rest)
  {
    var s1 := EMPTY.(subs := [DEVICE]);
    var s2 := s1.(next := 1, alerts := map[0 := Alerting(FIRST, [DEVICE], map[], 0)]);
    assert Others([], 1) == [];
    assert Do(EMPTY, Subscribe(1, "u")) == s1;
    assert Do(s1, Raise(false, "k")) == s2;
    assert Do(s2, Look(0, QUIET_U)) == WAITING;
    assert Do(WAITING, Abandon) == WAITING;
    acts := [Subscribe(1, "u"), Raise(false, "k"), Look(0, QUIET_U), Abandon];
    forall rest ensures After(EMPTY, acts + rest) == After(WAITING, rest) {
      var tail := [Look(0, QUIET_U), Abandon] + rest;
      assert acts + rest == [Subscribe(1, "u"), Raise(false, "k")] + tail;
      TwoSteps(EMPTY, Subscribe(1, "u"), s1, Raise(false, "k"), s2, tail);
      TwoSteps(s2, Look(0, QUIET_U), WAITING, Abandon, WAITING, rest);
    }
  }

  const READING := WAITING.(drain := Some(Drain("u", [DEVICE], [Item("u", FIRST)], 0, None)))
  const BEGUN := WAITING.(drain := Some(Drain("u", [DEVICE], [Item("u", FIRST)], 0, Some(0))))

  lemma ReadOne()
    ensures Do(WAITING, ReadRows("u", CALM)) == READING && Do(READING, Turn(CALM)) == BEGUN
  {
    assert [DEVICE][..0] == [] && [Item("u", FIRST)][..0] == [];
    assert DevicesOf([DEVICE], "u") == [DEVICE];
    assert Of([Item("u", FIRST)], "u") == [Item("u", FIRST)];
  }

  /** The tick finds u's window closed and reads; the push goes out when it has opened. */
  lemma DrainIntoWindow() returns (acts: seq<Action>)
    ensures AnyIntoWindow(After(EMPTY, acts), [Turn(QUIET_U)])
    ensures After(EMPTY, acts + [Turn(QUIET_U)]).log == [Handed(1, "u", 0)]
  {
    acts := BeginOne();
    TurnIntoWindow();
    AfterKeeps(EMPTY, acts + []);
    assert acts + [] == acts;
    IntoWindowIff(BEGUN, Turn(QUIET_U));
    assert After(BEGUN, [Turn(QUIET_U)]) == After(Do(BEGUN, Turn(QUIET_U)), []);
  }

  lemma BeginOne() returns (acts: seq<Action>)
    ensures forall rest :: After(EMPTY, acts + rest) == After(BEGUN, rest)
  {
    var queued := QueueOne();
    var two := [ReadRows("u", CALM), Turn(CALM)];
    ReadOne();
    acts := queued + two;
    forall rest ensures After(EMPTY, acts + rest) == After(BEGUN, rest) {
      assert acts + rest == queued + (two + rest);
      TwoSteps(WAITING, ReadRows("u", CALM), READING, Turn(CALM), BEGUN, rest);
    }
  }

  lemma TurnIntoWindow()
    ensures OpenedSince(BEGUN, Turn(QUIET_U)) && Do(BEGUN, Turn(QUIET_U)).log == [Handed(1, "u", 0)]
  {
    assert [] + [Handed(1, "u", 0)] == [Handed(1, "u", 0)];
  }

  const LATE1 := BEGUN.(next := 2, alerts := BEGUN.alerts[1 := Alerting(SECOND, [DEVICE], map[], 0)])
  const LATE2 := LATE1.(queue := [Item("u", FIRST), Item("u", SECOND)],
                        alerts := BEGUN.alerts[1 := Alerting(SECOND, [DEVICE], map["u" := true], 1)])
  const LATE3 := LATE2.(log := [Handed(1, "u", 0)], drain := Some(BEGUN.drain.value.(dev := Some(1))))
  const LATE4 := LATE3.(drain := Some(BEGUN.drain.value.(sent := 1, dev := None)))
  const LATE5 := LATE4.(queue := [], drain := None)

  lemma LateSteps()
    ensures Do(BEGUN, Raise(false, "k")) == LATE1 && Do(LATE1, Look(1, QUIET_U)) == LATE2
    ensures Do(LATE2, Turn(CALM)) == LATE3 && Do(LATE3, Turn(CALM)) == LATE4
  {
    assert [] + [Handed(1, "u", 0)] == [Handed(1, "u", 0)];
    assert [Item("u", FIRST)] + [Item("u", SECOND)] == [Item("u", FIRST), Item("u", SECOND)];
  }

  lemma LateClear()
    ensures Do(LATE4, Clear) == LATE5 && Lost(LATE5, "u", 1)
  {
    OfFacts(LATE4.queue, "u");
    HeadIn(NotOf(LATE4.queue, "u"));
  }

  lemma LateRest() returns (acts: seq<Action>)
    ensures After(BEGUN, acts) == LATE5
  {
    LateSteps();
    LateClear();
    var c := [Clear, Abandon] + [];
    var b := [Turn(CALM), Turn(CALM)] + c;
    acts := [Raise(false, "k"), Look(1, QUIET_U)] + b;
    TwoSteps(BEGUN, Raise(false, "k"), LATE1, Look(1, QUIET_U), LATE2, b);
    TwoSteps(LATE2, Turn(CALM), LATE3, Turn(CALM), LATE4, c);
    TwoSteps(LATE4, Clear, LATE5, Abandon, LATE5, []);
  }

  lemma LateRun() returns (acts: seq<Action>)
    ensures After(EMPTY, acts) == LATE5
  {
    var queued := QueueOne();
    var rest := LateRest();
    ReadOne();
    TwoSteps(WAITING, ReadRows("u", CALM), READING, Turn(CALM), BEGUN, rest);
    acts := queued + ([ReadRows("u", CALM), Turn(CALM)] + rest);
  }

  /** An alert queued while the drain delivers is deleted unsent, and lost for good. */
  lemma AlertDuringDrainIsLost() returns (acts: seq<Action>)
    ensures After(EMPTY, acts).log == [Handed(1, "u", 0)] && Lost(After(EMPTY, acts), "u", 1)
  {
    acts := LateRun();
    LateClear();
  }

  /** A browser, device 1, that u and v share; v has a phone, too. */
  const SHARED := [Sub(1, "u"), Sub(2, "v")]
  const MOVED := [Sub(2, "v"), Sub(1, "v")]
  const A1 := EMPTY.(subs := [Sub(1, "u")])
  const A2 := EMPTY.(subs := SHARED)
  const A3 := A2.(next := 1, alerts := map[0 := Alerting(FIRST, SHARED, map[], 0)])
  const A4 := A3.(log := [Handed(1, "u", 0)], alerts := map[0 := Alerting(FIRST, SHARED, map["u" := false], 1)])
  const A5 := A4.(queue := [Item("v", FIRST)],
                  alerts := map[0 := Alerting(FIRST, SHARED, map["u" := false, "v" := true], 2)])
  const A6 := A5.(subs := MOVED)
  const A7 := A6.(drain := Some(Drain("v", MOVED, [Item("v", FIRST)], 0, None)))
  const A8 := A7.(drain := Some(Drain("v", MOVED, [Item("v", FIRST)], 0, Some(0))))
  const A9 := A8.(log := [Handed(1, "u", 0), Handed(2, "v", 0)],
                  drain := Some(Drain("v", MOVED, [Item("v", FIRST)], 0, Some(1))))
  const A10 := A9.(log := [Handed(1, "u", 0), Handed(2, "v", 0), Handed(1, "v", 0)],
                   drain := Some(Drain("v", MOVED, [Item("v", FIRST)], 0, Some(2))))

  lemma OthersOfShared()
    ensures Others([], 1) == [] && Others([Sub(1, "u")], 2) == [Sub(1, "u")] && Others(SHARED, 1) == [Sub(2, "v")]
  {
    assert SHARED[..1] == [Sub(1, "u")] && [Sub(1, "u")][..0] == [];
    assert Others([Sub(1, "u")], 1) == [];
  }

  lemma SharedDevices()
    ensures Do(EMPTY, Subscribe(1, "u")) == A1 && Do(A1, Subscribe(2, "v")) == A2
  {
    OthersOfShared();
  }

  lemma SharedMoves()
    ensures Do(A5, Subscribe(1, "v")) == A6
  {
    OthersOfShared();
  }

  lemma SharedAlert()
    ensures Do(A2, Raise(false, "k")) == A3 && Do(A3, Look(0, QUIET_V)) == A4 && Do(A4, Look(0, QUIET_V)) == A5
  {
    assert [] + [Handed(1, "u", 0)] == [Handed(1, "u", 0)];
    assert map["u" := false]["v" := true] == map["u" := false, "v" := true];
  }

  lemma SharedRead()
    ensures Do(A6, ReadRows("v", CALM)) == A7 && Do(A7, Turn(CALM)) == A8
  {
    assert MOVED[..1] == [Sub(2, "v")] && [Sub(2, "v")][..0] == [] && [Item("v", FIRST)][..0] == [];
    assert DevicesOf([Sub(2, "v")], "v") == [Sub(2, "v")];
    assert DevicesOf(MOVED, "v") == MOVED;
    assert Of([Item("v", FIRST)], "v") == [Item("v", FIRST)];
  }

  lemma SharedDelivery()
    ensures Do(A8, Turn(CALM)) == A9 && Do(A9, Turn(CALM)) == A10
  {
    assert A8.log + [Handed(2, "v", 0)] == A9.log && A9.log + [Handed(1, "v", 0)] == A10.log;
  }

  /** The browser is handed alert 0 as u's, changes hands, and is handed it again as v's, for whom it had been
      waiting. */
  lemma ReassignedDeviceIsHandedTwice() returns (acts: seq<Action>)
    ensures After(EMPTY, acts).log == [Handed(1, "u", 0), Handed(2, "v", 0), Handed(1, "v", 0)]
  {
    SharedDevices();
    SharedMoves();
    SharedAlert();
    SharedRead();
    SharedDelivery();
    var e := [Turn(CALM), Turn(CALM)] + [];
    var d := [ReadRows("v", CALM), Turn(CALM)] + e;
    var c := [Look(0, QUIET_V), Subscribe(1, "v")] + d;
    var b := [Raise(false, "k"), Look(0, QUIET_V)] + c;
    acts := [Subscribe(1, "u"), Subscribe(2, "v")] + b;
    TwoSteps(EMPTY, Subscribe(1, "u"), A1, Subscribe(2, "v"), A2, b);
    TwoSteps(A2, Raise(false, "k"), A3, Look(0, QUIET_V), A4, c);
    TwoSteps(A4, Look(0, QUIET_V), A5, Subscribe(1, "v"), A6, d);
    TwoSteps(A6, ReadRows("v", CALM), A7, Turn(CALM), A8, e);
    TwoSteps(A8, Turn(CALM), A9, Turn(CALM), A10, []);
  }

  /** u has two devices: the window is closed when the first is met, and open at the second. */
  const BOTH := [Sub(1, "u"), Sub(2, "u")]
  const W2 := EMPTY.(subs := BOTH)
  const W3 := W2.(next := 1, alerts := map[0 := Alerting(FIRST, BOTH, map[], 0)])
  const W4 := W3.(log := [Handed(1, "u", 0)], alerts := map[0 := Alerting(FIRST, BOTH, map["u" := false], 1)])

  lemma TwoDevices()
    ensures Do(EMPTY, Subscribe(1, "u")) == A1 && Do(A1, Subscribe(2, "u")) == W2
    ensures Do(W2, Raise(false, "k")) == W3 && Do(W3, Look(0, CALM)) == W4
    ensures OpenedSince(W4, Look(0, QUIET_U))
  {
    assert Others([], 1) == [] && [Sub(1, "u")][..0] == [] && Others([Sub(1, "u")], 2) == [Sub(1, "u")];
    assert [] + [Handed(1, "u", 0)] == [Handed(1, "u", 0)];
  }

  /** `Notify` decides once for each user, so its later devices are pushed to in a window that has opened meanwhile. */
  lemma AlertIntoWindow() returns (acts: seq<Action>)
    ensures AnyIntoWindow(After(EMPTY, acts), [Look(0, QUIET_U)])
  {
    TwoDevices();
    var b := [Raise(false, "k"), Look(0, CALM)] + [];
    acts := [Subscribe(1, "u"), Subscribe(2, "u")] + b;
    TwoSteps(EMPTY, Subscribe(1, "u"), A1, Subscribe(2, "u"), W2, b);
    TwoSteps(W2, Raise(false, "k"), W3, Look(0, CALM), W4, []);
    AfterKeeps(EMPTY, acts);
    IntoWindowIff(W4, Look(0, QUIET_U));
  }
}
