/** The emit loop of the stream processor (inference/stream_processor_faust.py): any number of agents,
    each taking one detection at a time through publish, correlate, incident send, compensation and
    dead letter, all sharing the Redis state of one source. */
module StreamProcessor {
  import opened SortedSet
  import opened CorrelationWindow
  import opened RollbackLaws

  /* ---- The protocol ---- */

  /** How far the detection `j` has come. `RollFirst` is the rollback in the incident-send handler,
      `RollSecond` the one in the outer timeout handler. */
  datatype Phase =
    | Start | Published | Correlated | RollFirst(timedOut: bool) | RollSecond | Reporting | Completed | DeadLettered

  /** `abandoned`: correlations whose caller gave up but whose thread may still run. `held`: the
      detections whose add ran and was not rolled back since. */
  datatype System = System(
    phases: seq<Phase>,
    window: Window,
    published: set<nat>,
    added: set<nat>,
    abandoned: set<nat>,
    sendFailed: set<nat>,
    held: set<nat>,
    dlq: seq<Alert>)

  /** One atomic step of one agent, with what its environment did. */
  datatype Move =
    | PublishAcked(j: nat)
    | PublishRefused(j: nat)                    // schema error, publish timeout or publish error
    | AddReturned(j: nat)
    | AddSkipped(j: nat)                        // the replication check failed: nothing is executed
    | AddTimedOut(j: nat)
    | LateAdd(j: nat)                           // an abandoned correlation runs after all
    | AddCancelled(j: nat)                      // or is cancelled before it starts
    | AddFailed(j: nat, applied: bool)          // Redis error before or after the script took effect
    | SendAcked(j: nat)
    | SendFailed(j: nat, timedOut: bool)
    | RolledBack(j: nat, applied: bool)         // rollback errors are swallowed
    | RolledBackAgain(j: nat, applied: bool)
    | Reported(j: nat)

  function Initial(n: nat): System {
    System(seq(n, _ => Start), EMPTY, {}, {}, {}, {}, {}, [])
  }

  predicate Enabled(s: System, m: Move) {
    m.j < |s.phases| &&
    match m
    case PublishAcked(j) => s.phases[j].Start?
    case PublishRefused(j) => s.phases[j].Start?
    case AddReturned(j) => s.phases[j].Published?
    case AddSkipped(j) => s.phases[j].Published?
    case AddTimedOut(j) => s.phases[j].Published?
    case LateAdd(j) => j in s.abandoned
    case AddCancelled(j) => j in s.abandoned
    case AddFailed(j, _) => s.phases[j].Published?
    case SendAcked(j) => s.phases[j].Correlated?
    case SendFailed(j, _) => s.phases[j].Correlated?
    case RolledBack(j, _) => s.phases[j].RollFirst?
    case RolledBackAgain(j, _) => s.phases[j].RollSecond?
    case Reported(j) => s.phases[j].Reporting?
  }

  function Goto(s: System, j: nat, p: Phase): System
    requires j < |s.phases|
  {
    s.(phases := s.phases[j := p])
  }

  function RunAdd(s: System, a: Alert, j: nat, cap: nat): System {
    s.(window := Correlate(s.window, a, cap).window, added := s.added + {j}, held := s.held + {j})
  }

  function RunRollback(s: System, a: Alert, j: nat, applied: bool): System {
    if applied then s.(window := RollbackAlert(s.window, a), held := s.held - {j}) else s
  }

  function Step(alerts: seq<Alert>, cap: nat, s: System, m: Move): System
    requires |s.phases| == |alerts|
  {
    if !Enabled(s, m) then s
    else
      var a := alerts[m.j];
      match m
      case PublishAcked(j) => Goto(s, j, Published).(published := s.published + {j})
      case PublishRefused(j) => Goto(s, j, Reporting)
      case AddReturned(j) =>
        Goto(RunAdd(s, a, j, cap), j, if Correlate(s.window, a, cap).incident then Correlated else Completed)
      case AddSkipped(j) => Goto(s, j, Completed)
      case AddTimedOut(j) => Goto(s, j, RollSecond).(abandoned := s.abandoned + {j})
      case LateAdd(j) => RunAdd(s, a, j, cap).(abandoned := s.abandoned - {j})
      case AddCancelled(j) => s.(abandoned := s.abandoned - {j})
      case AddFailed(j, applied) => Goto(if applied then RunAdd(s, a, j, cap) else s, j, Reporting)
      case SendAcked(j) => Goto(s, j, Completed)
      case SendFailed(j, timedOut) => Goto(s, j, RollFirst(timedOut)).(sendFailed := s.sendFailed + {j})
      case RolledBack(j, applied) =>
        Goto(RunRollback(s, a, j, applied), j, if s.phases[j].timedOut then RollSecond else Reporting)
      case RolledBackAgain(j, applied) => Goto(RunRollback(s, a, j, applied), j, Reporting)
      case Reported(j) => Goto(s, j, DeadLettered).(dlq := s.dlq + [a.(replay := true)])
  }

  function Run(alerts: seq<Alert>, cap: nat, ms: seq<Move>): (s: System)
    ensures |s.phases| == |alerts|
  {
    if ms == [] then Initial(|alerts|) else Step(alerts, cap, Run(alerts, cap, ms[..|ms|-1]), ms[|ms|-1])
  }

  /** Fresh detections: ids are generated, so distinct, and contain no space. */
  ghost predicate Fresh(alerts: seq<Alert>) {
    && (forall j :: 0 <= j < |alerts| ==>
          alerts[j].id != "" && Strip(alerts[j].id) == alerts[j].id && !alerts[j].replay && alerts[j].severity > 0)
    && (forall i, j :: 0 <= i < j < |alerts| ==> alerts[i].id != alerts[j].id)
  }

  /* ---- What the window holds ---- */

  function HeldIds(alerts: seq<Alert>, held: set<nat>): set<string> {
    set j | j in held && j < |alerts| :: alerts[j].id
  }

  ghost predicate Distinct(l: seq<Alert>) {
    forall i, j :: 0 <= i < j < |l| ==> l[i] != l[j]
  }

  /** List, seen ids and counter are those of exactly the held detections. */
  ghost predicate HoldsExactly(alerts: seq<Alert>, cap: nat, w: Window, held: set<nat>) {
    && Wf(w, cap) && Distinct(w.list)
    && (forall j :: j in held ==> j < |alerts| && alerts[j] in w.list)
    && (forall x :: x in w.list ==> exists j :: j in held && j < |alerts| && alerts[j] == x)
    && Members(w.seen) == HeldIds(alerts, held)
    && CountOf(w.count) == |w.list|
  }

  lemma FreshIsNew(alerts: seq<Alert>, cap: nat, w: Window, held: set<nat>, j: nat)
    requires Fresh(alerts) && HoldsExactly(alerts, cap, w, held) && j < |alerts| && j !in held
    ensures alerts[j].id !in Members(w.seen) && alerts[j] !in w.list && !IsDuplicate(w, alerts[j])
  {
  }

  lemma AddHoldsExactly(alerts: seq<Alert>, cap: nat, w: Window, held: set<nat>, j: nat)
    requires Fresh(alerts) && HoldsExactly(alerts, cap, w, held) && j < |alerts| && j !in held
    requires |w.list| < MAX_LIST && |w.seen| < cap
    ensures HoldsExactly(alerts, cap, Correlate(w, alerts[j], cap).window, held + {j})
  {
    var a := alerts[j];
    FreshIsNew(alerts, cap, w, held, j);
    CorrelateKeepsWf(w, a, cap);
    SeeSpec(w.seen, a, cap);
    assert Correlate(w, a, cap).window.list == [a] + w.list;
    assert HeldIds(alerts, held + {j}) == HeldIds(alerts, held) + {a.id};
    ConsHolds(alerts, w.list, held, j);
  }

  lemma ConsHolds(alerts: seq<Alert>, l: seq<Alert>, held: set<nat>, j: nat)
    requires j < |alerts| && Distinct(l) && alerts[j] !in l
    requires forall i :: i in held ==> i < |alerts| && alerts[i] in l
    requires forall x :: x in l ==> exists i :: i in held && i < |alerts| && alerts[i] == x
    ensures Distinct([alerts[j]] + l)
    ensures forall i :: i in held + {j} ==> i < |alerts| && alerts[i] in [alerts[j]] + l
    ensures forall x :: x in [alerts[j]] + l ==> exists i :: i in held + {j} && i < |alerts| && alerts[i] == x
  {
    forall x | x in [alerts[j]] + l ensures exists i :: i in held + {j} && i < |alerts| && alerts[i] == x {
      if x in l {
        var i :| i in held && i < |alerts| && alerts[i] == x;
        assert i in held + {j};
      } else {
        assert j in held + {j} && alerts[j] == x;
      }
    }
  }

  lemma {:induction false} RemoveFirstDistinct(l: seq<Alert>, a: Alert)
    requires Distinct(l)
    ensures Distinct(RemoveFirst(l, a))
    ensures forall x :: x in RemoveFirst(l, a) <==> x in l && x != a
  {
    if l == [] {
    } else {
      RemoveFirstDistinct(l[1..], a);
      assert l == [l[0]] + l[1..];
      assert l[0] !in l[1..];
    }
  }

  lemma RollbackHoldsExactly(alerts: seq<Alert>, cap: nat, w: Window, held: set<nat>, j: nat)
    requires Fresh(alerts) && HoldsExactly(alerts, cap, w, held) && j < |alerts|
    ensures HoldsExactly(alerts, cap, RollbackAlert(w, alerts[j]), held - {j})
  {
    var a := alerts[j];
    RollbackKeepsWf(w, a, a.id, cap);
    RemoveFirstDistinct(w.list, a);
    RemoveFirstSpec(w.list, a);
    RemoveMembers(w.seen, a.id);
    assert HeldIds(alerts, held - {j}) == HeldIds(alerts, held) - {a.id};
  }

  /** What holds of the bookkeeping of one detection. */
  predicate BookedAt(phase: Phase, published: bool, added: bool, held: bool, abandoned: bool) {
    && (abandoned ==> !held && published)
    && (phase.Start? || phase.Published? ==> !held && !abandoned)
    && (phase in {Published, Correlated, RollFirst(false), RollFirst(true), RollSecond, Completed} ==> published)
    && (held ==> added) && (added ==> published)
  }

  /** And of all of them in every state. */
  ghost predicate Booked(s: System) {
    && (forall j :: 0 <= j < |s.phases| ==>
          BookedAt(s.phases[j], j in s.published, j in s.added, j in s.held, j in s.abandoned))
    && (forall j :: j in s.published || j in s.added || j in s.held || j in s.abandoned ==> j < |s.phases|)
  }

  lemma StepKeepsBookedAt(alerts: seq<Alert>, cap: nat, s: System, m: Move, j: nat)
    requires |s.phases| == |alerts| && j < |alerts|
    requires BookedAt(s.phases[j], j in s.published, j in s.added, j in s.held, j in s.abandoned)
    ensures var t := Step(alerts, cap, s, m);
      BookedAt(t.phases[j], j in t.published, j in t.added, j in t.held, j in t.abandoned)
  {
  }

  lemma StepKeepsBounds(alerts: seq<Alert>, cap: nat, s: System, m: Move, j: nat)
    requires |s.phases| == |alerts|
    requires j in s.published || j in s.added || j in s.held || j in s.abandoned ==> j < |s.phases|
    ensures var t := Step(alerts, cap, s, m);
      j in t.published || j in t.added || j in t.held || j in t.abandoned ==> j < |t.phases|
  {
  }

  lemma StepKeepsBooked(alerts: seq<Alert>, cap: nat, s: System, m: Move)
    requires |s.phases| == |alerts| && Booked(s)
    ensures Booked(Step(alerts, cap, s, m))
  {
    var t := Step(alerts, cap, s, m);
    forall j | 0 <= j < |t.phases|
      ensures BookedAt(t.phases[j], j in t.published, j in t.added, j in t.held, j in t.abandoned)
    {
      StepKeepsBookedAt(alerts, cap, s, m, j);
    }
    forall j | j in t.published || j in t.added || j in t.held || j in t.abandoned ensures j < |t.phases| {
      StepKeepsBounds(alerts, cap, s, m, j);
    }
  }

  lemma {:induction false} RunBooked(alerts: seq<Alert>, cap: nat, ms: seq<Move>)
    ensures Booked(Run(alerts, cap, ms))
  {
    if ms == [] {
    } else {
      RunBooked(alerts, cap, ms[..|ms|-1]);
      StepKeepsBooked(alerts, cap, Run(alerts, cap, ms[..|ms|-1]), ms[|ms|-1]);
    }
  }

  /** `x` is the alert of a detection whose publish was acknowledged and whose add ran. */
  ghost predicate FromPublished(alerts: seq<Alert>, published: set<nat>, added: set<nat>, x: Alert) {
    exists j: nat :: j in published && j in added && j < |alerts| && alerts[j] == x
  }

  ghost predicate AllFromPublished(alerts: seq<Alert>, s: System) {
    forall x :: x in s.window.list ==> FromPublished(alerts, s.published, s.added, x)
  }

  /** Publish first: in every state of every run, whatever fails and whatever is trimmed, every alert in
      the window is that of a detection whose publish was acknowledged and whose add ran. */
  lemma {:induction false} WindowWasPublished(alerts: seq<Alert>, cap: nat, ms: seq<Move>)
    ensures AllFromPublished(alerts, Run(alerts, cap, ms))
  {
    if ms == [] {
    } else {
      var init, m := ms[..|ms|-1], ms[|ms|-1];
      WindowWasPublished(alerts, cap, init);
      RunBooked(alerts, cap, init);
      StepKeepsPublished(alerts, cap, Run(alerts, cap, init), m);
    }
  }

  lemma StepKeepsPublished(alerts: seq<Alert>, cap: nat, s: System, m: Move)
    requires |s.phases| == |alerts| && Booked(s) && AllFromPublished(alerts, s)
    ensures AllFromPublished(alerts, Step(alerts, cap, s, m))
  {
    var t := Step(alerts, cap, s, m);
    assert s.published <= t.published && s.added <= t.added;
    forall x | x in t.window.list ensures FromPublished(alerts, t.published, t.added, x) {
      if x in s.window.list {
        assert FromPublished(alerts, s.published, s.added, x);
      } else {
        NewInWindow(alerts, cap, s, m, x);
      }
    }
  }

  lemma NewInWindow(alerts: seq<Alert>, cap: nat, s: System, m: Move, x: Alert)
    requires |s.phases| == |alerts| && Booked(s)
    requires x in Step(alerts, cap, s, m).window.list && x !in s.window.list
    ensures m.j < |alerts| && alerts[m.j] == x && m.j in s.published && m.j in Step(alerts, cap, s, m).added
  {
    var a := alerts[m.j];
    if m.RolledBack? || m.RolledBackAgain? {
      RemoveFirstElements(s.window.list, a);
    } else {
      assert forall y :: y in Trim([a] + s.window.list) ==> y == a || y in s.window.list;
    }
  }

  lemma {:induction false} RemoveFirstElements(l: seq<Alert>, a: Alert)
    ensures forall x :: x in RemoveFirst(l, a) ==> x in l
  {
    if l == [] {
    } else {
      RemoveFirstElements(l[1..], a);
    }
  }

  /* ---- Interleaved compensation ---- */

  predicate RunsAdd(m: Move) {
    m.AddReturned? || m.LateAdd? || (m.AddFailed? && m.applied)
  }

  ghost predicate HasRoom(w: Window, cap: nat) {
    |w.list| < MAX_LIST && |w.seen| < cap
  }

  /** No add meets a full list or a full seen set. */
  ghost predicate NeverFull(alerts: seq<Alert>, cap: nat, ms: seq<Move>) {
    forall k :: 0 <= k < |ms| && RunsAdd(ms[k]) ==> HasRoom(Run(alerts, cap, ms[..k]).window, cap)
  }

  /** Without trimming the window holds exactly the adds that ran and were not rolled back since, in any
      interleaving and with any faults. */
  lemma {:induction false} WindowIsHeld(alerts: seq<Alert>, cap: nat, ms: seq<Move>)
    requires Fresh(alerts) && NeverFull(alerts, cap, ms)
    ensures HoldsExactly(alerts, cap, Run(alerts, cap, ms).window, Run(alerts, cap, ms).held)
  {
    if ms == [] {
      assert HeldIds(alerts, {}) == {};
    } else {
      var init, m := ms[..|ms|-1], ms[|ms|-1];
      assert NeverFull(alerts, cap, init) by {
        assert forall k :: 0 <= k < |init| ==> init[..k] == ms[..k] && init[k] == ms[k];
      }
      WindowIsHeld(alerts, cap, init);
      RunBooked(alerts, cap, init);
      assert ms[..|init|] == init;
      StepHoldsExactly(alerts, cap, Run(alerts, cap, init), m);
    }
  }

  lemma StepHoldsExactly(alerts: seq<Alert>, cap: nat, s: System, m: Move)
    requires Fresh(alerts) && |s.phases| == |alerts| && Booked(s) && HoldsExactly(alerts, cap, s.window, s.held)
    requires RunsAdd(m) ==> HasRoom(s.window, cap)
    ensures HoldsExactly(alerts, cap, Step(alerts, cap, s, m).window, Step(alerts, cap, s, m).held)
  {
    if Enabled(s, m) {
      if RunsAdd(m) {
        AddHoldsExactly(alerts, cap, s.window, s.held, m.j);
      } else if m.RolledBack? || m.RolledBackAgain? {
        RollbackHoldsExactly(alerts, cap, s.window, s.held, m.j);
      }
    }
  }

  /** No correlation timeout, no Redis fault. */
  predicate Faultless(m: Move) {
    !m.AddTimedOut? && !m.AddFailed? && !m.AddSkipped? && (m.RolledBack? || m.RolledBackAgain? ==> m.applied)
  }

  ghost predicate Quiescent(s: System) {
    s.abandoned == {} && forall j :: 0 <= j < |s.phases| ==> s.phases[j] in {Start, Completed, DeadLettered}
  }

  /** Whether a detection holds its place in a run without faults. */
  predicate PlaceAt(phase: Phase, published: bool, sendFailed: bool, held: bool) {
    && (held <==> phase in {Correlated, RollFirst(false), RollFirst(true), Completed})
    && (sendFailed ==> phase in {RollFirst(false), RollFirst(true), RollSecond, Reporting, DeadLettered})
    && (phase in {RollFirst(false), RollFirst(true), RollSecond} ==> sendFailed)
    && (phase in {Reporting, DeadLettered} && published ==> sendFailed)
    && (phase.Start? ==> !published)
  }

  ghost predicate HeldByPhase(s: System) {
    s.abandoned == {} &&
    forall j :: 0 <= j < |s.phases| ==> PlaceAt(s.phases[j], j in s.published, j in s.sendFailed, j in s.held)
  }

  lemma StepKeepsPlaceAt(alerts: seq<Alert>, cap: nat, s: System, m: Move, j: nat)
    requires |s.phases| == |alerts| && j < |alerts| && Faultless(m) && s.abandoned == {}
    requires BookedAt(s.phases[j], j in s.published, j in s.added, j in s.held, j in s.abandoned)
    requires PlaceAt(s.phases[j], j in s.published, j in s.sendFailed, j in s.held)
    ensures var t := Step(alerts, cap, s, m); PlaceAt(t.phases[j], j in t.published, j in t.sendFailed, j in t.held)
  {
  }

  lemma StepKeepsHeldByPhase(alerts: seq<Alert>, cap: nat, s: System, m: Move)
    requires |s.phases| == |alerts| && Booked(s) && HeldByPhase(s) && Faultless(m)
    ensures HeldByPhase(Step(alerts, cap, s, m))
  {
    var t := Step(alerts, cap, s, m);
    forall j | 0 <= j < |t.phases| ensures PlaceAt(t.phases[j], j in t.published, j in t.sendFailed, j in t.held) {
      StepKeepsPlaceAt(alerts, cap, s, m, j);
    }
  }

  lemma {:induction false} RunHeldByPhase(alerts: seq<Alert>, cap: nat, ms: seq<Move>)
    requires forall m :: m in ms ==> Faultless(m)
    ensures HeldByPhase(Run(alerts, cap, ms))
  {
    if ms == [] {
    } else {
      var init, m := ms[..|ms|-1], ms[|ms|-1];
      assert m in ms && forall x :: x in init ==> x in ms;
      RunHeldByPhase(alerts, cap, init);
      RunBooked(alerts, cap, init);
      StepKeepsHeldByPhase(alerts, cap, Run(alerts, cap, init), m);
    }
  }

  /** Interleaved compensation: with any number of agents, no expiry, no trimming, no Redis fault and no
      correlation timeout, at quiescence the list, the seen ids and the counter are those of exactly
      the published detections whose incident send did not fail, although a send that times out runs
      the rollback twice. */
  lemma CompensationIsExact(alerts: seq<Alert>, cap: nat, ms: seq<Move>, s: System)
    requires s == Run(alerts, cap, ms) && Quiescent(s)
    requires Fresh(alerts) && NeverFull(alerts, cap, ms) && (forall m :: m in ms ==> Faultless(m))
    ensures HoldsExactly(alerts, cap, s.window, s.published - s.sendFailed)
  {
    WindowIsHeld(alerts, cap, ms);
    RunBooked(alerts, cap, ms);
    RunHeldByPhase(alerts, cap, ms);
    forall j ensures j in s.held <==> j in s.published - s.sendFailed {
      if j in s.published || j in s.held {
        assert s.phases[j] in {Start, Completed, DeadLettered};
        assert PlaceAt(s.phases[j], j in s.published, j in s.sendFailed, j in s.held);
      }
    }
    assert s.held == s.published - s.sendFailed;
  }

  /** With a correlation timeout it fails: the abandoned add may run after the compensating rollback,
      and leaves in the window an alert that was handed to the dead-letter topic. */
  lemma AbandonedAddIsNotCompensated(a: Alert, cap: nat) returns (ms: seq<Move>)
    requires Fresh([a]) && cap > 0
    ensures var s := Run([a], cap, ms);
      && Quiescent(s) && s.phases == [DeadLettered] && s.window.list == [a] && s.dlq == [a.(replay := true)]
  {
    var first := [PublishAcked(0), AddTimedOut(0), RolledBackAgain(0, true)] + [Reported(0)];
    ms := first + [LateAdd(0)];
    GivenUpReported(a, cap);
    RunSnoc([a], cap, first, LateAdd(0));
    FirstAdd(Run([a], cap, first).window, a, cap);
  }

  lemma GivenUpReported(a: Alert, cap: nat)
    ensures var s := Run([a], cap, [PublishAcked(0), AddTimedOut(0), RolledBackAgain(0, true)] + [Reported(0)]);
      && s.phases == [DeadLettered] && s.abandoned == {0} && s.dlq == [a.(replay := true)]
      && s.window.list == [] && s.window.seen == []
  {
    GivenUp(a, cap);
    RunSnoc([a], cap, [PublishAcked(0), AddTimedOut(0), RolledBackAgain(0, true)], Reported(0));
  }

  lemma FirstAdd(w: Window, a: Alert, cap: nat)
    requires w.list == [] && w.seen == []
    ensures Correlate(w, a, cap).window.list == [a]
  {
    assert Members([]) == {};
  }

  lemma RunSnoc(alerts: seq<Alert>, cap: nat, ms: seq<Move>, m: Move)
    ensures Run(alerts, cap, ms + [m]) == Step(alerts, cap, Run(alerts, cap, ms), m)
  {
    assert (ms + [m])[..|ms|] == ms;
  }

  lemma TimedOut(a: Alert, cap: nat)
    ensures Run([a], cap, [PublishAcked(0), AddTimedOut(0)]) == System([RollSecond], EMPTY, {0}, {}, {0}, {}, {}, [])
  {
    RunSnoc([a], cap, [], PublishAcked(0));
    assert [] + [PublishAcked(0)] == [PublishAcked(0)];
    assert Run([a], cap, [PublishAcked(0)]) == System([Published], EMPTY, {0}, {}, {}, {}, {}, []);
    RunSnoc([a], cap, [PublishAcked(0)], AddTimedOut(0));
    assert [PublishAcked(0)] + [AddTimedOut(0)] == [PublishAcked(0), AddTimedOut(0)];
  }

  /** A correlation given up before its script ran: the rollback finds nothing to undo. */
  lemma GivenUp(a: Alert, cap: nat)
    ensures var s := Run([a], cap, [PublishAcked(0), AddTimedOut(0), RolledBackAgain(0, true)]);
      && s.phases == [Reporting] && s.abandoned == {0} && s.dlq == []
      && s.window.list == [] && s.window.seen == [] && s.window.count.Absent?
  {
    var two := [PublishAcked(0), AddTimedOut(0)];
    TimedOut(a, cap);
    RunSnoc([a], cap, two, RolledBackAgain(0, true));
    assert two + [RolledBackAgain(0, true)] == [PublishAcked(0), AddTimedOut(0), RolledBackAgain(0, true)];
  }

  /* ---- One outcome per detection ---- */

  function Dispatches(dlq: seq<Alert>, id: string): nat {
    if dlq == [] then 0 else Dispatches(dlq[..|dlq|-1], id) + if dlq[|dlq|-1].id == id then 1 else 0
  }

  lemma DispatchOne(dlq: seq<Alert>, x: Alert, id: string)
    ensures Dispatches(dlq + [x], id) == Dispatches(dlq, id) + if x.id == id then 1 else 0
  {
    assert (dlq + [x])[..|dlq|] == dlq;
  }

  /** A step dispatches the detection `j` exactly if it takes it to its end in the dead-letter topic. */
  lemma StepDispatches(alerts: seq<Alert>, cap: nat, s: System, m: Move, j: nat)
    requires Fresh(alerts) && |s.phases| == |alerts| && j < |alerts|
    ensures var t := Step(alerts, cap, s, m);
      && (s.phases[j].DeadLettered? ==> t.phases[j].DeadLettered?)
      && Dispatches(t.dlq, alerts[j].id) == Dispatches(s.dlq, alerts[j].id)
           + (if t.phases[j].DeadLettered? && !s.phases[j].DeadLettered? then 1 else 0)
      && ((forall x :: x in s.dlq ==> x.replay) ==> forall x :: x in t.dlq ==> x.replay)
  {
    if Enabled(s, m) && m.Reported? {
      DispatchOne(s.dlq, alerts[m.j].(replay := true), alerts[j].id);
      assert m.j != j ==> alerts[m.j].id != alerts[j].id;
    }
  }

  /** In every state of every run a detection has exactly one dead-letter dispatch if it ended there and
      none otherwise, and every dispatched copy is marked a replay. */
  lemma {:induction false} OneOutcome(alerts: seq<Alert>, cap: nat, ms: seq<Move>, j: nat)
    requires Fresh(alerts) && j < |alerts|
    ensures var s := Run(alerts, cap, ms);
      && Dispatches(s.dlq, alerts[j].id) == (if s.phases[j].DeadLettered? then 1 else 0)
      && forall x :: x in s.dlq ==> x.replay
  {
    if ms == [] {
    } else {
      var init, m := ms[..|ms|-1], ms[|ms|-1];
      OneOutcome(alerts, cap, init, j);
      StepDispatches(alerts, cap, Run(alerts, cap, init), m, j);
    }
  }
}
