/** Exactly when compensation succeeds: which faults leave the Redis window out of step with the
    detections that completed (inference/stream_processor_faust.py). */
module CompensationLaws {
  import opened CorrelationWindow
  import opened StreamProcessor

  /** What has happened to one detection: whether its add returned, was skipped, failed after taking
      effect, or ran late after its caller had given up; whether its incident send failed; and whether
      a rollback took effect since the add. */
  datatype Past = Past(returned: bool, skipped: bool, failedIn: bool, late: bool, sendFailed: bool, undone: bool)

  const NOTHING := Past(false, false, false, false, false, false)

  function Note(past: Past, j: nat, m: Move): Past {
    if m.j != j then past
    else
      match m
      case AddReturned(_) => past.(returned := true, undone := false)
      case AddSkipped(_) => past.(skipped := true)
      case AddFailed(_, applied) => if applied then past.(failedIn := true, undone := false) else past
      case LateAdd(_) => past.(late := true, undone := false)
      case SendFailed(_, _) => past.(sendFailed := true)
      case RolledBack(_, applied) => if applied then past.(undone := true) else past
      case RolledBackAgain(_, applied) => if applied then past.(undone := true) else past
      case _ => past
  }

  /** Only the moves that were enabled happened. */
  function PastOf(alerts: seq<Alert>, cap: nat, ms: seq<Move>, j: nat): Past {
    if ms == [] then NOTHING
    else
      var init, m := ms[..|ms|-1], ms[|ms|-1];
      var past := PastOf(alerts, cap, init, j);
      if Enabled(StreamProcessor.Run(alerts, cap, init), m) then Note(past, j, m) else past
  }

  /** No add was skipped or failed after it took effect, and an add that ran late or whose incident
      could not be sent was rolled back after it. */
  predicate Compensated(past: Past) {
    !past.skipped && !past.failedIn && (past.late || past.sendFailed ==> past.undone)
  }

  /* ---- Where a detection is, by what happened to it ---- */

  ghost predicate Fits(phase: Phase, past: Past, held: bool, abandoned: bool) {
    && (held <==> (past.returned || past.failedIn || past.late) && !past.undone)
    && (past.sendFailed ==> past.returned)
    && match phase
       case Start => past == NOTHING && !abandoned
       case Published => past == NOTHING && !abandoned
       case Correlated => past == NOTHING.(returned := true) && !abandoned
       case RollFirst(_) => past == NOTHING.(returned := true, sendFailed := true) && !abandoned
       case Completed => !abandoned && past in {NOTHING.(returned := true), NOTHING.(skipped := true)}
       case _ =>
         && !past.skipped
         && (past.returned ==> past.sendFailed && !past.failedIn && !past.late && !abandoned)
         && (past.failedIn ==> phase != RollSecond && !past.undone && !past.late && !abandoned)
         && (abandoned ==> !past.late)
  }

  /** A move of another detection changes nothing here. */
  lemma OtherStepFits(alerts: seq<Alert>, cap: nat, s: System, m: Move, j: nat, past: Past)
    requires |s.phases| == |alerts| && j < |alerts| && Enabled(s, m) && m.j != j
    ensures var t := Step(alerts, cap, s, m);
      && t.phases[j] == s.phases[j] && Note(past, j, m) == past
      && (j in t.held <==> j in s.held) && (j in t.abandoned <==> j in s.abandoned)
  {
  }

  lemma AddStepFits(alerts: seq<Alert>, cap: nat, s: System, m: Move, past: Past)
    requires |s.phases| == |alerts| && Enabled(s, m)
    requires m.AddReturned? || m.AddSkipped? || m.AddFailed? || m.LateAdd? || m.AddCancelled? || m.AddTimedOut?
    requires Fits(s.phases[m.j], past, m.j in s.held, m.j in s.abandoned)
    ensures var t := Step(alerts, cap, s, m);
      Fits(t.phases[m.j], Note(past, m.j, m), m.j in t.held, m.j in t.abandoned)
  {
  }

  lemma SendStepFits(alerts: seq<Alert>, cap: nat, s: System, m: Move, past: Past)
    requires |s.phases| == |alerts| && Enabled(s, m)
    requires !(m.AddReturned? || m.AddSkipped? || m.AddFailed? || m.LateAdd? || m.AddCancelled? || m.AddTimedOut?)
    requires Fits(s.phases[m.j], past, m.j in s.held, m.j in s.abandoned)
    ensures var t := Step(alerts, cap, s, m);
      Fits(t.phases[m.j], Note(past, m.j, m), m.j in t.held, m.j in t.abandoned)
  {
  }

  lemma StepFits(alerts: seq<Alert>, cap: nat, s: System, m: Move, j: nat, past: Past)
    requires |s.phases| == |alerts| && j < |alerts| && Enabled(s, m)
    requires Fits(s.phases[j], past, j in s.held, j in s.abandoned)
    ensures var t := Step(alerts, cap, s, m);
      Fits(t.phases[j], Note(past, j, m), j in t.held, j in t.abandoned)
  {
    if m.j != j {
      OtherStepFits(alerts, cap, s, m, j, past);
    } else if m.AddReturned? || m.AddSkipped? || m.AddFailed? || m.LateAdd? || m.AddCancelled? || m.AddTimedOut? {
      AddStepFits(alerts, cap, s, m, past);
    } else {
      SendStepFits(alerts, cap, s, m, past);
    }
  }

  lemma {:induction false} RunFits(alerts: seq<Alert>, cap: nat, ms: seq<Move>, j: nat)
    requires j < |alerts|
    ensures var s := StreamProcessor.Run(alerts, cap, ms);
      Fits(s.phases[j], PastOf(alerts, cap, ms, j), j in s.held, j in s.abandoned)
  {
    if ms == [] {
    } else {
      var init, m := ms[..|ms|-1], ms[|ms|-1];
      RunFits(alerts, cap, init, j);
      if Enabled(StreamProcessor.Run(alerts, cap, init), m) {
        StepFits(alerts, cap, StreamProcessor.Run(alerts, cap, init), m, j, PastOf(alerts, cap, init, j));
      }
    }
  }

  /* ---- The exact condition ---- */

  function CompletedOf(s: System): set<nat> {
    set j | 0 <= j < |s.phases| && s.phases[j].Completed?
  }

  lemma HeldByOther(alerts: seq<Alert>, cap: nat, w: Window, a: set<nat>, b: set<nat>, j: nat)
    requires Fresh(alerts) && HoldsExactly(alerts, cap, w, a) && HoldsExactly(alerts, cap, w, b) && j in a
    ensures j in b
  {
    var i :| i in b && i < |alerts| && alerts[i] == alerts[j];
    assert i == j;
  }

  lemma HoldsOneSet(alerts: seq<Alert>, cap: nat, w: Window, a: set<nat>, b: set<nat>)
    requires Fresh(alerts) && HoldsExactly(alerts, cap, w, a) && HoldsExactly(alerts, cap, w, b)
    ensures a <= b
  {
    forall j | j in a ensures j in b {
      HeldByOther(alerts, cap, w, a, b, j);
    }
  }

  lemma QuiescentHeldIff(alerts: seq<Alert>, cap: nat, ms: seq<Move>, s: System, j: nat)
    requires s == StreamProcessor.Run(alerts, cap, ms) && Quiescent(s) && j < |alerts|
    ensures (j in s.held <==> s.phases[j].Completed?) <==> Compensated(PastOf(alerts, cap, ms, j))
  {
    RunFits(alerts, cap, ms, j);
    assert s.phases[j] in {Start, Completed, DeadLettered};
  }

  ghost predicate AllCompensated(alerts: seq<Alert>, cap: nat, ms: seq<Move>) {
    forall j :: 0 <= j < |alerts| ==> Compensated(PastOf(alerts, cap, ms, j))
  }

  lemma HeldIsBooked(s: System)
    requires Booked(s)
    ensures forall j :: j in s.held ==> j < |s.phases|
  {
  }

  lemma HeldIsCompletedIff(alerts: seq<Alert>, cap: nat, ms: seq<Move>, s: System)
    requires s == StreamProcessor.Run(alerts, cap, ms) && Quiescent(s)
    ensures s.held == CompletedOf(s) <==> AllCompensated(alerts, cap, ms)
  {
    RunBooked(alerts, cap, ms);
    HeldIsBooked(s);
    forall j | 0 <= j < |alerts|
      ensures (j in s.held <==> j in CompletedOf(s)) <==> Compensated(PastOf(alerts, cap, ms, j))
    {
      QuiescentHeldIff(alerts, cap, ms, s, j);
    }
  }

  lemma HoldsExactlyOne(alerts: seq<Alert>, cap: nat, w: Window, held: set<nat>, other: set<nat>)
    requires Fresh(alerts) && HoldsExactly(alerts, cap, w, held)
    ensures HoldsExactly(alerts, cap, w, other) <==> held == other
  {
    if HoldsExactly(alerts, cap, w, other) {
      HoldsOneSet(alerts, cap, w, held, other);
      HoldsOneSet(alerts, cap, w, other, held);
    }
  }

  /** With any number of agents, any interleaving and any faults, without expiry and trimming: at
      quiescence list, seen ids and counter are those of exactly the detections that completed if and
      only if every detection was compensated. */
  lemma CompensationIff(alerts: seq<Alert>, cap: nat, ms: seq<Move>, s: System)
    requires s == StreamProcessor.Run(alerts, cap, ms) && Quiescent(s) && Fresh(alerts) && NeverFull(alerts, cap, ms)
    ensures HoldsExactly(alerts, cap, s.window, CompletedOf(s)) <==> AllCompensated(alerts, cap, ms)
  {
    WindowIsHeld(alerts, cap, ms);
    HoldsExactlyOne(alerts, cap, s.window, s.held, CompletedOf(s));
    HeldIsCompletedIff(alerts, cap, ms, s);
  }

  /** A second way to fail: an error reported after the script took effect is not compensated at all. */
  lemma AppliedErrorIsNotCompensated(a: Alert, cap: nat) returns (ms: seq<Move>)
    requires Fresh([a]) && cap > 0
    ensures var s := StreamProcessor.Run([a], cap, ms);
      && Quiescent(s) && s.phases == [DeadLettered] && s.window.list == [a] && s.dlq == [a.(replay := true)]
  {
    var two := [PublishAcked(0), AddFailed(0, true)];
    ms := two + [Reported(0)];
    FailedIn(a, cap);
    RunSnoc([a], cap, two, Reported(0));
  }

  lemma FailedIn(a: Alert, cap: nat)
    ensures var s := StreamProcessor.Run([a], cap, [PublishAcked(0), AddFailed(0, true)]);
      s.phases == [Reporting] && s.abandoned == {} && s.dlq == [] && s.window.list == [a]
  {
    var one := [PublishAcked(0)];
    RunSnoc([a], cap, [], PublishAcked(0));
    assert [] + [PublishAcked(0)] == one;
    assert StreamProcessor.Run([a], cap, one) == System([Published], EMPTY, {0}, {}, {}, {}, {}, []);
    RunSnoc([a], cap, one, AddFailed(0, true));
    assert one + [AddFailed(0, true)] == [PublishAcked(0), AddFailed(0, true)];
    FirstAdd(EMPTY, a, cap);
  }
}
