/** Which moves one agent makes for one detection, whatever its environment does
    (inference/stream_processor_faust.py). */
module EmitPaths {
  import opened CorrelationWindow
  import opened StreamProcessor
  import opened EmitLoop

  /** One rollback when the incident could not be sent, a second one when that was for the time. */
  function SendMoves(j: nat, e: Env): seq<Move> {
    match e.send
    case Sent => [SendAcked(j)]
    case SendError => [Move.SendFailed(j, false), RolledBack(j, e.rollback), Reported(j)]
    case SendTimeout =>
      [Move.SendFailed(j, true), RolledBack(j, e.rollback), RolledBackAgain(j, e.rollbackAgain), Reported(j)]
  }

  function AddMoves(j: nat, e: Env, incident: bool): seq<Move> {
    match e.add
    case Skipped => [AddSkipped(j)]
    case Returned => [AddReturned(j)] + if incident then SendMoves(j, e) else []
    case CorrelationTimeout => [AddTimedOut(j), RolledBackAgain(j, e.rollbackAgain), Reported(j)]
    case RedisError(applied) => [AddFailed(j, applied), Reported(j)]
  }

  function MovesOf(j: nat, e: Env, incident: bool): seq<Move> {
    if !e.valid || !e.publishAcked then [PublishRefused(j), Reported(j)]
    else [PublishAcked(j)] + AddMoves(j, e, incident)
  }

  /** The state after the moves, if each of them could be made in turn. */
  datatype Result = Stuck | Reached(s: System)

  function Make(alerts: seq<Alert>, cap: nat, s: System, ms: seq<Move>): (r: Result)
    requires |s.phases| == |alerts|
    ensures r.Reached? ==> |r.s.phases| == |alerts|
    decreases |ms|
  {
    if ms == [] then Reached(s)
    else if !Enabled(s, ms[0]) then Stuck
    else Make(alerts, cap, Step(alerts, cap, s, ms[0]), ms[1..])
  }

  lemma {:induction false} MakeConcat(alerts: seq<Alert>, cap: nat, s: System, a: seq<Move>, b: seq<Move>)
    requires |s.phases| == |alerts|
    ensures Make(alerts, cap, s, a + b) ==
      match Make(alerts, cap, s, a) case Stuck => Stuck case Reached(t) => Make(alerts, cap, t, b)
    decreases |a|
  {
    if a == [] {
      assert a + b == b;
    } else {
      assert (a + b)[0] == a[0] && (a + b)[1..] == a[1..] + b;
      if Enabled(s, a[0]) {
        MakeConcat(alerts, cap, Step(alerts, cap, s, a[0]), a[1..], b);
      }
    }
  }

  lemma MakeOne(alerts: seq<Alert>, cap: nat, s: System, m: Move)
    requires |s.phases| == |alerts|
    ensures Make(alerts, cap, s, [m]) == if Enabled(s, m) then Reached(Step(alerts, cap, s, m)) else Stuck
  {
  }

  lemma MakeFirst(alerts: seq<Alert>, cap: nat, s: System, m: Move, ms: seq<Move>)
    requires |s.phases| == |alerts| && Enabled(s, m)
    ensures Make(alerts, cap, s, [m] + ms) == Make(alerts, cap, Step(alerts, cap, s, m), ms)
  {
    MakeConcat(alerts, cap, s, [m], ms);
    MakeOne(alerts, cap, s, m);
  }

  /** All moves could be made, and `j` ended in `p`; the other detections are where they were. */
  ghost predicate Ends(alerts: seq<Alert>, cap: nat, s: System, ms: seq<Move>, j: nat, p: Phase)
    requires |s.phases| == |alerts| && j < |alerts|
  {
    Make(alerts, cap, s, ms).Reached? && Make(alerts, cap, s, ms).s.phases == s.phases[j := p]
  }

  lemma EndsFirst(alerts: seq<Alert>, cap: nat, s: System, m: Move, ms: seq<Move>, j: nat, p: Phase)
    requires |s.phases| == |alerts| && j < |alerts| && Enabled(s, m)
    requires var t := Step(alerts, cap, s, m); t.phases[j := p] == s.phases[j := p] && Ends(alerts, cap, t, ms, j, p)
    ensures Ends(alerts, cap, s, [m] + ms, j, p)
  {
    MakeFirst(alerts, cap, s, m, ms);
  }

  lemma ReportEnds(alerts: seq<Alert>, cap: nat, s: System, j: nat)
    requires |s.phases| == |alerts| && j < |alerts| && s.phases[j].Reporting?
    ensures Ends(alerts, cap, s, [Reported(j)], j, DeadLettered)
  {
    MakeOne(alerts, cap, s, Reported(j));
  }

  lemma SecondRollbackEnds(alerts: seq<Alert>, cap: nat, s: System, j: nat, applied: bool)
    requires |s.phases| == |alerts| && j < |alerts| && s.phases[j].RollSecond?
    ensures Ends(alerts, cap, s, [RolledBackAgain(j, applied), Reported(j)], j, DeadLettered)
  {
    var m := RolledBackAgain(j, applied);
    ReportEnds(alerts, cap, Step(alerts, cap, s, m), j);
    EndsFirst(alerts, cap, s, m, [Reported(j)], j, DeadLettered);
    assert [m] + [Reported(j)] == [m, Reported(j)];
  }

  lemma FirstRollbackEnds(alerts: seq<Alert>, cap: nat, s: System, j: nat, e: Env)
    requires |s.phases| == |alerts| && j < |alerts| && !e.send.Sent? && s.phases[j] == RollFirst(e.send.SendTimeout?)
    ensures Ends(alerts, cap, s, SendMoves(j, e)[1..], j, DeadLettered)
  {
    var m := RolledBack(j, e.rollback);
    var t := Step(alerts, cap, s, m);
    var rest := SendMoves(j, e)[2..];
    if e.send.SendTimeout? {
      assert rest == [RolledBackAgain(j, e.rollbackAgain), Reported(j)];
      SecondRollbackEnds(alerts, cap, t, j, e.rollbackAgain);
    } else {
      assert rest == [Reported(j)];
      ReportEnds(alerts, cap, t, j);
    }
    EndsFirst(alerts, cap, s, m, rest, j, DeadLettered);
    assert SendMoves(j, e)[1..] == [m] + rest;
  }

  lemma SendEnds(alerts: seq<Alert>, cap: nat, s: System, j: nat, e: Env)
    requires |s.phases| == |alerts| && j < |alerts| && s.phases[j].Correlated?
    ensures Ends(alerts, cap, s, SendMoves(j, e), j, if e.send.Sent? then Completed else DeadLettered)
  {
    if e.send.Sent? {
      MakeOne(alerts, cap, s, SendAcked(j));
    } else {
      var m := Move.SendFailed(j, e.send.SendTimeout?);
      FirstRollbackEnds(alerts, cap, Step(alerts, cap, s, m), j, e);
      EndsFirst(alerts, cap, s, m, SendMoves(j, e)[1..], j, DeadLettered);
      assert SendMoves(j, e) == [m] + SendMoves(j, e)[1..];
    }
  }

  lemma AddEnds(alerts: seq<Alert>, cap: nat, s: System, j: nat, e: Env, incident: bool)
    requires |s.phases| == |alerts| && j < |alerts| && s.phases[j].Published?
    requires incident == Correlate(s.window, alerts[j], cap).incident
    ensures Ends(alerts, cap, s, AddMoves(j, e, incident), j,
                 if Correlates(e, incident) then Completed else DeadLettered)
  {
    match e.add
    case Skipped => MakeOne(alerts, cap, s, AddSkipped(j));
    case Returned =>
      var m := AddReturned(j);
      if incident {
        SendEnds(alerts, cap, Step(alerts, cap, s, m), j, e);
        EndsFirst(alerts, cap, s, m, SendMoves(j, e), j, if e.send.Sent? then Completed else DeadLettered);
      } else {
        MakeOne(alerts, cap, s, m);
        assert [m] + [] == [m];
      }
    case CorrelationTimeout =>
      var m, rest := AddTimedOut(j), [RolledBackAgain(j, e.rollbackAgain), Reported(j)];
      SecondRollbackEnds(alerts, cap, Step(alerts, cap, s, m), j, e.rollbackAgain);
      EndsFirst(alerts, cap, s, m, rest, j, DeadLettered);
      assert [m] + rest == AddMoves(j, e, incident);
    case RedisError(applied) =>
      var m := AddFailed(j, applied);
      ReportEnds(alerts, cap, Step(alerts, cap, s, m), j);
      EndsFirst(alerts, cap, s, m, [Reported(j)], j, DeadLettered);
      assert [m] + [Reported(j)] == AddMoves(j, e, incident);
  }

  /** From any state, whatever happens to it, exactly these moves take a detection from its start to its
      outcome: each of them can be made in turn, and the others stay where they are. */
  lemma PathEnds(alerts: seq<Alert>, cap: nat, s: System, j: nat, e: Env, incident: bool)
    requires |s.phases| == |alerts| && j < |alerts| && s.phases[j].Start?
    requires incident == Correlate(s.window, alerts[j], cap).incident
    ensures Ends(alerts, cap, s, MovesOf(j, e, incident), j, if Completes(e, incident) then Completed else DeadLettered)
  {
    if !e.valid || !e.publishAcked {
      var m := PublishRefused(j);
      ReportEnds(alerts, cap, Step(alerts, cap, s, m), j);
      EndsFirst(alerts, cap, s, m, [Reported(j)], j, DeadLettered);
      assert [m] + [Reported(j)] == MovesOf(j, e, incident);
    } else {
      var m := PublishAcked(j);
      AddEnds(alerts, cap, Step(alerts, cap, s, m), j, e, incident);
      EndsFirst(alerts, cap, s, m, AddMoves(j, e, incident), j,
                if Correlates(e, incident) then Completed else DeadLettered);
    }
  }
}
