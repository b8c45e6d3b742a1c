/** The emit loop as one agent runs it, exception handlers included
    (inference/stream_processor_faust.py). Its steps are moves of the protocol in StreamProcessor, so
    what is proved of every interleaving holds of it. */
module EmitLoop {
  import opened CorrelationWindow
  import opened StreamProcessor

  datatype AddOutcome = Returned | Skipped | CorrelationTimeout | RedisError(applied: bool)
  datatype SendOutcome = Sent | SendTimeout | SendError

  /** What validation, the broker and Redis do to one detection. */
  datatype Env = Env(valid: bool, publishAcked: bool, add: AddOutcome, send: SendOutcome, rollback: bool,
    rollbackAgain: bool)

  class Agent {
    const alerts: seq<Alert>
    const cap: nat
    var window: Window
    var dlq: seq<Alert>
    ghost var system: System
    ghost var moves: seq<Move>

    ghost predicate Linked()
      reads this
    {
      system == StreamProcessor.Run(alerts, cap, moves) && window == system.window && dlq == system.dlq
    }

    constructor (alerts: seq<Alert>, cap: nat)
      ensures Linked() && this.alerts == alerts && this.cap == cap && moves == [] && system == Initial(|alerts|)
    {
      this.alerts, this.cap := alerts, cap;
      window, dlq := EMPTY, [];
      system, moves := Initial(|alerts|), [];
    }

    ghost method Record(m: Move)
      requires system == StreamProcessor.Run(alerts, cap, moves)
      modifies this`system, this`moves
      ensures system == Step(alerts, cap, old(system), m) && system == StreamProcessor.Run(alerts, cap, moves)
      ensures moves == old(moves) + [m]
    {
      RunSnoc(alerts, cap, moves, m);
      system, moves := Step(alerts, cap, system, m), moves + [m];
    }

    /** The detection `j` is in phase `p`, ready to go on. */
    ghost predicate Ready(j: nat, p: Phase)
      reads this
    {
      Linked() && j < |system.phases| == |alerts| && system.phases[j] == p
    }

    ghost method Advance(j: nat, p: Phase, m: Move, q: Phase)
      requires Ready(j, p) && m.j == j && Enabled(system, m)
      requires Step(alerts, cap, system, m).window == window && Step(alerts, cap, system, m).dlq == dlq
      requires Step(alerts, cap, system, m).phases == system.phases[j := q]
      modifies this`system, this`moves
      ensures Ready(j, q) && system.phases == old(system.phases)[j := q]
      ensures !m.AddTimedOut? && !m.LateAdd? && !m.AddCancelled? ==> system.abandoned == old(system.abandoned)
    {
      Record(m);
    }

    method CorrelateAlert(j: nat) returns (incident: bool)
      requires Ready(j, Published)
      modifies this`window, this`system, this`moves
      ensures window == Correlate(old(window), alerts[j], cap).window
      ensures incident == Correlate(old(window), alerts[j], cap).incident
      ensures Ready(j, if incident then Correlated else Completed)
      ensures system.phases == old(system.phases)[j := if incident then Correlated else Completed]
      ensures system.abandoned == old(system.abandoned)
    {
      var r := Correlate(window, alerts[j], cap);
      window, incident := r.window, r.incident;
      Record(AddReturned(j));
    }

    method CorrelateInError(j: nat, applied: bool)
      requires Ready(j, Published)
      modifies this`window, this`system, this`moves
      ensures window == if applied then Correlate(old(window), alerts[j], cap).window else old(window)
      ensures Ready(j, Reporting) && system.phases == old(system.phases)[j := Reporting]
      ensures system.abandoned == old(system.abandoned)
    {
      if applied {
        window := Correlate(window, alerts[j], cap).window;
      }
      Record(AddFailed(j, applied));
    }

    method RollbackSeen(j: nat, timedOut: bool, reachesRedis: bool)
      requires Ready(j, RollFirst(timedOut))
      modifies this`window, this`system, this`moves
      ensures window == Undone(old(window), j, reachesRedis)
      ensures Ready(j, if timedOut then RollSecond else Reporting)
      ensures system.phases == old(system.phases)[j := if timedOut then RollSecond else Reporting]
      ensures system.abandoned == old(system.abandoned)
    {
      window := Undone(window, j, reachesRedis);
      Record(RolledBack(j, reachesRedis));
    }

    method RollbackOnTimeout(j: nat, reachesRedis: bool)
      requires Ready(j, RollSecond)
      modifies this`window, this`system, this`moves
      ensures window == Undone(old(window), j, reachesRedis)
      ensures Ready(j, Reporting) && system.phases == old(system.phases)[j := Reporting]
      ensures system.abandoned == old(system.abandoned)
    {
      window := Undone(window, j, reachesRedis);
      Record(RolledBackAgain(j, reachesRedis));
    }

    function Undone(w: Window, j: nat, reachesRedis: bool): Window
      requires j < |alerts|
    {
      if reachesRedis then RollbackAlert(w, alerts[j]) else w
    }

    /** The window after an incident send. */
    function AfterSend(w: Window, j: nat, e: Env): Window
      requires j < |alerts|
    {
      match e.send
      case Sent => w
      case SendTimeout => Undone(Undone(w, j, e.rollback), j, e.rollbackAgain)
      case SendError => Undone(w, j, e.rollback)
    }

    /** The window after a published detection. */
    function AfterCorrelation(w: Window, j: nat, e: Env): Window
      requires j < |alerts|
    {
      var r := Correlate(w, alerts[j], cap);
      match e.add
      case Skipped => w
      case Returned => if r.incident then AfterSend(r.window, j, e) else r.window
      case CorrelationTimeout => Undone(w, j, e.rollbackAgain)
      case RedisError(applied) => if applied then r.window else w
    }

    /** The dead letter of detection `j`, unless it completed. */
    function Letters(j: nat, completed: bool): seq<Alert>
      requires j < |alerts|
    {
      if completed then [] else [alerts[j].(replay := true)]
    }

    method SendDlq(j: nat)
      requires Ready(j, Reporting)
      modifies this`dlq, this`system, this`moves
      ensures Ready(j, DeadLettered) && system.phases == old(system.phases)[j := DeadLettered]
      ensures dlq == old(dlq) + [alerts[j].(replay := true)]
      ensures system.abandoned == old(system.abandoned)
    {
      dlq := dlq + [alerts[j].(replay := true)];
      Record(Reported(j));
    }

    ghost method SendEnds(j: nat, e: Env)
      requires Ready(j, Correlated)
      modifies this`system, this`moves
      ensures var q := if e.send.Sent? then Completed else RollFirst(e.send.SendTimeout?);
        Ready(j, q) && system.phases == old(system.phases)[j := q]
      ensures system.abandoned == old(system.abandoned)
    {
      Record(if e.send.Sent? then SendAcked(j) else StreamProcessor.SendFailed(j, e.send.SendTimeout?));
    }

    ghost method GiveUpCorrelation(j: nat)
      requires Ready(j, Published)
      modifies this`system, this`moves
      ensures Ready(j, RollSecond) && system.phases == old(system.phases)[j := RollSecond]
      ensures system.abandoned == old(system.abandoned) + {j}
    {
      Record(AddTimedOut(j));
    }

    /** The handlers around the incident send: one rollback, and a second one when it timed out. */
    method SendIncident(j: nat, e: Env)
      requires Ready(j, Correlated)
      modifies this
      ensures Ready(j, if e.send.Sent? then Completed else DeadLettered)
      ensures system.phases == old(system.phases)[j := if e.send.Sent? then Completed else DeadLettered]
      ensures system.abandoned == old(system.abandoned)
      ensures window == AfterSend(old(window), j, e) && dlq == old(dlq) + Letters(j, e.send.Sent?)
    {
      SendEnds(j, e);
      if !e.send.Sent? {
        RollbackSeen(j, e.send.SendTimeout?, e.rollback);
        if e.send.SendTimeout? {
          RollbackOnTimeout(j, e.rollbackAgain);
        }
        SendDlq(j);
      }
    }

    /** The outer timeout handler when the correlation is given up. */
    method CorrelationTimesOut(j: nat, e: Env)
      requires Ready(j, Published)
      modifies this
      ensures Ready(j, DeadLettered) && system.phases == old(system.phases)[j := DeadLettered]
      ensures system.abandoned == old(system.abandoned) + {j}
      ensures window == Undone(old(window), j, e.rollbackAgain) && dlq == old(dlq) + Letters(j, false)
    {
      GiveUpCorrelation(j);
      RollbackOnTimeout(j, e.rollbackAgain);
      SendDlq(j);
    }

    /** The handlers around the correlation, once the alert is published. */
    method CorrelateAndSend(j: nat, e: Env)
      requires Ready(j, Published)
      modifies this
      ensures Ready(
        j, if Correlates(e, Correlate(old(window), alerts[j], cap).incident) then Completed else DeadLettered)
      ensures system.phases == old(system.phases)[j := system.phases[j]]
      ensures system.abandoned ==
        if e.add.CorrelationTimeout? then old(system.abandoned) + {j} else old(system.abandoned)
      ensures window == AfterCorrelation(old(window), j, e)
      ensures dlq == old(dlq) + Letters(j, Correlates(e, Correlate(old(window), alerts[j], cap).incident))
    {
      match e.add {
        case Skipped =>
          Advance(j, Published, AddSkipped(j), Completed);
        case Returned =>
          var incident := CorrelateAlert(j);
          if incident {
            SendIncident(j, e);
          }
        case CorrelationTimeout =>
          CorrelationTimesOut(j, e);
        case RedisError(applied) =>
          CorrelateInError(j, applied);
          SendDlq(j);
      }
    }

    /** One pass of the loop body: the detection completes, or exactly one dead letter is sent. */
    method EmitDetection(j: nat, e: Env)
      requires Ready(j, Start)
      modifies this
      ensures Ready(
        j, if Completes(e, Correlate(old(window), alerts[j], cap).incident) then Completed else DeadLettered)
      ensures system.phases == old(system.phases)[j := system.phases[j]]
      ensures system.abandoned ==
        if e.valid && e.publishAcked && e.add.CorrelationTimeout? then old(system.abandoned) + {j}
          else old(system.abandoned)
      ensures window == if e.valid && e.publishAcked then AfterCorrelation(old(window), j, e) else old(window)
      ensures dlq == old(dlq) + Letters(j, Completes(e, Correlate(old(window), alerts[j], cap).incident))
    {
      if !e.valid || !e.publishAcked {
        Advance(j, Start, PublishRefused(j), Reporting);
        SendDlq(j);
      } else {
        Advance(j, Start, PublishAcked(j), Published);
        CorrelateAndSend(j, e);
      }
    }

    /** The loop over an event's detections: afterwards each has its one outcome. */
    method EmitAll(envs: seq<Env>)
      requires Linked() && system == Initial(|alerts|) && |envs| == |alerts|
      modifies this
      ensures Linked() && |system.phases| == |alerts|
      ensures forall j :: 0 <= j < |alerts| ==> system.phases[j] in {Completed, DeadLettered}
      ensures (forall e :: e in envs ==> !e.add.CorrelationTimeout?) ==> Quiescent(system)
      ensures Fresh(alerts) ==> forall j :: 0 <= j < |alerts| ==>
        Dispatches(dlq, alerts[j].id) == if system.phases[j].Completed? then 0 else 1
    {
      var j := 0;
      while j < |alerts|
        invariant 0 <= j <= |alerts| && Linked() && |system.phases| == |alerts|
        invariant forall i :: 0 <= i < j ==> system.phases[i] in {Completed, DeadLettered}
        invariant forall i :: j <= i < |alerts| ==> system.phases[i] == Start
        invariant (forall e :: e in envs ==> !e.add.CorrelationTimeout?) ==> system.abandoned == {}
      {
        EmitDetection(j, envs[j]);
        j := j + 1;
      }
      ghost var areFresh := Fresh(alerts);
      if areFresh {
        forall k | 0 <= k < |alerts|
          ensures Dispatches(dlq, alerts[k].id) == if system.phases[k].Completed? then 0 else 1 {
          OneOutcome(alerts, cap, moves, k);
        }
      }
    }
  }

  /** A detection completes without a dead letter exactly when it was published and either skipped by
      the replication check, or correlated without an incident, or its incident was sent. */
  predicate Completes(e: Env, incident: bool) {
    e.valid && e.publishAcked && Correlates(e, incident)
  }

  predicate Correlates(e: Env, incident: bool) {
    e.add.Skipped? || (e.add.Returned? && (incident ==> e.send.Sent?))
  }
}
