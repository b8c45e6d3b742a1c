/** How often correlated alerts raise an incident, and when the window ends
    (inference/correlation.py). */
module IncidentLaws {
  import opened SortedSet
  import opened CorrelationWindow
  import opened RollbackLaws

  /** Incidents raised while the alerts `bs` come in. */
  function Incidents(w: Window, bs: seq<Alert>, cap: nat): nat {
    if bs == [] then 0
    else
      Incidents(w, bs[..|bs|-1], cap) + if Correlate(Adds(w, bs[..|bs|-1], cap), bs[|bs|-1], cap).incident then 1 else 0
  }

  /* ---- One class, one severity ---- */

  /** `n` accepted alerts of one class and severity raise an incident at the second one and at every
      multiple of five, and at no other. */
  lemma {:induction false} UniformIncidents(bs: seq<Alert>, threat: string, severity: nat, cap: nat)
    requires AllAccepted(EMPTY, bs, cap) && severity > 0
    requires forall b :: b in bs ==> b.threat == threat && b.severity == severity
    ensures Incidents(EMPTY, bs, cap) == (if |bs| >= 2 then 1 else 0) + |bs| / 5
    ensures bs != [] ==> Adds(EMPTY, bs, cap).count == Present(|bs|)
    ensures bs != [] ==> MaxOf(Adds(EMPTY, bs, cap).maxSeverity, threat) == severity
    ensures bs == [] ==> Adds(EMPTY, bs, cap).count == Absent
  {
    if bs == [] {
    } else {
      var init, b := bs[..|bs|-1], bs[|bs|-1];
      assert b in bs && forall x :: x in init ==> x in bs;
      UniformIncidents(init, threat, severity, cap);
    }
  }

  /* ---- Any classes ---- */

  /** How far a severity score is up the four steps 25, 50, 75, 100. */
  function Level(severity: nat): nat {
    if severity >= 100 then 4 else severity / 25
  }

  ghost predicate Scored(m: map<string, nat>) {
    forall c :: c in m ==> m[c] in {25, 50, 75, 100}
  }

  /** The levels reached, summed over the classes `cs`. */
  ghost function Climbed(m: map<string, nat>, cs: set<string>): nat {
    if cs == {} then 0
    else
      var c :| c in cs;
      Level(MaxOf(m, c)) + Climbed(m, cs - {c})
  }

  lemma {:induction false} ClimbedPick(m: map<string, nat>, cs: set<string>, c: string)
    requires c in cs
    ensures Climbed(m, cs) == Level(MaxOf(m, c)) + Climbed(m, cs - {c})
    decreases |cs|
  {
    var d :| d in cs && Climbed(m, cs) == Level(MaxOf(m, d)) + Climbed(m, cs - {d});
    if d != c {
      ClimbedPick(m, cs - {d}, c);
      ClimbedPick(m, cs - {c}, d);
      assert cs - {d} - {c} == cs - {c} - {d};
    }
  }

  lemma {:induction false} ClimbedAgrees(m: map<string, nat>, n: map<string, nat>, cs: set<string>)
    requires forall c :: c in cs ==> MaxOf(m, c) == MaxOf(n, c)
    ensures Climbed(m, cs) == Climbed(n, cs)
    decreases |cs|
  {
    if cs == {} {
    } else {
      var c :| c in cs && Climbed(m, cs) == Level(MaxOf(m, c)) + Climbed(m, cs - {c});
      ClimbedAgrees(m, n, cs - {c});
      ClimbedPick(n, cs, c);
    }
  }

  lemma {:induction false} ClimbedBound(m: map<string, nat>, cs: set<string>)
    ensures Climbed(m, cs) <= 4 * |cs|
    decreases |cs|
  {
    if cs == {} {
    } else {
      var c :| c in cs && Climbed(m, cs) == Level(MaxOf(m, c)) + Climbed(m, cs - {c});
      ClimbedBound(m, cs - {c});
      assert Level(MaxOf(m, c)) <= 4 && |cs - {c}| == |cs| - 1;
    }
  }

  lemma RaiseClimbs(m: map<string, nat>, a: Alert, cs: set<string>)
    requires Scored(m) && a.threat in cs && a.severity in {25, 50, 75, 100}
    ensures Scored(Raise(m, a))
    ensures Climbed(Raise(m, a), cs) >= Climbed(m, cs) + if a.severity > MaxOf(m, a.threat) then 1 else 0
  {
    var n := Raise(m, a);
    ClimbedPick(m, cs, a.threat);
    ClimbedPick(n, cs, a.threat);
    ClimbedAgrees(m, n, cs - {a.threat});
  }

  /** With severities on the four steps, every incident is the one at the second alert, one at a
      multiple of five, or a climb within a class. */
  lemma {:induction false} IncidentsAreClimbs(bs: seq<Alert>, cs: set<string>, cap: nat)
    requires AllAccepted(EMPTY, bs, cap)
    requires forall b :: b in bs ==> b.threat in cs && b.severity in {25, 50, 75, 100}
    ensures var w := Adds(EMPTY, bs, cap);
      && Scored(w.maxSeverity) && CountOf(w.count) == |bs|
      && Incidents(EMPTY, bs, cap) <= (if |bs| >= 2 then 1 else 0) + |bs| / 5 + Climbed(w.maxSeverity, cs)
  {
    if bs == [] {
    } else {
      var init, b := bs[..|bs|-1], bs[|bs|-1];
      assert b in bs && forall x :: x in init ==> x in bs;
      IncidentsAreClimbs(init, cs, cap);
      RaiseClimbs(Adds(EMPTY, init, cap).maxSeverity, b, cs);
    }
  }

  /** With K classes, at most `1 + n / 5 + 4 K` incidents. */
  lemma IncidentsBound(bs: seq<Alert>, cs: set<string>, cap: nat)
    requires AllAccepted(EMPTY, bs, cap)
    requires forall b :: b in bs ==> b.threat in cs && b.severity in {25, 50, 75, 100}
    ensures Incidents(EMPTY, bs, cap) <= 1 + |bs| / 5 + 4 * |cs|
  {
    IncidentsAreClimbs(bs, cs, cap);
    ClimbedBound(Adds(EMPTY, bs, cap).maxSeverity, cs);
  }

  /** There are never five accepted alerts in a row without an incident. */
  lemma NoGapOfFive(w: Window, bs: seq<Alert>, cap: nat) returns (k: nat)
    requires |bs| == 5 && AllAccepted(w, bs, cap) && CountOf(w.count) >= 0
    ensures k < 5 && !IsDuplicate(Adds(w, bs[..k], cap), bs[k]) && Correlate(Adds(w, bs[..k], cap), bs[k], cap).incident
  {
    k := 4 - CountOf(w.count) % 5;
    AcceptedAt(w, bs, k, cap);
    FifthFires(CountOf(w.count), k);
  }

  lemma FifthFires(count: int, k: int)
    requires count >= 0 && k == 4 - count % 5
    ensures (count + k + 1) % 5 == 0 && count + k + 1 >= 5
  {
  }

  lemma AcceptedAt(w: Window, bs: seq<Alert>, k: nat, cap: nat)
    requires AllAccepted(w, bs, cap) && k < |bs|
    ensures !IsDuplicate(Adds(w, bs[..k], cap), bs[k]) && AllAccepted(w, bs[..k], cap)
    ensures CountOf(Adds(w, bs[..k], cap).count) == CountOf(w.count) + k
  {
    AcceptedPrefix(w, bs, k + 1, cap);
    assert bs[..k+1][..k] == bs[..k];
    AcceptedPrefix(w, bs, k, cap);
    AcceptedCount(w, bs[..k], cap);
  }

  lemma {:induction false} AcceptedPrefix(w: Window, bs: seq<Alert>, k: nat, cap: nat)
    requires AllAccepted(w, bs, cap) && k <= |bs|
    ensures AllAccepted(w, bs[..k], cap)
    decreases |bs|
  {
    if k < |bs| {
      AcceptedPrefix(w, bs[..|bs|-1], k, cap);
      assert bs[..|bs|-1][..k] == bs[..k];
    } else {
      assert bs[..k] == bs;
    }
  }

  /** From the second alert on, a severity above its class's maximum always raises an incident, and
      the snapshot it carries starts with the alert itself. */
  lemma RiseFires(w: Window, a: Alert, cap: nat)
    requires !IsDuplicate(w, a) && CountOf(w.count) >= 1 && a.severity > MaxOf(w.maxSeverity, a.threat)
    ensures Correlate(w, a, cap).incident
    ensures |Correlate(w, a, cap).snapshot| > 0 && Correlate(w, a, cap).snapshot[0] == a
  {
    assert Trim([a] + w.list)[0] == a;
  }

  /* ---- Every alert ---- */

  /** The maximum kept for a class is the largest severity accepted in it. */
  lemma {:induction false} MaximumIsLargest(bs: seq<Alert>, threat: string, cap: nat)
    requires AllAccepted(EMPTY, bs, cap)
    ensures var top := MaxOf(Adds(EMPTY, bs, cap).maxSeverity, threat);
      && (forall k :: 0 <= k < |bs| && bs[k].threat == threat ==> bs[k].severity <= top)
      && (top == 0 || exists k :: 0 <= k < |bs| && bs[k].threat == threat && bs[k].severity == top)
  {
    if bs == [] {
    } else {
      var init, b := bs[..|bs|-1], bs[|bs|-1];
      MaximumIsLargest(init, threat, cap);
      var before, top := MaxOf(Adds(EMPTY, init, cap).maxSeverity, threat),
        MaxOf(Adds(EMPTY, bs, cap).maxSeverity, threat);
      if top == before && top > 0 {
        var k :| 0 <= k < |init| && init[k].threat == threat && init[k].severity == top;
        assert bs[k] == init[k];
      }
      forall k | 0 <= k < |bs| && bs[k].threat == threat ensures bs[k].severity <= top {
        if k < |init| {
          assert bs[k] == init[k];
        }
      }
    }
  }

  /** The `i`-th alert is more severe than all earlier ones of its class. */
  ghost predicate HighestSoFar(bs: seq<Alert>, i: nat)
    requires i < |bs|
  {
    forall k :: 0 <= k < i && bs[k].threat == bs[i].threat ==> bs[k].severity < bs[i].severity
  }

  lemma HighestIff(bs: seq<Alert>, i: nat, cap: nat)
    requires i < |bs| && AllAccepted(EMPTY, bs[..i], cap) && bs[i].severity > 0
    ensures HighestSoFar(bs, i) <==> bs[i].severity > MaxOf(Adds(EMPTY, bs[..i], cap).maxSeverity, bs[i].threat)
  {
    MaximumIsLargest(bs[..i], bs[i].threat, cap);
    assert forall k :: 0 <= k < i ==> bs[..i][k] == bs[k];
  }

  /** Which of the accepted alerts raise an incident: the second, every fifth, and from the second on
      every one more severe than all earlier ones of its class. */
  lemma IncidentAtIff(bs: seq<Alert>, i: nat, cap: nat)
    requires AllAccepted(EMPTY, bs, cap) && i < |bs| && bs[i].severity > 0
    ensures Correlate(Adds(EMPTY, bs[..i], cap), bs[i], cap).incident <==>
      i >= 1 && (i == 1 || (i + 1) % 5 == 0 || HighestSoFar(bs, i))
  {
    AcceptedAt(EMPTY, bs, i, cap);
    HighestIff(bs, i, cap);
    FiresIff(i, bs[i].severity, MaxOf(Adds(EMPTY, bs[..i], cap).maxSeverity, bs[i].threat));
  }

  lemma FiresIff(i: nat, severity: nat, currentMax: nat)
    requires severity > 0
    ensures Fires(i + 1, severity, currentMax) <==> i >= 1 && (i == 1 || (i + 1) % 5 == 0 || severity > currentMax)
  {
  }

  /* ---- The non-extending window ---- */

  /** The list and the counter exist together, end together, and agree up to the trim. */
  ghost predicate InStep(t: Timed) {
    && (t.w.list == [] <==> t.w.count.Absent?)
    && (t.w.count.Present? ==> t.listAt == t.countAt && t.w.count.n >= 1)
    && (t.w.count.Present? ==> |t.w.list| == if t.w.count.n <= MAX_LIST then t.w.count.n else MAX_LIST)
  }

  datatype TimedOp = TAdd(a: Alert) | TUndo(a: Alert)

  function ApplyAt(t: Timed, now: int, op: TimedOp, cap: nat): Timed {
    match op
    case TAdd(a) => CorrelateAt(t, now, a, cap)
    case TUndo(a) => RollbackAt(t, now, a)
  }

  function RunAt(ops: seq<(int, TimedOp)>, cap: nat): Timed {
    if ops == [] then Timed(EMPTY, 0, 0, 0, map[])
    else ApplyAt(RunAt(ops[..|ops|-1], cap), ops[|ops|-1].0, ops[|ops|-1].1, cap)
  }

  lemma AddKeepsInStep(t: Timed, now: int, a: Alert, cap: nat)
    requires InStep(t)
    ensures InStep(CorrelateAt(t, now, a, cap))
  {
    assert InStep(Live(t, now));
  }

  /** In runs without rollback the list and the counter share one deadline and the list length is the
      count, cut at 100, at every second and across expiries. */
  lemma {:induction false} AddsStayInStep(ops: seq<(int, TimedOp)>, now: int, cap: nat)
    requires forall op :: op in ops ==> op.1.TAdd?
    ensures InStep(RunAt(ops, cap)) && InStep(Live(RunAt(ops, cap), now))
  {
    if ops == [] {
    } else {
      var init, op := ops[..|ops|-1], ops[|ops|-1];
      assert op in ops && forall x :: x in init ==> x in ops;
      AddsStayInStep(init, now, cap);
      AddKeepsInStep(RunAt(init, cap), op.0, op.1.a, cap);
    }
  }

  /** The same holds with rollbacks as long as nothing was trimmed, */
  lemma RollbackKeepsInStep(t: Timed, now: int, a: Alert)
    requires InStep(t) && (t.w.count.Present? ==> t.w.count.n <= MAX_LIST)
    ensures InStep(RollbackAt(t, now, a))
  {
    var l := Live(t, now);
    assert InStep(l);
    RemoveFirstSpec(l.w.list, a);
  }

  /** and only then: the rollback of a listed alert breaks it exactly when the count had passed 100. */
  lemma RollbackInStepIff(t: Timed, now: int, a: Alert)
    requires InStep(Live(t, now)) && a in Live(t, now).w.list
    ensures InStep(RollbackAt(t, now, a)) <==> Live(t, now).w.count.n <= MAX_LIST
  {
    RemoveFirstSpec(Live(t, now).w.list, a);
  }

  function AddsIn(ops: seq<(int, TimedOp)>): nat {
    if ops == [] then 0 else AddsIn(ops[..|ops|-1]) + if ops[|ops|-1].1.TAdd? then 1 else 0
  }

  /** With rollbacks anywhere, at most 100 adds keep list and counter in step, at every second. */
  lemma {:induction false} MixedRunsStayInStep(ops: seq<(int, TimedOp)>, now: int, cap: nat)
    requires AddsIn(ops) <= MAX_LIST
    ensures InStep(RunAt(ops, cap)) && InStep(Live(RunAt(ops, cap), now))
    ensures CountOf(RunAt(ops, cap).w.count) <= AddsIn(ops)
  {
    if ops == [] {
    } else {
      var init, op := ops[..|ops|-1], ops[|ops|-1];
      MixedRunsStayInStep(init, now, cap);
      match op.1 {
        case TAdd(a) => AddKeepsInStep(RunAt(init, cap), op.0, a, cap);
        case TUndo(a) => RollbackKeepsInStep(RunAt(init, cap), op.0, a);
      }
    }
  }

  /** The `k`-th operation finds no living list and starts one. */
  ghost predicate Creates(ops: seq<(int, TimedOp)>, k: nat, cap: nat) {
    && k < |ops| && ops[k].1.TAdd?
    && var l := Live(RunAt(ops[..k], cap), ops[k].0); l.w.list == [] && !IsDuplicate(l.w, ops[k].1.a)
  }

  /** In every run, rollbacks and expiries included, the deadline of a list is a full window after the add
      that created it, and no later add created another. */
  lemma {:induction false} DeadlineIsFromCreation(ops: seq<(int, TimedOp)>, cap: nat) returns (k: nat)
    requires RunAt(ops, cap).w.list != []
    ensures Creates(ops, k, cap) && RunAt(ops, cap).listAt == ops[k].0 + TIME_WINDOW
    ensures forall j :: k < j < |ops| ==> !Creates(ops, j, cap)
  {
    if Creates(ops, |ops| - 1, cap) {
      k := |ops| - 1;
    } else {
      CreatedEarlier(ops, cap);
      k := DeadlineIsFromCreation(ops[..|ops|-1], cap);
      CreatesPrefix(ops, k, cap);
      StillLast(ops, ops[..|ops|-1], k, cap);
    }
  }

  lemma StillLast(ops: seq<(int, TimedOp)>, init: seq<(int, TimedOp)>, k: nat, cap: nat)
    requires k < |ops| - 1 && init == ops[..|ops|-1] && !Creates(ops, |ops| - 1, cap)
    requires forall j :: k < j < |init| ==> !Creates(init, j, cap)
    ensures forall j :: k < j < |ops| ==> !Creates(ops, j, cap)
  {
    forall j | k < j < |ops| ensures !Creates(ops, j, cap) {
      if j < |ops| - 1 {
        CreatesPrefix(ops, j, cap);
      }
    }
  }

  lemma CreatesPrefix(ops: seq<(int, TimedOp)>, k: nat, cap: nat)
    requires k < |ops| - 1
    ensures Creates(ops[..|ops|-1], k, cap) <==> Creates(ops, k, cap)
    ensures ops[..|ops|-1][k] == ops[k]
  {
    assert ops[..|ops|-1][..k] == ops[..k];
  }

  lemma CreatedEarlier(ops: seq<(int, TimedOp)>, cap: nat)
    requires ops != [] && RunAt(ops, cap).w.list != [] && !Creates(ops, |ops| - 1, cap)
    ensures var init := ops[..|ops|-1];
      RunAt(init, cap).w.list != [] && RunAt(init, cap).listAt == RunAt(ops, cap).listAt
  {
    var init, op := ops[..|ops|-1], ops[|ops|-1];
    if op.1.TUndo? {
      RemoveFirstSpec(Live(RunAt(init, cap), op.0).w.list, op.1.a);
    }
  }

  /** No add moves the deadline of a list, counter or seen set that is alive. */
  lemma AddNeverExtends(t: Timed, now: int, a: Alert, cap: nat)
    ensures var l := Live(t, now); var n := CorrelateAt(t, now, a, cap);
      && (l.w.list != [] ==> n.listAt == t.listAt)
      && (l.w.count.Present? ==> n.countAt == t.countAt)
      && (l.w.seen != [] ==> n.seenAt == t.seenAt)
      && (!IsDuplicate(l.w, a) && l.w.list == [] ==> n.listAt == now + TIME_WINDOW)
      && (!IsDuplicate(l.w, a) && l.w.count.Absent? ==> n.countAt == now + TIME_WINDOW)
  {
  }

  /** A class's maximum is extended in one case only: a rise in the very second in which it ends. */
  lemma MaximumExtendedIff(t: Timed, now: int, a: Alert, cap: nat)
    requires a.threat in Live(t, now).w.maxSeverity && Live(t, now).w.maxSeverity[a.threat] > 0 &&
      !IsDuplicate(Live(t, now).w, a)
    ensures CorrelateAt(t, now, a, cap).dedupAt[a.threat] != t.dedupAt[a.threat]
      <==> a.severity > Live(t, now).w.maxSeverity[a.threat] && t.dedupAt[a.threat] == now
  {
  }

  /** Such a run: the maximum set at second 0 rises at second 300 and lives on until 600. */
  lemma MaximumIsExtended() returns (ops: seq<(int, TimedOp)>, threat: string)
    ensures ops != []
    ensures var before, after := RunAt(ops[..|ops|-1], 1), RunAt(ops, 1);
      && threat in before.dedupAt && before.dedupAt[threat] == 300
      && threat in after.dedupAt && after.dedupAt[threat] == 600
  {
    var low, high := Alert("a", "scan", 25, false, ""), Alert("b", "scan", 50, false, "");
    ops, threat := [(0, TAdd(low)), (300, TAdd(high))], "scan";
    assert ops[..1] == [(0, TAdd(low))] && [(0, TAdd(low))][..0] == [];
    assert RunAt(ops[..1], 1) == CorrelateAt(Timed(EMPTY, 0, 0, 0, map[]), 0, low, 1);
    RisesAtTheEnd(low, high);
  }

  lemma RisesAtTheEnd(low: Alert, high: Alert)
    requires low == Alert("a", "scan", 25, false, "") && high == Alert("b", "scan", 50, false, "")
    ensures var before := CorrelateAt(Timed(EMPTY, 0, 0, 0, map[]), 0, low, 1);
      && before.dedupAt == map["scan" := 300]
      && CorrelateAt(before, 300, high, 1).dedupAt == map["scan" := 600]
  {
    var before := CorrelateAt(Timed(EMPTY, 0, 0, 0, map[]), 0, low, 1);
    assert before.w.seen == [Entry(0, "a")] by {
      assert ZAdd([], 0, "a") == [Entry(0, "a")];
    }
    assert before.w.maxSeverity == map["scan" := 25];
    var l := Live(before, 300);
    assert l.w.maxSeverity == map["scan" := 25] && !IsDuplicate(l.w, high);
  }

  /* ---- The incident built from a snapshot ---- */

  /** The related ids and the severity `add_alert` puts into the incident: every nonempty id of the
      window once, the alert's own among them, and the largest score. */
  method Summarise(a: Alert, snapshot: seq<Alert>) returns (related: seq<string>, severity: nat)
    ensures forall i, j :: 0 <= i < j < |related| ==> related[i] != related[j]
    ensures forall x :: x in related <==>
      x != "" && (x == a.id || exists k :: 0 <= k < |snapshot| && snapshot[k].id == x)
    ensures severity >= a.severity && forall k :: 0 <= k < |snapshot| ==> severity >= snapshot[k].severity
    ensures severity == a.severity || exists k :: 0 <= k < |snapshot| && severity == snapshot[k].severity
  {
    related, severity := [], a.severity;
    var n := 0;
    while n < |snapshot|
      invariant 0 <= n <= |snapshot|
      invariant forall i, j :: 0 <= i < j < |related| ==> related[i] != related[j]
      invariant forall x :: x in related <==> x != "" && exists k :: 0 <= k < n && snapshot[k].id == x
      invariant severity >= a.severity && forall k :: 0 <= k < n ==> severity >= snapshot[k].severity
      invariant severity == a.severity || exists k :: 0 <= k < n && severity == snapshot[k].severity
    {
      var s := snapshot[n];
      if s.id != "" && s.id !in related {
        related := related + [s.id];
      }
      if s.severity >= severity {
        severity := s.severity;
      }
      n := n + 1;
    }
    if a.id != "" && a.id !in related {
      related := related + [a.id];
    }
  }
}
