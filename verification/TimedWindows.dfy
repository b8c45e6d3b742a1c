/** Where the windows of a source begin and end (inference/correlation.py), read off the trace of adds
    alone: every key lives 300 seconds from the add that created it. */
module TimedWindows {
  import opened SortedSet
  import opened CorrelationWindow
  import opened RollbackLaws
  import opened IncidentLaws

  type Trace = seq<(int, TimedOp)>

  ghost predicate Monotone(ops: Trace) {
    forall i, j :: 0 <= i <= j < |ops| ==> ops[i].0 <= ops[j].0
  }

  lemma MonotonePrefix(ops: Trace)
    requires Monotone(ops) && ops != []
    ensures Monotone(ops[..|ops|-1])
  {
    assert forall i :: 0 <= i < |ops| - 1 ==> ops[..|ops|-1][i] == ops[i];
  }

  /* ---- Runs with rollbacks: nothing old is left ---- */

  /** The alert was added at second `since` or later. */
  ghost predicate AddedSince(ops: Trace, b: Alert, since: int) {
    exists j :: 0 <= j < |ops| && ops[j].1 == TAdd(b) && since <= ops[j].0
  }

  ghost predicate IdAddedSince(ops: Trace, id: string, since: int) {
    exists j :: 0 <= j < |ops| && ops[j].1.TAdd? && ops[j].1.a.id == id && since <= ops[j].0
  }

  /** What is listed or seen was added since its key was created, and the key has not ended. */
  ghost predicate Recent(ops: Trace, t: Timed, now: int) {
    && (t.w.list != [] ==> t.listAt - 300 <= now <= t.listAt)
    && (t.w.seen != [] ==> t.seenAt - 300 <= now <= t.seenAt)
    && (forall b :: b in t.w.list ==> AddedSince(ops, b, t.listAt - 300))
    && (forall id :: id in Members(t.w.seen) ==> IdAddedSince(ops, id, t.seenAt - 300))
  }

  lemma AddedExtend(ops: Trace, op: (int, TimedOp))
    ensures forall b, since :: AddedSince(ops, b, since) ==> AddedSince(ops + [op], b, since)
    ensures forall id, since :: IdAddedSince(ops, id, since) ==> IdAddedSince(ops + [op], id, since)
    ensures op.1.TAdd? ==> AddedSince(ops + [op], op.1.a, op.0) && IdAddedSince(ops + [op], op.1.a.id, op.0)
  {
    var all := ops + [op];
    assert all[|ops|] == op && forall j :: 0 <= j < |ops| ==> all[j] == ops[j];
    forall b, since | AddedSince(ops, b, since) ensures AddedSince(all, b, since) {
      var j :| 0 <= j < |ops| && ops[j].1 == TAdd(b) && since <= ops[j].0;
      assert all[j] == ops[j];
    }
    forall id, since | IdAddedSince(ops, id, since) ensures IdAddedSince(all, id, since) {
      var j :| 0 <= j < |ops| && ops[j].1.TAdd? && ops[j].1.a.id == id && since <= ops[j].0;
      assert all[j] == ops[j];
    }
  }

  ghost predicate SeenOk(z: ZSet, cap: nat) {
    Valid(z) && |z| <= cap && forall e :: e in z ==> e.score <= cap
  }

  lemma LiveIsRecent(ops: Trace, t: Timed, before: int, now: int)
    requires Recent(ops, t, before) && before <= now
    ensures Recent(ops, Live(t, now), now)
  {
  }

  lemma AcceptIsRecent(ops: Trace, l: Timed, now: int, a: Alert, cap: nat)
    requires Recent(ops, l, now) && SeenOk(l.w.seen, cap)
    ensures Recent(ops + [(now, TAdd(a))], AcceptAt(l, now, a, cap), now)
    ensures SeenOk(AcceptAt(l, now, a, cap).w.seen, cap)
  {
    AddedExtend(ops, (now, TAdd(a)));
    if a.id != "" {
      SeeSpec(l.w.seen, a, cap);
    }
    var t := AcceptAt(l, now, a, cap);
    forall b | b in t.w.list ensures AddedSince(ops + [(now, TAdd(a))], b, t.listAt - 300) {
      assert b == a || b in l.w.list;
    }
    forall id | id in Members(t.w.seen) ensures IdAddedSince(ops + [(now, TAdd(a))], id, t.seenAt - 300) {
      assert id == a.id || id in Members(l.w.seen);
    }
  }

  lemma RemovalIsOk(z: ZSet, m: string, cap: nat)
    requires SeenOk(z, cap)
    ensures SeenOk(ZRem(z, m), cap) && Members(ZRem(z, m)) <= Members(z) && (ZRem(z, m) != [] ==> z != [])
  {
    RemoveSpec(z, m);
    RemoveMembers(z, m);
    RemoveElements(z, m);
  }

  lemma {:induction false} RemoveFirstFrom(l: seq<Alert>, a: Alert)
    ensures forall b :: b in RemoveFirst(l, a) ==> b in l
  {
    if l == [] {
    } else {
      RemoveFirstFrom(l[1..], a);
    }
  }

  lemma FewerIsRecent(ops: Trace, l: Timed, w: Window, now: int)
    requires Recent(ops, l, now) && (forall b :: b in w.list ==> b in l.w.list) && (w.seen != [] ==> l.w.seen != [])
    requires Members(w.seen) <= Members(l.w.seen)
    ensures Recent(ops, l.(w := w), now)
  {
    assert w.list != [] ==> w.list[0] in l.w.list;
  }

  lemma UndoIsRecent(ops: Trace, l: Timed, now: int, a: Alert, cap: nat)
    requires Recent(ops, l, now) && SeenOk(l.w.seen, cap)
    ensures var t := l.(w := RollbackAlert(l.w, a)); Recent(ops + [(now, TUndo(a))], t, now) && SeenOk(t.w.seen, cap)
  {
    RemovalIsOk(l.w.seen, Strip(a.id), cap);
    RemoveFirstFrom(l.w.list, a);
    FewerIsRecent(ops, l, RollbackAlert(l.w, a), now);
    SameOpsRecent(ops, (now, TUndo(a)), l.(w := RollbackAlert(l.w, a)), now);
  }

  lemma SameOpsRecent(ops: Trace, op: (int, TimedOp), l: Timed, now: int)
    requires Recent(ops, l, now)
    ensures Recent(ops + [op], l, now)
  {
    AddedExtend(ops, op);
  }

  lemma ApplyIsRecent(init: Trace, t: Timed, before: int, op: (int, TimedOp), cap: nat)
    requires Recent(init, t, before) && SeenOk(t.w.seen, cap) && before <= op.0
    ensures Recent(init + [op], ApplyAt(t, op.0, op.1, cap), op.0) && SeenOk(ApplyAt(t, op.0, op.1, cap).w.seen, cap)
  {
    LiveIsRecent(init, t, before, op.0);
    StepIsRecent(init, Live(t, op.0), op, cap);
  }

  lemma LastOf(ops: Trace)
    requires Monotone(ops) && ops != []
    ensures var init, op := ops[..|ops|-1], ops[|ops|-1];
      ops == init + [op] && Monotone(init) && (init != [] ==> init[|init|-1].0 <= op.0)
  {
    MonotonePrefix(ops);
  }

  function Second(ops: Trace): int {
    if ops == [] then 0 else ops[|ops|-1].0
  }

  lemma {:induction false} RunIsRecent(ops: Trace, cap: nat)
    requires Monotone(ops)
    ensures Recent(ops, RunAt(ops, cap), Second(ops)) && SeenOk(RunAt(ops, cap).w.seen, cap)
  {
    if ops == [] {
    } else {
      var init, op := ops[..|ops|-1], ops[|ops|-1];
      LastOf(ops);
      RunIsRecent(init, cap);
      ApplyIsRecent(init, RunAt(init, cap), if init == [] then op.0 else Second(init), op, cap);
    }
  }

  lemma StepIsRecent(init: Trace, l: Timed, op: (int, TimedOp), cap: nat)
    requires Recent(init, l, op.0) && SeenOk(l.w.seen, cap)
    ensures var t := match op.1
        case TAdd(a) => if IsDuplicate(l.w, a) then l else AcceptAt(l, op.0, a, cap)
        case TUndo(a) => l.(w := RollbackAlert(l.w, a));
      Recent(init + [op], t, op.0) && SeenOk(t.w.seen, cap)
  {
    match op.1
    case TAdd(a) =>
      if IsDuplicate(l.w, a) {
        SameOpsRecent(init, op, l, op.0);
      } else {
        AcceptIsRecent(init, l, op.0, a, cap);
      }
    case TUndo(a) => UndoIsRecent(init, l, op.0, a, cap);
  }

  /** In every run, rollbacks included, every alert listed after an operation at second `s` was added at
      second `s - 300` or later. */
  lemma ListedIsRecent(ops: Trace, cap: nat, b: Alert)
    requires Monotone(ops) && ops != [] && b in RunAt(ops, cap).w.list
    ensures AddedSince(ops, b, ops[|ops|-1].0 - 300)
  {
    RunIsRecent(ops, cap);
    var t := RunAt(ops, cap);
    var j :| 0 <= j < |ops| && ops[j].1 == TAdd(b) && t.listAt - 300 <= ops[j].0;
  }

  /** In every run an alert whose id was not added within the last 300 seconds is accepted. */
  lemma ForgottenIsAccepted(ops: Trace, now: int, a: Alert, cap: nat)
    requires Monotone(ops + [(now, TAdd(a))]) && !IdAddedSince(ops, a.id, now - 300)
    ensures AnswerAt(RunAt(ops, cap), now, a, cap).total > 0
  {
    var all := ops + [(now, TAdd(a))];
    MonotonePrefix(all);
    assert all[..|ops|] == ops && all[|ops|] == (now, TAdd(a));
    RunIsRecent(ops, cap);
    if ops != [] {
      assert all[|ops|-1] == ops[|ops|-1];
      LiveIsRecent(ops, RunAt(ops, cap), Second(ops), now);
    }
    SeenIsRecent(ops, Live(RunAt(ops, cap), now), now, a.id);
    CountsArePositive(ops, cap);
  }

  lemma SeenIsRecent(ops: Trace, l: Timed, now: int, id: string)
    requires Recent(ops, l, now)
    ensures id in Members(l.w.seen) ==> IdAddedSince(ops, id, now - 300)
  {
    if id in Members(l.w.seen) {
      var j :| 0 <= j < |ops| && ops[j].1.TAdd? && ops[j].1.a.id == id && l.seenAt - 300 <= ops[j].0;
    }
  }

  lemma {:induction false} CountsArePositive(ops: Trace, cap: nat)
    ensures RunAt(ops, cap).w.count.Present? ==> RunAt(ops, cap).w.count.n >= 1
  {
    if ops == [] {
    } else {
      CountsArePositive(ops[..|ops|-1], cap);
    }
  }
}
