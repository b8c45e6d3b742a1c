/** The windows of a source as a reading of its adds: which adds each window is made of, and what the
    script answers (inference/correlation.py). No key is looked at. */
module WindowTrace {
  import opened SortedSet
  import opened CorrelationWindow
  import opened RollbackLaws
  import opened IncidentLaws
  import opened TimedWindows

  /** An accepted add and its second. */
  datatype Mark = Mark(at: int, a: Alert)

  /* ---- Windows of 300 seconds ---- */

  /** Where the window of the last add begins: at the first add, and at every one more than 300 seconds
      after the beginning before it. */
  function StartOf(log: seq<Mark>): (k: nat)
    requires log != []
    ensures k < |log|
  {
    var n := |log| - 1;
    if n == 0 then 0
    else
      var k := StartOf(log[..n]);
      if log[n].at > log[k].at + 300 then n else k
  }

  /** The adds of the window that is open at `now`. */
  function Current(log: seq<Mark>, now: int): seq<Mark> {
    if log == [] || now > log[StartOf(log)].at + 300 then [] else log[StartOf(log)..]
  }

  lemma CurrentSnoc(log: seq<Mark>, x: Mark)
    ensures Current(log + [x], x.at) == Current(log, x.at) + [x]
    ensures (log + [x])[StartOf(log + [x])].at == if Current(log, x.at) == [] then x.at else log[StartOf(log)].at
  {
    assert (log + [x])[..|log|] == log;
  }

  /** Nothing changes while the window is open, and then it is empty. */
  lemma CurrentLater(log: seq<Mark>, before: int, now: int)
    requires before <= now
    ensures Current(log, now) == if log != [] && now <= log[StartOf(log)].at + 300 then Current(log, before) else []
  {
  }

  function AlertsOf(adds: seq<Mark>): seq<Alert> {
    if adds == [] then [] else AlertsOf(adds[..|adds|-1]) + [adds[|adds|-1].a]
  }

  /** Newest first, at most 100. */
  function Listed(adds: seq<Mark>): seq<Alert> {
    var all := Reverse(AlertsOf(adds));
    if |all| > 100 then all[..100] else all
  }

  lemma ListedSnoc(adds: seq<Mark>, x: Mark)
    ensures Listed(adds + [x]) == Trim([x.a] + Listed(adds))
    ensures Listed(adds) == [] <==> adds == []
  {
    assert (adds + [x])[..|adds|] == adds;
    assert (AlertsOf(adds) + [x.a])[..|AlertsOf(adds)|] == AlertsOf(adds);
    TrimCons(x.a, Reverse(AlertsOf(adds)));
  }

  /* ---- Ids ---- */

  function WithId(log: seq<Mark>): seq<Mark> {
    if log == [] then [] else WithId(log[..|log|-1]) + if log[|log|-1].a.id != "" then [log[|log|-1]] else []
  }

  function SeeAll(adds: seq<Mark>, cap: nat): ZSet {
    if adds == [] then [] else See(SeeAll(adds[..|adds|-1], cap), adds[|adds|-1].a, cap)
  }

  /** The ids remembered at `now`: those of a window of its own, which only adds with an id open. */
  function Remembered(log: seq<Mark>, now: int, cap: nat): ZSet {
    SeeAll(Current(WithId(log), now), cap)
  }

  lemma WithIdSnoc(log: seq<Mark>, x: Mark)
    ensures WithId(log + [x]) == if x.a.id != "" then WithId(log) + [x] else WithId(log)
  {
    assert (log + [x])[..|log|] == log;
  }

  lemma SeeAllSnoc(adds: seq<Mark>, x: Mark, cap: nat)
    ensures SeeAll(adds + [x], cap) == See(SeeAll(adds, cap), x.a, cap)
  {
    assert (adds + [x])[..|adds|] == adds;
  }

  lemma {:induction false} WithIdHasIds(log: seq<Mark>)
    ensures forall x :: x in WithId(log) ==> x.a.id != ""
  {
    if log == [] {
    } else {
      WithIdHasIds(log[..|log|-1]);
    }
  }

  lemma SeenIsNonEmpty(adds: seq<Mark>, cap: nat)
    requires cap > 0 && forall x :: x in adds ==> x.a.id != ""
    ensures SeeAll(adds, cap) == [] <==> adds == []
  {
    if adds != [] {
      var z, x := SeeAll(adds[..|adds|-1], cap), adds[|adds|-1];
      assert x in adds;
      InsertElements(ZRem(z, x.a.id), Entry(|z|, x.a.id));
    }
  }

  /* ---- Classes ---- */

  function OfClass(log: seq<Mark>, c: string): seq<Mark> {
    if log == [] then []
    else OfClass(log[..|log|-1], c) + if log[|log|-1].a.threat == c then [log[|log|-1]] else []
  }

  lemma OfClassSnoc(log: seq<Mark>, x: Mark, c: string)
    ensures OfClass(log + [x], c) == if x.a.threat == c then OfClass(log, c) + [x] else OfClass(log, c)
  {
    assert (log + [x])[..|log|] == log;
  }

  function Largest(adds: seq<Mark>): nat {
    if adds == [] then 0
    else
      var m := Largest(adds[..|adds|-1]);
      if adds[|adds|-1].a.severity > m then adds[|adds|-1].a.severity else m
  }

  /** The last second of a class's window: 300 after the add that opened it, and after a rise that falls
      on the last second. */
  function Until(cs: seq<Mark>): int
    requires cs != []
    decreases |cs|, 0
  {
    var n := |cs| - 1;
    if n == 0 || cs[n].at > Until(cs[..n]) || (cs[n].at == Until(cs[..n]) && cs[n].a.severity > Peak(cs[..n])) then
      cs[n].at + 300
    else Until(cs[..n])
  }

  function From(cs: seq<Mark>): (k: nat)
    requires cs != []
    ensures k < |cs|
    decreases |cs|, 0
  {
    var n := |cs| - 1;
    if n == 0 || cs[n].at > Until(cs[..n]) then n else From(cs[..n])
  }

  /** The largest severity of the class's window. */
  function Peak(cs: seq<Mark>): nat
    requires cs != []
    decreases |cs|, 1
  {
    Largest(cs[From(cs)..])
  }

  lemma LargestSnoc(adds: seq<Mark>, x: Mark)
    ensures Largest(adds + [x]) == if x.a.severity > Largest(adds) then x.a.severity else Largest(adds)
  {
    assert (adds + [x])[..|adds|] == adds;
  }

  lemma PeakSnoc(cs: seq<Mark>, x: Mark)
    ensures var open := cs != [] && x.at <= Until(cs);
      && Peak(cs + [x]) == (if open && Peak(cs) >= x.a.severity then Peak(cs) else x.a.severity)
      && Until(cs + [x]) == if open && !(x.at == Until(cs) && x.a.severity > Peak(cs)) then Until(cs) else x.at + 300
  {
    var all := cs + [x];
    assert all[..|cs|] == cs;
    if cs != [] && x.at <= Until(cs) {
      assert all[From(cs)..] == cs[From(cs)..] + [x];
      LargestSnoc(cs[From(cs)..], x);
    } else {
      assert all[|cs|..] == [] + [x];
      LargestSnoc([], x);
    }
  }

  lemma PeakIsPositive(cs: seq<Mark>)
    requires cs != [] && forall x :: x in cs ==> x.a.severity > 0
    ensures Peak(cs) > 0
  {
    var w := cs[From(cs)..];
    assert w[|w|-1] in cs;
  }

  /* ---- The adds that were accepted ---- */

  predicate Known(log: seq<Mark>, now: int, a: Alert, cap: nat) {
    a.id != "" && !a.replay && a.id in Members(Remembered(log, now, cap))
  }

  function Log(ops: Trace, cap: nat): seq<Mark> {
    if ops == [] then []
    else
      var log, now, op := Log(ops[..|ops|-1], cap), ops[|ops|-1].0, ops[|ops|-1].1;
      if op.TUndo? || Known(log, now, op.a, cap) then log else log + [Mark(now, op.a)]
  }

  /* Each key, with its last second, agrees with the reading. */

  ghost predicate ListMatches(list: seq<Alert>, count: Counter, listAt: int, countAt: int, log: seq<Mark>, now: int) {
    && list == Listed(Current(log, now))
    && count == (if Current(log, now) == [] then Absent else Present(|Current(log, now)|))
    && (log != [] ==> listAt == countAt == log[StartOf(log)].at + 300)
  }

  ghost predicate SeenMatches(seen: ZSet, seenAt: int, ids: seq<Mark>, now: int, cap: nat) {
    seen == SeeAll(Current(ids, now), cap) && (ids != [] ==> seenAt == ids[StartOf(ids)].at + 300)
  }

  ghost predicate ClassMatches(top: map<string, nat>, until: map<string, int>, cs: seq<Mark>, c: string, now: int) {
    && (c in top <==> cs != [] && now <= Until(cs))
    && (c in top ==> top[c] == Peak(cs) && c in until && until[c] == Until(cs))
  }

  ghost predicate ClassesMatch(top: map<string, nat>, until: map<string, int>, log: seq<Mark>, now: int) {
    forall c :: ClassMatches(top, until, OfClass(log, c), c, now)
  }

  ghost predicate Matches(t: Timed, log: seq<Mark>, now: int, cap: nat) {
    && ListMatches(t.w.list, t.w.count, t.listAt, t.countAt, log, now)
    && SeenMatches(t.w.seen, t.seenAt, WithId(log), now, cap)
    && ClassesMatch(t.w.maxSeverity, t.dedupAt, log, now)
  }

  lemma LiveMatches(t: Timed, log: seq<Mark>, before: int, now: int, cap: nat)
    requires Matches(t, log, before, cap) && before <= now
    ensures Matches(Live(t, now), log, now, cap)
  {
    CurrentLater(log, before, now);
    CurrentLater(WithId(log), before, now);
    var l := Live(t, now);
    forall c ensures ClassMatches(l.w.maxSeverity, l.dedupAt, OfClass(log, c), c, now) {
      assert ClassMatches(t.w.maxSeverity, t.dedupAt, OfClass(log, c), c, before);
    }
  }

  lemma ListStep(list: seq<Alert>, count: Counter, listAt: int, countAt: int, log: seq<Mark>, now: int, a: Alert)
    requires ListMatches(list, count, listAt, countAt, log, now)
    ensures ListMatches(Trim([a] + list), Present(Increment(count)), if list == [] then now + 300 else listAt,
                        if count.Absent? then now + 300 else countAt, log + [Mark(now, a)], now)
  {
    var x := Mark(now, a);
    CurrentSnoc(log, x);
    ListedSnoc(Current(log, now), x);
    assert Current(log + [x], now) == Current(log, now) + [x];
  }

  lemma SeenStep(seen: ZSet, seenAt: int, log: seq<Mark>, now: int, a: Alert, cap: nat)
    requires cap > 0 && SeenMatches(seen, seenAt, WithId(log), now, cap) && a.id != ""
    ensures SeenMatches(See(seen, a, cap), if seen == [] then now + 300 else seenAt,
                        WithId(log) + [Mark(now, a)], now, cap)
  {
    var ids, x := WithId(log), Mark(now, a);
    CurrentSnoc(ids, x);
    assert Current(ids + [x], now) == Current(ids, now) + [x];
    SeeAllSnoc(Current(ids, now), x, cap);
    WithIdHasIds(log);
    SeenIsNonEmpty(Current(ids, now), cap);
  }

  lemma ClassStep(top: map<string, nat>, until: map<string, int>, cs: seq<Mark>, now: int, a: Alert)
    requires ClassMatches(top, until, cs, a.threat, now) && a.severity > 0 && forall x :: x in cs ==> x.a.severity > 0
    ensures ClassMatches(Raise(top, a), RaiseDeadline(until, now, a, MaxOf(top, a.threat)),
                         cs + [Mark(now, a)], a.threat, now)
  {
    PeakSnoc(cs, Mark(now, a));
    if cs != [] {
      PeakIsPositive(cs);
    }
  }

  lemma ClassesStep(top: map<string, nat>, until: map<string, int>, log: seq<Mark>, now: int, a: Alert)
    requires ClassesMatch(top, until, log, now) && a.severity > 0 && forall x :: x in log ==> x.a.severity > 0
    ensures ClassesMatch(Raise(top, a), RaiseDeadline(until, now, a, MaxOf(top, a.threat)), log + [Mark(now, a)], now)
  {
    var next, later := Raise(top, a), RaiseDeadline(until, now, a, MaxOf(top, a.threat));
    forall c ensures ClassMatches(next, later, OfClass(log + [Mark(now, a)], c), c, now) {
      OfClassSnoc(log, Mark(now, a), c);
      assert ClassMatches(top, until, OfClass(log, c), c, now);
      if c == a.threat {
        OfClassFrom(log, c);
        ClassStep(top, until, OfClass(log, c), now, a);
      }
    }
  }

  lemma {:induction false} OfClassFrom(log: seq<Mark>, c: string)
    ensures forall x :: x in OfClass(log, c) ==> x in log
  {
    if log == [] {
    } else {
      OfClassFrom(log[..|log|-1], c);
    }
  }

  lemma AcceptSeen(l: Timed, log: seq<Mark>, now: int, a: Alert, cap: nat)
    requires cap > 0 && SeenMatches(l.w.seen, l.seenAt, WithId(log), now, cap) && !IsDuplicate(l.w, a)
    ensures var t := AcceptAt(l, now, a, cap);
      SeenMatches(t.w.seen, t.seenAt, WithId(log + [Mark(now, a)]), now, cap)
  {
    WithIdSnoc(log, Mark(now, a));
    if a.id != "" {
      SeenStep(l.w.seen, l.seenAt, log, now, a, cap);
    }
  }

  lemma AcceptList(l: Timed, log: seq<Mark>, now: int, a: Alert, cap: nat)
    requires ListMatches(l.w.list, l.w.count, l.listAt, l.countAt, log, now) && !IsDuplicate(l.w, a)
    ensures var t := AcceptAt(l, now, a, cap);
      ListMatches(t.w.list, t.w.count, t.listAt, t.countAt, log + [Mark(now, a)], now)
  {
    ListStep(l.w.list, l.w.count, l.listAt, l.countAt, log, now, a);
  }

  lemma AcceptMatches(l: Timed, log: seq<Mark>, now: int, a: Alert, cap: nat)
    requires cap > 0 && Matches(l, log, now, cap) && a.severity > 0 && forall x :: x in log ==> x.a.severity > 0
    requires !IsDuplicate(l.w, a)
    ensures Matches(AcceptAt(l, now, a, cap), log + [Mark(now, a)], now, cap)
  {
    AcceptList(l, log, now, a, cap);
    AcceptSeen(l, log, now, a, cap);
    ClassesStep(l.w.maxSeverity, l.dedupAt, log, now, a);
  }

  /** Adds of scored alerts only, in the order of time. */
  ghost predicate Adding(ops: Trace) {
    Monotone(ops) && forall op :: op in ops ==> op.1.TAdd? && op.1.a.severity > 0
  }

  lemma {:induction false} LogIsScored(ops: Trace, cap: nat)
    requires Adding(ops)
    ensures forall x :: x in Log(ops, cap) ==> x.a.severity > 0
  {
    if ops == [] {
    } else {
      LastOf(ops);
      LogIsScored(ops[..|ops|-1], cap);
      assert ops[|ops|-1] in ops;
    }
  }

  lemma StepMatches(t: Timed, log: seq<Mark>, before: int, now: int, a: Alert, cap: nat)
    requires cap > 0 && Matches(t, log, before, cap) && before <= now
    requires a.severity > 0 && forall x :: x in log ==> x.a.severity > 0
    ensures Matches(CorrelateAt(t, now, a, cap),
                    if Known(log, now, a, cap) then log else log + [Mark(now, a)], now, cap)
    ensures IsDuplicate(Live(t, now).w, a) <==> Known(log, now, a, cap)
  {
    LiveMatches(t, log, before, now, cap);
    if !Known(log, now, a, cap) {
      AcceptMatches(Live(t, now), log, now, a, cap);
    }
  }

  lemma OneMoreAdd(init: Trace, op: (int, TimedOp), cap: nat)
    requires op.1.TAdd?
    ensures RunAt(init + [op], cap) == CorrelateAt(RunAt(init, cap), op.0, op.1.a, cap)
    ensures var log := Log(init, cap);
      Log(init + [op], cap) == if Known(log, op.0, op.1.a, cap) then log else log + [Mark(op.0, op.1.a)]
  {
    assert (init + [op])[..|init|] == init;
  }

  lemma NothingMatches(now: int, cap: nat)
    ensures Matches(Timed(EMPTY, 0, 0, 0, map[]), [], now, cap)
  {
  }

  lemma {:induction false} RunMatches(ops: Trace, cap: nat)
    requires cap > 0 && Adding(ops)
    ensures Matches(RunAt(ops, cap), Log(ops, cap), Second(ops), cap)
  {
    if ops == [] {
      NothingMatches(0, cap);
    } else {
      var init, op := ops[..|ops|-1], ops[|ops|-1];
      LastOf(ops);
      assert op in ops && Adding(init);
      var before := if init == [] then op.0 else Second(init);
      RunMatches(init, cap);
      if init == [] {
        NothingMatches(op.0, cap);
      }
      LogIsScored(init, cap);
      StepMatches(RunAt(init, cap), Log(init, cap), before, op.0, op.1.a, cap);
      OneMoreAdd(init, op, cap);
    }
  }

  /** After any adds, expiries included: the list holds the alerts of the window open at that second,
      newest first and at most 100; the counter is their number; the seen set is what the ids of its own
      window leave; and a class's maximum is the largest severity of its window. */
  lemma RunIsItsWindow(ops: Trace, cap: nat, c: string)
    requires cap > 0 && Adding(ops) && ops != []
    ensures var w, log, now := RunAt(ops, cap).w, Log(ops, cap), Second(ops);
      && w.list == Listed(Current(log, now))
      && CountOf(w.count) == |Current(log, now)|
      && w.seen == Remembered(log, now, cap)
      && MaxOf(w.maxSeverity, c) == Top(log, c, now)
  {
    RunMatches(ops, cap);
    var t := RunAt(ops, cap);
    assert ClassMatches(t.w.maxSeverity, t.dedupAt, OfClass(Log(ops, cap), c), c, Second(ops));
  }

  /** The largest severity of a class's open window, 0 without one. */
  function Top(log: seq<Mark>, c: string, now: int): nat {
    var cs := OfClass(log, c);
    if cs != [] && now <= Until(cs) then Peak(cs) else 0
  }

  /** What the script answers: an alert whose id is remembered is not counted; any other one is counted
      with those of the open window, and raises an incident exactly if it is not the only one and is the
      second, a multiple of five, or above the top of its class; the snapshot is the newest 100 of the
      window, itself first. */
  lemma AnswerIsItsWindow(ops: Trace, now: int, a: Alert, cap: nat)
    requires cap > 0 && Adding(ops) && a.severity > 0 && (ops != [] ==> Second(ops) <= now)
    ensures var r, log := AnswerAt(RunAt(ops, cap), now, a, cap), Log(ops, cap);
      var n := |Current(log, now)| + 1;
      if Known(log, now, a, cap) then r.total == 0 && !r.incident && r.snapshot == []
      else
        && r.total == n
        && (r.incident <==> n >= 2 && (n == 2 || n % 5 == 0 || a.severity > Top(log, a.threat, now)))
        && r.snapshot == if r.incident then Listed(Current(log, now) + [Mark(now, a)]) else []
  {
    LogIsScored(ops, cap);
    LiveRunMatches(ops, now, cap);
    AnswerOf(Live(RunAt(ops, cap), now), Log(ops, cap), now, a, cap);
  }

  lemma LiveRunMatches(ops: Trace, now: int, cap: nat)
    requires cap > 0 && Adding(ops) && (ops != [] ==> Second(ops) <= now)
    ensures Matches(Live(RunAt(ops, cap), now), Log(ops, cap), now, cap)
  {
    RunMatches(ops, cap);
    if ops == [] {
      NothingMatches(now, cap);
      LiveMatches(RunAt(ops, cap), Log(ops, cap), now, now, cap);
    } else {
      LiveMatches(RunAt(ops, cap), Log(ops, cap), Second(ops), now, cap);
    }
  }

  lemma AnswerOf(l: Timed, log: seq<Mark>, now: int, a: Alert, cap: nat)
    requires cap > 0 && Matches(l, log, now, cap) && a.severity > 0 && forall x :: x in log ==> x.a.severity > 0
    ensures var r, n := Correlate(l.w, a, cap), |Current(log, now)| + 1;
      if Known(log, now, a, cap) then r.total == 0 && !r.incident && r.snapshot == []
      else
        && r.total == n
        && (r.incident <==> n >= 2 && (n == 2 || n % 5 == 0 || a.severity > Top(log, a.threat, now)))
        && r.snapshot == if r.incident then Listed(Current(log, now) + [Mark(now, a)]) else []
  {
    assert IsDuplicate(l.w, a) <==> Known(log, now, a, cap);
    if !IsDuplicate(l.w, a) {
      TopIsKept(l, log, now, a.threat);
      ReplyFrom(l.w, a, cap, |Current(log, now)|, Top(log, a.threat, now));
      NewestWith(l.w.list, Current(log, now), Mark(now, a));
    }
  }

  lemma NewestWith(list: seq<Alert>, adds: seq<Mark>, x: Mark)
    requires list == Listed(adds)
    ensures Trim([x.a] + list) == Listed(adds + [x])
  {
    ListedSnoc(adds, x);
  }

  lemma ReplyFrom(w: Window, a: Alert, cap: nat, earlier: nat, top: nat)
    requires !IsDuplicate(w, a) && a.severity > 0 && MaxOf(w.maxSeverity, a.threat) == top
    requires w.count == if earlier == 0 then Absent else Present(earlier)
    ensures var r, n := Correlate(w, a, cap), earlier + 1;
      && r.total == n && (r.incident <==> n >= 2 && (n == 2 || n % 5 == 0 || a.severity > top))
      && r.snapshot == if r.incident then Trim([a] + w.list) else []
  {
  }

  lemma TopIsKept(l: Timed, log: seq<Mark>, now: int, c: string)
    requires ClassesMatch(l.w.maxSeverity, l.dedupAt, log, now)
    ensures MaxOf(l.w.maxSeverity, c) == Top(log, c, now)
  {
    assert ClassMatches(l.w.maxSeverity, l.dedupAt, OfClass(log, c), c, now);
  }

  /** A window that has ended counts for nothing. */
  lemma EndedWindowIsForgotten(ops: Trace, now: int, a: Alert, cap: nat)
    requires cap > 0 && Adding(ops) && a.severity > 0 && ops != [] && Second(ops) + 300 < now
    ensures var r := AnswerAt(RunAt(ops, cap), now, a, cap); r.total == 1 && !r.incident
  {
    AnswerIsItsWindow(ops, now, a, cap);
    LogIsEarlier(ops, cap);
    WithIdFrom(Log(ops, cap));
  }

  lemma {:induction false} LogIsEarlier(ops: Trace, cap: nat)
    requires Adding(ops)
    ensures forall x :: x in Log(ops, cap) ==> x.at <= Second(ops)
  {
    if ops == [] {
    } else {
      LastOf(ops);
      LogIsEarlier(ops[..|ops|-1], cap);
    }
  }

  lemma {:induction false} WithIdFrom(log: seq<Mark>)
    ensures forall x :: x in WithId(log) ==> x in log
  {
    if log == [] {
    } else {
      WithIdFrom(log[..|log|-1]);
    }
  }
}
