/** The Redis state of one source address and the two Lua scripts that work on it
    (inference/correlation.py). */
module CorrelationWindow {
  import opened SortedSet

  const MAX_SEEN: nat := 5000
  const MAX_LIST: nat := 100
  const TIME_WINDOW: nat := 300

  /** `threat` is the sanitised class, `severity` the score 25, 50, 75 or 100. Two alerts have the same
      JSON text exactly when they are equal. */
  datatype Alert = Alert(id: string, threat: string, severity: nat, replay: bool, body: string)

  datatype Counter = Absent | Present(n: int)

  /** `seen`, the list (newest first), the counter, and the largest severity per class. An empty set or
      list is a key that does not exist. */
  datatype Window = Window(seen: ZSet, list: seq<Alert>, count: Counter, maxSeverity: map<string, nat>)

  const EMPTY := Window([], [], Absent, map[])

  datatype Reply = Reply(window: Window, total: int, incident: bool, snapshot: seq<Alert>)

  predicate IsDuplicate(w: Window, a: Alert) {
    a.id != "" && a.id in Members(w.seen) && !a.replay
  }

  function See(z: ZSet, a: Alert, cap: nat): ZSet {
    if a.id == "" then z
    else
      var added := ZAdd(z, |z|, a.id);
      if |added| > cap then added[1..] else added
  }

  function Trim(l: seq<Alert>): seq<Alert> {
    if |l| > MAX_LIST then l[..MAX_LIST] else l
  }

  function Increment(c: Counter): int {
    if c.Absent? then 1 else c.n + 1
  }

  function MaxOf(m: map<string, nat>, threat: string): nat {
    if threat in m then m[threat] else 0
  }

  predicate Fires(total: int, severity: nat, currentMax: nat) {
    total >= 2 && (currentMax == 0 || severity > currentMax || total == 2 || (total > 2 && total % 5 == 0))
  }

  function Raise(m: map<string, nat>, a: Alert): map<string, nat> {
    if MaxOf(m, a.threat) == 0 || a.severity > m[a.threat] then m[a.threat := a.severity] else m
  }

  /** CORRELATE_LUA, with the bound on the seen set as a parameter. */
  function Correlate(w: Window, a: Alert, cap: nat): Reply {
    if IsDuplicate(w, a) then Reply(w, 0, false, [])
    else
      var total := Increment(w.count);
      var fires := Fires(total, a.severity, MaxOf(w.maxSeverity, a.threat));
      var list := Trim([a] + w.list);
      Reply(Window(See(w.seen, a, cap), list, Present(total), Raise(w.maxSeverity, a)), total, fires,
            if fires then list else [])
  }

  /** LREM 1: the first occurrence from the head. */
  function RemoveFirst(l: seq<Alert>, a: Alert): seq<Alert> {
    if l == [] then [] else if l[0] == a then l[1..] else [l[0]] + RemoveFirst(l[1..], a)
  }

  function Decrement(c: Counter): Counter {
    if c.Present? && c.n > 1 then Present(c.n - 1)
    else if c.Present? && c.n == 1 then Absent
    else c
  }

  /** ROLLBACK_LUA for the id `id` the caller passes along. */
  function Rollback(w: Window, a: Alert, id: string): Window {
    Window(
      if id != "" then ZRem(w.seen, id) else w.seen,
      RemoveFirst(w.list, a),
      if a in w.list then Decrement(w.count) else w.count,
      w.maxSeverity - {a.threat})
  }

  /** What Python's `str.isspace` accepts. */
  predicate IsSpace(c: char) {
    var n := c as int;
    || 0x9 <= n <= 0xD || 0x1C <= n <= 0x20 || n == 0x85 || n == 0xA0 || n == 0x1680
    || 0x2000 <= n <= 0x200A || n == 0x2028 || n == 0x2029 || n == 0x202F || n == 0x205F || n == 0x3000
  }

  /** `str.strip`, which `rollback_alert_seen` applies to the id and `add_alert` does not. */
  function Strip(s: string): string {
    if s == "" then ""
    else if IsSpace(s[0]) then Strip(s[1..])
    else if IsSpace(s[|s|-1]) then Strip(s[..|s|-1])
    else s
  }

  function RollbackAlert(w: Window, a: Alert): Window {
    Rollback(w, a, Strip(a.id))
  }

  /* ---- What every operation keeps ---- */

  ghost predicate Wf(w: Window, cap: nat) {
    && Valid(w.seen) && |w.seen| <= cap && (forall e :: e in w.seen ==> e.score <= cap)
    && |w.list| <= MAX_LIST
    && (w.count.Present? ==> w.count.n >= 1)
    && (forall t :: t in w.maxSeverity ==> w.maxSeverity[t] > 0)
  }

  lemma SeeSpec(z: ZSet, a: Alert, cap: nat)
    requires Valid(z) && |z| <= cap && (forall e :: e in z ==> e.score <= cap)
    ensures var s := See(z, a, cap);
      && Valid(s) && |s| <= cap && (forall e :: e in s ==> e.score <= cap)
      && Members(s) <= Members(z) + {a.id} && |s| <= |z| + 1
    ensures |z| < cap && a.id != "" ==> Members(See(z, a, cap)) == Members(z) + {a.id}
  {
    if a.id != "" {
      AddSpec(z, |z|, a.id);
      var added := ZAdd(z, |z|, a.id);
      if |added| > cap {
        PopSpec(added);
      }
    }
  }

  lemma {:induction false} RemoveFirstSpec(l: seq<Alert>, a: Alert)
    ensures |RemoveFirst(l, a)| == |l| - if a in l then 1 else 0
    ensures a !in l ==> RemoveFirst(l, a) == l
  {
    if l == [] {
    } else {
      RemoveFirstSpec(l[1..], a);
      assert l == [l[0]] + l[1..];
    }
  }

  lemma CorrelateKeepsWf(w: Window, a: Alert, cap: nat)
    requires Wf(w, cap) && a.severity > 0
    ensures Wf(Correlate(w, a, cap).window, cap)
  {
    SeeSpec(w.seen, a, cap);
  }

  lemma RollbackKeepsWf(w: Window, a: Alert, id: string, cap: nat)
    requires Wf(w, cap)
    ensures Wf(Rollback(w, a, id), cap)
  {
    RemoveSpec(w.seen, id);
    RemoveFirstSpec(w.list, a);
  }

  /** A key expires as a whole. */
  datatype Expiry = Expiry(seen: bool, list: bool, count: bool, threats: set<string>)

  function Expire(w: Window, e: Expiry): Window {
    Window(
      if e.seen then [] else w.seen,
      if e.list then [] else w.list,
      if e.count then Absent else w.count,
      w.maxSeverity - e.threats)
  }

  datatype Op = Add(a: Alert) | Undo(a: Alert) | Lapse(e: Expiry)

  function Apply(w: Window, op: Op, cap: nat): Window {
    match op
    case Add(a) => Correlate(w, a, cap).window
    case Undo(a) => RollbackAlert(w, a)
    case Lapse(e) => Expire(w, e)
  }

  function Run(w: Window, ops: seq<Op>, cap: nat): Window {
    if ops == [] then w else Apply(Run(w, ops[..|ops|-1], cap), ops[|ops|-1], cap)
  }

  /** In any run of adds, rollbacks and key expiries the seen set never exceeds its bound, the list
      never exceeds 100, and the counter, when its key exists, is at least 1. */
  lemma {:induction false} AnyRunKeepsWf(ops: seq<Op>, cap: nat)
    requires forall op :: op in ops && op.Add? ==> op.a.severity > 0
    ensures Wf(Run(EMPTY, ops, cap), cap)
  {
    if ops == [] {
    } else {
      var init, op := ops[..|ops|-1], ops[|ops|-1];
      assert op in ops && forall x :: x in init ==> x in ops;
      AnyRunKeepsWf(init, cap);
      var w := Run(EMPTY, init, cap);
      match op {
        case Add(a) => CorrelateKeepsWf(w, a, cap);
        case Undo(a) => RollbackKeepsWf(w, a, Strip(a.id), cap);
        case Lapse(e) =>
      }
    }
  }

  /** With the deployed bound. */
  lemma DeployedBounds(ops: seq<Op>)
    requires forall op :: op in ops && op.Add? ==> op.a.severity > 0
    ensures |Run(EMPTY, ops, MAX_SEEN).seen| <= 5000 && |Run(EMPTY, ops, MAX_SEEN).list| <= 100
  {
    AnyRunKeepsWf(ops, MAX_SEEN);
  }

  /* ---- Time to live ---- */

  /** The window with the last second at which each key is alive. */
  datatype Timed = Timed(w: Window, seenAt: int, listAt: int, countAt: int, dedupAt: map<string, int>)

  /** What is left at `now`. */
  function Live(t: Timed, now: int): Timed {
    t.(w := Window(
      if t.seenAt < now then [] else t.w.seen,
      if t.listAt < now then [] else t.w.list,
      if t.countAt < now then Absent else t.w.count,
      map c | c in t.w.maxSeverity && c in t.dedupAt && t.dedupAt[c] >= now :: t.w.maxSeverity[c]))
  }

  /** The script at second `now` on the keys alive, once the alert is not a duplicate: EXPIRE only on a key
      without a time to live, SET with the remaining one when it is positive. */
  function AcceptAt(l: Timed, now: int, a: Alert, cap: nat): Timed {
    Timed(
      Correlate(l.w, a, cap).window,
      if a.id != "" && l.w.seen == [] then now + TIME_WINDOW else l.seenAt,
      if l.w.list == [] then now + TIME_WINDOW else l.listAt,
      if l.w.count.Absent? then now + TIME_WINDOW else l.countAt,
      RaiseDeadline(l.dedupAt, now, a, MaxOf(l.w.maxSeverity, a.threat)))
  }

  function CorrelateAt(t: Timed, now: int, a: Alert, cap: nat): Timed {
    var l := Live(t, now);
    if IsDuplicate(l.w, a) then l else AcceptAt(l, now, a, cap)
  }

  /** What the script replies at second `now`. */
  function AnswerAt(t: Timed, now: int, a: Alert, cap: nat): Reply {
    Correlate(Live(t, now).w, a, cap)
  }

  function RaiseDeadline(at: map<string, int>, now: int, a: Alert, currentMax: nat): map<string, int> {
    if currentMax == 0 || (a.severity > currentMax && a.threat in at && at[a.threat] - now <= 0) then
      at[a.threat := now + TIME_WINDOW]
    else at
  }

  function RollbackAt(t: Timed, now: int, a: Alert): Timed {
    var l := Live(t, now);
    l.(w := RollbackAlert(l.w, a))
  }

  /* ---- The scripts, key by key ---- */

  class Source {
    var seen: ZSet
    var list: seq<Alert>
    var count: Counter
    var maxSeverity: map<string, nat>
    var seenAt: int
    var listAt: int
    var countAt: int
    var dedupAt: map<string, int>

    ghost function Now(): Timed
      reads this
    {
      Timed(Window(seen, list, count, maxSeverity), seenAt, listAt, countAt, dedupAt)
    }

    constructor ()
      ensures Now() == Timed(EMPTY, 0, 0, 0, map[])
    {
      seen, list, count, maxSeverity := [], [], Absent, map[];
      seenAt, listAt, countAt, dedupAt := 0, 0, 0, map[];
    }

    /** Redis drops a key once its deadline has passed. */
    method DropExpired(now: int)
      modifies this
      ensures Now() == Live(old(Now()), now)
    {
      if seenAt < now { seen := []; }
      if listAt < now { list := []; }
      if countAt < now { count := Absent; }
      maxSeverity := map c | c in maxSeverity && c in dedupAt && dedupAt[c] >= now :: maxSeverity[c];
    }

    method TrackSeen(now: int, a: Alert, cap: nat)
      modifies this`seen, this`seenAt
      ensures seen == See(old(seen), a, cap)
      ensures seenAt == if a.id != "" && old(seen) == [] then now + TIME_WINDOW else old(seenAt)
    {
      if a.id != "" {
        var created := |seen| == 0;
        seen := ZAdd(seen, |seen|, a.id);
        if |seen| > cap {
          seen := seen[1..];
        }
        if created {
          seenAt := now + TIME_WINDOW;
        }
      }
    }

    method PushAlert(now: int, a: Alert)
      modifies this`list, this`listAt
      ensures list == Trim([a] + old(list))
      ensures listAt == if old(list) == [] then now + TIME_WINDOW else old(listAt)
    {
      var created := |list| == 0;
      list := [a] + list;
      if |list| > MAX_LIST {
        list := list[..MAX_LIST];
      }
      if created {
        listAt := now + TIME_WINDOW;
      }
    }

    method CountAlert(now: int) returns (total: int)
      modifies this`count, this`countAt
      ensures total == Increment(old(count)) && count == Present(total)
      ensures countAt == if old(count).Absent? then now + TIME_WINDOW else old(countAt)
    {
      if count.Absent? {
        countAt := now + TIME_WINDOW;
      }
      total := if count.Absent? then 1 else count.n + 1;
      count := Present(total);
    }

    method RaiseSeverity(now: int, a: Alert, currentMax: nat)
      requires currentMax == MaxOf(maxSeverity, a.threat)
      modifies this`maxSeverity, this`dedupAt
      ensures maxSeverity == Raise(old(maxSeverity), a)
      ensures dedupAt == RaiseDeadline(old(dedupAt), now, a, currentMax)
    {
      if currentMax == 0 {
        maxSeverity, dedupAt := maxSeverity[a.threat := a.severity], dedupAt[a.threat := now + TIME_WINDOW];
      } else if a.severity > currentMax {
        maxSeverity := maxSeverity[a.threat := a.severity];
        if a.threat in dedupAt && dedupAt[a.threat] - now <= 0 {
          dedupAt := dedupAt[a.threat := now + TIME_WINDOW];
        }
      }
    }

    method AcceptAlert(now: int, a: Alert, cap: nat) returns (total: int, incident: bool, snapshot: seq<Alert>)
      requires !IsDuplicate(Now().w, a)
      modifies this
      ensures Now() == AcceptAt(old(Now()), now, a, cap)
      ensures Reply(Now().w, total, incident, snapshot) == Correlate(old(Now()).w, a, cap)
    {
      TrackSeen(now, a, cap);
      PushAlert(now, a);
      total := CountAlert(now);
      var currentMax := if a.threat in maxSeverity then maxSeverity[a.threat] else 0;
      incident := false;
      if total >= 2 {
        if currentMax == 0 || a.severity > currentMax || total == 2 || (total > 2 && total % 5 == 0) {
          incident := true;
        }
      }
      RaiseSeverity(now, a, currentMax);
      snapshot := if incident then list else [];
    }

    method CorrelateScript(now: int, a: Alert, cap: nat) returns (total: int, incident: bool, snapshot: seq<Alert>)
      modifies this
      ensures Now() == CorrelateAt(old(Now()), now, a, cap)
      ensures Reply(Now().w, total, incident, snapshot) == AnswerAt(old(Now()), now, a, cap)
    {
      DropExpired(now);
      if a.id != "" && a.id in Members(seen) && !a.replay {
        return 0, false, [];
      }
      total, incident, snapshot := AcceptAlert(now, a, cap);
    }

    method RollbackScript(now: int, a: Alert)
      modifies this
      ensures Now() == RollbackAt(old(Now()), now, a)
    {
      DropExpired(now);
      var id := Strip(a.id);
      if id != "" {
        seen := ZRem(seen, id);
      }
      RemoveFirstSpec(list, a);
      var removed := |list| - |RemoveFirst(list, a)|;
      list := RemoveFirst(list, a);
      if removed > 0 {
        if count.Present? && count.n > 1 {
          count := Present(count.n - 1);
        } else if count.Present? && count.n == 1 {
          count := Absent;
        }
      }
      maxSeverity := maxSeverity - {a.threat};
    }
  }
}
