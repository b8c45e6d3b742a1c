/** What the sink promises over whole lifetimes (SinkSafety carries the induction), and how fast it
    makes progress. */
module SinkGuarantees {
  import opened SinkModel
  import opened SinkSteps
  import opened SinkSafety

  /* ---- At-least-once ---- */

  lemma PrefixThroughout(log: Log, ev: seq<Event>, n: nat)
    requires AtLeastOnceThroughout(log, ev) && n <= |ev|
    ensures AtLeastOnceThroughout(log, ev[..n])
  {
    forall k | 0 <= k <= n ensures AtLeastOnce(log, ev[..n][..k]) {
      assert ev[..n][..k] == ev[..k];
    }
  }

  lemma SessionInv(log: Log, ev: seq<Event>, s: Session)
    requires AtLeastOnceThroughout(log, ev)
    ensures Inv(log, Drain(Run(log, Boot(ev), s.turns), s.db, s.last), |ev|)
  {
    BootEstablishesInv(log, ev);
    RunKeepsInv(log, Boot(ev), s.turns, |ev|);
    DrainKeepsInv(log, Run(log, Boot(ev), s.turns), s.db, s.last, |ev|);
  }

  lemma SnocLife(log: Log, all: seq<Session>, init: seq<Session>, s: Session)
    requires all == init + [s]
    ensures Lifetime(log, all) == Lived(log, Lifetime(log, init), s)
  {
    assert all[..|init|] == init;
  }

  lemma {:induction false} LifetimeThroughout(log: Log, ss: seq<Session>)
    ensures AtLeastOnceThroughout(log, Lifetime(log, ss))
  {
    if ss == [] {
      assert Committed([]) == map[];
    } else {
      var before := Lifetime(log, ss[..|ss|-1]);
      LifetimeThroughout(log, ss[..|ss|-1]);
      SessionInv(log, before, ss[|ss|-1]);
      var after := SessionEvents(log, before, ss[|ss|-1]);
      if |before| <= ss[|ss|-1].dies <= |after| {
        PrefixThroughout(log, after, ss[|ss|-1].dies);
      }
    }
  }

  /** At-least-once over every run: whatever polls, database and broker do, and wherever the process
      dies and restarts, after every effect `ev` ends with, no offset is committed below which a
      message was neither upserted, nor handed to the dead-letter writer, nor rejected by the poll
      filter. */
  lemma LifetimeAtLeastOnce(log: Log, ss: seq<Session>, ev: seq<Event>)
    requires ev <= Lifetime(log, ss)
    ensures AtLeastOnce(log, ev)
  {
    LifetimeThroughout(log, ss);
    assert Lifetime(log, ss)[..|ev|] == ev;
  }

  /** The same for one message: once its offset is committed past, its row is in the database or its
      record was handed to the dead-letter writer. */
  lemma CommittedMessageIsSafe(log: Log, ss: seq<Session>, n: nat, tp: Partition, o: nat)
    requires n <= |Lifetime(log, ss)| && o < At(Committed(Lifetime(log, ss)[..n]), tp)
    ensures tp in log && o < |log[tp]|
    ensures log[tp][o].Record? && Accepted(log[tp][o].msg) ==>
      var ev := Lifetime(log, ss)[..n];
      var item := Item(log[tp][o].msg.body, tp, o);
      item.body.alertId in TableOf(ev).rows || exists k :: 0 <= k < |ev| && ev[k].Dlq? && ev[k].item == item
  {
    var ev := Lifetime(log, ss)[..n];
    LifetimeAtLeastOnce(log, ss, ev);
    assert Covered(log, ev, tp, o);
    StoredIsInTable(ev);
  }

  /* ---- Commit monotonicity ---- */

  lemma {:induction false} FloorRises(ev: seq<Event>, base: nat, m: nat, n: nat, tp: Partition)
    requires base <= m <= n <= |ev| && Rising(ev, base)
    ensures At(Floor(ev[..m], base), tp) <= At(Floor(ev[..n], base), tp)
    decreases n - m
  {
    if m == n {
    } else {
      FloorRises(ev, base, m, n - 1, tp);
      FloorRisesOnce(ev, base, n - 1, tp);
    }
  }

  lemma FloorRisesOnce(ev: seq<Event>, base: nat, n: nat, tp: Partition)
    requires base <= n < |ev| && Rising(ev, base)
    ensures At(Floor(ev[..n], base), tp) <= At(Floor(ev[..n+1], base), tp)
  {
    assert ev[..n+1] == ev[..n] + [ev[n]];
    FloorExtend(ev[..n], ev[n], base);
  }

  lemma RisingPair(ev: seq<Event>, base: nat, i: nat, j: nat, tp: Partition)
    requires base <= i <= j < |ev| && Rising(ev, base)
    requires ev[i].Commit? && ev[j].Commit? && tp in ev[i].offsets && tp in ev[j].offsets
    ensures At(Committed(ev[..base]), tp) <= ev[i].offsets[tp] <= ev[j].offsets[tp] <= At(Floor(ev, base), tp)
    ensures tp in Offers(ev, base)
  {
    FloorAtLeast(ev, base, i, tp);
    FloorAtLeast(ev, base, j, tp);
    if i < j {
      OfferBelowLater(ev, base, i, j, tp);
    }
  }

  lemma OfferBelowLater(ev: seq<Event>, base: nat, i: nat, j: nat, tp: Partition)
    requires base <= i < j < |ev| && Rising(ev, base)
    requires ev[i].Commit? && ev[j].Commit? && tp in ev[i].offsets && tp in ev[j].offsets
    ensures ev[i].offsets[tp] <= ev[j].offsets[tp]
  {
    OfferedIsFloor(ev, base, i, tp);
    FloorRises(ev, base, i + 1, j, tp);
  }

  /** An offer is at least what was committed at the start, and a floor from then on. */
  lemma FloorAtLeast(ev: seq<Event>, base: nat, i: nat, tp: Partition)
    requires base <= i < |ev| && Rising(ev, base) && ev[i].Commit? && tp in ev[i].offsets
    ensures At(Committed(ev[..base]), tp) <= ev[i].offsets[tp] <= At(Floor(ev, base), tp)
    ensures tp in Offers(ev, base)
  {
    assert ev[..base][..base] == ev[..base] && ev[..|ev|] == ev;
    FloorRises(ev, base, base, i, tp);
    OfferedIsFloor(ev, base, i, tp);
    FloorRises(ev, base, i + 1, |ev|, tp);
    OfferedStays(ev, base, i + 1, |ev|, tp);
  }

  lemma OffersObserved(st: State, base: nat, tp: Partition)
    requires base <= |st.events| && Ordered(st, base) && tp in Offers(st.events, base)
    ensures tp in st.observed && At(Floor(st.events, base), tp) <= st.observed[tp]
  {
    var c, f, batched, offers := Committed(st.events), Floor(st.events, base), MaxOffsets(st.batch),
      Offers(st.events, base);
    assert OrderedAt(At(c, tp), At(f, tp), At(st.position, tp), st.observed, batched, st.acked, offers, tp);
  }

  /** Within a session, successive offsets offered for a partition never decrease, start no lower than
      what was committed, and never exceed the highest observed watermark. */
  lemma SessionOffersRise(log: Log, before: seq<Event>, s: Session, i: nat, j: nat, tp: Partition)
    requires AtLeastOnceThroughout(log, before)
    requires |before| <= i <= j < |SessionEvents(log, before, s)|
    requires var ev := SessionEvents(log, before, s);
      ev[i].Commit? && ev[j].Commit? && tp in ev[i].offsets && tp in ev[j].offsets
    ensures var ev := SessionEvents(log, before, s); At(Committed(before), tp) <= ev[i].offsets[tp] <= ev[j].offsets[tp]
    ensures var observed := Drain(Run(log, Boot(before), s.turns), s.db, s.last).observed;
      tp in observed && SessionEvents(log, before, s)[j].offsets[tp] <= observed[tp]
  {
    SessionInv(log, before, s);
    SessionExtends(log, before, s);
    var st := Drain(Run(log, Boot(before), s.turns), s.db, s.last);
    assert st.events[..|before|] == before;
    RisingPair(st.events, |before|, i, j, tp);
    OffersObserved(st, |before|, tp);
  }

  lemma OfferedIsFloor(ev: seq<Event>, base: nat, i: nat, tp: Partition)
    requires base <= i < |ev| && ev[i].Commit? && tp in ev[i].offsets
    ensures At(Floor(ev[..i+1], base), tp) == ev[i].offsets[tp] && tp in Offers(ev[..i+1], base)
  {
    assert ev[..i+1] == ev[..i] + [ev[i]];
    FloorExtend(ev[..i], ev[i], base);
  }

  lemma {:induction false} OfferedStays(ev: seq<Event>, base: nat, m: nat, n: nat, tp: Partition)
    requires base <= m <= n <= |ev| && tp in Offers(ev[..m], base)
    ensures tp in Offers(ev[..n], base)
    decreases n
  {
    if m == n {
    } else {
      OfferedStays(ev, base, m, n - 1, tp);
      assert ev[..n] == ev[..n-1] + [ev[n-1]];
      FloorExtend(ev[..n-1], ev[n-1], base);
    }
  }

  /** Offers never decrease within one life, but they can across a crash: an offer that raised before
      the broker applied it is forgotten, and the next life starts from the older committed offset. */
  lemma OffersMayDropAcrossACrash() returns (log: Log, ss: seq<Session>, i: nat, j: nat)
    ensures var ev := Lifetime(log, ss);
      && i < j < |ev| && ev[i].Commit? && ev[j].Commit?
      && 0 in ev[i].offsets && 0 in ev[j].offsets && ev[j].offsets[0] < ev[i].offsets[0]
  {
    log := TwoBad();
    ss := [StaleSession(2, Raised({})), StaleSession(1, Acknowledged)];
    i, j := 0, 1;
    StaleLives();
  }

  lemma StaleLives()
    ensures Lifetime(TwoBad(), [StaleSession(2, Raised({})), StaleSession(1, Acknowledged)])
         == [Commit(map[0 := 2], {}), Commit(map[0 := 1], {0})]
  {
    var e1 := [Commit(map[0 := 2], {})];
    FirstLife();
    SecondLife(e1);
    TwoLives(TwoBad(), StaleSession(2, Raised({})), StaleSession(1, Acknowledged), e1, e1 + [Commit(map[0 := 1], {0})]);
  }

  lemma FirstLife()
    ensures SessionEvents(TwoBad(), [], StaleSession(2, Raised({}))) == [Commit(map[0 := 2], {})]
    ensures Committed([Commit(map[0 := 2], {})]) == map[]
  {
    StaleSessionEvents([], 2, Raised({}));
    assert [] + [Commit(map[0 := 2], {})] == [Commit(map[0 := 2], {})];
    Extend([], Commit(map[0 := 2], {}));
  }

  lemma SecondLife(e1: seq<Event>)
    requires Committed(e1) == map[]
    ensures SessionEvents(TwoBad(), e1, StaleSession(1, Acknowledged)) == e1 + [Commit(map[0 := 1], {0})]
  {
    StaleSessionEvents(e1, 1, Acknowledged);
  }

  lemma TwoLives(log: Log, s1: Session, s2: Session, e1: seq<Event>, e2: seq<Event>)
    requires SessionEvents(log, [], s1) == e1 && SessionEvents(log, e1, s2) == e2
    requires s1.dies > |e1| && s2.dies > |e2|
    ensures Lifetime(log, [s1, s2]) == e2
  {
    assert [s1, s2][..1] == [s1] && [s1][..0] == [];
    assert Lifetime(log, [s1]) == e1;
  }

  /** One partition with two poisoned messages. */
  function TwoBad(): Log {
    var bad := Record(Message(1, NotJson));
    map[0 := [bad, bad]]
  }

  /** A life that polls `n` of them and commits past them. */
  function StaleSession(n: nat, out: CommitOutcome): Session {
    var db := DbOutcome({}, DbOk, [], 0);
    Session([Turn(false, [(0, n)], false, db, [], Acknowledged, out, Acknowledged)], db, Acknowledged, 1000)
  }

  lemma StaleSessionEvents(ev: seq<Event>, n: nat, out: CommitOutcome)
    requires 1 <= n <= 2 && Committed(ev) == map[]
    ensures SessionEvents(TwoBad(), ev, StaleSession(n, out)) ==
      ev + [Commit(map[0 := n], if out.Acknowledged? then {0} else out.applied)]
  {
    var log, t := TwoBad(), StaleSession(n, out).turns[0];
    var b := Boot(ev);
    var p := StalePoll(b, n);
    assert t.fetch[0] == (0, n) && t.fetch[1..] == [];
    assert Poll(log, b, t.fetch) == Poll(log, p, []) == p;
    StaleTurn(log, b, p, t, n);
    RunCons(log, b, t, []);
    assert [t] + [] == [t];
    assert (map[0 := n]).Keys == {0};
  }

  lemma StalePoll(b: State, n: nat) returns (p: State)
    requires 1 <= n <= 2 && b.batch == [] && b.observed == map[] && b.acked == map[] && b.position == map[]
    ensures p == Fetch(TwoBad(), b, 0, n)
    ensures p.batch == [] && p.observed == map[0 := n] && p.acked == map[] && p.events == b.events
  {
    var log := TwoBad();
    var r := Receive(b, 0, 0, log[0][0]);
    p := if n == 2 then Receive(r, 0, 1, log[0][1]) else r;
    assert Fetch(log, p, 0, n) == p && Fetch(log, r, 0, n) == p;
  }

  lemma StaleTurn(log: Log, b: State, p: State, t: Turn, n: nat)
    requires b.batch == [] && !t.pollRaises && !t.timerDue && Poll(log, b, t.fetch) == p
    requires p.batch == [] && p.observed == map[0 := n] && p.acked == map[]
    ensures Step(log, b, t).batch == [] && Step(log, b, t).events == Offer(p, map[0 := n], t.stale).events
  {
    var m := StaleOffsets(p);
    assert m == map[0 := n] && 0 in m;
    assert Polled(log, b, t) == p && !FlushDue(p, t);
    assert CommitStale(p, t.stale).events == Offer(p, m, t.stale).events;
  }

  /** A session only adds effects. */
  lemma SessionExtends(log: Log, before: seq<Event>, s: Session)
    ensures before <= SessionEvents(log, before, s)
  {
    var st := Run(log, Boot(before), s.turns);
    RunExtends(log, Boot(before), s.turns);
    DrainExtends(st, s.db, s.last);
    PrefixTrans(before, st.events, Drain(st, s.db, s.last).events);
  }

  lemma DrainExtends(st: State, db: DbOutcome, out: CommitOutcome)
    ensures st.events <= Drain(st, db, out).events
  {
    ProcessBatchExtends(st, db);
    PrefixTrans(st.events, ProcessBatch(st, db).0.events,
      Offer(ProcessBatch(st, db).0, ProcessBatch(st, db).1, out).events);
  }

  lemma {:induction false} CommitWithRetriesExtends(st: State, m: map<Partition, nat>, t: Turn, n: nat)
    ensures st.events <= CommitWithRetries(st, m, t, n).events
    decreases MAX_COMMIT_RETRIES - n
  {
    if n >= MAX_COMMIT_RETRIES || t.Attempt(n).Acknowledged? {
    } else {
      CommitWithRetriesExtends(Offer(st, m, t.Attempt(n)), m, t, n + 1);
    }
  }

  lemma {:induction false} FetchReadsOnly(log: Log, st: State, tp: Partition, upto: nat)
    ensures Fetch(log, st, tp, upto).events == st.events
    decreases upto - At(st.position, tp)
  {
    var o := At(st.position, tp);
    if tp !in log || o >= upto || o >= |log[tp]| {
    } else {
      FetchReadsOnly(log, Receive(st, tp, o, log[tp][o]), tp, upto);
    }
  }

  lemma {:induction false} PollReadsOnly(log: Log, st: State, fetch: seq<(Partition, nat)>)
    ensures Poll(log, st, fetch).events == st.events
    decreases |fetch|
  {
    if fetch == [] {
    } else {
      FetchReadsOnly(log, st, fetch[0].0, fetch[0].1);
      PollReadsOnly(log, Fetch(log, st, fetch[0].0, fetch[0].1), fetch[1..]);
    }
  }

  lemma ProcessBatchExtends(st: State, db: DbOutcome)
    ensures st.events <= ProcessBatch(st, db).0.events
  {
  }

  lemma CountFailureExtends(st: State, reason: Reason, out: CommitOutcome)
    ensures st.events <= CountFailure(st, reason, out).events
  {
  }

  lemma FlushExtends(st: State, t: Turn)
    ensures st.events <= Flush(st, t).events
  {
    var (done, offsets) := ProcessBatch(st, t.db);
    ProcessBatchExtends(st, t.db);
    CommitWithRetriesExtends(done, offsets, t, 0);
    CountFailureExtends(done, DatabaseThreshold, t.evacuation);
    PrefixTrans(st.events, done.events, Flush(st, t).events);
  }

  lemma PrefixTrans<T>(a: seq<T>, b: seq<T>, c: seq<T>)
    requires a <= b && b <= c
    ensures a <= c
  {
  }

  lemma StepExtends(log: Log, st: State, t: Turn)
    ensures st.events <= Step(log, st, t).events
  {
    PollReadsOnly(log, st, t.fetch);
    var polled := Polled(log, st, t);
    FlushExtends(polled, t);
    TailExtends(if FlushDue(polled, t) then Flush(polled, t) else polled, t);
  }

  lemma TailExtends(st: State, t: Turn)
    ensures st.events <= PanicGuard(CommitStale(st, t.stale), t.panic).events
  {
    assert st.events <= CommitStale(st, t.stale).events;
  }

  lemma {:induction false} RunExtends(log: Log, st: State, ts: seq<Turn>)
    ensures st.events <= Run(log, st, ts).events
  {
    if ts == [] {
    } else {
      RunExtends(log, st, ts[..|ts|-1]);
      StepExtends(log, Run(log, st, ts[..|ts|-1]), ts[|ts|-1]);
    }
  }

  /** No commit moves a committed offset back. */
  ghost predicate CommitsAdvance(ev: seq<Event>) {
    forall n, tp :: 0 <= n < |ev| && ev[n].Commit? && tp in ev[n].offsets ==>
      At(Committed(ev[..n]), tp) <= ev[n].offsets[tp]
  }

  lemma {:induction false} CommittedBelowFloor(ev: seq<Event>, base: nat, n: nat, tp: Partition)
    requires base <= n <= |ev| && Rising(ev, base)
    ensures At(Committed(ev[..n]), tp) <= At(Floor(ev[..n], base), tp)
    decreases n
  {
    if n == base {
      assert ev[..n][..base] == ev[..n];
    } else {
      CommittedBelowFloor(ev, base, n - 1, tp);
      assert ev[..n] == ev[..n-1] + [ev[n-1]];
      FloorExtend(ev[..n-1], ev[n-1], base);
      Extend(ev[..n-1], ev[n-1]);
      FloorRises(ev, base, n - 1, n, tp);
    }
  }

  lemma SessionCommitsAdvance(before: seq<Event>, after: seq<Event>)
    requires CommitsAdvance(before) && before <= after && Rising(after, |before|)
    ensures CommitsAdvance(after)
  {
    forall n, tp | 0 <= n < |after| && after[n].Commit? && tp in after[n].offsets
      ensures At(Committed(after[..n]), tp) <= after[n].offsets[tp]
    {
      if n < |before| {
        assert after[..n] == before[..n] && after[n] == before[n];
      } else {
        CommittedBelowFloor(after, |before|, n, tp);
      }
    }
  }

  lemma PrefixCommitsAdvance(ev: seq<Event>, n: nat)
    requires CommitsAdvance(ev) && n <= |ev|
    ensures CommitsAdvance(ev[..n])
  {
    forall k | 0 <= k < n ensures ev[..n][..k] == ev[..k] && ev[..n][k] == ev[k] {}
  }

  lemma {:induction false} LifetimeCommitsAdvance(log: Log, ss: seq<Session>)
    ensures CommitsAdvance(Lifetime(log, ss))
  {
    if ss == [] {
    } else {
      var before, s := Lifetime(log, ss[..|ss|-1]), ss[|ss|-1];
      LifetimeCommitsAdvance(log, ss[..|ss|-1]);
      LifetimeThroughout(log, ss[..|ss|-1]);
      SessionInv(log, before, s);
      SessionExtends(log, before, s);
      var after := SessionEvents(log, before, s);
      SessionCommitsAdvance(before, after);
      if |before| <= s.dies <= |after| {
        PrefixCommitsAdvance(after, s.dies);
      }
    }
  }

  lemma {:induction false} CommittedRises(ev: seq<Event>, m: nat, n: nat, tp: Partition)
    requires m <= n <= |ev| && CommitsAdvance(ev)
    ensures At(Committed(ev[..m]), tp) <= At(Committed(ev[..n]), tp)
    decreases n - m
  {
    if m == n {
    } else {
      CommittedRisesOnce(ev, m, tp);
      CommittedRises(ev, m + 1, n, tp);
    }
  }

  lemma CommittedRisesOnce(ev: seq<Event>, n: nat, tp: Partition)
    requires n < |ev| && CommitsAdvance(ev)
    ensures At(Committed(ev[..n]), tp) <= At(Committed(ev[..n+1]), tp)
  {
    assert ev[..n+1] == ev[..n] + [ev[n]];
    Extend(ev[..n], ev[n]);
  }

  /** The broker's committed offset of every partition never decreases, over every lifetime. */
  lemma CommittedNeverDecreases(log: Log, ss: seq<Session>, m: nat, n: nat, tp: Partition)
    requires m <= n <= |Lifetime(log, ss)|
    ensures At(Committed(Lifetime(log, ss)[..m]), tp) <= At(Committed(Lifetime(log, ss)[..n]), tp)
  {
    LifetimeCommitsAdvance(log, ss);
    CommittedRises(Lifetime(log, ss), m, n, tp);
  }

  lemma AppliedThenOffered(ev: seq<Event>, i: nat, j: nat, tp: Partition)
    requires CommitsAdvance(ev) && i < j < |ev| && ev[i].Commit? && tp in ev[i].offsets && tp in ev[i].applied
    requires ev[j].Commit? && tp in ev[j].offsets
    ensures ev[i].offsets[tp] <= ev[j].offsets[tp]
  {
    assert ev[..i+1] == ev[..i] + [ev[i]];
    Extend(ev[..i], ev[i]);
    CommittedRises(ev, i + 1, j, tp);
  }

  /** Across crashes too, no offer is below an earlier one that the broker applied: what drops was lost. */
  lemma AppliedOffersStand(log: Log, ss: seq<Session>, ev: seq<Event>, i: nat, j: nat, tp: Partition)
    requires ev == Lifetime(log, ss) && i < j < |ev|
    requires ev[i].Commit? && tp in ev[i].offsets && tp in ev[i].applied
    requires ev[j].Commit? && tp in ev[j].offsets
    ensures ev[i].offsets[tp] <= ev[j].offsets[tp]
  {
    LifetimeCommitsAdvance(log, ss);
    AppliedThenOffered(ev, i, j, tp);
  }

  /** After a turn that ends with an empty batch and an acknowledged stale commit, nothing observed is
      left uncommitted. */
  lemma StaleCommitCatchesUp(log: Log, st: State, out: CommitOutcome, base: nat, tp: Partition)
    requires Inv(log, st, base) && st.batch == [] && out.Acknowledged? && tp in st.observed
    ensures At(Committed(CommitStale(st, out).events), tp) == st.observed[tp]
    ensures StaleOffsets(CommitStale(st, out)) == map[]
  {
    CommitStaleKeepsInv(log, st, out, base);
    StaleIsAcked(st, out, tp);
    CaughtUp(CommitStale(st, out), base, tp);
  }

  lemma StaleIsAcked(st: State, out: CommitOutcome, tp: Partition)
    requires st.batch == [] && out.Acknowledged? && tp in st.observed
    ensures var next := CommitStale(st, out);
      && next.observed == st.observed && StaleOffsets(next) == map[]
      && tp in next.acked && st.observed[tp] <= next.acked[tp]
  {
    var m := StaleOffsets(st);
    assert m != map[] || tp !in m;
  }

  lemma CaughtUp(st: State, base: nat, tp: Partition)
    requires base <= |st.events| && Ordered(st, base) && tp in st.acked && tp in st.observed &&
      st.observed[tp] <= st.acked[tp]
    ensures At(Committed(st.events), tp) == st.observed[tp]
  {
    var c, f, batched, offers := Committed(st.events), Floor(st.events, base), MaxOffsets(st.batch),
      Offers(st.events, base);
    assert OrderedAt(At(c, tp), At(f, tp), At(st.position, tp), st.observed, batched, st.acked, offers, tp);
  }

  /** A turn that flushes and meets no fault leaves nothing behind: the batch is empty, the failure
      count is reset, and every partition observed so far is committed up to its watermark. */
  lemma CleanTurnCommitsEverything(log: Log, st: State, t: Turn, base: nat, tp: Partition)
    requires Inv(log, st, base) && FlushDue(Polled(log, st, t), t)
    requires t.db.commit.DbOk? && t.Attempt(0).Acknowledged? && t.stale.Acknowledged?
    ensures var next := Step(log, st, t);
      && next.batch == [] && next.failures == 0 && next.observed == Polled(log, st, t).observed
      && (tp in next.observed ==> At(Committed(next.events), tp) == next.observed[tp])
  {
    PollKeepsInv(log, st, t.fetch, base);
    CleanTail(log, Polled(log, st, t), t, base, tp);
  }

  lemma CleanTail(log: Log, polled: State, t: Turn, base: nat, tp: Partition)
    requires Inv(log, polled, base) && polled.batch != []
    requires t.db.commit.DbOk? && t.Attempt(0).Acknowledged? && t.stale.Acknowledged?
    ensures var next := PanicGuard(CommitStale(Flush(polled, t), t.stale), t.panic);
      && next.batch == [] && next.failures == 0 && next.observed == polled.observed
      && (tp in next.observed ==> At(Committed(next.events), tp) == next.observed[tp])
  {
    FlushKeepsInv(log, polled, t, base);
    CleanFlush(polled, t);
    if tp in polled.observed {
      StaleCommitCatchesUp(log, Flush(polled, t), t.stale, base, tp);
    }
  }

  lemma CleanFlush(st: State, t: Turn)
    requires st.batch != [] && t.db.commit.DbOk? && t.Attempt(0).Acknowledged?
    ensures Flush(st, t).batch == [] && Flush(st, t).failures == 0 && Flush(st, t).observed == st.observed
  {
    MaxOffsetsIsLeastBound(st.batch);
    assert st.batch[0].tp in MaxOffsets(st.batch);
  }

  /* ---- Progress ---- */

  ghost predicate LoopHead(st: State) {
    st.failures < MAX_CONSECUTIVE_FAILURES && |st.batch| < PANIC_BATCH_SIZE
  }

  lemma {:induction false} CommitWithRetriesOutcome(st: State, m: map<Partition, nat>, t: Turn, n: nat)
    requires st.failures < MAX_CONSECUTIVE_FAILURES
    ensures var next := CommitWithRetries(st, m, t, n);
      || (next.batch == [] && next.failures == 0)
      || (next.batch == st.batch && next.failures == st.failures + 1 < MAX_CONSECUTIVE_FAILURES)
    decreases MAX_COMMIT_RETRIES - n
  {
    if n >= MAX_COMMIT_RETRIES || t.Attempt(n).Acknowledged? {
    } else {
      CommitWithRetriesOutcome(Offer(st, m, t.Attempt(n)), m, t, n + 1);
    }
  }

  lemma FlushOutcome(st: State, t: Turn)
    requires st.failures < MAX_CONSECUTIVE_FAILURES
    ensures var next := Flush(st, t);
      || (next.batch == [] && next.failures == 0)
      || (next.batch == st.batch && next.failures == st.failures + 1 < MAX_CONSECUTIVE_FAILURES)
  {
    var (done, offsets) := ProcessBatch(st, t.db);
    if offsets != map[] {
      CommitWithRetriesOutcome(done, offsets, t, 0);
    }
  }

  lemma {:induction false} PollKeepsFailures(log: Log, st: State, fetch: seq<(Partition, nat)>)
    ensures Poll(log, st, fetch).failures == st.failures
    decreases |fetch|
  {
    if fetch == [] {
    } else {
      FetchKeepsFailures(log, st, fetch[0].0, fetch[0].1);
      PollKeepsFailures(log, Fetch(log, st, fetch[0].0, fetch[0].1), fetch[1..]);
    }
  }

  lemma {:induction false} FetchKeepsFailures(log: Log, st: State, tp: Partition, upto: nat)
    ensures Fetch(log, st, tp, upto).failures == st.failures
    decreases upto - At(st.position, tp)
  {
    var o := At(st.position, tp);
    if tp !in log || o >= upto || o >= |log[tp]| {
    } else {
      FetchKeepsFailures(log, Receive(st, tp, o, log[tp][o]), tp, upto);
    }
  }

  lemma StepKeepsLoopHead(log: Log, st: State, t: Turn)
    requires LoopHead(st)
    ensures LoopHead(Step(log, st, t))
  {
    PollKeepsFailures(log, st, t.fetch);
    FlushOutcome(Polled(log, st, t), t);
  }

  /** At every loop head the failure counter is below its threshold and the batch below the panic
      guard, however much one poll returns. */
  lemma {:induction false} RunKeepsLoopHead(log: Log, ev: seq<Event>, ts: seq<Turn>)
    ensures LoopHead(Run(log, Boot(ev), ts))
    ensures Run(log, Boot(ev), ts).failures < 5 && |Run(log, Boot(ev), ts).batch| < 500
  {
    if ts == [] {
    } else {
      RunKeepsLoopHead(log, ev, ts[..|ts|-1]);
      StepKeepsLoopHead(log, Run(log, Boot(ev), ts[..|ts|-1]), ts[|ts|-1]);
    }
  }

  /** At capacity a turn polls nothing, and ends with the batch empty or with the same batch and one
      more failure counted. */
  lemma FullTurn(log: Log, st: State, t: Turn)
    requires LoopHead(st) && |st.batch| >= MAX_BATCH_SIZE
    ensures Polled(log, st, t) == st
    ensures var next := Step(log, st, t);
      || (next.batch == [] && next.failures == 0)
      || (next.batch == st.batch && next.failures == st.failures + 1 < MAX_CONSECUTIVE_FAILURES)
  {
    FlushOutcome(st, t);
  }

  lemma OneTurnLess(log: Log, st: State, t: Turn, next: State)
    requires LoopHead(st) && |st.batch| >= MAX_BATCH_SIZE && next == Step(log, st, t)
    ensures next.batch == [] ||
      (LoopHead(next) && |next.batch| >= MAX_BATCH_SIZE && next.failures == st.failures + 1)
  {
    FullTurn(log, st, t);
  }

  /** From any loop head at capacity the batch is emptied within `5 - failures` turns, whatever the
      database and the broker do. */
  lemma {:induction false} FullBatchIsEmptied(log: Log, st: State, ts: seq<Turn>) returns (n: nat)
    requires LoopHead(st) && |st.batch| >= MAX_BATCH_SIZE && |ts| >= MAX_CONSECUTIVE_FAILURES - st.failures
    ensures 1 <= n <= MAX_CONSECUTIVE_FAILURES - st.failures && Run(log, st, ts[..n]).batch == []
    decreases MAX_CONSECUTIVE_FAILURES - st.failures
  {
    var next := Step(log, st, ts[0]);
    OneTurnLess(log, st, ts[0], next);
    var k := 0;
    if next.batch != [] {
      k := FullBatchIsEmptied(log, next, ts[1..]);
    }
    n := k + 1;
    EmptiedLater(log, st, ts, next, k, n);
  }

  lemma EmptiedLater(log: Log, st: State, ts: seq<Turn>, next: State, k: nat, n: nat)
    requires k < |ts| && n == k + 1 && next == Step(log, st, ts[0])
    requires if k == 0 then next.batch == [] else Run(log, next, ts[1..][..k]).batch == []
    ensures Run(log, st, ts[..n]).batch == []
  {
    TakeCons(ts, k);
    RunCons(log, st, ts[0], ts[1..][..k]);
  }

  lemma TakeCons<T>(s: seq<T>, k: nat)
    requires k < |s|
    ensures s[..k+1] == [s[0]] + s[1..][..k] && (k == 0 ==> s[1..][..k] == [])
  {
  }

  lemma {:induction false} RunCons(log: Log, st: State, t: Turn, ts: seq<Turn>)
    ensures Run(log, st, [t] + ts) == Run(log, Step(log, st, t), ts)
  {
    var all := [t] + ts;
    if ts == [] {
      assert all[..0] == [] && all[0] == t;
      assert Run(log, st, all) == Step(log, Run(log, st, all[..0]), t);
    } else {
      assert all[..|all|-1] == [t] + ts[..|ts|-1];
      RunCons(log, st, t, ts[..|ts|-1]);
    }
  }
}
