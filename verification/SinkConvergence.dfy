/** Every lifetime of the sink is orderly in the sense of SinkReplay: it upserts overlapping stretches of a
    single pass over the partition. */
module SinkConvergence {
  import opened AlertTable
  import opened SinkModel
  import opened SinkSteps
  import opened SinkGuarantees
  import opened SinkReplay

  /** Where the batch begins, when `position` was read last. */
  function Start(batch: seq<Item>, position: nat): nat {
    if batch == [] then position else batch[0].offset
  }

  /** The batch is what was read from `Start` on, and what came before it is upserted. */
  ghost predicate TidyAt(slots: seq<Slot>, p: Partition, batch: seq<Item>, position: nat, observed: map<Partition, nat>,
                         committed: nat, lastHi: nat)
  {
    && Start(batch, position) <= position
    && batch == Read(slots, p, Start(batch, position), position)
    && (forall tp :: tp in observed ==> tp == p && observed[tp] <= position)
    && committed <= position
    && Count(slots, p, Start(batch, position)) <= lastHi
  }

  ghost predicate Tidy(slots: seq<Slot>, p: Partition, st: State) {
    TidyAt(slots, p, st.batch, At(st.position, p), st.observed, At(Committed(st.events), p),
      LastHi(slots, p, st.events))
  }

  ghost predicate Kempt(slots: seq<Slot>, p: Partition, st: State) {
    Orderly(slots, p, st.events) && (!Evacuated(st.events) ==> Tidy(slots, p, st))
  }

  /** Everything read so far is upserted. */
  ghost predicate Caught(slots: seq<Slot>, p: Partition, st: State) {
    && Orderly(slots, p, st.events) && !Evacuated(st.events) && Tidy(slots, p, st)
    && Count(slots, p, At(st.position, p)) <= LastHi(slots, p, st.events)
  }

  /* ---- Poll ---- */

  lemma ReadOneMore(slots: seq<Slot>, p: Partition, batch: seq<Item>, o: nat)
    requires o < |slots| && Start(batch, o) <= o && batch == Read(slots, p, Start(batch, o), o)
    ensures var next := if Reads(slots[o]) then batch + [Item(slots[o].msg.body, p, o)] else batch;
      && Start(next, o + 1) <= o + 1
      && next == Read(slots, p, Start(next, o + 1), o + 1)
      && Count(slots, p, Start(next, o + 1)) == Count(slots, p, Start(batch, o))
  {
    if batch == [] {
      assert Read(slots, p, o, o) == [] && Read(slots, p, o + 1, o + 1) == [];
    }
  }

  lemma TidyAtNext(slots: seq<Slot>, p: Partition, batch: seq<Item>, o: nat, observed: map<Partition, nat>,
                   committed: nat, lastHi: nat)
    requires TidyAt(slots, p, batch, o, observed, committed, lastHi) && o < |slots|
    ensures TidyAt(slots, p, if Reads(slots[o]) then batch + [Item(slots[o].msg.body, p, o)] else batch, o + 1,
                   if slots[o].Record? then Bump(observed, p, o) else observed, committed, lastHi)
  {
    ReadOneMore(slots, p, batch, o);
  }

  lemma ReceiveKeepsTidy(slots: seq<Slot>, p: Partition, st: State)
    requires Tidy(slots, p, st) && At(st.position, p) < |slots|
    ensures Tidy(slots, p, Receive(st, p, At(st.position, p), slots[At(st.position, p)]))
  {
    var o := At(st.position, p);
    TidyAtNext(slots, p, st.batch, o, st.observed, At(Committed(st.events), p), LastHi(slots, p, st.events));
    var next := Receive(st, p, o, slots[o]);
    assert At(next.position, p) == o + 1 && next.events == st.events;
    assert next.observed == if slots[o].Record? then Bump(st.observed, p, o) else st.observed;
  }

  lemma {:induction false} FetchKeepsTidy(log: Log, p: Partition, st: State, tp: Partition, upto: nat)
    requires log.Keys <= {p} && Tidy(Slots(log, p), p, st)
    ensures Tidy(Slots(log, p), p, Fetch(log, st, tp, upto))
    decreases upto - At(st.position, tp)
  {
    var o := At(st.position, tp);
    if tp !in log || o >= upto || o >= |log[tp]| {
    } else {
      assert tp in log.Keys;
      ReceiveKeepsTidy(Slots(log, p), p, st);
      FetchKeepsTidy(log, p, Receive(st, tp, o, log[tp][o]), tp, upto);
    }
  }

  lemma {:induction false} PollKeepsTidy(log: Log, p: Partition, st: State, fetch: seq<(Partition, nat)>)
    requires log.Keys <= {p} && Tidy(Slots(log, p), p, st)
    ensures Tidy(Slots(log, p), p, Poll(log, st, fetch))
    decreases |fetch|
  {
    if fetch == [] {
    } else {
      FetchKeepsTidy(log, p, st, fetch[0].0, fetch[0].1);
      PollKeepsTidy(log, p, Fetch(log, st, fetch[0].0, fetch[0].1), fetch[1..]);
    }
  }

  /* ---- process_batch ---- */

  /** Isolating items to the dead-letter queue and losing sequence values moves neither the stretches nor
      the commits. */
  lemma {:induction false} QuietEffectsAreOrderly(slots: seq<Slot>, p: Partition, ev: seq<Event>, es: seq<Event>)
    requires Orderly(slots, p, ev) && !Evacuated(ev)
    requires forall e :: e in es ==> e.Burnt? || (e.Dlq? && e.reason == ItemFailed)
    ensures Orderly(slots, p, ev + es) && !Evacuated(ev + es)
    ensures LastHi(slots, p, ev + es) == LastHi(slots, p, ev) && Committed(ev + es) == Committed(ev)
  {
    if es == [] {
      assert ev + es == ev;
    } else {
      var init, e := es[..|es|-1], es[|es|-1];
      assert ev + es == (ev + init) + [e];
      QuietEffectsAreOrderly(slots, p, ev, init);
      assert e in es;
      OrderlyExtend(slots, p, ev + init, e);
      Extend(ev + init, e);
      StretchesExtend(slots, p, ev + init, e);
    }
  }

  lemma {:induction false} RejectionsAreItemFailures(items: seq<Item>, fails: set<nat>)
    ensures forall e :: e in Rejections(items, fails) ==> e.Dlq? && e.reason == ItemFailed
  {
    if items == [] {
    } else {
      RejectionsAreItemFailures(items[..|items|-1], fails);
    }
  }

  lemma {:induction false} PastTheEnd(slots: seq<Slot>, p: Partition, hi: nat)
    requires hi >= |slots|
    ensures Written(slots, p, hi) == Written(slots, p, |slots|)
    decreases hi
  {
    if hi <= |slots| {
    } else {
      PastTheEnd(slots, p, hi - 1);
    }
  }

  lemma WrittenIsPrefix(slots: seq<Slot>, p: Partition, hi: nat)
    ensures Count(slots, p, hi) <= Count(slots, p, |slots|)
    ensures Written(slots, p, |slots|)[..Count(slots, p, hi)] == Written(slots, p, hi)
  {
    if hi <= |slots| {
      CountGrows(slots, p, hi, |slots|);
    } else {
      PastTheEnd(slots, p, hi);
    }
  }

  /** The survivors of the batch are a stretch of the single pass that ends at the read position. */
  lemma SurvivorsAreAStretch(slots: seq<Slot>, p: Partition, lo: nat, hi: nat)
    requires lo <= hi && Survivors(Read(slots, p, lo, hi), {}) != []
    ensures var s := Survivors(Read(slots, p, lo, hi), {});
      && StretchOf(slots, p, s) == Range(Count(slots, p, lo), Count(slots, p, hi))
      && Count(slots, p, lo) <= Count(slots, p, hi) <= Count(slots, p, |slots|)
      && s == Written(slots, p, |slots|)[Count(slots, p, lo)..Count(slots, p, hi)]
  {
    var s, a, all := Survivors(Read(slots, p, lo, hi), {}), Written(slots, p, lo), Written(slots, p, |slots|);
    SurvivorsOfRead(slots, p, lo, hi);
    FirstSurvivor(slots, p, lo, hi, s);
    WrittenIsPrefix(slots, p, hi);
    MiddleSlice(all, a, s);
  }

  lemma FirstSurvivor(slots: seq<Slot>, p: Partition, lo: nat, hi: nat, s: seq<Item>)
    requires s != [] && Written(slots, p, hi) == Written(slots, p, lo) + s
    ensures Count(slots, p, s[0].offset) == Count(slots, p, lo)
  {
    PlaceOf(slots, p, hi, Count(slots, p, lo));
  }

  lemma MiddleSlice(all: seq<Item>, a: seq<Item>, b: seq<Item>)
    requires |a| + |b| <= |all| && all[..|a| + |b|] == a + b
    ensures b == all[|a|..|a| + |b|]
  {
    assert all[|a|..|a| + |b|] == all[..|a| + |b|][|a|..];
  }

  /* ---- Effects on the state ---- */

  /** Storing the survivors of the batch is orderly, and catches up with everything read. */
  lemma StoreSurvivors(slots: seq<Slot>, p: Partition, st: State, s: seq<Item>, gaps: seq<nat>)
    requires Orderly(slots, p, st.events) && !Evacuated(st.events) && Tidy(slots, p, st)
    requires s == Survivors(st.batch, {})
    ensures var ev := st.events + [Stored(s, gaps)];
      && Orderly(slots, p, ev) && !Evacuated(ev) && Committed(ev) == Committed(st.events)
      && LastHi(slots, p, ev) >= Count(slots, p, At(st.position, p))
  {
    var lo, hi := Start(st.batch, At(st.position, p)), At(st.position, p);
    SurvivorsComeNext(slots, p, lo, hi, st.events, s, gaps);
    OrderlyExtend(slots, p, st.events, Stored(s, gaps));
    Extend(st.events, Stored(s, gaps));
    LastHiExtend(slots, p, st.events, Stored(s, gaps));
  }

  lemma SurvivorsComeNext(slots: seq<Slot>, p: Partition, lo: nat, hi: nat, ev: seq<Event>, s: seq<Item>,
                          gaps: seq<nat>)
    requires lo <= hi && s == Survivors(Read(slots, p, lo, hi), {})
    requires Count(slots, p, lo) <= LastHi(slots, p, ev) && At(Committed(ev), p) <= hi
    ensures OrderlyNext(slots, p, ev, Stored(s, gaps))
    ensures if s == [] then Count(slots, p, hi) <= LastHi(slots, p, ev)
      else StretchOf(slots, p, s).hi == Count(slots, p, hi)
  {
    SurvivorsOfRead(slots, p, lo, hi);
    if s != [] {
      SurvivorsAreAStretch(slots, p, lo, hi);
      CountGrows(slots, p, At(Committed(ev), p), hi);
    }
  }

  lemma RejectionsKeepTidy(slots: seq<Slot>, p: Partition, st: State)
    requires Orderly(slots, p, st.events) && !Evacuated(st.events) && Tidy(slots, p, st)
    ensures var rejected := st.(events := st.events + Rejections(st.batch, {}));
      Orderly(slots, p, rejected.events) && !Evacuated(rejected.events) && Tidy(slots, p, rejected)
  {
    RejectionsAreItemFailures(st.batch, {});
    QuietEffectsAreOrderly(slots, p, st.events, Rejections(st.batch, {}));
  }

  lemma StoreCatches(slots: seq<Slot>, p: Partition, st: State, gaps: seq<nat>, table: Table)
    requires Orderly(slots, p, st.events) && !Evacuated(st.events) && Tidy(slots, p, st)
    ensures Caught(slots, p, st.(events := st.events + [Stored(Survivors(st.batch, {}), gaps)], table := table))
  {
    StoreSurvivors(slots, p, st, Survivors(st.batch, {}), gaps);
    CountGrows(slots, p, Start(st.batch, At(st.position, p)), At(st.position, p));
  }

  lemma BurntIsQuiet(slots: seq<Slot>, p: Partition, st: State, lost: nat, table: Table)
    requires Orderly(slots, p, st.events) && !Evacuated(st.events) && Tidy(slots, p, st)
    ensures var undone := st.(events := st.events + [Burnt(lost)], table := table);
      Orderly(slots, p, undone.events) && !Evacuated(undone.events) && Tidy(slots, p, undone)
  {
    QuietEffectsAreOrderly(slots, p, st.events, [Burnt(lost)]);
  }

  /** Either nothing was stored and the batch stays as it is, or everything read so far is upserted;
      offsets are offered in the second case only. */
  lemma ProcessBatchIsOrderly(slots: seq<Slot>, p: Partition, st: State, db: DbOutcome)
    requires Orderly(slots, p, st.events) && !Evacuated(st.events) && Tidy(slots, p, st) && db.flushFails == {}
    ensures var (done, offsets) := ProcessBatch(st, db);
      && done.batch == st.batch && done.position == st.position
      && Orderly(slots, p, done.events) && !Evacuated(done.events) && Tidy(slots, p, done)
      && (offsets != map[] ==> Caught(slots, p, done) && offsets == MaxOffsets(st.batch))
  {
    RejectionsKeepTidy(slots, p, st);
    var rejected := st.(events := st.events + Rejections(st.batch, {}));
    StoreCatches(slots, p, rejected, db.gaps, UpsertSpread(st.table, Writes(Survivors(st.batch, {})), db.gaps));
    BurntIsQuiet(slots, p, rejected, db.burnt, Skip(st.table, db.burnt));
  }

  /* ---- Offers ---- */

  /** An offer of this partition only, up to the read position at most. */
  ghost predicate WithinRead(p: Partition, m: map<Partition, nat>, position: nat) {
    forall tp :: tp in m ==> tp == p && m[tp] <= position
  }

  lemma BatchWithinRead(slots: seq<Slot>, p: Partition, st: State)
    requires Tidy(slots, p, st)
    ensures WithinRead(p, MaxOffsets(st.batch), At(st.position, p))
  {
    MaxOffsetsIsLeastBound(st.batch);
    ReadBounds(slots, p, Start(st.batch, At(st.position, p)), At(st.position, p));
    forall tp | tp in MaxOffsets(st.batch) ensures tp == p && MaxOffsets(st.batch)[tp] <= At(st.position, p) {
      var k :| 0 <= k < |st.batch| && st.batch[k].tp == tp && MaxOffsets(st.batch)[tp] == st.batch[k].offset + 1;
      assert st.batch[k] in st.batch;
    }
  }

  lemma OfferIsReached(slots: seq<Slot>, p: Partition, st: State, m: map<Partition, nat>, applied: set<Partition>)
    requires WithinRead(p, m, At(st.position, p)) && Count(slots, p, At(st.position, p)) <= LastHi(slots, p, st.events)
    ensures OrderlyNext(slots, p, st.events, Commit(m, applied))
  {
    forall tp | tp in m ensures Count(slots, p, m[tp]) <= LastHi(slots, p, st.events) {
      CountGrows(slots, p, m[tp], At(st.position, p));
    }
  }

  lemma CommitMovesTo(ev: seq<Event>, m: map<Partition, nat>, applied: set<Partition>, p: Partition)
    ensures var c := At(Committed(ev + [Commit(m, applied)]), p); c == At(Committed(ev), p) || (p in m && c == m[p])
  {
    Extend(ev, Commit(m, applied));
  }

  lemma OfferIsOrderly(slots: seq<Slot>, p: Partition, st: State, m: map<Partition, nat>, out: CommitOutcome)
    requires Caught(slots, p, st) && WithinRead(p, m, At(st.position, p))
    ensures Caught(slots, p, Offer(st, m, out))
  {
    var applied := if out.Acknowledged? then m.Keys else out.applied;
    OfferIsReached(slots, p, st, m, applied);
    OrderlyExtend(slots, p, st.events, Commit(m, applied));
    CommitMovesTo(st.events, m, applied, p);
    StretchesExtend(slots, p, st.events, Commit(m, applied));
  }

  lemma CaughtMayClear(slots: seq<Slot>, p: Partition, st: State, failures: nat, acked: map<Partition, nat>)
    requires Caught(slots, p, st)
    ensures Kempt(slots, p, st.(batch := [], failures := failures, acked := acked))
  {
    assert Read(slots, p, At(st.position, p), At(st.position, p)) == [];
  }

  /* ---- The branches of a turn ---- */

  /** Nothing is asked of what follows the first batch given up on. */
  lemma GivingUpIsOrderly(slots: seq<Slot>, p: Partition, ev: seq<Event>, es: seq<Event>, e: Event)
    requires Orderly(slots, p, ev) && es != [] && IsEvacuation(es[0])
    ensures Orderly(slots, p, ev + es) && Evacuated(ev + es)
    ensures Orderly(slots, p, ev + es + [e]) && Evacuated(ev + es + [e])
  {
    OrderlyPastEvacuation(slots, p, ev, es);
    OrderlyExtend(slots, p, ev + es, e);
  }

  lemma EvacuationIsKempt(slots: seq<Slot>, p: Partition, st: State, reason: Reason, out: CommitOutcome)
    requires Orderly(slots, p, st.events) && st.batch != [] && reason != ItemFailed
    ensures Kempt(slots, p, Evacuate(st, reason, out))
  {
    var m := MaxOffsets(st.batch);
    GivingUpIsOrderly(slots, p, st.events, DlqAll(st.batch, reason),
      Commit(m, if out.Acknowledged? then m.Keys else out.applied));
  }

  lemma CountFailureIsKempt(slots: seq<Slot>, p: Partition, st: State, reason: Reason, out: CommitOutcome)
    requires Kempt(slots, p, st) && st.batch != [] && reason != ItemFailed
    ensures Kempt(slots, p, CountFailure(st, reason, out))
  {
    var counted := st.(failures := st.failures + 1);
    EvacuationIsKempt(slots, p, counted, reason, out);
  }

  lemma {:induction false} CommitWithRetriesIsKempt(slots: seq<Slot>, p: Partition, st: State, m: map<Partition,
                                                    nat>, t: Turn, n: nat)
    requires Caught(slots, p, st) && st.batch != [] && WithinRead(p, m, At(st.position, p))
    ensures Kempt(slots, p, CommitWithRetries(st, m, t, n))
    decreases MAX_COMMIT_RETRIES - n
  {
    if n >= MAX_COMMIT_RETRIES {
      CountFailureIsKempt(slots, p, st, CommitThreshold, t.evacuation);
    } else {
      var offered := Offer(st, m, t.Attempt(n));
      OfferIsOrderly(slots, p, st, m, t.Attempt(n));
      if t.Attempt(n).Acknowledged? {
        CaughtMayClear(slots, p, offered, 0, st.acked + m);
      } else {
        CommitWithRetriesIsKempt(slots, p, offered, m, t, n + 1);
      }
    }
  }

  lemma FlushIsKempt(slots: seq<Slot>, p: Partition, st: State, t: Turn)
    requires Orderly(slots, p, st.events) && !Evacuated(st.events) && Tidy(slots, p, st)
    requires st.batch != [] && t.db.flushFails == {}
    ensures Kempt(slots, p, Flush(st, t))
  {
    ProcessBatchIsOrderly(slots, p, st, t.db);
    BatchWithinRead(slots, p, st);
    var (done, offsets) := ProcessBatch(st, t.db);
    if offsets != map[] {
      CommitWithRetriesIsKempt(slots, p, done, offsets, t, 0);
    } else {
      CountFailureIsKempt(slots, p, done, DatabaseThreshold, t.evacuation);
    }
  }

  lemma CommitStaleIsKempt(slots: seq<Slot>, p: Partition, st: State, out: CommitOutcome)
    requires Kempt(slots, p, st) && !Evacuated(st.events)
    ensures Kempt(slots, p, CommitStale(st, out)) && !Evacuated(CommitStale(st, out).events)
  {
    if st.batch == [] {
      OfferIsOrderly(slots, p, st, StaleOffsets(st), out);
    }
  }

  lemma StillKempt(slots: seq<Slot>, p: Partition, st: State, next: State)
    requires Kempt(slots, p, st) && Evacuated(st.events) && st.events <= next.events
    ensures Kempt(slots, p, next)
  {
    StillOrderly(slots, p, st.events, next.events);
  }

  lemma StillOrderly(slots: seq<Slot>, p: Partition, ev: seq<Event>, next: seq<Event>)
    requires Orderly(slots, p, ev) && Evacuated(ev) && ev <= next
    ensures Orderly(slots, p, next) && Evacuated(next)
  {
    OrderlyPastEvacuation(slots, p, ev, next[|ev|..]);
    assert ev + next[|ev|..] == next;
  }

  lemma TailIsKempt(slots: seq<Slot>, p: Partition, st: State, t: Turn)
    requires Kempt(slots, p, st)
    ensures Kempt(slots, p, PanicGuard(CommitStale(st, t.stale), t.panic))
  {
    if Evacuated(st.events) {
      TailExtends(st, t);
      StillKempt(slots, p, st, PanicGuard(CommitStale(st, t.stale), t.panic));
    } else {
      CommitStaleIsKempt(slots, p, st, t.stale);
      var stale := CommitStale(st, t.stale);
      if |stale.batch| >= PANIC_BATCH_SIZE {
        EvacuationIsKempt(slots, p, stale, BatchPanic, t.panic);
      }
    }
  }

  lemma StepIsKempt(log: Log, p: Partition, st: State, t: Turn)
    requires log.Keys <= {p} && Kempt(Slots(log, p), p, st) && t.db.flushFails == {}
    ensures Kempt(Slots(log, p), p, Step(log, st, t))
  {
    var slots := Slots(log, p);
    if Evacuated(st.events) {
      StepExtends(log, st, t);
      StillKempt(slots, p, st, Step(log, st, t));
    } else {
      PollKeepsTidy(log, p, st, t.fetch);
      PollReadsOnly(log, st, t.fetch);
      var polled := Polled(log, st, t);
      if FlushDue(polled, t) {
        FlushIsKempt(slots, p, polled, t);
      }
      TailIsKempt(slots, p, if FlushDue(polled, t) then Flush(polled, t) else polled, t);
    }
  }

  lemma {:induction false} RunIsKempt(log: Log, p: Partition, st: State, ts: seq<Turn>)
    requires log.Keys <= {p} && Kempt(Slots(log, p), p, st) && forall t :: t in ts ==> t.db.flushFails == {}
    ensures Kempt(Slots(log, p), p, Run(log, st, ts))
  {
    if ts == [] {
    } else {
      RunIsKempt(log, p, st, ts[..|ts|-1]);
      StepIsKempt(log, p, Run(log, st, ts[..|ts|-1]), ts[|ts|-1]);
    }
  }

  lemma DrainIsOrderly(slots: seq<Slot>, p: Partition, st: State, db: DbOutcome, out: CommitOutcome)
    requires Kempt(slots, p, st) && db.flushFails == {}
    ensures Orderly(slots, p, Drain(st, db, out).events)
  {
    if Evacuated(st.events) {
      StillKempt(slots, p, st, Drain(st, db, out));
    } else {
      ProcessBatchIsOrderly(slots, p, st, db);
      BatchWithinRead(slots, p, st);
      var (done, offsets) := ProcessBatch(st, db);
      if offsets != map[] {
        OfferIsOrderly(slots, p, done, offsets, out);
      }
    }
  }

  lemma BootIsKempt(slots: seq<Slot>, p: Partition, ev: seq<Event>)
    requires Orderly(slots, p, ev)
    ensures Kempt(slots, p, Boot(ev))
  {
    if !Evacuated(ev) {
      CommittedIsReached(slots, p, ev);
      assert Read(slots, p, At(Committed(ev), p), At(Committed(ev), p)) == [];
    }
  }

  /* ---- Whole lifetimes ---- */

  /** No savepoint fails for an item that the schema accepts. */
  ghost predicate NoFlushFails(ss: seq<Session>) {
    forall s :: s in ss ==> s.db.flushFails == {} && forall t :: t in s.turns ==> t.db.flushFails == {}
  }

  lemma {:induction false} LifetimeIsOrderly(log: Log, p: Partition, ss: seq<Session>)
    requires log.Keys <= {p} && NoFlushFails(ss)
    ensures Orderly(Slots(log, p), p, Lifetime(log, ss))
  {
    if ss == [] {
    } else {
      var s, before := ss[|ss|-1], Lifetime(log, ss[..|ss|-1]);
      LifetimeIsOrderly(log, p, ss[..|ss|-1]);
      assert s in ss;
      BootIsKempt(Slots(log, p), p, before);
      RunIsKempt(log, p, Boot(before), s.turns);
      DrainIsOrderly(Slots(log, p), p, Run(log, Boot(before), s.turns), s.db, s.last);
      var after := SessionEvents(log, before, s);
      if |before| <= s.dies <= |after| {
        OrderlyPrefix(Slots(log, p), p, after, s.dies);
      }
    }
  }
}
