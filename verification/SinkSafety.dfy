/** Safety of the sink over every run: at-least-once delivery and commit monotonicity, across polls,
    ambiguous commits, evacuations, stale commits, the shutdown drain, crashes and restarts. */
module SinkSafety {
  import opened SinkModel
  import opened SinkSteps

  /* ---- The invariant ---- */

  /** The message at `tp`, `o` was read and is still held in memory only. */
  ghost predicate Pending(log: Log, batch: seq<Item>, tp: Partition, o: nat) {
    && tp in log && o < |log[tp]| && log[tp][o].Record?
    && Item(log[tp][o].msg.body, tp, o) in batch
  }

  /** Everything read so far is covered or pending. */
  ghost predicate ReadsAccounted(log: Log, st: State) {
    forall tp, o: nat :: o < At(st.position, tp) ==> Covered(log, st.events, tp, o) || Pending(log, st.batch, tp, o)
  }

  /** The offsets offered last, partition by partition, in the session that began after `base`
      effects. */
  function Offers(ev: seq<Event>, base: nat): map<Partition, nat>
    requires base <= |ev|
  {
    if |ev| == base then map[]
    else
      var m := Offers(ev[..|ev|-1], base);
      if ev[|ev|-1].Commit? then m + ev[|ev|-1].offsets else m
  }

  /** The same, starting from what was committed when the session began. */
  function Floor(ev: seq<Event>, base: nat): map<Partition, nat>
    requires base <= |ev|
  {
    Committed(ev[..base]) + Offers(ev, base)
  }

  /** No offer of the session is below an earlier one, or below what was committed before it. */
  ghost predicate Rising(ev: seq<Event>, base: nat)
    requires base <= |ev|
  {
    forall n, tp :: base <= n < |ev| && ev[n].Commit? && tp in ev[n].offsets ==>
      At(Floor(ev[..n], base), tp) <= ev[n].offsets[tp]
  }

  /** Where the committed, offered, acknowledged, batched, observed and read offsets of a partition
      stand to each other. */
  ghost predicate OrderedAt(committed: nat, floor: nat, position: nat, observed: map<Partition, nat>,
                            batched: map<Partition, nat>, acked: map<Partition, nat>, offers: map<Partition, nat>,
                            tp: Partition) {
    && committed <= floor <= position
    && (tp in observed ==> floor <= observed[tp] <= position)
    && (tp in batched ==> tp in observed && floor <= batched[tp] <= observed[tp])
    && (tp in acked ==> tp in observed && acked[tp] <= committed)
    && (tp in offers ==> tp in observed)
  }

  ghost predicate Ordered(st: State, base: nat)
    requires base <= |st.events|
  {
    var c, f, batched := Committed(st.events), Floor(st.events, base), MaxOffsets(st.batch);
    var offers := Offers(st.events, base);
    forall tp :: OrderedAt(At(c, tp), At(f, tp), At(st.position, tp), st.observed, batched, st.acked, offers, tp)
  }

  ghost predicate Inv(log: Log, st: State, base: nat) {
    && base <= |st.events|
    && AtLeastOnceThroughout(log, st.events)
    && ReadsAccounted(log, st)
    && Rising(st.events, base)
    && Ordered(st, base)
    && st.table == TableOf(st.events)
  }

  ghost predicate AllKept(st: State) {
    forall i :: i in st.batch ==> Kept(st.events, i)
  }

  /* ---- Effects ---- */

  lemma FloorExtend(ev: seq<Event>, e: Event, base: nat)
    requires base <= |ev|
    ensures Offers(ev + [e], base) == if e.Commit? then Offers(ev, base) + e.offsets else Offers(ev, base)
    ensures Floor(ev + [e], base) == if e.Commit? then Floor(ev, base) + e.offsets else Floor(ev, base)
  {
    assert (ev + [e])[..|ev|] == ev && (ev + [e])[..base] == ev[..base];
  }

  lemma RisingExtend(ev: seq<Event>, e: Event, base: nat)
    requires base <= |ev| && Rising(ev, base)
    requires e.Commit? ==> forall tp :: tp in e.offsets ==> At(Floor(ev, base), tp) <= e.offsets[tp]
    ensures Rising(ev + [e], base)
  {
    var all := ev + [e];
    forall n, tp | base <= n < |all| && all[n].Commit? && tp in all[n].offsets
      ensures At(Floor(all[..n], base), tp) <= all[n].offsets[tp]
    {
      if n < |ev| {
        assert all[..n] == ev[..n] && all[n] == ev[n];
      } else {
        assert all[..n] == ev;
      }
    }
  }

  lemma CoveredExtend(log: Log, ev: seq<Event>, e: Event)
    ensures forall tp, o: nat :: Covered(log, ev, tp, o) ==> Covered(log, ev + [e], tp, o)
  {
    Extend(ev, e);
  }

  /** Storing rows or handing a record to the dead-letter writer moves no offset. */
  lemma QuietEffect(log: Log, st: State, e: Event, base: nat)
    requires Inv(log, st, base) && !e.Commit?
    ensures Inv(log, st.(events := st.events + [e], table := TableOf(st.events + [e])), base)
    ensures forall i :: Kept(st.events, i) ==> Kept(st.events + [e], i)
    ensures e.Dlq? ==> TableOf(st.events + [e]) == st.table
  {
    Extend(st.events, e);
    FloorExtend(st.events, e, base);
    RisingExtend(st.events, e, base);
    CoveredExtend(log, st.events, e);
    assert AtLeastOnce(log, st.events) by { assert st.events[..|st.events|] == st.events; }
    ThroughoutExtend(log, st.events, e);
  }

  lemma {:induction false} QuietEffects(log: Log, st: State, es: seq<Event>, base: nat)
    requires Inv(log, st, base) && forall e :: e in es ==> e.Dlq?
    ensures Inv(log, st.(events := st.events + es), base)
  {
    if es == [] {
      assert st.events + es == st.events;
    } else {
      var init, e := es[..|es|-1], es[|es|-1];
      assert e in es && forall x :: x in init ==> x in es;
      QuietEffects(log, st, init, base);
      var mid := st.(events := st.events + init);
      assert st.events + es == mid.events + [e];
      QuietEffect(log, mid, e, base);
    }
  }

  lemma {:induction false} KeptAfter(ev: seq<Event>, es: seq<Event>)
    ensures forall i :: Kept(ev, i) ==> Kept(ev + es, i)
    ensures forall e :: e in es && e.Dlq? ==> Kept(ev + es, e.item)
  {
    if es == [] {
      assert ev + es == ev;
    } else {
      var init, e := es[..|es|-1], es[|es|-1];
      KeptAfter(ev, init);
      assert ev + es == (ev + init) + [e];
      Extend(ev + init, e);
      NewlyKept(ev + init, e);
      assert es == init + [e];
    }
  }

  /** Every offer of `m` lies between what was offered before and what was observed, and agrees with
      the batch on the partitions the batch has. */
  ghost predicate FairOffer(st: State, m: map<Partition, nat>, base: nat)
    requires base <= |st.events|
  {
    && (forall tp :: tp in m ==> tp in st.observed && At(Floor(st.events, base), tp) <= m[tp] <= st.observed[tp])
    && (forall tp :: tp in m && tp in MaxOffsets(st.batch) ==> m[tp] == MaxOffsets(st.batch)[tp])
  }

  lemma OfferMovesOffsets(st: State, m: map<Partition, nat>, out: CommitOutcome, base: nat)
    requires base <= |st.events|
    ensures Floor(Offer(st, m, out).events, base) == Floor(st.events, base) + m
    ensures Offers(Offer(st, m, out).events, base) == Offers(st.events, base) + m
    ensures forall tp :: (At(Committed(Offer(st, m, out).events), tp) == At(Committed(st.events), tp)
                          || (tp in m && At(Committed(Offer(st, m, out).events), tp) == m[tp]))
    ensures out.Acknowledged? ==> forall tp :: tp in m ==> At(Committed(Offer(st, m, out).events), tp) == m[tp]
  {
    var e := Commit(m, if out.Acknowledged? then m.Keys else out.applied);
    Extend(st.events, e);
    FloorExtend(st.events, e, base);
  }

  lemma OfferOrderedAt(c: nat, f: nat, position: nat, observed: map<Partition, nat>, batched: map<Partition, nat>,
                       acked: map<Partition, nat>, offers: map<Partition, nat>, tp: Partition,
                       m: map<Partition, nat>, c': nat, f': nat)
    requires OrderedAt(c, f, position, observed, batched, acked, offers, tp)
    requires tp in m ==> tp in observed && f <= m[tp] <= observed[tp] && (tp in batched ==> m[tp] == batched[tp])
    requires f' == if tp in m then m[tp] else f
    requires c' == c || (tp in m && c' == m[tp])
    ensures OrderedAt(c', f', position, observed, batched, acked, offers + m, tp)
    ensures tp in m && c' == m[tp] ==> OrderedAt(c', f', position, observed, batched, acked + m, offers + m, tp)
    ensures tp !in m ==> OrderedAt(c', f', position, observed, batched, acked + m, offers + m, tp)
  {
  }

  lemma OfferOrdered(st: State, m: map<Partition, nat>, out: CommitOutcome, base: nat)
    requires base <= |st.events| && Ordered(st, base) && FairOffer(st, m, base)
    ensures Ordered(Offer(st, m, out), base)
    ensures out.Acknowledged? ==> Ordered(Offer(st, m, out).(acked := st.acked + m), base)
  {
    OfferMovesOffsets(st, m, out, base);
    var next := Offer(st, m, out);
    var c, f, offers := Committed(st.events), Floor(st.events, base), Offers(st.events, base);
    var c', f', offers' := Committed(next.events), Floor(next.events, base), Offers(next.events, base);
    var batched := MaxOffsets(st.batch);
    forall tp
      ensures OrderedAt(At(c', tp), At(f', tp), At(st.position, tp), st.observed, batched, st.acked, offers', tp)
      ensures out.Acknowledged? ==>
        OrderedAt(At(c', tp), At(f', tp), At(st.position, tp), st.observed, batched, st.acked + m, offers', tp)
    {
      OfferOrderedAt(At(c, tp), At(f, tp), At(st.position, tp), st.observed, batched, st.acked, offers, tp,
                     m, At(c', tp), At(f', tp));
    }
  }

  lemma BatchIsFair(st: State, base: nat)
    requires base <= |st.events| && Ordered(st, base)
    ensures FairOffer(st, MaxOffsets(st.batch), base)
  {
    var c, f, batched := Committed(st.events), Floor(st.events, base), MaxOffsets(st.batch);
    var offers := Offers(st.events, base);
    forall tp | tp in batched ensures tp in st.observed && At(f, tp) <= batched[tp] <= st.observed[tp] {
      assert OrderedAt(At(c, tp), At(f, tp), At(st.position, tp), st.observed, batched, st.acked, offers, tp);
    }
  }

  lemma StaleIsFair(st: State, base: nat)
    requires base <= |st.events| && Ordered(st, base) && st.batch == []
    ensures FairOffer(st, StaleOffsets(st), base)
  {
    var c, f, batched := Committed(st.events), Floor(st.events, base), MaxOffsets(st.batch);
    var offers := Offers(st.events, base);
    forall tp | tp in StaleOffsets(st) ensures At(f, tp) <= st.observed[tp] {
      assert OrderedAt(At(c, tp), At(f, tp), At(st.position, tp), st.observed, batched, st.acked, offers, tp);
    }
  }

  /** Offering offsets is safe when no item of the batch is held in memory only, whichever partitions
      the broker applied the offer for. */
  lemma OfferIsSafe(log: Log, st: State, m: map<Partition, nat>, out: CommitOutcome, base: nat)
    requires Inv(log, st, base) && AllKept(st) && FairOffer(st, m, base)
    ensures Inv(log, Offer(st, m, out), base) && AllKept(Offer(st, m, out))
    ensures out.Acknowledged? ==> Ordered(Offer(st, m, out).(acked := st.acked + m), base)
  {
    var e := Commit(m, if out.Acknowledged? then m.Keys else out.applied);
    OfferOrdered(st, m, out, base);
    RisingExtend(st.events, e, base);
    Extend(st.events, e);
    CoveredExtend(log, st.events, e);
    forall tp, o: nat | o < At(st.position, tp) ensures Covered(log, st.events + [e], tp, o) {
      assert Covered(log, st.events, tp, o) || Pending(log, st.batch, tp, o);
    }
    CommittedIsRead(Offer(st, m, out), base);
    ThroughoutExtend(log, st.events, e);
  }

  lemma CommittedIsRead(st: State, base: nat)
    requires base <= |st.events| && Ordered(st, base)
    ensures forall tp :: At(Committed(st.events), tp) <= At(st.position, tp)
  {
    var c, f, batched, offers := Committed(st.events), Floor(st.events, base), MaxOffsets(st.batch),
      Offers(st.events, base);
    forall tp ensures At(c, tp) <= At(st.position, tp) {
      assert OrderedAt(At(c, tp), At(f, tp), At(st.position, tp), st.observed, batched, st.acked, offers, tp);
    }
  }

  /* ---- Poll ---- */

  lemma ReceiveBatches(st: State, tp: Partition, o: nat, slot: Slot)
    ensures MaxOffsets(Receive(st, tp, o, slot).batch) ==
      if slot.Record? && Accepted(slot.msg) then Bump(MaxOffsets(st.batch), tp, o) else MaxOffsets(st.batch)
  {
    if slot.Record? && Accepted(slot.msg) {
      var i := Item(slot.msg.body, tp, o);
      assert (st.batch + [i])[..|st.batch|] == st.batch;
    }
  }

  lemma BumpOrderedAt(c: nat, f: nat, position: nat, observed: map<Partition, nat>, batched: map<Partition, nat>,
                      acked: map<Partition, nat>, offers: map<Partition, nat>, tp: Partition, o: nat, p: Partition)
    requires OrderedAt(c, f, position, observed, batched, acked, offers, p) && (p == tp ==> position == o)
    ensures var n := if p == tp then o + 1 else position;
      && OrderedAt(c, f, n, observed, batched, acked, offers, p)
      && OrderedAt(c, f, n, Bump(observed, tp, o), batched, acked, offers, p)
      && OrderedAt(c, f, n, Bump(observed, tp, o), Bump(batched, tp, o), acked, offers, p)
  {
  }

  lemma ReceiveKeepsOrder(st: State, tp: Partition, o: nat, slot: Slot, base: nat)
    requires base <= |st.events| && Ordered(st, base) && o == At(st.position, tp)
    ensures Ordered(Receive(st, tp, o, slot), base)
  {
    var next := Receive(st, tp, o, slot);
    var c, f, offers := Committed(st.events), Floor(st.events, base), Offers(st.events, base);
    var batched := MaxOffsets(next.batch);
    ReceiveBatches(st, tp, o, slot);
    forall p ensures OrderedAt(At(c, p), At(f, p), At(next.position, p), next.observed, batched, st.acked, offers, p) {
      BumpOrderedAt(At(c, p), At(f, p), At(st.position, p), st.observed, MaxOffsets(st.batch), st.acked, offers,
                    tp, o, p);
    }
  }

  lemma ReceiveKeepsReads(log: Log, st: State, tp: Partition, base: nat)
    requires ReadsAccounted(log, st) && tp in log && At(st.position, tp) < |log[tp]|
    ensures ReadsAccounted(log, Receive(st, tp, At(st.position, tp), log[tp][At(st.position, tp)]))
  {
    var o := At(st.position, tp);
    var next := Receive(st, tp, o, log[tp][o]);
    forall p, i: nat | i < At(next.position, p)
      ensures Covered(log, next.events, p, i) || Pending(log, next.batch, p, i) {
      if p == tp && i == o {
        if log[tp][o].Record? && Accepted(log[tp][o].msg) {
          assert next.batch[|st.batch|] == Item(log[tp][o].msg.body, tp, o);
        }
      } else {
        assert Pending(log, st.batch, p, i) ==> Pending(log, next.batch, p, i);
      }
    }
  }

  lemma ReceiveKeepsInv(log: Log, st: State, tp: Partition, base: nat)
    requires Inv(log, st, base) && tp in log && At(st.position, tp) < |log[tp]|
    ensures Inv(log, Receive(st, tp, At(st.position, tp), log[tp][At(st.position, tp)]), base)
  {
    var o := At(st.position, tp);
    ReceiveKeepsOrder(st, tp, o, log[tp][o], base);
    ReceiveKeepsReads(log, st, tp, base);
  }

  lemma {:induction false} FetchKeepsInv(log: Log, st: State, tp: Partition, upto: nat, base: nat)
    requires Inv(log, st, base)
    ensures Inv(log, Fetch(log, st, tp, upto), base)
    decreases upto - At(st.position, tp)
  {
    var o := At(st.position, tp);
    if tp !in log || o >= upto || o >= |log[tp]| {
    } else {
      ReceiveKeepsInv(log, st, tp, base);
      FetchKeepsInv(log, Receive(st, tp, o, log[tp][o]), tp, upto, base);
    }
  }

  lemma {:induction false} PollKeepsInv(log: Log, st: State, fetch: seq<(Partition, nat)>, base: nat)
    requires Inv(log, st, base)
    ensures Inv(log, Poll(log, st, fetch), base)
    decreases |fetch|
  {
    if fetch == [] {
    } else {
      FetchKeepsInv(log, st, fetch[0].0, fetch[0].1, base);
      PollKeepsInv(log, Fetch(log, st, fetch[0].0, fetch[0].1), fetch[1..], base);
    }
  }

  /* ---- process_batch ---- */

  lemma {:induction false} RejectionsAndSurvivors(items: seq<Item>, fails: set<nat>)
    ensures forall e :: e in Rejections(items, fails) ==> e.Dlq? && e.item in items
    ensures forall i :: i in Survivors(items, fails) ==> i in items && i.body.Object? && i.body.valid
    ensures forall i :: i in items ==> i in Survivors(items, fails) || Dlq(i, ItemFailed) in Rejections(items, fails)
  {
    if items == [] {
    } else {
      var init := items[..|items|-1];
      RejectionsAndSurvivors(init, fails);
      assert items == init + [items[|items|-1]];
    }
  }

  /** Either the batch is retried, or every item of it reached the database or the dead-letter
      writer before its offset is returned for commit. */
  lemma ProcessBatchKeepsInv(log: Log, st: State, db: DbOutcome, base: nat)
    requires Inv(log, st, base)
    ensures Inv(log, ProcessBatch(st, db).0, base)
    ensures db.commit.DbOk? ==> AllKept(ProcessBatch(st, db).0)
  {
    RejectionsAndSurvivors(st.batch, db.flushFails);
    var rs := Rejections(st.batch, db.flushFails);
    QuietEffects(log, st, rs, base);
    KeptAfter(st.events, rs);
    var rejected := st.(events := st.events + rs);
    var s := Survivors(st.batch, db.flushFails);
    var stored := Stored(s, db.gaps);
    QuietEffect(log, rejected, stored, base);
    QuietEffect(log, rejected, Burnt(db.burnt), base);
    Extend(rejected.events, stored);
    Extend(rejected.events, Burnt(db.burnt));
    NewlyKept(rejected.events, stored);
    forall i | i in st.batch ensures Kept(rejected.events + [stored], i) {
      assert i in s || Dlq(i, ItemFailed) in rs;
    }
  }

  /* ---- The branches of a turn ---- */

  lemma EvacuateKeepsInv(log: Log, st: State, reason: Reason, out: CommitOutcome, base: nat)
    requires Inv(log, st, base)
    ensures Inv(log, Evacuate(st, reason, out), base)
  {
    var handed := st.(events := st.events + DlqAll(st.batch, reason));
    HandedOver(log, st, reason, base);
    var m := MaxOffsets(st.batch);
    if m != map[] {
      BatchIsFair(handed, base);
      OfferIsSafe(log, handed, m, out, base);
      Settled(log, Offer(handed, m, out), st.acked + m, out.Acknowledged? && reason != BatchPanic, base);
    } else {
      Settled(log, handed, st.acked, false, base);
    }
  }

  lemma HandedOver(log: Log, st: State, reason: Reason, base: nat)
    requires Inv(log, st, base)
    ensures var handed := st.(events := st.events + DlqAll(st.batch, reason)); Inv(log, handed, base) && AllKept(handed)
  {
    var es := DlqAll(st.batch, reason);
    QuietEffects(log, st, es, base);
    KeptAfter(st.events, es);
    forall i | i in st.batch ensures Kept(st.events + es, i) {
      var k :| 0 <= k < |st.batch| && st.batch[k] == i;
      assert es[k] in es;
    }
  }

  /** Clearing a batch whose items are all kept loses nothing. */
  lemma Settled(log: Log, st: State, acked: map<Partition, nat>, update: bool, base: nat)
    requires Inv(log, st, base) && AllKept(st) && (update ==> Ordered(st.(acked := acked), base))
    ensures Inv(log, st.(batch := [], acked := if update then acked else st.acked, failures := 0), base)
  {
    forall tp, o: nat | o < At(st.position, tp) ensures Covered(log, st.events, tp, o) {
      assert Covered(log, st.events, tp, o) || Pending(log, st.batch, tp, o);
    }
  }

  lemma CountFailureKeepsInv(log: Log, st: State, reason: Reason, out: CommitOutcome, base: nat)
    requires Inv(log, st, base)
    ensures Inv(log, CountFailure(st, reason, out), base)
  {
    var counted := st.(failures := st.failures + 1);
    assert Inv(log, counted, base);
    EvacuateKeepsInv(log, counted, reason, out, base);
  }

  lemma {:induction false} CommitWithRetriesKeepsInv(log: Log, st: State, t: Turn, n: nat, base: nat)
    requires Inv(log, st, base) && AllKept(st)
    ensures Inv(log, CommitWithRetries(st, MaxOffsets(st.batch), t, n), base)
    decreases MAX_COMMIT_RETRIES - n
  {
    var m := MaxOffsets(st.batch);
    if n >= MAX_COMMIT_RETRIES {
      CountFailureKeepsInv(log, st, CommitThreshold, t.evacuation, base);
    } else {
      BatchIsFair(st, base);
      OfferIsSafe(log, st, m, t.Attempt(n), base);
      var offered := Offer(st, m, t.Attempt(n));
      if t.Attempt(n).Acknowledged? {
        Settled(log, offered, st.acked + m, true, base);
      } else {
        CommitWithRetriesKeepsInv(log, offered, t, n + 1, base);
      }
    }
  }

  lemma FlushKeepsInv(log: Log, st: State, t: Turn, base: nat)
    requires Inv(log, st, base)
    ensures Inv(log, Flush(st, t), base)
  {
    ProcessBatchKeepsInv(log, st, t.db, base);
    var (done, offsets) := ProcessBatch(st, t.db);
    if offsets != map[] {
      CommitWithRetriesKeepsInv(log, done, t, 0, base);
    } else {
      CountFailureKeepsInv(log, done, DatabaseThreshold, t.evacuation, base);
    }
  }

  lemma CommitStaleKeepsInv(log: Log, st: State, out: CommitOutcome, base: nat)
    requires Inv(log, st, base)
    ensures Inv(log, CommitStale(st, out), base)
  {
    var m := StaleOffsets(st);
    if st.batch == [] && m != map[] {
      StaleIsFair(st, base);
      OfferIsSafe(log, st, m, out, base);
    }
  }

  lemma StepKeepsInv(log: Log, st: State, t: Turn, base: nat)
    requires Inv(log, st, base)
    ensures Inv(log, Step(log, st, t), base)
  {
    PollKeepsInv(log, st, t.fetch, base);
    var polled := Polled(log, st, t);
    FlushKeepsInv(log, polled, t, base);
    var flushed := if FlushDue(polled, t) then Flush(polled, t) else polled;
    CommitStaleKeepsInv(log, flushed, t.stale, base);
    EvacuateKeepsInv(log, CommitStale(flushed, t.stale), BatchPanic, t.panic, base);
  }

  lemma {:induction false} RunKeepsInv(log: Log, st: State, ts: seq<Turn>, base: nat)
    requires Inv(log, st, base)
    ensures Inv(log, Run(log, st, ts), base)
  {
    if ts == [] {
    } else {
      RunKeepsInv(log, st, ts[..|ts|-1], base);
      StepKeepsInv(log, Run(log, st, ts[..|ts|-1]), ts[|ts|-1], base);
    }
  }

  lemma DrainKeepsInv(log: Log, st: State, db: DbOutcome, out: CommitOutcome, base: nat)
    requires Inv(log, st, base)
    ensures Inv(log, Drain(st, db, out), base)
  {
    ProcessBatchKeepsInv(log, st, db, base);
    var (done, offsets) := ProcessBatch(st, db);
    if st.batch != [] && offsets != map[] {
      BatchIsFair(done, base);
      OfferIsSafe(log, done, offsets, out, base);
    }
  }

  lemma BootEstablishesInv(log: Log, ev: seq<Event>)
    requires AtLeastOnceThroughout(log, ev)
    ensures Inv(log, Boot(ev), |ev|)
  {
    assert ev[..|ev|] == ev;
  }
}
