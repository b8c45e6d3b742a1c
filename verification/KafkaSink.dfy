/** The sink as the process runs it: fields updated in place by `run_sink` and `process_batch`
    (api/kafka_sink.py). Every method is tied to the function of SinkSteps it carries out, and the
    main loop to the invariant of SinkSafety. */
module KafkaSink {
  import opened AlertTable
  import opened SinkModel
  import opened SinkSteps
  import opened SinkGuarantees

  class Sink {
    var batch: seq<Item>
    var observed: map<Partition, nat>
    var acked: map<Partition, nat>
    var failures: nat
    var position: map<Partition, nat>
    var table: Table
    var events: seq<Event>

    ghost function Now(): State
      reads this
    {
      State(batch, observed, acked, failures, position, table, events)
    }

    /** A restarted process knows only what survived. */
    constructor (ev: seq<Event>)
      ensures Now() == Boot(ev)
    {
      batch, observed, acked, failures := [], map[], map[], 0;
      position, table, events := Committed(ev), TableOf(ev), ev;
    }

    method RecordOffset(tp: Partition, offset: nat)
      modifies this`observed
      ensures observed == Bump(old(observed), tp, offset)
    {
      observed := observed[tp := Max(if tp in observed then observed[tp] else -1, offset + 1)];
    }

    method FetchRecords(log: Log, tp: Partition, upto: nat)
      modifies this
      ensures Now() == Fetch(log, old(Now()), tp, upto)
    {
      while tp in log && At(position, tp) < upto && At(position, tp) < |log[tp]|
        invariant Fetch(log, Now(), tp, upto) == Fetch(log, old(Now()), tp, upto)
        decreases upto - At(position, tp)
      {
        var o := At(position, tp);
        match log[tp][o] {
          case Gap =>
          case Record(m) =>
            RecordOffset(tp, o);
            if Accepted(m) {
              batch := batch + [Item(m.body, tp, o)];
            }
        }
        position := position[tp := o + 1];
      }
    }

    method PollRecords(log: Log, fetch: seq<(Partition, nat)>)
      modifies this
      ensures Now() == Poll(log, old(Now()), fetch)
    {
      var k := 0;
      while k < |fetch|
        invariant 0 <= k <= |fetch|
        invariant Poll(log, Now(), fetch[k..]) == Poll(log, old(Now()), fetch)
      {
        FetchRecords(log, fetch[k].0, fetch[k].1);
        assert fetch[k..][1..] == fetch[k+1..];
        k := k + 1;
      }
    }

    /** One savepoint per item, in the order of the batch; what fails goes to the dead-letter queue. */
    method WriteItems(db: DbOutcome) returns (session: Table, offsets: map<Partition, nat>)
      modifies this`events
      ensures session == UpsertSpread(table, Writes(Survivors(batch, db.flushFails)), db.gaps)
      ensures offsets == MaxOffsets(batch) && events == old(events) + Rejections(batch, db.flushFails)
    {
      session, offsets := table, map[];
      ghost var stored := [];
      var k, rows := 0, 0;
      while k < |batch|
        invariant 0 <= k <= |batch| && stored == Survivors(batch[..k], db.flushFails)
        invariant rows == |stored| && session == UpsertSpread(table, Writes(stored), db.gaps)
        invariant events == old(events) + Rejections(batch[..k], db.flushFails)
        invariant offsets == MaxOffsets(batch[..k])
      {
        var item := batch[k];
        OneMoreItem(batch, k, db.flushFails);
        if Fails(item, k, db.flushFails) {
          events := events + [Dlq(item, ItemFailed)];
        } else {
          session := Upsert(Skip(session, GapAt(db.gaps, rows)), WriteOf(item));
          UpsertOneMore(table, stored, item, db.gaps);
          stored, rows := stored + [item], rows + 1;
        }
        offsets := Bump(offsets, item.tp, item.offset);
        k := k + 1;
      }
      assert batch[..k] == batch;
    }

    /** One transaction for the whole batch. */
    method ProcessAll(db: DbOutcome) returns (offsets: map<Partition, nat>)
      modifies this`table, this`events
      ensures (Now(), offsets) == ProcessBatch(old(Now()), db)
    {
      var session;
      session, offsets := WriteItems(db);
      if db.commit.DbOk? || db.commit.applied {
        table, events := session, events + [Stored(Survivors(batch, db.flushFails), db.gaps)];
      } else {
        table, events := Skip(table, db.burnt), events + [Burnt(db.burnt)];
      }
      if db.commit.DbRaised? {
        offsets := map[];
      }
    }

    method OfferOffsets(offsets: map<Partition, nat>, out: CommitOutcome) returns (ok: bool)
      modifies this`events
      ensures Now() == Offer(old(Now()), offsets, out) && ok == out.Acknowledged?
    {
      ok := out.Acknowledged?;
      events := events + [Commit(offsets, if ok then offsets.Keys else out.applied)];
    }

    method HandOver(reason: Reason) returns (maxOffsets: map<Partition, nat>)
      modifies this`events
      ensures maxOffsets == MaxOffsets(batch) && events == old(events) + DlqAll(batch, reason)
    {
      maxOffsets := map[];
      var k := 0;
      while k < |batch|
        invariant 0 <= k <= |batch|
        invariant maxOffsets == MaxOffsets(batch[..k])
        invariant events == old(events) + DlqAll(batch, reason)[..k]
      {
        events := events + [Dlq(batch[k], reason)];
        OneMoreItem(batch, k, {});
        maxOffsets := Bump(maxOffsets, batch[k].tp, batch[k].offset);
        k := k + 1;
      }
      assert batch[..k] == batch && DlqAll(batch, reason)[..k] == DlqAll(batch, reason);
    }

    /** Every record is handed over before the offsets are offered. */
    method EvacuateBatch(reason: Reason, out: CommitOutcome)
      modifies this
      ensures Now() == Evacuate(old(Now()), reason, out)
    {
      var maxOffsets := HandOver(reason);
      if maxOffsets != map[] {
        var ok := OfferOffsets(maxOffsets, out);
        if ok && reason != BatchPanic {
          acked := acked + maxOffsets;
        }
      } else {
        assert acked + maxOffsets == acked;
      }
      batch, failures := [], 0;
    }

    method NoteFailure(reason: Reason, out: CommitOutcome)
      modifies this
      ensures Now() == CountFailure(old(Now()), reason, out)
    {
      failures := failures + 1;
      if failures >= MAX_CONSECUTIVE_FAILURES {
        EvacuateBatch(reason, out);
      }
    }

    method FlushBatch(t: Turn)
      modifies this
      ensures Now() == Flush(old(Now()), t)
    {
      var processed := ProcessAll(t.db);
      if processed != map[] {
        var success := false;
        var attempt := 0;
        ghost var start := Now();
        while attempt < MAX_COMMIT_RETRIES
          invariant 0 <= attempt <= MAX_COMMIT_RETRIES && !success
          invariant CommitWithRetries(Now(), processed, t, attempt) == CommitWithRetries(start, processed, t, 0)
        {
          var ok := OfferOffsets(processed, t.Attempt(attempt));
          if ok {
            success, failures, acked := true, 0, acked + processed;
            break;
          }
          attempt := attempt + 1;
        }
        if success {
          batch := [];
        } else {
          NoteFailure(CommitThreshold, t.evacuation);
        }
      } else {
        NoteFailure(DatabaseThreshold, t.evacuation);
      }
    }

    method CommitStalePartitions(out: CommitOutcome)
      modifies this`events, this`acked
      ensures Now() == CommitStale(old(Now()), out)
    {
      if |batch| == 0 {
        var stale := map tp | tp in observed && (tp !in acked || observed[tp] > acked[tp]) :: observed[tp];
        if stale != map[] {
          var ok := OfferOffsets(stale, out);
          if ok {
            acked := acked + stale;
          }
        }
      }
    }

    /** The body of the main loop. */
    method Turn(log: Log, t: SinkSteps.Turn)
      modifies this
      ensures Now() == Step(log, old(Now()), t)
    {
      if |batch| < MAX_BATCH_SIZE && !t.pollRaises {
        PollRecords(log, t.fetch);
      }
      if |batch| >= MAX_BATCH_SIZE || (|batch| > 0 && t.timerDue) {
        FlushBatch(t);
      }
      CommitStalePartitions(t.stale);
      if |batch| >= PANIC_BATCH_SIZE {
        EvacuateBatch(BatchPanic, t.panic);
      }
    }

    /** `while running`: at every loop head the failure counter is below its threshold and the batch below
        the panic guard. */
    method Loop(log: Log, ts: seq<SinkSteps.Turn>)
      requires LoopHead(Now())
      modifies this
      ensures Now() == Run(log, old(Now()), ts) && LoopHead(Now())
    {
      var k := 0;
      while k < |ts|
        invariant 0 <= k <= |ts| && Now() == Run(log, old(Now()), ts[..k]) && LoopHead(Now())
      {
        StepKeepsLoopHead(log, Now(), ts[k]);
        Turn(log, ts[k]);
        assert ts[..k+1][..k] == ts[..k];
        k := k + 1;
      }
      assert ts[..k] == ts;
    }

    /** After the signal. */
    method DrainBatch(db: DbOutcome, out: CommitOutcome)
      modifies this
      ensures Now() == Drain(old(Now()), db, out)
    {
      if |batch| > 0 {
        var processed := ProcessAll(db);
        if processed != map[] {
          var _ := OfferOffsets(processed, out);
        }
      }
    }

    /** One life of the process, up to and including the drain after the signal: the effects it leaves
        are those of the session, and whatever prefix of them a crash leaves is safe. */
    method RunSink(log: Log, s: Session)
      requires Now() == Boot(events) && AtLeastOnceThroughout(log, events)
      modifies this
      ensures events == SessionEvents(log, old(events), s)
      ensures AtLeastOnceThroughout(log, events)
    {
      SessionInv(log, events, s);
      Loop(log, s.turns);
      DrainBatch(s.db, s.last);
    }
  }

  lemma OneMoreItem(items: seq<Item>, k: nat, fails: set<nat>)
    requires k < |items|
    ensures Survivors(items[..k+1], fails)
         == Survivors(items[..k], fails) + if Fails(items[k], k, fails) then [] else [items[k]]
    ensures Rejections(items[..k+1], fails)
         == Rejections(items[..k], fails) + if Fails(items[k], k, fails) then [Dlq(items[k], ItemFailed)] else []
    ensures MaxOffsets(items[..k+1]) == Bump(MaxOffsets(items[..k]), items[k].tp, items[k].offset)
  {
    assert items[..k+1][..k] == items[..k];
  }

  lemma UpsertOneMore(t: Table, items: seq<Item>, i: Item, gaps: seq<nat>)
    ensures UpsertSpread(t, Writes(items + [i]), gaps)
         == Upsert(Skip(UpsertSpread(t, Writes(items), gaps), GapAt(gaps, |items|)), WriteOf(i))
  {
    assert Writes(items + [i])[..|items|] == Writes(items);
  }

  /** One life that begins after the effects `before`, up to the effect at which it dies. */
  method Live(log: Log, before: seq<Event>, s: Session) returns (ev: seq<Event>)
    requires AtLeastOnceThroughout(log, before)
    ensures ev == Lived(log, before, s)
  {
    var sink := new Sink(before);
    sink.RunSink(log, s);
    ev := if |before| <= s.dies <= |sink.events| then sink.events[..s.dies] else sink.events;
  }

  lemma NextLife(log: Log, ss: seq<Session>, k: nat, lived: seq<Session>, ev: seq<Event>)
    requires k < |ss| && lived == ss[..k] && ev == Lifetime(log, lived)
    ensures AtLeastOnceThroughout(log, ev)
    ensures ss[..k+1] == lived + [ss[k]] && Lifetime(log, ss[..k+1]) == Lived(log, ev, ss[k])
  {
    LifetimeThroughout(log, lived);
    SnocLife(log, ss[..k+1], lived, ss[k]);
  }

  /** A deployment: lives of the process one after the other, each starting from what the one before
      it left when it died. */
  method Deploy(log: Log, ss: seq<Session>) returns (ev: seq<Event>)
    ensures ev == Lifetime(log, ss)
    ensures AtLeastOnceThroughout(log, ev)
  {
    ev := [];
    var k := 0;
    ghost var lived := [];
    while k < |ss|
      invariant 0 <= k <= |ss| && lived == ss[..k]
      invariant ev == Lifetime(log, lived)
    {
      NextLife(log, ss, k, lived, ev);
      ev := Live(log, ev, ss[k]);
      k := k + 1;
      lived := ss[..k];
    }
    assert lived == ss;
    LifetimeThroughout(log, lived);
  }
}
