/** Nothing is invented: whatever the sink writes anywhere is a record of the log that passes its filters. */
module SinkIntegrity {
  import opened AlertTable
  import opened SinkModel
  import opened SinkSteps
  import opened SinkSafety

  /** The item is the record at its partition and offset: a JSON object of at most 5 MiB with an id. */
  ghost predicate Genuine(log: Log, i: Item) {
    && i.tp in log && i.offset < |log[i.tp]| && log[i.tp][i.offset].Record?
    && var m := log[i.tp][i.offset].msg;
       m.body == i.body && m.size <= 5 * 1024 * 1024 && m.body.Object? && m.body.alertId != ""
  }

  /** What is handed over is genuine, and what is upserted is valid as well. */
  ghost predicate GenuineEffect(log: Log, e: Event) {
    && (forall i :: Carries(e, i) ==> Genuine(log, i))
    && (e.Stored? ==> forall i :: i in e.items ==> i.body.Object? && i.body.valid)
  }

  ghost predicate GenuineEffects(log: Log, ev: seq<Event>) {
    forall e :: e in ev ==> GenuineEffect(log, e)
  }

  ghost predicate GenuineState(log: Log, st: State) {
    (forall i :: i in st.batch ==> Genuine(log, i)) && GenuineEffects(log, st.events)
  }

  lemma {:induction false} FetchIsGenuine(log: Log, st: State, tp: Partition, upto: nat)
    requires GenuineState(log, st)
    ensures GenuineState(log, Fetch(log, st, tp, upto))
    decreases upto - At(st.position, tp)
  {
    var o := At(st.position, tp);
    if tp !in log || o >= upto || o >= |log[tp]| {
    } else {
      FetchIsGenuine(log, Receive(st, tp, o, log[tp][o]), tp, upto);
    }
  }

  lemma {:induction false} PollIsGenuine(log: Log, st: State, fetch: seq<(Partition, nat)>)
    requires GenuineState(log, st)
    ensures GenuineState(log, Poll(log, st, fetch))
    decreases |fetch|
  {
    if fetch == [] {
    } else {
      FetchIsGenuine(log, st, fetch[0].0, fetch[0].1);
      PollIsGenuine(log, Fetch(log, st, fetch[0].0, fetch[0].1), fetch[1..]);
    }
  }

  lemma BatchIsGenuine(log: Log, st: State, db: DbOutcome)
    requires GenuineState(log, st)
    ensures GenuineState(log, ProcessBatch(st, db).0)
  {
    RejectionsAndSurvivors(st.batch, db.flushFails);
    var rs, stored := Rejections(st.batch, db.flushFails), Stored(Survivors(st.batch, db.flushFails), db.gaps);
    assert GenuineEffect(log, stored) && GenuineEffects(log, rs) && GenuineEffect(log, Burnt(db.burnt));
  }

  lemma HandedIsGenuine(log: Log, st: State, reason: Reason)
    requires GenuineState(log, st)
    ensures GenuineEffects(log, st.events + DlqAll(st.batch, reason))
  {
    forall e | e in DlqAll(st.batch, reason) ensures GenuineEffect(log, e) {
      var k :| 0 <= k < |st.batch| && e == Dlq(st.batch[k], reason);
      assert st.batch[k] in st.batch;
    }
  }

  lemma EvacuationIsGenuine(log: Log, st: State, reason: Reason, out: CommitOutcome)
    requires GenuineState(log, st)
    ensures GenuineState(log, Evacuate(st, reason, out))
  {
    HandedIsGenuine(log, st, reason);
  }

  lemma FailureIsGenuine(log: Log, st: State, reason: Reason, out: CommitOutcome)
    requires GenuineState(log, st)
    ensures GenuineState(log, CountFailure(st, reason, out))
  {
    EvacuationIsGenuine(log, st.(failures := st.failures + 1), reason, out);
  }

  lemma {:induction false} RetriesAreGenuine(log: Log, st: State, m: map<Partition, nat>, t: Turn, n: nat)
    requires GenuineState(log, st)
    ensures GenuineState(log, CommitWithRetries(st, m, t, n))
    decreases MAX_COMMIT_RETRIES - n
  {
    if n >= MAX_COMMIT_RETRIES {
      FailureIsGenuine(log, st, CommitThreshold, t.evacuation);
    } else if !t.Attempt(n).Acknowledged? {
      RetriesAreGenuine(log, Offer(st, m, t.Attempt(n)), m, t, n + 1);
    }
  }

  lemma FlushIsGenuine(log: Log, st: State, t: Turn)
    requires GenuineState(log, st)
    ensures GenuineState(log, Flush(st, t))
  {
    var (done, offsets) := ProcessBatch(st, t.db);
    BatchIsGenuine(log, st, t.db);
    RetriesAreGenuine(log, done, offsets, t, 0);
    FailureIsGenuine(log, done, DatabaseThreshold, t.evacuation);
  }

  lemma StepIsGenuine(log: Log, st: State, t: Turn)
    requires GenuineState(log, st)
    ensures GenuineState(log, Step(log, st, t))
  {
    PollIsGenuine(log, st, t.fetch);
    var polled := Polled(log, st, t);
    FlushIsGenuine(log, polled, t);
    var flushed := if FlushDue(polled, t) then Flush(polled, t) else polled;
    EvacuationIsGenuine(log, CommitStale(flushed, t.stale), BatchPanic, t.panic);
  }

  lemma {:induction false} RunIsGenuine(log: Log, st: State, ts: seq<Turn>)
    requires GenuineState(log, st)
    ensures GenuineState(log, Run(log, st, ts))
  {
    if ts == [] {
    } else {
      RunIsGenuine(log, st, ts[..|ts|-1]);
      StepIsGenuine(log, Run(log, st, ts[..|ts|-1]), ts[|ts|-1]);
    }
  }

  lemma LifeIsGenuine(log: Log, before: seq<Event>, s: Session)
    requires GenuineEffects(log, before)
    ensures GenuineEffects(log, Lived(log, before, s))
  {
    RunIsGenuine(log, Boot(before), s.turns);
    BatchIsGenuine(log, Run(log, Boot(before), s.turns), s.db);
  }

  lemma {:induction false} LifetimeEffects(log: Log, ss: seq<Session>)
    ensures GenuineEffects(log, Lifetime(log, ss))
  {
    if ss == [] {
    } else {
      LifetimeEffects(log, ss[..|ss|-1]);
      LifeIsGenuine(log, Lifetime(log, ss[..|ss|-1]), ss[|ss|-1]);
    }
  }

  /** Over every lifetime, each effect carries records of the log only, as they are, and only such as the
      poll accepts; and what is upserted the schema accepts too. */
  lemma LifetimeIsGenuine(log: Log, ss: seq<Session>, k: nat, i: Item)
    requires k < |Lifetime(log, ss)| && Carries(Lifetime(log, ss)[k], i)
    ensures Genuine(log, i) && (Lifetime(log, ss)[k].Stored? ==> i.body.valid)
  {
    LifetimeEffects(log, ss);
    assert Lifetime(log, ss)[k] in Lifetime(log, ss);
  }

  /* ---- The table ---- */

  /** Some valid record of the log has this id and these columns. */
  ghost predicate FromLog(log: Log, a: string, f: Fields) {
    exists i :: Genuine(log, i) && i.body == Object(a, f, true)
  }

  ghost predicate RowsFromLog(log: Log, t: Table) {
    forall a :: a in t.rows ==> FromLog(log, a, t.rows[a].fields)
  }

  lemma {:induction false} UpsertsFromLog(log: Log, t: Table, items: seq<Item>, gaps: seq<nat>)
    requires RowsFromLog(log, t) && forall i :: i in items ==> Genuine(log, i) && i.body.Object? && i.body.valid
    ensures RowsFromLog(log, UpsertSpread(t, Writes(items), gaps))
  {
    if items == [] {
    } else {
      var init, last := items[..|items|-1], items[|items|-1];
      assert last in items && last.body == Object(last.body.alertId, last.body.fields, true);
      UpsertsFromLog(log, t, init, gaps);
      assert Writes(items)[..|items|-1] == Writes(init);
    }
  }

  lemma {:induction false} TableFromLog(log: Log, ev: seq<Event>)
    requires GenuineEffects(log, ev)
    ensures RowsFromLog(log, TableOf(ev))
  {
    if ev == [] {
    } else {
      var e := ev[|ev|-1];
      TableFromLog(log, ev[..|ev|-1]);
      assert e in ev;
      if e.Stored? {
        StoredAreGenuine(log, e);
        UpsertsFromLog(log, TableOf(ev[..|ev|-1]), e.items, e.gaps);
      }
    }
  }

  lemma StoredAreGenuine(log: Log, e: Event)
    requires e.Stored? && GenuineEffect(log, e)
    ensures forall i :: i in e.items ==> Genuine(log, i) && i.body.Object? && i.body.valid
  {
    forall i | i in e.items ensures Genuine(log, i) {
      assert Carries(e, i);
    }
  }

  /** Every row of the table, after every lifetime, is some valid record of the log. */
  lemma EveryRowIsFromLog(log: Log, ss: seq<Session>, a: string)
    requires a in TableOf(Lifetime(log, ss)).rows
    ensures FromLog(log, a, TableOf(Lifetime(log, ss)).rows[a].fields)
  {
    LifetimeEffects(log, ss);
    TableFromLog(log, Lifetime(log, ss));
  }
}
