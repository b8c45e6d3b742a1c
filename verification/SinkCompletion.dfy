/** What the sink gets done: when a turn empties the batch, and what a life leaves behind when it ends. */
module SinkCompletion {
  import opened SinkModel
  import opened SinkSteps
  import opened SinkSafety
  import opened SinkGuarantees

  /* ---- What a poll reads ---- */

  lemma {:induction false} FetchReaches(log: Log, st: State, from: Partition, upto: nat, tp: Partition)
    ensures var next := At(Fetch(log, st, from, upto).position, tp);
      if tp == from && tp in log then next == Max(At(st.position, tp), LeastOf(upto, |log[tp]|))
      else next == At(st.position, tp)
    decreases upto - At(st.position, from)
  {
    var o := At(st.position, from);
    if from !in log || o >= upto || o >= |log[from]| {
    } else {
      FetchReaches(log, Receive(st, from, o, log[from][o]), from, upto, tp);
    }
  }

  function LeastOf(a: nat, b: nat): nat {
    if a <= b then a else b
  }

  /** A poll reads every partition it names as far as it says, or to the end of the log, and no other. */
  lemma {:induction false} PollReaches(log: Log, st: State, fetch: seq<(Partition, nat)>, tp: Partition)
    ensures At(st.position, tp) <= At(Poll(log, st, fetch).position, tp)
    ensures forall k :: 0 <= k < |fetch| && fetch[k].0 == tp && tp in log ==>
      At(Poll(log, st, fetch).position, tp) >= LeastOf(fetch[k].1, |log[tp]|)
    ensures (forall k :: 0 <= k < |fetch| ==> fetch[k].0 != tp) ==>
      At(Poll(log, st, fetch).position, tp) == At(st.position, tp)
    decreases |fetch|
  {
    if fetch == [] {
    } else {
      var next := Fetch(log, st, fetch[0].0, fetch[0].1);
      FetchReaches(log, st, fetch[0].0, fetch[0].1, tp);
      PollReaches(log, next, fetch[1..], tp);
      assert forall k :: 1 <= k < |fetch| ==> fetch[k] == fetch[1..][k-1];
    }
  }

  /* ---- The end of a life ---- */

  /** The batch that is still held when the signal comes. */
  function LastBatch(log: Log, before: seq<Event>, s: Session): seq<Item> {
    Run(log, Boot(before), s.turns).batch
  }

  /** An effect of the life after its last turn carries the item. */
  ghost predicate KeptAtTheEnd(log: Log, before: seq<Event>, s: Session, i: Item) {
    var ev, turns := SessionEvents(log, before, s), Run(log, Boot(before), s.turns).events;
    exists k :: |turns| <= k < |ev| && Carries(ev[k], i)
  }

  ghost predicate StoredAtTheEnd(log: Log, before: seq<Event>, s: Session, i: Item) {
    var ev, turns := SessionEvents(log, before, s), Run(log, Boot(before), s.turns).events;
    exists k :: |turns| <= k < |ev| && ev[k].Stored? && i in ev[k].items
  }

  lemma ProcessedEffects(st: State, db: DbOutcome)
    requires db.commit.DbOk?
    ensures ProcessBatch(st, db).0.events == st.events + LastEffects(st.batch, db)
    ensures ProcessBatch(st, db).1 == MaxOffsets(st.batch)
  {
  }

  lemma DrainedEffects(st: State, db: DbOutcome, out: CommitOutcome)
    requires db.commit.DbOk? && st.batch != []
    ensures MaxOffsets(st.batch) != map[]
    ensures Drain(st, db, out).events == st.events + LastEffects(st.batch, db) + [LastOffer(st.batch, out)]
  {
    MaxOffsetsBound(st.batch, 0);
    ProcessedEffects(st, db);
  }

  lemma EffectInTheMiddle(a: seq<Event>, b: seq<Event>, c: Event, e: Event) returns (k: nat)
    requires e in b
    ensures |a| <= k < |a + b + [c]| && (a + b + [c])[k] == e
  {
    var j :| 0 <= j < |b| && b[j] == e;
    k := |a| + j;
  }

  function LastOffer(batch: seq<Item>, out: CommitOutcome): Event {
    Commit(MaxOffsets(batch), if out.Acknowledged? then MaxOffsets(batch).Keys else out.applied)
  }

  function LastEffects(batch: seq<Item>, db: DbOutcome): seq<Event> {
    Rejections(batch, db.flushFails) + [Stored(Survivors(batch, db.flushFails), db.gaps)]
  }

  /** If the last database commit succeeds, every item still held when the signal comes is upserted or
      dead-lettered. */
  lemma LastBatchIsKept(log: Log, before: seq<Event>, s: Session, i: Item)
    requires s.db.commit.DbOk? && i in LastBatch(log, before, s)
    ensures KeptAtTheEnd(log, before, s, i)
  {
    var st := Run(log, Boot(before), s.turns);
    DrainedEffects(st, s.db, s.last);
    var e := CarrierOf(st.batch, s.db, i);
    var k := EffectInTheMiddle(st.events, LastEffects(st.batch, s.db), LastOffer(st.batch, s.last), e);
    assert Carries(SessionEvents(log, before, s)[k], i);
  }

  lemma CarrierOf(batch: seq<Item>, db: DbOutcome, i: Item) returns (e: Event)
    requires i in batch
    ensures e in LastEffects(batch, db) && Carries(e, i)
  {
    RejectionsAndSurvivors(batch, db.flushFails);
    var s := Survivors(batch, db.flushFails);
    e := if i in s then Stored(s, db.gaps) else Dlq(i, ItemFailed);
  }

  lemma {:induction false} WhereItGoes(items: seq<Item>, fails: set<nat>, k: nat)
    requires k < |items|
    ensures if items[k].body.Object? && items[k].body.valid && k !in fails then items[k] in Survivors(items, fails)
      else Dlq(items[k], ItemFailed) in Rejections(items, fails)
  {
    if k == |items| - 1 {
    } else {
      WhereItGoes(items[..|items|-1], fails, k);
    }
  }

  lemma ValidSurvive(items: seq<Item>, i: Item)
    requires i in items && i.body.Object? && i.body.valid
    ensures i in Survivors(items, {})
  {
    var k :| 0 <= k < |items| && items[k] == i;
    WhereItGoes(items, {}, k);
  }

  /** An item that the schema accepts and whose savepoint does not fail is among the rows written, and its
      alert has a row. */
  lemma LastBatchIsStored(log: Log, before: seq<Event>, s: Session, k: nat)
    requires s.db.commit.DbOk? && k < |LastBatch(log, before, s)| && k !in s.db.flushFails
    requires var b := LastBatch(log, before, s)[k].body; b.Object? && b.valid
    ensures StoredAtTheEnd(log, before, s, LastBatch(log, before, s)[k])
    ensures LastBatch(log, before, s)[k].body.alertId in TableOf(SessionEvents(log, before, s)).rows
  {
    var st := Run(log, Boot(before), s.turns);
    DrainedEffects(st, s.db, s.last);
    WhereItGoes(st.batch, s.db.flushFails, k);
    var stored := Stored(Survivors(st.batch, s.db.flushFails), s.db.gaps);
    var n := EffectInTheMiddle(st.events, LastEffects(st.batch, s.db), LastOffer(st.batch, s.last), stored);
    assert SessionEvents(log, before, s)[n] == stored;
    StoredIsInTable(SessionEvents(log, before, s));
  }

  /** Any other item is dead-lettered. */
  lemma LastBatchIsRejected(log: Log, before: seq<Event>, s: Session, k: nat)
    requires s.db.commit.DbOk? && k < |LastBatch(log, before, s)|
    requires var b := LastBatch(log, before, s)[k].body; !b.Object? || !b.valid || k in s.db.flushFails
    ensures Dlq(LastBatch(log, before, s)[k], ItemFailed) in SessionEvents(log, before, s)
  {
    var st := Run(log, Boot(before), s.turns);
    DrainedEffects(st, s.db, s.last);
    WhereItGoes(st.batch, s.db.flushFails, k);
  }

  /** If the last offset commit is acknowledged too, every item still held at the signal is committed past. */
  lemma LastBatchIsCommitted(log: Log, before: seq<Event>, s: Session, i: Item)
    requires s.db.commit.DbOk? && s.last.Acknowledged? && i in LastBatch(log, before, s)
    ensures At(Committed(SessionEvents(log, before, s)), i.tp) >= i.offset + 1
  {
    var st := Run(log, Boot(before), s.turns);
    var k :| 0 <= k < |st.batch| && st.batch[k] == i;
    DrainedEffects(st, s.db, s.last);
    MaxOffsetsBound(st.batch, k);
    var done := ProcessBatch(st, s.db).0;
    ProcessedEffects(st, s.db);
    Extend(done.events, Commit(MaxOffsets(st.batch), MaxOffsets(st.batch).Keys));
  }

  /** After a life whose last database commit succeeded nothing it read is lost: every offset read is
      upserted, dead-lettered, or rejected by the poll filter, committed or not. */
  lemma NothingReadIsLost(log: Log, before: seq<Event>, s: Session, tp: Partition, o: nat)
    requires AtLeastOnceThroughout(log, before) && s.db.commit.DbOk?
    requires o < At(Run(log, Boot(before), s.turns).position, tp)
    ensures Covered(log, SessionEvents(log, before, s), tp, o)
  {
    var st, ev := Run(log, Boot(before), s.turns), SessionEvents(log, before, s);
    BootEstablishesInv(log, before);
    RunKeepsInv(log, Boot(before), s.turns, |before|);
    assert Covered(log, st.events, tp, o) || Pending(log, st.batch, tp, o);
    DrainExtends(st, s.db, s.last);
    if Covered(log, st.events, tp, o) {
      CoveredLater(log, st.events, ev, tp, o);
    } else {
      var i := Item(log[tp][o].msg.body, tp, o);
      assert i in st.batch;
      LastBatchIsKept(log, before, s, i);
    }
  }

  lemma CoveredLater(log: Log, ev: seq<Event>, later: seq<Event>, tp: Partition, o: nat)
    requires Covered(log, ev, tp, o) && ev <= later
    ensures Covered(log, later, tp, o)
  {
    assert forall k :: 0 <= k < |ev| ==> later[k] == ev[k];
  }

  /** In particular every alert it read: a JSON object of at most 5 MiB with an id is upserted or
      dead-lettered. */
  lemma EveryAlertReadIsKept(log: Log, before: seq<Event>, s: Session, tp: Partition, o: nat)
    requires AtLeastOnceThroughout(log, before) && s.db.commit.DbOk?
    requires o < At(Run(log, Boot(before), s.turns).position, tp)
    ensures tp in log && o < |log[tp]|
    ensures log[tp][o].Record? ==>
      var m := log[tp][o].msg;
      m.size <= 5 * 1024 * 1024 && m.body.Object? && m.body.alertId != "" ==>
        Kept(SessionEvents(log, before, s), Item(m.body, tp, o))
  {
    NothingReadIsLost(log, before, s, tp, o);
  }

  /* ---- When a turn empties the batch ---- */

  /** One of the three commit attempts succeeds. */
  predicate Commits(t: Turn) {
    t.Attempt(0).Acknowledged? || t.Attempt(1).Acknowledged? || t.Attempt(2).Acknowledged?
  }

  lemma AttemptsOutcome(st: State, m: map<Partition, nat>, t: Turn)
    requires st.batch != [] && st.failures + 1 < 5
    ensures var next := CommitWithRetries(st, m, t, 0);
      && next.observed == st.observed
      && if Commits(t) then next.batch == [] && next.failures == 0 && next.acked == st.acked + m
         else next.batch == st.batch && next.failures == st.failures + 1 && next.acked == st.acked
  {
    var one := Offer(st, m, t.Attempt(0));
    var two := Offer(one, m, t.Attempt(1));
    var three := Offer(two, m, t.Attempt(2));
    assert CommitWithRetries(three, m, t, 3) == CountFailure(three, CommitThreshold, t.evacuation);
    assert CommitWithRetries(two, m, t, 2) ==
      if t.Attempt(2).Acknowledged? then three.(failures := 0, acked := two.acked + m, batch := [])
      else CommitWithRetries(three, m, t, 3);
    assert CommitWithRetries(one, m, t, 1) ==
      if t.Attempt(1).Acknowledged? then two.(failures := 0, acked := one.acked + m, batch := [])
      else CommitWithRetries(two, m, t, 2);
  }

  lemma FlushEmpties(st: State, t: Turn)
    requires st.batch != [] && st.failures + 1 < 5
    ensures var next := Flush(st, t);
      if t.db.commit.DbOk? && Commits(t) then next.batch == [] && next.failures == 0
      else next.batch == st.batch && next.failures == st.failures + 1
  {
    MaxOffsetsBound(st.batch, 0);
    var (done, offsets) := ProcessBatch(st, t.db);
    if t.db.commit.DbOk? {
      AttemptsOutcome(done, offsets, t);
    }
  }

  /** Below the failure threshold and the panic guard, a turn empties the batch if and only if it is time
      to flush, by size or by the clock, the database commits, and one of three offset commits succeeds;
      otherwise the batch is retained as polled. */
  lemma TurnEmptiesIff(log: Log, st: State, t: Turn, polled: State)
    requires polled == Polled(log, st, t) && 0 < |polled.batch| < 500 && polled.failures + 1 < 5
    ensures var next := Step(log, st, t);
      && (next.batch == [] <==> (|polled.batch| >= 100 || t.timerDue) && t.db.commit.DbOk? && Commits(t))
      && (next.batch != [] ==> next.batch == polled.batch)
      && next.failures == if next.batch == [] then 0
           else polled.failures + if |polled.batch| >= 100 || t.timerDue then 1 else 0
  {
    if FlushDue(polled, t) {
      FlushEmpties(polled, t);
    }
  }

  /** Waiting has no effect: a turn that is not due and has a batch leaves database, dead letters and
      offsets alone. */
  lemma WaitingIsQuiet(log: Log, st: State, t: Turn, polled: State)
    requires polled == Polled(log, st, t) && 0 < |polled.batch| < 100 && !t.timerDue
    ensures Step(log, st, t) == polled && polled.events == st.events
  {
    PollReadsOnly(log, st, t.fetch);
  }

  /** A poll that raises reads nothing. */
  lemma RaisedPollReadsNothing(log: Log, st: State, t: Turn)
    requires t.pollRaises
    ensures Polled(log, st, t) == st
  {
  }

  /* ---- Giving up ---- */

  /** Every item of the batch is handed to the dead-letter writer. */
  ghost predicate HandedOverAll(batch: seq<Item>, ev: seq<Event>, reason: Reason) {
    forall i :: i in batch ==> Dlq(i, reason) in ev
  }

  lemma EvacuationHandsOver(st: State, reason: Reason, out: CommitOutcome)
    ensures var next := Evacuate(st, reason, out);
      HandedOverAll(st.batch, next.events, reason) && next.batch == [] && next.failures == 0
  {
    forall i | i in st.batch ensures Dlq(i, reason) in Evacuate(st, reason, out).events {
      var k :| 0 <= k < |st.batch| && st.batch[k] == i;
      assert DlqAll(st.batch, reason)[k] == Dlq(i, reason);
    }
  }

  lemma ThreeRaised(st: State, m: map<Partition, nat>, t: Turn) returns (three: State)
    requires !Commits(t)
    ensures CommitWithRetries(st, m, t, 0) == CountFailure(three, CommitThreshold, t.evacuation)
    ensures three.batch == st.batch && three.failures == st.failures
  {
    var one := Offer(st, m, t.Attempt(0));
    var two := Offer(one, m, t.Attempt(1));
    three := Offer(two, m, t.Attempt(2));
    assert CommitWithRetries(three, m, t, 3) == CountFailure(three, CommitThreshold, t.evacuation);
    assert CommitWithRetries(two, m, t, 2) == CommitWithRetries(three, m, t, 3);
    assert CommitWithRetries(one, m, t, 1) == CommitWithRetries(two, m, t, 2);
  }

  lemma FifthFlush(st: State, t: Turn)
    requires st.batch != [] && st.failures == 4 && !(t.db.commit.DbOk? && Commits(t))
    ensures var next, reason := Flush(st, t), if t.db.commit.DbOk? then CommitThreshold else DatabaseThreshold;
      HandedOverAll(st.batch, next.events, reason) && next.batch == [] && next.failures == 0
  {
    MaxOffsetsBound(st.batch, 0);
    var (done, offsets) := ProcessBatch(st, t.db);
    var last := done;
    if t.db.commit.DbOk? {
      last := ThreeRaised(done, offsets, t);
      EvacuationHandsOver(last.(failures := 5), CommitThreshold, t.evacuation);
    } else {
      EvacuationHandsOver(last.(failures := 5), DatabaseThreshold, t.evacuation);
    }
  }

  lemma TailKeepsEffects(st: State, t: Turn, e: Event)
    requires e in st.events && st.batch == []
    ensures var next := PanicGuard(CommitStale(st, t.stale), t.panic);
      e in next.events && next.batch == [] && next.failures == st.failures
  {
  }

  /** The fifth failed flush in a row gives the batch up: every item is dead-lettered with the reason, the
      batch is empty and the count starts again. */
  lemma FifthFailureGivesUp(log: Log, st: State, t: Turn, polled: State, i: Item)
    requires polled == Polled(log, st, t) && polled.failures == 4 && i in polled.batch
    requires (|polled.batch| >= 100 || t.timerDue) && !(t.db.commit.DbOk? && Commits(t))
    ensures var next := Step(log, st, t);
      && Dlq(i, if t.db.commit.DbOk? then CommitThreshold else DatabaseThreshold) in next.events
      && next.batch == [] && next.failures == 0
  {
    FifthFlush(polled, t);
    TailKeepsEffects(Flush(polled, t), t, Dlq(i, if t.db.commit.DbOk? then CommitThreshold else DatabaseThreshold));
  }

  /** A batch of 500 never outlives its turn. */
  lemma PanicEmpties(log: Log, st: State, t: Turn)
    requires |Polled(log, st, t).batch| >= 500 && Polled(log, st, t).failures + 1 < 5
    ensures Step(log, st, t).batch == [] && Step(log, st, t).failures == 0
  {
    FlushEmpties(Polled(log, st, t), t);
  }

  /** What a stale commit would offer again after a batch was given up: what it would have before, less what
      the broker acknowledged for the batch, which the panic guard does not note. */
  lemma GivenUpIsNotStale(st: State, reason: Reason, out: CommitOutcome, tp: Partition)
    ensures var m, before, after := MaxOffsets(st.batch), StaleOffsets(st), StaleOffsets(Evacuate(st, reason, out));
      if out.Acknowledged? && reason != BatchPanic && tp in m then
        tp in after <==> tp in st.observed && st.observed[tp] > m[tp]
      else tp in after <==> tp in before
  {
  }

  /* ---- A database commit that raises ---- */

  /** A transaction that raises is retried either way, but its rows are there if it took effect, and none
      is written if it did not. */
  lemma RaisedCommitMayHaveWritten(st: State, db: DbOutcome, a: string)
    requires db.commit.DbRaised? && st.table == TableOf(st.events) && db.flushFails == {}
    ensures var (next, offsets) := ProcessBatch(st, db);
      && offsets == map[] && next.batch == st.batch && next.table == TableOf(next.events)
      && (!db.commit.applied ==> (a in next.table.rows <==> a in st.table.rows))
      && (db.commit.applied ==> forall i :: i in st.batch && i.body.Object? && i.body.valid ==>
            i.body.alertId in next.table.rows)
  {
    var ev, stored := st.events + Rejections(st.batch, {}), Stored(Survivors(st.batch, {}), db.gaps);
    RejectionsAndSurvivors(st.batch, {});
    RejectionsKeepTable(st.events, Rejections(st.batch, {}));
    Extend(ev, stored);
    Extend(ev, Burnt(db.burnt));
    SurvivorsHaveRows(ev, st.batch, stored);
  }

  lemma SurvivorsHaveRows(ev: seq<Event>, batch: seq<Item>, stored: Event)
    requires stored.Stored? && stored.items == Survivors(batch, {})
    ensures forall i :: i in batch && i.body.Object? && i.body.valid ==>
      i.body.alertId in TableOf(ev + [stored]).rows
  {
    StoredIsInTable(ev + [stored]);
    forall i | i in batch && i.body.Object? && i.body.valid ensures i.body.alertId in TableOf(ev + [stored]).rows {
      ValidSurvive(batch, i);
      assert (ev + [stored])[|ev|] == stored;
    }
  }

  lemma {:induction false} RejectionsKeepTable(ev: seq<Event>, es: seq<Event>)
    requires forall k :: 0 <= k < |es| ==> es[k].Dlq?
    ensures TableOf(ev + es) == TableOf(ev)
  {
    if es == [] {
      assert ev + es == ev;
    } else {
      var init, e := es[..|es|-1], es[|es|-1];
      assert ev + es == (ev + init) + [e];
      RejectionsKeepTable(ev, init);
      Extend(ev + init, e);
    }
  }
}
