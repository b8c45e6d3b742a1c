/** Which offsets a restarted sink can offer, and exactly when they cannot fall below an earlier offer. */
module SinkOffers {
  import opened SinkModel
  import opened SinkSteps
  import opened SinkSafety
  import opened SinkGuarantees

  /** There is a record, not a gap, at offset `o`, which is `c` or later. */
  predicate RecordFrom(log: Log, tp: Partition, c: nat, o: nat) {
    c <= o && tp in log && o < |log[tp]| && log[tp][o].Record?
  }

  /** `v` is one past such a record. */
  predicate EndsRecord(log: Log, tp: Partition, c: nat, v: nat) {
    v > 0 && RecordFrom(log, tp, c, v - 1)
  }

  ghost predicate BatchSourced(log: Log, batch: seq<Item>, tp: Partition, c: nat) {
    forall k :: 0 <= k < |batch| && batch[k].tp == tp ==> EndsRecord(log, tp, c, batch[k].offset + 1)
  }

  ghost predicate OffersSourced(log: Log, ev: seq<Event>, base: nat, tp: Partition, c: nat) {
    forall n :: base <= n < |ev| && ev[n].Commit? && tp in ev[n].offsets ==> EndsRecord(log, tp, c, ev[n].offsets[tp])
  }

  /** Everything the process has read, batched, observed and offered since its start ends a record at
      or after the offset it started from. */
  ghost predicate Sourced(log: Log, st: State, base: nat, tp: Partition, c: nat) {
    && c <= At(st.position, tp)
    && (tp in st.observed ==> EndsRecord(log, tp, c, st.observed[tp]))
    && BatchSourced(log, st.batch, tp, c)
    && base <= |st.events| && OffersSourced(log, st.events, base, tp, c)
  }

  /* ---- Poll ---- */

  lemma ReceiveSourced(log: Log, st: State, from: Partition, base: nat, tp: Partition, c: nat)
    requires Sourced(log, st, base, tp, c) && from in log && At(st.position, from) < |log[from]|
    ensures Sourced(log, Receive(st, from, At(st.position, from), log[from][At(st.position, from)]), base, tp, c)
  {
  }

  lemma {:induction false} FetchSourced(log: Log, st: State, from: Partition, upto: nat, base: nat, tp: Partition,
                                        c: nat)
    requires Sourced(log, st, base, tp, c)
    ensures Sourced(log, Fetch(log, st, from, upto), base, tp, c)
    decreases upto - At(st.position, from)
  {
    var o := At(st.position, from);
    if from !in log || o >= upto || o >= |log[from]| {
    } else {
      ReceiveSourced(log, st, from, base, tp, c);
      FetchSourced(log, Receive(st, from, o, log[from][o]), from, upto, base, tp, c);
    }
  }

  lemma {:induction false} PollSourced(log: Log, st: State, fetch: seq<(Partition, nat)>, base: nat, tp: Partition,
                                       c: nat)
    requires Sourced(log, st, base, tp, c)
    ensures Sourced(log, Poll(log, st, fetch), base, tp, c)
    decreases |fetch|
  {
    if fetch == [] {
    } else {
      FetchSourced(log, st, fetch[0].0, fetch[0].1, base, tp, c);
      PollSourced(log, Fetch(log, st, fetch[0].0, fetch[0].1), fetch[1..], base, tp, c);
    }
  }

  /* ---- Effects ---- */

  lemma QuietSourced(log: Log, ev: seq<Event>, es: seq<Event>, base: nat, tp: Partition, c: nat)
    requires OffersSourced(log, ev, base, tp, c) && forall k :: 0 <= k < |es| ==> !es[k].Commit?
    ensures OffersSourced(log, ev + es, base, tp, c)
  {
    forall n | base <= n < |ev + es| && (ev + es)[n].Commit? && tp in (ev + es)[n].offsets
      ensures EndsRecord(log, tp, c, (ev + es)[n].offsets[tp])
    {
      assert n < |ev| && (ev + es)[n] == ev[n];
    }
  }

  lemma OfferSourced(log: Log, st: State, m: map<Partition, nat>, out: CommitOutcome, base: nat, tp: Partition, c: nat)
    requires Sourced(log, st, base, tp, c) && (tp in m ==> EndsRecord(log, tp, c, m[tp]))
    ensures Sourced(log, Offer(st, m, out), base, tp, c)
  {
    var next := Offer(st, m, out);
    forall n | base <= n < |next.events| && next.events[n].Commit? && tp in next.events[n].offsets
      ensures EndsRecord(log, tp, c, next.events[n].offsets[tp])
    {
      if n < |st.events| {
        assert next.events[n] == st.events[n];
      }
    }
  }

  lemma BatchOfferSourced(log: Log, batch: seq<Item>, tp: Partition, c: nat)
    requires BatchSourced(log, batch, tp, c)
    ensures tp in MaxOffsets(batch) ==> EndsRecord(log, tp, c, MaxOffsets(batch)[tp])
  {
    MaxOffsetsIsLeastBound(batch);
  }

  lemma {:induction false} RejectionsAreQuiet(items: seq<Item>, fails: set<nat>)
    ensures forall k :: 0 <= k < |Rejections(items, fails)| ==> Rejections(items, fails)[k].Dlq?
  {
    if items == [] {
    } else {
      RejectionsAreQuiet(items[..|items|-1], fails);
    }
  }

  lemma ProcessBatchSourced(log: Log, st: State, db: DbOutcome, base: nat, tp: Partition, c: nat)
    requires Sourced(log, st, base, tp, c)
    ensures Sourced(log, ProcessBatch(st, db).0, base, tp, c)
  {
    var es := Rejections(st.batch, db.flushFails);
    var stored := Stored(Survivors(st.batch, db.flushFails), db.gaps);
    RejectionsAreQuiet(st.batch, db.flushFails);
    QuietSourced(log, st.events, es, base, tp, c);
    QuietSourced(log, st.events + es, [stored], base, tp, c);
    QuietSourced(log, st.events + es, [Burnt(db.burnt)], base, tp, c);
  }

  /* ---- The branches of a turn ---- */

  lemma EvacuateSourced(log: Log, st: State, reason: Reason, out: CommitOutcome, base: nat, tp: Partition, c: nat)
    requires Sourced(log, st, base, tp, c)
    ensures Sourced(log, Evacuate(st, reason, out), base, tp, c)
  {
    var handed := st.(events := st.events + DlqAll(st.batch, reason));
    QuietSourced(log, st.events, DlqAll(st.batch, reason), base, tp, c);
    BatchOfferSourced(log, st.batch, tp, c);
    OfferSourced(log, handed, MaxOffsets(st.batch), out, base, tp, c);
  }

  lemma CountFailureSourced(log: Log, st: State, reason: Reason, out: CommitOutcome, base: nat, tp: Partition, c: nat)
    requires Sourced(log, st, base, tp, c)
    ensures Sourced(log, CountFailure(st, reason, out), base, tp, c)
  {
    EvacuateSourced(log, st.(failures := st.failures + 1), reason, out, base, tp, c);
  }

  lemma {:induction false} CommitWithRetriesSourced(log: Log, st: State, m: map<Partition, nat>, t: Turn, n: nat,
                                                    base: nat,
                                                    tp: Partition, c: nat)
    requires Sourced(log, st, base, tp, c) && (tp in m ==> EndsRecord(log, tp, c, m[tp]))
    ensures Sourced(log, CommitWithRetries(st, m, t, n), base, tp, c)
    decreases MAX_COMMIT_RETRIES - n
  {
    if n >= MAX_COMMIT_RETRIES {
      CountFailureSourced(log, st, CommitThreshold, t.evacuation, base, tp, c);
    } else {
      OfferSourced(log, st, m, t.Attempt(n), base, tp, c);
      if !t.Attempt(n).Acknowledged? {
        CommitWithRetriesSourced(log, Offer(st, m, t.Attempt(n)), m, t, n + 1, base, tp, c);
      }
    }
  }

  lemma FlushSourced(log: Log, st: State, t: Turn, base: nat, tp: Partition, c: nat)
    requires Sourced(log, st, base, tp, c)
    ensures Sourced(log, Flush(st, t), base, tp, c)
  {
    ProcessBatchSourced(log, st, t.db, base, tp, c);
    var (done, offsets) := ProcessBatch(st, t.db);
    BatchOfferSourced(log, st.batch, tp, c);
    if offsets != map[] {
      CommitWithRetriesSourced(log, done, offsets, t, 0, base, tp, c);
    } else {
      CountFailureSourced(log, done, DatabaseThreshold, t.evacuation, base, tp, c);
    }
  }

  lemma TailSourced(log: Log, st: State, t: Turn, base: nat, tp: Partition, c: nat)
    requires Sourced(log, st, base, tp, c)
    ensures Sourced(log, PanicGuard(CommitStale(st, t.stale), t.panic), base, tp, c)
  {
    OfferSourced(log, st, StaleOffsets(st), t.stale, base, tp, c);
    EvacuateSourced(log, CommitStale(st, t.stale), BatchPanic, t.panic, base, tp, c);
  }

  lemma StepSourced(log: Log, st: State, t: Turn, base: nat, tp: Partition, c: nat)
    requires Sourced(log, st, base, tp, c)
    ensures Sourced(log, Step(log, st, t), base, tp, c)
  {
    PollSourced(log, st, t.fetch, base, tp, c);
    var polled := Polled(log, st, t);
    FlushSourced(log, polled, t, base, tp, c);
    TailSourced(log, if FlushDue(polled, t) then Flush(polled, t) else polled, t, base, tp, c);
  }

  lemma {:induction false} RunSourced(log: Log, st: State, ts: seq<Turn>, base: nat, tp: Partition, c: nat)
    requires Sourced(log, st, base, tp, c)
    ensures Sourced(log, Run(log, st, ts), base, tp, c)
  {
    if ts == [] {
    } else {
      RunSourced(log, st, ts[..|ts|-1], base, tp, c);
      StepSourced(log, Run(log, st, ts[..|ts|-1]), ts[|ts|-1], base, tp, c);
    }
  }

  lemma DrainSourced(log: Log, st: State, db: DbOutcome, out: CommitOutcome, base: nat, tp: Partition, c: nat)
    requires Sourced(log, st, base, tp, c)
    ensures Sourced(log, Drain(st, db, out), base, tp, c)
  {
    ProcessBatchSourced(log, st, db, base, tp, c);
    var (done, offsets) := ProcessBatch(st, db);
    BatchOfferSourced(log, st.batch, tp, c);
    if offsets != map[] {
      OfferSourced(log, done, offsets, out, base, tp, c);
    }
  }

  /** Whatever a life offers for a partition ends a record at or after the committed offset it began
      with. */
  lemma SessionOffersSourced(log: Log, before: seq<Event>, s: Session, tp: Partition)
    ensures OffersSourced(log, SessionEvents(log, before, s), |before|, tp, At(Committed(before), tp))
  {
    var c := At(Committed(before), tp);
    RunSourced(log, Boot(before), s.turns, |before|, tp, c);
    DrainSourced(log, Run(log, Boot(before), s.turns), s.db, s.last, |before|, tp, c);
  }

  /* ---- A life that offers one past a given record ---- */

  lemma {:induction false} FetchObserves(log: Log, st: State, tp: Partition, o: nat)
    requires RecordFrom(log, tp, At(st.position, tp), o)
    requires tp in st.observed ==> st.observed[tp] <= At(st.position, tp)
    ensures var next := Fetch(log, st, tp, o + 1); tp in next.observed && next.observed[tp] == o + 1
    decreases o - At(st.position, tp)
  {
    var q := At(st.position, tp);
    var next := Receive(st, tp, q, log[tp][q]);
    assert At(next.position, tp) == q + 1;
    if q == o {
      assert Fetch(log, next, tp, o + 1) == next;
    } else {
      FetchObserves(log, next, tp, o);
    }
  }

  function ReadingTurn(tp: Partition, o: nat): Turn {
    Turn(false, [(tp, o + 1)], true, DbOutcome({}, DbOk, [], 0), [], Acknowledged, Acknowledged, Acknowledged)
  }

  /** Reads up to offset `o`, flushes without a fault, and ends. */
  function ReadingSession(tp: Partition, o: nat): Session {
    Session([ReadingTurn(tp, o)], DbOutcome({}, DbOk, [], 0), Acknowledged, 0)
  }

  lemma ReadingPoll(log: Log, before: seq<Event>, tp: Partition, o: nat)
    requires RecordFrom(log, tp, At(Committed(before), tp), o)
    ensures var polled := Polled(log, Boot(before), ReadingTurn(tp, o));
      tp in polled.observed && polled.observed[tp] == o + 1
  {
    var b, t := Boot(before), ReadingTurn(tp, o);
    FetchObserves(log, b, tp, o);
    var fetched := Fetch(log, b, tp, o + 1);
    assert t.fetch[0] == (tp, o + 1) && t.fetch[1..] == [];
    assert Poll(log, b, t.fetch) == Poll(log, fetched, []) == fetched;
  }

  lemma ReadingTurnCommits(log: Log, before: seq<Event>, tp: Partition, o: nat)
    requires AtLeastOnceThroughout(log, before) && RecordFrom(log, tp, At(Committed(before), tp), o)
    ensures var next := Step(log, Boot(before), ReadingTurn(tp, o));
      next.batch == [] && At(Committed(next.events), tp) == o + 1
  {
    var b, t := Boot(before), ReadingTurn(tp, o);
    BootEstablishesInv(log, before);
    ReadingPoll(log, before, tp, o);
    var polled := Polled(log, b, t);
    if FlushDue(polled, t) {
      CleanTurnCommitsEverything(log, b, t, |before|, tp);
    } else {
      PollKeepsInv(log, b, t.fetch, |before|);
      StaleCommitCatchesUp(log, polled, t.stale, |before|, tp);
    }
  }

  lemma ReadingSessionCommits(log: Log, before: seq<Event>, tp: Partition, o: nat)
    requires AtLeastOnceThroughout(log, before) && RecordFrom(log, tp, At(Committed(before), tp), o)
    ensures At(Committed(SessionEvents(log, before, ReadingSession(tp, o))), tp) == o + 1
  {
    var b, t := Boot(before), ReadingTurn(tp, o);
    ReadingTurnCommits(log, before, tp, o);
    RunCons(log, b, t, []);
    assert [t] + [] == [t];
  }

  /** A committed offset that moved was offered. */
  lemma {:induction false} MovedWasOffered(ev: seq<Event>, base: nat, tp: Partition) returns (n: nat)
    requires base <= |ev| && At(Committed(ev), tp) != At(Committed(ev[..base]), tp)
    ensures base <= n < |ev| && ev[n].Commit? && tp in ev[n].offsets && ev[n].offsets[tp] == At(Committed(ev), tp)
    decreases |ev|
  {
    assert |ev| > base by {
      assert ev[..|ev|] == ev;
    }
    var init, e := ev[..|ev|-1], ev[|ev|-1];
    assert ev == init + [e];
    Extend(init, e);
    if At(Committed(init), tp) == At(Committed(ev), tp) {
      assert init[..base] == ev[..base];
      n := MovedWasOffered(init, base, tp);
    } else {
      n := |ev| - 1;
    }
  }

  /* ---- The exact condition ---- */

  ghost predicate OffersAtLeast(log: Log, before: seq<Event>, s: Session, tp: Partition, m: nat) {
    var ev := SessionEvents(log, before, s);
    forall n :: |before| <= n < |ev| && ev[n].Commit? && tp in ev[n].offsets ==> m <= ev[n].offsets[tp]
  }

  lemma LowRecordLowersOffers(log: Log, before: seq<Event>, tp: Partition, o: nat, m: nat)
    requires AtLeastOnceThroughout(log, before) && RecordFrom(log, tp, At(Committed(before), tp), o) && o + 1 < m
    ensures !OffersAtLeast(log, before, ReadingSession(tp, o), tp, m)
  {
    var s := ReadingSession(tp, o);
    var ev := SessionEvents(log, before, s);
    SessionExtends(log, before, s);
    assert ev[..|before|] == before;
    ReadingSessionCommits(log, before, tp, o);
    var n := MovedWasOffered(ev, |before|, tp);
  }

  /** No record from `c` on lies before `m - 1`. */
  ghost predicate RecordsAtLeast(log: Log, tp: Partition, c: nat, m: nat) {
    forall o: nat :: RecordFrom(log, tp, c, o) ==> m <= o + 1
  }

  /** No next life, whatever it reads and whatever fails, offers less than `m`. */
  ghost predicate NextOffersAtLeast(log: Log, before: seq<Event>, tp: Partition, m: nat) {
    forall s :: OffersAtLeast(log, before, s, tp, m)
  }

  lemma HighRecordsKeepOffers(log: Log, before: seq<Event>, s: Session, tp: Partition, m: nat)
    requires RecordsAtLeast(log, tp, At(Committed(before), tp), m)
    ensures OffersAtLeast(log, before, s, tp, m)
  {
    SessionOffersSourced(log, before, s, tp);
  }

  lemma OffersNeedHighRecords(log: Log, before: seq<Event>, tp: Partition, m: nat)
    requires AtLeastOnceThroughout(log, before) && NextOffersAtLeast(log, before, tp, m)
    ensures RecordsAtLeast(log, tp, At(Committed(before), tp), m)
  {
    forall o: nat | RecordFrom(log, tp, At(Committed(before), tp), o) ensures m <= o + 1 {
      if o + 1 < m {
        assert OffersAtLeast(log, before, ReadingSession(tp, o), tp, m);
        LowRecordLowersOffers(log, before, tp, o, m);
      }
    }
  }

  /** Exactly when restarting cannot lower an offer: no next life offers less than `m` (an earlier offer,
      say) if and only if every record from the committed offset on lies at `m - 1` or later. */
  lemma NextOffersHoldIff(log: Log, ss: seq<Session>, before: seq<Event>, tp: Partition, m: nat)
    requires before == Lifetime(log, ss)
    ensures NextOffersAtLeast(log, before, tp, m) <==> RecordsAtLeast(log, tp, At(Committed(before), tp), m)
  {
    LifetimeIsSafe(log, ss, before);
    if NextOffersAtLeast(log, before, tp, m) {
      OffersNeedHighRecords(log, before, tp, m);
    }
    if RecordsAtLeast(log, tp, At(Committed(before), tp), m) {
      forall s ensures OffersAtLeast(log, before, s, tp, m) {
        HighRecordsKeepOffers(log, before, s, tp, m);
      }
    }
  }

  /* ---- Every continuation ---- */

  /** No later life offers less than `m`, however many follow. */
  ghost predicate LaterOffersAtLeast(log: Log, ss: seq<Session>, more: seq<Session>, tp: Partition, m: nat) {
    var base, ev := |Lifetime(log, ss)|, Lifetime(log, ss + more);
    forall n :: base <= n < |ev| && ev[n].Commit? && tp in ev[n].offsets ==> m <= ev[n].offsets[tp]
  }

  ghost predicate AllLaterOffersAtLeast(log: Log, ss: seq<Session>, tp: Partition, m: nat) {
    forall more :: LaterOffersAtLeast(log, ss, more, tp, m)
  }

  lemma OneMoreLife(log: Log, ss: seq<Session>, more: seq<Session>)
    requires more != []
    ensures Lifetime(log, ss + more) == Lived(log, Lifetime(log, ss + more[..|more|-1]), more[|more|-1])
  {
    SplitLast(ss, more);
    SnocLife(log, ss + more, ss + more[..|more|-1], more[|more|-1]);
  }

  lemma SplitLast(ss: seq<Session>, more: seq<Session>)
    requires more != []
    ensures ss + more == ss + more[..|more|-1] + [more[|more|-1]]
  {
  }

  lemma LivedExtends(log: Log, before: seq<Event>, s: Session)
    ensures before <= Lived(log, before, s) <= SessionEvents(log, before, s)
  {
    SessionExtends(log, before, s);
  }

  lemma {:induction false} LifetimeExtends(log: Log, ss: seq<Session>, more: seq<Session>)
    ensures Lifetime(log, ss) <= Lifetime(log, ss + more)
  {
    if more == [] {
      assert ss + more == ss;
    } else {
      LifetimeExtends(log, ss, more[..|more|-1]);
      OneMoreLife(log, ss, more);
      LivedExtends(log, Lifetime(log, ss + more[..|more|-1]), more[|more|-1]);
    }
  }

  /** What is left to read only shrinks. */
  lemma RecordsStayHigh(log: Log, ss: seq<Session>, more: seq<Session>, tp: Partition, m: nat)
    requires RecordsAtLeast(log, tp, At(Committed(Lifetime(log, ss)), tp), m)
    ensures RecordsAtLeast(log, tp, At(Committed(Lifetime(log, ss + more)), tp), m)
  {
    var before, ev := Lifetime(log, ss), Lifetime(log, ss + more);
    LifetimeExtends(log, ss, more);
    CommittedNeverDecreases(log, ss + more, |before|, |ev|, tp);
    assert ev[..|before|] == before && ev[..|ev|] == ev;
    forall o: nat | RecordFrom(log, tp, At(Committed(ev), tp), o) ensures m <= o + 1 {
      assert RecordFrom(log, tp, At(Committed(before), tp), o);
    }
  }

  lemma {:induction false} HighRecordsKeepLaterOffers(log: Log, ss: seq<Session>, more: seq<Session>, tp: Partition,
                                                      m: nat)
    requires RecordsAtLeast(log, tp, At(Committed(Lifetime(log, ss)), tp), m)
    ensures LaterOffersAtLeast(log, ss, more, tp, m)
  {
    if more == [] {
      assert ss + more == ss;
    } else {
      var init, s := more[..|more|-1], more[|more|-1];
      var before := Lifetime(log, ss + init);
      HighRecordsKeepLaterOffers(log, ss, init, tp, m);
      RecordsStayHigh(log, ss, init, tp, m);
      HighRecordsKeepOffers(log, before, s, tp, m);
      OneMoreLife(log, ss, more);
      LivedExtends(log, before, s);
      LivedKeepsOffers(log, before, s, |Lifetime(log, ss)|, tp, m);
    }
  }

  lemma LivedKeepsOffers(log: Log, before: seq<Event>, s: Session, base: nat, tp: Partition, m: nat)
    requires OffersAtLeast(log, before, s, tp, m)
    requires forall n :: base <= n < |before| && before[n].Commit? && tp in before[n].offsets ==>
      m <= before[n].offsets[tp]
    ensures var ev := Lived(log, before, s);
      forall n :: base <= n < |ev| && ev[n].Commit? && tp in ev[n].offsets ==> m <= ev[n].offsets[tp]
  {
    var ev, after := Lived(log, before, s), SessionEvents(log, before, s);
    LivedExtends(log, before, s);
    forall n | base <= n < |ev| && ev[n].Commit? && tp in ev[n].offsets ensures m <= ev[n].offsets[tp] {
      assert ev[n] == after[n];
      if n < |before| {
        assert ev[n] == before[n];
      }
    }
  }

  lemma OneCleanLife(log: Log, ss: seq<Session>, before: seq<Event>, s: Session, clean: Session)
    requires before == Lifetime(log, ss) && clean == s.(dies := |SessionEvents(log, before, s)| + 1)
    ensures Lifetime(log, ss + [clean]) == SessionEvents(log, before, s)
  {
    OneMoreLife(log, ss, [clean]);
    assert [clean][..0] == [] && ss + [] == ss;
    assert SessionEvents(log, before, clean) == SessionEvents(log, before, s);
  }

  /** The next life is one of the continuations. */
  lemma LaterIncludesNext(log: Log, ss: seq<Session>, s: Session, tp: Partition, m: nat)
    requires AllLaterOffersAtLeast(log, ss, tp, m)
    ensures OffersAtLeast(log, Lifetime(log, ss), s, tp, m)
  {
    var before := Lifetime(log, ss);
    var clean := s.(dies := |SessionEvents(log, before, s)| + 1);
    OneCleanLife(log, ss, before, s, clean);
    assert LaterOffersAtLeast(log, ss, [clean], tp, m);
  }

  /** The same condition decides over every continuation: no life to come, however many follow and
      wherever they die, offers less than `m` if and only if every record from the committed offset on lies
      at `m - 1` or later. */
  lemma LaterOffersHoldIff(log: Log, ss: seq<Session>, tp: Partition, m: nat)
    ensures AllLaterOffersAtLeast(log, ss, tp, m)
      <==> RecordsAtLeast(log, tp, At(Committed(Lifetime(log, ss)), tp), m)
  {
    var before := Lifetime(log, ss);
    if AllLaterOffersAtLeast(log, ss, tp, m) {
      forall s ensures OffersAtLeast(log, before, s, tp, m) {
        LaterIncludesNext(log, ss, s, tp, m);
      }
      NextOffersHoldIff(log, ss, before, tp, m);
    }
    if RecordsAtLeast(log, tp, At(Committed(before), tp), m) {
      forall more ensures LaterOffersAtLeast(log, ss, more, tp, m) {
        HighRecordsKeepLaterOffers(log, ss, more, tp, m);
      }
    }
  }

  lemma LifetimeIsSafe(log: Log, ss: seq<Session>, before: seq<Event>)
    requires before == Lifetime(log, ss)
    ensures AtLeastOnceThroughout(log, before)
  {
    LifetimeThroughout(log, ss);
  }
}
