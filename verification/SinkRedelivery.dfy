/** When redelivery leaves the alert table that a single pass over the partition gives, over whole
    lifetimes of the sink. */
module SinkRedelivery {
  import opened AlertTable
  import opened SinkModel
  import opened SinkSteps
  import opened SinkReplay
  import opened SinkConvergence
  import opened SinkGuarantees

  /* ---- How far the upserts went ---- */

  ghost predicate StoredBelow(ev: seq<Event>, h: nat) {
    forall k, i :: 0 <= k < |ev| && ev[k].Stored? && i in ev[k].items ==> i.offset < h
  }

  ghost predicate StoredAt(ev: seq<Event>, o: nat) {
    exists k, i :: 0 <= k < |ev| && ev[k].Stored? && i in ev[k].items && i.offset == o
  }

  /** `h` is one past the highest offset upserted so far. */
  ghost predicate StoredUpTo(ev: seq<Event>, h: nat) {
    StoredBelow(ev, h) && (h == 0 || StoredAt(ev, h - 1))
  }

  lemma StretchEnds(slots: seq<Slot>, p: Partition, items: seq<Item>)
    requires items != []
    requires var r := StretchOf(slots, p, items);
      r.hi <= Count(slots, p, |slots|) && items == Written(slots, p, |slots|)[r.lo..r.hi]
    ensures StretchOf(slots, p, items).hi == Count(slots, p, items[|items|-1].offset + 1)
  {
    PlaceOf(slots, p, |slots|, StretchOf(slots, p, items).hi - 1);
  }

  lemma StretchBelow(slots: seq<Slot>, p: Partition, items: seq<Item>, h: nat)
    requires items != [] && forall i :: i in items ==> i.offset < h
    requires var r := StretchOf(slots, p, items);
      r.hi <= Count(slots, p, |slots|) && items == Written(slots, p, |slots|)[r.lo..r.hi]
    ensures StretchOf(slots, p, items).hi <= Count(slots, p, h)
  {
    StretchEnds(slots, p, items);
    assert items[|items|-1] in items;
    CountGrows(slots, p, items[|items|-1].offset + 1, h);
  }

  lemma StretchAbove(slots: seq<Slot>, p: Partition, items: seq<Item>, i: Item)
    requires i in items
    requires var r := StretchOf(slots, p, items);
      r.hi <= Count(slots, p, |slots|) && items == Written(slots, p, |slots|)[r.lo..r.hi]
    ensures Count(slots, p, i.offset + 1) <= StretchOf(slots, p, items).hi
  {
    var k :| 0 <= k < |items| && items[k] == i;
    PlaceOf(slots, p, |slots|, StretchOf(slots, p, items).lo + k);
  }

  lemma ReachOneMore(rs: seq<Range>, r: Range)
    ensures Reach(rs + [r]) == if Reach(rs) > r.hi then Reach(rs) else r.hi
  {
    assert (rs + [r])[..|rs|] == rs;
  }

  lemma {:induction false} ReachBelow(slots: seq<Slot>, p: Partition, ev: seq<Event>, h: nat)
    requires Orderly(slots, p, ev) && !Evacuated(ev) && StoredBelow(ev, h)
    ensures Reach(Stretches(slots, p, ev)) <= Count(slots, p, h)
  {
    if ev == [] {
    } else {
      var init, e := ev[..|ev|-1], ev[|ev|-1];
      assert ev == init + [e];
      OrderlyPrefix(slots, p, ev, |ev| - 1);
      assert StoredBelow(init, h) by {
        assert forall k :: 0 <= k < |init| ==> init[k] == ev[k];
      }
      ReachBelow(slots, p, init, h);
      assert OrderlyNext(slots, p, init, e);
      StretchesExtend(slots, p, init, e);
      if e.Stored? && e.items != [] {
        ReachOneMore(Stretches(slots, p, init), StretchOf(slots, p, e.items));
        StretchBelow(slots, p, e.items, h);
      }
    }
  }

  lemma {:induction false} ReachAbove(slots: seq<Slot>, p: Partition, ev: seq<Event>, k: nat, i: Item)
    requires Orderly(slots, p, ev) && !Evacuated(ev) && k < |ev| && ev[k].Stored? && i in ev[k].items
    ensures Count(slots, p, i.offset + 1) <= Reach(Stretches(slots, p, ev))
  {
    var init, e := ev[..|ev|-1], ev[|ev|-1];
    assert ev == init + [e];
    OrderlyPrefix(slots, p, ev, |ev| - 1);
    StretchesExtend(slots, p, init, e);
    if e.Stored? && e.items != [] {
      ReachOneMore(Stretches(slots, p, init), StretchOf(slots, p, e.items));
    }
    if k < |init| {
      ReachAbove(slots, p, init, k, i);
    } else {
      assert OrderlyNext(slots, p, init, e);
      StretchAbove(slots, p, e.items, i);
    }
  }

  lemma ReachesTop(slots: seq<Slot>, p: Partition, ev: seq<Event>, o: nat)
    requires Orderly(slots, p, ev) && !Evacuated(ev) && StoredAt(ev, o)
    ensures Count(slots, p, o + 1) <= Reach(Stretches(slots, p, ev))
  {
    var k, i :| 0 <= k < |ev| && ev[k].Stored? && i in ev[k].items && i.offset == o;
    ReachAbove(slots, p, ev, k, i);
  }

  lemma TopIsReached(slots: seq<Slot>, p: Partition, ev: seq<Event>, h: nat)
    requires Orderly(slots, p, ev) && !Evacuated(ev) && (h == 0 || StoredAt(ev, h - 1))
    ensures Count(slots, p, h) <= Reach(Stretches(slots, p, ev))
  {
    if h > 0 {
      ReachesTop(slots, p, ev, h - 1);
    }
  }

  /** The stretches together reach as far as the single pass below `h`. */
  lemma StretchesReach(slots: seq<Slot>, p: Partition, ev: seq<Event>, h: nat)
    requires Orderly(slots, p, ev) && !Evacuated(ev) && StoredUpTo(ev, h)
    ensures Reach(Stretches(slots, p, ev)) == Count(slots, p, h)
  {
    ReachBelow(slots, p, ev, h);
    TopIsReached(slots, p, ev, h);
  }

  lemma WritesOfPrefix(slots: seq<Slot>, p: Partition, h: nat)
    ensures Count(slots, p, h) <= Count(slots, p, |slots|)
    ensures Writes(Written(slots, p, |slots|))[..Count(slots, p, h)] == Writes(Written(slots, p, h))
  {
    WrittenIsPrefix(slots, p, h);
    forall k | 0 <= k < Count(slots, p, h) ensures Written(slots, p, |slots|)[k] == Written(slots, p, h)[k] {
      assert Written(slots, p, |slots|)[..Count(slots, p, h)][k] == Written(slots, p, |slots|)[k];
    }
  }

  /* ---- Exactly when the table is that of a single pass ---- */

  /** The batch that wrote `a` last ends with the columns `f` for it. */
  ghost predicate LastBatchCarries(ev: seq<Event>, a: string, f: Fields) {
    ev != [] &&
    var e := ev[|ev|-1];
    if e.Stored? && Occurs(Writes(e.items), a) then Latest(Writes(e.items), a) == f
    else LastBatchCarries(ev[..|ev|-1], a, f)
  }

  lemma {:induction false} BatchesCarryAsStretches(slots: seq<Slot>, p: Partition, ev: seq<Event>, a: string, f: Fields)
    requires Orderly(slots, p, ev) && !Evacuated(ev)
    ensures Chained(Writes(Written(slots, p, |slots|)), Stretches(slots, p, ev))
    ensures LastBatchCarries(ev, a, f) <==>
      LastCarries(Writes(Written(slots, p, |slots|)), Stretches(slots, p, ev), a, f)
  {
    OrderlyReplays(slots, p, ev);
    if ev == [] {
    } else {
      var init, e := ev[..|ev|-1], ev[|ev|-1];
      assert ev == init + [e];
      OrderlyPrefix(slots, p, ev, |ev| - 1);
      BatchesCarryAsStretches(slots, p, init, a, f);
      StretchesExtend(slots, p, init, e);
      if e.Stored? && e.items != [] {
        assert OrderlyNext(slots, p, init, e);
        OneMoreStretch(slots, p, Stretches(slots, p, init), StretchOf(slots, p, e.items), e.items, a, f);
      }
    }
  }

  lemma OneMoreStretch(slots: seq<Slot>, p: Partition, rs: seq<Range>, r: Range, items: seq<Item>, a: string, f: Fields)
    requires var all := Writes(Written(slots, p, |slots|)); Chained(all, rs) && Chained(all, rs + [r])
    requires r.lo <= r.hi <= Count(slots, p, |slots|) && items == Written(slots, p, |slots|)[r.lo..r.hi]
    ensures var all := Writes(Written(slots, p, |slots|));
      LastCarries(all, rs + [r], a, f) <==>
        if Occurs(Writes(items), a) then Latest(Writes(items), a) == f else LastCarries(all, rs, a, f)
  {
    assert (rs + [r])[..|rs|] == rs;
    assert Writes(items) == Writes(Written(slots, p, |slots|))[r.lo..r.hi];
  }

  lemma AlikeSame(t: Table, r: Table, u: Table)
    requires Alike(t, r) && r.rows.Keys == u.rows.Keys && r.nextId == u.nextId
    requires forall a :: a in u.rows ==> r.rows[a].id == u.rows[a].id
    ensures Alike(t, u) <==> r == u
  {
    if Alike(t, u) {
      forall a | a in r.rows ensures a in u.rows && r.rows[a] == u.rows[a] {
        assert a in r.rows.Keys && a in t.rows.Keys;
      }
      assert r.rows == u.rows;
    }
  }

  lemma OrderlyConvergesIff(slots: seq<Slot>, p: Partition, ev: seq<Event>, h: nat, pass: seq<Write>)
    requires Orderly(slots, p, ev) && !Evacuated(ev) && StoredUpTo(ev, h) && pass == Writes(Written(slots, p, h))
    ensures Alike(TableOf(ev), UpsertAll(EMPTY, pass)) <==>
      forall a :: Occurs(pass, a) ==> LastBatchCarries(ev, a, Latest(pass, a))
  {
    var all, rs := Writes(Written(slots, p, |slots|)), Stretches(slots, p, ev);
    OrderlyReplays(slots, p, ev);
    StretchesReach(slots, p, ev, h);
    WritesOfPrefix(slots, p, h);
    ReplayRows(all, rs);
    ReplayConvergesIff(all, rs);
    AlikeSame(TableOf(ev), Replay(all, rs), UpsertAll(EMPTY, pass));
    forall a | Occurs(pass, a)
      ensures LastBatchCarries(ev, a, Latest(pass, a)) <==> LastCarries(all, rs, a, Latest(pass, a))
    {
      BatchesCarryAsStretches(slots, p, ev, a, Latest(pass, a));
    }
  }

  /** Redelivery over whole lifetimes: whatever is retained, retried, read again after a crash or
      committed ambiguously, as long as no batch was given up on, the table holds the alerts, columns and
      order of a single pass over the offsets upserted so far if and only if every alert was written
      last by a batch that ends with its final columns. The last life can die after any of its effects,
      so this speaks of any moment. */
  lemma LifetimeConvergesIff(log: Log, p: Partition, ss: seq<Session>, ev: seq<Event>, h: nat, pass: seq<Write>)
    requires log.Keys <= {p} && NoFlushFails(ss) && ev == Lifetime(log, ss) && !Evacuated(ev)
    requires StoredUpTo(ev, h) && pass == Writes(Written(Slots(log, p), p, h))
    ensures Alike(TableOf(ev), UpsertAll(EMPTY, pass)) <==>
      forall a :: Occurs(pass, a) ==> LastBatchCarries(ev, a, Latest(pass, a))
  {
    LifetimeIsOrderly(log, p, ss);
    OrderlyConvergesIff(Slots(log, p), p, ev, h, pass);
  }

  /* ---- Caught up ---- */

  /** The `k`-th effect is the last one that upserted anything, and it went as far as any. */
  ghost predicate CaughtUpBy(ev: seq<Event>, k: nat) {
    && k < |ev| && ev[k].Stored? && ev[k].items != []
    && (forall j :: k < j < |ev| && ev[j].Stored? ==> ev[j].items == [])
    && StoredBelow(ev, ev[k].items[|ev[k].items|-1].offset + 1)
  }

  function LastStored(ev: seq<Event>): seq<Item> {
    if ev == [] then []
    else if ev[|ev|-1].Stored? && ev[|ev|-1].items != [] then ev[|ev|-1].items
    else LastStored(ev[..|ev|-1])
  }

  lemma {:induction false} LastStoredIs(ev: seq<Event>, k: nat)
    requires CaughtUpBy(ev, k)
    ensures LastStored(ev) == ev[k].items
  {
    LastStoredFrom(ev, k, |ev|);
    assert ev[..|ev|] == ev;
  }

  lemma {:induction false} LastStoredFrom(ev: seq<Event>, k: nat, n: nat)
    requires k < n <= |ev| && ev[k].Stored? && ev[k].items != []
    requires forall j :: k < j < n && ev[j].Stored? ==> ev[j].items == []
    ensures LastStored(ev[..n]) == ev[k].items
    decreases n
  {
    assert ev[..n][..n-1] == ev[..n-1] && ev[..n][n-1] == ev[n-1];
    if k == n - 1 {
    } else {
      LastStoredFrom(ev, k, n - 1);
    }
  }

  lemma {:induction false} LastStoredEnds(slots: seq<Slot>, p: Partition, ev: seq<Event>)
    requires Orderly(slots, p, ev) && !Evacuated(ev) && LastStored(ev) != []
    ensures Stretches(slots, p, ev) != []
    ensures LastHi(slots, p, ev) == Count(slots, p, LastStored(ev)[|LastStored(ev)|-1].offset + 1)
  {
    var init, e := ev[..|ev|-1], ev[|ev|-1];
    assert ev == init + [e];
    LastHiExtend(slots, p, init, e);
    if e.Stored? && e.items != [] {
      assert OrderlyNext(slots, p, init, e);
      StretchEnds(slots, p, e.items);
    } else {
      OrderlyPrefix(slots, p, ev, |ev| - 1);
      LastStoredEnds(slots, p, init);
    }
  }

  lemma StretchesEnd(slots: seq<Slot>, p: Partition, ev: seq<Event>, h: nat)
    requires Orderly(slots, p, ev) && !Evacuated(ev) && StoredUpTo(ev, h)
    requires LastStored(ev) != [] && LastStored(ev)[|LastStored(ev)|-1].offset + 1 == h
    ensures Reach(Stretches(slots, p, ev)) == Count(slots, p, h)
    ensures Stretches(slots, p, ev) != [] && LastHi(slots, p, ev) == Count(slots, p, h)
  {
    StretchesReach(slots, p, ev, h);
    LastStoredEnds(slots, p, ev);
  }

  lemma ReplayedToTheEnd(slots: seq<Slot>, p: Partition, t: Table, rs: seq<Range>, h: nat)
    requires Replays(slots, p, t, rs) && rs != []
    requires rs[|rs|-1].hi == Reach(rs) == Count(slots, p, h)
    ensures Alike(t, UpsertAll(EMPTY, Writes(Written(slots, p, h))))
  {
    ReplayConverges(Writes(Written(slots, p, |slots|)), rs);
    WritesOfPrefix(slots, p, h);
  }

  lemma OrderlyConverges(slots: seq<Slot>, p: Partition, ev: seq<Event>, h: nat)
    requires Orderly(slots, p, ev) && !Evacuated(ev) && StoredUpTo(ev, h)
    requires LastStored(ev) != [] && LastStored(ev)[|LastStored(ev)|-1].offset + 1 == h
    ensures Alike(TableOf(ev), UpsertAll(EMPTY, Writes(Written(slots, p, h))))
  {
    OrderlyReplays(slots, p, ev);
    StretchesEnd(slots, p, ev, h);
    ReplayedToTheEnd(slots, p, TableOf(ev), Stretches(slots, p, ev), h);
  }

  lemma CaughtUpIsUpTo(ev: seq<Event>, k: nat)
    requires CaughtUpBy(ev, k)
    ensures StoredUpTo(ev, ev[k].items[|ev[k].items|-1].offset + 1)
  {
    var last := ev[k].items[|ev[k].items|-1];
    assert last in ev[k].items && StoredAt(ev, last.offset);
  }

  /** In particular once the batch upserted last ends with the highest offset upserted so far. */
  lemma LifetimeConverges(log: Log, p: Partition, ss: seq<Session>, ev: seq<Event>, k: nat, h: nat)
    requires log.Keys <= {p} && NoFlushFails(ss) && ev == Lifetime(log, ss) && !Evacuated(ev)
    requires CaughtUpBy(ev, k) && h == ev[k].items[|ev[k].items|-1].offset + 1
    ensures Alike(TableOf(ev), UpsertAll(EMPTY, Writes(Written(Slots(log, p), p, h))))
  {
    LifetimeIsOrderly(log, p, ss);
    LastStoredIs(ev, k);
    CaughtUpIsUpTo(ev, k);
    OrderlyConverges(Slots(log, p), p, ev, h);
  }

  /* ---- A lifetime that puts an old column back ---- */

  function BodyOf(text: string): Body {
    Object("a", [text], true)
  }

  /** Two versions of one alert. */
  function OldAndNew(): Log {
    map[0 := [Record(Message(1, BodyOf("old"))), Record(Message(1, BodyOf("new")))]]
  }

  function FirstItems(n: nat): seq<Item>
    requires 1 <= n <= 2
  {
    [Item(BodyOf("old"), 0, 0)] + if n == 2 then [Item(BodyOf("new"), 0, 1)] else []
  }

  /** A life that upserts the first `n` of them and dies before it commits an offset. */
  function DyingSession(n: nat, dies: nat): Session {
    var db := DbOutcome({}, DbOk, [], 0);
    Session([Turn(false, [(0, n)], true, db, [], Acknowledged, Acknowledged, Acknowledged)], db, Acknowledged, dies)
  }

  lemma DyingPoll(b: State, n: nat, t: Turn)
    requires 1 <= n <= 2 && b.batch == [] && b.position == map[] && t == DyingSession(n, 0).turns[0]
    ensures var p := Polled(OldAndNew(), b, t);
      p.batch == FirstItems(n) && p.events == b.events && FlushDue(p, t)
  {
    var log := OldAndNew();
    var r := Receive(b, 0, 0, log[0][0]);
    var p := if n == 2 then Receive(r, 0, 1, log[0][1]) else r;
    assert Fetch(log, p, 0, n) == p && Fetch(log, r, 0, n) == p && Fetch(log, b, 0, n) == p;
    assert t.fetch[0] == (0, n) && t.fetch[1..] == [];
    assert Poll(log, b, t.fetch) == Poll(log, p, []) == p;
  }

  lemma AllSurvive(n: nat)
    requires 1 <= n <= 2
    ensures Survivors(FirstItems(n), {}) == FirstItems(n) && Rejections(FirstItems(n), {}) == []
  {
    var one := FirstItems(1);
    assert one[..0] == [] && Survivors(one, {}) == one && Rejections(one, {}) == [];
    if n == 2 {
      assert FirstItems(2)[..1] == one;
    }
  }

  lemma FlushStores(p: State, n: nat, t: Turn)
    requires 1 <= n <= 2 && p.batch == FirstItems(n) && t == DyingSession(n, 0).turns[0]
    ensures p.events + [Stored(FirstItems(n), [])] <= Flush(p, t).events
  {
    AllSurvive(n);
    var (done, offsets) := ProcessBatch(p, t.db);
    assert p.events + [] == p.events && done.events == p.events + [Stored(FirstItems(n), [])];
    CommitWithRetriesExtends(done, offsets, t, 0);
    CountFailureExtends(done, DatabaseThreshold, t.evacuation);
  }

  lemma DyingStores(before: seq<Event>, n: nat, dies: nat)
    requires 1 <= n <= 2 && Committed(before) == map[]
    ensures before + [Stored(FirstItems(n), [])] <= SessionEvents(OldAndNew(), before, DyingSession(n, dies))
  {
    var log, b, t := OldAndNew(), Boot(before), DyingSession(n, 0).turns[0];
    DyingPoll(b, n, t);
    var p := Polled(log, b, t);
    FlushStores(p, n, t);
    TailExtends(Flush(p, t), t);
    RunCons(log, b, t, []);
    assert [t] + [] == [t];
    DrainExtends(Step(log, b, t), t.db, Acknowledged);
  }

  lemma DyingLife(before: seq<Event>, n: nat, ss: seq<Session>)
    requires 1 <= n <= 2 && Committed(before) == map[] && Lifetime(OldAndNew(), ss) == before
    ensures var ev := before + [Stored(FirstItems(n), [])];
      Lifetime(OldAndNew(), ss + [DyingSession(n, |before| + 1)]) == ev && Committed(ev) == map[]
  {
    var s := DyingSession(n, |before| + 1);
    DyingStores(before, n, |before| + 1);
    assert (ss + [s])[..|ss|] == ss;
    Extend(before, Stored(FirstItems(n), []));
  }

  function Regressed(): seq<Event> {
    [Stored(FirstItems(2), []), Stored(FirstItems(1), [])]
  }

  lemma FirstDies(first: seq<Session>)
    requires first == [DyingSession(2, 1)]
    ensures Lifetime(OldAndNew(), first) == [Stored(FirstItems(2), [])] &&
      Committed([Stored(FirstItems(2), [])]) == map[]
  {
    DyingLife([], 2, []);
    assert [] + first == first && [] + [Stored(FirstItems(2), [])] == [Stored(FirstItems(2), [])];
  }

  lemma RegressedLives(first: seq<Session>, ss: seq<Session>)
    requires first == [DyingSession(2, 1)] && ss == first + [DyingSession(1, 2)]
    ensures Lifetime(OldAndNew(), ss) == Regressed()
  {
    FirstDies(first);
    DyingLife([Stored(FirstItems(2), [])], 1, first);
  }

  lemma RegressedStored()
    ensures StoredUpTo(Regressed(), 2) && !Evacuated(Regressed())
  {
    assert Regressed()[0].items[1].offset == 1 && Regressed()[0].items[1] in Regressed()[0].items;
  }

  lemma BothWritten()
    ensures Written(Slots(OldAndNew(), 0), 0, 2) == FirstItems(2)
  {
    assert Written(Slots(OldAndNew(), 0), 0, 1) == FirstItems(1);
  }

  lemma OldComesLast(pass: seq<Write>)
    requires pass == Writes(FirstItems(2))
    ensures Occurs(pass, "a") && !LastBatchCarries(Regressed(), "a", Latest(pass, "a"))
  {
    assert pass[1] == Write("a", ["new"]) && Latest(pass, "a") == ["new"];
    var last := Writes(FirstItems(1));
    assert last[0] == Write("a", ["old"]) && Latest(last, "a") == ["old"];
    assert ["old"][0] == "old" && "old"[0] != "new"[0];
  }

  /** The lives meet the premises of `LifetimeConvergesIff`, and the table is not that of a single pass. */
  ghost predicate FallsShort(log: Log, p: Partition, ss: seq<Session>, h: nat) {
    var ev := Lifetime(log, ss);
    && log.Keys <= {p} && NoFlushFails(ss) && !Evacuated(ev) && StoredUpTo(ev, h)
    && !Alike(TableOf(ev), UpsertAll(EMPTY, Writes(Written(Slots(log, p), p, h))))
  }

  lemma RegressedDiffers(log: Log, ss: seq<Session>)
    requires log == OldAndNew() && NoFlushFails(ss) && Lifetime(log, ss) == Regressed()
    ensures FallsShort(log, 0, ss, 2)
  {
    var pass := Writes(FirstItems(2));
    RegressedStored();
    BothWritten();
    OldComesLast(pass);
    LifetimeConvergesIff(log, 0, ss, Regressed(), 2, pass);
  }

  lemma DyingIsFaultless(first: seq<Session>, ss: seq<Session>)
    requires first == [DyingSession(2, 1)] && ss == first + [DyingSession(1, 2)]
    ensures NoFlushFails(ss)
  {
  }

  /** Two lives, each dying before it commits: the second replays less than the first upserted, and the
      table is left with the old column. */
  lemma RedeliveryRegresses() returns (log: Log, ss: seq<Session>, h: nat)
    ensures FallsShort(log, 0, ss, h)
  {
    var first := [DyingSession(2, 1)];
    log, ss, h := OldAndNew(), first + [DyingSession(1, 2)], 2;
    RegressedLives(first, ss);
    DyingIsFaultless(first, ss);
    RegressedDiffers(log, ss);
  }
}
