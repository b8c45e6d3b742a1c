/** What repeated delivery does to the alert table, over whole lifetimes of the sink: batches retained
    after a failed commit and messages read again after a crash are upserted again, and the table still
    converges to that of a single pass over the partition. */
module SinkReplay {
  import opened AlertTable
  import opened SinkModel
  import opened SinkSteps

  /* ---- The messages of one partition ---- */

  function Slots(log: Log, p: Partition): seq<Slot> {
    if p in log then log[p] else []
  }

  predicate Reads(s: Slot) {
    s.Record? && Accepted(s.msg)
  }

  /** A message that process_batch writes: one the poll accepts and the schema too. */
  predicate Writable(s: Slot) {
    Reads(s) && s.msg.body.valid
  }

  /** The items a poll puts into the batch while it reads offsets `lo` up to `hi`. */
  function Read(slots: seq<Slot>, p: Partition, lo: nat, hi: nat): seq<Item> {
    if hi <= lo then []
    else if hi <= |slots| && Reads(slots[hi-1]) then
      Read(slots, p, lo, hi - 1) + [Item(slots[hi-1].msg.body, p, hi - 1)]
    else Read(slots, p, lo, hi - 1)
  }

  /** The items that a single pass over the offsets below `hi` writes. */
  function Written(slots: seq<Slot>, p: Partition, hi: nat): seq<Item> {
    if hi == 0 then []
    else if hi <= |slots| && Writable(slots[hi-1]) then
      Written(slots, p, hi - 1) + [Item(slots[hi-1].msg.body, p, hi - 1)]
    else Written(slots, p, hi - 1)
  }

  function Count(slots: seq<Slot>, p: Partition, hi: nat): nat {
    |Written(slots, p, hi)|
  }

  /** What a single pass writes for the slot at `o`. */
  function WrittenFor(slots: seq<Slot>, p: Partition, o: nat): seq<Item> {
    if o < |slots| && Writable(slots[o]) then [Item(slots[o].msg.body, p, o)] else []
  }

  function WrittenIn(slots: seq<Slot>, p: Partition, lo: nat, hi: nat): seq<Item> {
    if hi <= lo then [] else WrittenIn(slots, p, lo, hi - 1) + WrittenFor(slots, p, hi - 1)
  }

  lemma {:induction false} WrittenSplits(slots: seq<Slot>, p: Partition, lo: nat, hi: nat)
    requires lo <= hi
    ensures Written(slots, p, lo) + WrittenIn(slots, p, lo, hi) == Written(slots, p, hi)
    decreases hi
  {
    if lo == hi {
    } else {
      WrittenSplits(slots, p, lo, hi - 1);
      Append(Written(slots, p, lo), WrittenIn(slots, p, lo, hi - 1), WrittenFor(slots, p, hi - 1));
    }
  }

  lemma SurvivorsOneMore(slots: seq<Slot>, p: Partition, lo: nat, o: nat)
    requires lo <= o
    ensures Survivors(Read(slots, p, lo, o + 1), {}) == Survivors(Read(slots, p, lo, o), {}) + WrittenFor(slots, p, o)
  {
    if o < |slots| && Reads(slots[o]) {
      SurvivorsSnoc(Read(slots, p, lo, o), Item(slots[o].msg.body, p, o));
    }
  }

  lemma {:induction false} SurvivorsAreWritten(slots: seq<Slot>, p: Partition, lo: nat, n: nat)
    ensures Survivors(Read(slots, p, lo, lo + n), {}) == WrittenIn(slots, p, lo, lo + n)
  {
    if n == 0 {
    } else {
      SurvivorsAreWritten(slots, p, lo, n - 1);
      SurvivorsOneMore(slots, p, lo, lo + n - 1);
    }
  }

  /** What survives of a stretch read is the part of the single pass over that stretch. */
  lemma SurvivorsOfRead(slots: seq<Slot>, p: Partition, lo: nat, hi: nat)
    requires lo <= hi
    ensures Written(slots, p, lo) + Survivors(Read(slots, p, lo, hi), {}) == Written(slots, p, hi)
  {
    WrittenSplits(slots, p, lo, hi);
    SurvivorsAreWritten(slots, p, lo, hi - lo);
  }

  lemma SurvivorsSnoc(items: seq<Item>, i: Item)
    ensures Survivors(items + [i], {}) ==
      if i.body.Object? && i.body.valid then Survivors(items, {}) + [i] else Survivors(items, {})
  {
    assert (items + [i])[..|items|] == items;
  }

  lemma Append(a: seq<Item>, b: seq<Item>, c: seq<Item>)
    ensures a + (b + c) == (a + b) + c
  {
  }

  lemma CountGrows(slots: seq<Slot>, p: Partition, lo: nat, hi: nat)
    requires lo <= hi
    ensures Count(slots, p, lo) <= Count(slots, p, hi)
    ensures Written(slots, p, hi)[..Count(slots, p, lo)] == Written(slots, p, lo)
  {
    SurvivorsOfRead(slots, p, lo, hi);
  }

  /** The place of an item in the single pass is the number of items written before it. */
  lemma {:induction false} PlaceOf(slots: seq<Slot>, p: Partition, hi: nat, k: nat)
    requires k < Count(slots, p, hi)
    ensures var i := Written(slots, p, hi)[k];
      i.offset < hi && Count(slots, p, i.offset) == k && Count(slots, p, i.offset + 1) == k + 1
  {
    if k >= Count(slots, p, hi - 1) {
    } else {
      PlaceOf(slots, p, hi - 1, k);
    }
  }

  lemma {:induction false} ReadBounds(slots: seq<Slot>, p: Partition, lo: nat, hi: nat)
    ensures forall i :: i in Read(slots, p, lo, hi) ==> i.tp == p && lo <= i.offset < hi
    decreases hi
  {
    if lo >= hi {
    } else {
      ReadBounds(slots, p, lo, hi - 1);
    }
  }

  /* ---- Orderly effects ---- */

  predicate IsEvacuation(e: Event) {
    e.Dlq? && e.reason != ItemFailed
  }

  /** Some batch was given up on: its rows were not written. */
  ghost predicate Evacuated(ev: seq<Event>) {
    exists k :: 0 <= k < |ev| && IsEvacuation(ev[k])
  }

  /** The part of the single pass that a batch of upserts covers. */
  function StretchOf(slots: seq<Slot>, p: Partition, items: seq<Item>): Range
    requires items != []
  {
    var lo := Count(slots, p, items[0].offset);
    Range(lo, lo + |items|)
  }

  function Stretches(slots: seq<Slot>, p: Partition, ev: seq<Event>): seq<Range> {
    if ev == [] then []
    else
      var rs := Stretches(slots, p, ev[..|ev|-1]);
      match ev[|ev|-1]
      case Stored(items, _) => if items == [] then rs else rs + [StretchOf(slots, p, items)]
      case _ => rs
  }

  /** Where the last stretch ends. */
  function LastHi(slots: seq<Slot>, p: Partition, ev: seq<Event>): nat {
    var rs := Stretches(slots, p, ev);
    if rs == [] then 0 else rs[|rs|-1].hi
  }

  /** The effect `e` after `ev` upserts a stretch of the single pass that begins inside or at the end
      of the one before it, or offers an offset that the last stretch has reached. */
  ghost predicate OrderlyNext(slots: seq<Slot>, p: Partition, ev: seq<Event>, e: Event) {
    match e
    case Stored(items, _) =>
      items != [] ==>
        var r := StretchOf(slots, p, items);
        && r.hi <= Count(slots, p, |slots|) && items == Written(slots, p, |slots|)[r.lo..r.hi]
        && r.lo <= LastHi(slots, p, ev) && Count(slots, p, At(Committed(ev), p)) <= r.hi
    case Commit(offsets, _) =>
      forall tp :: tp in offsets ==> tp == p && Count(slots, p, offsets[tp]) <= LastHi(slots, p, ev)
    case Burnt(_) => true
    case Dlq(_, _) => true
  }

  /** Up to the first evacuation. */
  ghost predicate Orderly(slots: seq<Slot>, p: Partition, ev: seq<Event>) {
    forall n :: 0 <= n < |ev| && !Evacuated(ev[..n]) ==> OrderlyNext(slots, p, ev[..n], ev[n])
  }

  lemma OrderlyExtend(slots: seq<Slot>, p: Partition, ev: seq<Event>, e: Event)
    requires Orderly(slots, p, ev) && (Evacuated(ev) || OrderlyNext(slots, p, ev, e))
    ensures Orderly(slots, p, ev + [e])
    ensures Evacuated(ev + [e]) <==> Evacuated(ev) || IsEvacuation(e)
  {
    var all := ev + [e];
    assert all[..|ev|] == ev;
    assert all[|ev|] == e;
    forall n | 0 <= n < |all| && !Evacuated(all[..n]) ensures OrderlyNext(slots, p, all[..n], all[n]) {
      if n < |ev| {
        assert all[..n] == ev[..n];
      }
    }
    if Evacuated(ev) {
      var k :| 0 <= k < |ev| && IsEvacuation(ev[k]);
      assert IsEvacuation(all[k]);
    }
  }

  lemma {:induction false} OrderlyPastEvacuation(slots: seq<Slot>, p: Partition, ev: seq<Event>, es: seq<Event>)
    requires Orderly(slots, p, ev) && (Evacuated(ev) || (es != [] && IsEvacuation(es[0])))
    ensures Orderly(slots, p, ev + es) && Evacuated(ev + es)
  {
    if es == [] {
      assert ev + es == ev;
    } else {
      var init, e := es[..|es|-1], es[|es|-1];
      assert ev + es == (ev + init) + [e];
      if init == [] {
        assert ev + init == ev;
      } else {
        OrderlyPastEvacuation(slots, p, ev, init);
      }
      OrderlyExtend(slots, p, ev + init, e);
    }
  }

  lemma OrderlyPrefix(slots: seq<Slot>, p: Partition, ev: seq<Event>, n: nat)
    requires Orderly(slots, p, ev) && n <= |ev|
    ensures Orderly(slots, p, ev[..n]) && (Evacuated(ev[..n]) ==> Evacuated(ev))
  {
    forall k | 0 <= k < n && !Evacuated(ev[..n][..k]) ensures OrderlyNext(slots, p, ev[..n][..k], ev[..n][k]) {
      assert ev[..n][..k] == ev[..k];
    }
  }

  lemma StretchesExtend(slots: seq<Slot>, p: Partition, ev: seq<Event>, e: Event)
    ensures Stretches(slots, p, ev + [e]) ==
      if e.Stored? && e.items != [] then Stretches(slots, p, ev) + [StretchOf(slots, p, e.items)]
        else Stretches(slots, p, ev)
  {
    assert (ev + [e])[..|ev|] == ev;
  }

  lemma LastHiExtend(slots: seq<Slot>, p: Partition, ev: seq<Event>, e: Event)
    ensures LastHi(slots, p, ev + [e]) ==
      if e.Stored? && e.items != [] then StretchOf(slots, p, e.items).hi else LastHi(slots, p, ev)
    ensures Stretches(slots, p, ev + [e]) != [] <==> Stretches(slots, p, ev) != [] || (e.Stored? && e.items != [])
  {
    StretchesExtend(slots, p, ev, e);
  }

  /** The table is that of the stretches, one after the other, up to lost sequence values. */
  ghost predicate Replays(slots: seq<Slot>, p: Partition, t: Table, rs: seq<Range>) {
    var all := Writes(Written(slots, p, |slots|));
    Chained(all, rs) && Keyed(t) && Alike(t, Replay(all, rs))
  }

  lemma {:induction false} OrderlyReplays(slots: seq<Slot>, p: Partition, ev: seq<Event>)
    requires Orderly(slots, p, ev) && !Evacuated(ev)
    ensures Replays(slots, p, TableOf(ev), Stretches(slots, p, ev))
  {
    if ev == [] {
    } else {
      var init, e := ev[..|ev|-1], ev[|ev|-1];
      assert ev == init + [e];
      OrderlyPrefix(slots, p, ev, |ev| - 1);
      OrderlyReplays(slots, p, init);
      StretchesExtend(slots, p, init, e);
      EffectReplays(slots, p, init, TableOf(init), e);
    }
  }

  lemma EffectReplays(slots: seq<Slot>, p: Partition, ev: seq<Event>, t: Table, e: Event)
    requires OrderlyNext(slots, p, ev, e) && Replays(slots, p, t, Stretches(slots, p, ev))
    ensures Replays(slots, p, Affected(t, e),
      if e.Stored? && e.items != [] then Stretches(slots, p, ev) + [StretchOf(slots, p, e.items)]
        else Stretches(slots, p, ev))
  {
    if e.Stored? && e.items != [] {
      StretchExtends(slots, p, Stretches(slots, p, ev), StretchOf(slots, p, e.items), e.items);
      SpreadReplays(slots, p, t, Stretches(slots, p, ev), e.items, e.gaps);
    }
  }

  lemma SpreadReplays(slots: seq<Slot>, p: Partition, t: Table, rs: seq<Range>, items: seq<Item>, gaps: seq<nat>)
    requires Replays(slots, p, t, rs)
    ensures var all := Writes(Written(slots, p, |slots|)); var u := UpsertSpread(t, Writes(items), gaps);
      Keyed(u) && Alike(u, UpsertAll(Replay(all, rs), Writes(items)))
  {
    var all := Writes(Written(slots, p, |slots|));
    ReplayKeyed(all, rs);
    SpreadGrows(t, Writes(items), gaps);
    SpreadAlike(t, Replay(all, rs), Writes(items), gaps);
  }

  lemma StretchExtends(slots: seq<Slot>, p: Partition, rs: seq<Range>, r: Range, items: seq<Item>)
    requires var all := Writes(Written(slots, p, |slots|)); Chained(all, rs)
    requires r.lo <= r.hi <= Count(slots, p, |slots|) && items == Written(slots, p, |slots|)[r.lo..r.hi]
    requires if rs == [] then r.lo == 0 else r.lo <= rs[|rs|-1].hi
    ensures var all := Writes(Written(slots, p, |slots|));
      Chained(all, rs + [r]) && Replay(all, rs + [r]) == UpsertAll(Replay(all, rs), Writes(items))
  {
    var all := Writes(Written(slots, p, |slots|));
    assert (rs + [r])[..|rs|] == rs;
    assert Writes(items) == all[r.lo..r.hi];
  }

  /** What is committed has been reached by the last stretch. */
  lemma {:induction false} CommittedIsReached(slots: seq<Slot>, p: Partition, ev: seq<Event>)
    requires Orderly(slots, p, ev) && !Evacuated(ev)
    ensures Count(slots, p, At(Committed(ev), p)) <= LastHi(slots, p, ev)
  {
    if ev == [] {
    } else {
      var init, e := ev[..|ev|-1], ev[|ev|-1];
      assert ev == init + [e];
      OrderlyPrefix(slots, p, ev, |ev| - 1);
      CommittedIsReached(slots, p, init);
      assert OrderlyNext(slots, p, init, e);
      Extend(init, e);
      StretchesExtend(slots, p, init, e);
    }
  }
}
