/** What the Kafka-to-database sink reads and writes: the partition logs, and the trace of effects
    that survive a crash (rows committed, records handed to the dead-letter file, offsets offered to
    the broker). */
module SinkModel {
  import opened AlertTable

  type Partition = nat

  const MAX_MSG_SIZE: nat := 5 * 1024 * 1024
  const MAX_BATCH_SIZE: nat := 100
  const MAX_COMMIT_RETRIES: nat := 3
  const MAX_CONSECUTIVE_FAILURES: nat := 5
  const PANIC_BATCH_SIZE: nat := 500

  /** What decoding a message gives. An empty `alertId` stands for a missing or falsy one; `valid`
      says whether the AlertPayload schema accepts the object. */
  datatype Body = NotJson | NotObject | Object(alertId: string, fields: Fields, valid: bool)
  datatype Message = Message(size: nat, body: Body)

  /** An offset of a partition: compaction and transaction markers leave gaps. */
  datatype Slot = Gap | Record(msg: Message)
  type Log = map<Partition, seq<Slot>>

  /** One entry of `batch`. */
  datatype Item = Item(body: Body, tp: Partition, offset: nat)

  /** The poll loop's filter. */
  predicate Accepted(m: Message) {
    m.size <= MAX_MSG_SIZE && m.body.Object? && m.body.alertId != ""
  }

  datatype Reason = ItemFailed | CommitThreshold | DatabaseThreshold | BatchPanic

  /** `gaps[k]` sequence values were lost, to savepoints that were rolled back, before the `k`-th row of a
      stored batch; `Burnt` are those lost to a transaction that was. */
  datatype Event =
    | Stored(items: seq<Item>, gaps: seq<nat>)
    | Burnt(lost: nat)
    | Dlq(item: Item, reason: Reason)
    | Commit(offsets: map<Partition, nat>, applied: set<Partition>)

  function WriteOf(i: Item): Write {
    if i.body.Object? then Write(i.body.alertId, i.body.fields) else Write("", [])
  }

  function Writes(items: seq<Item>): (ws: seq<Write>)
    ensures |ws| == |items| && forall k :: 0 <= k < |ws| ==> ws[k] == WriteOf(items[k])
  {
    seq(|items|, k requires 0 <= k < |items| => WriteOf(items[k]))
  }

  function Affected(t: Table, e: Event): Table {
    match e
    case Stored(items, gaps) => UpsertSpread(t, Writes(items), gaps)
    case Burnt(lost) => Skip(t, lost)
    case _ => t
  }

  /** The database after the effects `ev`. */
  function TableOf(ev: seq<Event>): Table {
    if ev == [] then EMPTY else Affected(TableOf(ev[..|ev|-1]), ev[|ev|-1])
  }

  function Restrict(m: map<Partition, nat>, ps: set<Partition>): map<Partition, nat> {
    map tp | tp in m && tp in ps :: m[tp]
  }

  /** The group's committed offsets at the broker after the effects `ev`. */
  function Committed(ev: seq<Event>): map<Partition, nat> {
    if ev == [] then map[]
    else
      var m := Committed(ev[..|ev|-1]);
      match ev[|ev|-1]
      case Commit(offsets, applied) => m + Restrict(offsets, applied)
      case _ => m
  }

  function At(m: map<Partition, nat>, tp: Partition): nat {
    if tp in m then m[tp] else 0
  }

  predicate Carries(e: Event, item: Item) {
    (e.Stored? && item in e.items) || (e.Dlq? && e.item == item)
  }

  /** `item` reached the database or the dead-letter writer. */
  ghost predicate Kept(ev: seq<Event>, item: Item) {
    exists k :: 0 <= k < |ev| && Carries(ev[k], item)
  }

  /** Nothing is lost by never reading this offset again. */
  ghost predicate Covered(log: Log, ev: seq<Event>, tp: Partition, o: nat) {
    && tp in log && o < |log[tp]|
    && (log[tp][o].Gap? || !Accepted(log[tp][o].msg) || Kept(ev, Item(log[tp][o].msg.body, tp, o)))
  }

  /** Every offset below the committed one was upserted, handed to the dead-letter writer, or
      rejected by the poll filter. */
  ghost predicate AtLeastOnce(log: Log, ev: seq<Event>) {
    forall tp, o: nat :: o < At(Committed(ev), tp) ==> Covered(log, ev, tp, o)
  }

  /** A crash can leave any prefix of the effects behind. */
  ghost predicate AtLeastOnceThroughout(log: Log, ev: seq<Event>) {
    forall n :: 0 <= n <= |ev| ==> AtLeastOnce(log, ev[..n])
  }

  lemma Extend(ev: seq<Event>, e: Event)
    ensures (ev + [e])[..|ev|] == ev
    ensures Committed(ev + [e]) == if e.Commit? then Committed(ev) + Restrict(e.offsets, e.applied) else Committed(ev)
    ensures TableOf(ev + [e]) == Affected(TableOf(ev), e)
    ensures forall i :: Kept(ev, i) ==> Kept(ev + [e], i)
  {
    assert (ev + [e])[..|ev|] == ev;
    forall i | Kept(ev, i) ensures Kept(ev + [e], i) {
      var k :| 0 <= k < |ev| && Carries(ev[k], i);
      assert (ev + [e])[k] == ev[k];
    }
  }

  lemma NewlyKept(ev: seq<Event>, e: Event)
    ensures e.Stored? ==> forall i :: i in e.items ==> Kept(ev + [e], i)
    ensures e.Dlq? ==> Kept(ev + [e], e.item)
  {
    assert (ev + [e])[|ev|] == e;
  }

  lemma ThroughoutExtend(log: Log, ev: seq<Event>, e: Event)
    requires AtLeastOnceThroughout(log, ev) && AtLeastOnce(log, ev + [e])
    ensures AtLeastOnceThroughout(log, ev + [e])
  {
    forall n | 0 <= n <= |ev + [e]| ensures AtLeastOnce(log, (ev + [e])[..n]) {
      if n <= |ev| {
        assert (ev + [e])[..n] == ev[..n];
      } else {
        assert (ev + [e])[..n] == ev + [e];
      }
    }
  }

  lemma EffectKeepsRows(t: Table, e: Event)
    requires Keyed(t)
    ensures Keyed(Affected(t, e)) && forall a :: a in t.rows ==> a in Affected(t, e).rows
  {
    if e.Stored? {
      SpreadGrows(t, Writes(e.items), e.gaps);
    }
  }

  lemma EffectStoresRows(t: Table, e: Event, i: Item)
    requires Keyed(t) && e.Stored? && i in e.items && i.body.Object?
    ensures i.body.alertId in Affected(t, e).rows
  {
    SpreadAlike(t, t, Writes(e.items), e.gaps);
    var k :| 0 <= k < |e.items| && e.items[k] == i;
    WrittenIsThere(t, Writes(e.items), Writes(e.items)[k]);
    assert i.body.alertId in UpsertAll(t, Writes(e.items)).rows.Keys;
  }

  /** The database really holds what the trace says was stored. */
  lemma {:induction false} StoredIsInTable(ev: seq<Event>)
    ensures Keyed(TableOf(ev))
    ensures forall k, i :: 0 <= k < |ev| && ev[k].Stored? && i in ev[k].items && i.body.Object? ==>
      i.body.alertId in TableOf(ev).rows
  {
    if ev == [] {
    } else {
      var init, e := ev[..|ev|-1], ev[|ev|-1];
      StoredIsInTable(init);
      EffectKeepsRows(TableOf(init), e);
      forall k, i | 0 <= k < |ev| && ev[k].Stored? && i in ev[k].items && i.body.Object?
        ensures i.body.alertId in TableOf(ev).rows
      {
        if k < |init| {
          assert init[k] == ev[k];
        } else {
          EffectStoresRows(TableOf(init), e, i);
        }
      }
    }
  }

  /* ---- The largest offset per partition ---- */

  function Max(a: int, b: int): int { if a >= b then a else b }

  /** `m[tp] = max(m.get(tp, -1), offset + 1)`, written three times in the sink. */
  function Bump(m: map<Partition, nat>, tp: Partition, offset: nat): map<Partition, nat> {
    m[tp := Max(if tp in m then m[tp] else -1, offset + 1)]
  }

  function MaxOffsets(items: seq<Item>): map<Partition, nat> {
    if items == [] then map[]
    else Bump(MaxOffsets(items[..|items|-1]), items[|items|-1].tp, items[|items|-1].offset)
  }

  /** The bound `v` for `tp` is one past an offset of the partition. */
  ghost predicate IsEnd(items: seq<Item>, tp: Partition, v: nat) {
    exists k :: 0 <= k < |items| && items[k].tp == tp && v == items[k].offset + 1
  }

  lemma {:induction false} MaxOffsetsBound(items: seq<Item>, k: nat)
    requires k < |items|
    ensures items[k].tp in MaxOffsets(items) && items[k].offset < MaxOffsets(items)[items[k].tp]
  {
    if k == |items| - 1 {
    } else {
      MaxOffsetsBound(items[..|items|-1], k);
    }
  }

  lemma {:induction false} MaxOffsetsAttained(items: seq<Item>, tp: Partition)
    requires tp in MaxOffsets(items)
    ensures IsEnd(items, tp, MaxOffsets(items)[tp])
  {
    var init, last := items[..|items|-1], items[|items|-1];
    var m := MaxOffsets(init);
    if tp == last.tp && (tp !in m || m[tp] <= last.offset + 1) {
      assert items[|items|-1].tp == tp;
    } else {
      MaxOffsetsAttained(init, tp);
      var k :| 0 <= k < |init| && init[k].tp == tp && m[tp] == init[k].offset + 1;
      assert items[k] == init[k];
    }
  }

  /** `MaxOffsets` is, for exactly the partitions with an item, one past that partition's largest
      offset. */
  lemma MaxOffsetsIsLeastBound(items: seq<Item>)
    ensures forall tp :: tp in MaxOffsets(items) <==> exists k :: 0 <= k < |items| && items[k].tp == tp
    ensures forall k :: 0 <= k < |items| ==>
      items[k].tp in MaxOffsets(items) && items[k].offset < MaxOffsets(items)[items[k].tp]
    ensures forall tp :: tp in MaxOffsets(items) ==> IsEnd(items, tp, MaxOffsets(items)[tp])
  {
    forall k | 0 <= k < |items|
      ensures items[k].tp in MaxOffsets(items) && items[k].offset < MaxOffsets(items)[items[k].tp]
    {
      MaxOffsetsBound(items, k);
    }
    forall tp | tp in MaxOffsets(items) ensures IsEnd(items, tp, MaxOffsets(items)[tp]) {
      MaxOffsetsAttained(items, tp);
    }
  }
}
