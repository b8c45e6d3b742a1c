/** One turn of the sink's `while running` loop as functions on its state. What the broker, the
    database and the clock do is a parameter (`Turn`). */
module SinkSteps {
  import opened AlertTable
  import opened SinkModel

  /** A commit call either returns, or raises after the broker applied it for `applied` only. */
  datatype CommitOutcome = Acknowledged | Raised(applied: set<Partition>)

  /** The transaction commits, or raises with the rows written or not. */
  datatype DbCommit = DbOk | DbRaised(applied: bool)

  /** `flushFails` are the positions in the batch whose savepoint raises although the item is valid.
      `gaps` and `burnt` are the sequence values lost when a savepoint or the transaction is rolled
      back. */
  datatype DbOutcome = DbOutcome(flushFails: set<nat>, commit: DbCommit, gaps: seq<nat>, burnt: nat)

  /** `fetch` lists, partition by partition, up to which offset a poll delivers. */
  datatype Turn = Turn(
    pollRaises: bool,
    fetch: seq<(Partition, nat)>,
    timerDue: bool,
    db: DbOutcome,
    attempts: seq<CommitOutcome>,
    evacuation: CommitOutcome,
    stale: CommitOutcome,
    panic: CommitOutcome)
  {
    function Attempt(n: nat): CommitOutcome {
      if n < |attempts| then attempts[n] else Acknowledged
    }
  }

  /** `observed` is highest_observed_offsets, `acked` is last_committed_offsets, `failures` is
      consecutive_commit_failures and `position` the consumer's read position. */
  datatype State = State(
    batch: seq<Item>,
    observed: map<Partition, nat>,
    acked: map<Partition, nat>,
    failures: nat,
    position: map<Partition, nat>,
    table: Table,
    events: seq<Event>)

  /** A fresh process over the effects `ev` reads on from the committed offsets. */
  function Boot(ev: seq<Event>): State {
    State([], map[], map[], 0, Committed(ev), TableOf(ev), ev)
  }

  /* ---- Poll ---- */

  function Receive(st: State, tp: Partition, o: nat, slot: Slot): State {
    var next := st.(position := st.position[tp := o + 1]);
    match slot
    case Gap => next
    case Record(m) =>
      var seen := next.(observed := Bump(next.observed, tp, o));
      if Accepted(m) then seen.(batch := seen.batch + [Item(m.body, tp, o)]) else seen
  }

  function Fetch(log: Log, st: State, tp: Partition, upto: nat): State
    decreases upto - At(st.position, tp)
  {
    var o := At(st.position, tp);
    if tp !in log || o >= upto || o >= |log[tp]| then st
    else Fetch(log, Receive(st, tp, o, log[tp][o]), tp, upto)
  }

  function Poll(log: Log, st: State, fetch: seq<(Partition, nat)>): State
    decreases |fetch|
  {
    if fetch == [] then st
    else Poll(log, Fetch(log, st, fetch[0].0, fetch[0].1), fetch[1..])
  }

  /* ---- process_batch ---- */

  predicate Fails(i: Item, k: nat, flushFails: set<nat>) {
    !i.body.Object? || !i.body.valid || k in flushFails
  }

  function Rejections(items: seq<Item>, flushFails: set<nat>): seq<Event> {
    if items == [] then []
    else
      var k := |items| - 1;
      Rejections(items[..k], flushFails) + if Fails(items[k], k, flushFails) then [Dlq(items[k], ItemFailed)] else []
  }

  function Survivors(items: seq<Item>, flushFails: set<nat>): seq<Item> {
    if items == [] then []
    else
      var k := |items| - 1;
      Survivors(items[..k], flushFails) + if Fails(items[k], k, flushFails) then [] else [items[k]]
  }

  function ProcessBatch(st: State, db: DbOutcome): (r: (State, map<Partition, nat>)) {
    var rejected := st.(events := st.events + Rejections(st.batch, db.flushFails));
    var survivors := Survivors(st.batch, db.flushFails);
    var stored := rejected.(
      table := UpsertSpread(st.table, Writes(survivors), db.gaps),
      events := rejected.events + [Stored(survivors, db.gaps)]);
    var undone := rejected.(table := Skip(st.table, db.burnt), events := rejected.events + [Burnt(db.burnt)]);
    match db.commit
    case DbOk => (stored, MaxOffsets(st.batch))
    case DbRaised(applied) => (if applied then stored else undone, map[])
  }

  /* ---- Commits and evacuation ---- */

  function Offer(st: State, offsets: map<Partition, nat>, out: CommitOutcome): State {
    st.(events := st.events + [Commit(offsets, if out.Acknowledged? then offsets.Keys else out.applied)])
  }

  function DlqAll(items: seq<Item>, reason: Reason): (ev: seq<Event>)
    ensures |ev| == |items| && forall k :: 0 <= k < |items| ==> ev[k] == Dlq(items[k], reason)
  {
    seq(|items|, k requires 0 <= k < |items| => Dlq(items[k], reason))
  }

  function Evacuate(st: State, reason: Reason, out: CommitOutcome): State {
    var m := MaxOffsets(st.batch);
    var handed := st.(events := st.events + DlqAll(st.batch, reason));
    var offered := if m == map[] then handed else Offer(handed, m, out);
    offered.(
      batch := [],
      acked := if out.Acknowledged? && reason != BatchPanic then st.acked + m else st.acked,
      failures := 0)
  }

  function CountFailure(st: State, reason: Reason, out: CommitOutcome): State {
    var counted := st.(failures := st.failures + 1);
    if counted.failures >= MAX_CONSECUTIVE_FAILURES then Evacuate(counted, reason, out) else counted
  }

  /** The retry loop from attempt `n` on, and what follows it. */
  function CommitWithRetries(st: State, offsets: map<Partition, nat>, t: Turn, n: nat): State
    decreases MAX_COMMIT_RETRIES - n
  {
    if n >= MAX_COMMIT_RETRIES then CountFailure(st, CommitThreshold, t.evacuation)
    else
      var offered := Offer(st, offsets, t.Attempt(n));
      if t.Attempt(n).Acknowledged? then offered.(failures := 0, acked := st.acked + offsets, batch := [])
      else CommitWithRetries(offered, offsets, t, n + 1)
  }

  function Flush(st: State, t: Turn): State {
    var (done, offsets) := ProcessBatch(st, t.db);
    if offsets != map[] then CommitWithRetries(done, offsets, t, 0)
    else CountFailure(done, DatabaseThreshold, t.evacuation)
  }

  function StaleOffsets(st: State): map<Partition, nat> {
    map tp | tp in st.observed && (tp !in st.acked || st.observed[tp] > st.acked[tp]) :: st.observed[tp]
  }

  function CommitStale(st: State, out: CommitOutcome): State {
    var m := StaleOffsets(st);
    if st.batch != [] || m == map[] then st
    else
      var offered := Offer(st, m, out);
      if out.Acknowledged? then offered.(acked := st.acked + m) else offered
  }

  function PanicGuard(st: State, out: CommitOutcome): State {
    if |st.batch| >= PANIC_BATCH_SIZE then Evacuate(st, BatchPanic, out) else st
  }

  /* ---- The loop ---- */

  function Polled(log: Log, st: State, t: Turn): State {
    if |st.batch| < MAX_BATCH_SIZE && !t.pollRaises then Poll(log, st, t.fetch) else st
  }

  predicate FlushDue(st: State, t: Turn) {
    |st.batch| >= MAX_BATCH_SIZE || (|st.batch| > 0 && t.timerDue)
  }

  function Step(log: Log, st: State, t: Turn): State {
    var polled := Polled(log, st, t);
    var flushed := if FlushDue(polled, t) then Flush(polled, t) else polled;
    PanicGuard(CommitStale(flushed, t.stale), t.panic)
  }

  function Run(log: Log, st: State, ts: seq<Turn>): State {
    if ts == [] then st else Step(log, Run(log, st, ts[..|ts|-1]), ts[|ts|-1])
  }

  /** After the signal: one last batch and one commit attempt. */
  function Drain(st: State, db: DbOutcome, out: CommitOutcome): State {
    if st.batch == [] then st
    else
      var (done, offsets) := ProcessBatch(st, db);
      if offsets != map[] then Offer(done, offsets, out) else done
  }

  /* ---- Crash and restart ---- */

  /** One life of the process: its turns, the drain at the signal, and the point of its effects at
      which it dies (past the last one for a clean exit). */
  datatype Session = Session(turns: seq<Turn>, db: DbOutcome, last: CommitOutcome, dies: nat)

  function SessionEvents(log: Log, ev: seq<Event>, s: Session): seq<Event> {
    Drain(Run(log, Boot(ev), s.turns), s.db, s.last).events
  }

  /** What a life that begins after `before` leaves behind. */
  function Lived(log: Log, before: seq<Event>, s: Session): seq<Event> {
    var after := SessionEvents(log, before, s);
    if |before| <= s.dies <= |after| then after[..s.dies] else after
  }

  function Lifetime(log: Log, ss: seq<Session>): seq<Event> {
    if ss == [] then [] else Lived(log, Lifetime(log, ss[..|ss|-1]), ss[|ss|-1])
  }
}
