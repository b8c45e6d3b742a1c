/** The alert table the sink writes: rows keyed by the unique `alert_id`, each carrying the primary
    key it got when it was first inserted (api/models.py). */
module AlertTable {

  /** The sixteen whitelisted columns other than `alert_id`. */
  type Fields = seq<string>

  datatype Row = Row(id: nat, fields: Fields)

  /** `nextId` is the value the primary-key sequence hands out next. */
  datatype Table = Table(rows: map<string, Row>, nextId: nat)

  const EMPTY := Table(map[], 1)

  /** What `process_batch` writes for one validated message. */
  datatype Write = Write(alertId: string, fields: Fields)

  /** Query by alert_id; overwrite every column of the row found, or insert a new row. */
  function Upsert(t: Table, w: Write): Table {
    if w.alertId in t.rows then
      t.(rows := t.rows[w.alertId := t.rows[w.alertId].(fields := w.fields)])
    else
      Table(t.rows[w.alertId := Row(t.nextId, w.fields)], t.nextId + 1)
  }

  function UpsertAll(t: Table, ws: seq<Write>): Table {
    if ws == [] then t else Upsert(UpsertAll(t, ws[..|ws|-1]), ws[|ws|-1])
  }

  /** The sequence is not transactional: values taken by a transaction or savepoint that is rolled back
      are lost. */
  function Skip(t: Table, lost: nat): Table {
    t.(nextId := t.nextId + lost)
  }

  function GapAt(gaps: seq<nat>, k: nat): nat {
    if k < |gaps| then gaps[k] else 0
  }

  /** The same upserts with `gaps[k]` sequence values lost since the row before. */
  function UpsertSpread(t: Table, ws: seq<Write>, gaps: seq<nat>): Table {
    if ws == [] then t
    else
      var k := |ws| - 1;
      Upsert(Skip(UpsertSpread(t, ws[..k], gaps), GapAt(gaps, k)), ws[k])
  }

  /** Primary keys are positive, below `nextId`, and never shared. */
  ghost predicate Keyed(t: Table) {
    && t.nextId >= 1
    && (forall a :: a in t.rows ==> 1 <= t.rows[a].id < t.nextId)
    && (forall a, b :: a in t.rows && b in t.rows && t.rows[a].id == t.rows[b].id ==> a == b)
  }

  /** `u` is `t` with rows overwritten in place and with new rows under larger primary keys. */
  ghost predicate Grows(t: Table, u: Table) {
    && t.nextId <= u.nextId
    && (forall a :: a in t.rows ==> a in u.rows && u.rows[a].id == t.rows[a].id)
    && (forall a :: a in u.rows && a !in t.rows ==> t.nextId <= u.rows[a].id)
  }

  lemma UpsertGrows(t: Table, w: Write)
    requires Keyed(t)
    ensures Keyed(Upsert(t, w)) && Grows(t, Upsert(t, w)) && w.alertId in Upsert(t, w).rows
  {
    var u := Upsert(t, w);
    assert forall a :: a in u.rows && a != w.alertId ==> u.rows[a] == t.rows[a];
  }

  lemma GrowsTrans(t: Table, u: Table, v: Table)
    requires Grows(t, u) && Grows(u, v)
    ensures Grows(t, v)
  {
    forall a | a in v.rows && a !in t.rows ensures t.nextId <= v.rows[a].id {
      assert a in u.rows ==> u.rows[a].id == v.rows[a].id;
    }
  }

  lemma {:induction false} UpsertsGrow(t: Table, ws: seq<Write>)
    requires Keyed(t)
    ensures Keyed(UpsertAll(t, ws)) && Grows(t, UpsertAll(t, ws))
    ensures forall w :: w in ws ==> w.alertId in UpsertAll(t, ws).rows
  {
    if ws == [] {
    } else {
      var init, w := ws[..|ws|-1], ws[|ws|-1];
      UpsertsGrow(t, init);
      UpsertGrows(UpsertAll(t, init), w);
      GrowsTrans(t, UpsertAll(t, init), UpsertAll(t, ws));
      forall x | x in ws ensures x.alertId in UpsertAll(t, ws).rows {
        WrittenIsThere(t, ws, x);
      }
    }
  }

  lemma WrittenIsThere(t: Table, ws: seq<Write>, w: Write)
    requires w in ws
    ensures w.alertId in UpsertAll(t, ws).rows
  {
    var k :| 0 <= k < |ws| && ws[k] == w;
    assert ws[k].alertId == w.alertId;
    UpsertedFields(t, ws, w.alertId);
  }

  lemma {:induction false} SpreadGrows(t: Table, ws: seq<Write>, gaps: seq<nat>)
    requires Keyed(t)
    ensures Keyed(UpsertSpread(t, ws, gaps)) && Grows(t, UpsertSpread(t, ws, gaps))
  {
    if ws == [] {
    } else {
      var k := |ws| - 1;
      SpreadGrows(t, ws[..k], gaps);
      var u := Skip(UpsertSpread(t, ws[..k], gaps), GapAt(gaps, k));
      UpsertGrows(u, ws[k]);
      GrowsTrans(t, u, UpsertSpread(t, ws, gaps));
    }
  }

  /** The same alerts with the same columns, inserted in the same order. */
  ghost predicate Alike(t: Table, u: Table) {
    && t.rows.Keys == u.rows.Keys
    && (forall a :: a in t.rows ==> t.rows[a].fields == u.rows[a].fields)
    && (forall a, b :: a in t.rows && b in t.rows ==> (t.rows[a].id < t.rows[b].id <==> u.rows[a].id < u.rows[b].id))
  }

  lemma UpsertAlike(t: Table, u: Table, w: Write)
    requires Keyed(t) && Keyed(u) && Alike(t, u)
    ensures Alike(Upsert(t, w), Upsert(u, w))
  {
    assert w.alertId in t.rows.Keys <==> w.alertId in u.rows.Keys;
  }

  /** Lost sequence values show in the primary keys only, not in their order. */
  lemma {:induction false} SpreadAlike(t: Table, u: Table, ws: seq<Write>, gaps: seq<nat>)
    requires Keyed(t) && Keyed(u) && Alike(t, u)
    ensures Alike(UpsertSpread(t, ws, gaps), UpsertAll(u, ws))
  {
    if ws == [] {
    } else {
      var k := |ws| - 1;
      SpreadAlike(t, u, ws[..k], gaps);
      SpreadGrows(t, ws[..k], gaps);
      UpsertsGrow(u, ws[..k]);
      UpsertAlike(Skip(UpsertSpread(t, ws[..k], gaps), GapAt(gaps, k)), UpsertAll(u, ws[..k]), ws[k]);
    }
  }

  /** Without losses the keys are dense: as many as there are rows. */
  lemma {:induction false} KeysAreDense(ws: seq<Write>)
    ensures UpsertAll(EMPTY, ws).nextId == |UpsertAll(EMPTY, ws).rows| + 1
  {
    if ws == [] {
    } else {
      KeysAreDense(ws[..|ws|-1]);
      var t, w := UpsertAll(EMPTY, ws[..|ws|-1]), ws[|ws|-1];
      if w.alertId in t.rows {
        assert Upsert(t, w).rows.Keys == t.rows.Keys;
      } else {
        assert Upsert(t, w).rows.Keys == t.rows.Keys + {w.alertId};
      }
      assert |t.rows.Keys| == |t.rows| && |Upsert(t, w).rows.Keys| == |Upsert(t, w).rows|;
    }
  }

  /** Losses do show in the keys. */
  lemma LossesShow(w: Write, lost: nat)
    ensures UpsertSpread(EMPTY, [w], [lost]).rows == map[w.alertId := Row(1 + lost, w.fields)]
  {
    assert [w][..0] == [];
  }

  lemma {:induction false} UpsertAllConcat(t: Table, a: seq<Write>, b: seq<Write>)
    ensures UpsertAll(t, a + b) == UpsertAll(UpsertAll(t, a), b)
  {
    if b == [] {
      assert a + b == a;
    } else {
      assert (a + b)[..|a + b|-1] == a + b[..|b|-1];
      UpsertAllConcat(t, a, b[..|b|-1]);
    }
  }

  /* ---- Last writer wins ---- */

  ghost predicate Occurs(ws: seq<Write>, a: string) {
    exists i :: 0 <= i < |ws| && ws[i].alertId == a
  }

  /** The columns written last for `a`. */
  ghost function Latest(ws: seq<Write>, a: string): Fields
    requires Occurs(ws, a)
  {
    if ws[|ws|-1].alertId == a then ws[|ws|-1].fields else Latest(ws[..|ws|-1], a)
  }

  /** Which rows exist and what their columns are after a run of upserts. */
  lemma {:induction false} UpsertedFields(t: Table, ws: seq<Write>, a: string)
    ensures a in UpsertAll(t, ws).rows <==> a in t.rows || Occurs(ws, a)
    ensures Occurs(ws, a) ==> UpsertAll(t, ws).rows[a].fields == Latest(ws, a)
    ensures !Occurs(ws, a) && a in t.rows ==> UpsertAll(t, ws).rows[a] == t.rows[a]
  {
    if ws == [] {
    } else {
      var init := ws[..|ws|-1];
      UpsertedFields(t, init, a);
      assert Occurs(init, a) ==> Occurs(ws, a);
      assert ws[|ws|-1].alertId == a ==> Occurs(ws, a);
    }
  }

  lemma {:induction false} LatestConcat(a: seq<Write>, b: seq<Write>, x: string)
    ensures Occurs(a + b, x) <==> Occurs(a, x) || Occurs(b, x)
    ensures Occurs(b, x) ==> Latest(a + b, x) == Latest(b, x)
    ensures Occurs(a, x) && !Occurs(b, x) ==> Latest(a + b, x) == Latest(a, x)
  {
    if b == [] {
      assert a + b == a;
    } else {
      var c := b[..|b|-1];
      assert (a + b)[..|a + b|-1] == a + c;
      LatestConcat(a, c, x);
      assert Occurs(c, x) ==> Occurs(b, x);
      assert b[|b|-1].alertId == x ==> Occurs(b, x);
      assert (a + b)[|a + b|-1] == b[|b|-1];
      assert Occurs(a + c, x) ==> Occurs(a + b, x) by {
        if Occurs(a + c, x) {
          var i :| 0 <= i < |a + c| && (a + c)[i].alertId == x;
          assert (a + b)[i].alertId == x;
        }
      }
      assert (a + b)[|a + b|-1].alertId == x ==> Occurs(a + b, x);
    }
  }

  /** Rows that already exist keep their primary keys, and the sequence does not move. */
  lemma {:induction false} RewritesKeepIds(t: Table, ws: seq<Write>)
    requires forall w :: w in ws ==> w.alertId in t.rows
    ensures UpsertAll(t, ws).nextId == t.nextId && UpsertAll(t, ws).rows.Keys == t.rows.Keys
    ensures forall a :: a in t.rows ==> UpsertAll(t, ws).rows[a].id == t.rows[a].id
  {
    if ws == [] {
    } else {
      RewritesKeepIds(t, ws[..|ws|-1]);
    }
  }

  /* ---- Overlapping replay ---- */

  /** One stretch of a partition's log that was upserted. */
  datatype Range = Range(lo: nat, hi: nat)

  /** Each stretch starts inside or at the end of the one before it: a retained batch is read again
      from its own first message, and a restarted consumer from a committed offset that the stretch
      before it reached. */
  ghost predicate Chained(log: seq<Write>, rs: seq<Range>) {
    && (forall i :: 0 <= i < |rs| ==> rs[i].lo <= rs[i].hi <= |log|)
    && (|rs| > 0 ==> rs[0].lo == 0)
    && (forall i :: 0 < i < |rs| ==> rs[i].lo <= rs[i-1].hi)
  }

  function Reach(rs: seq<Range>): nat {
    if rs == [] then 0
    else if Reach(rs[..|rs|-1]) > rs[|rs|-1].hi then Reach(rs[..|rs|-1]) else rs[|rs|-1].hi
  }

  function Replay(log: seq<Write>, rs: seq<Range>): Table
    requires forall i :: 0 <= i < |rs| ==> rs[i].lo <= rs[i].hi <= |log|
  {
    if rs == [] then EMPTY
    else UpsertAll(Replay(log, rs[..|rs|-1]), log[rs[|rs|-1].lo..rs[|rs|-1].hi])
  }

  lemma {:induction false} ReplayKeyed(log: seq<Write>, rs: seq<Range>)
    requires forall i :: 0 <= i < |rs| ==> rs[i].lo <= rs[i].hi <= |log|
    ensures Keyed(Replay(log, rs))
  {
    if rs == [] {
    } else {
      ReplayKeyed(log, rs[..|rs|-1]);
      UpsertsGrow(Replay(log, rs[..|rs|-1]), log[rs[|rs|-1].lo..rs[|rs|-1].hi]);
    }
  }

  /** The table has the rows, primary keys and sequence of one pass over `log[..h]`. */
  ghost predicate SameRows(log: seq<Write>, t: Table, h: nat)
    requires h <= |log|
  {
    var u := UpsertAll(EMPTY, log[..h]);
    t.nextId == u.nextId && t.rows.Keys == u.rows.Keys && forall a :: a in u.rows ==> t.rows[a].id == u.rows[a].id
  }

  /** Rewriting what was written already changes no row's identity. */
  lemma RewriteKeepsRows(log: seq<Write>, t: Table, h: nat, lo: nat, mid: nat)
    requires lo <= mid <= h <= |log| && SameRows(log, t, h)
    ensures SameRows(log, UpsertAll(t, log[lo..mid]), h)
  {
    UpsertsGrow(EMPTY, log[..h]);
    forall w | w in log[lo..mid] ensures w.alertId in t.rows {
      var k :| 0 <= k < mid - lo && log[lo..mid][k] == w;
      assert log[..h][lo + k] == w && w in log[..h];
      assert w.alertId in UpsertAll(EMPTY, log[..h]).rows.Keys;
    }
    RewritesKeepIds(t, log[lo..mid]);
  }

  lemma NewWritesKeepRows(log: seq<Write>, t: Table, h: nat, hi: nat)
    requires h <= hi <= |log| && SameRows(log, t, h)
    ensures SameRows(log, UpsertAll(t, log[h..hi]), hi)
  {
    assert log[..hi] == log[..h] + log[h..hi];
    UpsertAllConcat(EMPTY, log[..h], log[h..hi]);
    SameRowsStep(t, UpsertAll(EMPTY, log[..h]), log[h..hi]);
  }

  /** One more stretch that starts at or below the reach extends the set of rows exactly as a single
      pass would. */
  lemma RangeExtendsRows(log: seq<Write>, t: Table, h: nat, lo: nat, hi: nat)
    requires lo <= h <= |log| && lo <= hi <= |log| && SameRows(log, t, h)
    ensures SameRows(log, UpsertAll(t, log[lo..hi]), if h > hi then h else hi)
  {
    if hi <= h {
      RewriteKeepsRows(log, t, h, lo, hi);
    } else {
      assert log[lo..hi] == log[lo..h] + log[h..hi];
      UpsertAllConcat(t, log[lo..h], log[h..hi]);
      RewriteKeepsRows(log, t, h, lo, h);
      NewWritesKeepRows(log, UpsertAll(t, log[lo..h]), h, hi);
    }
  }

  /** Upserts treat two tables with the same rows and keys alike. */
  lemma {:induction false} SameRowsStep(t: Table, u: Table, ws: seq<Write>)
    requires t.nextId == u.nextId && t.rows.Keys == u.rows.Keys
    requires forall a :: a in u.rows ==> t.rows[a].id == u.rows[a].id
    ensures UpsertAll(t, ws).nextId == UpsertAll(u, ws).nextId
    ensures UpsertAll(t, ws).rows.Keys == UpsertAll(u, ws).rows.Keys
    ensures forall a :: a in UpsertAll(u, ws).rows ==> UpsertAll(t, ws).rows[a].id == UpsertAll(u, ws).rows[a].id
  {
    if ws == [] {
    } else {
      SameRowsStep(t, u, ws[..|ws|-1]);
    }
  }

  lemma {:induction false} ReplayRows(log: seq<Write>, rs: seq<Range>)
    requires Chained(log, rs)
    ensures Reach(rs) <= |log| && (|rs| > 0 ==> rs[|rs|-1].hi <= Reach(rs))
    ensures SameRows(log, Replay(log, rs), Reach(rs))
  {
    if rs == [] {
    } else {
      var init := rs[..|rs|-1];
      ReplayRows(log, init);
      var last := rs[|rs|-1];
      assert last.lo <= Reach(init);
      RangeExtendsRows(log, Replay(log, init), Reach(init), last.lo, last.hi);
    }
  }

  /** A row that nothing between the end of the last stretch and the reach writes is up to date
      with respect to that end. */
  lemma {:induction false} ReplayFields(log: seq<Write>, rs: seq<Range>, a: string)
    requires Chained(log, rs) && |rs| > 0 && Reach(rs) <= |log|
    requires rs[|rs|-1].hi <= Reach(rs) && !Occurs(log[rs[|rs|-1].hi..Reach(rs)], a)
    requires Occurs(log[..rs[|rs|-1].hi], a)
    ensures a in Replay(log, rs).rows && Replay(log, rs).rows[a].fields == Latest(log[..rs[|rs|-1].hi], a)
    decreases |rs|
  {
    var init, last := rs[..|rs|-1], rs[|rs|-1];
    var ws := log[last.lo..last.hi];
    UpsertedFields(Replay(log, init), ws, a);
    assert log[..last.hi] == log[..last.lo] + ws;
    LatestConcat(log[..last.lo], ws, a);
    if !Occurs(ws, a) {
      var prev := rs[|rs|-2];
      ReplayRows(log, init);
      SkippedByBoth(log, last.lo, last.hi, Reach(rs), prev.hi, Reach(init), a);
      ReplayFields(log, init, a);
    }
  }

  /** If nothing in `log[lo..r]` writes `a`, then nothing after the earlier end `p >= lo` does, and
      the columns written last before `p` and before `hi` are the same. */
  lemma SkippedByBoth(log: seq<Write>, lo: nat, hi: nat, r: nat, p: nat, q: nat, a: string)
    requires lo <= hi <= r <= |log| && lo <= p <= q <= r
    requires !Occurs(log[lo..hi], a) && !Occurs(log[hi..r], a) && Occurs(log[..lo], a)
    ensures !Occurs(log[p..q], a) && Occurs(log[..p], a)
    ensures Occurs(log[..hi], a) && Latest(log[..p], a) == Latest(log[..hi], a)
  {
    assert log[lo..r] == log[lo..hi] + log[hi..r];
    LatestConcat(log[lo..hi], log[hi..r], a);
    assert log[lo..r] == log[lo..p] + log[p..r];
    LatestConcat(log[lo..p], log[p..r], a);
    assert log[p..r] == log[p..q] + log[q..r];
    LatestConcat(log[p..q], log[q..r], a);
    assert log[..p] == log[..lo] + log[lo..p];
    LatestConcat(log[..lo], log[lo..p], a);
    assert log[..hi] == log[..lo] + log[lo..hi];
    LatestConcat(log[..lo], log[lo..hi], a);
  }

  /** Overlapping replay is harmless: whatever overlapping stretches were upserted before, once the
      last one reaches as far as any of them the table is the one a single pass over the log gives,
      primary keys included. */
  lemma {:induction false} ReplayConverges(log: seq<Write>, rs: seq<Range>)
    requires Chained(log, rs) && |rs| > 0 && rs[|rs|-1].hi == Reach(rs)
    ensures Reach(rs) <= |log| && Replay(log, rs) == UpsertAll(EMPTY, log[..Reach(rs)])
  {
    ReplayRows(log, rs);
    var t, u := Replay(log, rs), UpsertAll(EMPTY, log[..Reach(rs)]);
    forall a | a in u.rows ensures t.rows[a] == u.rows[a] {
      UpsertedFields(EMPTY, log[..Reach(rs)], a);
      assert log[Reach(rs)..Reach(rs)] == [];
      ReplayFields(log, rs, a);
    }
    assert t.rows == u.rows;
  }

  /** The last stretch in which `a` occurs ends with the columns `f` for it. */
  ghost predicate LastCarries(log: seq<Write>, rs: seq<Range>, a: string, f: Fields)
    requires forall i :: 0 <= i < |rs| ==> rs[i].lo <= rs[i].hi <= |log|
  {
    rs != [] &&
    var last := log[rs[|rs|-1].lo..rs[|rs|-1].hi];
    if Occurs(last, a) then Latest(last, a) == f else LastCarries(log, rs[..|rs|-1], a, f)
  }

  lemma {:induction false} CarriedIsHeld(log: seq<Write>, rs: seq<Range>, a: string, f: Fields)
    requires forall i :: 0 <= i < |rs| ==> rs[i].lo <= rs[i].hi <= |log|
    requires a in Replay(log, rs).rows
    ensures Replay(log, rs).rows[a].fields == f <==> LastCarries(log, rs, a, f)
  {
    var init, last := rs[..|rs|-1], rs[|rs|-1];
    UpsertedFields(Replay(log, init), log[last.lo..last.hi], a);
    if !Occurs(log[last.lo..last.hi], a) {
      CarriedIsHeld(log, init, a, f);
    }
  }

  /** Exactly when a replay converges: overlapping stretches give the table of a single pass if and only
      if, for every alert below the reach, the last stretch in which it occurs ends with its final
      columns. */
  lemma ReplayConvergesIff(log: seq<Write>, rs: seq<Range>)
    requires Chained(log, rs)
    ensures Reach(rs) <= |log|
    ensures Replay(log, rs) == UpsertAll(EMPTY, log[..Reach(rs)]) <==>
      forall a :: Occurs(log[..Reach(rs)], a) ==> LastCarries(log, rs, a, Latest(log[..Reach(rs)], a))
  {
    ReplayRows(log, rs);
    var pass := log[..Reach(rs)];
    var t, u := Replay(log, rs), UpsertAll(EMPTY, pass);
    forall a | Occurs(pass, a)
      ensures a in t.rows && a in u.rows && (t.rows[a] == u.rows[a] <==> LastCarries(log, rs, a, Latest(pass, a)))
    {
      UpsertedFields(EMPTY, pass, a);
      assert a in u.rows.Keys;
      CarriedIsHeld(log, rs, a, Latest(pass, a));
    }
    forall a | a in u.rows ensures Occurs(pass, a) {
      UpsertedFields(EMPTY, pass, a);
    }
    if forall a :: Occurs(pass, a) ==> LastCarries(log, rs, a, Latest(pass, a)) {
      assert t.rows == u.rows;
    }
  }

  /** Replaying a stretch that stops short of what was already applied can put old columns back. */
  lemma ShortReplayRegresses() returns (log: seq<Write>, rs: seq<Range>)
    ensures Chained(log, rs) && |rs| > 0 && Reach(rs) <= |log|
    ensures Replay(log, rs) != UpsertAll(EMPTY, log[..Reach(rs)])
  {
    log := [Write("a", ["old"]), Write("a", ["new"])];
    rs := [Range(0, 2), Range(0, 1)];
    assert rs[..1] == [Range(0, 2)] && rs[..1][..0] == [];
    assert log[0..2] == log && log[0..1] == [log[0]] && log[..2] == log;
    assert Reach(rs) == 2;
    UpsertedFields(Replay(log, rs[..1]), log[0..1], "a");
    UpsertedFields(EMPTY, log, "a");
    assert log[0..1][0].alertId == "a" && log[1].alertId == "a";
    assert Latest(log[0..1], "a") == ["old"] && Latest(log, "a") == ["new"];
  }
}
