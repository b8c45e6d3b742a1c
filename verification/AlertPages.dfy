/** Keyset pagination over the alert table (api/routes/alerts.py): a client walks the table by passing the
    last id of a page as the cursor of the next call, while the sink keeps writing. */
module AlertPages {
  import opened AlertTable

  datatype Listed = Listed(alertId: string, row: Row)

  function Ids(t: Table): set<nat> {
    set a | a in t.rows :: t.rows[a].id
  }

  /** The members of `ids` below `top`, largest first: the order in which the index is scanned. */
  function Descending(ids: set<nat>, top: nat): seq<nat> {
    if top == 0 then []
    else if top - 1 in ids then [top - 1] + Descending(ids, top - 1)
    else Descending(ids, top - 1)
  }

  /** The scan finds exactly the ids below `top`, each larger than the next. */
  lemma {:induction false} ScanFinds(ids: set<nat>, top: nat, x: nat)
    ensures x in Descending(ids, top) <==> x in ids && x < top
  {
    if top == 0 {
    } else {
      ScanFinds(ids, top - 1, x);
    }
  }

  lemma {:induction false} ScanDescends(ids: set<nat>, top: nat, i: nat, j: nat)
    requires i < j < |Descending(ids, top)|
    ensures Descending(ids, top)[j] < Descending(ids, top)[i]
  {
    if top - 1 !in ids {
      ScanDescends(ids, top - 1, i, j);
    } else if i > 0 {
      ScanDescends(ids, top - 1, i - 1, j - 1);
    } else {
      ScanFinds(ids, top - 1, Descending(ids, top - 1)[j - 1]);
    }
  }

  function IdsOf(rows: seq<Listed>): (ids: seq<nat>)
    ensures |ids| == |rows|
  {
    seq(|rows|, i requires 0 <= i < |rows| => rows[i].row.id)
  }

  /** The row with primary key `id`. */
  function RowAt(t: Table, id: nat): (l: Listed)
    requires Keyed(t) && id in Ids(t)
    ensures l.alertId in t.rows && t.rows[l.alertId] == l.row && l.row.id == id
  {
    var a :| a in t.rows && t.rows[a].id == id;
    Listed(a, t.rows[a])
  }

  /** No filter when the cursor is 0. */
  function Top(t: Table, cursor: nat): nat {
    if cursor > 0 then cursor else t.nextId
  }

  /** What the query finds before the limit applies. */
  function Found(t: Table, cursor: nat): seq<nat> {
    Descending(Ids(t), Top(t, cursor))
  }

  lemma FoundIsHeld(t: Table, cursor: nat, i: nat)
    requires i < |Found(t, cursor)|
    ensures Found(t, cursor)[i] in Ids(t) && Found(t, cursor)[i] < Top(t, cursor)
  {
    ScanFinds(Ids(t), Top(t, cursor), Found(t, cursor)[i]);
  }

  /** `get_alerts`: filter by the cursor, order by id descending, limit. */
  function GetAlerts(t: Table, cursor: nat, limit: nat): (page: seq<Listed>)
    requires Keyed(t)
    ensures |page| == Min(|Found(t, cursor)|, limit)
    ensures forall i :: 0 <= i < |page| ==>
      page[i].row.id == Found(t, cursor)[i] && page[i].alertId in t.rows && t.rows[page[i].alertId] == page[i].row
  {
    var found := Found(t, cursor);
    seq(Min(|found|, limit), i requires 0 <= i < Min(|found|, limit) =>
      FoundIsHeld(t, cursor, i); RowAt(t, found[i]))
  }

  function Min(a: nat, b: nat): nat {
    if a < b then a else b
  }

  /** A page is in strictly descending order, and below a positive cursor. */
  lemma PageDescends(t: Table, cursor: nat, limit: nat)
    requires Keyed(t)
    ensures var page := GetAlerts(t, cursor, limit);
      && |page| <= limit
      && (forall i, j :: 0 <= i < j < |page| ==> page[j].row.id < page[i].row.id)
      && (cursor > 0 ==> forall i :: 0 <= i < |page| ==> page[i].row.id < cursor)
  {
    var page := GetAlerts(t, cursor, limit);
    forall i, j | 0 <= i < j < |page| ensures page[j].row.id < page[i].row.id {
      ScanDescends(Ids(t), Top(t, cursor), i, j);
    }
    forall i | 0 <= i < |page| ensures page[i].row.id < Top(t, cursor) {
      FoundIsHeld(t, cursor, i);
    }
  }

  /** No eligible row is left out, unless the page is full of rows with larger ids. */
  lemma PageOmits(t: Table, cursor: nat, limit: nat, a: string)
    requires Keyed(t) && a in t.rows && (cursor > 0 ==> t.rows[a].id < cursor)
    ensures var page := GetAlerts(t, cursor, limit);
      || (exists i :: 0 <= i < |page| && page[i] == Listed(a, t.rows[a]))
      || (|page| == limit && forall i :: 0 <= i < |page| ==> t.rows[a].id < page[i].row.id)
  {
    var page, found := GetAlerts(t, cursor, limit), Found(t, cursor);
    ScanFinds(Ids(t), Top(t, cursor), t.rows[a].id);
    var k :| 0 <= k < |found| && found[k] == t.rows[a].id;
    if k < |page| {
      assert page[k] == Listed(a, t.rows[a]);
    } else {
      forall i | 0 <= i < |page| ensures t.rows[a].id < page[i].row.id {
        ScanDescends(Ids(t), Top(t, cursor), i, k);
      }
    }
  }

  /* ---- The walk ---- */

  /** What the sink commits between two calls, with the sequence values lost in between. */
  datatype Traffic = Traffic(writes: seq<Write>, gaps: seq<nat>)

  /** The table after the traffic between call `k` and call `k + 1`. */
  function Next(t: Table, traffic: nat -> Traffic, k: nat): (u: Table)
    requires Keyed(t)
    ensures Keyed(u) && t.nextId <= u.nextId
  {
    SpreadGrows(t, traffic(k).writes, traffic(k).gaps);
    UpsertSpread(t, traffic(k).writes, traffic(k).gaps)
  }

  /** The pages a client sees from call `k` on, until it gets an empty one. */
  function Walk(t: Table, cursor: nat, limit: nat, traffic: nat -> Traffic, k: nat): seq<seq<Listed>>
    requires Keyed(t) && limit > 0
    decreases Top(t, cursor)
  {
    var page := GetAlerts(t, cursor, limit);
    if page == [] then []
    else
      CursorDecreases(t, cursor, limit);
      [page] + Walk(Next(t, traffic, k), page[|page|-1].row.id, limit, traffic, k + 1)
  }

  /** The next cursor is smaller than this one, and never the 0 that would start over. */
  lemma CursorDecreases(t: Table, cursor: nat, limit: nat)
    requires Keyed(t) && GetAlerts(t, cursor, limit) != []
    ensures var page := GetAlerts(t, cursor, limit);
      0 < page[|page|-1].row.id < Top(t, cursor)
  {
    FoundIsHeld(t, cursor, |GetAlerts(t, cursor, limit)| - 1);
  }

  function Flatten(pages: seq<seq<Listed>>): seq<Listed> {
    if pages == [] then [] else pages[0] + Flatten(pages[1..])
  }

  /** Resuming the scan at its `n`th member yields what follows it. */
  lemma {:induction false} ScanResumes(ids: set<nat>, top: nat, n: nat)
    requires 0 < n <= |Descending(ids, top)|
    ensures Descending(ids, top)[n-1] < top
    ensures Descending(ids, Descending(ids, top)[n-1]) == Descending(ids, top)[n..]
  {
    if top - 1 in ids {
      if n > 1 {
        ScanResumes(ids, top - 1, n - 1);
      }
    } else {
      ScanResumes(ids, top - 1, n);
    }
  }

  lemma {:induction false} ScanDependsBelow(a: set<nat>, b: set<nat>, top: nat)
    requires forall x: nat :: x < top ==> (x in a <==> x in b)
    ensures Descending(a, top) == Descending(b, top)
  {
    if top == 0 {
    } else {
      ScanDependsBelow(a, b, top - 1);
    }
  }

  /** Rows the sink adds have larger ids than every row there was. */
  lemma GrowthIsAbove(t: Table, u: Table, x: nat)
    requires Keyed(t) && Grows(t, u) && x < t.nextId
    ensures x in Ids(t) <==> x in Ids(u)
  {
    if x in Ids(t) {
      var a :| a in t.rows && t.rows[a].id == x;
      assert u.rows[a].id == x;
    }
  }

  lemma WalkUnfolds(t: Table, cursor: nat, limit: nat, traffic: nat -> Traffic, k: nat)
    requires Keyed(t) && limit > 0 && GetAlerts(t, cursor, limit) != []
    ensures var page := GetAlerts(t, cursor, limit);
      var rest := Walk(Next(t, traffic, k), page[|page|-1].row.id, limit, traffic, k + 1);
      Flatten(Walk(t, cursor, limit, traffic, k)) == page + Flatten(rest)
  {
    var page := GetAlerts(t, cursor, limit);
    var rest := Walk(Next(t, traffic, k), page[|page|-1].row.id, limit, traffic, k + 1);
    assert ([page] + rest)[1..] == rest;
  }

  lemma NextScansTheSame(t: Table, u: Table, top: nat)
    requires Keyed(t) && Grows(t, u) && top <= t.nextId
    ensures Descending(Ids(t), top) == Descending(Ids(u), top)
  {
    forall x: nat | x < top ensures x in Ids(t) <==> x in Ids(u) {
      GrowthIsAbove(t, u, x);
    }
    ScanDependsBelow(Ids(t), Ids(u), top);
  }

  /** The ids a walk visits, from any cursor, are those the table has below it at that call. */
  lemma {:induction false} WalkVisits(t: Table, cursor: nat, limit: nat, traffic: nat -> Traffic, k: nat)
    requires Keyed(t) && limit > 0 && cursor <= t.nextId
    ensures IdsOf(Flatten(Walk(t, cursor, limit, traffic, k))) == Descending(Ids(t), Top(t, cursor))
    decreases Top(t, cursor)
  {
    var page := GetAlerts(t, cursor, limit);
    if page == [] {
    } else {
      var u, last := Next(t, traffic, k), page[|page|-1].row.id;
      CursorDecreases(t, cursor, limit);
      WalkVisits(u, last, limit, traffic, k + 1);
      SpreadGrows(t, traffic(k).writes, traffic(k).gaps);
      NextScansTheSame(t, u, last);
      WalkUnfolds(t, cursor, limit, traffic, k);
      JoinScan(Ids(t), Top(t, cursor), page, Flatten(Walk(u, last, limit, traffic, k + 1)));
    }
  }

  lemma JoinScan(ids: set<nat>, top: nat, page: seq<Listed>, rest: seq<Listed>)
    requires 0 < |page| <= |Descending(ids, top)|
    requires forall i :: 0 <= i < |page| ==> page[i].row.id == Descending(ids, top)[i]
    requires IdsOf(rest) == Descending(ids, page[|page|-1].row.id)
    ensures IdsOf(page + rest) == Descending(ids, top)
  {
    var found, n := Descending(ids, top), |page|;
    ScanResumes(ids, top, n);
    forall i | 0 <= i < |found| ensures (page + rest)[i].row.id == found[i] {
      if i < n {
        assert (page + rest)[i] == page[i];
      } else {
        assert (page + rest)[i] == rest[i - n];
        assert IdsOf(rest)[i - n] == rest[i - n].row.id;
        assert found[n..][i - n] == found[i];
      }
    }
  }

  /** The alert of `l` is in the table, under the id of `l`. */
  predicate RowIn(t: Table, l: Listed) {
    l.alertId in t.rows && t.rows[l.alertId].id == l.row.id
  }

  lemma PageShowsRows(t: Table, cursor: nat, limit: nat, l: Listed)
    requires Keyed(t) && l in GetAlerts(t, cursor, limit)
    ensures RowIn(t, l) && l.row.id < Top(t, cursor)
  {
    var page := GetAlerts(t, cursor, limit);
    var i :| 0 <= i < |page| && page[i] == l;
    FoundIsHeld(t, cursor, i);
  }

  lemma LaterRows(t: Table, cursor: nat, limit: nat, traffic: nat -> Traffic, k: nat, l: Listed)
    requires Keyed(t) && limit > 0 && l in Flatten(Walk(t, cursor, limit, traffic, k))
    requires l !in GetAlerts(t, cursor, limit)
    ensures var page := GetAlerts(t, cursor, limit);
      page != [] && l in Flatten(Walk(Next(t, traffic, k), page[|page|-1].row.id, limit, traffic, k + 1))
  {
    if GetAlerts(t, cursor, limit) != [] {
      WalkUnfolds(t, cursor, limit, traffic, k);
    }
  }

  lemma RowWasThere(t: Table, traffic: nat -> Traffic, k: nat, l: Listed)
    requires Keyed(t) && RowIn(Next(t, traffic, k), l) && l.row.id < t.nextId
    ensures RowIn(t, l)
  {
    SpreadGrows(t, traffic(k).writes, traffic(k).gaps);
  }

  /** What a walk shows under an id is the alert that has it at the call the walk starts from. */
  lemma {:induction false} WalkShowsRows(t: Table, cursor: nat, limit: nat, traffic: nat -> Traffic, k: nat, l: Listed)
    requires Keyed(t) && limit > 0 && cursor <= t.nextId && l in Flatten(Walk(t, cursor, limit, traffic, k))
    ensures RowIn(t, l) && l.row.id < Top(t, cursor)
    decreases Top(t, cursor)
  {
    var page := GetAlerts(t, cursor, limit);
    if l in page {
      PageShowsRows(t, cursor, limit, l);
    } else {
      LaterRows(t, cursor, limit, traffic, k, l);
      CursorDecreases(t, cursor, limit);
      WalkShowsRows(Next(t, traffic, k), page[|page|-1].row.id, limit, traffic, k + 1, l);
      RowWasThere(t, traffic, k, l);
    }
  }

  /** The walk is complete: whatever the sink writes between the calls, a client that starts without a
      cursor and passes on the last id of each page sees exactly the rows present at the first call, once
      each, in descending order, each id under the alert that had it. */
  lemma WalkIsComplete(t: Table, limit: nat, traffic: nat -> Traffic)
    requires Keyed(t) && limit > 0
    ensures var seen := Flatten(Walk(t, 0, limit, traffic, 0));
      && (forall i, j :: 0 <= i < j < |seen| ==> seen[j].row.id < seen[i].row.id)
      && (forall a :: a in t.rows ==> exists i :: 0 <= i < |seen| && seen[i].alertId == a)
      && (forall i :: 0 <= i < |seen| ==> RowIn(t, seen[i]))
  {
    var seen := Flatten(Walk(t, 0, limit, traffic, 0));
    WalkVisits(t, 0, limit, traffic, 0);
    forall i, j | 0 <= i < j < |seen| ensures seen[j].row.id < seen[i].row.id {
      ScanDescends(Ids(t), t.nextId, i, j);
      assert IdsOf(seen)[i] == seen[i].row.id && IdsOf(seen)[j] == seen[j].row.id;
    }
    forall i | 0 <= i < |seen| ensures RowIn(t, seen[i]) {
      WalkShowsRows(t, 0, limit, traffic, 0, seen[i]);
    }
    forall a | a in t.rows ensures exists i :: 0 <= i < |seen| && seen[i].alertId == a {
      ScanFinds(Ids(t), t.nextId, t.rows[a].id);
      var i :| 0 <= i < |IdsOf(seen)| && IdsOf(seen)[i] == t.rows[a].id;
      assert seen[i].alertId == a;
    }
  }
}
