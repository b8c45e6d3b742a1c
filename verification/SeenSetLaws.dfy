/** In which order the bounded seen set forgets alert ids (inference/correlation.py). */
module SeenSetLaws {
  import opened SortedSet
  import opened CorrelationWindow
  import opened RollbackLaws

  /** An accepted alert with id `id`, as far as the seen set is concerned. */
  function Accept(z: ZSet, id: string, cap: nat): ZSet {
    See(z, Alert(id, "", 25, false, ""), cap)
  }

  function AcceptAll(ids: seq<string>, cap: nat): ZSet {
    if ids == [] then [] else Accept(AcceptAll(ids[..|ids|-1], cap), ids[|ids|-1], cap)
  }

  ghost predicate DistinctIds(ids: seq<string>) {
    && (forall i :: 0 <= i < |ids| ==> ids[i] != "")
    && (forall i, j :: 0 <= i < j < |ids| ==> ids[i] != ids[j])
  }

  function Min(a: nat, b: nat): nat { if a <= b then a else b }

  /** The entry the `i`-th accepted id gets: scores stop growing at the cap. */
  function EntryOf(ids: seq<string>, i: nat, cap: nat): Entry
    requires i < |ids|
  {
    Entry(Min(i, cap), ids[i])
  }

  function Oldest(n: nat, cap: nat): nat { if n <= cap then 0 else n - cap }

  /** The set holds exactly the entries of the last `cap` ids. */
  ghost predicate HoldsLast(z: ZSet, ids: seq<string>, cap: nat) {
    && Valid(z) && |z| == Min(|ids|, cap)
    && (forall i :: Oldest(|ids|, cap) <= i < |ids| ==> EntryOf(ids, i, cap) in z)
    && (forall e :: e in z ==> exists i :: Oldest(|ids|, cap) <= i < |ids| && e == EntryOf(ids, i, cap))
  }

  lemma AcceptKeepsLast(z: ZSet, ids: seq<string>, id: string, cap: nat)
    requires cap > 0 && DistinctIds(ids + [id]) && |ids| < 2 * cap && HoldsLast(z, ids, cap)
    ensures HoldsLast(Accept(z, id, cap), ids + [id], cap)
  {
    var n, all := |ids|, ids + [id];
    assert forall i :: 0 <= i < n ==> all[i] == ids[i] && EntryOf(all, i, cap) == EntryOf(ids, i, cap);
    assert all[n] == id && EntryOf(all, n, cap) == Entry(|z|, id);
    forall e | e in z ensures e.member != id {
      var i :| Oldest(n, cap) <= i < n && e == EntryOf(ids, i, cap);
      assert all[i] != all[n];
    }
    var added := ZAdd(z, |z|, id);
    AddSpec(z, |z|, id);
    assert id !in Members(z);
    if n >= cap {
      PopSpec(added);
      LeastIsOldest(z, ids, added, id, cap);
      PoppedHoldsLast(z, ids, added, id, cap);
    }
  }

  /** With `cap` ids and before the scores saturate, the entry with the strictly least score is that of
      the oldest id. */
  lemma LeastIsOldest(z: ZSet, ids: seq<string>, added: ZSet, id: string, cap: nat)
    requires cap <= |ids| < 2 * cap && HoldsLast(z, ids, cap) && Valid(added) && added != []
    requires forall e :: e in added <==> e == Entry(cap, id) || e in z
    ensures added[0] == EntryOf(ids, |ids| - cap, cap)
  {
    var oldest := EntryOf(ids, |ids| - cap, cap);
    assert oldest in z && oldest in added && added[0] in added;
    PopSpec(added);
    forall e | e in added ensures e == oldest || Before(oldest, e) {
      if e in z {
        var i :| |ids| - cap <= i < |ids| && e == EntryOf(ids, i, cap);
      }
    }
    BeforeTotal(added[0], oldest);
  }

  lemma PoppedHoldsLast(z: ZSet, ids: seq<string>, added: ZSet, id: string, cap: nat)
    requires 0 < cap <= |ids| < 2 * cap && HoldsLast(z, ids, cap) && DistinctIds(ids + [id])
    requires Valid(added) && |added| == cap + 1 && added[0] == EntryOf(ids, |ids| - cap, cap)
    requires forall e :: e in added <==> e == Entry(cap, id) || e in z
    ensures HoldsLast(added[1..], ids + [id], cap)
  {
    var n, all := |ids|, ids + [id];
    PopSpec(added);
    assert forall i :: 0 <= i < n ==> EntryOf(all, i, cap) == EntryOf(ids, i, cap);
    assert EntryOf(all, n, cap) == Entry(cap, id);
    forall i | n + 1 - cap <= i < n + 1 ensures EntryOf(all, i, cap) in added[1..] {
      assert EntryOf(all, i, cap) in added;
      assert all[i] != all[n - cap];
    }
    forall e | e in added[1..] ensures exists i :: n + 1 - cap <= i < n + 1 && e == EntryOf(all, i, cap) {
      PoppedComesFrom(z, ids, added, id, cap, e);
    }
  }

  lemma PoppedComesFrom(z: ZSet, ids: seq<string>, added: ZSet, id: string, cap: nat, e: Entry)
    requires 0 < cap <= |ids| < 2 * cap && HoldsLast(z, ids, cap)
    requires Valid(added) && |added| == cap + 1 && added[0] == EntryOf(ids, |ids| - cap, cap)
    requires (e == Entry(cap, id) || e in z) && e in added[1..]
    ensures exists i :: |ids| + 1 - cap <= i < |ids| + 1 && e == EntryOf(ids + [id], i, cap)
  {
    PopSpec(added);
    if e == Entry(cap, id) {
      assert e == EntryOf(ids + [id], |ids|, cap);
    } else {
      var i :| |ids| - cap <= i < |ids| && e == EntryOf(ids, i, cap);
      assert e == EntryOf(ids + [id], i, cap);
    }
  }

  /** Up to twice the cap, ids are forgotten first in, first out. */
  lemma {:induction false} FirstTwoCapsAreFifo(ids: seq<string>, cap: nat)
    requires cap > 0 && DistinctIds(ids) && |ids| <= 2 * cap
    ensures HoldsLast(AcceptAll(ids, cap), ids, cap)
  {
    if ids == [] {
    } else {
      var init, id := ids[..|ids|-1], ids[|ids|-1];
      assert ids == init + [id];
      assert DistinctIds(init) by {
        assert forall i :: 0 <= i < |init| ==> init[i] == ids[i];
      }
      FirstTwoCapsAreFifo(init, cap);
      AcceptKeepsLast(AcceptAll(init, cap), init, id, cap);
    }
  }

  /** Up to twice the cap, an id is remembered exactly if it is among the last `cap` accepted. */
  lemma RemembersExactlyTheLast(ids: seq<string>, cap: nat, i: nat)
    requires cap > 0 && DistinctIds(ids) && |ids| <= 2 * cap && i < |ids|
    ensures ids[i] in Members(AcceptAll(ids, cap)) <==> i + cap >= |ids|
  {
    FirstTwoCapsAreFifo(ids, cap);
    var z := AcceptAll(ids, cap);
    assert i + cap >= |ids| ==> EntryOf(ids, i, cap) in z;
    forall e | e in z ensures e.member == ids[i] ==> i + cap >= |ids| {
      var j :| Oldest(|ids|, cap) <= j < |ids| && e == EntryOf(ids, j, cap);
      assert ids[i] == ids[j] ==> i == j;
    }
  }

  function Ids(bs: seq<Alert>): seq<string> {
    seq(|bs|, k requires 0 <= k < |bs| => bs[k].id)
  }

  lemma {:induction false} AcceptAllMembers(ids: seq<string>, cap: nat)
    requires DistinctIds(ids)
    ensures var z := AcceptAll(ids, cap);
      && Valid(z) && |z| <= cap && (forall e :: e in z ==> e.score <= cap)
      && forall m :: m in Members(z) ==> m in ids
  {
    if ids == [] {
    } else {
      var init, id := ids[..|ids|-1], ids[|ids|-1];
      assert ids == init + [id];
      AcceptAllMembers(init, cap);
      SeeSpec(AcceptAll(init, cap), Alert(id, "", 25, false, ""), cap);
    }
  }

  /** Alerts with distinct ids are all accepted, and leave this seen set. */
  lemma {:induction false} DistinctAlertsSeen(bs: seq<Alert>, cap: nat)
    requires DistinctIds(Ids(bs))
    ensures AllAccepted(EMPTY, bs, cap) && Adds(EMPTY, bs, cap).seen == AcceptAll(Ids(bs), cap)
  {
    if bs == [] {
    } else {
      var init, b := bs[..|bs|-1], bs[|bs|-1];
      assert Ids(bs)[..|bs|-1] == Ids(init);
      assert DistinctIds(Ids(init)) by {
        assert forall i :: 0 <= i < |init| ==> Ids(init)[i] == Ids(bs)[i];
      }
      DistinctAlertsSeen(init, cap);
      AcceptAllMembers(Ids(init), cap);
      assert b.id !in Ids(init) by {
        assert forall i :: 0 <= i < |init| ==> Ids(bs)[i] != Ids(bs)[|bs|-1];
      }
    }
  }

  /** Replay defence: after at most twice the cap of alerts with distinct ids, a repeat of the `i`-th
      is a complete no-op if and only if it is among the last `cap`. */
  lemma RepeatRejectedIffRecent(bs: seq<Alert>, i: nat, again: Alert, cap: nat)
    requires cap > 0 && DistinctIds(Ids(bs)) && |bs| <= 2 * cap && i < |bs|
    requires again.id == bs[i].id && !again.replay
    ensures var w := Adds(EMPTY, bs, cap); Correlate(w, again, cap) == Reply(w, 0, false, []) <==> i + cap >= |bs|
  {
    DistinctAlertsSeen(bs, cap);
    RemembersExactlyTheLast(Ids(bs), cap, i);
    AcceptedList(EMPTY, bs, cap);
    var w := Adds(EMPTY, bs, cap);
    assert Ids(bs)[i] == bs[i].id != "";
    assert !IsDuplicate(w, again) ==> Correlate(w, again, cap).total > 0;
  }

  /** A replay-marked alert is never rejected, whatever the set remembers. */
  lemma ReplayNeverRejected(w: Window, a: Alert, cap: nat)
    requires a.replay
    ensures Correlate(w, a, cap).window.count == Present(Increment(w.count)) && a in Correlate(w, a, cap).window.list
  {
    assert Trim([a] + w.list)[0] == a;
  }

  /* ---- After saturation ---- */

  /** The state from the `2 * cap`-th accepted id on. */
  ghost predicate Saturated(z: ZSet, cap: nat) {
    Valid(z) && |z| == cap && forall e :: e in z ==> e.score == cap
  }

  /** From then on the id forgotten is the least in byte order, whatever its age; the set stays
      saturated. */
  lemma SaturatedForgetsLeast(z: ZSet, id: string, cap: nat)
    requires cap > 0 && Saturated(z, cap) && id != "" && id !in Members(z)
    ensures var y := Accept(z, id, cap);
      && Saturated(y, cap)
      && exists m :: m in Members(z) + {id} && Members(y) == Members(z) + {id} - {m}
           && forall x :: x in Members(y) ==> LexLess(m, x)
  {
    AddSpec(z, cap, id);
    var added := ZAdd(z, cap, id);
    PopSpec(added);
    var m := added[0].member;
    forall x | x in Members(added[1..]) ensures LexLess(m, x) {
      var e :| e in added[1..] && e.member == x;
      assert Before(added[0], e) && added[0] in added;
    }
    assert m in Members(added);
  }

  lemma {:induction false} SaturatesAtTwiceTheCap(ids: seq<string>, cap: nat)
    requires cap > 0 && DistinctIds(ids) && |ids| >= 2 * cap
    ensures Saturated(AcceptAll(ids, cap), cap)
    decreases |ids|
  {
    if |ids| == 2 * cap {
      FirstTwoCapsAreFifo(ids, cap);
    } else {
      var init, id := ids[..|ids|-1], ids[|ids|-1];
      DistinctPrefix(ids);
      SaturatesAtTwiceTheCap(init, cap);
      NewIdIsUnknown(ids, cap);
      SaturatedForgetsLeast(AcceptAll(init, cap), id, cap);
    }
  }

  lemma DistinctPrefix(ids: seq<string>)
    requires DistinctIds(ids) && ids != []
    ensures DistinctIds(ids[..|ids|-1])
  {
    assert forall i :: 0 <= i < |ids| - 1 ==> ids[..|ids|-1][i] == ids[i];
  }

  lemma NewIdIsUnknown(ids: seq<string>, cap: nat)
    requires DistinctIds(ids) && ids != []
    ensures ids[|ids|-1] !in Members(AcceptAll(ids[..|ids|-1], cap)) && ids[|ids|-1] != ""
  {
    var init := ids[..|ids|-1];
    DistinctPrefix(ids);
    AcceptAllMembers(init, cap);
    assert forall i :: 0 <= i < |init| ==> init[i] == ids[i];
  }

  /* ---- What a saturated set remembers ---- */

  lemma {:induction false} MembersCount(z: ZSet)
    requires Valid(z)
    ensures |Members(z)| == |z|
  {
    if z == [] {
    } else {
      MembersCount(z[1..]);
      PopSpec(z);
      assert z[0].member in Members(z);
    }
  }

  /** From the `cap`-th one on. */
  function Later(ids: seq<string>, cap: nat): set<string> {
    set i | cap <= i < |ids| :: ids[i]
  }

  /** The members are `cap` of the ids from the `cap`-th on, and every other one of those is smaller. */
  ghost predicate HoldsLargest(z: ZSet, ids: seq<string>, cap: nat) {
    && Members(z) <= Later(ids, cap) && |Members(z)| == cap
    && forall x, y :: x in Later(ids, cap) && x !in Members(z) && y in Members(z) ==> LexLess(x, y)
  }

  lemma LaterSnoc(ids: seq<string>, id: string, cap: nat)
    requires |ids| >= cap
    ensures Later(ids + [id], cap) == Later(ids, cap) + {id}
  {
    var all := ids + [id];
    assert all[|ids|] == id && forall i :: 0 <= i < |ids| ==> all[i] == ids[i];
  }

  lemma FifoHoldsLargest(ids: seq<string>, cap: nat)
    requires cap > 0 && DistinctIds(ids) && |ids| == 2 * cap && |Members(AcceptAll(ids, cap))| == cap
    ensures HoldsLargest(AcceptAll(ids, cap), ids, cap)
  {
    forall x ensures x in Members(AcceptAll(ids, cap)) <==> x in Later(ids, cap) {
      FifoMembers(ids, cap, x);
    }
  }

  lemma SaturatedCount(ids: seq<string>, cap: nat)
    requires cap > 0 && DistinctIds(ids) && |ids| >= 2 * cap
    ensures |Members(AcceptAll(ids, cap))| == cap
  {
    SaturatesAtTwiceTheCap(ids, cap);
    MembersCount(AcceptAll(ids, cap));
  }

  lemma {:induction false} SaturatedHoldsLargest(ids: seq<string>, cap: nat)
    requires cap > 0 && DistinctIds(ids) && |ids| >= 2 * cap
    ensures HoldsLargest(AcceptAll(ids, cap), ids, cap)
    decreases |ids|
  {
    SaturatedCount(ids, cap);
    if |ids| == 2 * cap {
      FifoHoldsLargest(ids, cap);
    } else {
      var init, id := ids[..|ids|-1], ids[|ids|-1];
      DistinctPrefix(ids);
      SaturatedHoldsLargest(init, cap);
      SaturatesAtTwiceTheCap(init, cap);
      NewIdIsUnknown(ids, cap);
      OneMoreHoldsLargest(AcceptAll(init, cap), init, id, cap);
      assert init + [id] == ids;
    }
  }

  lemma FifoMembers(ids: seq<string>, cap: nat, x: string)
    requires cap > 0 && DistinctIds(ids) && |ids| <= 2 * cap
    ensures x in Members(AcceptAll(ids, cap)) <==> x in Later(ids, Oldest(|ids|, cap))
  {
    FirstTwoCapsAreFifo(ids, cap);
    var z := AcceptAll(ids, cap);
    if x in Members(z) {
      var e :| e in z && e.member == x;
      var i :| Oldest(|ids|, cap) <= i < |ids| && e == EntryOf(ids, i, cap);
    }
    if x in Later(ids, Oldest(|ids|, cap)) {
      var i :| Oldest(|ids|, cap) <= i < |ids| && ids[i] == x;
      assert EntryOf(ids, i, cap) in z;
    }
  }

  lemma OneMoreHoldsLargest(z: ZSet, ids: seq<string>, id: string, cap: nat)
    requires cap > 0 && Saturated(z, cap) && id != "" && id !in Members(z) && HoldsLargest(z, ids, cap)
    requires |Members(Accept(z, id, cap))| == cap && |ids| >= cap
    ensures HoldsLargest(Accept(z, id, cap), ids + [id], cap)
  {
    LaterSnoc(ids, id, cap);
    SaturatedForgetsLeast(z, id, cap);
    var y := Accept(z, id, cap);
    var m :| m in Members(z) + {id} && Members(y) == Members(z) + {id} - {m} &&
      forall x :: x in Members(y) ==> LexLess(m, x);
    forall x, w | x in Later(ids, cap) + {id} && x !in Members(y) && w in Members(y) ensures LexLess(x, w) {
      if x != m && w == id {
        LexTrans(x, m, id);
      }
    }
  }

  /** The larger ones among the ids from the `cap`-th on. */
  function LargerThan(ids: seq<string>, cap: nat, x: string): set<string> {
    set y | y in Later(ids, cap) && LexLess(x, y)
  }

  /** Once saturated, an id is remembered if and only if it came `cap`-th or later and fewer than `cap` of
      the ids from there on are larger in byte order: the order of arrival no longer counts. */
  lemma SaturatedRemembersIff(ids: seq<string>, cap: nat, x: string)
    requires cap > 0 && DistinctIds(ids) && |ids| >= 2 * cap
    ensures x in Members(AcceptAll(ids, cap)) <==> x in Later(ids, cap) && |LargerThan(ids, cap, x)| < cap
  {
    SaturatedHoldsLargest(ids, cap);
    var members := Members(AcceptAll(ids, cap));
    if x in members {
      LexTotal(x, x);
      forall y | y in LargerThan(ids, cap, x) ensures y in members - {x} {
        if y !in members {
          LexTotal(x, y);
        }
      }
      SmallerSet(LargerThan(ids, cap, x), members - {x});
    } else if x in Later(ids, cap) {
      SmallerSet(members, LargerThan(ids, cap, x));
    }
  }

  /** Replay defence once saturated: a repeat is a complete no-op if and only if its id is among the `cap`
      largest from the `cap`-th on. */
  lemma RepeatRejectedIffLarge(bs: seq<Alert>, i: nat, again: Alert, cap: nat)
    requires cap > 0 && DistinctIds(Ids(bs)) && |bs| >= 2 * cap && i < |bs|
    requires again.id == bs[i].id && !again.replay
    ensures var w := Adds(EMPTY, bs, cap);
      Correlate(w, again, cap) == Reply(w, 0, false, []) <==> i >= cap && |LargerThan(Ids(bs), cap, bs[i].id)| < cap
  {
    var w := Adds(EMPTY, bs, cap);
    DistinctAlertsSeen(bs, cap);
    SaturatedRemembersIff(Ids(bs), cap, bs[i].id);
    AcceptedList(EMPTY, bs, cap);
    LaterIff(Ids(bs), cap, i);
    assert Ids(bs)[i] == bs[i].id != "";
    assert !IsDuplicate(w, again) ==> Correlate(w, again, cap).total > 0;
  }

  lemma LaterIff(ids: seq<string>, cap: nat, i: nat)
    requires DistinctIds(ids) && i < |ids|
    ensures ids[i] in Later(ids, cap) <==> i >= cap
  {
    if ids[i] in Later(ids, cap) {
      var j :| cap <= j < |ids| && ids[j] == ids[i];
      assert i == j;
    }
  }

  lemma SmallerSet(a: set<string>, b: set<string>)
    requires a <= b
    ensures |a| <= |b|
  {
    assert b == a + (b - a);
  }

  /** So first in, first out fails: the id just accepted is remembered if and only if some id already
      in the set is smaller; otherwise its own repeat is accepted as new. */
  lemma SaturatedKeepsNewcomerIff(z: ZSet, id: string, cap: nat)
    requires cap > 0 && Saturated(z, cap) && id != "" && id !in Members(z)
    ensures id in Members(Accept(z, id, cap)) <==> exists x :: x in Members(z) && LexLess(x, id)
  {
    SaturatedForgetsLeast(z, id, cap);
    var y := Accept(z, id, cap);
    var m :| m in Members(z) + {id} && Members(y) == Members(z) + {id} - {m} &&
      forall x :: x in Members(y) ==> LexLess(m, x);
    LexTotal(m, m);
    assert id in Members(y) <==> m != id;
    if m != id {
      assert m in Members(z) && LexLess(m, id);
    } else {
      forall x | x in Members(z) ensures !LexLess(x, id) {
        assert x in Members(y);
        LexTotal(x, id);
      }
    }
  }

  /** A run in which the newest id is the one forgotten: its repeat is accepted as new. */
  lemma NewestIsForgotten() returns (bs: seq<Alert>, cap: nat)
    ensures bs != [] && DistinctIds(Ids(bs)) && !bs[|bs|-1].replay
    ensures var w := Adds(EMPTY, bs, cap);
      bs[|bs|-1].id !in Members(w.seen) && Correlate(w, bs[|bs|-1], cap) != Reply(w, 0, false, [])
  {
    bs, cap := [Alert("a", "scan", 50, false, ""), Alert("z", "scan", 50, false, ""),
      Alert("b", "scan", 50, false, "")], 1;
    assert Ids(bs) == ["a", "z", "b"];
    LargerCame();
    DistinctAlertsSeen(bs, cap);
    SaturatedRemembersIff(Ids(bs), cap, "b");
    RepeatRejectedIffLarge(bs, 2, bs[2], cap);
  }

  lemma LargerCame()
    ensures |LargerThan(["a", "z", "b"], 1, "b")| >= 1
  {
    assert ["a", "z", "b"][1] == "z" && LexLess("b", "z");
    SmallerSet({"z"}, LargerThan(["a", "z", "b"], 1, "b"));
  }
}
