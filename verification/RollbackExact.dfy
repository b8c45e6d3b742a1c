/** Exactly when a rollback leaves the window of the run without the alert, trimming and eviction
    included (inference/correlation.py). */
module RollbackExact {
  import opened SortedSet
  import opened CorrelationWindow
  import opened RollbackLaws
  import opened SeenSetLaws

  ghost predicate SameList(r: Window, y: Window) {
    r.list == y.list && r.count == y.count
  }

  ghost predicate SameSeen(r: Window, y: Window) {
    Members(r.seen) == Members(y.seen)
  }

  /* ---- Seen ids ---- */

  /** Nothing was evicted with the alert in place, or the alert itself and everything before it was. */
  predicate SeenUndisturbed(before: nat, after: nat, cap: nat) {
    before + after + 1 <= cap || after >= cap
  }

  /** The ids that a set filled first in, first out remembers. */
  function Tail(ids: seq<string>, cap: nat): seq<string> {
    ids[Oldest(|ids|, cap)..]
  }

  lemma RememberedIs(ids: seq<string>, cap: nat, x: string)
    requires cap > 0 && DistinctIds(ids) && |ids| <= 2 * cap
    ensures x in Members(AcceptAll(ids, cap)) <==> x in Tail(ids, cap)
  {
    FifoMembers(ids, cap, x);
    var tail := Tail(ids, cap);
    if x in tail {
      var k :| 0 <= k < |tail| && tail[k] == x;
      assert ids[Oldest(|ids|, cap) + k] == x;
    }
    if x in Later(ids, Oldest(|ids|, cap)) {
      var i :| Oldest(|ids|, cap) <= i < |ids| && ids[i] == x;
      assert tail[i - Oldest(|ids|, cap)] == x;
    }
  }

  lemma WithoutIsDistinct(pre: seq<string>, id: string, post: seq<string>)
    requires DistinctIds(pre + [id] + post)
    ensures DistinctIds(pre + post) && id !in pre && id !in post
  {
    var all, some := pre + [id] + post, pre + post;
    assert forall i :: 0 <= i < |some| ==> some[i] == all[if i < |pre| then i else i + 1];
    assert all[|pre|] == id;
    assert forall i :: 0 <= i < |pre| ==> all[i] == pre[i];
    assert forall i :: 0 <= i < |post| ==> all[|pre| + 1 + i] == post[i];
  }

  lemma DisturbedTails(pre: seq<string>, id: string, post: seq<string>, cap: nat, k: nat)
    requires !SeenUndisturbed(|pre|, |post|, cap) && k == |pre| + |post| - cap
    ensures k < |pre| && Tail(pre + [id] + post, cap) == pre[k+1..] + [id] + post
    ensures Tail(pre + post, cap) == pre[k..] + post
  {
  }

  lemma LostOnce(pre: seq<string>, id: string, post: seq<string>, k: nat)
    requires DistinctIds(pre + [id] + post) && k < |pre|
    ensures pre[k] !in pre[k+1..] + [id] + post
    ensures pre[k] in pre[k..] + post
  {
    var all, rest := pre + [id] + post, pre[k+1..] + [id] + post;
    assert all[k] == pre[k];
    assert forall i :: 0 <= i < |rest| ==> rest[i] == all[k + 1 + i];
    assert (pre[k..] + post)[0] == pre[k];
  }

  lemma DisturbedDiffer(pre: seq<string>, id: string, post: seq<string>, cap: nat)
    requires cap > 0 && DistinctIds(pre + [id] + post) && |pre| + |post| + 1 <= 2 * cap
    requires !SeenUndisturbed(|pre|, |post|, cap)
    ensures Members(AcceptAll(pre + [id] + post, cap)) - {id} != Members(AcceptAll(pre + post, cap))
  {
    var k := |pre| + |post| - cap;
    DisturbedTails(pre, id, post, cap, k);
    WithoutIsDistinct(pre, id, post);
    LostOnce(pre, id, post, k);
    RememberedIs(pre + [id] + post, cap, pre[k]);
    RememberedIs(pre + post, cap, pre[k]);
  }

  lemma UndisturbedTails(pre: seq<string>, id: string, post: seq<string>, cap: nat)
    requires SeenUndisturbed(|pre|, |post|, cap)
    ensures if |post| >= cap then
        Tail(pre + [id] + post, cap) == post[|post| - cap..] && Tail(pre + post, cap) == post[|post| - cap..]
      else
        Tail(pre + [id] + post, cap) == pre + [id] + post && Tail(pre + post, cap) == pre + post
  {
  }

  lemma UndisturbedMember(pre: seq<string>, id: string, post: seq<string>, cap: nat, x: string)
    requires SeenUndisturbed(|pre|, |post|, cap) && id !in pre && id !in post
    ensures x in Tail(pre + [id] + post, cap) && x != id <==> x in Tail(pre + post, cap)
  {
    UndisturbedTails(pre, id, post, cap);
  }

  lemma UndisturbedAgree(pre: seq<string>, id: string, post: seq<string>, cap: nat)
    requires cap > 0 && DistinctIds(pre + [id] + post) && |pre| + |post| + 1 <= 2 * cap
    requires SeenUndisturbed(|pre|, |post|, cap)
    ensures Members(AcceptAll(pre + [id] + post, cap)) - {id} == Members(AcceptAll(pre + post, cap))
  {
    WithoutIsDistinct(pre, id, post);
    var with, without := Members(AcceptAll(pre + [id] + post, cap)), Members(AcceptAll(pre + post, cap));
    forall x ensures x in with - {id} <==> x in without {
      UndisturbedMember(pre, id, post, cap, x);
      RememberedIs(pre + [id] + post, cap, x);
      RememberedIs(pre + post, cap, x);
    }
  }

  /* ---- Seen ids beyond twice the bound ---- */

  /** The one id that counts from the `cap`-th on only in the run with `id`: `id` itself, or the one it
      pushed there. */
  function Odd(pre: seq<string>, id: string, post: seq<string>, cap: nat): string
    requires |pre| + |post| + 1 > cap
  {
    if |pre| >= cap then id else (pre + [id] + post)[cap]
  }

  lemma OddInOrOut(pre: seq<string>, id: string, post: seq<string>, cap: nat, x: string)
    requires DistinctIds(pre + [id] + post) && |pre| + |post| >= cap
    ensures x in Later(pre + [id] + post, cap) <==> x in Later(pre + post, cap) || x == Odd(pre, id, post, cap)
  {
    var all, some := pre + [id] + post, pre + post;
    if x in Later(all, cap) && x != Odd(pre, id, post, cap) {
      var i :| cap <= i < |all| && all[i] == x;
      assert some[if i < |pre| then i else i - 1] == x;
    }
    if x in Later(some, cap) {
      var i :| cap <= i < |some| && some[i] == x;
      assert all[if i < |pre| then i else i + 1] == x;
    }
    assert all[|pre|] == id;
  }

  lemma OddIsOut(pre: seq<string>, id: string, post: seq<string>, cap: nat)
    requires DistinctIds(pre + [id] + post) && |pre| + |post| >= cap
    ensures Odd(pre, id, post, cap) !in Later(pre + post, cap)
  {
    var all, some := pre + [id] + post, pre + post;
    assert all[|pre|] == id;
    forall i | cap <= i < |some| ensures some[i] != Odd(pre, id, post, cap) {
      assert some[i] == all[if i < |pre| then i else i + 1];
    }
  }

  /** An alert among the first `cap` is not among those that count. */
  lemma EarlyIsOut(pre: seq<string>, id: string, post: seq<string>, cap: nat)
    requires DistinctIds(pre + [id] + post) && |pre| < cap
    ensures id !in Later(pre + [id] + post, cap)
  {
    var all := pre + [id] + post;
    assert all[|pre|] == id;
  }

  /** There is one way only to choose that many of the largest. */
  lemma LargestAreUnique(later: set<string>, a: set<string>, b: set<string>)
    requires a <= later && b <= later && |a| == |b|
    requires forall x, y :: x in later && x !in a && y in a ==> LexLess(x, y)
    requires forall x, y :: x in later && x !in b && y in b ==> LexLess(x, y)
    ensures a == b
  {
    assert a == (a - b) + a * b && b == (b - a) + a * b;
    if a != b {
      var x, y :| x in a - b && y in b - a;
      LexTotal(x, y);
    }
  }

  /** Once both runs are saturated, they remember the same ids exactly if the odd one is not remembered. */
  lemma SaturatedAgreeIff(pre: seq<string>, id: string, post: seq<string>, cap: nat)
    requires cap > 0 && DistinctIds(pre + [id] + post) && |pre| + |post| + 1 > 2 * cap
    ensures Members(AcceptAll(pre + [id] + post, cap)) - {id} == Members(AcceptAll(pre + post, cap))
      <==> Odd(pre, id, post, cap) !in Members(AcceptAll(pre + [id] + post, cap))
  {
    WithoutIsDistinct(pre, id, post);
    var all, some := pre + [id] + post, pre + post;
    var with, without, odd := Members(AcceptAll(all, cap)), Members(AcceptAll(some, cap)), Odd(pre, id, post, cap);
    SaturatedHoldsLargest(all, cap);
    SaturatedHoldsLargest(some, cap);
    OddIsOut(pre, id, post, cap);
    forall x ensures x in Later(all, cap) <==> x in Later(some, cap) || x == odd {
      OddInOrOut(pre, id, post, cap, x);
    }
    if odd !in with {
      LargestAreUnique(Later(some, cap), with, without);
    }
    if |pre| < cap {
      EarlyIsOut(pre, id, post, cap);
      assert with - {id} == with;
    }
  }

  /** The rollback gives back the seen ids of the run without the alert: up to twice the bound if nothing
      was evicted with it in place or it was itself; beyond, if `cap` ids that count are larger than the
      odd one. */
  ghost predicate SeenRestored(pre: seq<string>, id: string, post: seq<string>, cap: nat) {
    if |pre| + |post| + 1 <= 2 * cap then SeenUndisturbed(|pre|, |post|, cap)
    else |LargerThan(pre + [id] + post, cap, Odd(pre, id, post, cap))| >= cap
  }

  lemma SaturatedRestoredIff(pre: seq<string>, id: string, post: seq<string>, cap: nat)
    requires cap > 0 && DistinctIds(pre + [id] + post) && |pre| + |post| + 1 > 2 * cap
    ensures Members(AcceptAll(pre + [id] + post, cap)) - {id} == Members(AcceptAll(pre + post, cap))
      <==> SeenRestored(pre, id, post, cap)
  {
    SaturatedAgreeIff(pre, id, post, cap);
    OddInOrOut(pre, id, post, cap, Odd(pre, id, post, cap));
    SaturatedRemembersIff(pre + [id] + post, cap, Odd(pre, id, post, cap));
  }

  /* ---- The whole window ---- */

  /** From an empty window, alerts with distinct ids come in: `x` is the window with `a` among them, `y` the
      one without. */
  ghost predicate WithAndWithout(pre: seq<Alert>, a: Alert, bs: seq<Alert>, cap: nat, x: Window, y: Window) {
    && cap > 0 && DistinctIds(Ids(pre + [a] + bs))
    && x == Adds(EMPTY, pre + [a] + bs, cap) && y == Adds(EMPTY, pre + bs, cap)
  }

  lemma {:induction false} AddsConcat(w: Window, a: seq<Alert>, b: seq<Alert>, cap: nat)
    ensures Adds(w, a + b, cap) == Adds(Adds(w, a, cap), b, cap)
    ensures AllAccepted(w, a + b, cap) <==> AllAccepted(w, a, cap) && AllAccepted(Adds(w, a, cap), b, cap)
  {
    if b == [] {
      assert a + b == a;
    } else {
      assert (a + b)[..|a + b|-1] == a + b[..|b|-1];
      AddsConcat(w, a, b[..|b|-1], cap);
    }
  }

  lemma AddsOne(w: Window, a: Alert, cap: nat)
    ensures Adds(w, [a], cap) == Correlate(w, a, cap).window && (AllAccepted(w, [a], cap) <==> !IsDuplicate(w, a))
  {
    assert [a][..0] == [];
  }

  lemma {:induction false} MaximaApart(x: Window, y: Window, t: string, bs: seq<Alert>, cap: nat)
    requires AllAccepted(x, bs, cap) && AllAccepted(y, bs, cap)
    requires x.maxSeverity - {t} == y.maxSeverity - {t}
    ensures Adds(x, bs, cap).maxSeverity - {t} == Adds(y, bs, cap).maxSeverity - {t}
  {
    if bs == [] {
    } else {
      var init, b := bs[..|bs|-1], bs[|bs|-1];
      MaximaApart(x, y, t, init, cap);
      RaiseApart(Adds(x, init, cap).maxSeverity, Adds(y, init, cap).maxSeverity, Alert("", t, 25, false, ""), b);
    }
  }

  lemma IdsAround(pre: seq<Alert>, a: Alert, bs: seq<Alert>)
    ensures Ids(pre + [a] + bs) == Ids(pre) + [a.id] + Ids(bs) && Ids(pre + bs) == Ids(pre) + Ids(bs)
  {
  }

  lemma NotAround(pre: seq<Alert>, a: Alert, bs: seq<Alert>)
    requires DistinctIds(Ids(pre + [a] + bs))
    ensures DistinctIds(Ids(pre + bs)) && a !in pre && a !in bs
  {
    IdsAround(pre, a, bs);
    WithoutIsDistinct(Ids(pre), a.id, Ids(bs));
    forall i | 0 <= i < |pre| ensures pre[i] != a {
      assert Ids(pre)[i] == pre[i].id && Ids(pre)[i] in Ids(pre);
    }
    forall i | 0 <= i < |bs| ensures bs[i] != a {
      assert Ids(bs)[i] == bs[i].id && Ids(bs)[i] in Ids(bs);
    }
  }

  lemma AddsAround(pre: seq<Alert>, a: Alert, bs: seq<Alert>, cap: nat)
    ensures Adds(EMPTY, pre + [a] + bs, cap) == Adds(Correlate(Adds(EMPTY, pre, cap), a, cap).window, bs, cap)
    ensures AllAccepted(EMPTY, pre + [a] + bs, cap) ==>
      && AllAccepted(EMPTY, pre, cap) && !IsDuplicate(Adds(EMPTY, pre, cap), a)
      && AllAccepted(Correlate(Adds(EMPTY, pre, cap), a, cap).window, bs, cap)
  {
    AddsConcat(EMPTY, pre + [a], bs, cap);
    AddsConcat(EMPTY, pre, [a], cap);
    AddsOne(Adds(EMPTY, pre, cap), a, cap);
  }

  /** The alerts around `a` are accepted with it and without it. */
  lemma AroundAccepted(pre: seq<Alert>, a: Alert, bs: seq<Alert>, cap: nat)
    requires DistinctIds(Ids(pre + [a] + bs))
    ensures var w := Adds(EMPTY, pre, cap);
      && AllAccepted(EMPTY, pre, cap) && !IsDuplicate(w, a)
      && AllAccepted(w, bs, cap) && AllAccepted(Correlate(w, a, cap).window, bs, cap)
      && Adds(EMPTY, pre + bs, cap) == Adds(w, bs, cap)
      && Adds(EMPTY, pre + [a] + bs, cap) == Adds(Correlate(w, a, cap).window, bs, cap)
  {
    NotAround(pre, a, bs);
    DistinctAlertsSeen(pre + [a] + bs, cap);
    DistinctAlertsSeen(pre + bs, cap);
    AddsAround(pre, a, bs, cap);
    AddsConcat(EMPTY, pre, bs, cap);
  }

  lemma ListAfterRollback(pre: seq<Alert>, a: Alert, bs: seq<Alert>, cap: nat, x: Window, y: Window)
    requires WithAndWithout(pre, a, bs, cap, x, y)
    ensures SameList(Rollback(x, a, a.id), y) <==> |pre| + |bs| + 1 <= MAX_LIST
  {
    var w := Adds(EMPTY, pre, cap);
    AroundAccepted(pre, a, bs, cap);
    NotAround(pre, a, bs);
    ListOfAdds(pre, cap);
    RollbackExactIffUntrimmed(w, a, bs, cap);
  }

  lemma ListOfAdds(pre: seq<Alert>, cap: nat)
    requires AllAccepted(EMPTY, pre, cap)
    ensures var w := Adds(EMPTY, pre, cap);
      && |w.list| == (if |pre| <= MAX_LIST then |pre| else MAX_LIST) && (forall b :: b in w.list ==> b in pre)
      && (w.count.Present? ==> w.count.n >= 1)
  {
    AcceptedList(EMPTY, pre, cap);
    assert Reverse(pre) + EMPTY.list == Reverse(pre);
  }

  lemma MaximaUndone(w: Window, a: Alert, bs: seq<Alert>, cap: nat, x: Window, y: Window)
    requires AllAccepted(w, bs, cap) && AllAccepted(Correlate(w, a, cap).window, bs, cap)
    requires x == Adds(Correlate(w, a, cap).window, bs, cap) && y == Adds(w, bs, cap)
    ensures Rollback(x, a, a.id).maxSeverity == y.maxSeverity - {a.threat}
  {
    MaximaApart(Correlate(w, a, cap).window, w, a.threat, bs, cap);
  }

  lemma MaximaAfterRollback(pre: seq<Alert>, a: Alert, bs: seq<Alert>, cap: nat, x: Window, y: Window)
    requires WithAndWithout(pre, a, bs, cap, x, y)
    ensures Rollback(x, a, a.id).maxSeverity == y.maxSeverity - {a.threat}
  {
    AroundAccepted(pre, a, bs, cap);
    MaximaUndone(Adds(EMPTY, pre, cap), a, bs, cap, x, y);
  }

  lemma SeenOfAdds(pre: seq<Alert>, a: Alert, bs: seq<Alert>, cap: nat)
    requires DistinctIds(Ids(pre + [a] + bs))
    ensures Adds(EMPTY, pre + [a] + bs, cap).seen == AcceptAll(Ids(pre) + [a.id] + Ids(bs), cap)
    ensures Adds(EMPTY, pre + bs, cap).seen == AcceptAll(Ids(pre) + Ids(bs), cap)
    ensures DistinctIds(Ids(pre) + [a.id] + Ids(bs)) && a.id != ""
  {
    IdsAround(pre, a, bs);
    NotAround(pre, a, bs);
    DistinctAlertsSeen(pre + [a] + bs, cap);
    DistinctAlertsSeen(pre + bs, cap);
    assert (Ids(pre) + [a.id] + Ids(bs))[|pre|] == a.id;
  }

  lemma SeenAfterRemoval(ids: seq<string>, id: string, post: seq<string>, cap: nat)
    requires cap > 0 && DistinctIds(ids + [id] + post)
    ensures Members(ZRem(AcceptAll(ids + [id] + post, cap), id)) == Members(AcceptAll(ids + post, cap))
      <==> SeenRestored(ids, id, post, cap)
  {
    AcceptAllMembers(ids + [id] + post, cap);
    RemoveMembers(AcceptAll(ids + [id] + post, cap), id);
    if |ids| + |post| + 1 > 2 * cap {
      SaturatedRestoredIff(ids, id, post, cap);
    } else if SeenUndisturbed(|ids|, |post|, cap) {
      UndisturbedAgree(ids, id, post, cap);
    } else {
      DisturbedDiffer(ids, id, post, cap);
    }
  }

  lemma SeenAfterRollback(pre: seq<Alert>, a: Alert, bs: seq<Alert>, cap: nat, x: Window, y: Window)
    requires WithAndWithout(pre, a, bs, cap, x, y)
    ensures SameSeen(Rollback(x, a, a.id), y) <==> SeenRestored(Ids(pre), a.id, Ids(bs), cap)
  {
    SeenOfAdds(pre, a, bs, cap);
    SeenAfterRemoval(Ids(pre), a.id, Ids(bs), cap);
  }

  /* ---- An id that stripping changes ---- */

  lemma MembersCounted(ids: seq<string>, cap: nat)
    requires cap > 0 && DistinctIds(ids)
    ensures |Members(AcceptAll(ids, cap))| == Min(|ids|, cap)
  {
    if |ids| <= 2 * cap {
      FirstTwoCapsAreFifo(ids, cap);
      MembersCount(AcceptAll(ids, cap));
    } else {
      SaturatedCount(ids, cap);
    }
  }

  /** With the deployed bound: as many ids are remembered as were accepted, but 5000 at most. */
  lemma DeployedSeen(ids: seq<string>)
    requires DistinctIds(ids)
    ensures |Members(AcceptAll(ids, MAX_SEEN))| == if |ids| <= 5000 then |ids| else 5000
  {
    MembersCounted(ids, MAX_SEEN);
  }

  /** An id that is no longer remembered was evicted: there were more than `cap`. */
  lemma ForgottenWasEvicted(pre: seq<string>, id: string, post: seq<string>, cap: nat)
    requires cap > 0 && DistinctIds(pre + [id] + post) && id !in Members(AcceptAll(pre + [id] + post, cap))
    ensures |pre| + |post| >= cap
  {
    assert (pre + [id] + post)[|pre|] == id;
    if |pre| + |post| < cap {
      RememberedIs(pre + [id] + post, cap, id);
    }
  }

  lemma OtherRemoved(with: set<string>, without: set<string>, id: string, t: string)
    requires t != id && id !in without && (id !in with ==> |with| <= |without|)
    ensures with - {t} == without <==> with - {id} == without && id !in with && t !in with
  {
    if with - {t} == without {
      assert id !in with;
      assert t in with ==> with == without + {t};
      assert t !in with ==> with == without;
    }
    assert id !in with ==> with - {id} == with;
    assert t !in with ==> with - {t} == with;
  }

  /** The rollback of `id` takes out another id `t` instead, if that is there at all. */
  lemma OtherRemovedIff(pre: seq<string>, id: string, post: seq<string>, cap: nat, t: string)
    requires cap > 0 && DistinctIds(pre + [id] + post) && t != id
    ensures var with, without := Members(AcceptAll(pre + [id] + post, cap)), Members(AcceptAll(pre + post, cap));
      with - {t} == without <==> with - {id} == without && id !in with && t !in with
  {
    NeverMember(pre, id, post, cap);
    FullWithout(pre, id, post, cap);
    OtherRemoved(Members(AcceptAll(pre + [id] + post, cap)), Members(AcceptAll(pre + post, cap)), id, t);
  }

  lemma NeverMember(pre: seq<string>, id: string, post: seq<string>, cap: nat)
    requires DistinctIds(pre + [id] + post)
    ensures id !in Members(AcceptAll(pre + post, cap))
  {
    WithoutIsDistinct(pre, id, post);
    AcceptAllMembers(pre + post, cap);
  }

  /** Once the alert itself is evicted, the set is full with it and without it. */
  lemma FullWithout(pre: seq<string>, id: string, post: seq<string>, cap: nat)
    requires cap > 0 && DistinctIds(pre + [id] + post)
    ensures var with, without := Members(AcceptAll(pre + [id] + post, cap)), Members(AcceptAll(pre + post, cap));
      id !in with ==> |with| <= |without|
  {
    WithoutIsDistinct(pre, id, post);
    MembersCounted(pre + [id] + post, cap);
    MembersCounted(pre + post, cap);
    if id !in Members(AcceptAll(pre + [id] + post, cap)) {
      ForgottenWasEvicted(pre, id, post, cap);
    }
  }

  /** What the rollback takes out, by the id it is called with. */
  lemma SeenAfterRollbackOf(pre: seq<Alert>, a: Alert, bs: seq<Alert>, cap: nat, x: Window, y: Window, t: string)
    requires WithAndWithout(pre, a, bs, cap, x, y) && t != a.id
    ensures SameSeen(Rollback(x, a, t), y) <==>
      SeenRestored(Ids(pre), a.id, Ids(bs), cap) && a.id !in Members(x.seen) && t !in Members(x.seen)
  {
    var ids := Ids(pre) + [a.id] + Ids(bs);
    SeenOfAdds(pre, a, bs, cap);
    OtherRemovedIff(Ids(pre), a.id, Ids(bs), cap, t);
    SeenAfterRemoval(Ids(pre), a.id, Ids(bs), cap);
    AcceptAllMembers(ids, cap);
    RemoveMembers(AcceptAll(ids, cap), a.id);
    RemoveMembers(AcceptAll(ids, cap), t);
    EmptyIsNoMember(ids, cap);
  }

  lemma EmptyIsNoMember(ids: seq<string>, cap: nat)
    requires DistinctIds(ids)
    ensures "" !in Members(AcceptAll(ids, cap)) && Members(AcceptAll(ids, cap)) - {""} == Members(AcceptAll(ids, cap))
  {
    AcceptAllMembers(ids, cap);
    assert "" !in ids;
  }

  /** The alert's own id is the one taken out, or neither that nor the stripped one is remembered. */
  ghost predicate OwnIdOrNone(x: Window, a: Alert) {
    Strip(a.id) == a.id || (a.id !in Members(x.seen) && Strip(a.id) !in Members(x.seen))
  }

  /** From an empty window, any number of alerts with distinct ids, one of which is rolled back: list and
      counter are those of the run without it if and only if all fit into 100 entries; the seen ids if and
      only if they would be restored and the rollback takes out no other id; the maxima of other classes
      always, and its own class has none. */
  lemma RollbackExactIff(pre: seq<Alert>, a: Alert, bs: seq<Alert>, cap: nat, x: Window, y: Window, r: Window)
    requires WithAndWithout(pre, a, bs, cap, x, y) && r == RollbackAlert(x, a)
    ensures SameList(r, y) <==> |pre| + |bs| + 1 <= MAX_LIST
    ensures SameSeen(r, y) <==> SeenRestored(Ids(pre), a.id, Ids(bs), cap) && OwnIdOrNone(x, a)
    ensures r.maxSeverity == y.maxSeverity - {a.threat}
  {
    RollbackListAndMaxima(pre, a, bs, cap, x, y, Strip(a.id));
    if Strip(a.id) == a.id {
      SeenAfterRollback(pre, a, bs, cap, x, y);
    } else {
      SeenAfterRollbackOf(pre, a, bs, cap, x, y, Strip(a.id));
    }
  }

  lemma RollbackListAndMaxima(pre: seq<Alert>, a: Alert, bs: seq<Alert>, cap: nat, x: Window, y: Window, t: string)
    requires WithAndWithout(pre, a, bs, cap, x, y)
    ensures SameList(Rollback(x, a, t), y) <==> |pre| + |bs| + 1 <= MAX_LIST
    ensures Rollback(x, a, t).maxSeverity == y.maxSeverity - {a.threat}
  {
    ListAfterRollback(pre, a, bs, cap, x, y);
    MaximaAfterRollback(pre, a, bs, cap, x, y);
  }

  /** An alert rolled back after it evicted another one's id does not bring that id back. */
  lemma RollbackForgetsAnother() returns (b: Alert, a: Alert, cap: nat)
    ensures cap > 0 && b.id != a.id && b.id in Members(Adds(EMPTY, [b], cap).seen)
    ensures b.id !in Members(RollbackAlert(Adds(EMPTY, [b, a], cap), a).seen)
    ensures RollbackAlert(Adds(EMPTY, [b, a], cap), a).list == Adds(EMPTY, [b], cap).list
  {
    b, a, cap := Alert("b", "scan", 50, false, ""), Alert("c", "scan", 50, false, ""), 1;
    assert [b] + [a] + [] == [b, a] && [b] + [] == [b];
    assert Ids([b, a]) == ["b", "c"] && Ids([b]) == ["b"];
    var x := Adds(EMPTY, [b, a], cap);
    RollbackExactIff([b], a, [], cap, x, Adds(EMPTY, [b], cap), RollbackAlert(x, a));
    DistinctAlertsSeen([b], cap);
    DistinctAlertsSeen([b, a], cap);
    RememberedIs(["b"], cap, "b");
    RememberedIs(["b", "c"], cap, "b");
    AcceptAllMembers(["b", "c"], cap);
    RemoveMembers(AcceptAll(["b", "c"], cap), "c");
  }

  /** Beyond twice the bound it is not enough that the alert itself was evicted: its id is forgotten with
      or without the rollback, but it moved the others to higher scores. */
  lemma EvictedIsNotEnough() returns (a: Alert, bs: seq<Alert>, cap: nat)
    ensures WithAndWithout([], a, bs, cap, Adds(EMPTY, [a] + bs, cap), Adds(EMPTY, bs, cap)) && Strip(a.id) == a.id
    ensures SeenUndisturbed(0, |bs|, cap) && a.id !in Members(Adds(EMPTY, [a] + bs, cap).seen)
    ensures !SameSeen(RollbackAlert(Adds(EMPTY, [a] + bs, cap), a), Adds(EMPTY, bs, cap))
  {
    a, bs, cap := Scan("a"), [Scan("z"), Scan("b")], 1;
    ThreeScans(a, bs);
    WithTheseIds(a, bs, Adds(EMPTY, [a] + bs, cap), Adds(EMPTY, bs, cap));
  }

  lemma ThreeScans(a: Alert, bs: seq<Alert>)
    requires a == Scan("a") && bs == [Scan("z"), Scan("b")]
    ensures Ids([a] + bs) == ThreeIds() && Ids(bs) == ["z", "b"] && Strip(a.id) == a.id
  {
  }

  lemma WithTheseIds(a: Alert, bs: seq<Alert>, x: Window, y: Window)
    requires Ids([a] + bs) == ThreeIds() && Ids(bs) == ["z", "b"] && a.id == "a"
    requires x == Adds(EMPTY, [a] + bs, 1) && y == Adds(EMPTY, bs, 1)
    ensures WithAndWithout([], a, bs, 1, x, y) && a.id !in Members(x.seen) && !SameSeen(Rollback(x, a, a.id), y)
  {
    assert [] + [a] + bs == [a] + bs && [] + bs == bs && Ids([]) == [];
    OddIsTheLargest();
    DistinctAlertsSeen([a] + bs, 1);
    SeenAfterRollback([], a, bs, 1, x, y);
  }

  function ThreeIds(): seq<string> {
    ["a", "z", "b"]
  }

  lemma OddIsTheLargest()
    ensures !SeenRestored([], "a", ["z", "b"], 1) && "a" !in Members(AcceptAll(ThreeIds(), 1)) &&
      DistinctIds(ThreeIds())
  {
    assert [] + ["a"] + ["z", "b"] == ThreeIds();
    EarlyIsOut([], "a", ["z", "b"], 1);
    SaturatedRemembersIff(ThreeIds(), 1, "a");
    NoneLarger();
  }

  function Scan(id: string): Alert {
    Alert(id, "scan", 50, false, "")
  }

  lemma NoneLarger()
    ensures LargerThan(ThreeIds(), 1, "z") == {}
  {
    var ids := ThreeIds();
    forall y | y in Later(ids, 1) ensures !LexLess("z", y) {
      var i :| 1 <= i < 3 && ids[i] == y;
      LexTotal("z", y);
    }
  }
}
