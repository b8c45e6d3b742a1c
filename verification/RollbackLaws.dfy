/** The compensating rollback undoes exactly one add (inference/correlation.py). */
module RollbackLaws {
  import opened SortedSet
  import opened CorrelationWindow

  function Adds(w: Window, bs: seq<Alert>, cap: nat): Window {
    if bs == [] then w else Correlate(Adds(w, bs[..|bs|-1], cap), bs[|bs|-1], cap).window
  }

  /* ---- Undo ---- */

  /** `x` is `y` plus the one contribution of `a`. */
  ghost predicate OneMore(x: Window, y: Window, a: Alert) {
    && Members(x.seen) == Members(y.seen) + (if a.id != "" then {a.id} else {})
    && (a.id != "" ==> a.id !in Members(y.seen))
    && a in x.list && RemoveFirst(x.list, a) == y.list
    && x.count.Present? && Decrement(x.count) == y.count && (y.count.Present? ==> y.count.n >= 1)
    && x.maxSeverity - {a.threat} == y.maxSeverity - {a.threat}
  }

  /** Room in the seen set and in the list for `n` more alerts. */
  ghost predicate Room(w: Window, n: nat, cap: nat) {
    |w.seen| + n <= cap && |w.list| + n <= MAX_LIST
  }

  lemma AddIsOneMore(w: Window, a: Alert, n: nat, cap: nat)
    requires Wf(w, cap) && Room(w, n + 1, cap)
    requires a !in w.list && (a.id != "" ==> a.id !in Members(w.seen))
    ensures OneMore(Correlate(w, a, cap).window, w, a) && Room(Correlate(w, a, cap).window, n, cap)
  {
    SeeSpec(w.seen, a, cap);
    var x := Correlate(w, a, cap).window;
    assert x.list == [a] + w.list;
  }

  /** Adding another alert to both windows keeps them one contribution apart. */
  lemma AddKeepsOneMore(x: Window, y: Window, a: Alert, b: Alert, n: nat, cap: nat)
    requires Wf(x, cap) && Wf(y, cap) && Room(x, n + 1, cap) && Room(y, n + 1, cap)
    requires OneMore(x, y, a) && b.id != a.id
    ensures OneMore(Correlate(x, b, cap).window, Correlate(y, b, cap).window, a)
    ensures Room(Correlate(x, b, cap).window, n, cap) && Room(Correlate(y, b, cap).window, n, cap)
  {
    assert IsDuplicate(x, b) <==> IsDuplicate(y, b);
    if !IsDuplicate(x, b) {
      SeenApart(x.seen, y.seen, a, b, cap);
      assert Trim([b] + x.list) == [b] + x.list && Trim([b] + y.list) == [b] + y.list;
      RemoveSecond(b, x.list, a);
      RaiseApart(x.maxSeverity, y.maxSeverity, a, b);
    }
  }

  lemma SeenApart(x: ZSet, y: ZSet, a: Alert, b: Alert, cap: nat)
    requires Valid(x) && |x| < cap && (forall e :: e in x ==> e.score <= cap)
    requires Valid(y) && |y| < cap && (forall e :: e in y ==> e.score <= cap)
    requires Members(x) == Members(y) + (if a.id != "" then {a.id} else {}) && b.id != a.id
    requires a.id != "" ==> a.id !in Members(y)
    ensures Members(See(x, b, cap)) == Members(See(y, b, cap)) + (if a.id != "" then {a.id} else {})
    ensures a.id != "" ==> a.id !in Members(See(y, b, cap))
    ensures |See(x, b, cap)| <= |x| + 1 && |See(y, b, cap)| <= |y| + 1
  {
    SeeSpec(x, b, cap);
    SeeSpec(y, b, cap);
  }

  lemma RemoveSecond(b: Alert, l: seq<Alert>, a: Alert)
    requires a != b
    ensures RemoveFirst([b] + l, a) == [b] + RemoveFirst(l, a)
  {
    assert ([b] + l)[1..] == l;
  }

  lemma RaiseApart(m: map<string, nat>, n: map<string, nat>, a: Alert, b: Alert)
    requires m - {a.threat} == n - {a.threat}
    ensures Raise(m, b) - {a.threat} == Raise(n, b) - {a.threat}
  {
    var m', n' := m - {a.threat}, n - {a.threat};
    if b.threat == a.threat {
      assert m[b.threat := b.severity] - {a.threat} == m';
      assert n[b.threat := b.severity] - {a.threat} == n';
    } else {
      assert b.threat in m <==> b.threat in m';
      assert b.threat in n <==> b.threat in n';
      assert m[b.threat := b.severity] - {a.threat} == m'[b.threat := b.severity];
      assert n[b.threat := b.severity] - {a.threat} == n'[b.threat := b.severity];
    }
  }

  lemma OneMoreAfter(x: Window, y: Window, a: Alert, b: Alert, n: nat, cap: nat)
    requires Wf(x, cap) && Wf(y, cap) && Room(x, n + 1, cap) && Room(y, n + 1, cap)
    requires OneMore(x, y, a) && b.id != a.id && b.severity > 0
    ensures var x', y' := Correlate(x, b, cap).window, Correlate(y, b, cap).window;
      && OneMore(x', y', a) && Room(x', n, cap) && Room(y', n, cap) && Wf(x', cap) && Wf(y', cap)
  {
    AddKeepsOneMore(x, y, a, b, n, cap);
    CorrelateKeepsWf(x, b, cap);
    CorrelateKeepsWf(y, b, cap);
  }

  lemma {:induction false} AddsStayOneMore(x: Window, y: Window, a: Alert, bs: seq<Alert>, n: nat, cap: nat)
    requires Wf(x, cap) && Wf(y, cap) && Room(x, |bs| + n, cap) && Room(y, |bs| + n, cap) && OneMore(x, y, a)
    requires forall b :: b in bs ==> b.id != a.id && b.severity > 0
    ensures var x', y' := Adds(x, bs, cap), Adds(y, bs, cap);
      && OneMore(x', y', a) && Room(x', n, cap) && Room(y', n, cap) && Wf(x', cap) && Wf(y', cap)
    decreases |bs|
  {
    if bs == [] {
    } else {
      var init, b := bs[..|bs|-1], bs[|bs|-1];
      assert b in bs && forall i :: i in init ==> i in bs;
      AddsStayOneMore(x, y, a, init, n + 1, cap);
      OneMoreAfter(Adds(x, init, cap), Adds(y, init, cap), a, b, n, cap);
    }
  }

  lemma RollbackOfOneMore(x: Window, y: Window, a: Alert, cap: nat)
    requires OneMore(x, y, a) && Valid(x.seen) && Strip(a.id) == a.id
    ensures var r := RollbackAlert(x, a);
      && Members(r.seen) == Members(y.seen) && r.list == y.list && r.count == y.count
      && r.maxSeverity == y.maxSeverity - {a.threat}
  {
    RemoveMembers(x.seen, a.id);
  }

  /** Add `a`, then any alerts with other ids, then roll `a` back: the list, the counter and the seen
      ids are those of the run without `a`; every other class keeps its maximum; `a`'s class has none.
      Provided nothing was trimmed or evicted, and `a`'s id survives the strip that only the rollback
      applies. */
  lemma RollbackRemovesOneContribution(w: Window, a: Alert, bs: seq<Alert>, cap: nat)
    requires Wf(w, cap) && Room(w, |bs| + 1, cap) && Strip(a.id) == a.id
    requires a !in w.list && (a.id != "" ==> a.id !in Members(w.seen)) && a.severity > 0
    requires forall b :: b in bs ==> b.id != a.id && b.severity > 0
    ensures var r := RollbackAlert(Adds(Correlate(w, a, cap).window, bs, cap), a);
      var y := Adds(w, bs, cap);
      && Members(r.seen) == Members(y.seen) && r.list == y.list && r.count == y.count
      && r.maxSeverity == y.maxSeverity - {a.threat}
  {
    var x := Correlate(w, a, cap).window;
    AddIsOneMore(w, a, |bs|, cap);
    CorrelateKeepsWf(w, a, cap);
    AddsStayOneMore(x, w, a, bs, 0, cap);
    RollbackOfOneMore(Adds(x, bs, cap), Adds(w, bs, cap), a, cap);
  }

  /* ---- Exactly when trimming spoils it ---- */

  ghost predicate AllAccepted(w: Window, bs: seq<Alert>, cap: nat) {
    bs == [] || (AllAccepted(w, bs[..|bs|-1], cap) && !IsDuplicate(Adds(w, bs[..|bs|-1], cap), bs[|bs|-1]))
  }

  function Reverse(bs: seq<Alert>): seq<Alert> {
    if bs == [] then [] else [bs[|bs|-1]] + Reverse(bs[..|bs|-1])
  }

  function CountOf(c: Counter): int {
    if c.Absent? then 0 else c.n
  }

  lemma {:induction false} AcceptedCount(w: Window, bs: seq<Alert>, cap: nat)
    requires AllAccepted(w, bs, cap)
    ensures CountOf(Adds(w, bs, cap).count) == CountOf(w.count) + |bs|
  {
    if bs == [] {
    } else {
      AcceptedCount(w, bs[..|bs|-1], cap);
    }
  }

  lemma {:induction false} ReverseSpec(bs: seq<Alert>)
    ensures |Reverse(bs)| == |bs| && (forall b :: b in Reverse(bs) <==> b in bs)
  {
    if bs == [] {
    } else {
      ReverseSpec(bs[..|bs|-1]);
      assert bs == bs[..|bs|-1] + [bs[|bs|-1]];
    }
  }

  lemma TrimCons(b: Alert, l: seq<Alert>)
    ensures Trim([b] + Trim(l)) == Trim([b] + l)
  {
  }

  lemma ConsAssoc(b: Alert, l: seq<Alert>, m: seq<Alert>)
    ensures ([b] + l) + m == [b] + (l + m)
  {
  }

  lemma {:induction false} AcceptedNewestFirst(w: Window, bs: seq<Alert>, cap: nat)
    requires AllAccepted(w, bs, cap) && |w.list| <= MAX_LIST
    ensures Adds(w, bs, cap).list == Trim(Reverse(bs) + w.list)
  {
    if bs == [] {
      assert Reverse(bs) + w.list == w.list;
    } else {
      var init, b := bs[..|bs|-1], bs[|bs|-1];
      AcceptedNewestFirst(w, init, cap);
      TrimCons(b, Reverse(init) + w.list);
      ConsAssoc(b, Reverse(init), w.list);
    }
  }

  /** The list and counter after accepted alerts: newest first, cut at 100. */
  lemma AcceptedList(w: Window, bs: seq<Alert>, cap: nat)
    requires AllAccepted(w, bs, cap) && |w.list| <= MAX_LIST
    ensures Adds(w, bs, cap).list == Trim(Reverse(bs) + w.list)
    ensures |Reverse(bs)| == |bs| && (forall b :: b in Reverse(bs) <==> b in bs)
    ensures bs != [] ==> Adds(w, bs, cap).count == Present(CountOf(w.count) + |bs|)
  {
    AcceptedNewestFirst(w, bs, cap);
    ReverseSpec(bs);
    AcceptedCount(w, bs, cap);
  }

  lemma {:induction false} RemoveFirstAt(xs: seq<Alert>, a: Alert, ys: seq<Alert>)
    requires a !in xs
    ensures RemoveFirst(xs + ([a] + ys), a) == xs + ys
  {
    if xs == [] {
      assert xs + ([a] + ys) == [a] + ys && ([a] + ys)[1..] == ys && xs + ys == ys;
    } else {
      assert xs == [xs[0]] + xs[1..];
      ConsAssoc(xs[0], xs[1..], [a] + ys);
      ConsAssoc(xs[0], xs[1..], ys);
      RemoveFirstAt(xs[1..], a, ys);
      RemoveSecond(xs[0], xs[1..] + ([a] + ys), a);
    }
  }

  /** The list when `a` was added between `old` and the newer alerts `r`: within 100 entries removing
      `a` restores it, beyond them an older alert is missing or `a` itself is gone. */
  lemma TrimmedRemoval(r: seq<Alert>, a: Alert, tail: seq<Alert>)
    requires a !in r && a !in tail && |tail| <= MAX_LIST
    ensures var l := Trim(r + Trim([a] + tail));
      && (|r| + 1 + |tail| <= MAX_LIST ==> a in l && RemoveFirst(l, a) == r + tail)
      && (|r| < MAX_LIST < |r| + 1 + |tail| ==> a in l && |RemoveFirst(l, a)| == MAX_LIST - 1)
      && (|r| >= MAX_LIST ==> a !in l)
  {
    var l := Trim(r + Trim([a] + tail));
    RemoveFirstSpec(l, a);
    if |r| >= MAX_LIST {
      assert l == r[..MAX_LIST];
    } else {
      assert l[|r|] == a;
      if |r| + 1 + |tail| <= MAX_LIST {
        assert Trim([a] + tail) == [a] + tail;
        RemoveFirstAt(r, a, tail);
      }
    }
  }

  /** With every alert accepted, the rollback restores both the list and the counter if and only if
      nothing has been trimmed: the old list, `a` and the later alerts fit into 100 entries. */
  lemma RollbackExactIffUntrimmed(w: Window, a: Alert, bs: seq<Alert>, cap: nat)
    requires |w.list| <= MAX_LIST && a !in w.list && a !in bs && !IsDuplicate(w, a)
    requires w.count.Present? ==> w.count.n >= 1
    requires AllAccepted(w, bs, cap) && AllAccepted(Correlate(w, a, cap).window, bs, cap)
    ensures var r := RollbackAlert(Adds(Correlate(w, a, cap).window, bs, cap), a);
      var y := Adds(w, bs, cap);
      r.list == y.list && r.count == y.count <==> |w.list| + |bs| + 1 <= MAX_LIST
  {
    var x0 := Correlate(w, a, cap).window;
    AcceptedList(w, bs, cap);
    AcceptedList(x0, bs, cap);
    ListsAgreeIff(Adds(x0, bs, cap), Adds(w, bs, cap), w, a, Reverse(bs));
  }

  lemma ListsAgreeIff(x: Window, y: Window, w: Window, a: Alert, r: seq<Alert>)
    requires |w.list| <= MAX_LIST && a !in w.list && a !in r && (w.count.Present? ==> w.count.n >= 1)
    requires x.list == Trim(r + Trim([a] + w.list)) && y.list == Trim(r + w.list)
    requires x.count == Present(CountOf(w.count) + |r| + 1)
    requires y.count == if CountOf(w.count) + |r| == 0 then Absent else Present(CountOf(w.count) + |r|)
    ensures RemoveFirst(x.list, a) == y.list && (if a in x.list then Decrement(x.count) else x.count) == y.count
      <==> |w.list| + |r| + 1 <= MAX_LIST
  {
    TrimmedRemoval(r, a, w.list);
  }

  /* ---- Idempotence ---- */

  /** Rolling back twice is rolling back once exactly when the alert occurs at most once in the list. */
  lemma RollbackIdempotentIff(w: Window, a: Alert, id: string)
    requires Valid(w.seen)
    ensures Rollback(Rollback(w, a, id), a, id) == Rollback(w, a, id) <==> a !in RemoveFirst(w.list, a)
  {
    var r := Rollback(w, a, id);
    RemoveFirstSpec(r.list, a);
    if id != "" {
      RemoveSpec(w.seen, id);
      RemoveAbsentMember(r.seen, id);
    }
    assert r.maxSeverity - {a.threat} == r.maxSeverity;
  }

  /** The rollback forgets the id that the add recorded if and only if stripping leaves it as it is. */
  lemma RollbackForgetsIdIff(w: Window, a: Alert, cap: nat)
    requires Wf(w, cap) && |w.seen| < cap && a.id != "" && !IsDuplicate(w, a)
    ensures a.id !in Members(RollbackAlert(Correlate(w, a, cap).window, a).seen) <==> Strip(a.id) == a.id
  {
    SeeSpec(w.seen, a, cap);
    RemoveMembers(See(w.seen, a, cap), Strip(a.id));
  }

  /** The 29 characters that Python counts as spaces. */
  const SPACES := "\U{9}\U{A}\U{B}\U{C}\U{D}\U{1C}\U{1D}\U{1E}\U{1F}\U{20}\U{85}\U{A0}\U{1680}\U{2000}"
    + "\U{2001}\U{2002}\U{2003}\U{2004}\U{2005}\U{2006}\U{2007}\U{2008}"
    + "\U{2009}\U{200A}\U{2028}\U{2029}\U{202F}\U{205F}\U{3000}"

  lemma SpacesAre(c: char)
    ensures IsSpace(c) <==> c in SPACES
  {
    if IsSpace(c) {
      var n := c as int;
      var k := if n <= 0xD then n - 0x9 else if n <= 0x20 then n - 0x1C + 5 else if n == 0x85 then 10
        else if n == 0xA0 then 11 else if n == 0x1680 then 12 else if n <= 0x200A then n - 0x2000 + 13
        else if n <= 0x2029 then n - 0x2028 + 24 else if n == 0x202F then 26 else if n == 0x205F then 27 else 28;
      assert SPACES[k] == c;
    }
  }

  ghost predicate AllSpace(s: string) {
    forall i :: 0 <= i < |s| ==> IsSpace(s[i])
  }

  /** Stripping takes away exactly the spaces at both ends. */
  lemma {:induction false} StripTakesEnds(left: string, core: string, right: string)
    requires AllSpace(left) && AllSpace(right)
    requires core != "" ==> !IsSpace(core[0]) && !IsSpace(core[|core|-1])
    ensures Strip(left + core + right) == core
    decreases |left| + |right|
  {
    var s := left + core + right;
    if left != "" {
      assert s[0] == left[0] && s[1..] == left[1..] + core + right;
      StripTakesEnds(left[1..], core, right);
    } else if right != "" {
      assert s[|s|-1] == right[|right|-1] && s[..|s|-1] == left + core + right[..|right|-1];
      if core == "" {
        assert s[0] == right[0] && s[1..] == left + core + right[1..];
        StripTakesEnds(left, core, right[1..]);
      } else {
        assert s[0] == core[0];
        StripTakesEnds(left, core, right[..|right|-1]);
      }
    } else {
      assert s == core;
    }
  }

  /** So an id is as it is stripped exactly if it neither begins nor ends with a space. */
  lemma StripKeepsIff(s: string)
    requires s != ""
    ensures Strip(s) == s <==> !IsSpace(s[0]) && !IsSpace(s[|s|-1])
  {
    if IsSpace(s[0]) {
      StripShortens(s[1..]);
    } else if IsSpace(s[|s|-1]) {
      StripShortens(s[..|s|-1]);
    }
  }

  lemma {:induction false} StripShortens(s: string)
    ensures |Strip(s)| <= |s|
  {
    if s == "" {
    } else if IsSpace(s[0]) {
      StripShortens(s[1..]);
    } else if IsSpace(s[|s|-1]) {
      StripShortens(s[..|s|-1]);
    }
  }

  /** An id that begins with a space survives its rollback, although the alert leaves the list. */
  lemma PaddedIdIsKept() returns (a: Alert, cap: nat)
    ensures var r := RollbackAlert(Correlate(EMPTY, a, cap).window, a); a.id in Members(r.seen) && r.list == []
  {
    a, cap := Alert(" x", "scan", 50, false, ""), 1;
    assert a.id[1..] == "x" && IsSpace(' ') && !IsSpace('x');
    RollbackForgetsIdIff(EMPTY, a, cap);
  }

  /** Outside its class a rollback leaves every maximum alone. */
  lemma RollbackClearsOnlyItsClass(w: Window, a: Alert, id: string, c: string)
    ensures a.threat !in Rollback(w, a, id).maxSeverity
    ensures c != a.threat ==> MaxOf(Rollback(w, a, id).maxSeverity, c) == MaxOf(w.maxSeverity, c)
  {
  }
}
