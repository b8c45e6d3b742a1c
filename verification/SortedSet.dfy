/** A Redis sorted set: entries ascending by score, ties broken by member. */
module SortedSet {

  datatype Entry = Entry(score: nat, member: string)
  type ZSet = seq<Entry>

  predicate LexLess(a: string, b: string) {
    b != "" && (a == "" || a[0] < b[0] || (a[0] == b[0] && LexLess(a[1..], b[1..])))
  }

  lemma {:induction false} LexTotal(a: string, b: string)
    ensures (if LexLess(a, b) then 1 else 0) + (if LexLess(b, a) then 1 else 0) + (if a == b then 1 else 0) == 1
  {
    if a == "" || b == "" || a[0] != b[0] {
    } else {
      LexTotal(a[1..], b[1..]);
      assert a == [a[0]] + a[1..] && b == [b[0]] + b[1..];
    }
  }

  lemma {:induction false} LexTrans(a: string, b: string, c: string)
    requires LexLess(a, b) && LexLess(b, c)
    ensures LexLess(a, c)
  {
    if a == "" || a[0] != b[0] || b[0] != c[0] {
    } else {
      LexTrans(a[1..], b[1..], c[1..]);
    }
  }

  predicate Before(a: Entry, b: Entry) {
    a.score < b.score || (a.score == b.score && LexLess(a.member, b.member))
  }

  lemma BeforeTotal(a: Entry, b: Entry)
    ensures (if Before(a, b) then 1 else 0) + (if Before(b, a) then 1 else 0) + (if a == b then 1 else 0) == 1
  {
    LexTotal(a.member, b.member);
  }

  lemma BeforeTrans(a: Entry, b: Entry, c: Entry)
    requires Before(a, b) && Before(b, c)
    ensures Before(a, c)
  {
    if a.score == b.score && b.score == c.score {
      LexTrans(a.member, b.member, c.member);
    }
  }

  /** Ascending, and no member twice. */
  ghost predicate Valid(z: ZSet) {
    && (forall i, j :: 0 <= i < j < |z| ==> Before(z[i], z[j]))
    && (forall i, j :: 0 <= i < j < |z| ==> z[i].member != z[j].member)
  }

  function Members(z: ZSet): set<string> {
    set e | e in z :: e.member
  }

  function ZRem(z: ZSet, m: string): ZSet {
    if z == [] then [] else (if z[0].member == m then [] else [z[0]]) + ZRem(z[1..], m)
  }

  function Insert(z: ZSet, e: Entry): ZSet {
    if z == [] || Before(e, z[0]) then [e] + z else [z[0]] + Insert(z[1..], e)
  }

  /** ZADD: a member that is already there moves to its new score. */
  function ZAdd(z: ZSet, score: nat, m: string): ZSet {
    Insert(ZRem(z, m), Entry(score, m))
  }

  lemma {:induction false} RemoveElements(z: ZSet, m: string)
    ensures forall e :: e in ZRem(z, m) <==> e in z && e.member != m
  {
    if z == [] {
    } else {
      RemoveElements(z[1..], m);
      assert z == [z[0]] + z[1..];
    }
  }

  lemma {:induction false} RemoveAbsentMember(z: ZSet, m: string)
    requires m !in Members(z)
    ensures ZRem(z, m) == z
  {
    if z == [] {
    } else {
      assert z[0] in z && z == [z[0]] + z[1..];
      RemoveAbsentMember(z[1..], m);
    }
  }

  lemma HeadIsFirst(z: ZSet, e: Entry)
    requires Valid(z) && z != [] && e in z[1..]
    ensures Before(z[0], e) && z[0].member != e.member
  {
    var j :| 0 <= j < |z[1..]| && z[1..][j] == e;
    assert z[j + 1] == e;
  }

  lemma ConsValid(e: Entry, z: ZSet)
    requires Valid(z) && forall x :: x in z ==> Before(e, x) && e.member != x.member
    ensures Valid([e] + z)
  {
    var y := [e] + z;
    forall i, j | 0 <= i < j < |y| ensures Before(y[i], y[j]) && y[i].member != y[j].member {
      assert y[j] == z[j - 1] && z[j - 1] in z;
      if i > 0 {
        assert y[i] == z[i - 1];
      }
    }
  }

  lemma {:induction false} RemoveKeepsValid(z: ZSet, m: string)
    requires Valid(z)
    ensures Valid(ZRem(z, m))
  {
    if z == [] {
    } else {
      RemoveKeepsValid(z[1..], m);
      RemoveElements(z[1..], m);
      if z[0].member != m {
        forall x | x in ZRem(z[1..], m) ensures Before(z[0], x) && z[0].member != x.member {
          HeadIsFirst(z, x);
        }
        ConsValid(z[0], ZRem(z[1..], m));
      }
    }
  }

  lemma {:induction false} RemoveCount(z: ZSet, m: string)
    requires Valid(z)
    ensures |ZRem(z, m)| == |z| - if m in Members(z) then 1 else 0
  {
    if z == [] {
    } else {
      assert z == [z[0]] + z[1..];
      assert m in Members(z) <==> z[0].member == m || m in Members(z[1..]);
      if z[0].member == m {
        forall x | x in z[1..] ensures x.member != m {
          HeadIsFirst(z, x);
        }
        RemoveAbsentMember(z[1..], m);
      } else {
        RemoveCount(z[1..], m);
      }
    }
  }

  lemma RemoveSpec(z: ZSet, m: string)
    requires Valid(z)
    ensures Valid(ZRem(z, m))
    ensures forall e :: e in ZRem(z, m) <==> e in z && e.member != m
    ensures |ZRem(z, m)| == |z| - if m in Members(z) then 1 else 0
  {
    RemoveKeepsValid(z, m);
    RemoveElements(z, m);
    RemoveCount(z, m);
  }

  lemma {:induction false} InsertElements(z: ZSet, e: Entry)
    ensures |Insert(z, e)| == |z| + 1 && forall x :: x in Insert(z, e) <==> x in z || x == e
  {
    if z == [] || Before(e, z[0]) {
    } else {
      InsertElements(z[1..], e);
      assert z == [z[0]] + z[1..];
    }
  }

  lemma {:induction false} InsertSpec(z: ZSet, e: Entry)
    requires Valid(z) && forall x :: x in z ==> x.member != e.member
    ensures Valid(Insert(z, e)) && |Insert(z, e)| == |z| + 1
    ensures forall x :: x in Insert(z, e) <==> x in z || x == e
  {
    InsertElements(z, e);
    if z == [] {
    } else if Before(e, z[0]) {
      forall x | x in z ensures Before(e, x) && e.member != x.member {
        if x != z[0] {
          assert z == [z[0]] + z[1..];
          HeadIsFirst(z, x);
          BeforeTrans(e, z[0], x);
        }
      }
      ConsValid(e, z);
    } else {
      InsertSpec(z[1..], e);
      BeforeTotal(e, z[0]);
      assert z[0] in z;
      forall x | x in Insert(z[1..], e) ensures Before(z[0], x) && z[0].member != x.member {
        if x != e {
          HeadIsFirst(z, x);
        }
      }
      ConsValid(z[0], Insert(z[1..], e));
    }
  }

  lemma AddSpec(z: ZSet, score: nat, m: string)
    requires Valid(z)
    ensures Valid(ZAdd(z, score, m))
    ensures forall e :: e in ZAdd(z, score, m) <==> e == Entry(score, m) || (e in z && e.member != m)
    ensures |ZAdd(z, score, m)| == |z| + if m in Members(z) then 0 else 1
    ensures Members(ZAdd(z, score, m)) == Members(z) + {m}
  {
    RemoveSpec(z, m);
    InsertSpec(ZRem(z, m), Entry(score, m));
    assert Entry(score, m) in ZAdd(z, score, m);
    forall x | x in Members(z) ensures x in Members(ZAdd(z, score, m)) {
      var e :| e in z && e.member == x;
      assert x != m ==> e in ZAdd(z, score, m);
    }
  }

  lemma RemoveMembers(z: ZSet, m: string)
    requires Valid(z)
    ensures Members(ZRem(z, m)) == Members(z) - {m}
  {
    RemoveSpec(z, m);
    forall x | x in Members(z) - {m} ensures x in Members(ZRem(z, m)) {
      var e :| e in z && e.member == x;
      assert e in ZRem(z, m);
    }
  }

  /** ZREMRANGEBYRANK 0 0 removes the least entry and nothing else. */
  lemma PopSpec(z: ZSet)
    requires Valid(z) && z != []
    ensures Valid(z[1..]) && z[0] in z
    ensures forall e :: e in z[1..] <==> e in z && e != z[0]
    ensures Members(z[1..]) == Members(z) - {z[0].member}
    ensures forall e :: e in z && e != z[0] ==> Before(z[0], e) && e.member != z[0].member
  {
    assert z == [z[0]] + z[1..];
    forall e | e in z && e != z[0] ensures Before(z[0], e) && e.member != z[0].member {
      var j :| 0 <= j < |z| && z[j] == e;
    }
    BeforeTotal(z[0], z[0]);
    forall x | x in Members(z) - {z[0].member} ensures x in Members(z[1..]) {
      var e :| e in z && e.member == x;
      assert e in z[1..];
    }
  }
}
