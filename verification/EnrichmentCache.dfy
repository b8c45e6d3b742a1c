/** The enrichment cache (inference/enrichment.py): an ordered dictionary whose order is that of the
    last touch, with an expiry per entry and a bound on its size. */
module EnrichmentCache {

  /** `touched` last is at the end. */
  datatype Entry = Entry(key: string, data: string, expires: int)
  type Cache = seq<Entry>

  datatype Lookup = Miss | Hit(data: string)

  datatype Op = Get(key: string, now: int) | Set(key: string, data: string, now: int)

  function Find(c: Cache, k: string): (i: nat)
    ensures i <= |c| && (i < |c| ==> c[i].key == k) && forall j :: 0 <= j < i ==> c[j].key != k
  {
    if c == [] then 0 else if c[0].key == k then 0 else 1 + Find(c[1..], k)
  }

  /** The cache without the entry of `k`, if there is one. */
  function Rest(c: Cache, k: string): Cache {
    if c == [] then [] else if c[0].key == k then c[1..] else [c[0]] + Rest(c[1..], k)
  }

  /** `_get_cached`: a live entry moves to the end, an expired one is dropped. */
  function GetCached(c: Cache, k: string, now: int): (r: (Cache, Lookup)) {
    var i := Find(c, k);
    if i == |c| then (c, Miss)
    else if now < c[i].expires then (Rest(c, k) + [c[i]], Hit(c[i].data))
    else (Rest(c, k), Miss)
  }

  /** `popitem(last=False)` until the size fits. */
  function Shrink(c: Cache, size: nat): Cache {
    if |c| > size then c[|c| - size..] else c
  }

  function SetCached(c: Cache, k: string, data: string, now: int, ttl: int, size: nat): Cache {
    Shrink(Rest(c, k) + [Entry(k, data, now + ttl)], size)
  }

  function Apply(c: Cache, op: Op, ttl: int, size: nat): Cache {
    match op
    case Get(k, now) => GetCached(c, k, now).0
    case Set(k, data, now) => SetCached(c, k, data, now, ttl, size)
  }

  function Run(ops: seq<Op>, ttl: int, size: nat): Cache {
    if ops == [] then [] else Apply(Run(ops[..|ops|-1], ttl, size), ops[|ops|-1], ttl, size)
  }

  /** Does the last operation of the trace touch its key: is it a set, or a get that hits? */
  predicate Touches(before: Cache, op: Op) {
    op.Set? || GetCached(before, op.key, op.now).1.Hit?
  }

  ghost predicate Monotone(ops: seq<Op>) {
    forall i, j :: 0 <= i <= j < |ops| ==> ops[i].now <= ops[j].now
  }

  /* ---- What the trace says, without the cache ---- */

  /** The last set of `k`, if any. */
  function LastSet(ops: seq<Op>, k: string): (i: nat)
    ensures i <= |ops| && (i < |ops| ==> ops[i].Set? && ops[i].key == k)
    ensures forall j :: 0 <= j < |ops| && (i == |ops| || i < j) && ops[j].Set? ==> ops[j].key != k
  {
    if ops == [] then 0
    else
      var n := |ops| - 1;
      if ops[n].Set? && ops[n].key == k then n
      else
        var i := LastSet(ops[..n], k);
        if i == n then n + 1 else i
  }

  /** The other keys touched since `k` was touched last. */
  function TouchedSince(ops: seq<Op>, k: string, ttl: int, size: nat): set<string> {
    if ops == [] then {}
    else
      var init, op := ops[..|ops|-1], ops[|ops|-1];
      if !Touches(Run(init, ttl, size), op) then TouchedSince(init, k, ttl, size)
      else if op.key == k then {}
      else TouchedSince(init, k, ttl, size) + {op.key}
  }

  /** Of these, the ones still held: not looked up since in vain, that is, after they expired. */
  function HeldSince(ops: seq<Op>, k: string, ttl: int, size: nat): set<string> {
    if ops == [] then {}
    else
      var init, op := ops[..|ops|-1], ops[|ops|-1];
      if !Touches(Run(init, ttl, size), op) then HeldSince(init, k, ttl, size) - {op.key}
      else if op.key == k then {}
      else HeldSince(init, k, ttl, size) + {op.key}
  }

  /** At some set since `k` was touched last, that one included if it is a set, `size` other keys touched
      after it were held. */
  predicate Displaced(ops: seq<Op>, k: string, ttl: int, size: nat) {
    ops != [] &&
    var init, op := ops[..|ops|-1], ops[|ops|-1];
    var now := op.Set? && |HeldSince(ops, k, ttl, size)| >= size;
    if Touches(Run(init, ttl, size), op) && op.key == k then now else Displaced(init, k, ttl, size) || now
  }

  /* ---- Order and size ---- */

  ghost predicate Distinct(c: Cache) {
    forall i, j :: 0 <= i < j < |c| ==> c[i].key != c[j].key
  }

  lemma CutCons(c: Cache, i: nat)
    requires i < |c| - 1
    ensures [c[0]] + (c[1..][..i] + c[1..][i+1..]) == c[..i+1] + c[i+2..]
  {
  }

  lemma {:induction false} RestAt(c: Cache, k: string)
    ensures var at := Find(c, k);
      Rest(c, k) == if at == |c| then c else c[..at] + c[at+1..]
  {
    if c == [] || c[0].key == k {
    } else {
      RestAt(c[1..], k);
      if Find(c[1..], k) < |c[1..]| {
        CutCons(c, Find(c[1..], k));
      }
    }
  }

  lemma {:induction false} RestSpec(c: Cache, k: string)
    requires Distinct(c)
    ensures Distinct(Rest(c, k)) && |Rest(c, k)| == if Find(c, k) == |c| then |c| else |c| - 1
    ensures forall e :: e in Rest(c, k) <==> e in c && e.key != k
  {
    if c == [] {
    } else {
      RestSpec(c[1..], k);
      assert forall e :: e in c <==> e == c[0] || e in c[1..];
      if c[0].key == k {
        assert forall e :: e in c[1..] ==> e.key != k;
      }
    }
  }

  lemma PromotedShape(c: Cache, e: Entry, size: nat)
    requires Distinct(c) && |c| <= size
    ensures Distinct(Rest(c, e.key) + [e]) && |Rest(c, e.key) + [e]| <= size + 1
    ensures forall f :: f in Rest(c, e.key) + [e] <==> f == e || (f in c && f.key != e.key)
  {
    var r := Rest(c, e.key);
    RestSpec(c, e.key);
    forall i | 0 <= i < |r| ensures r[i].key != e.key {
      assert r[i] in r;
    }
  }

  lemma ShrinkKeepsShape(c: Cache, size: nat)
    requires Distinct(c)
    ensures Distinct(Shrink(c, size)) && |Shrink(c, size)| <= size
  {
  }

  lemma GetKeepsShape(c: Cache, k: string, now: int, size: nat)
    requires Distinct(c) && |c| <= size
    ensures Distinct(GetCached(c, k, now).0) && |GetCached(c, k, now).0| <= size
  {
    RestSpec(c, k);
    if Find(c, k) < |c| {
      PromotedShape(c, c[Find(c, k)], size);
    }
  }

  lemma ApplyKeepsShape(c: Cache, op: Op, ttl: int, size: nat)
    requires Distinct(c) && |c| <= size
    ensures Distinct(Apply(c, op, ttl, size)) && |Apply(c, op, ttl, size)| <= size
  {
    match op
    case Get(k, now) => GetKeepsShape(c, k, now, size);
    case Set(k, data, now) =>
      var e := Entry(k, data, now + ttl);
      PromotedShape(c, e, size);
      ShrinkKeepsShape(Rest(c, k) + [e], size);
  }

  /** Keys are distinct and at most `size`, after any run. */
  lemma {:induction false} RunKeepsShape(ops: seq<Op>, ttl: int, size: nat)
    ensures Distinct(Run(ops, ttl, size)) && |Run(ops, ttl, size)| <= size
  {
    if ops == [] {
    } else {
      RunKeepsShape(ops[..|ops|-1], ttl, size);
      ApplyKeepsShape(Run(ops[..|ops|-1], ttl, size), ops[|ops|-1], ttl, size);
    }
  }

  function KeysOf(c: Cache): set<string> {
    set e | e in c :: e.key
  }

  lemma FindIff(c: Cache, k: string)
    ensures k in KeysOf(c) <==> Find(c, k) < |c|
  {
    if k in KeysOf(c) {
      var e :| e in c && e.key == k;
    }
    if Find(c, k) < |c| {
      assert c[Find(c, k)] in c;
    }
  }

  lemma {:induction false} KeysCounted(c: Cache)
    requires Distinct(c)
    ensures |KeysOf(c)| == |c|
  {
    if c == [] {
    } else {
      KeysCounted(c[1..]);
      assert forall e :: e in c <==> e == c[0] || e in c[1..];
      assert KeysOf(c) == {c[0].key} + KeysOf(c[1..]);
      assert c[0].key !in KeysOf(c[1..]);
    }
  }

  /** The keys behind the entry of `k`. */
  function Behind(c: Cache, k: string): set<string> {
    if c == [] then {} else if c[0].key == k then KeysOf(c[1..]) else Behind(c[1..], k)
  }

  /** They are exactly those touched since it was and still held. */
  ghost predicate FollowersHeld(c: Cache, ops: seq<Op>, ttl: int, size: nat) {
    forall k :: k in KeysOf(c) ==> Behind(c, k) == HeldSince(ops, k, ttl, size)
  }

  ghost predicate FromSet(ops: seq<Op>, e: Entry, ttl: int) {
    var i := LastSet(ops, e.key);
    i < |ops| && ops[i].data == e.data && ops[i].now + ttl == e.expires
  }

  /** An entry's data and expiry are those of the last set of its key. */
  ghost predicate FromLastSet(c: Cache, ops: seq<Op>, ttl: int) {
    forall e :: e in c ==> FromSet(ops, e, ttl)
  }

  /** The last set of `k` has not expired at the last operation. */
  predicate Unexpired(ops: seq<Op>, k: string, ttl: int) {
    LastSet(ops, k) < |ops| && ops[|ops|-1].now < ops[LastSet(ops, k)].now + ttl
  }

  /** An unexpired key is held unless it was displaced. */
  ghost predicate PresentExactly(c: Cache, ops: seq<Op>, ttl: int, size: nat) {
    forall k :: Unexpired(ops, k, ttl) ==> (k in KeysOf(c) <==> !Displaced(ops, k, ttl, size))
  }

  ghost predicate Inv(c: Cache, ops: seq<Op>, ttl: int, size: nat) {
    && Distinct(c) && |c| <= size
    && FollowersHeld(c, ops, ttl, size) && FromLastSet(c, ops, ttl) && PresentExactly(c, ops, ttl, size)
  }

  lemma TraceSnoc(ops: seq<Op>, op: Op, k: string, ttl: int, size: nat)
    ensures Run(ops + [op], ttl, size) == Apply(Run(ops, ttl, size), op, ttl, size)
    ensures LastSet(ops + [op], k) ==
      if op.Set? && op.key == k then |ops| else if LastSet(ops, k) == |ops| then |ops| + 1 else LastSet(ops, k)
    ensures HeldSince(ops + [op], k, ttl, size) ==
      if !Touches(Run(ops, ttl, size), op) then HeldSince(ops, k, ttl, size) - {op.key}
      else if op.key == k then {}
      else HeldSince(ops, k, ttl, size) + {op.key}
  {
    assert (ops + [op])[..|ops|] == ops;
  }

  lemma DisplacedSnoc(ops: seq<Op>, op: Op, k: string, ttl: int, size: nat)
    ensures var now := op.Set? && |HeldSince(ops + [op], k, ttl, size)| >= size;
      Displaced(ops + [op], k, ttl, size) <==>
        now || (Displaced(ops, k, ttl, size) && !(Touches(Run(ops, ttl, size), op) && op.key == k))
  {
    assert (ops + [op])[..|ops|] == ops;
  }

  /* ---- The order is that of the touches ---- */

  lemma KeysCons(c: Cache)
    requires c != []
    ensures KeysOf(c) == {c[0].key} + KeysOf(c[1..])
    ensures Distinct(c) ==> Distinct(c[1..]) && c[0].key !in KeysOf(c[1..])
  {
    assert forall e :: e in c <==> e == c[0] || e in c[1..];
  }

  lemma KeysSnoc(c: Cache, e: Entry)
    ensures KeysOf(c + [e]) == KeysOf(c) + {e.key}
  {
    assert forall f :: f in c + [e] <==> f in c || f == e;
  }

  lemma {:induction false} BehindIsHeld(c: Cache, k: string)
    ensures Behind(c, k) <= KeysOf(c)
  {
    if c == [] {
    } else {
      KeysCons(c);
      BehindIsHeld(c[1..], k);
    }
  }

  lemma RestKeys(c: Cache, k: string)
    requires Distinct(c)
    ensures KeysOf(Rest(c, k)) == KeysOf(c) - {k}
  {
    RestSpec(c, k);
    forall x | x in KeysOf(c) - {k} ensures x in KeysOf(Rest(c, k)) {
      var e :| e in c && e.key == x;
      assert e in Rest(c, k);
    }
  }

  lemma {:induction false} RestBehind(c: Cache, k: string, x: string)
    requires Distinct(c) && x != k
    ensures Behind(Rest(c, k), x) == Behind(c, x) - {k}
  {
    if c == [] {
    } else {
      KeysCons(c);
      if c[0].key == k {
        BehindIsHeld(c[1..], x);
      } else {
        assert Rest(c, k)[1..] == Rest(c[1..], k);
        RestKeys(c[1..], k);
        RestBehind(c[1..], k, x);
      }
    }
  }

  lemma {:induction false} SnocBehind(c: Cache, e: Entry, x: string)
    ensures Behind(c + [e], x) == if x in KeysOf(c) then Behind(c, x) + {e.key} else {}
  {
    if c == [] {
      assert c + [e] == [e] && [e][1..] == [];
    } else {
      KeysCons(c);
      assert (c + [e])[1..] == c[1..] + [e];
      KeysSnoc(c[1..], e);
      SnocBehind(c[1..], e, x);
    }
  }

  lemma {:induction false} DropBehind(c: Cache, n: nat, x: string)
    requires Distinct(c) && n <= |c| && x in KeysOf(c[n..])
    ensures Behind(c[n..], x) == Behind(c, x) && x in KeysOf(c)
    decreases n
  {
    if n == 0 {
      assert c[0..] == c;
    } else {
      KeysCons(c);
      assert c[n..] == c[1..][n-1..];
      DropBehind(c[1..], n - 1, x);
    }
  }

  lemma {:induction false} BehindCounted(c: Cache, x: string)
    requires Distinct(c) && x in KeysOf(c)
    ensures Find(c, x) < |c| && |Behind(c, x)| == |c| - Find(c, x) - 1
  {
    KeysCons(c);
    if c[0].key == x {
      KeysCounted(c[1..]);
    } else {
      BehindCounted(c[1..], x);
    }
  }

  lemma {:induction false} BehindAt(c: Cache, i: nat)
    requires Distinct(c) && i < |c|
    ensures c[i].key in KeysOf(c) && Behind(c, c[i].key) == KeysOf(c[i+1..])
  {
    KeysCons(c);
    if i == 0 {
    } else {
      BehindAt(c[1..], i - 1);
      assert c[1..][i..] == c[i+1..];
    }
  }

  /** Moving or adding the touched key at the end. */
  lemma PromoteKeepsFollowers(c: Cache, ops: seq<Op>, op: Op, e: Entry, ttl: int, size: nat)
    requires Distinct(c) && c == Run(ops, ttl, size) && FollowersHeld(c, ops, ttl, size)
    requires Touches(c, op) && e.key == op.key
    ensures FollowersHeld(Rest(c, op.key) + [e], ops + [op], ttl, size)
  {
    var r := Rest(c, op.key);
    RestKeys(c, op.key);
    KeysSnoc(r, e);
    forall k | k in KeysOf(r + [e]) ensures Behind(r + [e], k) == HeldSince(ops + [op], k, ttl, size) {
      TraceSnoc(ops, op, k, ttl, size);
      SnocBehind(r, e, k);
      if k != op.key {
        RestBehind(c, op.key, k);
      }
    }
  }

  lemma DropKeepsFollowers(c: Cache, ops: seq<Op>, op: Op, ttl: int, size: nat)
    requires Distinct(c) && c == Run(ops, ttl, size) && FollowersHeld(c, ops, ttl, size) && !Touches(c, op)
    ensures FollowersHeld(Rest(c, op.key), ops + [op], ttl, size)
  {
    var r := Rest(c, op.key);
    RestKeys(c, op.key);
    forall k | k in KeysOf(r) ensures Behind(r, k) == HeldSince(ops + [op], k, ttl, size) {
      TraceSnoc(ops, op, k, ttl, size);
      RestBehind(c, op.key, k);
    }
  }

  lemma ShrinkKeepsFollowers(d: Cache, ops: seq<Op>, ttl: int, size: nat)
    requires Distinct(d) && FollowersHeld(d, ops, ttl, size)
    ensures FollowersHeld(Shrink(d, size), ops, ttl, size)
  {
    var r := Shrink(d, size);
    var cut := |d| - |r|;
    assert r == d[cut..];
    forall k | k in KeysOf(r) ensures Behind(r, k) == HeldSince(ops, k, ttl, size) {
      DropBehind(d, cut, k);
    }
  }

  lemma SetKeepsFollowers(c: Cache, ops: seq<Op>, op: Op, ttl: int, size: nat)
    requires Distinct(c) && |c| <= size && c == Run(ops, ttl, size) && FollowersHeld(c, ops, ttl, size) && op.Set?
    ensures FollowersHeld(Apply(c, op, ttl, size), ops + [op], ttl, size)
  {
    var e := Entry(op.key, op.data, op.now + ttl);
    var d := Rest(c, op.key) + [e];
    PromotedShape(c, e, size);
    PromoteKeepsFollowers(c, ops, op, e, ttl, size);
    ShrinkKeepsFollowers(d, ops + [op], ttl, size);
    assert Apply(c, op, ttl, size) == Shrink(d, size);
  }

  lemma ApplyKeepsFollowers(c: Cache, ops: seq<Op>, op: Op, ttl: int, size: nat)
    requires Distinct(c) && |c| <= size && c == Run(ops, ttl, size) && FollowersHeld(c, ops, ttl, size)
    ensures FollowersHeld(Apply(c, op, ttl, size), ops + [op], ttl, size)
  {
    if op.Set? {
      SetKeepsFollowers(c, ops, op, ttl, size);
    } else if Touches(c, op) {
      PromoteKeepsFollowers(c, ops, op, c[Find(c, op.key)], ttl, size);
      assert Apply(c, op, ttl, size) == Rest(c, op.key) + [c[Find(c, op.key)]];
    } else {
      DropKeepsFollowers(c, ops, op, ttl, size);
      RestAt(c, op.key);
    }
  }

  /* ---- Whose data an entry holds ---- */

  lemma ShrinkElements(c: Cache, size: nat, e: Entry)
    requires e in Shrink(c, size)
    ensures e in c
  {
  }

  lemma SetOrigin(c: Cache, k: string, data: string, now: int, ttl: int, size: nat, e: Entry)
    requires Distinct(c) && e in SetCached(c, k, data, now, ttl, size)
    ensures e == Entry(k, data, now + ttl) || (e in c && e.key != k)
  {
    RestSpec(c, k);
    ShrinkElements(Rest(c, k) + [Entry(k, data, now + ttl)], size, e);
  }

  lemma GetOrigin(c: Cache, k: string, now: int, e: Entry)
    requires Distinct(c) && e in GetCached(c, k, now).0
    ensures e in c
  {
    RestSpec(c, k);
  }

  /** Entries come from the cache, or are the one just set. */
  lemma EntryOrigin(c: Cache, op: Op, ttl: int, size: nat, e: Entry)
    requires Distinct(c) && e in Apply(c, op, ttl, size)
    ensures (e in c && !(op.Set? && op.key == e.key)) || (op.Set? && e == Entry(op.key, op.data, op.now + ttl))
  {
    match op
    case Get(k, now) => GetOrigin(c, k, now, e);
    case Set(k, data, now) => SetOrigin(c, k, data, now, ttl, size, e);
  }

  lemma StillFromSet(ops: seq<Op>, op: Op, e: Entry, ttl: int, size: nat)
    requires FromSet(ops, e, ttl) && !(op.Set? && op.key == e.key)
    ensures FromSet(ops + [op], e, ttl)
  {
    TraceSnoc(ops, op, e.key, ttl, size);
  }

  lemma ApplyKeepsLastSet(c: Cache, ops: seq<Op>, op: Op, ttl: int, size: nat)
    requires Distinct(c) && FromLastSet(c, ops, ttl)
    ensures FromLastSet(Apply(c, op, ttl, size), ops + [op], ttl)
  {
    forall e | e in Apply(c, op, ttl, size) ensures FromSet(ops + [op], e, ttl) {
      EntryOrigin(c, op, ttl, size, e);
      if op.Set? && op.key == e.key {
        TraceSnoc(ops, op, e.key, ttl, size);
      } else {
        StillFromSet(ops, op, e, ttl, size);
      }
    }
  }

  /* ---- Exactly when a key is displaced ---- */

  /** A get keeps every key but one that has expired. */
  lemma GetKeys(c: Cache, k: string, now: int)
    requires Distinct(c)
    ensures var i := Find(c, k);
      KeysOf(GetCached(c, k, now).0) == if i < |c| && c[i].expires <= now then KeysOf(c) - {k} else KeysOf(c)
  {
    var i := Find(c, k);
    FindIff(c, k);
    RestKeys(c, k);
    if i < |c| {
      KeysSnoc(Rest(c, k), c[i]);
    }
  }

  /** What a set pushes out is the front entry, if `size` others are behind it. */
  lemma SetKeys(c: Cache, op: Op, ops: seq<Op>, k: string, ttl: int, size: nat)
    requires Distinct(c) && |c| <= size && op.Set? && c == Run(ops, ttl, size) && FollowersHeld(c, ops, ttl, size)
    requires k == op.key || k in KeysOf(c)
    ensures k in KeysOf(Apply(c, op, ttl, size)) <==> |HeldSince(ops + [op], k, ttl, size)| < size
  {
    var e := Entry(op.key, op.data, op.now + ttl);
    var d := Rest(c, op.key) + [e];
    PromotedShape(c, e, size);
    PromoteKeepsFollowers(c, ops, op, e, ttl, size);
    RestKeys(c, op.key);
    KeysSnoc(Rest(c, op.key), e);
    ShrinkKeys(d, ops + [op], k, ttl, size);
    assert Apply(c, op, ttl, size) == Shrink(d, size);
  }

  lemma ShrinkKeys(d: Cache, ops: seq<Op>, k: string, ttl: int, size: nat)
    requires Distinct(d) && FollowersHeld(d, ops, ttl, size) && k in KeysOf(d)
    ensures k in KeysOf(Shrink(d, size)) <==> |HeldSince(ops, k, ttl, size)| < size
  {
    BehindCounted(d, k);
    KeptIff(d, Find(d, k), size);
  }

  lemma KeptIff(d: Cache, i: nat, size: nat)
    requires Distinct(d) && i < |d|
    ensures d[i].key in KeysOf(Shrink(d, size)) <==> |d| - i - 1 < size
  {
    var r := Shrink(d, size);
    if |d| - i - 1 < size {
      assert r[i - (|d| - |r|)] == d[i];
    } else {
      forall e | e in r ensures e.key != d[i].key {
        var x :| 0 <= x < |r| && r[x] == e;
        assert r[x] == d[x + |d| - |r|];
      }
    }
  }

  lemma EarlierUnexpired(ops: seq<Op>, op: Op, k: string, ttl: int, size: nat)
    requires (ops != [] ==> ops[|ops|-1].now <= op.now) && Unexpired(ops + [op], k, ttl)
    ensures (op.Set? && op.key == k) ||
      (ops != [] && Unexpired(ops, k, ttl) && LastSet(ops + [op], k) == LastSet(ops, k))
  {
    TraceSnoc(ops, op, k, ttl, size);
  }

  lemma GetKeepsPresence(c: Cache, ops: seq<Op>, op: Op, k: string, ttl: int, size: nat)
    requires Inv(c, ops, ttl, size) && c == Run(ops, ttl, size) && op.Get?
    requires Unexpired(ops, k, ttl) && op.now < ops[LastSet(ops, k)].now + ttl
    ensures k in KeysOf(Apply(c, op, ttl, size)) <==> !Displaced(ops + [op], k, ttl, size)
  {
    GetKeys(c, op.key, op.now);
    DisplacedSnoc(ops, op, k, ttl, size);
    FindIff(c, k);
    if k == op.key && k in KeysOf(c) {
      assert c[Find(c, k)] in c;
      assert FromSet(ops, c[Find(c, k)], ttl);
    }
  }

  lemma SetKeepsPresence(c: Cache, ops: seq<Op>, op: Op, k: string, ttl: int, size: nat)
    requires Inv(c, ops, ttl, size) && c == Run(ops, ttl, size) && op.Set?
    requires k == op.key || Unexpired(ops, k, ttl)
    ensures k in KeysOf(Apply(c, op, ttl, size)) <==> !Displaced(ops + [op], k, ttl, size)
  {
    DisplacedSnoc(ops, op, k, ttl, size);
    if k == op.key || k in KeysOf(c) {
      SetKeys(c, op, ops, k, ttl, size);
    } else {
      forall e | e in Apply(c, op, ttl, size) ensures e.key != k {
        EntryOrigin(c, op, ttl, size, e);
      }
    }
  }

  lemma ApplyKeepsPresence(c: Cache, ops: seq<Op>, op: Op, ttl: int, size: nat)
    requires Inv(c, ops, ttl, size) && c == Run(ops, ttl, size) && (ops != [] ==> ops[|ops|-1].now <= op.now)
    ensures PresentExactly(Apply(c, op, ttl, size), ops + [op], ttl, size)
  {
    forall k | Unexpired(ops + [op], k, ttl)
      ensures k in KeysOf(Apply(c, op, ttl, size)) <==> !Displaced(ops + [op], k, ttl, size)
    {
      EarlierUnexpired(ops, op, k, ttl, size);
      if op.Set? {
        SetKeepsPresence(c, ops, op, k, ttl, size);
      } else {
        GetKeepsPresence(c, ops, op, k, ttl, size);
      }
    }
  }

  lemma ApplyKeepsInv(c: Cache, ops: seq<Op>, op: Op, ttl: int, size: nat)
    requires Inv(c, ops, ttl, size) && c == Run(ops, ttl, size) && (ops != [] ==> ops[|ops|-1].now <= op.now)
    ensures Inv(Apply(c, op, ttl, size), ops + [op], ttl, size)
  {
    ApplyKeepsShape(c, op, ttl, size);
    ApplyKeepsFollowers(c, ops, op, ttl, size);
    ApplyKeepsLastSet(c, ops, op, ttl, size);
    ApplyKeepsPresence(c, ops, op, ttl, size);
  }

  lemma MonotonePrefix(ops: seq<Op>)
    requires Monotone(ops) && ops != []
    ensures var init := ops[..|ops|-1];
      Monotone(init) && (init != [] ==> init[|init|-1].now <= ops[|ops|-1].now)
  {
    var init := ops[..|ops|-1];
    assert forall i :: 0 <= i < |init| ==> init[i] == ops[i];
  }

  lemma {:induction false} RunKeepsInv(ops: seq<Op>, ttl: int, size: nat)
    requires Monotone(ops)
    ensures Inv(Run(ops, ttl, size), ops, ttl, size)
  {
    if ops == [] {
    } else {
      var init, op := ops[..|ops|-1], ops[|ops|-1];
      MonotonePrefix(ops);
      RunKeepsInv(init, ttl, size);
      ApplyKeepsInv(Run(init, ttl, size), init, op, ttl, size);
      assert ops == init + [op];
    }
  }

  lemma SubsetSize<T>(a: set<T>, b: set<T>)
    requires a <= b
    ensures |a| <= |b|
  {
    assert b == a + (b - a);
  }

  /** What is held was touched. */
  lemma {:induction false} HeldWasTouched(ops: seq<Op>, k: string, ttl: int, size: nat)
    ensures HeldSince(ops, k, ttl, size) <= TouchedSince(ops, k, ttl, size)
  {
    if ops == [] {
    } else {
      HeldWasTouched(ops[..|ops|-1], k, ttl, size);
    }
  }

  /** A key is displaced only after `size` others were touched. */
  lemma {:induction false} DisplacedByMany(ops: seq<Op>, k: string, ttl: int, size: nat)
    requires Displaced(ops, k, ttl, size)
    ensures |TouchedSince(ops, k, ttl, size)| >= size
  {
    var init, op := ops[..|ops|-1], ops[|ops|-1];
    HeldWasTouched(ops, k, ttl, size);
    SubsetSize(HeldSince(ops, k, ttl, size), TouchedSince(ops, k, ttl, size));
    if !(op.Set? && |HeldSince(ops, k, ttl, size)| >= size) {
      DisplacedByMany(init, k, ttl, size);
      SubsetSize(TouchedSince(init, k, ttl, size), TouchedSince(ops, k, ttl, size));
    }
  }

  /* ---- The trace theorems ---- */

  /** Exactly when an unexpired key is served, after any run with a clock that does not go back: it returns
      the data of its last set, unless at some set since its last touch `size` other keys touched after it
      were still held. */
  lemma UnexpiredServedIff(ops: seq<Op>, k: string, now: int, ttl: int, size: nat)
    requires Monotone(ops) && LastSet(ops, k) < |ops|
    requires ops[|ops|-1].now <= now < ops[LastSet(ops, k)].now + ttl
    ensures GetCached(Run(ops, ttl, size), k, now).1 ==
      if Displaced(ops, k, ttl, size) then Miss else Hit(ops[LastSet(ops, k)].data)
  {
    RunKeepsInv(ops, ttl, size);
    var c := Run(ops, ttl, size);
    FindIff(c, k);
    if Find(c, k) < |c| {
      assert c[Find(c, k)] in c;
    }
  }

  /** In particular with fewer than `size` other keys set or hit since it was touched last. */
  lemma FreshKeyIsServed(ops: seq<Op>, k: string, now: int, ttl: int, size: nat, c: Cache)
    requires c == Run(ops, ttl, size) && Monotone(ops)
    requires LastSet(ops, k) < |ops| && ops[|ops|-1].now <= now < ops[LastSet(ops, k)].now + ttl
    requires |TouchedSince(ops, k, ttl, size)| < size
    ensures GetCached(c, k, now).1 == Hit(ops[LastSet(ops, k)].data)
  {
    UnexpiredServedIff(ops, k, now, ttl, size);
    if Displaced(ops, k, ttl, size) {
      DisplacedByMany(ops, k, ttl, size);
    }
  }

  /** Whatever the cache returns is the data of the last set of that key, and has not expired. */
  lemma NothingStaleIsServed(ops: seq<Op>, k: string, now: int, ttl: int, size: nat)
    requires Monotone(ops)
    ensures var r := GetCached(Run(ops, ttl, size), k, now).1;
      var i := LastSet(ops, k);
      r.Hit? ==> i < |ops| && r.data == ops[i].data && now < ops[i].now + ttl
  {
    RunKeepsInv(ops, ttl, size);
    var c := Run(ops, ttl, size);
    assert Find(c, k) < |c| ==> c[Find(c, k)] in c;
  }

  /** A lookup leaves nothing of its key that has expired. */
  lemma LookupDropsExpired(ops: seq<Op>, k: string, now: int, ttl: int, size: nat, e: Entry)
    requires e in Run(ops + [Get(k, now)], ttl, size) && e.key == k
    ensures now < e.expires
  {
    var c := Run(ops, ttl, size);
    RunKeepsShape(ops, ttl, size);
    TraceSnoc(ops, Get(k, now), k, ttl, size);
    RestSpec(c, k);
    FindIff(c, k);
  }

  /** The order of the entries is that of their last touch: behind every entry are exactly the keys touched
      since it was that are still held. */
  lemma OrderedByLastTouch(ops: seq<Op>, i: nat, ttl: int, size: nat)
    requires Monotone(ops) && i < |Run(ops, ttl, size)|
    ensures var c := Run(ops, ttl, size);
      && KeysOf(c[i+1..]) == HeldSince(ops, c[i].key, ttl, size)
      && KeysOf(c[i+1..]) <= TouchedSince(ops, c[i].key, ttl, size)
  {
    RunKeepsInv(ops, ttl, size);
    BehindAt(Run(ops, ttl, size), i);
    HeldWasTouched(ops, Run(ops, ttl, size)[i].key, ttl, size);
  }

  /* ---- The enricher ---- */

  lemma ShrinkOne(c: Cache, size: nat)
    requires |c| > size
    ensures Shrink(c, size) == Shrink(c[1..], size)
  {
  }

  class Enricher {
    var cache: Cache
    const ttl: int
    const size: nat

    constructor (ttl: int, size: nat)
      ensures cache == [] && this.ttl == ttl && this.size == size
    {
      cache := [];
      this.ttl, this.size := ttl, size;
    }

    method Lookup(k: string, now: int) returns (r: Lookup)
      modifies this
      ensures cache == GetCached(old(cache), k, now).0 && r == GetCached(old(cache), k, now).1
    {
      var i := Find(cache, k);
      if i < |cache| {
        RestAt(cache, k);
        var e := cache[i];
        cache := cache[..i] + cache[i+1..];
        if now < e.expires {
          cache := cache + [e];
          return Hit(e.data);
        }
      }
      r := Miss;
    }

    method Store(k: string, data: string, now: int)
      modifies this
      ensures cache == SetCached(old(cache), k, data, now, ttl, size)
    {
      var i := Find(cache, k);
      RestAt(cache, k);
      if i < |cache| {
        cache := cache[..i] + cache[i+1..];
      }
      cache := cache + [Entry(k, data, now + ttl)];
      while |cache| > size
        invariant Shrink(cache, size) == SetCached(old(cache), k, data, now, ttl, size)
        decreases |cache|
      {
        ShrinkOne(cache, size);
        cache := cache[1..];
      }
    }

    /** A whole trace from the empty cache ends in the state the theorems speak of. */
    method Replay(ops: seq<Op>)
      requires cache == []
      modifies this
      ensures cache == Run(ops, ttl, size)
    {
      var k := 0;
      while k < |ops|
        invariant 0 <= k <= |ops| && cache == Run(ops[..k], ttl, size)
      {
        assert ops[..k+1][..k] == ops[..k];
        match ops[k] {
          case Get(key, now) => var _ := Lookup(key, now);
          case Set(key, data, now) => Store(key, data, now);
        }
        k := k + 1;
      }
      assert ops[..k] == ops;
    }
  }
}
