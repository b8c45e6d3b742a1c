/** The rotating dead-letter file (api/kafka_sink.py): the current file is number 0, `.i` is number
    i. A write first rotates when the current file is too large, then appends one record. Renames can
    fail, and the process can die, at any point. */
module DlqRotation {

  type File = seq<string>
  type Files = map<nat, File>

  /** One call of the writer. `renames` rotation steps succeed before one raises; `dies` says that the
      process dies before the append. */
  datatype Call = Call(record: string, renames: nat, dies: bool)

  function Size(f: File): nat {
    if f == [] then 0 else Size(f[..|f|-1]) + |f[|f|-1]|
  }

  /** The oldest generation that is ever written, whatever the configured count is. */
  function Oldest(count: int): nat {
    if count < 1 then 1 else count
  }

  function Rename(fs: Files, a: nat, b: nat): Files
    requires a in fs
  {
    (fs - {a})[b := fs[a]]
  }

  datatype Shifted = Shifted(files: Files, left: nat, ok: bool)

  /** The descending rename loop from generation `i` down to 1, with `left` renames before a failure. */
  function Shift(fs: Files, i: nat, left: nat): Shifted
    decreases i
  {
    if i == 0 then Shifted(fs, left, true)
    else if i !in fs then Shift(fs, i - 1, left)
    else if left == 0 then Shifted(fs, 0, false)
    else Shift(Rename(fs, i, i + 1), i - 1, left - 1)
  }

  function Rotate(fs: Files, count: int, limit: nat, renames: nat): Files {
    if 0 !in fs || Size(fs[0]) <= limit then fs
    else
      var s := Shift(fs, Oldest(count) - 1, renames);
      if !s.ok || s.left == 0 || 0 !in s.files then s.files
      else
        var moved := Rename(s.files, 0, 1);
        if s.left == 1 then moved else moved[0 := []]
  }

  function Append(fs: Files, record: string): Files {
    fs[0 := (if 0 in fs then fs[0] else []) + [record]]
  }

  function Handle(fs: Files, count: int, limit: nat, c: Call): Files {
    var rotated := Rotate(fs, count, limit, c.renames);
    if c.dies then rotated else Append(rotated, c.record)
  }

  function Run(count: int, limit: nat, cs: seq<Call>): Files {
    if cs == [] then map[] else Handle(Run(count, limit, cs[..|cs|-1]), count, limit, cs[|cs|-1])
  }

  function Appended(cs: seq<Call>): File {
    if cs == [] then []
    else Appended(cs[..|cs|-1]) + if cs[|cs|-1].dies then [] else [cs[|cs|-1].record]
  }

  function Content(fs: Files, i: nat): File {
    if i in fs then fs[i] else []
  }

  /** Generation `n` down to the current file, oldest record first. */
  function Concat(fs: Files, n: nat): File {
    Content(fs, n) + if n == 0 then [] else Concat(fs, n - 1)
  }

  ghost predicate IsSuffix(a: File, b: File) {
    |a| <= |b| && a == b[|b|-|a|..]
  }

  /* ---- Renames lose nothing but the oldest generation ---- */

  lemma {:induction false} ConcatDependsBelow(fs: Files, gs: Files, n: nat)
    requires forall i :: 0 <= i <= n ==> Content(fs, i) == Content(gs, i)
    ensures Concat(fs, n) == Concat(gs, n)
  {
    if n == 0 {
    } else {
      ConcatDependsBelow(fs, gs, n - 1);
    }
  }

  lemma RenameContent(fs: Files, i: nat, k: nat)
    requires i in fs && i + 1 !in fs
    ensures Content(Rename(fs, i, i + 1), k) == if k == i then [] else if k == i + 1 then fs[i] else Content(fs, k)
  {
  }

  lemma {:induction false} RenameBelow(fs: Files, i: nat, n: nat)
    requires i in fs && i + 1 !in fs && n < i
    ensures Concat(Rename(fs, i, i + 1), n) == Concat(fs, n)
  {
    RenameContent(fs, i, n);
    if n == 0 {
    } else {
      RenameBelow(fs, i, n - 1);
    }
  }

  lemma RenameAt(fs: Files, i: nat)
    requires i in fs && i + 1 !in fs
    ensures Concat(Rename(fs, i, i + 1), i + 1) == Concat(fs, i + 1)
  {
    var gs := Rename(fs, i, i + 1);
    RenameContent(fs, i, i);
    RenameContent(fs, i, i + 1);
    if i > 0 {
      RenameBelow(fs, i, i - 1);
      assert Concat(gs, i) == Concat(fs, i - 1);
    } else {
      assert Concat(gs, i) == [];
    }
    assert Concat(gs, i + 1) == fs[i] + Concat(gs, i);
    assert Concat(fs, i + 1) == Concat(fs, i);
  }

  /** Moving generation `i` into the free slot above it keeps the records and their order. */
  lemma {:induction false} RenameKeepsOrder(fs: Files, i: nat, n: nat)
    requires i in fs && i + 1 !in fs && i + 1 <= n
    ensures Concat(Rename(fs, i, i + 1), n) == Concat(fs, n)
    decreases n
  {
    if n == i + 1 {
      RenameAt(fs, i);
    } else {
      RenameContent(fs, i, n);
      RenameKeepsOrder(fs, i, n - 1);
    }
  }

  /** Moving generation `i` over the oldest one drops exactly that one. */
  lemma RenameOverOldest(fs: Files, i: nat)
    requires i in fs && i + 1 in fs
    ensures Concat(fs, i + 1) == fs[i + 1] + Concat(Rename(fs, i, i + 1), i + 1)
  {
    var gs := fs - {i + 1};
    assert Rename(gs, i, i + 1) == Rename(fs, i, i + 1);
    RenameKeepsOrder(gs, i, i + 1);
    ConcatDependsBelow(fs, gs, i);
    assert Concat(gs, i + 1) == Concat(gs, i);
  }

  lemma SuffixTrans(a: File, b: File, c: File)
    requires IsSuffix(a, b) && IsSuffix(b, c)
    ensures IsSuffix(a, c)
  {
    assert c[|c|-|a|..] == c[|c|-|b|..][|b|-|a|..];
  }

  ghost predicate Bounded(fs: Files, top: nat) {
    forall i :: i in fs ==> i <= top
  }

  lemma RenameSuffix(fs: Files, i: nat, top: nat)
    requires i in fs && Bounded(fs, top) && (i + 1 == top || (i + 1 < top && i + 1 !in fs))
    ensures IsSuffix(Concat(Rename(fs, i, i + 1), top), Concat(fs, top)) && Bounded(Rename(fs, i, i + 1), top)
  {
    if i + 1 in fs {
      RenameOverOldest(fs, i);
    } else {
      RenameKeepsOrder(fs, i, top);
    }
  }

  lemma {:induction false} ShiftSuffix(fs: Files, i: nat, left: nat, top: nat)
    requires Bounded(fs, top) && (i + 1 == top || (i + 1 < top && i + 1 !in fs))
    ensures var gs := Shift(fs, i, left).files; IsSuffix(Concat(gs, top), Concat(fs, top)) && Bounded(gs, top)
    decreases i
  {
    if i == 0 {
    } else {
      if i !in fs {
        ShiftSuffix(fs, i - 1, left, top);
      } else if left > 0 {
        RenameSuffix(fs, i, top);
        ShiftSuffixVia(fs, Rename(fs, i, i + 1), i, left - 1, top);
      }
    }
  }

  lemma {:induction false} ShiftSuffixVia(fs: Files, gs: Files, i: nat, left: nat, top: nat)
    requires i > 0 && Bounded(gs, top) && i < top && i !in gs && IsSuffix(Concat(gs, top), Concat(fs, top))
    ensures var hs := Shift(gs, i - 1, left).files; IsSuffix(Concat(hs, top), Concat(fs, top)) && Bounded(hs, top)
    decreases i, 0
  {
    ShiftSuffix(gs, i - 1, left, top);
    SuffixTrans(Concat(Shift(gs, i - 1, left).files, top), Concat(gs, top), Concat(fs, top));
  }

  /** The loop leaves the current file alone and frees `.1`. */
  lemma {:induction false} ShiftFreesFirst(fs: Files, i: nat, left: nat)
    ensures var s := Shift(fs, i, left);
      && Content(s.files, 0) == Content(fs, 0) && (0 in s.files <==> 0 in fs)
      && (s.ok && i > 0 ==> 1 !in s.files)
    decreases i
  {
    if i == 0 {
    } else {
      if i !in fs {
        ShiftFreesFirst(fs, i - 1, left);
      } else if left > 0 {
        ShiftFreesFirst(Rename(fs, i, i + 1), i - 1, left - 1);
      }
    }
  }

  /** The step after the loop: the current file becomes `.1` and a new one is created. */
  lemma ReplaceSuffix(fs: Files, top: nat)
    requires 0 in fs && top >= 1 && Bounded(fs, top) && (top > 1 ==> 1 !in fs)
    ensures IsSuffix(Concat(Rename(fs, 0, 1), top), Concat(fs, top)) && Bounded(Rename(fs, 0, 1), top)
    ensures Concat(Rename(fs, 0, 1)[0 := []], top) == Concat(Rename(fs, 0, 1), top)
  {
    RenameSuffix(fs, 0, top);
    var moved := Rename(fs, 0, 1);
    forall i | 0 <= i <= top ensures Content(moved[0 := []], i) == Content(moved, i) {}
    ConcatDependsBelow(moved[0 := []], moved, top);
  }

  lemma RotateSuffix(fs: Files, count: int, limit: nat, renames: nat)
    requires Bounded(fs, Oldest(count))
    ensures IsSuffix(Concat(Rotate(fs, count, limit, renames), Oldest(count)), Concat(fs, Oldest(count)))
    ensures Bounded(Rotate(fs, count, limit, renames), Oldest(count))
  {
    var top := Oldest(count);
    ShiftSuffix(fs, top - 1, renames, top);
    ShiftFreesFirst(fs, top - 1, renames);
    var s := Shift(fs, top - 1, renames);
    if 0 in fs && s.ok && s.left > 0 {
      ReplaceSuffix(s.files, top);
      SuffixTrans(Concat(Rename(s.files, 0, 1), top), Concat(s.files, top), Concat(fs, top));
    }
  }

  lemma {:induction false} AppendExtends(fs: Files, record: string, n: nat)
    ensures Concat(Append(fs, record), n) == Concat(fs, n) + [record]
  {
    if n == 0 {
    } else {
      AppendExtends(fs, record, n - 1);
      assert Content(Append(fs, record), n) == Content(fs, n);
    }
  }

  /** Whatever renames fail and wherever the process dies, the files read from the oldest generation
      to the current one are a suffix of everything ever appended: records are lost only from the
      oldest end, and never reordered. */
  lemma {:induction false} RotationKeepsSuffix(count: int, limit: nat, cs: seq<Call>)
    ensures IsSuffix(Concat(Run(count, limit, cs), Oldest(count)), Appended(cs))
    ensures Bounded(Run(count, limit, cs), Oldest(count))
  {
    var top := Oldest(count);
    if cs == [] {
      ConcatDependsBelow(map[], map[], top);
      EmptyConcat(top);
    } else {
      var init, c := cs[..|cs|-1], cs[|cs|-1];
      RotationKeepsSuffix(count, limit, init);
      HandleSuffix(Run(count, limit, init), Appended(init), count, limit, c);
    }
  }

  lemma HandleSuffix(fs: Files, all: File, count: int, limit: nat, c: Call)
    requires Bounded(fs, Oldest(count)) && IsSuffix(Concat(fs, Oldest(count)), all)
    ensures IsSuffix(Concat(Handle(fs, count, limit, c), Oldest(count)), all + if c.dies then [] else [c.record])
    ensures Bounded(Handle(fs, count, limit, c), Oldest(count))
  {
    var top := Oldest(count);
    var gs := Rotate(fs, count, limit, c.renames);
    RotateSuffix(fs, count, limit, c.renames);
    SuffixTrans(Concat(gs, top), Concat(fs, top), all);
    if c.dies {
      assert all + [] == all;
    } else {
      AppendExtends(gs, c.record, top);
      SuffixSnoc(Concat(gs, top), all, c.record);
    }
  }

  lemma SuffixSnoc(a: File, b: File, r: string)
    requires IsSuffix(a, b)
    ensures IsSuffix(a + [r], b + [r])
  {
  }

  lemma {:induction false} EmptyConcat(n: nat)
    ensures Concat(map[], n) == []
  {
    if n == 0 {
    } else {
      EmptyConcat(n - 1);
    }
  }

  /* ---- Without failures: file sizes and capacity ---- */

  ghost predicate Faultless(count: int, cs: seq<Call>) {
    forall c :: c in cs ==> c.renames > Oldest(count)
  }

  /** Before its last record the file was within the limit. */
  ghost predicate WithinLimit(f: File, limit: nat) {
    f != [] ==> Size(f[..|f|-1]) <= limit
  }

  /** Full generations, contiguous from `.1` up. */
  ghost predicate Stacked(fs: Files, limit: nat) {
    && (forall i :: i in fs ==> WithinLimit(fs[i], limit))
    && (forall i :: i in fs && i > 0 ==> Size(fs[i]) > limit)
    && (forall i, j :: j in fs && 0 < i <= j ==> i in fs)
  }

  datatype Slot = Absent | Present(file: File)

  function Get(fs: Files, k: nat): Slot {
    if k in fs then Present(fs[k]) else Absent
  }

  /** What a rename loop that meets no failure makes of generation `k`. */
  lemma {:induction false} ShiftMovesAll(fs: Files, i: nat, left: nat, k: nat)
    requires left > i
    ensures Shift(fs, i, left).ok && Shift(fs, i, left).left >= left - i
    ensures Get(Shift(fs, i, left).files, k) ==
      if k > i + 1 || k == 0 || (k == i + 1 && (i == 0 || i !in fs)) then Get(fs, k)
      else if k >= 2 then Get(fs, k - 1)
      else Absent
    decreases i
  {
    if i == 0 {
    } else {
      if i !in fs {
        ShiftMovesAll(fs, i - 1, left, k);
      } else {
        ShiftMovesAll(Rename(fs, i, i + 1), i - 1, left - 1, k);
      }
    }
  }

  function MovedUp(fs: Files, top: nat, k: nat): Slot {
    if k == 0 then Present([]) else if k <= top then Get(fs, k - 1) else Absent
  }

  /** A rotation without failures moves every generation up by one, dropping at most the oldest, and
      starts an empty current file. */
  lemma RotateMovesUp(fs: Files, count: int, limit: nat, renames: nat, k: nat)
    requires renames > Oldest(count) && 0 in fs && Size(fs[0]) > limit && Stacked(fs, limit) &&
      Bounded(fs, Oldest(count))
    ensures Get(Rotate(fs, count, limit, renames), k) == MovedUp(fs, Oldest(count), k)
  {
    var top := Oldest(count);
    ShiftMovesAll(fs, top - 1, renames, k);
    ShiftMovesAll(fs, top - 1, renames, 0);
    var s := Shift(fs, top - 1, renames);
    assert 0 in s.files && s.files[0] == fs[0] by { assert Get(s.files, 0) == Get(fs, 0); }
  }

  lemma RotateKeepsStacked(fs: Files, count: int, limit: nat, renames: nat)
    requires renames > Oldest(count) && Stacked(fs, limit) && Bounded(fs, Oldest(count))
    ensures Stacked(Rotate(fs, count, limit, renames), limit)
    ensures 0 in Rotate(fs, count, limit, renames) ==> Size(Rotate(fs, count, limit, renames)[0]) <= limit
  {
    if 0 in fs && Size(fs[0]) > limit {
      var gs := Rotate(fs, count, limit, renames);
      forall k: nat ensures Get(gs, k) == MovedUp(fs, Oldest(count), k) {
        RotateMovesUp(fs, count, limit, renames, k);
      }
      assert gs[0] == [] by { assert Get(gs, 0) == Present([]); }
      forall i | i in gs ensures WithinLimit(gs[i], limit) && (i > 0 ==> Size(gs[i]) > limit) {
        assert Get(gs, i) == Present(gs[i]);
      }
      forall i, j | j in gs && 0 < i <= j ensures i in gs {
        assert Get(gs, j) == Get(fs, j - 1) && Get(gs, i) == Get(fs, i - 1);
      }
    }
  }

  /** Without failures every file is, up to its last record, within the limit, and every rotated one
      is above it. */
  lemma {:induction false} FaultlessFilesStayWithinLimit(count: int, limit: nat, cs: seq<Call>)
    requires Faultless(count, cs)
    ensures Stacked(Run(count, limit, cs), limit)
  {
    if cs == [] {
    } else {
      var init, c := cs[..|cs|-1], cs[|cs|-1];
      assert c in cs && forall x :: x in init ==> x in cs;
      FaultlessFilesStayWithinLimit(count, limit, init);
      RotationKeepsSuffix(count, limit, init);
      var gs := Rotate(Run(count, limit, init), count, limit, c.renames);
      RotateKeepsStacked(Run(count, limit, init), count, limit, c.renames);
      var f := Append(gs, c.record)[0];
      assert f[..|f|-1] == Content(gs, 0);
    }
  }

  lemma {:induction false} SizeConcat(a: File, b: File)
    ensures Size(a + b) == Size(a) + Size(b)
  {
    if b == [] {
      assert a + b == a;
    } else {
      assert (a + b)[..|a + b|-1] == a + b[..|b|-1];
      SizeConcat(a, b[..|b|-1]);
    }
  }

  lemma {:induction false} FullStackSize(fs: Files, limit: nat, n: nat)
    requires Stacked(fs, limit) && (n > 0 ==> n in fs)
    ensures Size(Concat(fs, n)) >= n * limit
  {
    if n == 0 {
    } else {
      FullStackSize(fs, limit, n - 1);
      SizeConcat(fs[n], Concat(fs, n - 1));
      TimesStep(n, limit);
    }
  }

  lemma TimesStep(n: nat, limit: nat)
    requires n > 0
    ensures n * limit == (n - 1) * limit + limit
  {
  }

  /** Records lost so far only if the oldest generation is in use. */
  lemma {:induction false} LossNeedsFullStack(count: int, limit: nat, cs: seq<Call>)
    requires Faultless(count, cs)
    ensures var fs := Run(count, limit, cs);
      Oldest(count) in fs || Concat(fs, Oldest(count)) == Appended(cs)
  {
    var top := Oldest(count);
    if cs == [] {
      EmptyConcat(top);
    } else {
      var init, c := cs[..|cs|-1], cs[|cs|-1];
      assert c in cs && forall x :: x in init ==> x in cs;
      LossNeedsFullStack(count, limit, init);
      FaultlessFilesStayWithinLimit(count, limit, init);
      RotationKeepsSuffix(count, limit, init);
      var fs := Run(count, limit, init);
      var gs := Rotate(fs, count, limit, c.renames);
      RotateLoss(fs, count, limit, c.renames);
      AppendExtends(gs, c.record, top);
    }
  }

  lemma RotateLoss(fs: Files, count: int, limit: nat, renames: nat)
    requires renames > Oldest(count) && Stacked(fs, limit) && Bounded(fs, Oldest(count))
    ensures var gs := Rotate(fs, count, limit, renames);
      if Oldest(count) in fs then Oldest(count) in gs
      else Oldest(count) in gs || Concat(gs, Oldest(count)) == Concat(fs, Oldest(count))
  {
    var gs := Rotate(fs, count, limit, renames);
    if gs != fs {
      forall k: nat ensures Get(gs, k) == MovedUp(fs, Oldest(count), k) {
        RotateMovesUp(fs, count, limit, renames, k);
      }
      MovedUpLoss(fs, gs, Oldest(count), limit);
    }
  }

  lemma MovedUpLoss(fs: Files, gs: Files, top: nat, limit: nat)
    requires top > 0 && Stacked(fs, limit) && 0 in fs && forall k: nat :: Get(gs, k) == MovedUp(fs, top, k)
    ensures if top in fs then top in gs else top in gs || Concat(gs, top) == Concat(fs, top)
  {
    assert Get(gs, top) == MovedUp(fs, top, top) == Get(fs, top - 1);
    if top !in fs && top !in gs {
      forall k | 0 < k <= top ensures Content(gs, k) == Content(fs, k - 1) {
        assert Get(gs, k) == MovedUp(fs, top, k);
      }
      assert gs[0] == [] by { assert Get(gs, 0) == MovedUp(fs, top, 0); }
      ConcatShifted(fs, gs, top);
    }
  }

  lemma {:induction false} ConcatShifted(fs: Files, gs: Files, n: nat)
    requires Content(gs, 0) == [] && forall k :: 0 < k <= n ==> Content(gs, k) == Content(fs, k - 1)
    ensures n > 0 ==> Concat(gs, n) == Concat(fs, n - 1)
  {
    if n <= 1 {
    } else {
      ConcatShifted(fs, gs, n - 1);
    }
  }

  /** Capacity: without failures nothing is lost before `count` generations of more than the limit, or one
      if `count` is not positive, are retained, and no further generation is ever written. */
  lemma NothingLostBelowCapacity(count: int, limit: nat, cs: seq<Call>)
    requires Faultless(count, cs)
    ensures var generations: nat := if count < 1 then 1 else count;
      var fs := Run(count, limit, cs);
      var kept := Concat(fs, generations);
      Bounded(fs, generations) && (kept == Appended(cs) || Size(kept) >= generations * limit)
  {
    RotationKeepsSuffix(count, limit, cs);
    LossNeedsFullStack(count, limit, cs);
    FaultlessFilesStayWithinLimit(count, limit, cs);
    if Oldest(count) in Run(count, limit, cs) {
      FullStackSize(Run(count, limit, cs), limit, Oldest(count));
    }
  }

  /* ---- The writer ---- */

  class Writer {
    var files: Files
    const count: int
    const limit: nat

    constructor (count: int, limit: nat)
      ensures files == map[] && this.count == count && this.limit == limit
    {
      files := map[];
      this.count, this.limit := count, limit;
    }

    /** `_rotate_dlq_if_needed`: `renames` steps succeed before one raises. */
    method RotateIfNeeded(renames: nat)
      modifies this
      ensures files == Rotate(old(files), count, limit, renames)
    {
      if 0 in files && Size(files[0]) > limit {
        var left := renames;
        var i := if count < 1 then 0 else count - 1;
        while i > 0
          invariant 0 <= i
          invariant Shift(files, i, left) == Shift(old(files), Oldest(count) - 1, renames)
          invariant 0 in files
        {
          if i in files {
            if left == 0 {
              return;
            }
            files := Rename(files, i, i + 1);
            left := left - 1;
          }
          i := i - 1;
        }
        if left == 0 {
          return;
        }
        files := Rename(files, 0, 1);
        if left == 1 {
          return;
        }
        files := files[0 := []];
      }
    }

    /** `write_to_file_dlq`. */
    method Write(c: Call)
      modifies this
      ensures files == Handle(old(files), count, limit, c)
    {
      RotateIfNeeded(c.renames);
      if !c.dies {
        files := Append(files, c.record);
      }
    }
  }
}
