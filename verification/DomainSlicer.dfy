/** How a domain name becomes model input (inference/models.py): the variants inspected, the share of
    the 32-slice budget each one gets, and the sliding window over each. */
module DomainSlicer {

  const WIDTH: nat := 35
  const STEP: nat := 15
  const MAX_VARIANTS: nat := 8
  const MAX_SLICES: nat := 32

  type Code = nat
  type Slice = seq<Code>

  /* ---- Characters ---- */

  /** Position in `a..z 0..9 - .`, counted from 1; 0 for any other character. */
  function CodeOf(c: char): (r: Code)
    ensures r <= 38
  {
    if 'a' <= c <= 'z' then c as nat - 'a' as nat + 1
    else if '0' <= c <= '9' then c as nat - '0' as nat + 27
    else if c == '-' then 37
    else if c == '.' then 38
    else 0
  }

  function Sanitize(s: string): (r: string)
    ensures |r| == |s| && Clean(r)
    ensures forall i :: 0 <= i < |s| ==> r[i] == if CodeOf(s[i]) > 0 then s[i] else '-'
  {
    seq(|s|, i requires 0 <= i < |s| => if CodeOf(s[i]) > 0 then s[i] else '-')
  }

  predicate Clean(s: string) {
    forall i :: 0 <= i < |s| ==> CodeOf(s[i]) > 0
  }

  function Encode(s: string): (r: seq<Code>)
    ensures |r| == |s| && forall i :: 0 <= i < |s| ==> r[i] == CodeOf(s[i])
  {
    seq(|s|, i requires 0 <= i < |s| => CodeOf(s[i]))
  }

  const ALPHABET := "abcdefghijklmnopqrstuvwxyz0123456789-."

  /** A character has the code `i + 1` if and only if it is the `i`-th of the alphabet, and none if it is
      not in it. */
  lemma CodesAreAlphabetical(c: char, i: nat)
    requires i < |ALPHABET|
    ensures CodeOf(c) == i + 1 <==> ALPHABET[i] == c
    ensures |ALPHABET| == 38 && (CodeOf(c) == 0 <==> c !in ALPHABET)
  {
    forall k | 0 <= k < 38 ensures CodeOf(ALPHABET[k]) == k + 1 {
      LetterCode(k);
    }
    if CodeOf(c) > 0 {
      assert ALPHABET[CodeOf(c) - 1] == c by {
        LetterAt(c);
      }
    }
  }

  lemma LetterCode(k: nat)
    requires k < 38
    ensures CodeOf(ALPHABET[k]) == k + 1
  {
  }

  lemma LetterAt(c: char)
    requires CodeOf(c) > 0
    ensures ALPHABET[CodeOf(c) - 1] == c
  {
  }

  /** Distinct characters of the alphabet have distinct codes: encoding a clean name loses nothing. */
  lemma EncodeInjective(s: string, t: string)
    requires Clean(s) && Clean(t)
    ensures Encode(s) == Encode(t) <==> s == t
  {
    if Encode(s) == Encode(t) {
      forall i | 0 <= i < |s| ensures s[i] == t[i] {
        assert Encode(s)[i] == Encode(t)[i];
      }
    }
  }

  /* ---- Variants ---- */

  function Split(s: string): (r: seq<string>)
    ensures |r| > 0
  {
    if s == "" then [""]
    else
      var rest := Split(s[1..]);
      if s[0] == '.' then [""] + rest else [[s[0]] + rest[0]] + rest[1..]
  }

  function NonEmpty(ls: seq<string>): seq<string> {
    if ls == [] then [] else (if ls[0] == "" then [] else [ls[0]]) + NonEmpty(ls[1..])
  }

  function Labels(s: string): seq<string> {
    NonEmpty(Split(s))
  }

  function Join(ls: seq<string>): string {
    if ls == [] then "" else if |ls| == 1 then ls[0] else ls[0] + "." + Join(ls[1..])
  }

  /** Splitting at dots is undone by joining, and leaves no dot. */
  lemma {:induction false} SplitThenJoin(s: string)
    ensures Join(Split(s)) == s && forall l :: l in Split(s) ==> '.' !in l
  {
    if s == "" {
    } else {
      var rest := Split(s[1..]);
      SplitThenJoin(s[1..]);
      if s[0] == '.' {
        assert ([""] + rest)[1..] == rest;
      } else {
        var all := [[s[0]] + rest[0]] + rest[1..];
        assert all[1..] == rest[1..];
        assert Join(all) == [s[0]] + Join(rest);
      }
    }
  }

  lemma {:induction false} SplitKeepsClean(s: string)
    requires Clean(s)
    ensures forall l :: l in Split(s) ==> Clean(l)
  {
    if s == "" {
    } else {
      var rest := Split(s[1..]);
      SplitKeepsClean(s[1..]);
      assert rest[0] in rest;
      forall l | l in Split(s) ensures Clean(l) {
        assert l in rest || l == "" || l == [s[0]] + rest[0];
        assert CodeOf(s[0]) > 0;
      }
    }
  }

  lemma {:induction false} NonEmptySpec(ls: seq<string>)
    ensures forall l :: l in NonEmpty(ls) <==> l in ls && l != ""
  {
    if ls == [] {
    } else {
      NonEmptySpec(ls[1..]);
    }
  }

  function LastTwo(ls: seq<string>): string
    requires |ls| >= 2
  {
    ls[|ls|-2] + "." + ls[|ls|-1]
  }

  ghost predicate Distinct(vs: seq<string>) {
    forall i, j :: 0 <= i < j < |vs| ==> vs[i] != vs[j]
  }

  /** Which names are inspected for the ASCII form `ascii` and the normalised form `clean`. */
  ghost predicate IsVariant(ascii: string, clean: string, v: string) {
    var ls := Labels(Sanitize(ascii));
    || v == Sanitize(ascii)
    || (ascii != clean && v != "" && v == Sanitize(clean))
    || (|ls| >= 2 && (v == LastTwo(ls) || (|v| >= 4 && v in ls)))
  }

  function LongLabels(ls: seq<string>): seq<string> {
    if ls == [] then []
    else LongLabels(ls[..|ls|-1]) + if |ls[|ls|-1]| >= 4 then [ls[|ls|-1]] else []
  }

  /** The names in the order of their importance: the whole one, the normalised form, the last two labels,
      then the long labels from left to right. */
  function Candidates(ascii: string, clean: string): seq<string> {
    var ls := Labels(Sanitize(ascii));
    [Sanitize(ascii)] + (if ascii != clean && clean != "" then [Sanitize(clean)] else [])
    + if |ls| >= 2 then [LastTwo(ls)] + LongLabels(ls) else []
  }

  function FirstOccurrences(vs: seq<string>): seq<string> {
    if vs == [] then []
    else
      var init, v := FirstOccurrences(vs[..|vs|-1]), vs[|vs|-1];
      if v in init then init else init + [v]
  }

  lemma {:induction false} FirstOccurrencesOf(vs: seq<string>)
    ensures Distinct(FirstOccurrences(vs)) && |FirstOccurrences(vs)| <= |vs|
    ensures forall v :: v in FirstOccurrences(vs) <==> v in vs
  {
    if vs == [] {
    } else {
      var init := vs[..|vs|-1];
      FirstOccurrencesOf(init);
      assert vs == init + [vs[|vs|-1]];
    }
  }

  lemma {:induction false} LongLabelsOf(ls: seq<string>)
    ensures forall v :: v in LongLabels(ls) <==> v in ls && |v| >= 4
  {
    if ls == [] {
    } else {
      var init := ls[..|ls|-1];
      LongLabelsOf(init);
      assert ls == init + [ls[|ls|-1]];
    }
  }

  lemma CandidatesAreVariants(ascii: string, clean: string)
    ensures forall v :: v in Candidates(ascii, clean) <==> IsVariant(ascii, clean, v)
  {
    LongLabelsOf(Labels(Sanitize(ascii)));
  }

  lemma VariantIsCleanAndNonEmpty(ascii: string, clean: string, v: string)
    requires ascii != "" && IsVariant(ascii, clean, v)
    ensures v != "" && Clean(v)
  {
    var s := Sanitize(ascii);
    SplitKeepsClean(s);
    NonEmptySpec(Split(s));
    var ls := Labels(s);
    if |ls| >= 2 {
      assert ls[|ls|-2] in ls && ls[|ls|-1] in ls;
    }
  }

  /** `if v not in vs: vs.append(v)`. */
  method AppendNew(vs: seq<string>, v: string, ghost seen: seq<string>) returns (r: seq<string>)
    requires vs == FirstOccurrences(seen)
    ensures r == FirstOccurrences(seen + [v])
  {
    assert (seen + [v])[..|seen|] == seen;
    r := if v in vs then vs else vs + [v];
  }

  lemma NextLabel(seen: seq<string>, parts: seq<string>, k: nat)
    requires k < |parts|
    ensures seen + LongLabels(parts[..k+1]) ==
      if |parts[k]| >= 4 then seen + LongLabels(parts[..k]) + [parts[k]] else seen + LongLabels(parts[..k])
  {
    assert parts[..k+1][..k] == parts[..k];
  }

  method AppendLabels(vs: seq<string>, parts: seq<string>, ghost seen: seq<string>) returns (r: seq<string>)
    requires vs == FirstOccurrences(seen)
    ensures r == FirstOccurrences(seen + LongLabels(parts))
  {
    r := vs;
    var k := 0;
    ghost var now := seen;
    while k < |parts|
      invariant 0 <= k <= |parts| && r == FirstOccurrences(now)
      invariant now == seen + LongLabels(parts[..k])
    {
      NextLabel(seen, parts, k);
      if |parts[k]| >= 4 {
        r := AppendNew(r, parts[k], now);
      }
      k := k + 1;
      now := seen + LongLabels(parts[..k]);
    }
    assert parts[..k] == parts;
  }

  /** `domains_to_check`: each variant once, in the order of their importance. */
  method SelectVariants(ascii: string, clean: string) returns (vs: seq<string>)
    requires ascii != ""
    ensures vs == FirstOccurrences(Candidates(ascii, clean))
    ensures Distinct(vs) && |vs| >= 1 && vs[0] == Sanitize(ascii)
    ensures forall v :: v in vs <==> IsVariant(ascii, clean, v)
  {
    vs := [Sanitize(ascii)];
    ghost var seen := vs;
    JustOne(Sanitize(ascii));
    if ascii != clean && Sanitize(clean) != "" {
      vs := AppendNew(vs, Sanitize(clean), seen);
      seen := seen + [Sanitize(clean)];
    }
    var parts := Labels(Sanitize(ascii));
    if |parts| >= 2 {
      vs := AppendNew(vs, LastTwo(parts), seen);
      vs := AppendLabels(vs, parts, seen + [LastTwo(parts)]);
    }
    VariantsInOrder(ascii, clean, seen);
  }

  lemma JustOne(v: string)
    ensures FirstOccurrences([v]) == [v]
  {
    assert [v][..0] == [];
  }

  lemma VariantsInOrder(ascii: string, clean: string, seen: seq<string>)
    requires ascii != ""
    requires seen == [Sanitize(ascii)] + if ascii != clean && Sanitize(clean) != "" then [Sanitize(clean)] else []
    ensures var ls, all := Labels(Sanitize(ascii)), Candidates(ascii, clean);
      && all == (if |ls| >= 2 then seen + [LastTwo(ls)] + LongLabels(ls) else seen)
      && Distinct(FirstOccurrences(all)) && FirstOccurrences(all) != [] && FirstOccurrences(all)[0] == Sanitize(ascii)
      && forall v :: v in FirstOccurrences(all) <==> IsVariant(ascii, clean, v)
  {
    CandidatesAreVariants(ascii, clean);
    FirstOccurrencesOf(Candidates(ascii, clean));
    FirstStaysFirst(Candidates(ascii, clean));
  }

  lemma {:induction false} FirstStaysFirst(vs: seq<string>)
    requires vs != []
    ensures FirstOccurrences(vs) != [] && FirstOccurrences(vs)[0] == vs[0]
  {
    if |vs| == 1 {
      assert vs[..0] == [];
    } else {
      FirstStaysFirst(vs[..|vs|-1]);
    }
  }

  /** What comes early in the list is among the first occurrences just as early. */
  lemma {:induction false} EarlyOccurrence(vs: seq<string>, k: nat) returns (i: nat)
    requires k < |vs|
    ensures i <= k && i < |FirstOccurrences(vs)| && FirstOccurrences(vs)[i] == vs[k]
    decreases |vs|
  {
    var init := vs[..|vs|-1];
    FirstOccurrencesOf(init);
    if k < |init| {
      i := EarlyOccurrence(init, k);
    } else if vs[k] in FirstOccurrences(init) {
      i :| 0 <= i < |FirstOccurrences(init)| && FirstOccurrences(init)[i] == vs[k];
    } else {
      i := |FirstOccurrences(init)|;
    }
  }

  /* ---- The window over one variant ---- */

  function Min(a: int, b: int): int { if a <= b then a else b }

  /** Where the slices of a name of length `n > 35` start: every 15 characters while the budget lasts,
      and once more at the end if the last window stops short of it. */
  function Starts(n: nat, budget: nat): seq<nat>
    requires n > WIDTH
  {
    var full := Min((n - WIDTH) / STEP + 1, budget);
    seq(full, k requires 0 <= k < full => STEP * k)
    + if full < budget && (n - WIDTH) % STEP != 0 then [n - WIDTH] else []
  }

  function Padded(e: seq<Code>): Slice
    requires |e| <= WIDTH
  {
    e + seq(WIDTH - |e|, _ => 0)
  }

  /** The first `m` windows. */
  function Windows(e: seq<Code>, m: nat): seq<Slice>
    requires m > 0 ==> STEP * (m - 1) + WIDTH <= |e|
  {
    seq(m, k requires 0 <= k < m => e[STEP * k..STEP * k + WIDTH])
  }

  function SlicesOf(e: seq<Code>, budget: nat): seq<Slice> {
    if |e| <= WIDTH then [Padded(e)]
    else
      var full := Min((|e| - WIDTH) / STEP + 1, budget);
      Windows(e, full) + if full < budget && (|e| - WIDTH) % STEP != 0 then [e[|e| - WIDTH..]] else []
  }

  lemma SlicesAtStarts(e: seq<Code>, budget: nat, k: nat)
    requires |e| > WIDTH && k < |Starts(|e|, budget)|
    ensures |SlicesOf(e, budget)| == |Starts(|e|, budget)|
    ensures Starts(|e|, budget)[k] + WIDTH <= |e|
    ensures SlicesOf(e, budget)[k] == e[Starts(|e|, budget)[k]..Starts(|e|, budget)[k] + WIDTH]
  {
  }

  method SliceVariant(e: seq<Code>, budget: nat) returns (slices: seq<Slice>)
    requires budget >= 1
    ensures slices == SlicesOf(e, budget)
    ensures 1 <= |slices| <= budget
  {
    slices := [];
    if |e| > WIDTH {
      var start := 0;
      while start < |e| - WIDTH + 1
        invariant start == STEP * |slices| && |slices| < budget
        invariant |slices| > 0 ==> STEP * (|slices| - 1) + WIDTH <= |e|
        invariant slices == Windows(e, |slices|)
        decreases |e| - start
      {
        slices := slices + [e[start..start + WIDTH]];
        if |slices| >= budget {
          break;
        }
        start := start + STEP;
      }
      assert slices == Windows(e, Min((|e| - WIDTH) / STEP + 1, budget));
      if |slices| < budget && (|e| - WIDTH) % STEP != 0 {
        slices := slices + [e[|e| - WIDTH..]];
      }
    } else {
      slices := [e + seq(WIDTH - |e|, _ => 0)];
    }
  }

  /** The slices cover exactly the first `min(n, 35 + 15 (b - 1))` characters. */
  lemma CoverageIsExact(n: nat, budget: nat, p: nat)
    requires n > WIDTH && budget >= 1
    ensures (exists k :: 0 <= k < |Starts(n, budget)| && Starts(n, budget)[k] <= p < Starts(n, budget)[k] + WIDTH)
      <==> p < Min(n, WIDTH + STEP * (budget - 1))
  {
    var s := Starts(n, budget);
    var full := Min((n - WIDTH) / STEP + 1, budget);
    if p < Min(n, WIDTH + STEP * (budget - 1)) {
      if p < WIDTH + STEP * (full - 1) {
        var k := Min(p / STEP, full - 1);
        assert s[k] == STEP * k;
      } else {
        assert s[full] == n - WIDTH;
      }
    }
  }

  /** Within the bound, every stretch of at most 21 characters lies inside a single slice. */
  lemma StretchInsideOneSlice(n: nat, budget: nat, i: nat, len: nat) returns (k: nat)
    requires n > 35 && budget >= 1 && len <= 21 && i + len <= n && i + len <= 35 + 15 * (budget - 1)
    ensures k < |Starts(n, budget)| && Starts(n, budget)[k] <= i && i + len <= Starts(n, budget)[k] + 35 <= n
  {
    var s := Starts(n, budget);
    var full := Min((n - WIDTH) / STEP + 1, budget);
    if full < budget && i >= STEP * full {
      k := if full < |s| then full else full - 1;
    } else {
      k := Min(i / STEP, full - 1);
      assert s[k] == STEP * k;
    }
  }

  /** 21 is the most: in any name of at least 50 characters the stretch of 22 from position 14 is cut
      by every slice. */
  lemma LongerStretchIsCut(n: nat, budget: nat, k: nat)
    requires n >= 50 && k < |Starts(n, budget)|
    ensures !(Starts(n, budget)[k] <= 14 && 14 + 22 <= Starts(n, budget)[k] + WIDTH)
  {
  }

  /* ---- All variants ---- */

  function Budget(n: nat): nat {
    if n == 0 then MAX_SLICES else if MAX_SLICES / n > 1 then MAX_SLICES / n else 1
  }

  function Flatten(vs: seq<string>, budget: nat): seq<Slice> {
    if vs == [] then [] else Flatten(vs[..|vs|-1], budget) + SlicesOf(Encode(vs[|vs|-1]), budget)
  }

  /** The first `n` codes are 1 to 38, the rest is zero padding. */
  ghost predicate PaddedFrom(s: Slice, n: nat) {
    n <= |s| && (forall i :: 0 <= i < n ==> 1 <= s[i] <= 38) && (forall i :: n <= i < |s| ==> s[i] == 0)
  }

  ghost predicate WellFormed(s: Slice) {
    |s| == WIDTH && exists n :: 1 <= n && PaddedFrom(s, n)
  }

  lemma CleanCodes(v: string)
    requires Clean(v)
    ensures forall i :: 0 <= i < |v| ==> 1 <= Encode(v)[i] <= 38
  {
    forall i | 0 <= i < |v| ensures 1 <= Encode(v)[i] <= 38 {
      assert CodeOf(v[i]) > 0;
    }
  }

  lemma SlicesOfSpec(v: string, budget: nat)
    requires v != "" && Clean(v) && budget >= 1
    ensures 1 <= |SlicesOf(Encode(v), budget)| <= budget
    ensures forall s :: s in SlicesOf(Encode(v), budget) ==> WellFormed(s)
  {
    var e := Encode(v);
    CleanCodes(v);
    if |e| <= WIDTH {
      assert PaddedFrom(Padded(e), |e|);
    } else {
      forall s | s in SlicesOf(e, budget) ensures WellFormed(s) {
        var k :| 0 <= k < |SlicesOf(e, budget)| && s == SlicesOf(e, budget)[k];
        SlicesAtStarts(e, budget, k);
        assert PaddedFrom(s, WIDTH);
      }
    }
  }

  lemma {:induction false} FlattenSize(vs: seq<string>, budget: nat)
    requires budget >= 1 && forall v :: v in vs ==> v != "" && Clean(v)
    ensures |vs| <= |Flatten(vs, budget)| <= |vs| * budget
  {
    if vs == [] {
    } else {
      var init, v := vs[..|vs|-1], vs[|vs|-1];
      assert v in vs && forall x :: x in init ==> x in vs;
      FlattenSize(init, budget);
      SlicesOfSpec(v, budget);
      TimesSucc(|init|, budget);
    }
  }

  lemma {:induction false} FlattenElements(vs: seq<string>, budget: nat)
    ensures forall s :: s in Flatten(vs, budget) <==> exists v :: v in vs && s in SlicesOf(Encode(v), budget)
  {
    if vs == [] {
    } else {
      var init, v := vs[..|vs|-1], vs[|vs|-1];
      FlattenElements(init, budget);
      assert vs == init + [v];
    }
  }

  lemma TimesSucc(n: nat, b: nat)
    ensures (n + 1) * b == n * b + b
  {
  }

  /** Up to eight shares of the budget fit into 32 slices, and larger ones would not. */
  lemma SharesFit(n: nat)
    requires n <= 8
    ensures n * Budget(n) <= 32 && Budget(n) >= 1
    ensures n > 0 ==> Budget(n) == 32 / n && n * (Budget(n) + 1) > 32
  {
    if n > 0 {
      assert n * (32 / n) <= 32 < n * (32 / n + 1);
    }
  }

  function FirstEight(vs: seq<string>): seq<string> {
    if |vs| > MAX_VARIANTS then vs[..MAX_VARIANTS] else vs
  }

  /** At most 32 well-formed slices, and at least one from every variant. */
  lemma BatchSpec(vs: seq<string>)
    requires |vs| <= MAX_VARIANTS && forall v :: v in vs ==> v != "" && Clean(v)
    ensures var all := Flatten(vs, Budget(|vs|));
      && |all| <= MAX_SLICES && (forall s :: s in all ==> WellFormed(s))
      && forall v :: v in vs ==> exists s :: s in all && s in SlicesOf(Encode(v), Budget(|vs|))
  {
    var b := Budget(|vs|);
    SharesFit(|vs|);
    FlattenSize(vs, b);
    FlattenElements(vs, b);
    forall v | v in vs
      ensures (forall s :: s in SlicesOf(Encode(v), b) ==> WellFormed(s))
      ensures exists s :: s in Flatten(vs, b) && s in SlicesOf(Encode(v), b)
    {
      SlicesOfSpec(v, b);
      var s := SlicesOf(Encode(v), b)[0];
      assert s in SlicesOf(Encode(v), b);
    }
  }

  lemma FlattenSnoc(vs: seq<string>, k: nat, budget: nat)
    requires k < |vs|
    ensures Flatten(vs[..k+1], budget) == Flatten(vs[..k], budget) + SlicesOf(Encode(vs[k]), budget)
  {
    assert vs[..k+1][..k] == vs[..k];
  }

  /** The batch handed to the model: every inspected variant's own slices, with nothing dropped by the
      final cap. */
  method BuildSlices(vs: seq<string>) returns (all: seq<Slice>)
    requires forall v :: v in vs ==> v != "" && Clean(v)
    ensures var inspected := FirstEight(vs); all == Flatten(inspected, Budget(|inspected|))
    ensures |all| <= MAX_SLICES && forall s :: s in all ==> WellFormed(s)
    ensures forall v :: v in FirstEight(vs) ==>
      exists s :: s in all && s in SlicesOf(Encode(v), Budget(|FirstEight(vs)|))
  {
    var subset := if |vs| > MAX_VARIANTS then vs[..MAX_VARIANTS] else vs;
    assert forall v :: v in subset ==> v in vs;
    var budget := Budget(|subset|);
    SharesFit(|subset|);
    all := [];
    var k := 0;
    while k < |subset|
      invariant 0 <= k <= |subset|
      invariant all == Flatten(subset[..k], budget)
    {
      var slices := SliceVariant(Encode(subset[k]), budget);
      all := all + slices[..Min(|slices|, budget)];
      assert slices[..|slices|] == slices;
      FlattenSnoc(subset, k, budget);
      k := k + 1;
    }
    assert subset[..k] == subset;
    BatchSpec(subset);
    all := all[..Min(|all|, MAX_SLICES)];
  }

  /** `sub` occurs in `s` as a contiguous stretch. */
  ghost predicate Contains(s: Slice, sub: seq<Code>) {
    exists i :: OccursAt(s, sub, i)
  }

  ghost predicate OccursAt(s: Slice, sub: seq<Code>, i: nat) {
    i + |sub| <= |s| && s[i..i + |sub|] == sub
  }

  lemma StretchInSlice(v: string, b: nat, i: nat, len: nat) returns (s: Slice)
    requires b >= 1 && len <= 21 && i + len <= |v| && i + len <= 35 + 15 * (b - 1)
    ensures s in SlicesOf(Encode(v), b) && Contains(s, Encode(v)[i..i + len])
  {
    var e := Encode(v);
    var at: nat;
    if |e| <= WIDTH {
      s, at := Padded(e), i;
      assert s in SlicesOf(e, b);
    } else {
      var k := StretchInsideOneSlice(|e|, b, i, len);
      SlicesAtStarts(e, b, k);
      s, at := SlicesOf(e, b)[k], i - Starts(|e|, b)[k];
    }
    assert OccursAt(s, e[i..i + len], at);
  }

  /** The stretch is in some slice of the batch. */
  ghost predicate Exposed(all: seq<Slice>, v: string, i: nat, len: nat)
    requires i + len <= |v|
  {
    exists s :: s in all && Contains(s, Encode(v)[i..i + len])
  }

  /** No blind spot: with `n` variants inspected each gets `32 / n` slices, and every stretch of at most 21
      of the first `35 + 15 (32 / n - 1)` characters of each of them is in some slice of the batch. */
  lemma NoBlindSpot(vs: seq<string>, v: string, i: nat, len: nat)
    requires v in FirstEight(vs) && len <= 21 && i + len <= |v|
    requires i + len <= 35 + 15 * (32 / |FirstEight(vs)| - 1)
    ensures Exposed(Flatten(FirstEight(vs), Budget(|FirstEight(vs)|)), v, i, len)
  {
    var inspected := FirstEight(vs);
    SharesFit(|inspected|);
    FlattenElements(inspected, Budget(|inspected|));
    var s := StretchInSlice(v, Budget(|inspected|), i, len);
    assert s in Flatten(inspected, Budget(|inspected|));
  }

  lemma FirstEightOf(ascii: string, clean: string, vs: seq<string>)
    requires ascii != "" && vs == FirstOccurrences(Candidates(ascii, clean)) && vs != [] && vs[0] == Sanitize(ascii)
    requires forall v :: v in vs <==> IsVariant(ascii, clean, v)
    ensures forall v :: v in vs ==> v != "" && Clean(v)
    ensures FirstEight(vs) != [] && FirstEight(vs)[0] == Sanitize(ascii)
    ensures forall v :: v in FirstEight(vs) ==> IsVariant(ascii, clean, v)
    ensures |FirstEight(vs)| < 8 ==> forall v :: IsVariant(ascii, clean, v) ==> v in FirstEight(vs)
  {
    forall v | v in vs ensures v != "" && Clean(v) {
      VariantIsCleanAndNonEmpty(ascii, clean, v);
    }
  }

  /** However many labels there are, the normalised form and the last two labels are inspected. */
  lemma ImportantAreInspected(ascii: string, clean: string, vs: seq<string>)
    requires vs == FirstOccurrences(Candidates(ascii, clean))
    ensures ascii != clean && clean != "" ==> Sanitize(clean) in FirstEight(vs)
    ensures |Labels(Sanitize(ascii))| >= 2 ==> LastTwo(Labels(Sanitize(ascii))) in FirstEight(vs)
  {
    var all := Candidates(ascii, clean);
    if ascii != clean && clean != "" {
      assert all[1] == Sanitize(clean);
      EarlyIsInspected(all, 1);
    }
    if |Labels(Sanitize(ascii))| >= 2 {
      var k := if ascii != clean && clean != "" then 2 else 1;
      assert all[k] == LastTwo(Labels(Sanitize(ascii)));
      EarlyIsInspected(all, k);
    }
  }

  lemma EarlyIsInspected(all: seq<string>, k: nat)
    requires k < |all| && k < 8
    ensures all[k] in FirstEight(FirstOccurrences(all))
  {
    var i := EarlyOccurrence(all, k);
    assert FirstEight(FirstOccurrences(all))[i] == all[k];
  }

  /** From the two normalised names to the batch: at most eight variants in the order of their importance,
      the whole name, the normalised form and the last two labels always among them, and all if there is
      room. Each of the `n` inspected gets `32 / n` slices, and every stretch of at most 21 characters that
      these reach is in one of them. An empty name is not inspected. */
  method Slices(ascii: string, clean: string) returns (inspected: seq<string>, all: seq<Slice>)
    ensures ascii == "" ==> inspected == [] && all == []
    ensures ascii != "" ==> inspected == FirstEight(FirstOccurrences(Candidates(ascii, clean)))
    ensures ascii != "" ==> inspected != [] && inspected[0] == Sanitize(ascii)
    ensures ascii != "" && ascii != clean && clean != "" ==> Sanitize(clean) in inspected
    ensures ascii != "" && |Labels(Sanitize(ascii))| >= 2 ==> LastTwo(Labels(Sanitize(ascii))) in inspected
    ensures |inspected| <= 8 && forall v :: v in inspected ==> IsVariant(ascii, clean, v)
    ensures ascii != "" && |inspected| < 8 ==> forall v :: IsVariant(ascii, clean, v) ==> v in inspected
    ensures |all| <= 32 && forall s :: s in all ==> WellFormed(s)
    ensures forall v :: v in inspected ==> exists s :: s in all && s in SlicesOf(Encode(v), 32 / |inspected|)
    ensures forall v, i: nat, len: nat ::
      v in inspected && len <= 21 && i + len <= |v| && i + len <= 35 + 15 * (32 / |inspected| - 1) ==>
        Exposed(all, v, i, len)
  {
    if ascii == "" {
      return [], [];
    }
    var vs := SelectVariants(ascii, clean);
    FirstEightOf(ascii, clean, vs);
    ImportantAreInspected(ascii, clean, vs);
    all := BuildSlices(vs);
    inspected := FirstEight(vs);
    SharesFit(|inspected|);
    forall v, i: nat, len: nat
      | v in inspected && len <= 21 && i + len <= |v| && i + len <= 35 + 15 * (32 / |inspected| - 1)
      ensures Exposed(all, v, i, len)
    {
      NoBlindSpot(vs, v, i, len);
    }
  }

  /* ---- Where the last two labels are ---- */

  /** What the first character does to the labels that follow. */
  function Headed(c: char, rest: seq<string>): seq<string>
    requires rest != []
  {
    if c == '.' then [""] + rest else [[c] + rest[0]] + rest[1..]
  }

  lemma HeadJoins(c: char, rest: seq<string>, more: seq<string>)
    requires rest != []
    ensures Headed(c, rest + more) == Headed(c, rest) + more
  {
    assert (rest + more)[1..] == rest[1..] + more;
  }

  lemma {:induction false} SplitDot(x: string, y: string)
    ensures Split(x + "." + y) == Split(x) + Split(y)
  {
    if x == "" {
      assert (x + "." + y)[1..] == y && (x + "." + y)[0] == '.';
    } else {
      var whole := x + "." + y;
      SplitDot(x[1..], y);
      assert whole[0] == x[0] && whole[1..] == x[1..] + "." + y;
      HeadJoins(x[0], Split(x[1..]), Split(y));
    }
  }

  lemma {:induction false} SplitLabel(a: string)
    requires '.' !in a
    ensures Split(a) == [a]
  {
    if a == "" {
    } else {
      SplitLabel(a[1..]);
      assert Split(a) == [[a[0]] + a[1..]] + [a[1..]][1..] && [a[0]] + a[1..] == a;
    }
  }

  lemma NonEmptyCons(a: seq<string>, b: seq<string>)
    requires a != []
    ensures NonEmpty(a + b) == (if a[0] == "" then [] else [a[0]]) + NonEmpty(a[1..] + b)
  {
    assert (a + b)[1..] == a[1..] + b;
  }

  lemma {:induction false} NonEmptyConcat(a: seq<string>, b: seq<string>)
    ensures NonEmpty(a + b) == NonEmpty(a) + NonEmpty(b)
  {
    if a == [] {
      assert a + b == b;
    } else {
      NonEmptyConcat(a[1..], b);
      NonEmptyCons(a, b);
    }
  }

  /** A name of the alphabet that ends in two labels has them inspected as one name, whatever is before. */
  lemma LastTwoLabels(rest: string, a: string, b: string)
    requires a != "" && b != "" && '.' !in a && '.' !in b
    ensures Labels(rest + "." + (a + "." + b)) == Labels(rest) + [a, b] && Labels(a + "." + b) == [a, b]
    ensures LastTwo(Labels(rest + "." + (a + "." + b))) == a + "." + b == LastTwo(Labels(a + "." + b))
  {
    SplitDot(rest, a + "." + b);
    SplitDot(a, b);
    SplitLabel(a);
    SplitLabel(b);
    NonEmptyConcat(Split(rest), [a] + [b]);
    NonEmptyConcat([a], [b]);
    assert NonEmpty([a]) == [a] && NonEmpty([b]) == [b] by {
      assert [a][1..] == [] && [b][1..] == [];
    }
    assert [a] + [b] == [a, b];
  }
}
