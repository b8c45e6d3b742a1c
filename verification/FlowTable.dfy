/** Bidirectional flow aggregation of a packet capture (ingest/pcap_ingester.py). The `flows`
    dictionary keeps insertion order, so it is a sequence of entries with distinct keys. */
module FlowTable {

  const MAX_FLOWS: nat := 50000
  const MAX_PACKET_BYTES: nat := 65535
  const SNAPSHOT_EVERY: nat := 500

  datatype Endpoint = Endpoint(ip: string, port: nat)
  datatype Transport = Tcp | Udp | Other
  datatype Packet = Packet(len: nat, isIp: bool, transport: Transport, src: Endpoint, dst: Endpoint, time: real)

  /** `src:port-dst:port-proto`: the text determines the parts. */
  datatype Key = Key(src: Endpoint, dst: Endpoint, proto: Transport)

  datatype Flow = Flow(start: real, origPkts: nat, origBytes: nat, respPkts: nat, respBytes: nat, duration: real)

  /** `birth` numbers the flows in the order in which they were created. */
  datatype Entry = Entry(key: Key, flow: Flow, birth: nat)
  type Flows = seq<Entry>

  predicate Accepted(p: Packet) {
    p.len <= MAX_PACKET_BYTES && p.isIp && !p.transport.Other?
  }

  function KeyOf(p: Packet): Key {
    Key(p.src, p.dst, p.transport)
  }

  function Reversed(k: Key): Key {
    Key(k.dst, k.src, k.proto)
  }

  /** Index of the entry for `k`, or the length when there is none. */
  function Find(fs: Flows, k: Key): (i: nat)
    ensures i <= |fs| && (i < |fs| ==> fs[i].key == k) && forall j :: 0 <= j < i ==> fs[j].key != k
  {
    if fs == [] then 0 else if fs[0].key == k then 0 else 1 + Find(fs[1..], k)
  }

  function AddResp(f: Flow, p: Packet): Flow {
    f.(respPkts := f.respPkts + 1, respBytes := f.respBytes + p.len, duration := p.time - f.start)
  }

  function AddOrig(f: Flow, p: Packet): Flow {
    f.(origPkts := f.origPkts + 1, origBytes := f.origBytes + p.len, duration := p.time - f.start)
  }

  /** The table after one accepted packet; `birth` is the number a new flow gets. */
  function Update(fs: Flows, p: Packet, birth: nat): Flows {
    var r, o := Find(fs, Reversed(KeyOf(p))), Find(fs, KeyOf(p));
    if r < |fs| then fs[r := fs[r].(flow := AddResp(fs[r].flow, p))]
    else if o < |fs| then fs[o := fs[o].(flow := AddOrig(fs[o].flow, p))]
    else fs + [Entry(KeyOf(p), AddOrig(Flow(p.time, 0, 0, 0, 0, 0.0), p), birth)]
  }

  /** The first entry with the least start time: what a stable sort puts first. */
  function OldestIndex(fs: Flows): (i: nat)
    requires fs != []
    ensures i < |fs| && forall j :: 0 <= j < |fs| ==> fs[i].flow.start <= fs[j].flow.start
    ensures forall j :: 0 <= j < i ==> fs[i].flow.start < fs[j].flow.start
  {
    if |fs| == 1 then 0
    else
      var r := 1 + OldestIndex(fs[1..]);
      if fs[0].flow.start <= fs[r].flow.start then 0 else r
  }

  datatype Emission = Snapshot(entry: Entry) | Final(entry: Entry)

  datatype State = State(flows: Flows, seen: nat, created: nat, emitted: seq<Emission>)

  const START := State([], 0, 0, [])

  function Emissions(fs: Flows, final: bool): (es: seq<Emission>)
    ensures |es| == |fs| && forall i :: 0 <= i < |fs| ==> es[i] == if final then Final(fs[i]) else Snapshot(fs[i])
  {
    seq(|fs|, i requires 0 <= i < |fs| => if final then Final(fs[i]) else Snapshot(fs[i]))
  }

  function Evict(st: State, cap: nat): State
    decreases |st.flows|
  {
    if |st.flows| <= cap then st
    else
      var i := OldestIndex(st.flows);
      Evict(st.(flows := st.flows[..i] + st.flows[i+1..], emitted := st.emitted + [Final(st.flows[i])]), cap)
  }

  function Absorb(st: State, p: Packet): State {
    var next := Update(st.flows, p, st.created);
    State(next, st.seen + 1, if |next| > |st.flows| then st.created + 1 else st.created, st.emitted)
  }

  /** Every 500th packet shows the whole table without changing it. */
  function Shown(st: State): State {
    if st.seen % SNAPSHOT_EVERY == 0 then st.(emitted := st.emitted + Emissions(st.flows, false)) else st
  }

  function Handle(st: State, p: Packet, cap: nat): State {
    if !Accepted(p) then st.(seen := st.seen + 1) else Evict(Shown(Absorb(st, p)), cap)
  }

  function Run(ps: seq<Packet>, cap: nat): State {
    if ps == [] then START else Handle(Run(ps[..|ps|-1], cap), ps[|ps|-1], cap)
  }

  function Flush(st: State): State {
    st.(emitted := st.emitted + Emissions(st.flows, true))
  }

  function AcceptedOf(ps: seq<Packet>): seq<Packet> {
    if ps == [] then [] else AcceptedOf(ps[..|ps|-1]) + if Accepted(ps[|ps|-1]) then [ps[|ps|-1]] else []
  }

  /* ---- The declarative grouping ---- */

  predicate SamePair(p: Packet, k: Key) {
    KeyOf(p) == k || KeyOf(p) == Reversed(k)
  }

  /** The packets between the two endpoints of `k`, in either direction, in order. */
  function Group(acc: seq<Packet>, k: Key): (g: seq<Packet>)
    ensures forall p :: p in g ==> SamePair(p, k)
  {
    if acc == [] then [] else Group(acc[..|acc|-1], k) + if SamePair(acc[|acc|-1], k) then [acc[|acc|-1]] else []
  }

  function Bytes(ps: seq<Packet>): nat {
    if ps == [] then 0 else Bytes(ps[..|ps|-1]) + ps[|ps|-1].len
  }

  /** Packets of a group in the direction of `k`; between an endpoint and itself only the first. */
  function Orig(g: seq<Packet>, k: Key): seq<Packet> {
    if g == [] then []
    else Orig(g[..|g|-1], k) + if KeyOf(g[|g|-1]) == k && (k != Reversed(k) || |g| == 1) then [g[|g|-1]] else []
  }

  function Resp(g: seq<Packet>, k: Key): seq<Packet> {
    if g == [] then []
    else Resp(g[..|g|-1], k) + if KeyOf(g[|g|-1]) == k && (k != Reversed(k) || |g| == 1) then [] else [g[|g|-1]]
  }

  function Summary(g: seq<Packet>, k: Key): Flow
    requires g != []
  {
    Flow(g[0].time, |Orig(g, k)|, Bytes(Orig(g, k)), |Resp(g, k)|, Bytes(Resp(g, k)), g[|g|-1].time - g[0].time)
  }

  datatype Lookup = Absent | Present(flow: Flow)

  function Get(fs: Flows, k: Key): Lookup {
    var i := Find(fs, k);
    if i < |fs| then Present(fs[i].flow) else Absent
  }

  /** A group is filed under the key of its first packet. */
  function Grouped(acc: seq<Packet>, k: Key): Lookup {
    var g := Group(acc, k);
    if g != [] && KeyOf(g[0]) == k then Present(Summary(g, k)) else Absent
  }

  ghost predicate DistinctKeys(fs: Flows) {
    forall i, j :: 0 <= i < j < |fs| ==> fs[i].key != fs[j].key
  }

  /** The table is the grouping of `acc`. */
  ghost predicate Groups(fs: Flows, acc: seq<Packet>) {
    DistinctKeys(fs) && forall k :: Get(fs, k) == Grouped(acc, k)
  }

  lemma GroupsOfReverse(acc: seq<Packet>, k: Key)
    ensures Group(acc, k) == Group(acc, Reversed(k))
  {
    if acc == [] {
    } else {
      GroupsOfReverse(acc[..|acc|-1], k);
    }
  }

  lemma FindAt(fs: Flows, i: nat)
    requires DistinctKeys(fs) && i < |fs|
    ensures Find(fs, fs[i].key) == i
  {
  }

  lemma {:induction false} GetAfterSet(fs: Flows, i: nat, f: Flow, k: Key)
    requires DistinctKeys(fs) && i < |fs|
    ensures DistinctKeys(fs[i := fs[i].(flow := f)])
    ensures Get(fs[i := fs[i].(flow := f)], k) == if k == fs[i].key then Present(f) else Get(fs, k)
  {
    var gs := fs[i := fs[i].(flow := f)];
    assert forall j :: 0 <= j < |fs| ==> gs[j].key == fs[j].key;
    if k == fs[i].key {
      FindAt(gs, i);
    } else if Find(fs, k) < |fs| {
      FindAt(fs, Find(fs, k));
      FindAt(gs, Find(fs, k));
    } else {
      assert Find(gs, k) == |gs|;
    }
  }

  lemma {:induction false} FindAfterAppend(fs: Flows, e: Entry, k: Key)
    requires Find(fs, e.key) == |fs|
    ensures Find(fs + [e], k) == if Find(fs, k) < |fs| then Find(fs, k) else if k == e.key then |fs| else |fs| + 1
  {
    if fs == [] {
    } else {
      assert (fs + [e])[1..] == fs[1..] + [e];
      if fs[0].key != k {
        FindAfterAppend(fs[1..], e, k);
      }
    }
  }

  lemma GetAfterAppend(fs: Flows, e: Entry, k: Key)
    requires DistinctKeys(fs) && Find(fs, e.key) == |fs|
    ensures DistinctKeys(fs + [e])
    ensures Get(fs + [e], k) == if k == e.key then Present(e.flow) else Get(fs, k)
  {
    FindAfterAppend(fs, e, k);
  }

  /** One more packet of the group changes the summary as the table update does. */
  lemma SummarySnoc(g: seq<Packet>, p: Packet, k: Key)
    requires g != [] && (forall q :: q in g ==> SamePair(q, k)) && SamePair(p, k)
    ensures Summary(g + [p], k) ==
      if KeyOf(p) == k && k != Reversed(k) then AddOrig(Summary(g, k), p) else AddResp(Summary(g, k), p)
  {
    var h := g + [p];
    assert h[..|h|-1] == g && h[0] == g[0];
    var o, r := Orig(g, k), Resp(g, k);
    assert (o + [p])[..|o|] == o && (r + [p])[..|r|] == r;
    assert o + [] == o && r + [] == r;
  }

  lemma SummaryOne(p: Packet)
    ensures Summary([p], KeyOf(p)) == AddOrig(Flow(p.time, 0, 0, 0, 0, 0.0), p)
  {
    var k := KeyOf(p);
    assert [p][..0] == [];
    assert Orig([p], k) == [p] && Resp([p], k) == [];
  }

  lemma UpdateGroupsAt(fs: Flows, acc: seq<Packet>, p: Packet, birth: nat, k: Key)
    requires DistinctKeys(fs) && Get(fs, k) == Grouped(acc, k)
    requires Get(fs, KeyOf(p)) == Grouped(acc, KeyOf(p)) &&
      Get(fs, Reversed(KeyOf(p))) == Grouped(acc, Reversed(KeyOf(p)))
    ensures Get(Update(fs, p, birth), k) == Grouped(acc + [p], k) && DistinctKeys(Update(fs, p, birth))
  {
    var key, rev := KeyOf(p), Reversed(KeyOf(p));
    var r, o := Find(fs, rev), Find(fs, key);
    var g := Group(acc, key);
    GroupsOfReverse(acc, key);
    GroupSnoc(acc, p, k);
    assert g != [] ==> g[0] in g && SamePair(g[0], key);
    if r < |fs| {
      GetAfterSet(fs, r, AddResp(fs[r].flow, p), k);
      assert KeyOf(g[0]) == rev;
    } else if o < |fs| {
      GetAfterSet(fs, o, AddOrig(fs[o].flow, p), k);
      assert KeyOf(g[0]) == key;
    } else {
      GetAfterAppend(fs, Entry(key, AddOrig(Flow(p.time, 0, 0, 0, 0, 0.0), p), birth), k);
      assert g == [];
      SummaryOne(p);
    }
  }

  lemma UpdateGroups(fs: Flows, acc: seq<Packet>, p: Packet, birth: nat)
    requires Groups(fs, acc)
    ensures Groups(Update(fs, p, birth), acc + [p])
  {
    forall k ensures Get(Update(fs, p, birth), k) == Grouped(acc + [p], k) && DistinctKeys(Update(fs, p, birth)) {
      UpdateGroupsAt(fs, acc, p, birth, k);
    }
  }

  lemma GroupSnoc(acc: seq<Packet>, p: Packet, k: Key)
    ensures Group(acc + [p], k) == Group(acc, k) + if SamePair(p, k) then [p] else []
    ensures Grouped(acc + [p], k) ==
      if !SamePair(p, k) then Grouped(acc, k)
      else if Group(acc, k) == [] then (if KeyOf(p) == k then Present(Summary([p], k)) else Absent)
      else if KeyOf(Group(acc, k)[0]) != k then Absent
      else if KeyOf(p) == k && k != Reversed(k) then Present(AddOrig(Summary(Group(acc, k), k), p))
      else Present(AddResp(Summary(Group(acc, k), k), p))
  {
    assert (acc + [p])[..|acc|] == acc;
    var g := Group(acc, k);
    if SamePair(p, k) {
      if g != [] {
        SummarySnoc(g, p, k);
        assert (g + [p])[0] == g[0];
      } else {
        assert g + [p] == [p];
      }
    } else {
      assert g + [] == g;
    }
  }

  /* ---- Sums over entries ---- */

  function Sum(es: seq<Entry>, w: Entry -> nat): nat {
    if es == [] then 0 else Sum(es[..|es|-1], w) + w(es[|es|-1])
  }

  lemma {:induction false} SumConcat(a: seq<Entry>, b: seq<Entry>, w: Entry -> nat)
    ensures Sum(a + b, w) == Sum(a, w) + Sum(b, w)
  {
    if b == [] {
      assert a + b == a;
    } else {
      assert (a + b)[..|a + b|-1] == a + b[..|b|-1];
      SumConcat(a, b[..|b|-1], w);
    }
  }

  lemma SumSplit(es: seq<Entry>, i: nat, w: Entry -> nat)
    requires i < |es|
    ensures Sum(es, w) == Sum(es[..i], w) + w(es[i]) + Sum(es[i+1..], w)
  {
    assert es == es[..i] + [es[i]] + es[i+1..];
    SumConcat(es[..i] + [es[i]], es[i+1..], w);
    assert (es[..i] + [es[i]])[..i] == es[..i];
  }

  lemma SumSet(es: seq<Entry>, i: nat, e: Entry, w: Entry -> nat)
    requires i < |es|
    ensures Sum(es[i := e], w) + w(es[i]) == Sum(es, w) + w(e)
  {
    SumSplit(es, i, w);
    SumSplit(es[i := e], i, w);
    assert es[i := e][..i] == es[..i] && es[i := e][i+1..] == es[i+1..];
  }

  function PacketsOf(e: Entry): nat { e.flow.origPkts + e.flow.respPkts }

  function BytesOf(e: Entry): nat { e.flow.origBytes + e.flow.respBytes }

  function Born(b: nat): Entry -> nat {
    (e: Entry) => if e.birth == b then 1 else 0
  }

  lemma UpdateSums(fs: Flows, p: Packet, birth: nat, b: nat)
    ensures Sum(Update(fs, p, birth), PacketsOf) == Sum(fs, PacketsOf) + 1
    ensures Sum(Update(fs, p, birth), BytesOf) == Sum(fs, BytesOf) + p.len
    ensures Sum(Update(fs, p, birth), Born(b))
         == Sum(fs, Born(b)) + if |Update(fs, p, birth)| > |fs| && b == birth then 1 else 0
  {
    var next := Update(fs, p, birth);
    if |next| > |fs| {
      assert next[..|next|-1] == fs;
    } else {
      var r := Find(fs, Reversed(KeyOf(p)));
      var i := if r < |fs| then r else Find(fs, KeyOf(p));
      SumSet(fs, i, next[i], PacketsOf);
      SumSet(fs, i, next[i], BytesOf);
      SumSet(fs, i, next[i], Born(b));
    }
  }

  /* ---- Conservation under eviction ---- */

  function Finals(es: seq<Emission>): seq<Entry> {
    if es == [] then [] else Finals(es[..|es|-1]) + if es[|es|-1].Final? then [es[|es|-1].entry] else []
  }

  lemma {:induction false} FinalsConcat(a: seq<Emission>, b: seq<Emission>)
    ensures Finals(a + b) == Finals(a) + Finals(b)
  {
    if b == [] {
      assert a + b == a;
    } else {
      assert (a + b)[..|a + b|-1] == a + b[..|b|-1];
      FinalsConcat(a, b[..|b|-1]);
    }
  }

  lemma {:induction false} FinalsOfEmissions(fs: Flows, final: bool)
    ensures Finals(Emissions(fs, final)) == if final then fs else []
  {
    if fs == [] {
    } else {
      var es := Emissions(fs, final);
      assert es[..|es|-1] == Emissions(fs[..|fs|-1], final);
      FinalsOfEmissions(fs[..|fs|-1], final);
      assert fs == fs[..|fs|-1] + [fs[|fs|-1]];
    }
  }

  /** Emitted for the last time plus still in the table. */
  function Total(st: State, w: Entry -> nat): nat {
    Sum(Finals(st.emitted), w) + Sum(st.flows, w)
  }

  lemma RemovalConserves(st: State, i: nat, w: Entry -> nat)
    requires i < |st.flows|
    ensures Total(st.(flows := st.flows[..i] + st.flows[i+1..], emitted := st.emitted + [Final(st.flows[i])]), w) ==
      Total(st, w)
  {
    var e := st.flows[i];
    SumSplit(st.flows, i, w);
    SumConcat(st.flows[..i], st.flows[i+1..], w);
    assert (st.emitted + [Final(e)])[..|st.emitted|] == st.emitted;
    SumConcat(Finals(st.emitted), [e], w);
    assert [e][..0] == [];
  }

  /** Eviction moves entries from the table to the final emissions, oldest first, down to the cap. */
  lemma {:induction false} EvictConserves(st: State, cap: nat, w: Entry -> nat)
    ensures var next := Evict(st, cap);
      && Total(next, w) == Total(st, w) && |next.flows| <= cap
      && next.created == st.created && next.seen == st.seen
    decreases |st.flows|
  {
    if |st.flows| <= cap {
    } else {
      var i := OldestIndex(st.flows);
      RemovalConserves(st, i, w);
      EvictConserves(
        st.(flows := st.flows[..i] + st.flows[i+1..], emitted := st.emitted + [Final(st.flows[i])]), cap, w);
    }
  }

  lemma ShownFinals(st: State)
    ensures Finals(Shown(st).emitted) == Finals(st.emitted)
  {
    FinalsConcat(st.emitted, Emissions(st.flows, false));
    FinalsOfEmissions(st.flows, false);
    assert Finals(st.emitted) + [] == Finals(st.emitted);
  }

  lemma ShownConserves(st: State, w: Entry -> nat)
    ensures Total(Shown(st), w) == Total(st, w)
  {
    ShownFinals(st);
  }

  /** Snapshots and evictions move nothing in or out. */
  lemma SettleConserves(st: State, cap: nat, w: Entry -> nat)
    ensures var next := Evict(Shown(st), cap);
      Total(next, w) == Total(st, w) && |next.flows| <= cap && next.created == st.created
  {
    ShownConserves(st, w);
    EvictConserves(Shown(st), cap, w);
  }

  lemma AbsorbTotals(st: State, p: Packet, b: nat)
    ensures var a := Absorb(st, p);
      && Total(a, PacketsOf) == Total(st, PacketsOf) + 1
      && Total(a, BytesOf) == Total(st, BytesOf) + p.len
      && Total(a, Born(b)) == Total(st, Born(b)) + (if st.created == b < a.created then 1 else 0)
      && st.created <= a.created <= st.created + 1
  {
    UpdateSums(st.flows, p, st.created, b);
  }

  lemma HandleTotals(st: State, p: Packet, cap: nat, b: nat)
    ensures var next := Handle(st, p, cap);
      && Total(next, PacketsOf) == Total(st, PacketsOf) + (if Accepted(p) then 1 else 0)
      && Total(next, BytesOf) == Total(st, BytesOf) + (if Accepted(p) then p.len else 0)
      && Total(next, Born(b)) == Total(st, Born(b)) + (if st.created == b < next.created then 1 else 0)
      && st.created <= next.created <= st.created + 1
      && (Accepted(p) ==> |next.flows| <= cap)
  {
    if Accepted(p) {
      AbsorbTotals(st, p, b);
      SettleConserves(Absorb(st, p), cap, PacketsOf);
      SettleConserves(Absorb(st, p), cap, BytesOf);
      SettleConserves(Absorb(st, p), cap, Born(b));
    }
  }

  lemma {:induction false} RunTotals(ps: seq<Packet>, cap: nat, b: nat)
    ensures var st := Run(ps, cap);
      && Total(st, PacketsOf) == |AcceptedOf(ps)| && Total(st, BytesOf) == Bytes(AcceptedOf(ps))
      && Total(st, Born(b)) == (if b < st.created then 1 else 0)
      && |st.flows| <= cap
  {
    if ps == [] {
    } else {
      var init, p := ps[..|ps|-1], ps[|ps|-1];
      RunTotals(init, cap, b);
      HandleTotals(Run(init, cap), p, cap, b);
      var acc := AcceptedOf(init);
      assert (acc + [p])[..|acc|] == acc && acc + [] == acc;
    }
  }

  lemma FlushTotal(st: State, w: Entry -> nat)
    ensures Sum(Finals(Flush(st).emitted), w) == Total(st, w)
  {
    FinalsConcat(st.emitted, Emissions(st.flows, true));
    FinalsOfEmissions(st.flows, true);
    SumConcat(Finals(st.emitted), st.flows, w);
  }

  /** Over any capture and any bound on the table, the final emissions carry exactly the accepted
      packets and bytes. */
  lemma FinalEmissionsConserve(ps: seq<Packet>, cap: nat)
    ensures var out := Finals(Flush(Run(ps, cap)).emitted);
      Sum(out, PacketsOf) == |AcceptedOf(ps)| && Sum(out, BytesOf) == Bytes(AcceptedOf(ps))
  {
    RunTotals(ps, cap, 0);
    FlushTotal(Run(ps, cap), PacketsOf);
    FlushTotal(Run(ps, cap), BytesOf);
  }

  /** Every flow that was ever created is finally emitted exactly once, and no other. */
  lemma EachFlowEmittedOnce(ps: seq<Packet>, cap: nat, b: nat)
    ensures Sum(Finals(Flush(Run(ps, cap)).emitted), Born(b)) == if b < Run(ps, cap).created then 1 else 0
  {
    RunTotals(ps, cap, b);
    FlushTotal(Run(ps, cap), Born(b));
  }

  /** The table never holds more than the bound between packets. */
  lemma TableIsBounded(ps: seq<Packet>, cap: nat)
    ensures |Run(ps, cap).flows| <= cap
  {
    RunTotals(ps, cap, 0);
  }

  /** One entry too many: exactly the oldest is evicted, and of equally old ones the one created first. */
  lemma EvictsTheOldest(st: State, cap: nat) returns (i: nat)
    requires |st.flows| == cap + 1
    ensures i < |st.flows| && Evict(st, cap).flows == st.flows[..i] + st.flows[i+1..]
    ensures Evict(st, cap).emitted == st.emitted + [Final(st.flows[i])]
    ensures forall j :: 0 <= j < |st.flows| ==> st.flows[i].flow.start <= st.flows[j].flow.start
    ensures forall j :: 0 <= j < i ==> st.flows[i].flow.start < st.flows[j].flow.start
  {
    i := OldestIndex(st.flows);
  }

  /* ---- Grouping without eviction ---- */

  /** No entry's reverse is another entry. */
  ghost predicate NoReverse(fs: Flows) {
    DistinctKeys(fs) && forall i, j :: 0 <= i < |fs| && 0 <= j < |fs| && i != j ==> fs[i].key != Reversed(fs[j].key)
  }

  lemma UpdateKeepsNoReverse(fs: Flows, p: Packet, birth: nat)
    requires NoReverse(fs)
    ensures NoReverse(Update(fs, p, birth)) && |fs| <= |Update(fs, p, birth)| <= |fs| + 1
  {
    var next := Update(fs, p, birth);
    assert forall i :: 0 <= i < |fs| ==> next[i].key == fs[i].key;
    if |next| > |fs| {
      assert forall i :: 0 <= i < |fs| ==> fs[i].key != KeyOf(p) && fs[i].key != Reversed(KeyOf(p));
      assert forall i :: 0 <= i < |fs| ==> Reversed(fs[i].key) != KeyOf(p);
    }
  }

  lemma DropKeepsNoReverse(fs: Flows, i: nat)
    requires NoReverse(fs) && i < |fs|
    ensures NoReverse(fs[..i] + fs[i+1..])
  {
    var gs := fs[..i] + fs[i+1..];
    forall j, k | 0 <= j < k < |gs| ensures gs[j].key != gs[k].key {
      assert gs[j] == fs[if j < i then j else j + 1] && gs[k] == fs[if k < i then k else k + 1];
    }
    forall j, k | 0 <= j < |gs| && 0 <= k < |gs| && j != k ensures gs[j].key != Reversed(gs[k].key) {
      assert gs[j] == fs[if j < i then j else j + 1] && gs[k] == fs[if k < i then k else k + 1];
    }
  }

  lemma {:induction false} EvictKeepsNoReverse(st: State, cap: nat)
    requires NoReverse(st.flows)
    ensures NoReverse(Evict(st, cap).flows)
    decreases |st.flows|
  {
    if |st.flows| <= cap {
    } else {
      var i := OldestIndex(st.flows);
      DropKeepsNoReverse(st.flows, i);
      EvictKeepsNoReverse(
        st.(flows := st.flows[..i] + st.flows[i+1..], emitted := st.emitted + [Final(st.flows[i])]), cap);
    }
  }

  /** In every state of every run, evictions or not, a key and its distinct reverse are never both in
      the table, and no key twice. */
  lemma {:induction false} RunNoReverse(ps: seq<Packet>, cap: nat)
    ensures NoReverse(Run(ps, cap).flows)
  {
    if ps == [] {
    } else {
      var init, p := ps[..|ps|-1], ps[|ps|-1];
      RunNoReverse(init, cap);
      var st := Run(init, cap);
      if Accepted(p) {
        UpdateKeepsNoReverse(st.flows, p, st.created);
        EvictKeepsNoReverse(Shown(Absorb(st, p)), cap);
      }
    }
  }

  /** As long as at most `cap` flows were created nothing is evicted: the table is the grouping of the
      accepted packets by unordered endpoint pair and protocol. */
  lemma {:induction false} TableIsGrouping(ps: seq<Packet>, cap: nat)
    requires Run(ps, cap).created <= cap
    ensures Groups(Run(ps, cap).flows, AcceptedOf(ps))
    ensures |Run(ps, cap).flows| == Run(ps, cap).created && Finals(Run(ps, cap).emitted) == []
  {
    if ps != [] {
      var init, p := ps[..|ps|-1], ps[|ps|-1];
      var st := Run(init, cap);
      HandleTotals(st, p, cap, 0);
      TableIsGrouping(init, cap);
      if Accepted(p) {
        UpdateGroups(st.flows, AcceptedOf(init), p, st.created);
        UnevictedStep(st, p, cap);
      } else {
        assert AcceptedOf(init) + [] == AcceptedOf(init);
      }
    } else {
      forall k ensures Get([], k) == Grouped([], k) {}
    }
  }

  lemma UnevictedStep(st: State, p: Packet, cap: nat)
    requires Accepted(p) && |st.flows| == st.created && Finals(st.emitted) == [] && Handle(st, p, cap).created <= cap
    ensures var next := Handle(st, p, cap);
      next.flows == Update(st.flows, p, st.created) && |next.flows| == next.created && Finals(next.emitted) == []
  {
    UpdateGrowth(st.flows, p, st.created);
    var a := Absorb(st, p);
    SettleConserves(a, cap, One);
    ShownFinals(a);
    FewEnough(Shown(a), cap);
  }

  lemma FewEnough(st: State, cap: nat)
    requires |st.flows| <= cap
    ensures Evict(st, cap) == st
  {
  }

  lemma UpdateGrowth(fs: Flows, p: Packet, birth: nat)
    ensures |fs| <= |Update(fs, p, birth)| <= |fs| + 1
  {
  }

  /** Nothing is finally emitted before the flush if and only if at most `cap` flows were created. */
  lemma EvictionIff(ps: seq<Packet>, cap: nat)
    ensures Finals(Run(ps, cap).emitted) == [] <==> Run(ps, cap).created <= cap
  {
    var st := Run(ps, cap);
    if st.created <= cap {
      TableIsGrouping(ps, cap);
    } else {
      CreatedIsCounted(ps, cap);
      RunTotals(ps, cap, 0);
    }
  }

  function One(e: Entry): nat { 1 }

  lemma {:induction false} SumOne(es: seq<Entry>)
    ensures Sum(es, One) == |es|
  {
    if es == [] {
    } else {
      SumOne(es[..|es|-1]);
    }
  }

  lemma {:induction false} CreatedIsCounted(ps: seq<Packet>, cap: nat)
    ensures var st := Run(ps, cap); |Finals(st.emitted)| + |st.flows| == st.created
  {
    if ps == [] {
    } else {
      var init, p := ps[..|ps|-1], ps[|ps|-1];
      CreatedIsCounted(init, cap);
      var st := Run(init, cap);
      if Accepted(p) {
        HandledCount(st, p, cap);
      }
    }
  }

  lemma TotalOne(st: State)
    ensures Total(st, One) == |Finals(st.emitted)| + |st.flows|
  {
    SumOne(Finals(st.emitted));
    SumOne(st.flows);
  }

  lemma HandledCount(st: State, p: Packet, cap: nat)
    requires Accepted(p) && |Finals(st.emitted)| + |st.flows| == st.created
    ensures var next := Handle(st, p, cap); |Finals(next.emitted)| + |next.flows| == next.created
  {
    var a := Absorb(st, p);
    UpdateGrowth(st.flows, p, st.created);
    SettleConserves(a, cap, One);
    TotalOne(a);
    TotalOne(Handle(st, p, cap));
  }

  /* ---- In terms of the capture ---- */

  /** Unordered endpoints with protocol. */
  function Pair(k: Key): set<Key> {
    {k, Reversed(k)}
  }

  function PairsOf(acc: seq<Packet>): set<set<Key>> {
    if acc == [] then {} else PairsOf(acc[..|acc|-1]) + {Pair(KeyOf(acc[|acc|-1]))}
  }

  lemma SamePairIff(p: Packet, k: Key)
    ensures Pair(KeyOf(p)) == Pair(k) <==> SamePair(p, k)
  {
    assert KeyOf(p) in Pair(KeyOf(p)) && k in Pair(k);
  }

  lemma {:induction false} PairIff(acc: seq<Packet>, k: Key)
    ensures Pair(k) in PairsOf(acc) <==> Group(acc, k) != []
  {
    if acc == [] {
    } else {
      PairIff(acc[..|acc|-1], k);
      SamePairIff(acc[|acc|-1], k);
    }
  }

  /** In a table that is the grouping of `acc`, a packet creates a flow exactly if its pair is new. */
  lemma CreatesIff(fs: Flows, acc: seq<Packet>, p: Packet, birth: nat)
    requires Groups(fs, acc)
    ensures |Update(fs, p, birth)| > |fs| <==> Pair(KeyOf(p)) !in PairsOf(acc)
  {
    var k := KeyOf(p);
    PairIff(acc, k);
    GroupsOfReverse(acc, k);
    assert Get(fs, k) == Grouped(acc, k) && Get(fs, Reversed(k)) == Grouped(acc, Reversed(k));
    if Group(acc, k) != [] {
      assert Group(acc, k)[0] in Group(acc, k);
    }
  }

  lemma AcceptedSnoc(ps: seq<Packet>)
    requires ps != []
    ensures var init, p := ps[..|ps|-1], ps[|ps|-1];
      AcceptedOf(ps) == if Accepted(p) then AcceptedOf(init) + [p] else AcceptedOf(init)
    ensures var init, p := ps[..|ps|-1], ps[|ps|-1];
      PairsOf(AcceptedOf(ps)) ==
        if Accepted(p) then PairsOf(AcceptedOf(init)) + {Pair(KeyOf(p))} else PairsOf(AcceptedOf(init))
  {
    var acc, p := AcceptedOf(ps[..|ps|-1]), ps[|ps|-1];
    assert (acc + [p])[..|acc|] == acc && acc + [] == acc;
  }

  /** As long as nothing is evicted the flows created are the pairs seen. */
  lemma {:induction false} CreatedArePairs(ps: seq<Packet>, cap: nat)
    ensures var n, pairs := Run(ps, cap).created, |PairsOf(AcceptedOf(ps))|;
      if n <= cap then pairs == n else pairs > cap
  {
    if ps == [] {
    } else {
      var init, p := ps[..|ps|-1], ps[|ps|-1];
      var st := Run(init, cap);
      CreatedArePairs(init, cap);
      AcceptedSnoc(ps);
      HandleTotals(st, p, cap, 0);
      if Accepted(p) && st.created <= cap {
        TableIsGrouping(init, cap);
        CreatesIff(st.flows, AcceptedOf(init), p, st.created);
        CreatedStep(st, p, cap);
      } else if Accepted(p) {
        FewerPairs(PairsOf(AcceptedOf(init)), Pair(KeyOf(p)));
      }
    }
  }

  lemma CreatedStep(st: State, p: Packet, cap: nat)
    requires Accepted(p)
    ensures Handle(st, p, cap).created ==
      if |Update(st.flows, p, st.created)| > |st.flows| then st.created + 1 else st.created
  {
    SettleConserves(Absorb(st, p), cap, One);
  }

  lemma FewerPairs(pairs: set<set<Key>>, pair: set<Key>)
    ensures |pairs + {pair}| >= |pairs|
  {
    if pair in pairs {
      assert pairs + {pair} == pairs;
    }
  }

  /** The pairs a table has an entry for. */
  function EntryPairs(fs: Flows): (r: set<set<Key>>)
    ensures |r| <= |fs|
    ensures forall i :: 0 <= i < |fs| ==> Pair(fs[i].key) in r
  {
    if fs == [] then {}
    else
      var rest := EntryPairs(fs[1..]);
      assert forall i :: 1 <= i < |fs| ==> fs[i] == fs[1..][i-1];
      rest + {Pair(fs[0].key)}
  }

  lemma {:induction false} PairHasPacket(acc: seq<Packet>, pair: set<Key>) returns (k: Key)
    requires pair in PairsOf(acc)
    ensures pair == Pair(k)
  {
    var init, p := acc[..|acc|-1], acc[|acc|-1];
    if pair in PairsOf(init) {
      k := PairHasPacket(init, pair);
    } else {
      k := KeyOf(p);
    }
  }

  /** A table that is the grouping has an entry for every pair. */
  lemma GroupHasEntry(fs: Flows, acc: seq<Packet>, k: Key)
    requires Groups(fs, acc) && Group(acc, k) != []
    ensures Pair(k) in EntryPairs(fs)
  {
    var first := KeyOf(Group(acc, k)[0]);
    assert SamePair(Group(acc, k)[0], k);
    GroupsOfReverse(acc, k);
    assert Group(acc, first) == Group(acc, k);
    assert Get(fs, first) == Grouped(acc, first) != Absent;
    assert Pair(fs[Find(fs, first)].key) == Pair(k);
  }

  lemma GroupingNeedsEntries(fs: Flows, acc: seq<Packet>)
    requires Groups(fs, acc)
    ensures |PairsOf(acc)| <= |fs|
  {
    forall pair | pair in PairsOf(acc) ensures pair in EntryPairs(fs) {
      var k := PairHasPacket(acc, pair);
      PairIff(acc, k);
      GroupHasEntry(fs, acc, k);
    }
    SubsetIsSmaller(PairsOf(acc), EntryPairs(fs));
  }

  lemma SubsetIsSmaller(a: set<set<Key>>, b: set<set<Key>>)
    requires a <= b
    ensures |a| <= |b|
  {
    assert b == a + (b - a);
  }

  /** Nothing is evicted, and the table is the grouping, if and only if the accepted packets are between at
      most `cap` unordered endpoint pairs with protocol. */
  lemma GroupingIffFewPairs(ps: seq<Packet>, cap: nat)
    ensures Finals(Run(ps, cap).emitted) == [] <==> |PairsOf(AcceptedOf(ps))| <= cap
    ensures Groups(Run(ps, cap).flows, AcceptedOf(ps)) <==> |PairsOf(AcceptedOf(ps))| <= cap
  {
    EvictionIff(ps, cap);
    CreatedArePairs(ps, cap);
    if Run(ps, cap).created <= cap {
      TableIsGrouping(ps, cap);
    }
    if Groups(Run(ps, cap).flows, AcceptedOf(ps)) {
      TableIsBounded(ps, cap);
      GroupingNeedsEntries(Run(ps, cap).flows, AcceptedOf(ps));
    }
  }

  function From(port: nat): Packet {
    Packet(60, true, Udp, Endpoint("10.0.0.1", port), Endpoint("10.0.0.2", 53), 0.0)
  }

  /** One pair too many, and the table is no longer the grouping. */
  lemma EvictionLosesGrouping() returns (ps: seq<Packet>, cap: nat)
    ensures !Groups(Run(ps, cap).flows, AcceptedOf(ps)) && Finals(Run(ps, cap).emitted) != []
  {
    ps, cap := [From(1), From(2)], 1;
    AcceptedSnoc([From(1)]);
    AcceptedSnoc(ps);
    assert [From(1)][..0] == [] && ps[..1] == [From(1)];
    assert AcceptedOf(ps) == ps;
    TwoPairs();
    GroupingIffFewPairs(ps, cap);
  }

  lemma TwoPairs()
    ensures |PairsOf([From(1), From(2)])| == 2
  {
    var ps, k1, k2 := [From(1), From(2)], KeyOf(From(1)), KeyOf(From(2));
    assert ps[..1] == [From(1)] && [From(1)][..0] == [];
    assert PairsOf(ps) == {Pair(k1)} + {Pair(k2)};
    assert k1 in Pair(k1) && k1 !in Pair(k2);
  }

  /** Every eviction of a run: a packet evicts at most one flow, and one that started no later than any
      flow that stays. */
  lemma EvictionsAreOldest(ps: seq<Packet>, cap: nat, k: nat)
    requires k < |ps|
    ensures var before, after := Run(ps[..k], cap), Run(ps[..k+1], cap);
      Finals(after.emitted) == Finals(before.emitted) ||
      exists e :: Finals(after.emitted) == Finals(before.emitted) + [e] &&
        forall f :: f in after.flows ==> e.flow.start <= f.flow.start
  {
    assert ps[..k+1][..k] == ps[..k];
    TableIsBounded(ps[..k], cap);
    if Accepted(ps[k]) {
      OneEviction(Run(ps[..k], cap), ps[k], cap);
    }
  }

  lemma OneEviction(st: State, p: Packet, cap: nat)
    requires Accepted(p) && |st.flows| <= cap
    ensures var after := Handle(st, p, cap);
      Finals(after.emitted) == Finals(st.emitted) ||
      exists e :: Finals(after.emitted) == Finals(st.emitted) + [e] &&
        forall f :: f in after.flows ==> e.flow.start <= f.flow.start
  {
    var a := Absorb(st, p);
    UpdateGrowth(st.flows, p, st.created);
    ShownFinals(a);
    EvictsAtMostOne(Shown(a), cap);
  }

  lemma EvictsAtMostOne(st: State, cap: nat)
    requires |st.flows| <= cap + 1
    ensures var after := Evict(st, cap);
      Finals(after.emitted) == Finals(st.emitted) ||
      exists e :: Finals(after.emitted) == Finals(st.emitted) + [e] &&
        forall f :: f in after.flows ==> e.flow.start <= f.flow.start
  {
    if |st.flows| == cap + 1 {
      var i := EvictsTheOldest(st, cap);
      var e := st.flows[i];
      FinalsConcat(st.emitted, [Final(e)]);
      assert [Final(e)][..0] == [] && Finals([Final(e)]) == [e];
      assert forall f :: f in Evict(st, cap).flows ==> e.flow.start <= f.flow.start;
    }
  }

  /** With the deployed bound. */
  lemma DeployedTable(ps: seq<Packet>)
    ensures |Run(ps, MAX_FLOWS).flows| <= 50000
    ensures Groups(Run(ps, MAX_FLOWS).flows, AcceptedOf(ps)) <==> |PairsOf(AcceptedOf(ps))| <= 50000
  {
    TableIsBounded(ps, MAX_FLOWS);
    GroupingIffFewPairs(ps, MAX_FLOWS);
  }

  /* ---- The ingester ---- */

  class Ingester {
    var flows: Flows
    var seen: nat
    var created: nat
    var emitted: seq<Emission>
    const cap: nat

    ghost function Now(): State
      reads this
    {
      State(flows, seen, created, emitted)
    }

    constructor (cap: nat)
      ensures Now() == START && this.cap == cap
    {
      flows, seen, created, emitted := [], 0, 0, [];
      this.cap := cap;
    }

    method UpdateFlow(p: Packet)
      modifies this`flows, this`created
      ensures flows == Update(old(flows), p, old(created))
      ensures created == if |flows| > |old(flows)| then old(created) + 1 else old(created)
    {
      var r := Find(flows, Reversed(KeyOf(p)));
      if r < |flows| {
        var f := flows[r].flow;
        flows := flows[r := flows[r].(
          flow := f.(respPkts := f.respPkts + 1, respBytes := f.respBytes + p.len, duration := p.time - f.start))];
      } else {
        if Find(flows, KeyOf(p)) == |flows| {
          flows := flows + [Entry(KeyOf(p), Flow(p.time, 0, 0, 0, 0, 0.0), created)];
          created := created + 1;
          FindAfterAppend(old(flows), flows[|old(flows)|], KeyOf(p));
        }
        var o := Find(flows, KeyOf(p));
        var f := flows[o].flow;
        flows := flows[o := flows[o].(
          flow := f.(origPkts := f.origPkts + 1, origBytes := f.origBytes + p.len, duration := p.time - f.start))];
      }
    }

    method EvictOldest()
      modifies this`flows, this`emitted
      ensures Now() == Evict(old(Now()), cap)
    {
      while |flows| > cap
        invariant Evict(Now(), cap) == Evict(old(Now()), cap)
        decreases |flows|
      {
        var i := OldestIndex(flows);
        emitted := emitted + [Final(flows[i])];
        flows := flows[..i] + flows[i+1..];
      }
    }

    method Snapshot()
      modifies this`emitted
      ensures Now() == Shown(old(Now()))
    {
      if seen % SNAPSHOT_EVERY == 0 {
        emitted := emitted + Emissions(flows, false);
      }
    }

    method HandlePacket(p: Packet)
      modifies this
      ensures Now() == Handle(old(Now()), p, cap)
    {
      seen := seen + 1;
      if p.len > MAX_PACKET_BYTES || !p.isIp || p.transport.Other? {
        return;
      }
      UpdateFlow(p);
      assert Now() == Absorb(old(Now()), p);
      Snapshot();
      EvictOldest();
    }

    /** The whole capture, with the final flush: the emissions conserve what was accepted. */
    method Ingest(ps: seq<Packet>)
      requires Now() == START
      modifies this
      ensures Now() == Flush(Run(ps, cap))
      ensures Sum(Finals(emitted), PacketsOf) == |AcceptedOf(ps)| &&
        Sum(Finals(emitted), BytesOf) == Bytes(AcceptedOf(ps))
    {
      var k := 0;
      while k < |ps|
        invariant 0 <= k <= |ps| && Now() == Run(ps[..k], cap)
      {
        HandlePacket(ps[k]);
        assert ps[..k+1][..k] == ps[..k];
        k := k + 1;
      }
      assert ps[..k] == ps;
      emitted := emitted + Emissions(flows, true);
      FinalEmissionsConserve(ps, cap);
    }
  }
}
