/** What the ingester emits while a capture runs: the periodic records of the flows it holds
    (ingest/pcap_ingester.py). */
module FlowOutput {
  import opened FlowTable

  /** The records emitted while the flow goes on, in order. */
  function Shows(es: seq<Emission>): seq<Entry> {
    if es == [] then []
    else Shows(es[..|es|-1]) + if es[|es|-1].Snapshot? then [es[|es|-1].entry] else []
  }

  /** What the table holds once the `k`-th packet is counted, before anything is evicted. */
  function HeldAt(ps: seq<Packet>, cap: nat, k: nat): Flows
    requires 0 < k <= |ps|
  {
    var before := Run(ps[..k-1], cap);
    Update(before.flows, ps[k-1], before.created)
  }

  /** Due at every 500th packet, skipped ones counted, unless it is itself skipped. */
  predicate Due(ps: seq<Packet>, k: nat)
    requires 0 < k <= |ps|
  {
    k % 500 == 0 && Accepted(ps[k-1])
  }

  /** One block per packet that is due, among the first `n`. */
  function Blocks(ps: seq<Packet>, cap: nat, n: nat): seq<Flows>
    requires n <= |ps|
  {
    if n == 0 then []
    else if Due(ps, n) then Blocks(ps, cap, n - 1) + [HeldAt(ps, cap, n)]
    else Blocks(ps, cap, n - 1)
  }

  function Joined(blocks: seq<Flows>): seq<Entry> {
    if blocks == [] then [] else Joined(blocks[..|blocks|-1]) + blocks[|blocks|-1]
  }

  lemma {:induction false} ShowsConcat(a: seq<Emission>, b: seq<Emission>)
    ensures Shows(a + b) == Shows(a) + Shows(b)
  {
    if b == [] {
      assert a + b == a;
    } else {
      assert (a + b)[..|a + b|-1] == a + b[..|b|-1];
      ShowsConcat(a, b[..|b|-1]);
    }
  }

  lemma {:induction false} ShowsOfEmissions(fs: Flows, final: bool)
    ensures Shows(Emissions(fs, final)) == if final then [] else fs
  {
    if fs == [] {
    } else {
      var init := fs[..|fs|-1];
      assert Emissions(fs, final)[..|fs|-1] == Emissions(init, final);
      ShowsOfEmissions(init, final);
      assert fs == init + [fs[|fs|-1]];
    }
  }

  lemma {:induction false} EvictShowsNothing(st: State, cap: nat)
    ensures Shows(Evict(st, cap).emitted) == Shows(st.emitted) && Evict(st, cap).seen == st.seen
    decreases |st.flows|
  {
    if |st.flows| <= cap {
    } else {
      var i := OldestIndex(st.flows);
      assert (st.emitted + [Final(st.flows[i])])[..|st.emitted|] == st.emitted;
      EvictShowsNothing(
        st.(flows := st.flows[..i] + st.flows[i+1..], emitted := st.emitted + [Final(st.flows[i])]), cap);
    }
  }

  lemma ShownShows(st: State)
    ensures Shown(st).seen == st.seen
    ensures Shows(Shown(st).emitted) == if st.seen % 500 == 0 then Shows(st.emitted) + st.flows else Shows(st.emitted)
  {
    ShowsConcat(st.emitted, Emissions(st.flows, false));
    ShowsOfEmissions(st.flows, false);
  }

  lemma HandleShows(st: State, p: Packet, cap: nat)
    ensures Handle(st, p, cap).seen == st.seen + 1
    ensures Shows(Handle(st, p, cap).emitted) ==
      if Accepted(p) && (st.seen + 1) % 500 == 0 then Shows(st.emitted) + Update(st.flows, p, st.created)
      else Shows(st.emitted)
  {
    if Accepted(p) {
      EvictShowsNothing(Shown(Absorb(st, p)), cap);
      ShownShows(Absorb(st, p));
    }
  }

  lemma JoinedSnoc(blocks: seq<Flows>, b: Flows)
    ensures Joined(blocks + [b]) == Joined(blocks) + b
  {
    assert (blocks + [b])[..|blocks|] == blocks;
  }

  lemma LastHandled(ps: seq<Packet>, cap: nat, n: nat)
    requires 0 < n <= |ps|
    ensures Run(ps[..n], cap) == Handle(Run(ps[..n-1], cap), ps[n-1], cap)
  {
    assert ps[..n][..n-1] == ps[..n-1];
  }

  /** Over any capture the packets are all counted, and the records emitted before the flows end are
      exactly one block for each packet that is due, in order, with every flow held at that packet. */
  lemma {:induction false} SnapshotsAreBlocks(ps: seq<Packet>, cap: nat, n: nat)
    requires n <= |ps|
    ensures Run(ps[..n], cap).seen == n && Shows(Run(ps[..n], cap).emitted) == Joined(Blocks(ps, cap, n))
  {
    if n == 0 {
    } else {
      SnapshotsAreBlocks(ps, cap, n - 1);
      LastHandled(ps, cap, n);
      HandleShows(Run(ps[..n-1], cap), ps[n-1], cap);
      JoinedSnoc(Blocks(ps, cap, n - 1), HeldAt(ps, cap, n));
    }
  }

  /** The flush at the end adds none. */
  lemma IngestShowsBlocks(ps: seq<Packet>, cap: nat)
    ensures Flush(Run(ps, cap)).seen == |ps|
    ensures Shows(Flush(Run(ps, cap)).emitted) == Joined(Blocks(ps, cap, |ps|))
  {
    assert ps[..|ps|] == ps;
    SnapshotsAreBlocks(ps, cap, |ps|);
    var st := Run(ps, cap);
    ShowsConcat(st.emitted, Emissions(st.flows, true));
    ShowsOfEmissions(st.flows, true);
  }

  /** As long as at most `cap` pairs were seen, a block is the grouping of the packets accepted so far. */
  lemma BlockIsGrouping(ps: seq<Packet>, cap: nat, k: nat)
    requires 0 < k <= |ps| && Due(ps, k) && |PairsOf(AcceptedOf(ps[..k-1]))| <= cap
    ensures Groups(HeldAt(ps, cap, k), AcceptedOf(ps[..k]))
  {
    assert ps[..k][..k-1] == ps[..k-1];
    GroupingIffFewPairs(ps[..k-1], cap);
    UpdateGroups(Run(ps[..k-1], cap).flows, AcceptedOf(ps[..k-1]), ps[k-1], Run(ps[..k-1], cap).created);
  }

  /* ---- Which packets count ---- */

  /** An IP packet over TCP or UDP of at most 65535 bytes. */
  predicate Ordinary(p: Packet) {
    p.isIp && (p.transport.Tcp? || p.transport.Udp?) && p.len <= 65535
  }

  lemma {:induction false} OrdinaryAreAccepted(ps: seq<Packet>)
    requires forall p :: p in ps ==> Ordinary(p)
    ensures AcceptedOf(ps) == ps
  {
    if ps == [] {
    } else {
      var init, p := ps[..|ps|-1], ps[|ps|-1];
      assert p in ps && forall x :: x in init ==> x in ps;
      OrdinaryAreAccepted(init);
      assert ps == init + [p];
    }
  }

  lemma {:induction false} OthersAreSkipped(ps: seq<Packet>)
    requires forall p :: p in ps ==> !Ordinary(p)
    ensures AcceptedOf(ps) == []
  {
    if ps == [] {
    } else {
      var init, p := ps[..|ps|-1], ps[|ps|-1];
      assert p in ps && forall x :: x in init ==> x in ps;
      OthersAreSkipped(init);
    }
  }

  /** A capture of ordinary packets is emitted in full, and one without any not at all. */
  lemma OrdinaryCaptureIsEmitted(ps: seq<Packet>, cap: nat)
    ensures var out := Finals(Flush(Run(ps, cap)).emitted);
      && ((forall p :: p in ps ==> Ordinary(p)) ==> Sum(out, PacketsOf) == |ps| && Sum(out, BytesOf) == Bytes(ps))
      && ((forall p :: p in ps ==> !Ordinary(p)) ==> Sum(out, PacketsOf) == 0 && Sum(out, BytesOf) == 0)
  {
    FinalEmissionsConserve(ps, cap);
    if forall p :: p in ps ==> Ordinary(p) {
      OrdinaryAreAccepted(ps);
    }
    if forall p :: p in ps ==> !Ordinary(p) {
      OthersAreSkipped(ps);
    }
  }

  /* ---- Whose flow it is ---- */

  /** Some accepted packet began the flow: it went from the flow's first endpoint to its second at the
      flow's start. */
  ghost predicate Begun(acc: seq<Packet>, e: Entry) {
    exists p :: p in acc && p.src == e.key.src && p.dst == e.key.dst && p.transport == e.key.proto &&
      p.time == e.flow.start
  }

  ghost predicate AllBegun(acc: seq<Packet>, st: State) {
    && (forall i :: 0 <= i < |st.flows| ==> Begun(acc, st.flows[i]))
    && (forall i :: 0 <= i < |st.emitted| ==> Begun(acc, st.emitted[i].entry))
  }

  lemma BegunSnoc(acc: seq<Packet>, p: Packet, st: State)
    requires AllBegun(acc, st)
    ensures AllBegun(acc + [p], st)
  {
    forall e | Begun(acc, e) ensures Begun(acc + [p], e) {
      var q :| q in acc && q.src == e.key.src && q.dst == e.key.dst && q.transport == e.key.proto &&
        q.time == e.flow.start;
      assert q in acc + [p];
    }
  }

  lemma UpdateBegun(acc: seq<Packet>, fs: Flows, p: Packet, birth: nat)
    requires forall i :: 0 <= i < |fs| ==> Begun(acc, fs[i])
    requires p in acc
    ensures forall i :: 0 <= i < |Update(fs, p, birth)| ==> Begun(acc, Update(fs, p, birth)[i])
  {
    var gs := Update(fs, p, birth);
    forall i | 0 <= i < |gs| ensures Begun(acc, gs[i]) {
      if i < |fs| {
        assert Begun(acc, fs[i]) && gs[i].key == fs[i].key && gs[i].flow.start == fs[i].flow.start;
      }
    }
  }

  lemma {:induction false} EvictBegun(acc: seq<Packet>, st: State, cap: nat)
    requires AllBegun(acc, st)
    ensures AllBegun(acc, Evict(st, cap))
    decreases |st.flows|
  {
    if |st.flows| <= cap {
    } else {
      var i := OldestIndex(st.flows);
      var next := st.(flows := st.flows[..i] + st.flows[i+1..], emitted := st.emitted + [Final(st.flows[i])]);
      assert forall j :: 0 <= j < |next.flows| ==> next.flows[j] == st.flows[if j < i then j else j + 1];
      EvictBegun(acc, next, cap);
    }
  }

  lemma HandleBegun(acc: seq<Packet>, st: State, p: Packet, cap: nat)
    requires AllBegun(acc, st) && Accepted(p) && p in acc
    ensures AllBegun(acc, Handle(st, p, cap))
  {
    UpdateBegun(acc, st.flows, p, st.created);
    EvictBegun(acc, Shown(Absorb(st, p)), cap);
  }

  lemma {:induction false} RunBegun(ps: seq<Packet>, cap: nat)
    ensures AllBegun(AcceptedOf(ps), Run(ps, cap))
  {
    if ps == [] {
    } else {
      var init, p := ps[..|ps|-1], ps[|ps|-1];
      RunBegun(init, cap);
      AcceptedSnoc(ps);
      if Accepted(p) {
        BegunSnoc(AcceptedOf(init), p, Run(init, cap));
        HandleBegun(AcceptedOf(init) + [p], Run(init, cap), p, cap);
      }
    }
  }

  /** Whatever is emitted, on the way or at the end, evictions or not, was begun by an accepted packet: that
      packet's source is the flow's first endpoint, and its time the flow's start. */
  lemma EveryEmissionWasBegun(ps: seq<Packet>, cap: nat, i: nat)
    requires i < |Flush(Run(ps, cap)).emitted|
    ensures Begun(AcceptedOf(ps), Flush(Run(ps, cap)).emitted[i].entry)
  {
    RunBegun(ps, cap);
  }
}
