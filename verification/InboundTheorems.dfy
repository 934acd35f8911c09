/** What every run of the inbound system gives PsPIN. */
module InboundTheorems {
  import opened AxiBurst
  import opened AxiWrite
  import opened AxiMemory
  import opened InboundBus
  import opened NicInbound
  import opened InboundSystem
  import opened InboundSafety
  import opened InboundRuns
  import PR = PacketRing

  lemma SettledByte(s: Sys, w: Wit, c: Cfg, addr: nat, off: nat, size: nat, data: seq<Byte>, i: nat, a: nat)
    requires Aligned(c) && Inv(s, w, c) && Released(s, addr) && Holds(s.out, c, addr, size) && i < size
    requires addr == c.base + off && a == addr + i
    requires off in s.contents && data == s.contents[off] && |data| == size
    ensures s.mem(a) == data[i]
  {
    SizeFits(s, w.layout, c, addr, size);
    ReleasedIsQuiet(s, w, c, addr, size, a);
    Untouched(s.mem, Todo(w.unacked[s.owed..], s.taken), a);
    HeldByte(Settled(s.mem, s.taken, s.owed, w.unacked), s.contents, c.base, off, data, i, a);
  }

  lemma HeldByte(m: Memory, contents: map<nat, seq<Byte>>, base: nat, off: nat, data: seq<Byte>, i: nat, a: nat)
    requires HoldsContents(m, contents, base) && off in contents && data == contents[off] && i < |data|
    requires a == base + off + i
    ensures m(a) == data[i]
  {
    assert ByteHeld(m, contents, base, off, i);
  }

  lemma SizeFits(s: Sys, l: PR.Layout, c: Cfg, addr: nat, size: nat)
    requires BufferInv(s, l, c) && Holds(s.out, c, addr, size)
    ensures size <= PR.Rounded(size)
  {
    var _ := RegionOf(RingSys(s), l, c.cap, addr - c.base);
    PR.RoundingCoversExactlySizable(size);
  }

  // The bytes at `addr` are `data`.
  ghost predicate InMemory(m: Memory, addr: nat, data: seq<Byte>) {
    forall i :: 0 <= i < |data| ==> m(addr + i) == data[i]
  }

  lemma ReleasedInMemory(s: Sys, w: Wit, c: Cfg, addr: nat, size: nat, data: seq<Byte>)
    requires Aligned(c) && Inv(s, w, c) && Released(s, addr) && Holds(s.out, c, addr, size)
    requires addr - c.base in s.contents && data == s.contents[addr - c.base]
    ensures |data| == size && InMemory(s.mem, addr, data)
  {
    assert |data| == s.out[addr - c.base];
    forall i | 0 <= i < |data|
      ensures s.mem(addr + i) == data[i]
    {
      SettledByte(s, w, c, addr, addr - c.base, size, data, i, addr + i);
    }
  }

  // A packet whose write was acknowledged is in memory, byte for byte, from
  // then until its feedback, whatever else is allocated, freed or in flight.
  lemma ReleasedPacketsAreInMemory(run: seq<Sys>, es: seq<Event>, c: Cfg, k: nat, addr: nat)
    requires Aligned(c) && IsRun(run, es, c) && k <= |es| && Released(run[k], addr)
    ensures c.base <= addr && addr - c.base in run[k].contents
    ensures InMemory(run[k].mem, addr, run[k].contents[addr - c.base])
  {
    var w := RunsAreSafe(run, es, c, k);
    var size := ReleasedHolds(run[k], c, addr);
    ReleasedInMemory(run[k], w, c, addr, size, run[k].contents[addr - c.base]);
  }

  lemma FirstReadyServes(s: Sys, c: Cfg, her: Her)
    requires QueueInv(s, c) && s.nic.ready != [] && her == s.nic.ready[0]
    ensures |s.sent| < |s.added|
    ensures Serves(her, s.added[|s.sent|], s.contents, c.base) && Released(s, her.addr)
  {
    var hers := s.nic.ready + s.nic.queued;
    assert hers[0] == her && Serves(hers[0], s.added[|s.sent| + 0], s.contents, c.base);
    assert s.nic.ready[0].addr == her.addr;
  }

  lemma FirstReadyInMemory(s: Sys, w: Wit, c: Cfg, her: Her)
    requires Aligned(c) && Inv(s, w, c) && s.nic.ready != [] && her == s.nic.ready[0]
    ensures |s.sent| < |s.added|
    ensures her.id == s.added[|s.sent|].id && her.size == |s.added[|s.sent|].data|
    ensures InMemory(s.mem, her.addr, s.added[|s.sent|].data)
  {
    FirstReadyServes(s, c, her);
    var size := ReleasedHolds(s, c, her.addr);
    ReleasedInMemory(s, w, c, her.addr, size, s.added[|s.sent|].data);
  }

  // The n-th HER sent to PsPIN is that of the n-th packet added, and when it is
  // sent the memory at its address holds exactly that packet.
  lemma SentHerPointsAtItsPacket(run: seq<Sys>, es: seq<Event>, c: Cfg, k: nat, her: Her)
    requires Aligned(c) && IsRun(run, es, c) && k < |es| && es[k] == Send(true)
    requires run[k].nic.ready != [] && her == run[k].nic.ready[0]
    ensures |run[k].sent| < |run[k].added| && run[k + 1].sent == run[k].sent + [her.id]
    ensures her.id == run[k].added[|run[k].sent|].id && her.size == |run[k].added[|run[k].sent|].data|
    ensures InMemory(run[k].mem, her.addr, run[k].added[|run[k].sent|].data)
  {
    RunStep(run, es, c, k);
    SendRecords(run[k], c, her);
    var w := RunsAreSafe(run, es, c, k);
    FirstReadyInMemory(run[k], w, c, her);
  }

  lemma SendRecords(s: Sys, c: Cfg, her: Her)
    requires s.nic.ready != [] && her == s.nic.ready[0] && AssertionsHold(s, Send(true), c)
    ensures Step(s, Send(true), c).sent == s.sent + [her.id]
  {}

  // Ids leave in the order in which packets were added.
  lemma HersLeaveInOrder(run: seq<Sys>, es: seq<Event>, c: Cfg, k: nat)
    requires Aligned(c) && IsRun(run, es, c) && k <= |es|
    ensures |run[k].sent| <= |run[k].added|
    ensures forall j :: 0 <= j < |run[k].sent| ==> run[k].sent[j] == run[k].added[j].id
  {
    var w := RunsAreSafe(run, es, c, k);
  }

  // No byte of a released packet's region, padding included, ever changes
  // before its feedback.
  lemma ReleasedRegionsAreStable(run: seq<Sys>, es: seq<Event>, c: Cfg, k: nat, addr: nat, size: nat, a: nat)
    requires Aligned(c) && IsRun(run, es, c) && k < |es| && Released(run[k], addr)
    requires Holds(run[k].out, c, addr, size) && addr <= a < addr + PR.Rounded(size)
    ensures run[k + 1].mem(a) == run[k].mem(a)
  {
    var s := run[k];
    var w := RunsAreSafe(run, es, c, k);
    if es[k].Deliver? {
      ReleasedIsQuiet(s, w, c, addr, size, a);
      DeliverQuiet(s, w, a);
    }
  }

  lemma DeliverQuiet(s: Sys, w: Wit, a: int)
    requires ChannelsPart(s.nic.aw, s.nic.w, s.taken, s.owed, w.unacked) && s.nic.aw != [] && s.nic.w != []
    requires !Touches(Todo(w.unacked[s.owed..], s.taken), a)
    ensures DeliverStep(s).mem(a) == s.mem(a)
  {
    QuietBeat(s.nic.aw, s.nic.w, w.unacked[s.owed..], s.taken, a);
    ApplyMiss(s.mem, SlaveBeat(s.nic.aw, s.nic.w, s.taken), a);
  }

  lemma ApplyMiss(m: Memory, beat: MemBeat, a: int)
    requires !Hits(beat, a)
    ensures Apply(m, beat)(a) == m(a)
  {}

  lemma QuietBeat(aw: seq<AxBeat>, w: seq<WBeat>, obs: seq<Owned>, taken: nat, a: int)
    requires OnChannels(aw, w, obs, taken) && aw != [] && w != [] && !Touches(Todo(obs, taken), a)
    ensures !Hits(SlaveBeat(aw, w, taken), a)
  {
    TakeBeat(aw, w, obs, taken);
    assert !Hits(Todo(obs, taken)[0], a);
  }

  // A delivered beat changes memory only inside the region of a packet whose
  // write is still unacknowledged.
  lemma DeliveredBeatsStayHome(run: seq<Sys>, es: seq<Event>, c: Cfg, k: nat, a: int)
    requires Aligned(c) && IsRun(run, es, c) && k < |es| && run[k + 1].mem(a) != run[k].mem(a)
    ensures exists h :: h in run[k].nic.queued && h.addr <= a < h.addr + PR.Rounded(h.size)
  {
    var s := run[k];
    var w := RunsAreSafe(run, es, c, k);
    if es[k].Deliver? && !Touches(Todo(w.unacked[s.owed..], s.taken), a) {
      DeliverQuiet(s, w, a);
    }
    if Touches(Todo(w.unacked[s.owed..], s.taken), a) {
      var h := TouchedIsQueued(s, w, c, a);
    }
  }

  // ---------- Counters ----------

  lemma TailApart(rs: seq<PR.Region>)
    requires rs != [] && PR.PairwiseApart(rs)
    ensures PR.PairwiseApart(rs[1..])
    ensures forall g :: g in rs[1..] ==> PR.Apart(rs[0], g)
  {
    forall i, j | 0 <= i < j < |rs[1..]|
      ensures PR.Apart(rs[1..][i], rs[1..][j])
    {
      assert PR.Apart(rs[i + 1], rs[j + 1]);
    }
    forall g | g in rs[1..]
      ensures PR.Apart(rs[0], g)
    {
      var i :| 0 <= i < |rs[1..]| && rs[1..][i] == g;
      assert PR.Apart(rs[0], rs[i + 1]);
    }
  }

  lemma {:induction false} DistinctOffsets(rs: seq<PR.Region>)
    requires PR.PairwiseApart(rs) && forall g :: g in rs ==> 0 < g.len
    ensures |PR.Offsets(rs)| == |rs|
    decreases |rs|
  {
    if rs != [] {
      var rest := rs[1..];
      TailApart(rs);
      DistinctOffsets(rest);
      assert rs == [rs[0]] + rest && rs[0] in rs;
      assert rs[0].off !in PR.Offsets(rest);
      assert PR.Offsets(rs) == {rs[0].off} + PR.Offsets(rest);
    }
  }

  // in_flight_packets counts the outstanding packets and the pending frees.
  lemma InFlightCounts(r: PR.Sys, l: PR.Layout, cap: nat)
    requires PR.Good(r, l, cap)
    ensures r.ring.inFlight == |r.out| + |r.ring.freed|
  {
    PR.RegionsAreSafe(r.ring, l, cap);
    DistinctOffsets(l.All());
    var offs := PR.Offsets(l.All());
    forall o | o in offs
      ensures (o in r.out) != (o in r.ring.freed)
    {
      var g :| g in l.All() && g.off == o;
    }
    assert r.out.Keys !! r.ring.freed.Keys;
    assert offs == r.out.Keys + r.ring.freed.Keys;
    assert |r.out.Keys| == |r.out| && |r.ring.freed.Keys| == |r.ring.freed|;
  }

  lemma CountersAgree(run: seq<Sys>, es: seq<Event>, c: Cfg, k: nat)
    requires Aligned(c) && IsRun(run, es, c) && k <= |es|
    ensures var n := run[k].nic;
      && n.hersToSend == |n.incoming| + |n.queued| + |n.ready|
      && n.ring.inFlight == |n.queued| + |n.ready| + |n.pktmap| + |n.ring.freed|
  {
    var w := RunsAreSafe(run, es, c, k);
    InFlightCounts(RingSys(run[k]), w.layout, c.cap);
  }

  // End of stream is raised only by the HER of the last packet added.
  lemma EosComesLast(run: seq<Sys>, es: seq<Event>, c: Cfg, k: nat)
    requires Aligned(c) && IsRun(run, es, c) && k < |es| && !run[k].nic.eos && run[k + 1].nic.eos
    ensures run[k].nic.appSentEos && es[k] == Send(true)
    ensures |run[k + 1].sent| == |run[k + 1].added| == |run[k].sent| + 1
    ensures run[k + 1].nic.incoming == [] && run[k + 1].nic.queued == [] && run[k + 1].nic.ready == []
  {
    var w := RunsAreSafe(run, es, c, k);
    assert run[k + 1] == Step(run[k], es[k], c);
    EosByStep(run[k], es[k], c);
    SendQueues(run[k], true, c);
  }

  // A HER is sent that is the last one to send, after set_eos.
  predicate SendsLast(s: Sys, e: Event) {
    e == Send(true) && s.nic.ready != [] && s.nic.hersToSend == 1 && s.nic.appSentEos
  }

  lemma EosByStep(s: Sys, e: Event, c: Cfg)
    requires Enabled(s, e) && AssertionsHold(s, e, c)
    ensures Step(s, e, c).nic.eos <==> s.nic.eos || SendsLast(s, e)
  {}

  // Main result: end of stream is up exactly when some HER was sent as the last one to
  // send after set_eos.
  lemma {:induction false} EosExactly(run: seq<Sys>, es: seq<Event>, c: Cfg, k: nat)
    requires Aligned(c) && IsRun(run, es, c) && k <= |es|
    ensures run[k].nic.eos <==> exists j :: 0 <= j < k && SendsLast(run[j], es[j])
    decreases k
  {
    if k > 0 {
      EosExactly(run, es, c, k - 1);
      RunStep(run, es, c, k - 1);
      EosByStep(run[k - 1], es[k - 1], c);
    }
  }

  // So a set_eos that comes when nothing is left to send has no effect: unless another
  // packet is added, end of stream never rises.
  lemma {:induction false} LateEosIsLost(run: seq<Sys>, es: seq<Event>, c: Cfg, i: nat, k: nat)
    requires Aligned(c) && IsRun(run, es, c) && i <= k <= |es|
    requires run[i].nic.hersToSend == 0 && !run[i].nic.eos
    requires forall j :: i <= j < k ==> !es[j].AddPacket?
    ensures run[k].nic.hersToSend == 0 && !run[k].nic.eos
    decreases k
  {
    if i < k {
      LateEosIsLost(run, es, c, i, k - 1);
      CountersAgree(run, es, c, k - 1);
      RunStep(run, es, c, k - 1);
      EosByStep(run[k - 1], es[k - 1], c);
      HersOnlyAdded(run[k - 1], es[k - 1], c);
    }
  }

  lemma HersOnlyAdded(s: Sys, e: Event, c: Cfg)
    requires Enabled(s, e) && AssertionsHold(s, e, c) && !e.AddPacket? && s.nic.ready == []
    ensures Step(s, e, c).nic.hersToSend == s.nic.hersToSend
  {}
}
