/** Runs of the inbound system: the invariant is kept by every event, no
    assertion of the source fails, and what this means for PsPIN. */
module InboundRuns {
  import opened AxiBurst
  import opened AxiWrite
  import opened AxiMemory
  import opened InboundBus
  import opened NicInbound
  import opened InboundSystem
  import opened InboundSafety
  import PR = PacketRing

  lemma StartHolds(mem: Memory, c: Cfg)
    ensures Inv(Start(mem), Wit(PR.Layout([], []), []), c)
  {
    assert PR.Good(PR.INIT, PR.Layout([], []), c.cap);
  }

  lemma AddKeeps(s: Sys, w: Wit, p: Packet, c: Cfg)
    requires Inv(s, w, c) && PR.Sizable(|p.data|)
    ensures Inv(AddStep(s, p), w, c)
  {
    AddOrder(s.sent, s.nic.ready + s.nic.queued, s.nic.incoming, s.added, s.contents, c.base, s.nic.hersToSend, p);
  }

  lemma EosKeeps(s: Sys, w: Wit, c: Cfg)
    requires Inv(s, w, c)
    ensures Inv(s.(nic := s.nic.(appSentEos := true)), w, c)
  {}

  lemma DeliverBus(s: Sys, unacked: seq<Owned>, c: Cfg)
    requires BusInv(s, unacked, c) && s.nic.aw != [] && s.nic.w != []
    ensures BusInv(DeliverStep(s), unacked, c)
  {
    var s' := DeliverStep(s);
    DeliverChannels(s.nic.aw, s.nic.w, s.taken, s.owed, unacked, s.mem, s'.nic.aw, s'.taken, s'.owed);
  }

  lemma DeliverKeeps(s: Sys, w: Wit, c: Cfg)
    requires Inv(s, w, c) && s.nic.aw != [] && s.nic.w != []
    ensures Inv(DeliverStep(s), w, c)
  {
    DeliverBus(s, w.unacked, c);
  }

  lemma AckKeeps(s: Sys, w: Wit, c: Cfg)
    requires Inv(s, w, c) && s.owed > 0
    ensures s.nic.writeQueue != []
    ensures Inv(AckStep(s), w.(unacked := w.unacked[1..]), c)
  {
    AckAcks(w.unacked, s.nic);
    assert w.unacked[1..][s.owed - 1..] == w.unacked[s.owed..];
  }

  lemma RespondBus(s: Sys, unacked: seq<Owned>, c: Cfg)
    requires BusInv(s, unacked, c)
    ensures s.nic.bQueue != [] && s.nic.bQueue[0] ==> s.nic.queued != []
    ensures BusInv(RespondStep(s), unacked, c)
  {
    RespondAcks(unacked, s.nic);
  }

  lemma RespondQueues(s: Sys, c: Cfg)
    requires QueueInv(s, c) && (s.nic.bQueue != [] && s.nic.bQueue[0] ==> s.nic.queued != [])
    ensures QueueInv(RespondStep(s), c)
  {
    if s.nic.bQueue != [] && s.nic.bQueue[0] {
      var n' := RespondStep(s).nic;
      assert n'.ready + n'.queued == s.nic.ready + s.nic.queued;
    }
  }

  lemma RespondKeeps(s: Sys, w: Wit, c: Cfg)
    requires Inv(s, w, c)
    ensures s.nic.bQueue != [] && s.nic.bQueue[0] ==> s.nic.queued != []
    ensures Inv(RespondStep(s), w, c)
  {
    RespondBus(s, w.unacked, c);
    RespondQueues(s, c);
  }

  lemma SendQueues(s: Sys, herReady: bool, c: Cfg)
    requires QueueInv(s, c)
    ensures s.nic.ready != [] ==> s.nic.ready[0].addr !in s.nic.pktmap
    ensures QueueInv(SendStep(s, herReady), c)
  {
    var n := s.nic;
    if n.ready != [] {
      var hers := n.ready + n.queued;
      SendHers(hers, n.pktmap, s.out, c);
      assert hers[1..] == n.ready[1..] + n.queued && hers[0] == n.ready[0];
      SendOrder(s.sent, hers, n.incoming, s.added, s.contents, c.base, n.hersToSend);
    }
  }

  lemma SendKeeps(s: Sys, w: Wit, herReady: bool, c: Cfg)
    requires Inv(s, w, c)
    ensures s.nic.ready != [] ==> s.nic.ready[0].addr !in s.nic.pktmap
    ensures Inv(SendStep(s, herReady), w, c)
  {
    SendQueues(s, herReady, c);
  }

  lemma FeedbackBuffer(s: Sys, l: PR.Layout, addr: nat, c: Cfg) returns (l': PR.Layout)
    requires BufferInv(s, l, c) && addr in s.nic.pktmap && Holds(s.out, c, addr, s.nic.pktmap[addr])
    ensures addr - c.base !in s.nic.ring.freed
    ensures BufferInv(FeedbackStep(s, addr, c), l', c)
  {
    var off := addr - c.base;
    l' := PR.ReleaseStepKeeps(RingSys(s), l, off, c.cap);
    FeedbackIsRelease(s, addr, off, c);
  }

  lemma FeedbackIsRelease(s: Sys, addr: nat, off: nat, c: Cfg)
    requires addr in s.nic.pktmap && c.base <= addr && off == addr - c.base
    requires off in s.out && s.out[off] == s.nic.pktmap[addr]
    ensures PR.Step(RingSys(s), PR.Release(off), c.cap) == RingSys(FeedbackStep(s, addr, c))
  {}

  lemma FeedbackBus(s: Sys, unacked: seq<Owned>, addr: nat, c: Cfg)
    requires QueueInv(s, c) && BusInv(s, unacked, c) && addr in s.nic.pktmap && c.base <= addr
    ensures BusInv(FeedbackStep(s, addr, c), unacked, c)
  {
    FeedbackPackets(unacked, s.nic, s.out, addr, c);
    FeedbackMemory(Settled(s.mem, s.taken, s.owed, unacked), s.contents, c.base, addr - c.base);
  }

  lemma FeedbackQueues(s: Sys, addr: nat, c: Cfg)
    requires QueueInv(s, c) && addr in s.nic.pktmap
    ensures Holds(s.out, c, addr, s.nic.pktmap[addr])
    ensures QueueInv(FeedbackStep(s, addr, c), c)
  {
    var hers := s.nic.ready + s.nic.queued;
    FeedbackHers(hers, s.nic.pktmap, s.out, addr, c);
    assert forall h :: h in hers ==> h.addr != addr;
    FeedbackOrder(s.sent, hers, s.nic.incoming, s.added, s.contents, c.base, s.nic.hersToSend, addr - c.base);
  }

  lemma FeedbackKeeps(s: Sys, w: Wit, addr: nat, c: Cfg) returns (w': Wit)
    requires Inv(s, w, c) && addr in s.nic.pktmap
    ensures c.base <= addr && addr - c.base !in s.nic.ring.freed
    ensures Inv(FeedbackStep(s, addr, c), w', c)
  {
    FeedbackQueues(s, addr, c);
    FeedbackBus(s, w.unacked, addr, c);
    var l' := FeedbackBuffer(s, w.layout, addr, c);
    w' := w.(layout := l');
  }

  lemma TailInBuffer(r: PR.Ring, l: PR.Layout, cap: nat)
    requires PR.Tiled(r, l, cap)
    ensures r.tail <= cap
  {
    PR.ChainBounds(l.first, r.head, if r.cut then r.cutPtr else r.tail);
  }

  // ---------- Admitting a packet ----------

  // `s'` is `s` after packet `p` was admitted at `addr`, offset `off`.
  ghost predicate Admitted(s: Sys, s': Sys, c: Cfg, p: Packet, off: nat, addr: nat, n: nat, data: seq<Byte>) {
    && s.nic.incoming != [] && p == s.nic.incoming[0] && data == p.data && n == |data| && addr == c.base + off
    && PR.Allocate(s.nic.ring, PR.Rounded(n), c.cap) == (s'.nic.ring, PR.Some(off))
    && s'.nic.incoming == s.nic.incoming[1..] && s'.nic.ready == s.nic.ready && s'.nic.pktmap == s.nic.pktmap
    && s'.nic.queued == s.nic.queued + [Her(p.id, addr, n)] && s'.nic.hersToSend == s.nic.hersToSend
    && s'.nic.aw == s.nic.aw + AxBeats(Bursts(addr, n)) && s'.nic.w == s.nic.w + DataBeats(addr, data)
    && s'.nic.writeQueue == s.nic.writeQueue + [Pages(addr, n)] && s'.nic.bQueue == s.nic.bQueue
    && s'.mem == s.mem && s'.taken == s.taken && s'.owed == s.owed && s'.sent == s.sent && s'.added == s.added
    && s'.out == s.out[off := n] && s'.contents == s.contents[off := data]
    && s'.admitted == s.admitted + [Her(p.id, addr, n)] && s'.acked == s.acked
    && s'.emptyWrap == (s.emptyWrap || PR.WrapsEmpty(s.nic.ring, PR.Rounded(n), c.cap))
  }

  lemma AdmitBuffer(s: Sys, s': Sys, l: PR.Layout, c: Cfg, p: Packet, off: nat, addr: nat, n: nat, data: seq<Byte>)
    returns (l': PR.Layout)
    requires Admitted(s, s', c, p, off, addr, n, data)
    requires BufferInv(s, l, c) && PR.Sizable(n)
    ensures BufferInv(s', l', c) && off !in s.out
  {
    l' := AdmitRing(RingSys(s), l, c.cap, n, off);
    assert RingSys(s') == PR.Step(RingSys(s), PR.Alloc(n), c.cap);
  }

  lemma AdmitQueues(s: Sys, s': Sys, c: Cfg, p: Packet, off: nat, addr: nat, n: nat, data: seq<Byte>)
    requires Admitted(s, s', c, p, off, addr, n, data)
    requires QueueInv(s, c) && off !in s.out && off !in s.contents
    ensures QueueInv(s', c)
  {
    var her := Her(p.id, addr, n);
    AdmitHers(s.nic.ready + s.nic.queued, s.nic.pktmap, s.out, c, off, her);
    assert s'.nic.ready + s'.nic.queued == s.nic.ready + s.nic.queued + [her];
    AdmitOrder(s.sent, s.nic.ready + s.nic.queued, s.nic.incoming, s.added, s.contents, c.base,
               s.nic.hersToSend, off, her);
  }

  // The bursts issued for the packet, and the memory they lead to.
  lemma AdmitIssue(s: Sys, unacked: seq<Owned>, c: Cfg, off: nat, addr: nat, n: nat, data: seq<Byte>, her: Her)
    returns (more: seq<Owned>, m': Memory)
    requires BusInv(s, unacked, c) && off !in s.out && addr == c.base + off && |data| == n > 0
    requires her.addr == addr
    ensures |more| == Pages(addr, n)
    ensures InPackets(unacked + more, s.out[off := n], c)
    ensures AcksPart(unacked + more, s.nic.writeQueue + [|more|], s.nic.bQueue, Addrs(s.nic.queued + [her]))
    ensures ChannelsPart(s.nic.aw + AxBeats(Bursts(addr, n)), s.nic.w + DataBeats(addr, data),
                         s.taken, s.owed, unacked + more)
    ensures m' == Settled(s.mem, s.taken, s.owed, unacked + more)
    ensures Wrote(Settled(s.mem, s.taken, s.owed, unacked), m', addr, n, data)
  {
    BurstsCarryAll(addr, n);
    TransferWithin(addr, n);
    BurstsCountPages(addr, n);
    var bs := Bursts(addr, n);
    more := OwnedBy(addr, bs, data);
    AdmitPackets(unacked, s.out, c, addr, off, n, bs, data, more, s.out[off := n]);
    AdmitAcks(unacked, s.nic, her, more);
    AdmitChannels(s.nic.aw, s.nic.w, s.taken, s.owed, unacked, s.mem, addr, bs, data, more);
    var m := Settled(s.mem, s.taken, s.owed, unacked);
    m' := ApplyAll(m, PacketOnBus(bs, data));
    AdmitWrote(m, addr, n, data, m');
  }

  lemma AdmitBus(s: Sys, s': Sys, unacked: seq<Owned>, c: Cfg, l': PR.Layout,
                 p: Packet, off: nat, addr: nat, n: nat, data: seq<Byte>) returns (more: seq<Owned>)
    requires Admitted(s, s', c, p, off, addr, n, data) && Aligned(c) && n > 0
    requires BusInv(s, unacked, c) && off !in s.out && BufferInv(s', l', c) && s.contents.Keys == s.out.Keys
    ensures BusInv(s', unacked + more, c)
  {
    var m';
    more, m' := AdmitIssue(s, unacked, c, off, addr, n, data, Her(p.id, addr, n));
    AdmitMemory(Settled(s.mem, s.taken, s.owed, unacked), RingSys(s'), l', s.contents, c.cap, c.base,
                off, addr, n, data, m');
  }

  lemma AdmitSucceeds(s: Sys, s': Sys, w: Wit, c: Cfg,
                      p: Packet, off: nat, addr: nat, n: nat, data: seq<Byte>) returns (w': Wit)
    requires Aligned(c) && Inv(s, w, c) && Admitted(s, s', c, p, off, addr, n, data)
    ensures Inv(s', w', c)
  {
    assert p in s.nic.incoming && PR.Sizable(n);
    var l' := AdmitBuffer(s, s', w.layout, c, p, off, addr, n, data);
    AdmitQueues(s, s', c, p, off, addr, n, data);
    var more := AdmitBus(s, s', w.unacked, c, l', p, off, addr, n, data);
    w' := Wit(l', w.unacked + more);
  }

  // Only the wait has changed.
  function Waited(s: Sys, wait: nat): Sys { s.(nic := s.nic.(wait := wait)) }

  lemma WaitKeeps(s: Sys, w: Wit, c: Cfg, wait: nat)
    requires Inv(s, w, c)
    ensures Inv(Waited(s, wait), w, c)
  {}

  lemma AdmitCases(s: Sys, c: Cfg)
    ensures var off := NicInbound.Admit(s.nic, c.base, c.cap).1;
      if off.None? then AdmitStep(s, c) == Waited(s, AdmitStep(s, c).nic.wait)
      else
        var p := s.nic.incoming[0];
        Admitted(s, AdmitStep(s, c), c, p, off.value, c.base + off.value, |p.data|, p.data)
  {}

  lemma AdmitKeeps(s: Sys, w: Wit, c: Cfg) returns (w': Wit)
    requires Aligned(c) && Inv(s, w, c)
    ensures Inv(AdmitStep(s, c), w', c)
  {
    w' := w;
    AdmitCases(s, c);
    var off := NicInbound.Admit(s.nic, c.base, c.cap).1;
    if off.Some? {
      var p := s.nic.incoming[0];
      w' := AdmitSucceeds(s, AdmitStep(s, c), w, c, p, off.value, c.base + off.value, |p.data|, p.data);
    } else {
      WaitKeeps(s, w, c, AdmitStep(s, c).nic.wait);
    }
  }

  // ---------- Every run ----------

  // The assertions of the source, event by event.
  lemma AckIsSafe(s: Sys, unacked: seq<Owned>, c: Cfg)
    requires BusInv(s, unacked, c) && s.owed > 0
    ensures s.nic.writeQueue != []
  {
    AckAcks(unacked, s.nic);
  }

  lemma FeedbackIsSafe(s: Sys, l: PR.Layout, addr: nat, c: Cfg)
    requires BufferInv(s, l, c) && QueueInv(s, c) && addr in s.nic.pktmap
    ensures c.base <= addr && addr - c.base !in s.nic.ring.freed
  {
    FeedbackQueues(s, addr, c);
    var _ := FeedbackBuffer(s, l, addr, c);
  }

  lemma Safe(s: Sys, w: Wit, e: Event, c: Cfg)
    requires Aligned(c) && Inv(s, w, c) && Enabled(s, e)
    ensures AssertionsHold(s, e, c)
  {
    match e {
      case Admit => TailInBuffer(s.nic.ring, w.layout, c.cap);
      case AckBurst => AckIsSafe(s, w.unacked, c);
      case Respond => RespondBus(s, w.unacked, c);
      case Send(herReady) => SendQueues(s, herReady, c);
      case FeedbackFor(addr) => FeedbackIsSafe(s, w.layout, addr, c);
      case _ =>
    }
  }

  lemma Keeps(s: Sys, w: Wit, e: Event, c: Cfg) returns (w': Wit)
    requires Aligned(c) && Inv(s, w, c) && Enabled(s, e) && AssertionsHold(s, e, c)
    ensures Inv(Step(s, e, c), w', c)
  {
    w' := w;
    match e {
      case AddPacket(p) => AddKeeps(s, w, p, c);
      case SetEos => EosKeeps(s, w, c);
      case Admit => w' := AdmitKeeps(s, w, c);
      case Deliver => DeliverKeeps(s, w, c);
      case AckBurst =>
        AckKeeps(s, w, c);
        w' := w.(unacked := w.unacked[1..]);
      case Respond => RespondKeeps(s, w, c);
      case Send(herReady) => SendKeeps(s, w, herReady, c);
      case FeedbackFor(addr) => w' := FeedbackKeeps(s, w, addr, c);
    }
  }

  // In every run the invariant holds, so no assertion of the source ever fails.
  lemma {:induction false} RunsAreSafe(run: seq<Sys>, es: seq<Event>, c: Cfg, k: nat) returns (w: Wit)
    requires Aligned(c) && IsRun(run, es, c) && k <= |es|
    ensures Inv(run[k], w, c)
    ensures k < |es| ==> AssertionsHold(run[k], es[k], c)
    decreases k
  {
    if k == 0 {
      StartHolds(run[0].mem, c);
      w := Wit(PR.Layout([], []), []);
    } else {
      var w0 := RunsAreSafe(run, es, c, k - 1);
      w := Keeps(run[k - 1], w0, es[k - 1], c);
    }
    if k < |es| {
      Safe(run[k], w, es[k], c);
    }
  }

  // The part of it that says which step a run takes.
  lemma RunStep(run: seq<Sys>, es: seq<Event>, c: Cfg, k: nat)
    requires Aligned(c) && IsRun(run, es, c) && k < |es|
    ensures Enabled(run[k], es[k]) && AssertionsHold(run[k], es[k], c) && run[k + 1] == Step(run[k], es[k], c)
    ensures AllSizable(run[k].nic.incoming)
  {
    var w := RunsAreSafe(run, es, c, k);
  }

  // ---------- What it means ----------

  // A beat in flight can only touch the region of a packet still queued.
  lemma TouchedIsQueued(s: Sys, w: Wit, c: Cfg, a: int) returns (h: Her)
    requires Aligned(c) && Inv(s, w, c) && Touches(Todo(w.unacked[s.owed..], s.taken), a)
    ensures h in s.nic.queued && h.addr <= a < h.addr + PR.Rounded(h.size)
  {
    var obs := w.unacked[s.owed..];
    var i :| 0 <= i < |Todo(obs, s.taken)| && Hits(Todo(obs, s.taken)[i], a);
    assert Hits(Flat(obs)[s.taken + i], a);
    var o := TouchesOwner(obs, a);
    h := QueuedOwner(s, w, c, o, a);
  }

  lemma QueuedOwner(s: Sys, w: Wit, c: Cfg, o: Owned, a: int) returns (h: Her)
    requires Aligned(c) && Inv(s, w, c) && o in w.unacked && Strobes(o.burst, a)
    ensures h in s.nic.queued && h.addr <= a < h.addr + PR.Rounded(h.size)
  {
    var i :| 0 <= i < |w.unacked| && w.unacked[i] == o;
    assert InPacket(w.unacked[i], s.out, c);
    h := OwnerIsQueued(w.unacked, s.nic, o);
    QueuedHolds(s, c, h);
    StrobeAtHer(s, w.layout, c, o, h, a);
  }

  lemma StrobeAtHer(s: Sys, l: PR.Layout, c: Cfg, o: Owned, h: Her, a: int)
    requires Aligned(c) && BufferInv(s, l, c) && InPacket(o, s.out, c) && Strobes(o.burst, a)
    requires h.addr == o.owner && Holds(s.out, c, h.addr, h.size)
    ensures h.addr <= a < h.addr + PR.Rounded(h.size)
  {
    assert RingSys(s).out == s.out;
    StrobesStayInPacket(RingSys(s), l, c, o, h.addr - c.base, h.size, a);
  }

  lemma QueuedHolds(s: Sys, c: Cfg, h: Her)
    requires QueueInv(s, c) && h in s.nic.queued
    ensures Holds(s.out, c, h.addr, h.size)
  {
    assert h in s.nic.ready + s.nic.queued;
  }

  // The packet at `addr` is at PsPIN, or its HER is ready to be sent there.
  predicate Released(s: Sys, addr: nat) {
    addr in s.nic.pktmap || exists i :: 0 <= i < |s.nic.ready| && s.nic.ready[i].addr == addr
  }

  lemma ReleasedIsNotQueued(s: Sys, c: Cfg, addr: nat, h: Her)
    requires QueueInv(s, c) && Released(s, addr) && h in s.nic.queued
    ensures h.addr != addr
  {
    var hers := s.nic.ready + s.nic.queued;
    assert h in hers;
    var j :| 0 <= j < |s.nic.queued| && s.nic.queued[j] == h;
    assert hers[|s.nic.ready| + j] == h;
    if addr !in s.nic.pktmap {
      var i :| 0 <= i < |s.nic.ready| && s.nic.ready[i].addr == addr;
      assert hers[i] == s.nic.ready[i];
    }
  }

  lemma ReleasedHolds(s: Sys, c: Cfg, addr: nat) returns (size: nat)
    requires QueueInv(s, c) && Released(s, addr)
    ensures Holds(s.out, c, addr, size)
  {
    if addr in s.nic.pktmap {
      size := s.nic.pktmap[addr];
    } else {
      var i :| 0 <= i < |s.nic.ready| && s.nic.ready[i].addr == addr;
      assert s.nic.ready[i] in s.nic.ready + s.nic.queued;
      size := s.nic.ready[i].size;
    }
  }

  // Two packets' rounded regions, by address.
  lemma AddressesApart(s: Sys, l: PR.Layout, c: Cfg, a1: nat, n1: nat, a2: nat, n2: nat)
    requires BufferInv(s, l, c) && Holds(s.out, c, a1, n1) && Holds(s.out, c, a2, n2) && a1 != a2
    ensures a1 + PR.Rounded(n1) <= a2 || a2 + PR.Rounded(n2) <= a1
  {
    OutstandingApart(RingSys(s), l, c.cap, a1 - c.base, a2 - c.base);
  }

  // No beat still in flight can touch the region of a released packet.
  lemma ReleasedIsQuiet(s: Sys, w: Wit, c: Cfg, addr: nat, size: nat, a: nat)
    requires Aligned(c) && Inv(s, w, c) && Released(s, addr) && Holds(s.out, c, addr, size)
    requires addr <= a < addr + PR.Rounded(size)
    ensures !Touches(Todo(w.unacked[s.owed..], s.taken), a)
  {
    if Touches(Todo(w.unacked[s.owed..], s.taken), a) {
      var h := TouchedIsQueued(s, w, c, a);
      ReleasedIsNotQueued(s, c, addr, h);
      QueuedHolds(s, c, h);
      AddressesApart(s, w.layout, c, addr, size, h.addr, h.size);
    }
  }
}
