/** What holds in every reachable state of the inbound system. */
module InboundSafety {
  import opened AxiBurst
  import opened AxiWrite
  import opened AxiMemory
  import opened InboundBus
  import opened NicInbound
  import opened InboundSystem
  import PR = PacketRing

  // ---------- Regions and strobes ----------

  lemma RegionOf(r: PR.Sys, l: PR.Layout, cap: nat, o: nat) returns (i: nat)
    requires PR.Good(r, l, cap) && o in r.out
    ensures i < |l.All()| && l.All()[i] == PR.Region(o, PR.Rounded(r.out[o]))
    ensures o % PR.ALIGNMENT == 0 && PR.Sizable(r.out[o]) && o + PR.Rounded(r.out[o]) <= cap
  {
    PR.RegionsAreSafe(r.ring, l, cap);
    var g :| g in l.All() && g.off == o;
    i :| 0 <= i < |l.All()| && l.All()[i] == g;
  }

  // Outstanding packets have disjoint regions, each at least as large as its packet.
  lemma OutstandingApart(r: PR.Sys, l: PR.Layout, cap: nat, o1: nat, o2: nat)
    requires PR.Good(r, l, cap) && o1 in r.out && o2 in r.out && o1 != o2
    ensures o1 + PR.Rounded(r.out[o1]) <= o2 || o2 + PR.Rounded(r.out[o2]) <= o1
  {
    PR.RegionsAreSafe(r.ring, l, cap);
    var i := RegionOf(r, l, cap, o1);
    var j := RegionOf(r, l, cap, o2);
    assert if i < j then PR.Apart(l.All()[i], l.All()[j]) else PR.Apart(l.All()[j], l.All()[i]);
  }

  // The line that holds the last byte ends inside the rounded region.
  lemma LineEndInRegion(owner: nat, size: nat, last: nat)
    requires owner % PR.ALIGNMENT == 0 && PR.Sizable(size) && owner <= last < owner + size
    ensures LineOf(last) + BUS_BYTES <= owner + PR.Rounded(size)
  {
    PR.RoundingCoversExactlySizable(size);
    assert (owner + PR.Rounded(size)) % BUS_BYTES == 0;
  }

  lemma StrobesStayInRegion(b: Burst, owner: nat, size: nat)
    requires Legal(b) && owner % PR.ALIGNMENT == 0 && PR.Sizable(size)
    requires owner <= b.ax.addr && End(b) <= owner + size
    ensures CoverEnd(b) <= owner + PR.Rounded(size)
  {
    StrobesInsideLines(b);
    LineEndInRegion(owner, size, End(b) - 1);
  }

  lemma PadStaysInRegion(addr: nat, n: nat)
    requires addr % PR.ALIGNMENT == 0 && PR.Sizable(n)
    ensures PadEnd(addr, n) <= addr + PR.Rounded(n)
  {
    PadStaysInLine(addr, n);
    LineEndInRegion(addr, n, addr + n - 1);
  }

  // The strobes of an unacknowledged burst stay in its packet's region.
  lemma StrobesStayInPacket(r: PR.Sys, l: PR.Layout, c: Cfg, o: Owned, off: nat, size: nat, a: int)
    requires Aligned(c) && PR.Good(r, l, c.cap) && InPacket(o, r.out, c) && Strobes(o.burst, a)
    requires off == o.owner - c.base && size == r.out[off]
    ensures o.owner <= a < o.owner + PR.Rounded(size)
  {
    var _ := RegionOf(r, l, c.cap, off);
    AlignedSum(c.base, off, o.owner);
    StrobesStayInRegion(o.burst, o.owner, size);
  }

  lemma AlignedSum(base: nat, off: nat, addr: nat)
    requires base % PR.ALIGNMENT == 0 && off % PR.ALIGNMENT == 0 && addr == base + off
    ensures addr % PR.ALIGNMENT == 0
  {}

  // ---------- Pieces of the steps ----------

  lemma {:induction false} CompletionsAppend(bQueue: seq<bool>, b: bool)
    ensures Completions(bQueue + [b]) == Completions(bQueue) + (if b then 1 else 0)
    decreases |bQueue|
  {
    if bQueue == [] {
      assert (bQueue + [b])[1..] == [];
    } else {
      assert (bQueue + [b])[1..] == bQueue[1..] + [b];
      CompletionsAppend(bQueue[1..], b);
    }
  }

  lemma AckAcks(unacked: seq<Owned>, n: Nic)
    requires unacked != [] && AcksPart(unacked, n.writeQueue, n.bQueue, Addrs(n.queued))
    ensures n.writeQueue != []
    ensures AcksPart(unacked[1..], AcceptB(n).writeQueue, AcceptB(n).bQueue, Addrs(n.queued))
  {
    var k := Completions(n.bQueue);
    var owners := Addrs(n.queued)[k..];
    AckOne(unacked, n.writeQueue, owners);
    var complete := AcceptB(n).bQueue[|n.bQueue|];
    CompletionsAppend(n.bQueue, complete);
    if complete {
      assert owners[1..] == Addrs(n.queued)[k + 1..];
    }
  }

  lemma RespondAcks(unacked: seq<Owned>, n: Nic)
    requires AcksPart(unacked, n.writeQueue, n.bQueue, Addrs(n.queued))
    ensures n.bQueue != [] && n.bQueue[0] ==> n.queued != []
    ensures AcksPart(unacked, n.writeQueue, NicInbound.Respond(n).bQueue, Addrs(NicInbound.Respond(n).queued))
  {
    if n.bQueue != [] && n.bQueue[0] {
      assert Addrs(n.queued[1..])[Completions(n.bQueue) - 1..] == Addrs(n.queued)[Completions(n.bQueue)..];
    }
  }

  lemma SendOrder(sent: seq<nat>, hers: seq<Her>, incoming: seq<Packet>, added: seq<Packet>,
                  contents: map<nat, seq<Byte>>, base: nat, hersToSend: int)
    requires OrderPart(sent, hers, incoming, added, contents, base, hersToSend) && hers != []
    ensures Serves(hers[0], added[|sent|], contents, base)
    ensures OrderPart(sent + [hers[0].id], hers[1..], incoming, added, contents, base, hersToSend - 1)
  {
    assert Serves(hers[0], added[|sent| + 0], contents, base);
    forall j | 0 <= j < |hers[1..]|
      ensures Serves(hers[1..][j], added[|sent| + 1 + j], contents, base)
    {
      assert Serves(hers[j + 1], added[|sent| + (j + 1)], contents, base);
    }
  }

  lemma SendHers(hers: seq<Her>, pktmap: map<nat, nat>, out: map<nat, nat>, c: Cfg)
    requires HersPart(hers, pktmap, out, c) && hers != []
    ensures hers[0].addr !in pktmap
    ensures HersPart(hers[1..], pktmap[hers[0].addr := hers[0].size], out, c)
  {
    var her, rest := hers[0], hers[1..];
    assert her in hers;
    forall h | h in rest
      ensures h in hers && h.addr != her.addr
    {
      var i :| 0 <= i < |rest| && rest[i] == h;
      assert hers[i + 1] == h;
    }
    assert forall i :: 0 <= i < |rest| ==> rest[i] == hers[i + 1];
    assert pktmap[her.addr := her.size].Keys == pktmap.Keys + {her.addr};
  }

  lemma FeedbackHers(hers: seq<Her>, pktmap: map<nat, nat>, out: map<nat, nat>, addr: nat, c: Cfg)
    requires HersPart(hers, pktmap, out, c) && addr in pktmap
    ensures c.base <= addr && addr - c.base in out && out[addr - c.base] == pktmap[addr]
    ensures HersPart(hers, pktmap - {addr}, out - {addr - c.base}, c)
  {
    assert Holds(out, c, addr, pktmap[addr]);
    PR.SmallerFreed(out, addr - c.base);
    PR.SmallerFreed(pktmap, addr);
  }

  lemma AdmitHers(hers: seq<Her>, pktmap: map<nat, nat>, out: map<nat, nat>, c: Cfg, off: nat, her: Her)
    requires HersPart(hers, pktmap, out, c) && off !in out && her.addr == c.base + off
    ensures HersPart(hers + [her], pktmap, out[off := her.size], c)
  {
    var hers', out' := hers + [her], out[off := her.size];
    assert |out'| == |out| + 1 by {
      assert out'.Keys == out.Keys + {off};
    }
    forall h | h in hers
      ensures Holds(out', c, h.addr, h.size) && h.addr != her.addr
    {
      StillHolds(out, c, h.addr, h.size, off, her.size);
    }
    forall a | a in pktmap
      ensures Holds(out', c, a, pktmap[a]) && a != her.addr
    {
      StillHolds(out, c, a, pktmap[a], off, her.size);
    }
    AppendDistinct(hers, her);
    assert forall h :: h in hers' ==> h in hers || h == her;
  }

  lemma StillHolds(out: map<nat, nat>, c: Cfg, a: nat, size: nat, off: nat, n: nat)
    requires Holds(out, c, a, size) && off !in out
    ensures Holds(out[off := n], c, a, size) && a != c.base + off
  {}

  lemma AppendDistinct(hers: seq<Her>, her: Her)
    requires DistinctAddrs(hers) && forall h :: h in hers ==> h.addr != her.addr
    ensures DistinctAddrs(hers + [her])
  {}

  lemma AdmitOrder(sent: seq<nat>, hers: seq<Her>, incoming: seq<Packet>, added: seq<Packet>,
                   contents: map<nat, seq<Byte>>, base: nat, hersToSend: int, off: nat, her: Her)
    requires OrderPart(sent, hers, incoming, added, contents, base, hersToSend) && incoming != []
    requires off !in contents
    requires her == Her(incoming[0].id, base + off, |incoming[0].data|)
    ensures OrderPart(sent, hers + [her], incoming[1..], added, contents[off := incoming[0].data], base, hersToSend)
  {
    var contents', hers' := contents[off := incoming[0].data], hers + [her];
    assert incoming[0] == added[|sent| + |hers|];
    forall j | 0 <= j < |hers'|
      ensures Serves(hers'[j], added[|sent| + j], contents', base)
    {
      if j < |hers| {
        assert Serves(hers[j], added[|sent| + j], contents, base);
      }
    }
  }

  lemma AddOrder(sent: seq<nat>, hers: seq<Her>, incoming: seq<Packet>, added: seq<Packet>,
                 contents: map<nat, seq<Byte>>, base: nat, hersToSend: int, p: Packet)
    requires OrderPart(sent, hers, incoming, added, contents, base, hersToSend)
    ensures OrderPart(sent, hers, incoming + [p], added + [p], contents, base, hersToSend + 1)
  {
    forall j | 0 <= j < |hers|
      ensures Serves(hers[j], (added + [p])[|sent| + j], contents, base)
    {
      assert Serves(hers[j], added[|sent| + j], contents, base);
    }
  }

  lemma FeedbackOrder(sent: seq<nat>, hers: seq<Her>, incoming: seq<Packet>, added: seq<Packet>,
                      contents: map<nat, seq<Byte>>, base: nat, hersToSend: int, off: nat)
    requires OrderPart(sent, hers, incoming, added, contents, base, hersToSend)
    requires forall h :: h in hers ==> h.addr != base + off
    ensures OrderPart(sent, hers, incoming, added, contents - {off}, base, hersToSend)
  {
    forall j | 0 <= j < |hers|
      ensures Serves(hers[j], added[|sent| + j], contents - {off}, base)
    {
      assert Serves(hers[j], added[|sent| + j], contents, base);
      assert hers[j] in hers;
    }
  }

  lemma OwnerIsQueued(unacked: seq<Owned>, n: Nic, o: Owned) returns (h: Her)
    requires AcksPart(unacked, n.writeQueue, n.bQueue, Addrs(n.queued)) && o in unacked
    ensures h in n.queued && h.addr == o.owner
  {
    var k := Completions(n.bQueue);
    var owners := Addrs(n.queued)[k..];
    OwnersAreWaiting(unacked, n.writeQueue, owners);
    var i :| 0 <= i < |owners| && owners[i] == o.owner;
    h := n.queued[k + i];
  }

  // A packet at PsPIN has no burst in flight.
  lemma FeedbackPackets(unacked: seq<Owned>, n: Nic, out: map<nat, nat>, addr: nat, c: Cfg)
    requires InPackets(unacked, out, c) && AcksPart(unacked, n.writeQueue, n.bQueue, Addrs(n.queued))
    requires HersPart(n.ready + n.queued, n.pktmap, out, c) && addr in n.pktmap && c.base <= addr
    ensures InPackets(unacked, out - {addr - c.base}, c)
  {
    forall i | 0 <= i < |unacked|
      ensures InPacket(unacked[i], out - {addr - c.base}, c)
    {
      assert InPacket(unacked[i], out, c);
      var h := OwnerIsQueued(unacked, n, unacked[i]);
      assert h in n.ready + n.queued;
    }
  }

  lemma AdmitRing(r: PR.Sys, l: PR.Layout, cap: nat, n: nat, off: nat) returns (l': PR.Layout)
    requires PR.Good(r, l, cap) && PR.Sizable(n)
    requires PR.Allocate(r.ring, PR.Rounded(n), cap).1 == PR.Some(off)
    ensures PR.Good(PR.Step(r, PR.Alloc(n), cap), l', cap)
    ensures off !in r.out && off % PR.ALIGNMENT == 0
  {
    var p := PR.Rounded(n);
    l' := PR.AllocateLayout(r.ring, l, p, cap);
    PR.RoundingCoversExactlySizable(n);
    PR.AllocStepKeeps(r, l, n, cap);
    PR.AllocateKeeps(r.ring, l, p, cap);
    var ring' := PR.Allocate(r.ring, p, cap).0;
    PR.NewRegionIsNew(ring', l', cap, l.All(), PR.Region(off, p));
    PR.RegionsAreSafe(ring', l', cap);
    assert l'.All()[|l.All()|] in l'.All();
  }

  // Issuing the write of a packet.
  lemma AdmitAcks(unacked: seq<Owned>, n: Nic, her: Her, more: seq<Owned>)
    requires AcksPart(unacked, n.writeQueue, n.bQueue, Addrs(n.queued))
    requires more != [] && forall i :: 0 <= i < |more| ==> more[i].owner == her.addr
    ensures AcksPart(unacked + more, n.writeQueue + [|more|], n.bQueue, Addrs(n.queued + [her]))
  {
    var k := Completions(n.bQueue);
    GroupMore(unacked, n.writeQueue, Addrs(n.queued)[k..], more, her.addr);
    assert Addrs(n.queued + [her])[k..] == Addrs(n.queued)[k..] + [her.addr];
  }

  lemma GrowPackets(unacked: seq<Owned>, out: map<nat, nat>, c: Cfg, off: nat, n: nat)
    requires InPackets(unacked, out, c) && off !in out
    ensures InPackets(unacked, out[off := n], c)
  {
    forall i | 0 <= i < |unacked|
      ensures InPacket(unacked[i], out[off := n], c)
    {
      assert InPacket(unacked[i], out, c);
    }
  }

  // Legal bursts inside the n bytes from addr on.
  predicate BurstsWithin(bs: seq<Burst>, addr: nat, n: nat) {
    forall b :: b in bs ==> Legal(b) && addr <= b.ax.addr && End(b) <= addr + n
  }

  lemma TransferWithin(addr: nat, n: nat)
    ensures BurstsWithin(Bursts(addr, n), addr, n)
  {
    BurstsAreLegal(addr, n);
  }

  lemma NewPackets(addr: nat, bs: seq<Burst>, data: seq<Byte>, out: map<nat, nat>, c: Cfg)
    requires TotalBytes(bs) == |data| && Holds(out, c, addr, |data|) && BurstsWithin(bs, addr, |data|)
    ensures InPackets(OwnedBy(addr, bs, data), out, c)
  {
    var more := OwnedBy(addr, bs, data);
    forall i | 0 <= i < |more|
      ensures InPacket(more[i], out, c)
    {
      assert more[i].burst == bs[i] && bs[i] in bs;
    }
  }

  lemma JoinPackets(a: seq<Owned>, b: seq<Owned>, out: map<nat, nat>, c: Cfg)
    requires InPackets(a, out, c) && InPackets(b, out, c)
    ensures InPackets(a + b, out, c)
  {
    forall i | 0 <= i < |a + b|
      ensures InPacket((a + b)[i], out, c)
    {
      assert (a + b)[i] == if i < |a| then a[i] else b[i - |a|];
    }
  }

  lemma AdmitPackets(unacked: seq<Owned>, out: map<nat, nat>, c: Cfg, addr: nat, off: nat, n: nat, bs: seq<Burst>,
                     data: seq<Byte>, more: seq<Owned>, out': map<nat, nat>)
    requires InPackets(unacked, out, c) && addr == c.base + off && off !in out && out' == out[off := n]
    requires BurstsWithin(bs, addr, n) && TotalBytes(bs) == n == |data| && more == OwnedBy(addr, bs, data)
    ensures InPackets(unacked + more, out', c)
  {
    GrowPackets(unacked, out, c, off, n);
    NewPackets(addr, bs, data, out', c);
    JoinPackets(unacked, more, out', c);
  }

  lemma AdmitChannels(aw: seq<AxBeat>, w: seq<WBeat>, taken: nat, owed: nat, unacked: seq<Owned>, m: Memory,
                      addr: nat, bs: seq<Burst>, data: seq<Byte>, more: seq<Owned>)
    requires ChannelsPart(aw, w, taken, owed, unacked)
    requires TotalBytes(bs) == |data| && forall b :: b in bs ==> Legal(b)
    requires more == OwnedBy(addr, bs, data)
    ensures ChannelsPart(aw + AxBeats(bs), w + WriteBeats(bs, data), taken, owed, unacked + more)
    ensures Settled(m, taken, owed, unacked + more)
         == ApplyAll(Settled(m, taken, owed, unacked), PacketOnBus(bs, data))
  {
    var obs := unacked[owed..];
    assert (unacked + more)[owed..] == obs + more;
    IssueMore(aw, w, obs, taken, addr, bs, data);
    ApplyAllConcat(m, Todo(obs, taken), PacketOnBus(bs, data));
  }

  // The slave takes the next beat: one beat less is in flight, and the memory
  // that will result is the same.
  lemma DeliverChannels(aw: seq<AxBeat>, w: seq<WBeat>, taken: nat, owed: nat, unacked: seq<Owned>, m: Memory,
                        aw': seq<AxBeat>, taken': nat, owed': nat)
    requires ChannelsPart(aw, w, taken, owed, unacked) && aw != [] && w != []
    requires (aw', taken', owed') == if taken == aw[0].len then (aw[1..], 0, owed + 1) else (aw, taken + 1, owed)
    ensures ChannelsPart(aw', w[1..], taken', owed', unacked)
    ensures Settled(Apply(m, SlaveBeat(aw, w, taken)), taken', owed', unacked) == Settled(m, taken, owed, unacked)
  {
    var obs := unacked[owed..];
    TakeBeat(aw, w, obs, taken);
    assert taken == aw[0].len ==> unacked[owed + 1..] == obs[1..];
  }

  // The new packet's beats leave the packet at `o` as it is and put the new
  // packet in place; `a` is byte `i` of the packet at `o`.
  lemma OthersUntouched(m: Memory, r: PR.Sys, l: PR.Layout, cap: nat, base: nat, off: nat,
                        addr: nat, n: nat, data: seq<Byte>, o: nat, a: nat)
    requires base % PR.ALIGNMENT == 0 && PR.Good(r, l, cap)
    requires off in r.out && r.out[off] == n == |data| > 0 && addr == base + off
    requires o in r.out && o != off && base + o <= a < base + o + r.out[o]
    ensures Written(m, addr, n, data, a) == m(a)
  {
    var pad := PaddedApart(r, l, cap, base, off, addr, n, o, r.out[o]);
    assert PadEnd(addr, n) == pad;
  }

  lemma PaddedApart(r: PR.Sys, l: PR.Layout, cap: nat, base: nat, off: nat, addr: nat, n: nat, o: nat, size: nat)
    returns (pad: nat)
    requires base % PR.ALIGNMENT == 0 && PR.Good(r, l, cap)
    requires off in r.out && r.out[off] == n && n > 0 && addr == base + off
    requires o in r.out && o != off && r.out[o] == size
    ensures pad == PadEnd(addr, n) >= addr + n
    ensures pad <= base + o || base + o + size <= addr
  {
    var _ := RegionOf(r, l, cap, off);
    var _ := RegionOf(r, l, cap, o);
    AlignedSum(base, off, addr);
    PadStaysInRegion(addr, n);
    PadStaysInLine(addr, n);
    OutstandingApart(r, l, cap, o, off);
    PR.RoundingCoversExactlySizable(size);
    pad := PadEnd(addr, n);
  }

  // Memory `m'` is `m` after the write of `data` at `addr`.
  ghost predicate Wrote(m: Memory, m': Memory, addr: nat, n: nat, data: seq<Byte>) {
    |data| == n > 0 && forall a :: m'(a) == Written(m, addr, n, data, a)
  }

  lemma AdmitWrote(m: Memory, addr: nat, n: nat, data: seq<Byte>, m': Memory)
    requires |data| == n > 0 && TotalBytes(Bursts(addr, n)) == n
    requires m' == ApplyAll(m, PacketOnBus(Bursts(addr, n), data))
    ensures Wrote(m, m', addr, n, data)
  {
    forall a
      ensures m'(a) == Written(m, addr, n, data, a)
    {
      var _ := PacketEffect(m, addr, n, data, a);
    }
  }

  lemma AdmitMemory(m: Memory, r: PR.Sys, l: PR.Layout, contents: map<nat, seq<Byte>>, cap: nat, base: nat,
                    off: nat, addr: nat, n: nat, data: seq<Byte>, m': Memory)
    requires base % PR.ALIGNMENT == 0 && PR.Good(r, l, cap)
    requires off in r.out && r.out[off] == n == |data| > 0 && addr == base + off
    requires off !in contents && Sizes(contents[off := data], r.out)
    requires HoldsContents(m, contents, base) && Wrote(m, m', addr, n, data)
    ensures HoldsContents(m', contents[off := data], base)
  {
    var contents' := contents[off := data];
    forall o: nat, i: nat
      ensures ByteHeld(m', contents', base, o, i)
    {
      if o in contents' && i < |contents'[o]| {
        var a := base + o + i;
        assert m'(a) == Written(m, addr, n, data, a);
        if o == off {
          assert a - addr == i;
        } else {
          assert ByteHeld(m, contents, base, o, i);
          OthersUntouched(m, r, l, cap, base, off, addr, n, data, o, a);
        }
      }
    }
  }

  lemma FeedbackMemory(m: Memory, contents: map<nat, seq<Byte>>, base: nat, off: nat)
    requires HoldsContents(m, contents, base)
    ensures HoldsContents(m, contents - {off}, base)
  {
    forall o: nat, i: nat
      ensures ByteHeld(m, contents - {off}, base, o, i)
    {
      assert ByteHeld(m, contents, base, o, i);
    }
  }
}
