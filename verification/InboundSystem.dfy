/** The inbound engine together with the bus, the memory and PsPIN: every
    interleaving of packet arrivals, buffer allocation, beats reaching memory,
    write acknowledgements, HERs and feedback.  The engine's own steps are those
    of module NicInbound. */
module InboundSystem {
  import opened AxiBurst
  import opened AxiWrite
  import opened AxiMemory
  import opened InboundBus
  import opened NicInbound
  import PR = PacketRing

  // Base address and size of the packet buffer.
  datatype Cfg = Cfg(base: nat, cap: nat)

  predicate Aligned(c: Cfg) { c.base % PR.ALIGNMENT == 0 }

  datatype Sys = Sys(
    nic: Nic,
    mem: Memory,
    taken: nat,                     // data beats taken of the first address beat
    owed: nat,                      // bursts in memory whose response is not yet accepted
    // history, for stating what is proved
    out: map<nat, nat>,             // allocated, not yet freed: offset -> packet size
    contents: map<nat, seq<Byte>>,  // the packet each of them holds
    emptyWrap: bool,
    added: seq<Packet>,             // packets given to add_packet
    admitted: seq<Her>,             // HERs of the packets whose write was issued
    acked: nat,                     // burst responses accepted
    sent: seq<nat>)                 // ids of the HERs sent to PsPIN

  datatype Event =
    | AddPacket(p: Packet)
    | SetEos
    | Admit               // progress_incoming_packets
    | Deliver             // the next data beat reaches memory
    | AckBurst            // a B response is accepted
    | Respond             // progress_axi_write_responses
    | Send(herReady: bool)
    | FeedbackFor(addr: nat)

  // What the environment may do: packets are not empty; a beat can be taken
  // when both channels hold one; a burst is acknowledged after its last beat
  // (section A3.3.1 of ARM IHI 0022E); feedback is for a HER that was sent.
  predicate Enabled(s: Sys, e: Event) {
    match e
    case AddPacket(p) => PR.Sizable(|p.data|)
    case Deliver => s.nic.aw != [] && s.nic.w != []
    case AckBurst => s.owed > 0
    case FeedbackFor(addr) => addr in s.nic.pktmap
    case _ => true
  }

  // The assertions of the source on the way of each event.
  predicate AssertionsHold(s: Sys, e: Event, c: Cfg) {
    match e
    case Admit => s.nic.ring.tail <= c.cap
    case AckBurst => s.nic.writeQueue != []
    case Respond => s.nic.bQueue != [] && s.nic.bQueue[0] ==> s.nic.queued != []
    case Send(_) => s.nic.ready != [] ==> s.nic.ready[0].addr !in s.nic.pktmap
    case FeedbackFor(addr) => c.base <= addr && addr - c.base !in s.nic.ring.freed
    case _ => true
  }

  function AdmitStep(s: Sys, c: Cfg): Sys {
    var (nic, off) := NicInbound.Admit(s.nic, c.base, c.cap);
    if off.None? then s.(nic := nic) else
      var p, data := s.nic.incoming[0], s.nic.incoming[0].data;
      s.(nic := nic, admitted := s.admitted + [Her(p.id, c.base + off.value, |data|)],
         out := s.out[off.value := |data|], contents := s.contents[off.value := data],
         emptyWrap := s.emptyWrap || PR.WrapsEmpty(s.nic.ring, PR.Rounded(|data|), c.cap))
  }

  function DeliverStep(s: Sys): Sys
    requires s.nic.aw != [] && s.nic.w != []
  {
    var done := s.taken == s.nic.aw[0].len;
    s.(mem := Apply(s.mem, SlaveBeat(s.nic.aw, s.nic.w, s.taken)),
       nic := s.nic.(aw := if done then s.nic.aw[1..] else s.nic.aw, w := s.nic.w[1..]),
       taken := if done then 0 else s.taken + 1,
       owed := if done then s.owed + 1 else s.owed)
  }

  function AddStep(s: Sys, p: Packet): Sys {
    s.(nic := Add(s.nic, p), added := s.added + [p])
  }

  function AckStep(s: Sys): Sys
    requires s.owed > 0 && s.nic.writeQueue != []
  {
    s.(nic := AcceptB(s.nic), owed := s.owed - 1, acked := s.acked + 1)
  }

  function RespondStep(s: Sys): Sys
    requires s.nic.bQueue != [] && s.nic.bQueue[0] ==> s.nic.queued != []
  {
    s.(nic := NicInbound.Respond(s.nic))
  }

  function SendStep(s: Sys, herReady: bool): Sys {
    var (nic, her) := SendHer(s.nic, herReady);
    s.(nic := nic, sent := if her.Some? then s.sent + [her.value.id] else s.sent)
  }

  function FeedbackStep(s: Sys, addr: nat, c: Cfg): Sys
    requires addr in s.nic.pktmap && c.base <= addr
  {
    s.(nic := Feedback(s.nic, addr, s.nic.pktmap[addr], c.base),
       out := s.out - {addr - c.base}, contents := s.contents - {addr - c.base})
  }

  function Step(s: Sys, e: Event, c: Cfg): Sys
    requires Enabled(s, e) && AssertionsHold(s, e, c)
  {
    match e
    case AddPacket(p) => AddStep(s, p)
    case SetEos => s.(nic := s.nic.(appSentEos := true))
    case Admit => AdmitStep(s, c)
    case Deliver => DeliverStep(s)
    case AckBurst => AckStep(s)
    case Respond => RespondStep(s)
    case Send(herReady) => SendStep(s, herReady)
    case FeedbackFor(addr) => FeedbackStep(s, addr, c)
  }

  function Start(mem: Memory): Sys {
    Sys(INIT, mem, 0, 0, map[], map[], false, [], [], 0, [])
  }

  // A run: a state whose assertion fails may be followed by anything.
  ghost predicate IsRun(run: seq<Sys>, es: seq<Event>, c: Cfg) {
    && |run| == |es| + 1
    && run[0] == Start(run[0].mem)
    && forall i :: 0 <= i < |es| ==>
         Enabled(run[i], es[i]) && (AssertionsHold(run[i], es[i], c) ==> run[i + 1] == Step(run[i], es[i], c))
  }

  // ---------- The invariant, part by part ----------

  // Witnesses: the regions of the ring and the bursts not yet acknowledged.
  datatype Wit = Wit(layout: PR.Layout, unacked: seq<Owned>)

  predicate Sizes(contents: map<nat, seq<Byte>>, out: map<nat, nat>) {
    contents.Keys == out.Keys && forall o :: o in out ==> |contents[o]| == out[o]
  }

  // Address `a` is that of an outstanding packet of `size` bytes.
  predicate Holds(out: map<nat, nat>, c: Cfg, a: nat, size: nat) {
    c.base <= a && a - c.base in out && out[a - c.base] == size
  }

  predicate DistinctAddrs(hers: seq<Her>) {
    forall i, j :: 0 <= i < j < |hers| ==> hers[i].addr != hers[j].addr
  }

  // Outstanding packets are exactly those queued, ready or at PsPIN.
  predicate HersPart(hers: seq<Her>, pktmap: map<nat, nat>, out: map<nat, nat>, c: Cfg) {
    && (forall h :: h in hers ==> Holds(out, c, h.addr, h.size) && h.addr !in pktmap)
    && (forall a :: a in pktmap ==> Holds(out, c, a, pktmap[a]))
    && DistinctAddrs(hers)
    && |out| == |hers| + |pktmap|
  }

  predicate AllSizable(ps: seq<Packet>) { forall p :: p in ps ==> PR.Sizable(|p.data|) }

  function Addrs(hers: seq<Her>): seq<nat> {
    seq(|hers|, i requires 0 <= i < |hers| => hers[i].addr)
  }

  // HER `h` is the one of packet `p`, whose data it points to.
  predicate Serves(h: Her, p: Packet, contents: map<nat, seq<Byte>>, base: nat) {
    && h.id == p.id && h.size == |p.data|
    && base <= h.addr && h.addr - base in contents && contents[h.addr - base] == p.data
  }

  // HERs leave in the order in which their packets were added.
  predicate OrderPart(sent: seq<nat>, hers: seq<Her>, incoming: seq<Packet>, added: seq<Packet>,
                      contents: map<nat, seq<Byte>>, base: nat, hersToSend: int) {
    && |sent| + |hers| <= |added| && incoming == added[|sent| + |hers|..]
    && (forall j :: 0 <= j < |sent| ==> sent[j] == added[j].id)
    && (forall j :: 0 <= j < |hers| ==> Serves(hers[j], added[|sent| + j], contents, base))
    && hersToSend == |incoming| + |hers|
  }

  // Completed writes whose completion the engine has not consumed yet.
  function Completions(bQueue: seq<bool>): nat {
    if bQueue == [] then 0 else (if bQueue[0] then 1 else 0) + Completions(bQueue[1..])
  }

  // An unacknowledged burst lies in the packet it was issued for.
  predicate InPacket(o: Owned, out: map<nat, nat>, c: Cfg) {
    && Legal(o.burst) && c.base <= o.owner && o.owner - c.base in out
    && o.owner <= o.burst.ax.addr && End(o.burst) <= o.owner + out[o.owner - c.base]
  }

  predicate InPackets(unacked: seq<Owned>, out: map<nat, nat>, c: Cfg) {
    forall i :: 0 <= i < |unacked| ==> InPacket(unacked[i], out, c)
  }

  // Every acknowledgement still to come is of a burst that is accounted for.
  predicate AcksPart(unacked: seq<Owned>, writeQueue: seq<nat>, bQueue: seq<bool>, queued: seq<nat>) {
    Completions(bQueue) <= |queued| && Grouped(unacked, writeQueue, queued[Completions(bQueue)..])
  }

  // Of the unacknowledged bursts, `owed` are in memory and the rest on the channels.
  predicate ChannelsPart(aw: seq<AxBeat>, w: seq<WBeat>, taken: nat, owed: nat, unacked: seq<Owned>) {
    owed <= |unacked| && OnChannels(aw, w, unacked[owed..], taken)
  }

  // The memory once every beat in flight has been delivered.
  function Settled(m: Memory, taken: nat, owed: nat, unacked: seq<Owned>): Memory
    requires owed <= |unacked| && WellFormed(unacked[owed..]) && taken <= |Flat(unacked[owed..])|
  {
    ApplyAll(m, Todo(unacked[owed..], taken))
  }

  ghost predicate ByteHeld(m: Memory, contents: map<nat, seq<Byte>>, base: nat, o: nat, i: nat) {
    o in contents && i < |contents[o]| ==> m(base + o + i) == contents[o][i]
  }

  ghost predicate HoldsContents(m: Memory, contents: map<nat, seq<Byte>>, base: nat) {
    forall o, i :: ByteHeld(m, contents, base, o, i)
  }

  function RingSys(s: Sys): PR.Sys { PR.Sys(s.nic.ring, s.out, s.emptyWrap) }

  // The buffer, the queues of HERs, and the beats and memory.
  predicate BufferInv(s: Sys, l: PR.Layout, c: Cfg) {
    PR.Good(RingSys(s), l, c.cap) && Sizes(s.contents, s.out)
  }

  predicate QueueInv(s: Sys, c: Cfg) {
    && HersPart(s.nic.ready + s.nic.queued, s.nic.pktmap, s.out, c)
    && AllSizable(s.nic.incoming)
    && OrderPart(s.sent, s.nic.ready + s.nic.queued, s.nic.incoming, s.added, s.contents, c.base, s.nic.hersToSend)
  }

  ghost predicate BusInv(s: Sys, unacked: seq<Owned>, c: Cfg) {
    && InPackets(unacked, s.out, c)
    && AcksPart(unacked, s.nic.writeQueue, s.nic.bQueue, Addrs(s.nic.queued))
    && ChannelsPart(s.nic.aw, s.nic.w, s.taken, s.owed, unacked)
    && HoldsContents(Settled(s.mem, s.taken, s.owed, unacked), s.contents, c.base)
  }

  ghost predicate Inv(s: Sys, w: Wit, c: Cfg) {
    BufferInv(s, w.layout, c) && QueueInv(s, c) && BusInv(s, w.unacked, c)
  }
}
