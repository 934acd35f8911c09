/** The NIC inbound engine (hw/verilator_model/src/NICInbound.hpp) as steps on its
    fields, and the class whose methods perform them.  Simulated time, tracing and
    statistics are not part of this model. */
module NicInbound {
  import opened AxiBurst
  import opened AxiWrite
  import AxiMaster
  import PR = PacketRing

  // incoming_her: its identity, its payload, and the cycles to wait after it.
  datatype Packet = Packet(id: nat, data: seq<Byte>, wait: nat)

  // her_descr, once the packet has an address
  datatype Her = Her(id: nat, addr: nat, size: nat)

  datatype Nic = Nic(
    incoming: seq<Packet>,
    wait: nat,                     // packet_wait_cycles
    queued: seq<Her>,              // write issued, not yet acknowledged
    ready: seq<Her>,               // write acknowledged
    pktmap: map<nat, nat>,         // address -> size of HERs given to PsPIN
    hersToSend: int,
    appSentEos: bool,
    eos: bool,
    ring: PR.Ring,
    aw: seq<AxBeat>, w: seq<WBeat>,  // beats issued and not yet taken
    writeQueue: seq<nat>, bQueue: seq<bool>)

  const INIT := Nic([], 0, [], [], map[], 0, false, false, PR.EMPTY, [], [], [], [])

  function DataBeats(addr: nat, data: seq<Byte>): seq<WBeat> {
    BurstsCarryAll(addr, |data|);
    WriteBeats(Bursts(addr, |data|), data)
  }

  function Add(n: Nic, p: Packet): Nic {
    n.(incoming := n.incoming + [p], hersToSend := n.hersToSend + 1)
  }

  // process_packet: where the packet went, if there was room for it.
  function Process(n: Nic, p: Packet, base: nat, cap: nat): (Nic, PR.Option<nat>) {
    var (ring, off) := PR.Allocate(n.ring, PR.Rounded(|p.data|), cap);
    if off.None? then (n, PR.None) else
      var addr := base + off.value;
      (n.(ring := ring,
          aw := n.aw + AxBeats(Bursts(addr, |p.data|)),
          w := n.w + DataBeats(addr, p.data),
          writeQueue := n.writeQueue + [Pages(addr, |p.data|)],
          queued := n.queued + [Her(p.id, addr, |p.data|)]), off)
  }

  // progress_incoming_packets: nothing before the wait after the last packet is over.
  function Admit(n: Nic, base: nat, cap: nat): (Nic, PR.Option<nat>) {
    if n.incoming == [] then (n, PR.None)
    else if n.wait > 1 then (n.(wait := n.wait - 1), PR.None)
    else AdmitFirst(n, base, cap)
  }

  function AdmitFirst(n: Nic, base: nat, cap: nat): (Nic, PR.Option<nat>)
    requires n.incoming != []
  {
    var (n', off) := Process(n, n.incoming[0], base, cap);
    if off.None? then (n.(wait := 0), PR.None)
    else (n'.(incoming := n'.incoming[1..], wait := n.incoming[0].wait), off)
  }

  // The wait itself plays no part in admitting a packet.
  lemma WaitIsOver(n: Nic, base: nat, cap: nat)
    requires n.incoming != []
    ensures AdmitFirst(n, base, cap) == AdmitFirst(n.(wait := 0), base, cap)
  {}

  // An accepted B response (b_posedge).
  function AcceptB(n: Nic): Nic
    requires n.writeQueue != []
  {
    var (q, complete) := AxiMaster.TakeB(n.writeQueue);
    n.(writeQueue := q, bQueue := n.bQueue + [complete])
  }

  // progress_axi_write_responses; the precondition is its assertion.
  function Respond(n: Nic): Nic
    requires n.bQueue != [] && n.bQueue[0] ==> n.queued != []
  {
    if n.bQueue == [] then n
    else if n.bQueue[0] then
      n.(bQueue := n.bQueue[1..], queued := n.queued[1..], ready := n.ready + [n.queued[0]])
    else n.(bQueue := n.bQueue[1..])
  }

  // her_progress_posedge: the HER put on the port, if any.
  function SendHer(n: Nic, herReady: bool): (Nic, PR.Option<Her>) {
    if !herReady || n.ready == [] then (n, PR.None) else
      var her := n.ready[0];
      (n.(hersToSend := n.hersToSend - 1,
          ready := n.ready[1..],
          pktmap := n.pktmap[her.addr := her.size],
          eos := n.eos || (n.hersToSend - 1 == 0 && n.appSentEos)), PR.Some(her))
  }

  // feedback_progress on a valid feedback for `addr`, of `size` bytes.
  function Feedback(n: Nic, addr: nat, size: nat, base: nat): Nic
    requires base <= addr
  {
    n.(ring := PR.Free(n.ring, addr - base, size), pktmap := n.pktmap - {addr})
  }

  class Engine {
    const axi: AxiMaster.Master
    const base: nat   // l2_pkt_buff_start
    const cap: nat    // l2_pkt_buff_size

    var incoming: seq<Packet>
    var packetWaitCycles: nat
    var queued: seq<Her>
    var ready: seq<Her>
    var pktmap: map<nat, nat>
    var hersToSend: int
    var appSentEos: bool
    var eos: bool
    var head: nat
    var tail: nat
    var cutPtr: nat
    var cut: bool
    var inFlight: int
    var freed: map<nat, nat>

    ghost function Ring(): PR.Ring
      reads this
    {
      PR.Ring(head, tail, cutPtr, cut, inFlight, freed)
    }

    ghost function View(): Nic
      reads this, axi
    {
      Nic(incoming, packetWaitCycles, queued, ready, pktmap, hersToSend, appSentEos, eos, Ring(),
          axi.awPending, axi.wPending, axi.writeQueue, axi.bQueue)
    }

    constructor (base: nat, cap: nat)
      ensures View() == INIT && fresh(axi)
      ensures axi.bBufferSize == 0
      ensures this.base == base && this.cap == cap
    {
      axi := new AxiMaster.Master();
      this.base, this.cap := base, cap;
      incoming, packetWaitCycles, queued, ready, pktmap := [], 0, [], [], map[];
      hersToSend, appSentEos, eos := 0, false, false;
      head, tail, cutPtr, cut, inFlight, freed := 0, 0, 0, false, 0, map[];
    }

    method AddPacket(p: Packet)
      modifies this
      ensures View() == Add(old(View()), p)
    {
      incoming := incoming + [p];
      hersToSend := hersToSend + 1;
    }

    method SetEos()
      modifies this`appSentEos
      ensures View() == old(View()).(appSentEos := true)
    {
      appSentEos := true;
    }

    method AllocatePktSpace(pktSize: nat) returns (canAllocate: bool, addr: nat)
      requires tail <= cap
      modifies this
      ensures canAllocate == PR.Allocate(old(Ring()), PR.Rounded(pktSize), cap).1.Some?
      ensures View() == old(View()).(ring := PR.Allocate(old(Ring()), PR.Rounded(pktSize), cap).0)
      ensures canAllocate ==> addr == base + PR.Allocate(old(Ring()), PR.Rounded(pktSize), cap).1.value
    {
      canAllocate, addr := false, 0;
      var segments := (pktSize + PR.ALIGNMENT - 1) % PR.TWO32 / PR.ALIGNMENT;
      var size := segments * PR.ALIGNMENT;
      if tail > head || (tail == head && inFlight == 0) {
        if cap - tail >= size {
          canAllocate := true;
        } else if head >= size {
          cutPtr := tail;
          cut := true;
          tail := 0;
          canAllocate := true;
        }
      } else if head > tail {
        if head - tail >= size {
          canAllocate := true;
        }
      }
      if canAllocate {
        addr := base + tail;
        tail := tail + size;
        inFlight := inFlight + 1;
      }
    }

    method FreePktSpace(addr: nat, pktSize: nat)
      requires base <= addr && addr - base !in freed  // the two assertions of the source
      modifies this
      ensures View() == old(View()).(ring := PR.Free(old(Ring()), addr - base, pktSize))
    {
      var offset := addr - base;
      var segments := (pktSize + PR.ALIGNMENT - 1) % PR.TWO32 / PR.ALIGNMENT;
      var size := segments * PR.ALIGNMENT;
      freed := freed[offset := size];
      ReclaimHead();
    }

    // The loop of free_pkt_space.
    method ReclaimHead()
      modifies this`freed, this`head, this`inFlight, this`cut
      ensures Ring() == PR.Reclaim(old(Ring()))
    {
      while freed != map[] && head in freed
        invariant PR.Reclaim(Ring()) == PR.Reclaim(old(Ring()))
        invariant tail == old(tail) && cutPtr == old(cutPtr)
        decreases |freed|
      {
        ghost var before := Ring();
        PR.SmallerFreed(freed, head);
        var headPtrIncrease := freed[head];
        freed := freed - {head};
        head := head + headPtrIncrease;
        inFlight := inFlight - 1;
        if cut && head == cutPtr {
          head := 0;
          cut := false;
        }
        assert Ring() == PR.ReclaimStep(before);
      }
    }

    method ProcessPacket(p: Packet) returns (ok: bool)
      requires tail <= cap
      modifies this, axi
      ensures ok == Process(old(View()), p, base, cap).1.Some?
      ensures View() == Process(old(View()), p, base, cap).0
      ensures axi.bBufferSize == old(axi.bBufferSize)
    {
      var addr;
      ok, addr := AllocatePktSpace(|p.data|);
      if ok {
        IssueWrite(p, addr);
      }
    }

    method IssueWrite(p: Packet, addr: nat)
      modifies this`queued, axi
      ensures View() == old(View()).(
        aw := old(axi.awPending) + AxBeats(Bursts(addr, |p.data|)),
        w := old(axi.wPending) + DataBeats(addr, p.data),
        writeQueue := old(axi.writeQueue) + [Pages(addr, |p.data|)],
        queued := old(queued) + [Her(p.id, addr, |p.data|)])
      ensures axi.bBufferSize == old(axi.bBufferSize)
    {
      axi.Write(addr, p.data, |p.data|, 0);
      assert p.data[0..0 + |p.data|] == p.data;
      queued := queued + [Her(p.id, addr, |p.data|)];
    }

    method ProgressIncoming()
      requires tail <= cap
      modifies this, axi
      ensures View() == Admit(old(View()), base, cap).0
      ensures axi.bBufferSize == old(axi.bBufferSize)
    {
      if incoming == [] {
        return;
      }
      if packetWaitCycles > 0 {
        packetWaitCycles := packetWaitCycles - 1;
        if packetWaitCycles > 0 {
          return;
        }
      }
      WaitIsOver(old(View()), base, cap);
      TryFirst();
    }

    // ... once the wait is over.
    method TryFirst()
      requires tail <= cap && incoming != [] && packetWaitCycles == 0
      modifies this, axi
      ensures View() == AdmitFirst(old(View()), base, cap).0
      ensures axi.bBufferSize == old(axi.bBufferSize)
    {
      var ok := ProcessPacket(incoming[0]);
      if ok {
        packetWaitCycles := incoming[0].wait;
        incoming := incoming[1..];
      }
    }

    method ProgressWriteResponses()
      requires axi.bQueue != [] && axi.bQueue[0] ==> queued != []
      modifies this, axi`bQueue
      ensures View() == Respond(old(View()))
    {
      if axi.bQueue == [] {
        return;
      }
      var complete := axi.ConsumeB();
      if complete {
        var her := queued[0];
        queued := queued[1..];
        ready := ready + [her];
      }
    }

    method HerProgress(herReady: bool) returns (valid: bool, herOut: Her)
      requires ready != [] ==> ready[0].addr !in pktmap  // the assertion of the source
      modifies this
      ensures View() == SendHer(old(View()), herReady).0
      ensures valid == SendHer(old(View()), herReady).1.Some?
      ensures valid ==> herOut == SendHer(old(View()), herReady).1.value
    {
      valid, herOut := false, Her(0, 0, 0);
      if !herReady {
        return;
      }
      if ready == [] {
        return;
      }
      var her := ready[0];
      valid, herOut := true, her;
      hersToSend := hersToSend - 1;
      ready := ready[1..];
      pktmap := pktmap[her.addr := her.size];
      if hersToSend == 0 && appSentEos {
        eos := true;
      }
    }

    method FeedbackProgress(valid: bool, addr: nat, size: nat)
      requires valid ==> addr in pktmap && base <= addr && addr - base !in freed
      modifies this
      ensures View() == if valid then Feedback(old(View()), addr, size, base) else old(View())
    {
      if valid {
        FreePktSpace(addr, size);
        pktmap := pktmap - {addr};
      }
    }
  }
}
