/** What every run of the outbound system gives PsPIN and the network. */
module OutboundTheorems {
  import opened Packetizer
  import opened OutboundSystem
  import opened OutboundRuns
  import AxiMaster
  import AxiBurst
  import opened ReadBytes

  lemma {:induction false} OfPrefix(ps: seq<Packet>, k: nat, n: nat)
    requires k <= |ps|
    ensures Of(ps[..k], n) <= Of(ps, n)
    decreases |ps|
  {
    if k < |ps| {
      OfPrefix(ps[..|ps| - 1], k, n);
      assert ps[..|ps| - 1][..k] == ps[..k];
    } else {
      assert ps[..k] == ps;
    }
  }

  // Main result: at any time the packets generated for a command are the first ones of
  // its cut, and all of them once it has left the queue.
  lemma PacketsTileTheirCommand(run: seq<Sys>, es: seq<Event>, c: Cfg, i: nat, n: nat)
    requires IsRun(run, es, c) && i < |run| && n < |run[i].accepted|
    ensures Of(run[i].generated, n) <= Split(run[i].accepted[n], c.max)
    ensures (forall cmd :: cmd in run[i].nic.commands ==> cmd.number != n) ==>
      Of(run[i].generated, n) == Split(run[i].accepted[n], c.max)
    ensures Carries(Split(run[i].accepted[n], c.max), run[i].accepted[n].src, run[i].accepted[n].length, c.max)
  {
    RunsAreSafe(run, es, c, i);
    SplitCarries(run[i].accepted[n], c.max);
    if forall cmd :: cmd in run[i].nic.commands ==> cmd.number != n {
      AllGenerated(run[i].nic.commands, run[i].accepted, run[i].generated, n, c.max);
    }
  }

  // Main result: every packet generated for a command has the header exactly if the command
  // is RDMA, and is full unless it ends the command; other commands are one packet.
  lemma PacketsAreFramed(run: seq<Sys>, es: seq<Event>, c: Cfg, i: nat, n: nat)
    requires IsRun(run, es, c) && i < |run| && n < |run[i].accepted|
    ensures forall p :: p in Of(run[i].generated, n) ==> Framed(p, run[i].accepted[n].fid, c.max)
    ensures run[i].accepted[n].fid == 0 ==> |Of(run[i].generated, n)| <= 1
  {
    RunsAreSafe(run, es, c, i);
    PacketsTileTheirCommand(run, es, c, i, n);
    var cmd, mine := run[i].accepted[n], Of(run[i].generated, n);
    SplitIsFramed(cmd, c.max);
    forall p | p in mine
      ensures Framed(p, cmd.fid, c.max)
    {
      var j :| 0 <= j < |mine| && mine[j] == p;
      assert Split(cmd, c.max)[j] == p;
    }
  }

  lemma AllGenerated(cs: seq<Cmd>, accepted: seq<Cmd>, generated: seq<Packet>, n: nat, max: nat)
    requires Configured(max) && SplitPart(cs, accepted, generated, max) && n < |accepted|
    requires forall cmd :: cmd in cs ==> cmd.number != n
    ensures Of(generated, n) == Split(accepted[n], max)
  {
    RestOfAbsent(cs, n, max);
  }

  // Packets are sent in the order in which they were generated, each only after all its
  // payload has arrived.
  lemma SentInOrder(run: seq<Sys>, es: seq<Event>, c: Cfg, i: nat)
    requires IsRun(run, es, c) && i < |run|
    ensures Erase(run[i].sent) <= run[i].generated
    ensures Whole(run[i].sent)
  {
    RunsAreSafe(run, es, c, i);
    var s := run[i];
    forall j | 0 <= j < |s.sent|
      ensures s.generated[j] == s.sent[j].(data := []) && |s.sent[j].data| == s.sent[j].payload
    {
      assert (s.sent + s.nic.network + s.nic.dma)[j] == s.sent[j];
      assert (s.sent + s.nic.network)[j] == s.sent[j];
    }
  }

  // Main result: a packet whose source is aligned to the bus carries exactly the bytes of
  // the memory; of any other it carries the bytes from the start of the bus line, shifted.
  lemma AlignedPacketsCarryMemory(run: seq<Sys>, es: seq<Event>, c: Cfg, i: nat, j: nat)
    requires IsRun(run, es, c) && i < |run| && j < |run[i].sent|
    ensures var p := run[i].sent[j];
      && RightBytes(p.src, p.payload, p.data, c.mem)
      && (p.src % AxiBurst.BUS_BYTES == 0 ==> p.data == MemBytes(c.mem, p.src, p.payload))
  {
    RunsAreSafe(run, es, c, i);
    SentInOrder(run, es, c, i);
    var s := run[i];
    var p := s.sent[j];
    assert (s.sent + s.nic.network + s.nic.dma)[j] == p;
    if p.src % AxiBurst.BUS_BYTES == 0 {
      AlignedIsRight(p.src, p.payload, p.data, c.mem);
    }
  }

  // A marked packet is the last of its command.
  lemma MarkedEndsCommand(g: seq<Packet>, j: nat, n: nat, all: seq<Packet>)
    requires j < |g| && g[j].isLast && g[j].number == n && Of(g, n) <= all
    requires forall i :: 0 <= i < |all| ==> (all[i].isLast <==> i == |all| - 1)
    ensures Of(g[..j + 1], n) == all
  {
    OfPrefix(g, j + 1, n);
    EndsWithOwn(g, j, n);
    var mine := Of(g[..j + 1], n);
    assert all[|mine| - 1] == mine[|mine| - 1] == g[j];
  }

  lemma EndsWithOwn(g: seq<Packet>, j: nat, n: nat)
    requires j < |g| && g[j].number == n
    ensures Of(g[..j + 1], n) == Of(g[..j], n) + [g[j]]
  {
    assert g[..j + 1] == g[..j] + [g[j]];
    OfSnoc(g[..j], g[j], n);
  }

  lemma SentPrefix(generated: seq<Packet>, sent: seq<Packet>, j: nat)
    requires Erase(sent) <= generated && j < |sent|
    ensures Erase(sent[..j + 1]) == generated[..j + 1]
    ensures generated[j] == sent[j].(data := [])
  {
    assert generated[j] == Erase(sent)[j];
  }

  // Main result: when the last packet of a command is sent, and so when its completion is
  // signalled, all its packets have been sent.
  lemma ResponseMeansAllSent(run: seq<Sys>, es: seq<Event>, c: Cfg, i: nat, j: nat)
    requires IsRun(run, es, c) && i < |run| && j < |run[i].sent| && run[i].sent[j].isLast
    ensures var n := run[i].sent[j].number;
      && n < |run[i].accepted|
      && Of(Erase(run[i].sent[..j + 1]), n) == Split(run[i].accepted[n], c.max)
    ensures run[i].responses == LastIds(run[i].sent)
  {
    RunsAreSafe(run, es, c, i);
    SentInOrder(run, es, c, i);
    var s := run[i];
    var n := s.sent[j].number;
    SentPrefix(s.generated, s.sent, j);
    PacketsTileTheirCommand(run, es, c, i, n);
    MarkedEndsCommand(s.generated, j, n, Split(s.accepted[n], c.max));
  }

  // Main result: between two packets of a command at most 15 others are generated,
  // whatever arrives meanwhile.
  lemma RoundRobinIsFair(run: seq<Sys>, es: seq<Event>, c: Cfg, i: nat, a: nat, b: nat)
    requires IsRun(run, es, c) && i < |run| && a < b < |run[i].generated|
    requires run[i].generated[a].number == run[i].generated[b].number
    requires forall k :: a < k < b ==> run[i].generated[k].number != run[i].generated[b].number
    ensures b - a - 1 <= NUM_PARALLEL_CMD - 1
  {
    RunsAreSafe(run, es, c, i);
    assert FollowsSoon(run[i].generated, b);
  }

  lemma LastIdsOfFlow(generated: seq<Packet>, sent: seq<Packet>, network: seq<Packet>, dma: seq<Packet>,
                      responses: seq<nat>)
    requires FlowPart(generated, sent, network, dma, responses)
    ensures |LastIds(generated)| == |responses| + |LastIds(network + dma)|
  {
    LastIdsErase(sent + network + dma);
    AxiMaster.Reassociate(sent, network, dma);
    LastIdsConcat(sent, network + dma);
  }

  // Every command accepted so far is queued, on its way, or answered.
  lemma CommandsAreConserved(run: seq<Sys>, es: seq<Event>, c: Cfg, i: nat)
    requires IsRun(run, es, c) && i < |run|
    ensures var s := run[i];
      |s.responses| + |LastIds(s.nic.network + s.nic.dma)| + |s.nic.commands| == |s.accepted|
    ensures |run[i].nic.commands| <= NUM_PARALLEL_CMD && |run[i].nic.network| + |run[i].nic.dma| <= c.buffer
  {
    RunsAreSafe(run, es, c, i);
    var s := run[i];
    LastIdsOfFlow(s.generated, s.sent, s.nic.network, s.nic.dma, s.responses);
  }
}
