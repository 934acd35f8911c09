/** Every step of the outbound system keeps its invariant and meets the assertions of
    the source; what that gives over whole runs. */
module OutboundRuns {
  import opened AxiBurst
  import opened AxiWrite
  import opened AxiMaster
  import opened AxiMemory
  import opened Packetizer
  import opened ReadAccounting
  import opened ReadBytes
  import opened OutboundSystem
  import N = NicOutbound

  // ---------- Commands and the packets they are cut into ----------

  lemma OfSnoc(ps: seq<Packet>, p: Packet, n: nat)
    ensures Of(ps + [p], n) == Of(ps, n) + Own(p, n)
  {
    assert (ps + [p])[..|ps|] == ps;
  }

  lemma {:induction false} RestOfSnoc(cs: seq<Cmd>, c: Cmd, n: nat, max: nat)
    requires Configured(max)
    ensures RestOf(cs + [c], n, max) == RestOf(cs, n, max) + Part(c, n, max)
    decreases |cs|
  {
    if cs == [] {
      assert cs + [c] == [c] && [c][1..] == [];
      assert RestOf([c], n, max) == Part(c, n, max);
    } else {
      RestOfSnoc(cs[1..], c, n, max);
      assert (cs + [c])[1..] == cs[1..] + [c];
      Reassociate(Part(cs[0], n, max), RestOf(cs[1..], n, max), Part(c, n, max));
    }
  }

  lemma {:induction false} RestOfAbsent(cs: seq<Cmd>, n: nat, max: nat)
    requires Configured(max) && forall i :: 0 <= i < |cs| ==> cs[i].number != n
    ensures RestOf(cs, n, max) == []
    decreases |cs|
  {
    if cs != [] {
      RestOfAbsent(cs[1..], n, max);
    }
  }

  lemma {:induction false} OfAbsent(ps: seq<Packet>, n: nat)
    requires forall i :: 0 <= i < |ps| ==> ps[i].number != n
    ensures Of(ps, n) == []
    decreases |ps|
  {
    if ps != [] {
      OfAbsent(ps[..|ps| - 1], n);
    }
  }

  lemma AcceptKeepsSplit(cs: seq<Cmd>, accepted: seq<Cmd>, generated: seq<Packet>, c: Cmd, max: nat)
    requires Configured(max) && CommandsPart(cs, accepted, max) && SplitPart(cs, accepted, generated, max)
    requires c.number == |accepted|
    ensures SplitPart(cs + [c], accepted + [c], generated, max)
  {
    forall n | 0 <= n < |accepted| + 1
      ensures Of(generated, n) + RestOf(cs + [c], n, max) == Split((accepted + [c])[n], max)
    {
      RestOfSnoc(cs, c, n, max);
      if n == |accepted| {
        OfAbsent(generated, n);
        RestOfAbsent(cs, n, max);
      }
    }
  }

  // Taking a packet moves it from what is to come to what was generated.
  lemma TurnMovesOne(cs: seq<Cmd>, generated: seq<Packet>, n: nat, max: nat)
    requires Configured(max) && cs != [] && cs[0].length > 0
    requires forall i, j :: 0 <= i < j < |cs| ==> cs[i].number != cs[j].number
    ensures Of(generated + [Head(cs[0], max)], n) + RestOf(Turn(cs, max), n, max)
         == Of(generated, n) + RestOf(cs, n, max)
  {
    var h := Head(cs[0], max);
    OfSnoc(generated, h, n);
    TurnTakesHead(cs, n, max);
    Reassociate(Of(generated, n), Own(h, n), RestOf(Turn(cs, max), n, max));
  }

  lemma TurnTakesHead(cs: seq<Cmd>, n: nat, max: nat)
    requires Configured(max) && cs != [] && cs[0].length > 0
    requires forall i, j :: 0 <= i < j < |cs| ==> cs[i].number != cs[j].number
    ensures RestOf(cs, n, max) == Own(Head(cs[0], max), n) + RestOf(Turn(cs, max), n, max)
  {
    var later, t := RestOf(cs[1..], n, max), Part(Tail(cs[0], max), n, max);
    TurnRest(cs, n, max);
    if n == cs[0].number {
      RestOfAbsent(cs[1..], n, max);
      assert later + t == t && Part(cs[0], n, max) + later == Part(cs[0], n, max);
    } else {
      assert later + t == later && [] + later == later;
    }
  }

  lemma TurnRest(cs: seq<Cmd>, n: nat, max: nat)
    requires Configured(max) && cs != []
    ensures RestOf(Turn(cs, max), n, max) == RestOf(cs[1..], n, max) + Part(Tail(cs[0], max), n, max)
  {
    if Tail(cs[0], max).length > 0 {
      RestOfSnoc(cs[1..], Tail(cs[0], max), n, max);
    }
  }

  lemma PacketizeKeepsSplit(cs: seq<Cmd>, accepted: seq<Cmd>, generated: seq<Packet>, max: nat)
    requires Configured(max) && cs != [] && CommandsPart(cs, accepted, max) && SplitPart(cs, accepted, generated, max)
    ensures SplitPart(Turn(cs, max), accepted, generated + [Head(cs[0], max)], max)
  {
    forall n | 0 <= n < |accepted|
      ensures Of(generated + [Head(cs[0], max)], n) + RestOf(Turn(cs, max), n, max) == Split(accepted[n], max)
    {
      TurnMovesOne(cs, generated, n, max);
    }
  }

  lemma TurnKeepsCommands(cs: seq<Cmd>, accepted: seq<Cmd>, max: nat)
    requires Configured(max) && cs != [] && CommandsPart(cs, accepted, max)
    ensures CommandsPart(Turn(cs, max), accepted, max)
  {
    var q, t := Turn(cs, max), Tail(cs[0], max);
    assert forall i :: 0 <= i < |q| ==> q[i] == if i < |cs| - 1 then cs[i + 1] else t;
  }

  // ---------- Round robin ----------

  lemma AcceptKeepsFair(cs: seq<Cmd>, accepted: seq<Cmd>, generated: seq<Packet>, c: Cmd)
    requires FairPart(cs, generated) && c.number == |accepted|
    requires forall i :: 0 <= i < |generated| ==> generated[i].number < |accepted|
    ensures FairPart(cs + [c], generated)
  {
    assert RecentEnough(generated, c.number, |cs|);
  }

  lemma RecentShift(generated: seq<Packet>, h: Packet, number: nat, p: nat)
    requires p > 0 && RecentEnough(generated, number, p) && h.number != number
    ensures RecentEnough(generated + [h], number, p - 1)
  {
    if i :| 0 <= i < |generated| && generated[i].number == number && |generated| - 1 - i + p < NUM_PARALLEL_CMD {
      assert (generated + [h])[i].number == number;
    }
  }

  lemma FollowsKeeps(generated: seq<Packet>, h: Packet, j: nat)
    requires j < |generated| && FollowsSoon(generated, j)
    ensures FollowsSoon(generated + [h], j)
  {
    if i :| j - NUM_PARALLEL_CMD <= i < j && 0 <= i && generated[i].number == generated[j].number {
      assert (generated + [h])[i].number == (generated + [h])[j].number;
    }
  }

  lemma NewFollows(generated: seq<Packet>, h: Packet)
    requires RecentEnough(generated, h.number, 0)
    ensures FollowsSoon(generated + [h], |generated|)
  {
    if i :| 0 <= i < |generated| && generated[i].number == h.number && |generated| - 1 - i < NUM_PARALLEL_CMD {
      assert (generated + [h])[i].number == h.number;
    }
  }

  lemma PacketizeKeepsFair(cs: seq<Cmd>, generated: seq<Packet>, max: nat)
    requires Configured(max) && cs != [] && |cs| <= NUM_PARALLEL_CMD && FairPart(cs, generated)
    requires forall i, j :: 0 <= i < j < |cs| ==> cs[i].number != cs[j].number
    ensures FairPart(Turn(cs, max), generated + [Head(cs[0], max)])
  {
    var h, q := Head(cs[0], max), Turn(cs, max);
    var more := generated + [h];
    forall p | 0 <= p < |q|
      ensures RecentEnough(more, q[p].number, p)
    {
      if p < |cs| - 1 {
        assert q[p] == cs[p + 1];
        RecentShift(generated, h, cs[p + 1].number, p + 1);
      } else {
        assert more[|generated|].number == q[p].number;
      }
    }
    forall j | 0 <= j < |more|
      ensures FollowsSoon(more, j)
    {
      if j < |generated| {
        FollowsKeeps(generated, h, j);
      } else {
        assert RecentEnough(generated, cs[0].number, 0);
        NewFollows(generated, h);
      }
    }
  }

  // ---------- Reads ----------

  lemma {:induction false} DeliversFeeds(ss: seq<Slot>, r: Read)
    requires Delivers(ss, r.src, r.payload, r.got)
    ensures Feeds(ss, [r])
    decreases |ss|
  {
    if !ss[0].isLast {
      var next := r.(got := r.got + ss[0].dataLength);
      DeliversFeeds(ss[1..], next);
      assert [r][0 := next] == [next];
    }
  }

  lemma {:induction false} FeedsAppend(stream: seq<Slot>, rs: seq<Read>, more: seq<Slot>, r: Read)
    requires Feeds(stream, rs) && Feeds(more, [r])
    ensures Feeds(stream + more, rs + [r])
    decreases |stream|
  {
    if stream == [] {
      assert stream + more == more && rs + [r] == [r];
    } else {
      var next := rs[0].(got := rs[0].got + stream[0].dataLength);
      assert (stream + more)[0] == stream[0] && (stream + more)[1..] == stream[1..] + more;
      if stream[0].isLast {
        FeedsAppend(stream[1..], rs[1..], more, r);
        assert (rs + [r])[1..] == rs[1..] + [r];
      } else {
        FeedsAppend(stream[1..], rs[0 := next], more, r);
        assert (rs + [r])[0 := next] == rs[0 := next] + [r];
      }
    }
  }

  // A new read joins the ones in flight.
  lemma PacketizeKeepsReads(rq: seq<ReadEntry>, due: seq<Due>, ar: seq<AxBeat>, arrived: seq<Slot>,
                            rs: seq<Read>, src: nat, n: nat)
    requires ReadPart(rq, due + Dues(ar), arrived, rs) && n > 0
    ensures ReadPart(rq + [ReadEntry(n, Pages(src, n))], due + Dues(ar + AxBeats(Bursts(src, n))), arrived,
                     rs + [Read(src, n, 0)])
  {
    var e, axs := ReadEntry(n, Pages(src, n)), AxBeats(Bursts(src, n));
    DuesConcat(ar, axs);
    Reassociate(due, Dues(ar), Dues(axs));
    ReadDelivers(src, n);
    DeliversFeeds(Decode([e], Dues(axs)), Read(src, n, 0));
    JoinReads(rq, due + Dues(ar), e, Dues(axs), arrived, rs, Read(src, n, 0));
  }

  lemma JoinReads(rq: seq<ReadEntry>, due: seq<Due>, e: ReadEntry, more: seq<Due>, arrived: seq<Slot>,
                  rs: seq<Read>, r: Read)
    requires ReadPart(rq, due, arrived, rs) && Balanced([e], more) && Feeds(Decode([e], more), [r])
    ensures ReadPart(rq + [e], due + more, arrived, rs + [r])
  {
    DecodeAppend(rq, due, e, more);
    FeedsAppend(arrived + Decode(rq, due), rs, Decode([e], more), r);
    Reassociate(arrived, Decode(rq, due), Decode([e], more));
  }

  lemma ArriveKeepsReads(rq: seq<ReadEntry>, due: seq<Due>, later: seq<Due>, arrived: seq<Slot>, rs: seq<Read>)
    requires due != [] && ReadPart(rq, due + later, arrived, rs)
    ensures rq != []
    ensures ReadPart(TakeEntry(rq, due[0].last).0, due[1..] + later, arrived + [FirstSlot(rq, due[0])], rs)
  {
    var all := due + later;
    assert all[0] == due[0] && all[1..] == due[1..] + later;
    var rq', slot := TakeEntry(rq, due[0].last).0, FirstSlot(rq, due[0]);
    assert Decode(rq, all) == [slot] + Decode(rq', all[1..]);
    Reassociate(arrived, [slot], Decode(rq', all[1..]));
  }

  lemma ArriveKeepsBuffered(rq: seq<ReadEntry>, beat: RBeat, d: Due, rQueue: seq<RBuffered>,
                            arrived: seq<Slot>, m: Memory)
    requires rq != [] && Carried(d, beat, m) && BufferedPart(rQueue, arrived, m)
    ensures BufferedPart(rQueue + [TakeR(rq, beat).1], arrived + [FirstSlot(rq, d)], m)
    ensures TakeR(rq, beat).0 == TakeEntry(rq, d.last).0
  {
    ArrivalFills(rq, beat, d, m);
  }

  lemma TakeArKeepsDues(due: seq<Due>, ar: seq<AxBeat>)
    requires ar != []
    ensures (due + BeatDues(ar[0])) + Dues(ar[1..]) == due + Dues(ar)
  {}

  // The first buffered beat belongs to the first packet in flight.
  lemma FirstBeat(rq: seq<ReadEntry>, due: seq<Due>, rQueue: seq<RBuffered>, arrived: seq<Slot>, dma: seq<Packet>,
                  m: Memory) returns (p: Packet)
    requires ReadPart(rq, due, arrived, Reads(dma)) && BufferedPart(rQueue, arrived, m) && rQueue != []
    ensures dma != [] && p == N.Took(dma[0], rQueue[0]) && p.data == dma[0].data + rQueue[0].data
    ensures Placed(arrived[0], dma[0].src, dma[0].payload, |dma[0].data|) && Filled(rQueue[0], arrived[0], m)
    ensures rQueue[0].isLast ==> |p.data| == p.payload && ReadPart(rq, due, arrived[1..], Reads(dma[1..]))
    ensures !rQueue[0].isLast ==> ReadPart(rq, due, arrived[1..], Reads(dma[0 := p]))
  {
    var rest := Decode(rq, due);
    assert (arrived + rest)[0] == arrived[0] && (arrived + rest)[1..] == arrived[1..] + rest;
    assert Filled(rQueue[0], arrived[0], m);
    assert Reads(dma) != [];
    var b := rQueue[0];
    assert b.data[..Min(BUS_BYTES, |b.data|)] == b.data;
    p := N.Took(dma[0], b);
    if b.isLast {
      assert Reads(dma[1..]) == Reads(dma)[1..];
    } else {
      assert Reads(dma[0 := p]) == Reads(dma)[0 := Reads(dma)[0].(got := |p.data|)];
    }
  }

  lemma ReceiveIsSafe(s: Sys, c: Cfg)
    requires ReadPart(s.nic.readQueue, s.due + Dues(s.nic.ar), s.arrived, Reads(s.nic.dma))
    requires BufferedPart(s.nic.rQueue, s.arrived, c.mem)
    ensures ReceiveAssertions(s.nic)
  {
    if s.nic.rQueue != [] {
      var p := FirstBeat(s.nic.readQueue, s.due + Dues(s.nic.ar), s.nic.rQueue, s.arrived, s.nic.dma, c.mem);
    }
  }

  lemma ReceiveKeepsReads(s: Sys, c: Cfg)
    requires ReadPart(s.nic.readQueue, s.due + Dues(s.nic.ar), s.arrived, Reads(s.nic.dma))
    requires BufferedPart(s.nic.rQueue, s.arrived, c.mem) && ReceiveAssertions(s.nic)
    ensures var s' := ReceiveStep(s);
      && ReadPart(s'.nic.readQueue, s'.due + Dues(s'.nic.ar), s'.arrived, Reads(s'.nic.dma))
      && BufferedPart(s'.nic.rQueue, s'.arrived, c.mem)
  {
    if s.nic.rQueue != [] {
      var p := FirstBeat(s.nic.readQueue, s.due + Dues(s.nic.ar), s.nic.rQueue, s.arrived, s.nic.dma, c.mem);
    }
  }

  // The packet in flight gets the right bytes; the others keep theirs.
  lemma ReceiveKeepsBytes(s: Sys, c: Cfg)
    requires ReadPart(s.nic.readQueue, s.due + Dues(s.nic.ar), s.arrived, Reads(s.nic.dma))
    requires BufferedPart(s.nic.rQueue, s.arrived, c.mem) && ReceiveAssertions(s.nic)
    requires BytesPart(s.sent + s.nic.network + s.nic.dma, c.mem)
    ensures var s' := ReceiveStep(s); BytesPart(s'.sent + s'.nic.network + s'.nic.dma, c.mem)
  {
    if s.nic.rQueue != [] {
      var k, n := |s.sent + s.nic.network|, s.nic;
      var p := FirstBeat(n.readQueue, s.due + Dues(n.ar), n.rQueue, s.arrived, n.dma, c.mem);
      var flow := s.sent + n.network + n.dma;
      assert flow[k] == n.dma[0];
      AppendRight(p.src, p.payload, n.dma[0].data, n.rQueue[0], s.arrived[0], c.mem);
      ReceiveMoves(s, p);
      BytesUpdate(flow, k, p, c.mem);
    }
  }

  lemma BytesUpdate(ps: seq<Packet>, k: nat, p: Packet, m: Memory)
    requires BytesPart(ps, m) && k < |ps| && RightBytes(p.src, p.payload, p.data, m)
    ensures BytesPart(ps[k := p], m)
  {}

  // Receiving changes the first packet in flight, whether it moves on or not.
  lemma ReceiveMoves(s: Sys, p: Packet)
    requires ReceiveAssertions(s.nic) && s.nic.rQueue != [] && p == N.Took(s.nic.dma[0], s.nic.rQueue[0])
    ensures s.sent + N.Receive(s.nic).network + N.Receive(s.nic).dma
         == (s.sent + s.nic.network + s.nic.dma)[|s.sent + s.nic.network| := p]
  {
    var n := s.nic;
    if n.rQueue[0].isLast {
      assert s.sent + (n.network + [p]) == (s.sent + n.network) + [p];
      assert n.dma == [n.dma[0]] + n.dma[1..];
    }
  }

  // ---------- Flow ----------

  lemma {:induction false} LastIdsConcat(a: seq<Packet>, b: seq<Packet>)
    ensures LastIds(a + b) == LastIds(a) + LastIds(b)
    decreases |a|
  {
    if a == [] {
      assert a + b == b;
    } else {
      LastIdsConcat(a[1..], b);
      assert (a + b)[0] == a[0] && (a + b)[1..] == a[1..] + b;
      Reassociate(LastId(a[0]), LastIds(a[1..]), LastIds(b));
    }
  }

  lemma PacketizeKeepsFlow(generated: seq<Packet>, sent: seq<Packet>, network: seq<Packet>, dma: seq<Packet>,
                           responses: seq<nat>, p: Packet)
    requires FlowPart(generated, sent, network, dma, responses) && p.data == []
    ensures FlowPart(generated + [p], sent, network, dma + [p], responses)
  {
    assert sent + network + (dma + [p]) == (sent + network + dma) + [p];
  }

  lemma ReceiveKeepsFlow(s: Sys)
    requires FlowPart(s.generated, s.sent, s.nic.network, s.nic.dma, s.responses) && ReceiveAssertions(s.nic)
    ensures FlowPart(s.generated, s.sent, N.Receive(s.nic).network, N.Receive(s.nic).dma, s.responses)
    ensures |N.Receive(s.nic).network| + |N.Receive(s.nic).dma| == |s.nic.network| + |s.nic.dma|
  {
    if s.nic.rQueue != [] {
      var p := N.Took(s.nic.dma[0], s.nic.rQueue[0]);
      var flow, k := s.sent + s.nic.network + s.nic.dma, |s.sent + s.nic.network|;
      ReceiveMoves(s, p);
      assert s.sent + (s.nic.network + [p]) == (s.sent + s.nic.network) + [p];
      assert flow[k] == s.nic.dma[0];
      assert Erase(flow[k := p]) == Erase(flow);
    }
  }

  lemma TransmitKeepsFlow(s: Sys, cycles: nat)
    requires FlowPart(s.generated, s.sent, s.nic.network, s.nic.dma, s.responses)
    ensures var s' := TransmitStep(s, cycles);
      FlowPart(s'.generated, s'.sent, s'.nic.network, s'.nic.dma, s'.responses)
  {
    LastIdsConcat(s.sent, N.Transmit(s.nic, cycles).1);
    TransmitTakesFirst(s.nic, cycles, s.sent);
  }

  // What is sent comes off the front of the network queue.
  lemma TransmitTakesFirst(n: N.Nic, cycles: nat, sent: seq<Packet>)
    ensures (sent + N.Transmit(n, cycles).1) + N.Transmit(n, cycles).0.network == sent + n.network
  {
    var (nic, out) := N.Transmit(n, cycles);
    Reassociate(sent, out, nic.network);
    assert out + nic.network == n.network;
  }

  lemma {:induction false} LastIdsErase(ps: seq<Packet>)
    ensures LastIds(Erase(ps)) == LastIds(ps)
    decreases |ps|
  {
    if ps != [] {
      LastIdsErase(ps[1..]);
      assert Erase(ps)[1..] == Erase(ps[1..]);
    }
  }

  // The packet that ends a command is taken exactly when the command leaves the queue.
  lemma PacketizeKeepsCount(cs: seq<Cmd>, accepted: seq<Cmd>, generated: seq<Packet>, max: nat)
    requires Configured(max) && cs != [] && AnswersPart(cs, accepted, generated)
    ensures AnswersPart(Turn(cs, max), accepted, generated + [Head(cs[0], max)])
  {
    LastIdsConcat(generated, [Head(cs[0], max)]);
    assert LastIds([Head(cs[0], max)]) == LastId(Head(cs[0], max)) + LastIds([]);
  }

  // ---------- Runs ----------

  lemma InvIsSafe(s: Sys, e: Event, c: Cfg)
    requires Inv(s, c) && Enabled(s, e, c)
    ensures AssertionsHold(s, e, c)
  {
    match e
    case Arrive(_) => ArriveKeepsReads(s.nic.readQueue, s.due, Dues(s.nic.ar), s.arrived, Reads(s.nic.dma));
    case Receive => ReceiveIsSafe(s, c);
    case _ =>
  }

  lemma AcceptKeepsCommands(cs: seq<Cmd>, accepted: seq<Cmd>, c: Cmd, max: nat)
    requires CommandsPart(cs, accepted, max) && |cs| < NUM_PARALLEL_CMD
    requires Acceptable(c, max) && c.number == |accepted|
    ensures CommandsPart(cs + [c], accepted + [c], max)
  {}

  lemma CommandKeeps(s: Sys, cmd: Cmd, c: Cfg)
    requires Inv(s, c) && (|s.nic.commands| < NUM_PARALLEL_CMD ==> Acceptable(cmd, c.max))
    ensures Inv(CommandStep(s, cmd), c)
  {
    if |s.nic.commands| < NUM_PARALLEL_CMD {
      var numbered := cmd.(number := |s.accepted|);
      AcceptKeepsCommands(s.nic.commands, s.accepted, numbered, c.max);
      AcceptKeepsSplit(s.nic.commands, s.accepted, s.generated, numbered, c.max);
      AcceptKeepsFair(s.nic.commands, s.accepted, s.generated, numbered);
    }
  }

  lemma PacketizeKeeps(s: Sys, c: Cfg)
    requires Inv(s, c)
    ensures Inv(PacketizeStep(s, c), c)
  {
    if N.CanPacketize(s.nic, c.buffer) {
      var p := Head(s.nic.commands[0], c.max);
      TurnKeepsCommands(s.nic.commands, s.accepted, c.max);
      PacketizeKeepsSplit(s.nic.commands, s.accepted, s.generated, c.max);
      PacketizeKeepsFair(s.nic.commands, s.generated, c.max);
      PacketizeKeepsCount(s.nic.commands, s.accepted, s.generated, c.max);
      PacketizeKeepsFlow(s.generated, s.sent, s.nic.network, s.nic.dma, s.responses, p);
      PacketizeKeepsReads(s.nic.readQueue, s.due, s.nic.ar, s.arrived, Reads(s.nic.dma), p.src, p.payload);
      assert Reads(s.nic.dma + [p]) == Reads(s.nic.dma) + [Read(p.src, p.payload, 0)];
      assert s.sent + s.nic.network + (s.nic.dma + [p]) == (s.sent + s.nic.network + s.nic.dma) + [p];
    }
  }

  lemma ArriveKeeps(s: Sys, beat: RBeat, c: Cfg)
    requires Inv(s, c) && s.due != [] && Carried(s.due[0], beat, c.mem) && s.nic.readQueue != []
    ensures Inv(ArriveStep(s, beat), c)
  {
    ArriveKeepsReads(s.nic.readQueue, s.due, Dues(s.nic.ar), s.arrived, Reads(s.nic.dma));
    ArriveKeepsBuffered(s.nic.readQueue, beat, s.due[0], s.nic.rQueue, s.arrived, c.mem);
  }

  lemma ReceiveKeeps(s: Sys, c: Cfg)
    requires Inv(s, c) && ReceiveAssertions(s.nic)
    ensures Inv(ReceiveStep(s), c)
  {
    ReceiveKeepsReads(s, c);
    ReceiveKeepsBytes(s, c);
    ReceiveKeepsFlow(s);
  }

  lemma TransmitKeeps(s: Sys, cycles: nat, c: Cfg)
    requires Inv(s, c)
    ensures Inv(TransmitStep(s, cycles), c)
  {
    TransmitKeepsFlow(s, cycles);
    TransmitTakesFirst(s.nic, cycles, s.sent);
  }

  lemma StepKeeps(s: Sys, e: Event, c: Cfg)
    requires Inv(s, c) && Enabled(s, e, c)
    ensures AssertionsHold(s, e, c) && Inv(Step(s, e, c), c)
  {
    InvIsSafe(s, e, c);
    match e
    case Command(cmd) => CommandKeeps(s, cmd, c);
    case Packetize => PacketizeKeeps(s, c);
    case TakeAr => TakeArKeepsDues(s.due, s.nic.ar);
    case Arrive(beat) => ArriveKeeps(s, beat, c);
    case Receive => ReceiveKeeps(s, c);
    case Transmit(cycles) => TransmitKeeps(s, cycles, c);
  }

  lemma StartHolds(c: Cfg)
    requires Configured(c.max)
    ensures Inv(START, c)
  {}

  lemma RunKeeps(run: seq<Sys>, es: seq<Event>, c: Cfg, i: nat)
    requires IsRun(run, es, c) && i < |es| && Inv(run[i], c)
    ensures Inv(run[i + 1], c)
  {
    StepKeeps(run[i], es[i], c);
  }

  lemma {:induction false} RunsKeepInv(run: seq<Sys>, es: seq<Event>, c: Cfg, i: nat)
    requires IsRun(run, es, c) && i < |run|
    ensures Inv(run[i], c)
    decreases i
  {
    if i > 0 {
      RunsKeepInv(run, es, c, i - 1);
      RunKeeps(run, es, c, i - 1);
    } else {
      StartHolds(c);
    }
  }

  // Main result: in every run every assertion of the source holds and the invariant is kept.
  lemma RunsAreSafe(run: seq<Sys>, es: seq<Event>, c: Cfg, i: nat)
    requires IsRun(run, es, c) && i < |run|
    ensures Inv(run[i], c)
    ensures i < |es| ==> AssertionsHold(run[i], es[i], c)
  {
    RunsKeepInv(run, es, c, i);
    if i < |es| {
      InvIsSafe(run[i], es[i], c);
    }
  }
}
