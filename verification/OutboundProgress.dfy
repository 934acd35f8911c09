/** What every step of the outbound engine must do when it can, and that every command
    accepted is answered whatever order the steps come in. */
module OutboundProgress {
  import opened AxiBurst
  import opened AxiWrite
  import opened AxiMaster
  import opened AxiMemory
  import opened Packetizer
  import opened ReadAccounting
  import opened ReadBytes
  import opened OutboundSystem
  import opened OutboundRuns
  import OutboundTheorems
  import N = NicOutbound

  lemma RunStep(run: seq<Sys>, es: seq<Event>, c: Cfg, k: nat)
    requires IsRun(run, es, c) && k < |es|
    ensures Inv(run[k], c) && Enabled(run[k], es[k], c) && AssertionsHold(run[k], es[k], c)
    ensures run[k + 1] == Step(run[k], es[k], c)
  {
    RunsAreSafe(run, es, c, k);
  }

  // ---------- Step by step ----------

  // A command is taken exactly when one of the 16 slots is free.
  lemma CommandsAreTaken(run: seq<Sys>, es: seq<Event>, c: Cfg, k: nat, cmd: Cmd)
    requires IsRun(run, es, c) && k < |es| && es[k] == Command(cmd)
    ensures var taken := cmd.(number := |run[k].accepted|);
      |run[k].nic.commands| < 16 ==>
        && run[k + 1].accepted == run[k].accepted + [taken]
        && run[k + 1].nic == run[k].nic.(commands := run[k].nic.commands + [taken])
    ensures |run[k].nic.commands| >= 16 ==> run[k + 1] == run[k]
  {
    RunStep(run, es, c, k);
  }

  // A turn takes the next packet of the oldest command exactly when there is a command
  // and room in the engine, and issues its read.
  lemma TurnsAreTaken(run: seq<Sys>, es: seq<Event>, c: Cfg, k: nat)
    requires IsRun(run, es, c) && k < |es| && es[k] == Packetize
    ensures var n, n' := run[k].nic, run[k + 1].nic;
      if n.commands != [] && |n.network| + |n.dma| < c.buffer then
        && |run[k + 1].generated| == |run[k].generated| + 1 && run[k].generated <= run[k + 1].generated
        && var p := run[k + 1].generated[|run[k].generated|];
          && p.number == n.commands[0].number && p.src == n.commands[0].src && n'.dma == n.dma + [p]
          && n'.readQueue == n.readQueue + [ReadEntry(p.payload, Pages(p.src, p.payload))]
          && n'.ar == n.ar + AxBeats(Bursts(p.src, p.payload))
      else run[k + 1] == run[k]
  {
    RunStep(run, es, c, k);
  }

  // A buffered beat is always consumed: its bytes go to the oldest packet, and when they
  // complete it the packet goes to the network.
  lemma BeatsAreConsumed(run: seq<Sys>, es: seq<Event>, c: Cfg, k: nat)
    requires IsRun(run, es, c) && k < |es| && es[k] == Receive
    ensures var n, n' := run[k].nic, run[k + 1].nic;
      if n.rQueue != [] then
        && n.dma != [] && n'.rQueue == n.rQueue[1..]
        && var p := n.dma[0].(data := n.dma[0].data + n.rQueue[0].data[..Min(BUS_BYTES, |n.rQueue[0].data|)]);
           if n.rQueue[0].isLast
           then |p.data| == p.payload && n'.network == n.network + [p] && n'.dma == n.dma[1..]
           else n'.network == n.network && n'.dma == [p] + n.dma[1..]
      else run[k + 1] == run[k]
  {
    RunStep(run, es, c, k);
  }

  // The oldest complete packet is sent exactly when the network is free.
  lemma PacketsAreSent(run: seq<Sys>, es: seq<Event>, c: Cfg, k: nat, cycles: nat)
    requires IsRun(run, es, c) && k < |es| && es[k] == Transmit(cycles)
    ensures var n, n' := run[k].nic, run[k + 1].nic;
      if n.wait <= 1 && n.network != [] then
        && run[k + 1].sent == run[k].sent + [n.network[0]]
        && n' == n.(network := n.network[1..], wait := cycles)
      else run[k + 1] == run[k].(nic := n.(wait := if n.wait > 1 then n.wait - 1 else 0))
  {
    RunStep(run, es, c, k);
    var s := run[k];
    if s.nic.wait <= 1 && s.nic.network != [] {
      assert s.sent + [s.nic.network[0]] == s.sent + N.Transmit(s.nic, cycles).1;
    } else {
      assert s.sent + [] == s.sent && s.responses + LastIds([]) == s.responses;
    }
  }

  // The turns of progress_netqueue from step i up to step j.
  function Turns(es: seq<Event>, i: nat, j: nat): nat
    requires i <= j <= |es|
    decreases j
  {
    if i == j then 0 else Turns(es, i, j - 1) + if es[j - 1].Transmit? then 1 else 0
  }

  lemma OnlyTurnsSend(s: Sys, e: Event, c: Cfg)
    requires Configured(c.max) && Enabled(s, e, c) && AssertionsHold(s, e, c) && !e.Transmit?
    ensures Step(s, e, c).nic.wait == s.nic.wait && Step(s, e, c).sent == s.sent
  {}

  // Main result: a packet holds the network for the turns it takes, and no other is sent
  // meanwhile.
  lemma {:induction false} NetworkIsHeld(run: seq<Sys>, es: seq<Event>, c: Cfg, i: nat, k: nat, wait: nat)
    requires IsRun(run, es, c) && i <= k <= |es| && run[i].nic.wait == wait && Turns(es, i, k) < wait
    ensures run[k].nic.wait == wait - Turns(es, i, k) && run[k].sent == run[i].sent
    decreases k
  {
    if i < k {
      NetworkIsHeld(run, es, c, i, k - 1, wait);
      if es[k - 1].Transmit? {
        PacketsAreSent(run, es, c, k - 1, es[k - 1].cycles);
      } else {
        RunStep(run, es, c, k - 1);
        OnlyTurnsSend(run[k - 1], es[k - 1], c);
      }
    }
  }

  // ---------- Every command is answered ----------

  // A step of the engine, the memory or the network that moves a command on.
  predicate Moves(s: Sys, e: Event, c: Cfg) {
    match e
    case Command(_) => false
    case Packetize => s.nic.commands != [] && |s.nic.network| + |s.nic.dma| < c.buffer
    case TakeAr => s.nic.ar != []
    case Arrive(_) => s.due != []
    case Receive => s.nic.rQueue != []
    case Transmit(_) => s.nic.wait > 1 || s.nic.network != []
  }

  function TotalLength(cs: seq<Cmd>): nat {
    if cs == [] then 0 else cs[0].length + TotalLength(cs[1..])
  }

  // What is left to do, most significant first.
  datatype Rank = Rank(bytes: nat, addresses: nat, beats: nat, buffered: nat, packets: nat, wait: nat)

  function RankOf(s: Sys): Rank {
    Rank(TotalLength(s.nic.commands), |s.nic.ar|, |s.due|, |s.nic.rQueue|, |s.nic.network|, s.nic.wait)
  }

  predicate Below(a: Rank, b: Rank) {
    || a.bytes < b.bytes
    || (a.bytes == b.bytes && (
        || a.addresses < b.addresses
        || (a.addresses == b.addresses && (
            || a.beats < b.beats
            || (a.beats == b.beats && (
                || a.buffered < b.buffered
                || (a.buffered == b.buffered && (
                    a.packets < b.packets || (a.packets == b.packets && a.wait < b.wait)))))))))
  }

  lemma {:induction false} TotalLengthSnoc(cs: seq<Cmd>, c: Cmd)
    ensures TotalLength(cs + [c]) == TotalLength(cs) + c.length
    decreases |cs|
  {
    if cs == [] {
      assert ([c])[1..] == [];
    } else {
      assert (cs + [c])[1..] == cs[1..] + [c];
      TotalLengthSnoc(cs[1..], c);
    }
  }

  lemma TurnTakesBytes(cs: seq<Cmd>, max: nat)
    requires Configured(max) && cs != [] && cs[0].length > 0
    ensures TotalLength(Turn(cs, max)) < TotalLength(cs)
  {
    TotalLengthSnoc(cs[1..], Tail(cs[0], max));
  }

  // Main result: every step that moves a command on brings the engine closer to its end,
  // however long a packet holds the network.
  lemma MovesDescend(run: seq<Sys>, es: seq<Event>, c: Cfg, k: nat)
    requires IsRun(run, es, c) && k < |es| && Moves(run[k], es[k], c)
    ensures Below(RankOf(run[k + 1]), RankOf(run[k]))
    ensures run[k + 1].accepted == run[k].accepted
  {
    RunStep(run, es, c, k);
    MoveDescends(run[k], es[k], c);
  }

  lemma MoveDescends(s: Sys, e: Event, c: Cfg)
    requires Inv(s, c) && Enabled(s, e, c) && AssertionsHold(s, e, c) && Moves(s, e, c)
    ensures Below(RankOf(Step(s, e, c)), RankOf(s)) && Step(s, e, c).accepted == s.accepted
  {
    if e.Packetize? {
      TurnTakesBytes(s.nic.commands, c.max);
    }
  }

  // The memory can always answer.
  function Answer(d: Due, m: Memory): RBeat {
    RBeat(seq(BUS_BYTES, l requires 0 <= l < BUS_BYTES => m(d.line + l)), d.last)
  }

  lemma ReadsAreFed(s: Sys, c: Cfg)
    requires Inv(s, c) && s.nic.dma != []
    ensures s.nic.ar != [] || s.due != [] || s.nic.rQueue != []
  {
    if s.nic.ar == [] && s.due == [] && s.nic.rQueue == [] {
      NothingFeeds(s.nic.readQueue, s.due, s.arrived, Reads(s.nic.dma));
    }
  }

  lemma NothingFeeds(rq: seq<ReadEntry>, due: seq<Due>, arrived: seq<Slot>, rs: seq<Read>)
    requires ReadPart(rq, due + Dues([]), arrived, rs) && due == [] && arrived == []
    ensures rs == []
  {
    assert due + Dues([]) == [];
    assert arrived + Decode(rq, []) == [];
  }

  lemma SomethingMoves(s: Sys, c: Cfg) returns (e: Event)
    requires Inv(s, c) && c.buffer > 0
    requires s.nic.commands != [] || s.nic.network != [] || s.nic.dma != []
    ensures Enabled(s, e, c) && Moves(s, e, c)
  {
    if s.nic.network != [] {
      e := Transmit(0);
    } else if s.nic.dma == [] {
      e := Packetize;
    } else {
      ReadsAreFed(s, c);
      if s.nic.ar != [] {
        e := TakeAr;
      } else if s.due != [] {
        e := Arrive(Answer(s.due[0], c.mem));
      } else {
        e := Receive;
      }
    }
  }

  // Main result: when no step is left that moves a command on, every command accepted has
  // had all its packets sent and its response given.
  lemma QuietMeansAnswered(run: seq<Sys>, es: seq<Event>, c: Cfg, k: nat)
    requires IsRun(run, es, c) && k < |run| && c.buffer > 0
    requires forall e :: Enabled(run[k], e, c) ==> !Moves(run[k], e, c)
    ensures |run[k].responses| == |run[k].accepted| && Erase(run[k].sent) == run[k].generated
    ensures forall n :: 0 <= n < |run[k].accepted| ==>
      Of(run[k].generated, n) == Split(run[k].accepted[n], c.max)
  {
    RunsAreSafe(run, es, c, k);
    OutboundTheorems.CommandsAreConserved(run, es, c, k);
    var s := run[k];
    if s.nic.commands != [] || s.nic.network != [] || s.nic.dma != [] {
      var e := SomethingMoves(s, c);
    }
    assert s.sent + [] + [] == s.sent;
    forall n | 0 <= n < |s.accepted|
      ensures Of(s.generated, n) == Split(s.accepted[n], c.max)
    {
      OutboundTheorems.PacketsTileTheirCommand(run, es, c, k, n);
    }
  }

  lemma Extend(run: seq<Sys>, es: seq<Event>, c: Cfg, e: Event, s': Sys)
    requires IsRun(run, es, c) && Enabled(run[|es|], e, c)
    requires AssertionsHold(run[|es|], e, c) && s' == Step(run[|es|], e, c)
    ensures IsRun(run + [s'], es + [e], c)
  {}

  lemma NextMove(run: seq<Sys>, es: seq<Event>, c: Cfg) returns (e: Event, s': Sys)
    requires IsRun(run, es, c) && c.buffer > 0
    requires var n := run[|es|].nic; n.commands != [] || n.network != [] || n.dma != []
    ensures IsRun(run + [s'], es + [e], c)
    ensures Below(RankOf(s'), RankOf(run[|es|])) && s'.accepted == run[|es|].accepted
  {
    var s := run[|es|];
    RunsAreSafe(run, es, c, |es|);
    e := SomethingMoves(s, c);
    InvIsSafe(s, e, c);
    MoveDescends(s, e, c);
    s' := Step(s, e, c);
    Extend(run, es, c, e, s');
  }

  // So from every state of every run the engine can finish what it has accepted.
  lemma {:induction false} CanFinish(run: seq<Sys>, es: seq<Event>, c: Cfg, rank: Rank)
    returns (run': seq<Sys>, es': seq<Event>)
    requires IsRun(run, es, c) && c.buffer > 0 && rank == RankOf(run[|es|])
    ensures IsRun(run', es', c) && run <= run' && es <= es'
    ensures |run'[|es'|].responses| == |run'[|es'|].accepted| && run'[|es'|].accepted == run[|es|].accepted
    decreases rank.bytes, rank.addresses, rank.beats, rank.buffered, rank.packets, rank.wait
  {
    run', es' := run, es;
    var n := run[|es|].nic;
    if n.commands != [] || n.network != [] || n.dma != [] {
      var e, s' := NextMove(run, es, c);
      run', es' := CanFinish(run + [s'], es + [e], c, RankOf(s'));
    } else {
      OutboundTheorems.CommandsAreConserved(run, es, c, |es|);
    }
  }
}
