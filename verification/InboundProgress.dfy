/** What every step of the inbound engine must do when it can: when a packet is
    admitted, when a HER becomes ready and is sent, and that nothing stays behind. */
module InboundProgress {
  import opened AxiBurst
  import opened AxiWrite
  import opened AxiMemory
  import opened InboundBus
  import opened NicInbound
  import opened InboundSystem
  import opened InboundSafety
  import opened InboundRuns
  import InboundAcks
  import PR = PacketRing

  // ---------- Admission ----------

  // Where the allocator puts `size` bytes, if there is room.
  function Place(r: PR.Ring, size: nat, cap: nat): nat {
    if r.cut || PR.Rounded(size) <= cap - r.tail then r.tail else 0
  }

  lemma FirstIsSizable(ps: seq<Packet>)
    requires AllSizable(ps) && ps != []
    ensures PR.Sizable(|ps[0].data|)
  {
    assert ps[0] in ps;
  }

  // An attempt is made once the wait is over, and comes to what the allocator says.
  lemma AttemptIsAllocation(n: Nic, base: nat, cap: nat, p: Packet, off: PR.Option<nat>)
    requires n.incoming != [] && p == n.incoming[0] && n.wait <= 1
    requires off == PR.Allocate(n.ring, PR.Rounded(|p.data|), cap).1
    ensures NicInbound.Admit(n, base, cap).1 == off
    ensures off.Some? ==> NicInbound.Admit(n, base, cap).0.wait == p.wait
    ensures off.None? ==> NicInbound.Admit(n, base, cap).0 == n.(wait := 0)
  {}

  lemma RoomIsTaken(s: Sys, l: PR.Layout, c: Cfg, size: nat)
    requires BufferInv(s, l, c) && PR.Sizable(size)
    ensures PR.Allocate(s.nic.ring, PR.Rounded(size), c.cap).1 ==
      if PR.HasRoom(s.nic.ring, PR.Rounded(size), c.cap) then PR.Some(Place(s.nic.ring, size, c.cap)) else PR.None
  {
    PR.RoundingCoversExactlySizable(size);
    PR.AllocatesExactly(s.nic.ring, l, PR.Rounded(size), c.cap);
  }

  lemma AttemptSucceeds(s: Sys, s': Sys, c: Cfg, p: Packet, off: nat)
    requires s.nic.incoming != [] && p == s.nic.incoming[0] && s' == AdmitStep(s, c)
    requires NicInbound.Admit(s.nic, c.base, c.cap).1 == PR.Some(off)
    ensures s'.nic.incoming == s.nic.incoming[1..] && s'.out == s.out[off := |p.data|]
    ensures s'.nic.queued == s.nic.queued + [Her(p.id, c.base + off, |p.data|)]
    ensures s'.admitted == s.admitted + [Her(p.id, c.base + off, |p.data|)]
  {
    AdmitCases(s, c);
  }

  lemma AdmitIsStep(run: seq<Sys>, es: seq<Event>, c: Cfg, k: nat) returns (w: Wit)
    requires Aligned(c) && IsRun(run, es, c) && k < |es| && es[k] == Admit
    ensures Inv(run[k], w, c) && run[k + 1] == AdmitStep(run[k], c)
  {
    w := RunsAreSafe(run, es, c, k);
  }

  // Main result: once the wait is over the oldest packet is admitted exactly when there is
  // room for it; it goes to its place, its HER is queued and its wait begins.
  lemma AdmitsExactly(run: seq<Sys>, es: seq<Event>, c: Cfg, k: nat, p: Packet, off: nat, her: Her)
    requires Aligned(c) && IsRun(run, es, c) && k < |es| && es[k] == Admit
    requires run[k].nic.incoming != [] && p == run[k].nic.incoming[0] && run[k].nic.wait <= 1
    requires off == Place(run[k].nic.ring, |p.data|, c.cap) && her == Her(p.id, c.base + off, |p.data|)
    ensures var n, n' := run[k].nic, run[k + 1].nic;
      PR.HasRoom(n.ring, PR.Rounded(|p.data|), c.cap) ==>
        && n'.incoming == n.incoming[1..] && n'.queued == n.queued + [her] && n'.wait == p.wait
        && run[k + 1].admitted == run[k].admitted + [her]
        && run[k + 1].out == run[k].out[off := |p.data|]
    ensures !PR.HasRoom(run[k].nic.ring, PR.Rounded(|p.data|), c.cap) ==>
      run[k + 1] == Waited(run[k], 0)
  {
    var w := AdmitIsStep(run, es, c, k);
    AdmitsByRoom(run[k], run[k + 1], w.layout, c, p, off);
  }

  lemma AdmitsByRoom(s: Sys, s': Sys, l: PR.Layout, c: Cfg, p: Packet, off: nat)
    requires BufferInv(s, l, c) && AllSizable(s.nic.incoming) && s' == AdmitStep(s, c)
    requires s.nic.incoming != [] && p == s.nic.incoming[0] && s.nic.wait <= 1
    requires off == Place(s.nic.ring, |p.data|, c.cap)
    ensures PR.HasRoom(s.nic.ring, PR.Rounded(|p.data|), c.cap) ==>
        && s'.nic.incoming == s.nic.incoming[1..] && s'.nic.wait == p.wait && s'.out == s.out[off := |p.data|]
        && s'.nic.queued == s.nic.queued + [Her(p.id, c.base + off, |p.data|)]
        && s'.admitted == s.admitted + [Her(p.id, c.base + off, |p.data|)]
    ensures !PR.HasRoom(s.nic.ring, PR.Rounded(|p.data|), c.cap) ==> s' == Waited(s, 0)
  {
    FirstIsSizable(s.nic.incoming);
    RoomIsTaken(s, l, c, |p.data|);
    AttemptIsAllocation(s.nic, c.base, c.cap, p, PR.Allocate(s.nic.ring, PR.Rounded(|p.data|), c.cap).1);
    if PR.HasRoom(s.nic.ring, PR.Rounded(|p.data|), c.cap) {
      AttemptSucceeds(s, s', c, p, off);
    }
  }

  // Otherwise only the wait goes on, and only while a packet is waiting.
  lemma WaitsExactly(run: seq<Sys>, es: seq<Event>, c: Cfg, k: nat)
    requires Aligned(c) && IsRun(run, es, c) && k < |es| && es[k] == Admit
    ensures run[k].nic.incoming == [] ==> run[k + 1] == run[k]
    ensures run[k].nic.incoming != [] && run[k].nic.wait > 1 ==>
      run[k + 1] == Waited(run[k], run[k].nic.wait - 1)
  {
    RunStep(run, es, c, k);
  }

  // A turn of progress_incoming_packets that finds a packet.
  predicate Turn(s: Sys, e: Event) { e == Admit && s.nic.incoming != [] }

  // The turns from step i up to step j.
  function Turns(run: seq<Sys>, es: seq<Event>, i: nat, j: nat): nat
    requires |run| == |es| + 1 && i <= j <= |es|
    decreases j
  {
    if i == j then 0 else Turns(run, es, i, j - 1) + if Turn(run[j - 1], es[j - 1]) then 1 else 0
  }

  lemma OnlyTurnsWait(s: Sys, e: Event, c: Cfg)
    requires Enabled(s, e) && AssertionsHold(s, e, c) && !Turn(s, e)
    ensures Step(s, e, c).nic.wait == s.nic.wait && Step(s, e, c).admitted == s.admitted
  {}

  // Main result: after a packet that asks for a wait, that many turns pass before another
  // is admitted.
  lemma {:induction false} PacketsAreSpaced(run: seq<Sys>, es: seq<Event>, c: Cfg, i: nat, k: nat, wait: nat)
    requires Aligned(c) && IsRun(run, es, c) && i <= k <= |es| && run[i].nic.wait == wait
    requires Turns(run, es, i, k) < wait
    ensures run[k].nic.wait == wait - Turns(run, es, i, k)
    ensures run[k].admitted == run[i].admitted
    decreases k
  {
    if i < k {
      PacketsAreSpaced(run, es, c, i, k - 1, wait);
      RunStep(run, es, c, k - 1);
      if Turn(run[k - 1], es[k - 1]) {
        WaitsExactly(run, es, c, k - 1);
      } else {
        OnlyTurnsWait(run[k - 1], es[k - 1], c);
      }
    }
  }

  // ---------- Responses and HERs ----------

  // A completion makes the oldest queued HER ready; any other response only goes away.
  lemma CompletionsRelease(run: seq<Sys>, es: seq<Event>, c: Cfg, k: nat)
    requires Aligned(c) && IsRun(run, es, c) && k < |es| && es[k] == Respond
    ensures var n, n' := run[k].nic, run[k + 1].nic;
      && (n.bQueue == [] ==> n' == n)
      && (n.bQueue != [] && n.bQueue[0] ==>
           n.queued != [] && n' == n.(bQueue := n.bQueue[1..], ready := n.ready + [n.queued[0]],
                                      queued := n.queued[1..]))
      && (n.bQueue != [] && !n.bQueue[0] ==> n' == n.(bQueue := n.bQueue[1..]))
  {
    RunStep(run, es, c, k);
  }

  // A HER is sent exactly when PsPIN is ready and a HER is.
  lemma HersAreSent(run: seq<Sys>, es: seq<Event>, c: Cfg, k: nat, herReady: bool)
    requires Aligned(c) && IsRun(run, es, c) && k < |es| && es[k] == Send(herReady)
    ensures var s, s' := run[k], run[k + 1];
      if herReady && s.nic.ready != [] then
        var her := s.nic.ready[0];
        && s'.sent == s.sent + [her.id] && s'.nic.ready == s.nic.ready[1..]
        && s'.nic.pktmap == s.nic.pktmap[her.addr := her.size]
      else s' == s
  {
    RunStep(run, es, c, k);
  }

  // ---------- Nothing stays behind ----------

  // A step that moves an admitted packet on.
  predicate Moves(s: Sys, e: Event) {
    match e
    case Deliver => s.nic.aw != [] && s.nic.w != []
    case AckBurst => s.owed > 0
    case Respond => s.nic.bQueue != []
    case Send(herReady) => herReady && s.nic.ready != []
    case _ => false
  }

  // The steps the admitted packets still need, at most.
  function Work(s: Sys): nat {
    5 * |s.nic.w| + 4 * s.owed + 3 * |s.nic.bQueue| + |s.nic.ready|
  }

  lemma MovesWork(s: Sys, e: Event, c: Cfg)
    requires Enabled(s, e) && AssertionsHold(s, e, c) && Moves(s, e)
    ensures Work(Step(s, e, c)) < Work(s) && Step(s, e, c).admitted == s.admitted
  {}

  lemma FlatNonEmpty(obs: seq<Owned>, taken: nat)
    requires WellFormed(obs) && obs != [] && taken <= obs[0].burst.ax.len
    ensures taken < |Flat(obs)|
  {
    FirstFits(obs);
  }

  lemma SomethingMoves(s: Sys, w: Wit, c: Cfg) returns (e: Event)
    requires Inv(s, w, c) && s.nic.ready + s.nic.queued != []
    ensures Enabled(s, e) && Moves(s, e)
  {
    if s.nic.ready != [] {
      e := Send(true);
    } else if s.nic.bQueue != [] {
      e := Respond;
    } else if s.owed > 0 {
      e := AckBurst;
    } else {
      e := Deliver;
      assert Completions(s.nic.bQueue) == 0;
      assert Addrs(s.nic.queued)[0..] != [];
      assert w.unacked[0..] == w.unacked != [];
      FlatNonEmpty(w.unacked, s.taken);
    }
  }

  // Main result: while only steps are taken that move admitted packets on, there are at
  // most Work of them, in whatever order; when none is left to take, the HER of every
  // packet admitted has been sent, in order.
  lemma {:induction false} AdmittedPacketsAreSent(run: seq<Sys>, es: seq<Event>, c: Cfg, i: nat, k: nat)
    requires Aligned(c) && IsRun(run, es, c) && i <= k <= |es|
    requires forall j :: i <= j < k ==> Moves(run[j], es[j])
    ensures k - i + Work(run[k]) <= Work(run[i]) && run[k].admitted == run[i].admitted
    ensures (forall e :: Enabled(run[k], e) ==> !Moves(run[k], e)) ==>
      |run[k].sent| == |run[k].admitted|
      && forall j :: 0 <= j < |run[k].sent| ==> run[k].sent[j] == run[k].admitted[j].id
    decreases k
  {
    if i < k {
      AdmittedPacketsAreSent(run, es, c, i, k - 1);
      RunStep(run, es, c, k - 1);
      MovesWork(run[k - 1], es[k - 1], c);
    }
    var w := RunsAreSafe(run, es, c, k);
    InboundAcks.RunsCountAcks(run, es, c, k);
    if run[k].nic.ready + run[k].nic.queued != [] {
      var e := SomethingMoves(run[k], w, c);
    }
  }
}
