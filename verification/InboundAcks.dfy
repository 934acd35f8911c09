/** Which packets' writes are complete: the responses accepted so far, counted against
    the bursts issued for each packet in the order of admission. */
module InboundAcks {
  import opened AxiBurst
  import opened AxiMaster
  import opened AxiWrite
  import opened NicInbound
  import opened InboundSystem
  import opened InboundRuns
  import PR = PacketRing

  function Sum(ns: seq<nat>): nat {
    if ns == [] then 0 else ns[0] + Sum(ns[1..])
  }

  // The number of bursts issued for each HER.
  function Issued(hers: seq<Her>): (ns: seq<nat>)
    ensures |ns| == |hers|
  {
    seq(|hers|, i requires 0 <= i < |hers| => Pages(hers[i].addr, hers[i].size))
  }

  lemma {:induction false} SumConcat(a: seq<nat>, b: seq<nat>)
    ensures Sum(a + b) == Sum(a) + Sum(b)
    decreases |a|
  {
    if a == [] {
      assert a + b == b;
    } else {
      SumConcat(a[1..], b);
      assert (a + b)[0] == a[0] && (a + b)[1..] == a[1..] + b;
    }
  }

  // The write queue is the tail of the counts issued, its first entry partly worked off.
  predicate WorkLeft(issued: seq<nat>, writeQueue: seq<nat>, acked: nat) {
    && |writeQueue| <= |issued|
    && (forall i :: 0 <= i < |issued| ==> issued[i] > 0)
    && var done := |issued| - |writeQueue|;
    && (writeQueue != [] ==>
      0 < writeQueue[0] <= issued[done] && writeQueue[1..] == issued[done + 1..])
    && acked + Sum(writeQueue) == Sum(issued)
  }

  lemma IssueKeeps(issued: seq<nat>, writeQueue: seq<nat>, acked: nat, n: nat)
    requires WorkLeft(issued, writeQueue, acked) && n > 0
    ensures WorkLeft(issued + [n], writeQueue + [n], acked)
  {
    SumConcat(issued, [n]);
    SumConcat(writeQueue, [n]);
    assert Sum([n]) == n;
    if writeQueue != [] {
      assert (writeQueue + [n])[1..] == writeQueue[1..] + [n];
    }
  }

  lemma AckKeeps(issued: seq<nat>, writeQueue: seq<nat>, acked: nat)
    requires WorkLeft(issued, writeQueue, acked) && writeQueue != []
    ensures WorkLeft(issued, TakeB(writeQueue).0, acked + 1)
    ensures TakeB(writeQueue).1 <==> writeQueue[0] == 1
  {
    var rest := TakeB(writeQueue).0;
    assert Sum(writeQueue) == writeQueue[0] + Sum(writeQueue[1..]);
    if writeQueue[0] > 1 {
      assert rest[1..] == writeQueue[1..];
    }
  }

  // The entries before the write queue are worked off completely, the first entry of the
  // queue is not.
  lemma DoneExactly(issued: seq<nat>, writeQueue: seq<nat>, acked: nat, n: nat)
    requires WorkLeft(issued, writeQueue, acked) && n <= |issued|
    ensures n <= |issued| - |writeQueue| <==> Sum(issued[..n]) <= acked
  {
    var done := |issued| - |writeQueue|;
    SplitSum(issued, done);
    if writeQueue == [] {
      SplitSum(issued, n);
    } else {
      assert issued[done..] == [issued[done]] + issued[done + 1..];
      assert Sum(issued[done..]) == issued[done] + Sum(issued[done + 1..]);
      assert Sum(writeQueue) == writeQueue[0] + Sum(writeQueue[1..]);
      if n <= done {
        PrefixSums(issued, n, done);
      } else {
        assert issued[..done + 1] == issued[..done] + [issued[done]];
        SumConcat(issued[..done], [issued[done]]);
        assert Sum([issued[done]]) == issued[done];
        PrefixSums(issued, done + 1, n);
      }
    }
  }

  lemma SplitSum(ns: seq<nat>, k: nat)
    requires k <= |ns|
    ensures Sum(ns) == Sum(ns[..k]) + Sum(ns[k..])
  {
    SumConcat(ns[..k], ns[k..]);
    assert ns[..k] + ns[k..] == ns;
  }

  lemma PrefixSums(ns: seq<nat>, j: nat, k: nat)
    requires j <= k <= |ns|
    ensures Sum(ns[..j]) <= Sum(ns[..k])
  {
    SplitSum(ns[..k], j);
    assert ns[..k][..j] == ns[..j];
  }

  // ---------- Runs ----------

  // HERs sent, ready and queued are those admitted, in order.
  predicate ListPart(sent: seq<nat>, hers: seq<Her>, admitted: seq<Her>) {
    && |sent| + |hers| == |admitted| && admitted[|sent|..] == hers
    && (forall j :: 0 <= j < |sent| ==> sent[j] == admitted[j].id)
  }

  // Every queued HER has an entry in the write queue or a completion not consumed yet.
  predicate AckInv(s: Sys) {
    && ListPart(s.sent, s.nic.ready + s.nic.queued, s.admitted)
    && |s.nic.writeQueue| + Completions(s.nic.bQueue) == |s.nic.queued|
    && WorkLeft(Issued(s.admitted), s.nic.writeQueue, s.acked)
  }

  lemma {:induction false} CompletionsSnoc(bQueue: seq<bool>, b: bool)
    ensures Completions(bQueue + [b]) == Completions(bQueue) + if b then 1 else 0
    decreases |bQueue|
  {
    if bQueue == [] {
      assert (bQueue + [b])[1..] == [];
    } else {
      assert (bQueue + [b])[1..] == bQueue[1..] + [b];
      CompletionsSnoc(bQueue[1..], b);
    }
  }

  lemma PagesPositive(addr: nat, n: nat)
    requires n > 0
    ensures Pages(addr, n) > 0
  {}

  lemma AdmitLists(sent: seq<nat>, hers: seq<Her>, admitted: seq<Her>, her: Her)
    requires ListPart(sent, hers, admitted)
    ensures ListPart(sent, hers + [her], admitted + [her])
    ensures Issued(admitted + [her]) == Issued(admitted) + [Pages(her.addr, her.size)]
  {
    assert (admitted + [her])[|sent|..] == admitted[|sent|..] + [her];
  }

  lemma AdmitAcks(s: Sys, s': Sys, c: Cfg, p: Packet, off: nat, addr: nat, n: nat, data: seq<Byte>)
    requires AckInv(s) && n > 0 && Admitted(s, s', c, p, off, addr, n, data)
    ensures AckInv(s')
  {
    var her := Her(p.id, addr, n);
    PagesPositive(addr, n);
    IssueKeeps(Issued(s.admitted), s.nic.writeQueue, s.acked, Pages(addr, n));
    AdmitLists(s.sent, s.nic.ready + s.nic.queued, s.admitted, her);
    assert s'.nic.ready + s'.nic.queued == (s.nic.ready + s.nic.queued) + [her];
  }

  lemma AdmitStepAcks(s: Sys, c: Cfg)
    requires AckInv(s) && AllSizable(s.nic.incoming)
    ensures AckInv(AdmitStep(s, c))
  {
    AdmitCases(s, c);
    var off := NicInbound.Admit(s.nic, c.base, c.cap).1;
    if off.Some? {
      var p := s.nic.incoming[0];
      assert p in s.nic.incoming;
      AdmitAcks(s, AdmitStep(s, c), c, p, off.value, c.base + off.value, |p.data|, p.data);
    }
  }

  lemma AckAcks(s: Sys)
    requires AckInv(s) && s.owed > 0 && s.nic.writeQueue != []
    ensures AckInv(AckStep(s))
  {
    AckKeeps(Issued(s.admitted), s.nic.writeQueue, s.acked);
    CompletionsSnoc(s.nic.bQueue, TakeB(s.nic.writeQueue).1);
  }

  lemma RespondAcks(s: Sys)
    requires AckInv(s) && (s.nic.bQueue != [] && s.nic.bQueue[0] ==> s.nic.queued != [])
    ensures AckInv(RespondStep(s))
  {
    var n := RespondStep(s).nic;
    assert n.ready + n.queued == s.nic.ready + s.nic.queued;
  }

  lemma SendAcks(s: Sys, herReady: bool)
    requires AckInv(s)
    ensures AckInv(SendStep(s, herReady))
  {
    if herReady && s.nic.ready != [] {
      var hers := s.nic.ready + s.nic.queued;
      assert s.nic.ready[0] == hers[0] && hers[1..] == s.nic.ready[1..] + s.nic.queued;
      SendLists(s.sent, hers, s.admitted);
    }
  }

  lemma SendLists(sent: seq<nat>, hers: seq<Her>, admitted: seq<Her>)
    requires ListPart(sent, hers, admitted) && hers != []
    ensures ListPart(sent + [hers[0].id], hers[1..], admitted)
  {
    assert hers[0] == admitted[|sent|..][0];
    assert admitted[|sent| + 1..] == admitted[|sent|..][1..];
  }

  lemma StepAcks(s: Sys, e: Event, c: Cfg)
    requires AckInv(s) && AllSizable(s.nic.incoming) && Enabled(s, e) && AssertionsHold(s, e, c)
    ensures AckInv(Step(s, e, c))
  {
    match e {
      case Admit => AdmitStepAcks(s, c);
      case AckBurst => AckAcks(s);
      case Respond => RespondAcks(s);
      case Send(herReady) => SendAcks(s, herReady);
      case _ =>
    }
  }

  lemma {:induction false} RunsCountAcks(run: seq<Sys>, es: seq<Event>, c: Cfg, k: nat)
    requires Aligned(c) && IsRun(run, es, c) && k <= |es|
    ensures AckInv(run[k])
    decreases k
  {
    if k > 0 {
      RunsCountAcks(run, es, c, k - 1);
      RunStep(run, es, c, k - 1);
      StepAcks(run[k - 1], es[k - 1], c);
    }
  }

  // Main result: a HER is ready or at PsPIN only after every burst of its packet was
  // acknowledged.  Counting the completions the engine has yet to consume, the first n
  // packets are complete exactly when the responses accepted cover all their bursts.
  lemma ReleasedIsAcknowledged(run: seq<Sys>, es: seq<Event>, c: Cfg, k: nat, n: nat)
    requires Aligned(c) && IsRun(run, es, c) && k <= |es| && n <= |run[k].admitted|
    ensures var s := run[k];
      && s.acked + Sum(s.nic.writeQueue) == Sum(Issued(s.admitted))
      && (n <= |s.sent| + |s.nic.ready| ==> Sum(Issued(s.admitted)[..n]) <= s.acked)
      && (n <= |s.sent| + |s.nic.ready| + Completions(s.nic.bQueue) <==> Sum(Issued(s.admitted)[..n]) <= s.acked)
    ensures var s := run[k];
      && |s.sent| <= |s.admitted| && s.admitted[|s.sent|..] == s.nic.ready + s.nic.queued
      && (forall j :: 0 <= j < |s.sent| ==> s.sent[j] == s.admitted[j].id)
  {
    RunsCountAcks(run, es, c, k);
    var s := run[k];
    DoneExactly(Issued(s.admitted), s.nic.writeQueue, s.acked, n);
  }
}
