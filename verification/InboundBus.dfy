/** Bursts between the write queue of the inbound engine and memory: who owns the
    beats in flight, and what they will do to memory. */
module InboundBus {
  import opened AxiBurst
  import opened AxiWrite
  import opened AxiMemory
  import AxiMaster

  // A burst issued for the packet at address `owner`, with its payload.
  datatype Owned = Owned(owner: nat, burst: Burst, chunk: seq<Byte>)

  predicate WellFormed(obs: seq<Owned>) {
    forall o :: o in obs ==> Legal(o.burst) && |o.chunk| == o.burst.nBytes
  }

  function Flat(obs: seq<Owned>): seq<MemBeat>
    requires WellFormed(obs)
  {
    if obs == [] then [] else OnBus(obs[0].burst, obs[0].chunk) + Flat(obs[1..])
  }

  function OwnedBy(owner: nat, bs: seq<Burst>, data: seq<Byte>): (obs: seq<Owned>)
    requires TotalBytes(bs) == |data|
    ensures |obs| == |bs|
    ensures forall i :: 0 <= i < |bs| ==>
      obs[i].owner == owner && obs[i].burst == bs[i] && |obs[i].chunk| == bs[i].nBytes
  {
    if bs == [] then [] else
      [Owned(owner, bs[0], data[..bs[0].nBytes])] + OwnedBy(owner, bs[1..], data[bs[0].nBytes..])
  }

  lemma {:induction false} FlatOfWrite(owner: nat, bs: seq<Burst>, data: seq<Byte>)
    requires TotalBytes(bs) == |data| && forall b :: b in bs ==> Legal(b)
    ensures WellFormed(OwnedBy(owner, bs, data))
    ensures Flat(OwnedBy(owner, bs, data)) == PacketOnBus(bs, data)
    decreases |bs|
  {
    if bs != [] {
      var obs := OwnedBy(owner, bs, data);
      var rest := OwnedBy(owner, bs[1..], data[bs[0].nBytes..]);
      FlatOfWrite(owner, bs[1..], data[bs[0].nBytes..]);
      assert bs[0] in bs;
      assert obs == [obs[0]] + rest && obs[1..] == rest;
    }
  }

  lemma {:induction false} FlatConcat(xs: seq<Owned>, ys: seq<Owned>)
    requires WellFormed(xs) && WellFormed(ys)
    ensures WellFormed(xs + ys) && Flat(xs + ys) == Flat(xs) + Flat(ys)
    decreases |xs|
  {
    if xs == [] {
      assert xs + ys == ys;
    } else {
      assert (xs + ys)[1..] == xs[1..] + ys;
      FlatConcat(xs[1..], ys);
    }
  }

  function Addresses(obs: seq<Owned>): seq<AxBeat> {
    seq(|obs|, i requires 0 <= i < |obs| => obs[i].burst.ax)
  }

  function Data(mbs: seq<MemBeat>): seq<WBeat> {
    seq(|mbs|, i requires 0 <= i < |mbs| => mbs[i].beat)
  }

  // What is still to be taken by the slave, `taken` beats of the first burst
  // having been taken.
  function Todo(obs: seq<Owned>, taken: nat): seq<MemBeat>
    requires WellFormed(obs) && taken <= |Flat(obs)|
  {
    Flat(obs)[taken..]
  }

  // The beats on the two channels are those of the bursts in flight.
  predicate OnChannels(aw: seq<AxBeat>, w: seq<WBeat>, obs: seq<Owned>, taken: nat) {
    && WellFormed(obs)
    && (if obs == [] then taken == 0 else taken <= obs[0].burst.ax.len)
    && taken <= |Flat(obs)|
    && aw == Addresses(obs) && w == Data(Todo(obs, taken))
  }

  // The beat the slave forms from the heads of the two channels.
  function SlaveBeat(aw: seq<AxBeat>, w: seq<WBeat>, taken: nat): MemBeat
    requires aw != [] && w != []
  {
    MemBeat(LineOf(BeatAddr(aw[0], taken)), w[0])
  }

  // Taking one beat removes exactly the next beat still to do.
  lemma TakeBeat(aw: seq<AxBeat>, w: seq<WBeat>, obs: seq<Owned>, taken: nat)
    requires OnChannels(aw, w, obs, taken) && aw != [] && w != []
    ensures obs != [] && Todo(obs, taken) != [] && SlaveBeat(aw, w, taken) == Todo(obs, taken)[0]
    ensures w[0].last <==> taken == aw[0].len
    ensures taken == aw[0].len ==>
      OnChannels(aw[1..], w[1..], obs[1..], 0) && Todo(obs[1..], 0) == Todo(obs, taken)[1..]
    ensures taken < aw[0].len ==>
      OnChannels(aw, w[1..], obs, taken + 1) && Todo(obs, taken + 1) == Todo(obs, taken)[1..]
  {
    var o := obs[0];
    assert o in obs;
    BeatBaseIsStandard(o.burst, taken);
    var bus, rest := OnBus(o.burst, o.chunk), Flat(obs[1..]);
    var todo := Todo(obs, taken);
    assert Flat(obs)[taken] == bus[taken];
    assert w[0] == todo[0].beat;
    if taken == o.burst.ax.len {
      assert todo[1..] == rest == rest[0..];
      assert Addresses(obs)[1..] == Addresses(obs[1..]);
      assert Data(todo)[1..] == Data(todo[1..]);
      FirstFits(obs[1..]);
    } else {
      assert todo[1..] == Flat(obs)[taken + 1..];
      assert Data(todo)[1..] == Data(todo[1..]);
    }
  }

  lemma FirstFits(obs: seq<Owned>)
    requires WellFormed(obs)
    ensures Todo(obs, 0) == Flat(obs)
    ensures obs != [] ==> obs[0].burst.ax.len < |Flat(obs)|
  {}

  // Issuing more bursts appends their beats.
  lemma IssueMore(aw: seq<AxBeat>, w: seq<WBeat>, obs: seq<Owned>, taken: nat,
                  owner: nat, bs: seq<Burst>, data: seq<Byte>)
    requires OnChannels(aw, w, obs, taken)
    requires TotalBytes(bs) == |data| && forall b :: b in bs ==> Legal(b)
    ensures OnChannels(aw + AxBeats(bs), w + WriteBeats(bs, data), obs + OwnedBy(owner, bs, data), taken)
    ensures Todo(obs + OwnedBy(owner, bs, data), taken) == Todo(obs, taken) + PacketOnBus(bs, data)
  {
    var more := OwnedBy(owner, bs, data);
    FlatOfWrite(owner, bs, data);
    FlatConcat(obs, more);
    DataOfWrite(bs, data);
    AppendTodo(Flat(obs), Flat(more), taken);
    AppendAddresses(obs, more);
    assert Addresses(more) == AxBeats(bs);
  }

  lemma AppendAddresses(xs: seq<Owned>, ys: seq<Owned>)
    ensures Addresses(xs + ys) == Addresses(xs) + Addresses(ys)
  {}

  lemma AppendTodo(xs: seq<MemBeat>, ys: seq<MemBeat>, taken: nat)
    requires taken <= |xs|
    ensures (xs + ys)[taken..] == xs[taken..] + ys
    ensures Data((xs + ys)[taken..]) == Data(xs[taken..]) + Data(ys)
  {
    assert (xs + ys)[taken..] == xs[taken..] + ys;
  }

  lemma {:induction false} DataOfWrite(bs: seq<Burst>, data: seq<Byte>)
    requires TotalBytes(bs) == |data|
    ensures Data(PacketOnBus(bs, data)) == WriteBeats(bs, data)
    decreases |bs|
  {
    if bs != [] {
      var k := bs[0].nBytes;
      DataOfWrite(bs[1..], data[k..]);
      assert Data(OnBus(bs[0], data[..k])) == BurstBeats(bs[0], data[..k]);
    }
  }

  // ---------- What the beats still to do may touch ----------

  predicate Hits(mb: MemBeat, a: int) {
    mb.base <= a < mb.base + BUS_BYTES && mb.beat.strb[a - mb.base]
  }

  predicate Touches(mbs: seq<MemBeat>, a: int) {
    exists i :: 0 <= i < |mbs| && Hits(mbs[i], a)
  }

  lemma {:induction false} Untouched(m: Memory, mbs: seq<MemBeat>, a: int)
    requires !Touches(mbs, a)
    ensures ApplyAll(m, mbs)(a) == m(a)
    decreases |mbs|
  {
    if mbs != [] {
      forall i | 0 <= i < |mbs[1..]|
        ensures !Hits(mbs[1..][i], a)
      {
        assert mbs[1..][i] == mbs[i + 1];
      }
      Untouched(Apply(m, mbs[0]), mbs[1..], a);
    }
  }

  lemma BusHitIsStrobe(b: Burst, chunk: seq<Byte>, i: nat, a: int)
    requires |chunk| == b.nBytes && i < |OnBus(b, chunk)| && Hits(OnBus(b, chunk)[i], a)
    ensures Strobes(b, a)
  {
    var base := BeatBase(b, i);
    assert OnBus(b, chunk)[i].beat.strb[a - base] == Strobes(b, base + (a - base));
  }

  lemma {:induction false} TouchesOwner(obs: seq<Owned>, a: int) returns (o: Owned)
    requires WellFormed(obs) && Touches(Flat(obs), a)
    ensures o in obs && Strobes(o.burst, a)
    decreases |obs|
  {
    var flat := Flat(obs);
    var i :| 0 <= i < |flat| && Hits(flat[i], a);
    var bus, rest := OnBus(obs[0].burst, obs[0].chunk), Flat(obs[1..]);
    assert flat == bus + rest;
    if i < |bus| {
      o := obs[0];
      assert flat[i] == bus[i];
      BusHitIsStrobe(o.burst, o.chunk, i, a);
    } else {
      assert flat[i] == rest[i - |bus|];
      o := TouchesOwner(obs[1..], a);
    }
  }

  // ---------- Which write an acknowledgement belongs to ----------

  // The unacknowledged bursts, in order, are grouped by the writes that wait
  // for them; `owners` are the addresses of those writes.
  predicate Grouped(unacked: seq<Owned>, writeQueue: seq<nat>, owners: seq<nat>)
    decreases |writeQueue|
  {
    if writeQueue == [] then unacked == [] && owners == []
    else
      && owners != [] && 0 < writeQueue[0] <= |unacked|
      && (forall i :: 0 <= i < writeQueue[0] ==> unacked[i].owner == owners[0])
      && Grouped(unacked[writeQueue[0]..], writeQueue[1..], owners[1..])
  }

  lemma {:induction false} GroupMore(unacked: seq<Owned>, writeQueue: seq<nat>, owners: seq<nat>,
                                     more: seq<Owned>, owner: nat)
    requires Grouped(unacked, writeQueue, owners)
    requires more != [] && forall i :: 0 <= i < |more| ==> more[i].owner == owner
    ensures Grouped(unacked + more, writeQueue + [|more|], owners + [owner])
    decreases |writeQueue|
  {
    var wq, os := writeQueue + [|more|], owners + [owner];
    if writeQueue == [] {
      assert unacked + more == more && more[|more|..] == [];
      assert wq[1..] == [] && os[1..] == [];
    } else {
      var n := writeQueue[0];
      GroupMore(unacked[n..], writeQueue[1..], owners[1..], more, owner);
      assert (unacked + more)[n..] == unacked[n..] + more;
      assert wq[1..] == writeQueue[1..] + [|more|] && os[1..] == owners[1..] + [owner];
    }
  }

  // One acknowledgement: it completes the oldest write exactly when that write
  // has no burst left.
  lemma AckOne(unacked: seq<Owned>, writeQueue: seq<nat>, owners: seq<nat>)
    requires Grouped(unacked, writeQueue, owners) && unacked != []
    ensures writeQueue != []
    ensures var (wq, complete) := AxiMaster.TakeB(writeQueue);
            Grouped(unacked[1..], wq, if complete then owners[1..] else owners)
  {
    var n := writeQueue[0];
    var (wq, complete) := AxiMaster.TakeB(writeQueue);
    if !complete {
      assert wq[1..] == writeQueue[1..];
      assert unacked[1..][n - 1..] == unacked[n..];
    }
  }

  lemma {:induction false} OwnersAreWaiting(unacked: seq<Owned>, writeQueue: seq<nat>, owners: seq<nat>)
    requires Grouped(unacked, writeQueue, owners)
    ensures |owners| == |writeQueue|
    ensures forall o :: o in unacked ==> o.owner in owners
    decreases |writeQueue|
  {
    if writeQueue != [] {
      var n := writeQueue[0];
      OwnersAreWaiting(unacked[n..], writeQueue[1..], owners[1..]);
      forall o | o in unacked
        ensures o.owner in owners
      {
        var i :| 0 <= i < |unacked| && unacked[i] == o;
        if i >= n {
          assert unacked[n..][i - n] == o;
        }
      }
    }
  }
}
