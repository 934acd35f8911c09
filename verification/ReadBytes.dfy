/** Which bytes a read brings.  The master copies every beat from lane 0 on, so it gets the
    bytes from the start of the bus line; they are those asked for exactly when the
    address is aligned to the bus. */
module ReadBytes {
  import opened AxiBurst
  import opened AxiWrite
  import opened AxiMemory
  import opened AxiMaster
  import opened ReadAccounting

  // The memory fills the lanes of a beat that belong to it; the others hold anything.
  ghost predicate Carried(d: Due, beat: RBeat, m: Memory) {
    && beat.last == d.last
    && forall l :: 0 <= l < BUS_BYTES && d.lo <= d.line + l < d.hi ==> beat.data[l] == m(d.line + l)
  }

  ghost predicate Answers(beats: seq<RBeat>, ds: seq<Due>, m: Memory) {
    |beats| == |ds| && forall i :: 0 <= i < |beats| ==> Carried(ds[i], beats[i], m)
  }

  // A buffered beat as its slot says, with the bytes of the memory where it has them.
  ghost predicate Filled(b: RBuffered, s: Slot, m: Memory) {
    && |b.data| == s.dataLength && b.isLast == s.isLast
    && forall l :: 0 <= l < |b.data| && s.due.lo <= s.due.line + l < s.due.hi ==> b.data[l] == m(s.due.line + l)
  }

  lemma ArrivalFills(rq: seq<ReadEntry>, beat: RBeat, d: Due, m: Memory)
    requires rq != [] && Carried(d, beat, m)
    ensures Filled(TakeR(rq, beat).1, FirstSlot(rq, d), m)
    ensures TakeR(rq, beat).0 == TakeEntry(rq, d.last).0
  {}

  // Byte j is that of the memory j bytes into the bus line of src, where the read has it.
  ghost predicate RightBytes(src: nat, n: nat, data: seq<Byte>, m: Memory) {
    forall j :: 0 <= j < |data| && src <= LineOf(src) + j < src + n ==> data[j] == m(LineOf(src) + j)
  }

  lemma AppendRight(src: nat, n: nat, data: seq<Byte>, b: RBuffered, s: Slot, m: Memory)
    requires RightBytes(src, n, data, m) && Placed(s, src, n, |data|) && Filled(b, s, m)
    ensures RightBytes(src, n, data + b.data, m)
  {
    forall j | 0 <= j < |data + b.data| && src <= LineOf(src) + j < src + n
      ensures (data + b.data)[j] == m(LineOf(src) + j)
    {
      if j >= |data| {
        var l := j - |data|;
        assert b.data[l] == m(s.due.line + l);
      }
    }
  }

  function MemBytes(m: Memory, addr: nat, n: nat): seq<Byte> {
    seq(n, i => m(addr + i))
  }

  // An aligned read has asked for the bytes it got.
  lemma AlignedIsRight(src: nat, n: nat, data: seq<Byte>, m: Memory)
    requires RightBytes(src, n, data, m) && |data| == n && src % BUS_BYTES == 0
    ensures data == MemBytes(m, src, n)
  {
    assert LineOf(src) == src;
  }

  // ---------- One read on its own ----------

  // The bytes of the beats, one after the other, as consumed.
  function Collect(rq: seq<ReadEntry>, beats: seq<RBeat>): seq<Byte>
    decreases |beats|
  {
    if rq == [] || beats == [] then [] else TakeR(rq, beats[0]).1.data + Collect(TakeR(rq, beats[0]).0, beats[1..])
  }

  lemma {:induction false} CollectIsRight(rq: seq<ReadEntry>, ds: seq<Due>, beats: seq<RBeat>, m: Memory,
                                          src: nat, n: nat, got: seq<Byte>)
    requires Balanced(rq, ds) && Delivers(Decode(rq, ds), src, n, |got|) && Answers(beats, ds, m)
    requires RightBytes(src, n, got, m)
    ensures |got + Collect(rq, beats)| == n && RightBytes(src, n, got + Collect(rq, beats), m)
    decreases |ds|
  {
    var s, rest, rq' := FirstSlot(rq, ds[0]), ds[1..], TakeEntry(rq, ds[0].last).0;
    var b := TakeR(rq, beats[0]).1;
    assert Carried(ds[0], beats[0], m);
    ArrivalFills(rq, beats[0], ds[0], m);
    AppendRight(src, n, got, b, s, m);
    assert Decode(rq, ds)[0] == s && Decode(rq, ds)[1..] == Decode(rq', rest);
    var tail := Collect(rq', beats[1..]);
    Reassociate(got, b.data, tail);
    if s.isLast {
      assert rest == [];
      assert tail == [] && (got + b.data) + [] == got + b.data;
    } else {
      assert Answers(beats[1..], rest, m) by {
        forall i | 0 <= i < |rest|
          ensures Carried(rest[i], beats[1..][i], m)
        {
          assert Carried(ds[i + 1], beats[i + 1], m);
        }
      }
      CollectIsRight(rq', rest, beats[1..], m, src, n, got + b.data);
    }
  }

  // Every memory and every slave: the bytes collected are those asked for.
  ghost predicate ReadsRight(addr: nat, n: nat) {
    forall m: Memory, beats: seq<RBeat> | Answers(beats, Dues(AxBeats(Bursts(addr, n))), m) ::
      Collect([ReadEntry(n, Pages(addr, n))], beats) == MemBytes(m, addr, n)
  }

  function ZeroLanes(first: Byte): LaneData { seq(BUS_BYTES, l => if l == 0 then first else 0) }

  // Beats of a memory full of zeros, with a one in lane 0 of the first.
  function JunkBeats(ds: seq<Due>): (beats: seq<RBeat>)
    ensures |beats| == |ds|
    ensures forall i :: 0 <= i < |ds| ==> beats[i] == RBeat(ZeroLanes(if i == 0 then 1 else 0), ds[i].last)
  {
    seq(|ds|, i requires 0 <= i < |ds| => RBeat(ZeroLanes(if i == 0 then 1 else 0), ds[i].last))
  }

  lemma JunkIsAllowed(ds: seq<Due>)
    requires ds != [] && ds[0].lo > ds[0].line
    ensures Answers(JunkBeats(ds), ds, _ => 0)
  {
    var m: Memory := _ => 0;
    forall i | 0 <= i < |ds|
      ensures Carried(ds[i], JunkBeats(ds)[i], m)
    {}
  }

  // Main result: a read brings the bytes asked for, whatever the memory and the unused
  // lanes hold, exactly when its address is aligned to the bus.
  lemma ReadsRightExactly(addr: nat, n: nat)
    requires n > 0
    ensures ReadsRight(addr, n) <==> addr % BUS_BYTES == 0
  {
    var rq, ds := [ReadEntry(n, Pages(addr, n))], Dues(AxBeats(Bursts(addr, n)));
    ReadDelivers(addr, n);
    if addr % BUS_BYTES == 0 {
      forall m: Memory, beats: seq<RBeat> | Answers(beats, ds, m)
        ensures Collect(rq, beats) == MemBytes(m, addr, n)
      {
        CollectIsRight(rq, ds, beats, m, addr, n, []);
        assert [] + Collect(rq, beats) == Collect(rq, beats);
        AlignedIsRight(addr, n, Collect(rq, beats), m);
      }
    } else {
      FirstDue(addr, n);
      JunkIsAllowed(ds);
      var m: Memory := _ => 0;
      assert Collect(rq, JunkBeats(ds))[0] == 1 && MemBytes(m, addr, n)[0] == 0;
    }
  }

  lemma FirstDue(addr: nat, n: nat)
    requires n > 0 && addr % BUS_BYTES != 0
    ensures var ds := Dues(AxBeats(Bursts(addr, n)));
      ds != [] && ds[0].lo == addr > ds[0].line
  {
    var k := FirstCut(addr, n);
    DuesPeel(addr, n, k, addr + k, n - k);
    PageBurstIsLegal(addr, k);
    assert BeatDue(PageBurst(addr, k).ax, 0).lo == addr;
  }
}
