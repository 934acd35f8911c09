/** What written beats do to a byte memory: the slave's side of an AXI write, as
    sections A3.4.1 and A3.4.3 of ARM IHI 0022E define it, applied to the beats
    the driver issues. */
module AxiMemory {
  import Arith
  import opened AxiBurst
  import opened AxiWrite

  type Memory = int -> Byte

  // A data beat together with the address of its lane 0.
  datatype MemBeat = MemBeat(base: nat, beat: WBeat)

  function Apply(m: Memory, mb: MemBeat): Memory {
    (a: int) =>
      if mb.base <= a < mb.base + BUS_BYTES && mb.beat.strb[a - mb.base]
      then mb.beat.data[a - mb.base] else m(a)
  }

  function ApplyAll(m: Memory, mbs: seq<MemBeat>): Memory {
    if mbs == [] then m else ApplyAll(Apply(m, mbs[0]), mbs[1..])
  }

  lemma {:induction false} ApplyAllConcat(m: Memory, xs: seq<MemBeat>, ys: seq<MemBeat>)
    ensures ApplyAll(m, xs + ys) == ApplyAll(ApplyAll(m, xs), ys)
    decreases |xs|
  {
    if xs == [] {
      assert xs + ys == ys;
    } else {
      assert (xs + ys)[1..] == xs[1..] + ys;
      ApplyAllConcat(Apply(m, xs[0]), xs[1..], ys);
    }
  }

  // The slave takes address beats in order and gives each one len + 1 data
  // beats; `i` data beats of the first address beat are already taken.
  function SlavePair(aws: seq<AxBeat>, ws: seq<WBeat>, i: nat): seq<MemBeat>
    decreases |ws|
  {
    if aws == [] || ws == [] then [] else
      [MemBeat(LineOf(BeatAddr(aws[0], i)), ws[0])]
      + if i == aws[0].len then SlavePair(aws[1..], ws[1..], 0) else SlavePair(aws, ws[1..], i + 1)
  }

  // ---------- The beats of one burst on the bus ----------

  function OnBus(b: Burst, chunk: seq<Byte>): seq<MemBeat>
    requires |chunk| == b.nBytes
  {
    seq(b.ax.len + 1, i requires 0 <= i <= b.ax.len => MemBeat(BeatBase(b, i), RefBeat(b, chunk, i)))
  }

  lemma BeatBaseIsStandard(b: Burst, i: nat)
    requires Legal(b) && i <= b.ax.len
    ensures LineOf(BeatAddr(b.ax, i)) == BeatBase(b, i)
  {
    if i > 0 {
      var line := b.ax.addr / BUS_BYTES;
      assert BeatAddr(b.ax, i) == BUS_BYTES * (line + i);
    }
  }

  lemma {:induction false} PairOneBurst(b: Burst, chunk: seq<Byte>, i: nat, aws: seq<AxBeat>, ws: seq<WBeat>)
    requires Legal(b) && |chunk| == b.nBytes && i <= b.ax.len
    ensures SlavePair([b.ax] + aws, BurstBeats(b, chunk)[i..] + ws, i)
         == OnBus(b, chunk)[i..] + SlavePair(aws, ws, 0)
    decreases b.ax.len - i
  {
    var mine := BurstBeats(b, chunk)[i..];
    BeatBaseIsStandard(b, i);
    assert (mine + ws)[0] == RefBeat(b, chunk, i);
    assert OnBus(b, chunk)[i] == MemBeat(BeatBase(b, i), RefBeat(b, chunk, i));
    assert ([b.ax] + aws)[1..] == aws;
    if i == b.ax.len {
      assert (mine + ws)[1..] == ws;
    } else {
      assert (mine + ws)[1..] == BurstBeats(b, chunk)[i + 1..] + ws;
      PairOneBurst(b, chunk, i + 1, aws, ws);
    }
  }

  // The bytes a burst leaves behind: its data, zeros in the lanes strobed past
  // the data, and everything else as it was.
  lemma BurstEffect(m: Memory, b: Burst, chunk: seq<Byte>, a: int)
    requires Legal(b) && |chunk| == b.nBytes
    ensures ApplyAll(m, OnBus(b, chunk))(a)
         == if Strobes(b, a) then ByteAt(b, chunk, a) else m(a)
  {
    PrefixEffect(m, b, chunk, a, b.ax.len + 1);
    assert OnBus(b, chunk)[..b.ax.len + 1] == OnBus(b, chunk);
    StrobesInsideLines(b);
  }

  lemma {:induction false} PrefixEffect(m: Memory, b: Burst, chunk: seq<Byte>, a: int, k: nat)
    requires Legal(b) && |chunk| == b.nBytes && k <= b.ax.len + 1
    ensures ApplyAll(m, OnBus(b, chunk)[..k])(a)
         == if Strobes(b, a) && a < BeatBase(b, k) then ByteAt(b, chunk, a) else m(a)
  {
    if k > 0 {
      var bus := OnBus(b, chunk);
      PrefixEffect(m, b, chunk, a, k - 1);
      assert bus[..k] == bus[..k - 1] + [bus[k - 1]];
      ApplyAllConcat(m, bus[..k - 1], [bus[k - 1]]);
      BeatEffect(ApplyAll(m, bus[..k - 1]), b, chunk, k - 1, a);
    }
  }

  lemma BeatEffect(m: Memory, b: Burst, chunk: seq<Byte>, i: nat, a: int)
    requires |chunk| == b.nBytes && i <= b.ax.len
    ensures Apply(m, OnBus(b, chunk)[i])(a)
         == if Strobes(b, a) && BeatBase(b, i) <= a < BeatBase(b, i) + BUS_BYTES then ByteAt(b, chunk, a) else m(a)
  {
    var base := BeatBase(b, i);
    if base <= a < base + BUS_BYTES {
      assert OnBus(b, chunk)[i].beat.strb[a - base] == Strobes(b, base + (a - base));
    }
  }

  lemma StrobesInsideLines(b: Burst)
    requires Legal(b)
    ensures End(b) <= CoverEnd(b) <= BeatBase(b, b.ax.len + 1)
    ensures BeatBase(b, b.ax.len + 1) == LineOf(End(b) - 1) + BUS_BYTES
  {
    if b.ax.len == 0 {
      assert Fits(b.ax.addr, b.nBytes, b.ax.size);
    }
  }

  // ---------- A whole write ----------

  function PacketOnBus(bs: seq<Burst>, data: seq<Byte>): seq<MemBeat>
    requires TotalBytes(bs) == |data|
  {
    if bs == [] then [] else
      OnBus(bs[0], data[..bs[0].nBytes]) + PacketOnBus(bs[1..], data[bs[0].nBytes..])
  }

  lemma {:induction false} PairAll(bs: seq<Burst>, data: seq<Byte>)
    requires TotalBytes(bs) == |data| && forall b :: b in bs ==> Legal(b)
    ensures SlavePair(AxBeats(bs), WriteBeats(bs, data), 0) == PacketOnBus(bs, data)
    decreases |bs|
  {
    if bs != [] {
      var b, k := bs[0], bs[0].nBytes;
      assert Legal(b);
      assert AxBeats(bs) == [b.ax] + AxBeats(bs[1..]);
      assert BurstBeats(b, data[..k])[0..] == BurstBeats(b, data[..k]);
      assert OnBus(b, data[..k])[0..] == OnBus(b, data[..k]);
      PairOneBurst(b, data[..k], 0, AxBeats(bs[1..]), WriteBeats(bs[1..], data[k..]));
      PairAll(bs[1..], data[k..]);
    }
  }

  // First address past the bytes a write strobes.
  function PadEnd(addr: nat, n: nat): nat
    requires 0 < n
  {
    CoverEnd(Bursts(addr, n)[|Bursts(addr, n)| - 1])
  }

  lemma PadStaysInLine(addr: nat, n: nat)
    requires 0 < n
    ensures addr + n <= PadEnd(addr, n) <= LineOf(addr + n - 1) + BUS_BYTES
  {
    BurstsAreLegal(addr, n);
    BurstsTile(addr, n);
    var bs := Bursts(addr, n);
    assert bs[|bs| - 1] in bs;
    StrobesInsideLines(bs[|bs| - 1]);
  }

  // Where the last burst of a transfer starts: at its address, or at its last page.
  function LastPart(addr: nat, n: nat): (f: nat)
    requires 0 < n
    ensures addr <= f < addr + n
  {
    if PageNum(addr) == PageNum(addr + n - 1) then addr else PageNum(addr + n - 1) * PAGE_BYTES
  }

  lemma LastPartStep(addr: nat, n: nat, k: nat)
    requires 0 < n && k == FirstCut(addr, n)
    ensures LastPart(addr, n) == if k == n then addr else LastPart(addr + k, n - k)
  {}

  lemma LastPartPage(addr: nat, n: nat)
    requires 0 < n
    ensures PageNum(LastPart(addr, n)) == PageNum(addr + n - 1)
  {}

  lemma {:induction false} LastBurst(addr: nat, n: nat, f: nat)
    requires 0 < n && f == LastPart(addr, n) && PageNum(f) == PageNum(addr + n - 1)
    ensures Bursts(addr, n) != []
    ensures Bursts(addr, n)[|Bursts(addr, n)| - 1] == PageBurst(f, addr + n - f)
    decreases n
  {
    var k := FirstCut(addr, n);
    LastPartStep(addr, n, k);
    if k < n {
      LastBurst(addr + k, n - k, f);
    } else {
      assert Bursts(addr + n, 0) == [];
    }
  }

  function ContainerEnd(addr: nat, s: Size): nat { AlignedAddress(addr, s) + NumBytes(s) }

  lemma Doubling(a: nat, n: nat, m: nat)
    requires n > 0 && m == 2 * n
    ensures a / n * n + n <= a / m * m + m
  {
    var q, x := a / n, a / m;
    if q >= 2 * (x + 1) {
      Arith.MulMono(2 * (x + 1), q, n);
    }
    Arith.MulMono(q + 1, 2 * x + 2, n);
    Arith.Associate(x, 2, n);
  }

  lemma {:induction false} ContainersGrow(addr: nat, s: Size, t: Size)
    requires s <= t
    ensures ContainerEnd(addr, s) <= ContainerEnd(addr, t)
    decreases t - s
  {
    if s < t {
      Doubling(addr, NumBytes(s), NumBytes(s + 1));
      ContainersGrow(addr, s + 1, t);
    }
  }

  // Main result: a write strobes its bytes only, and nothing after them, exactly when its
  // part in its last page takes several bus lines or ends where some container ends.
  lemma NoPaddingExactly(addr: nat, n: nat)
    requires 0 < n
    ensures var f := LastPart(addr, n);
      PadEnd(addr, n) == addr + n <==>
      Lines(f, addr + n - f) > 1 || exists s: Size :: ContainerEnd(f, s) == addr + n
  {
    var f := LastPart(addr, n);
    LastPartPage(addr, n);
    LastBurst(addr, n, f);
    PageBurstIsLegal(f, addr + n - f);
    var b := PageBurst(f, addr + n - f);
    if b.ax.len == 0 {
      assert ContainerEnd(f, b.ax.size) == PadEnd(addr, n);
      if s: Size :| ContainerEnd(f, s) == addr + n {
        if s < b.ax.size {
          assert !Fits(f, addr + n - f, s);
        } else {
          ContainersGrow(f, b.ax.size, s);
        }
      }
    }
  }

  lemma PadEndStep(addr: nat, n: nat, k: nat, next: nat, left: nat)
    requires 0 < n && k == FirstCut(addr, n) && next == addr + k && left == n - k
    ensures left == 0 ==> PadEnd(addr, n) == CoverEnd(PageBurst(addr, k))
    ensures left > 0 ==> CoverEnd(PageBurst(addr, k)) == next
    ensures left > 0 ==> PadEnd(addr, n) == PadEnd(next, left)
    ensures left > 0 ==> PadEnd(next, left) >= addr + n
  {
    PageBurstIsLegal(addr, k);
    if k < n {
      StrobesInsideLines(PageBurst(addr, k));
      PageEndIsLineEnd(addr + k);
      PadStaysInLine(addr + k, n - k);
    }
  }

  lemma PageEndIsLineEnd(p: nat)
    requires p > 0 && p % PAGE_BYTES == 0
    ensures LineOf(p - 1) + BUS_BYTES == p
  {
    var q := 64 * (p / PAGE_BYTES);
    assert p - 1 == BUS_BYTES * (q - 1) + 63;
    assert (p - 1) / BUS_BYTES == q - 1;
  }

  // What a write of `n` bytes `data` to `addr` should leave at address `a`.
  function Written(m: Memory, addr: nat, n: nat, data: seq<Byte>, a: int): Byte
    requires |data| == n > 0
  {
    if addr <= a < addr + n then data[a - addr]
    else if addr + n <= a < PadEnd(addr, n) then 0
    else m(a)
  }

  // A burst followed by the rest of the transfer.
  lemma JoinEffects(m: Memory, m1: Memory, byte: Byte, addr: nat, n: nat, data: seq<Byte>,
                    next: nat, left: nat, rest: seq<Byte>, a: int)
    requires n == |data| && 0 < left < n && next == addr + (n - left) && rest == data[n - left..]
    requires m1(a) == if addr <= a < next then data[a - addr] else m(a)
    requires byte == Written(m1, next, left, rest, a)
    requires PadEnd(addr, n) == PadEnd(next, left) >= addr + n
    ensures byte == Written(m, addr, n, data, a)
  {
    if next <= a < addr + n {
      assert rest[a - next] == data[a - addr];
    }
  }

  lemma UnpackPacket(m: Memory, addr: nat, n: nat, data: seq<Byte>,
                     k: nat, next: nat, left: nat, rest: seq<Byte>) returns (m1: Memory)
    requires |data| == n > 0 && k == FirstCut(addr, n)
    requires next == addr + k && left == n - k && rest == data[k..]
    requires TotalBytes(Bursts(addr, n)) == n
    ensures TotalBytes(Bursts(next, left)) == left
    ensures ApplyAll(m, PacketOnBus(Bursts(addr, n), data)) == ApplyAll(m1, PacketOnBus(Bursts(next, left), rest))
    ensures PageBurst(addr, k).nBytes == k && m1 == ApplyAll(m, OnBus(PageBurst(addr, k), data[..k]))
  {
    var b, bs, more := PageBurst(addr, k), Bursts(addr, n), Bursts(next, left);
    PageBurstIsLegal(addr, k);
    assert bs == [b] + more && bs[0] == b && bs[1..] == more;
    var now, later := OnBus(b, data[..k]), PacketOnBus(more, rest);
    assert PacketOnBus(bs, data) == now + later;
    ApplyAllConcat(m, now, later);
    m1 := ApplyAll(m, now);
  }

  lemma FirstBurstEffect(m: Memory, addr: nat, n: nat, data: seq<Byte>, k: nat, next: nat, m1: Memory, a: int)
    requires |data| == n > 0 && k == FirstCut(addr, n) && next == addr + k
    requires PageBurst(addr, k).nBytes == k && m1 == ApplyAll(m, OnBus(PageBurst(addr, k), data[..k]))
    ensures m1(a) == if addr <= a < next then data[a - addr]
                     else if next <= a < CoverEnd(PageBurst(addr, k)) then 0 else m(a)
  {
    var b := PageBurst(addr, k);
    PageBurstIsLegal(addr, k);
    BurstEffect(m, b, data[..k], a);
    StrobesInsideLines(b);
  }

  // The byte the first burst leaves at `a`, against that of the whole transfer.
  lemma FirstBurstByte(m: Memory, addr: nat, n: nat, data: seq<Byte>, k: nat, next: nat, left: nat, a: int, byte: Byte)
    requires |data| == n > 0 && k == FirstCut(addr, n) && next == addr + k && left == n - k
    requires byte == if addr <= a < next then data[a - addr]
                     else if next <= a < CoverEnd(PageBurst(addr, k)) then 0 else m(a)
    ensures left == 0 ==> byte == Written(m, addr, n, data, a)
    ensures left > 0 ==> PadEnd(addr, n) == PadEnd(next, left)
    ensures left > 0 ==> PadEnd(next, left) >= addr + n
    ensures left > 0 ==> byte == if addr <= a < next then data[a - addr] else m(a)
  {
    PadEndStep(addr, n, k, next, left);
  }

  lemma {:induction false} PacketEffect(m: Memory, addr: nat, n: nat, data: seq<Byte>, a: int)
    returns (byte: Byte)
    requires |data| == n > 0
    requires TotalBytes(Bursts(addr, n)) == n
    ensures byte == ApplyAll(m, PacketOnBus(Bursts(addr, n), data))(a)
    ensures byte == Written(m, addr, n, data, a)
    decreases n
  {
    var k := FirstCut(addr, n);
    var next, left, rest := addr + k, n - k, data[k..];
    var m1 := UnpackPacket(m, addr, n, data, k, next, left, rest);
    FirstBurstEffect(m, addr, n, data, k, next, m1, a);
    FirstBurstByte(m, addr, n, data, k, next, left, a, m1(a));
    if left > 0 {
      byte := PacketEffect(m1, next, left, rest, a);
      JoinEffects(m, m1, byte, addr, n, data, next, left, rest, a);
    } else {
      byte := m1(a);
    }
  }

  // The beats `write` hands to the port, as the slave sees them.
  function WriteOnBus(addr: nat, data: seq<Byte>): seq<MemBeat> {
    BurstsCarryAll(addr, |data|);
    SlavePair(AxBeats(Bursts(addr, |data|)), WriteBeats(Bursts(addr, |data|), data), 0)
  }

  // Main result: whatever address beats and data beats `write` issues, the
  // slave ends with exactly the data at its address; past it at most the rest
  // of the last bus line is overwritten, with zeros; nothing else changes.
  lemma WriteIsExact(m: Memory, addr: nat, data: seq<Byte>, a: int)
    requires |data| > 0
    ensures ApplyAll(m, WriteOnBus(addr, data))(a) == Written(m, addr, |data|, data, a)
  {
    BurstsCarryAll(addr, |data|);
    BurstsAreLegal(addr, |data|);
    PairAll(Bursts(addr, |data|), data);
    var _ := PacketEffect(m, addr, |data|, data, a);
  }

  // Strobes past the data are real: three bytes at the start of a line take a
  // four-lane beat, and the fourth byte of the memory is overwritten.
  lemma PaddingIsReal(m: Memory, data: seq<Byte>)
    requires |data| == 3
    ensures PadEnd(0, 3) == 4
    ensures ApplyAll(m, WriteOnBus(0, data))(3) == 0
  {
    WriteIsExact(m, 0, data, 3);
    assert Bursts(0, 3) == [PageBurst(0, 3)];
    assert !Fits(0, 3, 0) && !Fits(0, 3, 1) && Fits(0, 3, 2);
    SizeIsUnique(0, 3, 2);
  }
}
