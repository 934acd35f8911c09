/** The write path of the AXI master (hw/verilator_model/src/AXIMaster.hpp,
    lines 225-285): from a buffer to address beats and to data beats with byte
    strobes, and what those beats do to a byte memory. */
module AxiWrite {
  import opened AxiBurst

  newtype Byte = x: int | 0 <= x < 256

  type LaneData = s: seq<Byte> | |s| == BUS_BYTES witness seq(BUS_BYTES, _ => 0)
  type LaneStrobes = s: seq<bool> | |s| == BUS_BYTES witness seq(BUS_BYTES, _ => false)

  datatype WBeat = WBeat(data: LaneData, strb: LaneStrobes, last: bool)

  // ---------- Reference: beats read off the addresses ----------

  // Address of lane 0 of data beat `i` of a burst.
  function BeatBase(b: Burst, i: nat): nat { LineOf(b.ax.addr) + i * BUS_BYTES }

  // First address past the strobed bytes.  A multi-beat burst strobes exactly
  // its bytes; a single-beat burst strobes up to the end of its 2^size container.
  function CoverEnd(b: Burst): nat {
    if b.ax.len == 0 then AlignedAddress(b.ax.addr, b.ax.size) + NumBytes(b.ax.size) else End(b)
  }

  predicate Carries(b: Burst, a: int) { b.ax.addr <= a < End(b) }

  predicate Strobes(b: Burst, a: int) { b.ax.addr <= a < CoverEnd(b) }

  // The byte a burst puts at address `a`; lanes that carry nothing are zero.
  function ByteAt(b: Burst, chunk: seq<Byte>, a: int): Byte
    requires |chunk| == b.nBytes
  {
    if Carries(b, a) then chunk[a - b.ax.addr] else 0
  }

  function RefBeat(b: Burst, chunk: seq<Byte>, i: nat): WBeat
    requires |chunk| == b.nBytes
  {
    var base := BeatBase(b, i);
    var data := seq(BUS_BYTES, l => ByteAt(b, chunk, base + l));
    var strb := seq(BUS_BYTES, l => Strobes(b, base + l));
    WBeat(data, strb, i == b.ax.len)
  }

  function BurstBeats(b: Burst, chunk: seq<Byte>): seq<WBeat>
    requires |chunk| == b.nBytes
  {
    seq(b.ax.len + 1, i requires 0 <= i <= b.ax.len => RefBeat(b, chunk, i))
  }

  function TotalBytes(bs: seq<Burst>): nat {
    if bs == [] then 0 else bs[0].nBytes + TotalBytes(bs[1..])
  }

  function WriteBeats(bs: seq<Burst>, data: seq<Byte>): seq<WBeat>
    requires TotalBytes(bs) == |data|
  {
    if bs == [] then [] else
      BurstBeats(bs[0], data[..bs[0].nBytes]) + WriteBeats(bs[1..], data[bs[0].nBytes..])
  }

  function AxBeats(bs: seq<Burst>): seq<AxBeat> {
    seq(|bs|, i requires 0 <= i < |bs| => bs[i].ax)
  }

  lemma {:induction false} BurstsCarryAll(addr: nat, n: nat)
    ensures TotalBytes(Bursts(addr, n)) == n
    decreases n
  {
    if n > 0 {
      var k := FirstCut(addr, n);
      BurstsCarryAll(addr + k, n - k);
      assert ([PageBurst(addr, k)] + Bursts(addr + k, n - k))[1..] == Bursts(addr + k, n - k);
    }
  }

  // ---------- The source's lane arithmetic ----------

  function Min(x: int, y: int): int { if x < y then x else y }

  // Bytes of the burst carried by beats before beat `i`.
  function BytesBefore(b: Burst, i: nat): int {
    if i == 0 then 0 else Min(BeatBase(b, i) - b.ax.addr, b.nBytes)
  }

  // The lane bounds of AXIDriver.hpp are the carried and strobed addresses,
  // relative to the line of the beat.
  lemma LaneBounds(b: Burst, i: nat)
    requires Legal(b) && i <= b.ax.len
    ensures BeatLowerByte(b.ax, i) == if i == 0 then b.ax.addr - LineOf(b.ax.addr) else 0
    ensures BeatUpperByte(b.ax, i, b.nBytes) == Min(CoverEnd(b) - BeatBase(b, i), BUS_BYTES)
    ensures BeatLowerByte(b.ax, i) < BeatUpperByte(b.ax, i, b.nBytes)
    ensures Min(BeatUpperByte(b.ax, i, b.nBytes) - BeatLowerByte(b.ax, i), b.nBytes)
         == BytesBefore(b, i + 1) - BytesBefore(b, i)
    ensures BytesBefore(b, i) == BeatBase(b, i) + BeatLowerByte(b.ax, i) - b.ax.addr
    ensures BytesBefore(b, i) < b.nBytes
  {
    if b.ax.len == 0 {
      assert Fits(b.ax.addr, b.nBytes, b.ax.size);
    }
  }

  lemma AllBytesSent(b: Burst)
    requires Legal(b)
    ensures BytesBefore(b, b.ax.len + 1) == b.nBytes
  {}

  // The strobe loop of AXIMaster.hpp lines 265-269: its guard on the bytes
  // written never changes, so it strobes every lane up to the upper bound.
  method FillStrobes(lower: nat, upper: nat, burstBytesWritten: nat, nBytes: nat) returns (strb: LaneStrobes)
    requires lower <= upper <= BUS_BYTES && burstBytesWritten < nBytes
    ensures forall k :: 0 <= k < BUS_BYTES ==> strb[k] == (lower <= k < upper)
  {
    strb := seq(BUS_BYTES, _ => false);
    var l := lower;
    while l < upper && burstBytesWritten < nBytes
      invariant lower <= l <= upper
      invariant forall k :: 0 <= k < BUS_BYTES ==> strb[k] == (lower <= k < l)
    {
      strb := strb[l := true];
      l := l + 1;
    }
  }

  // memcpy(w_data + lower, from, |from|) into zeroed lanes
  method FillData(lower: nat, from: seq<Byte>) returns (data: LaneData)
    requires lower + |from| <= BUS_BYTES
    ensures forall k :: 0 <= k < BUS_BYTES ==>
      data[k] == if lower <= k < lower + |from| then from[k - lower] else 0
  {
    var zeros: LaneData := seq(BUS_BYTES, _ => 0);
    data := zeros[..lower] + from + zeros[lower + |from|..];
  }

  // Fill one data beat: AXIMaster.hpp lines 253-273.
  method FillBeat(b: Burst, chunk: seq<Byte>, i: nat, burstBytesWritten: nat)
    returns (beat: WBeat, beatSize: nat)
    requires Legal(b) && |chunk| == b.nBytes && i <= b.ax.len
    requires burstBytesWritten == BytesBefore(b, i)
    ensures beat == RefBeat(b, chunk, i)
    ensures burstBytesWritten + beatSize == BytesBefore(b, i + 1)
  {
    LaneBounds(b, i);
    var lower := BeatLowerByte(b.ax, i);
    var upper := BeatUpperByte(b.ax, i, b.nBytes);
    beatSize := Min(upper - lower, b.nBytes);
    var data := FillData(lower, chunk[burstBytesWritten..burstBytesWritten + beatSize]);
    var strb := FillStrobes(lower, upper, burstBytesWritten, b.nBytes);
    beat := WBeat(data, strb, false);
    if i == b.ax.len {
      beat := beat.(last := true);
    }
    FilledLanes(b, chunk, i, data, strb);
  }

  lemma FilledLanes(b: Burst, chunk: seq<Byte>, i: nat, data: seq<Byte>, strb: seq<bool>)
    requires Legal(b) && |chunk| == b.nBytes && i <= b.ax.len
    requires |data| == |strb| == BUS_BYTES
    requires var lower := BeatLowerByte(b.ax, i);
             var from := BytesBefore(b, i);
             forall l :: 0 <= l < BUS_BYTES ==>
               0 <= from && data[l] ==
                 if lower <= l < lower + BytesBefore(b, i + 1) - from && 0 <= from + l - lower < |chunk|
                          then chunk[from + l - lower] else 0
    requires forall l :: 0 <= l < BUS_BYTES ==>
      strb[l] == (BeatLowerByte(b.ax, i) <= l < BeatUpperByte(b.ax, i, b.nBytes))
    ensures data == RefBeat(b, chunk, i).data && strb == RefBeat(b, chunk, i).strb
  {
    LaneBounds(b, i);
    var base := BeatBase(b, i);
    var ref := RefBeat(b, chunk, i);
    forall l | 0 <= l < BUS_BYTES
      ensures data[l] == ref.data[l] && strb[l] == ref.strb[l]
    {
      assert ref.strb[l] == Strobes(b, base + l);
    }
  }
}
