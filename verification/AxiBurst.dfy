/** Address arithmetic of the AXI driver and the splitting of a transfer into
    bursts (hw/verilator_model/src/AXIDriver.hpp).

    The method `CreateAxBeats` follows the source: a loop that recurses when a
    transfer crosses a page.  It is proved equal to `Bursts`, which simply cuts
    the transfer at page boundaries. */
module AxiBurst {
  import Arith

  // AXI_SW: bytes on the data bus (AXIPort.hpp)
  const BUS_BYTES: nat := 64
  const LOG_BUS_BYTES: nat := 6
  const PAGE_BYTES: nat := 4096
  const MAX_BEATS: nat := 256

  type Size = s: nat | s <= 6

  function NumBytes(size: Size): (r: nat)
    ensures 1 <= r <= BUS_BYTES
  {
    match size
    case 0 => 1
    case 1 => 2
    case 2 => 4
    case 3 => 8
    case 4 => 16
    case 5 => 32
    case 6 => 64
  }

  lemma {:induction false} NumBytesIsPowerOfTwo(size: Size)
    ensures NumBytes(size) == Arith.PowerOfTwo(size)
  {
    if size > 0 {
      NumBytesIsPowerOfTwo(size - 1);
    }
  }

  lemma AlignedBy2(addr: nat)
    ensures addr / 2 * 2 <= addr < addr / 2 * 2 + 2
    ensures addr / 64 * 64 <= addr / 2 * 2 && addr / 2 * 2 + 2 <= addr / 64 * 64 + 64
  {
    assert addr / 2 == 32 * (addr / 64) + addr % 64 / 2;
  }

  lemma AlignedBy4(addr: nat)
    ensures addr / 4 * 4 <= addr < addr / 4 * 4 + 4
    ensures addr / 64 * 64 <= addr / 4 * 4 && addr / 4 * 4 + 4 <= addr / 64 * 64 + 64
  {
    assert addr / 4 == 16 * (addr / 64) + addr % 64 / 4;
  }

  lemma AlignedBy8(addr: nat)
    ensures addr / 8 * 8 <= addr < addr / 8 * 8 + 8
    ensures addr / 64 * 64 <= addr / 8 * 8 && addr / 8 * 8 + 8 <= addr / 64 * 64 + 64
  {
    assert addr / 8 == 8 * (addr / 64) + addr % 64 / 8;
  }

  lemma AlignedBy16(addr: nat)
    ensures addr / 16 * 16 <= addr < addr / 16 * 16 + 16
    ensures addr / 64 * 64 <= addr / 16 * 16 && addr / 16 * 16 + 16 <= addr / 64 * 64 + 64
  {
    assert addr / 16 == 4 * (addr / 64) + addr % 64 / 16;
  }

  lemma AlignedBy32(addr: nat)
    ensures addr / 32 * 32 <= addr < addr / 32 * 32 + 32
    ensures addr / 64 * 64 <= addr / 32 * 32 && addr / 32 * 32 + 32 <= addr / 64 * 64 + 64
  {
    assert addr / 32 == 2 * (addr / 64) + addr % 64 / 32;
  }

  // Rounding down to a power of two up to the bus width stays in the bus line.
  lemma AlignedInLine(addr: nat, n: nat)
    requires n == 1 || n == 2 || n == 4 || n == 8 || n == 16 || n == 32 || n == 64
    ensures addr / n * n <= addr < addr / n * n + n
    ensures addr / 64 * 64 <= addr / n * n
    ensures addr / n * n + n <= addr / 64 * 64 + 64
  {
    AlignedBy2(addr);
    AlignedBy4(addr);
    AlignedBy8(addr);
    AlignedBy16(addr);
    AlignedBy32(addr);
  }

  function AlignedAddress(addr: nat, size: Size): (r: nat)
    ensures r <= addr < r + NumBytes(size)
    ensures addr / BUS_BYTES * BUS_BYTES <= r
    ensures r + NumBytes(size) <= addr / BUS_BYTES * BUS_BYTES + BUS_BYTES
  {
    AlignedInLine(addr, NumBytes(size));
    addr / NumBytes(size) * NumBytes(size)
  }

  // An address-channel beat.  Every burst the driver issues is of type INCR.
  datatype AxBeat = AxBeat(addr: nat, len: nat, size: Size)

  // A burst together with the number of payload bytes it carries.
  datatype Burst = Burst(ax: AxBeat, nBytes: nat)

  function BeatAddr(ax: AxBeat, i: nat): nat {
    if i == 0 then ax.addr else AlignedAddress(ax.addr, ax.size) + i * NumBytes(ax.size)
  }

  function BeatLowerByte(ax: AxBeat, i: nat): nat {
    var addr := BeatAddr(ax, i);
    addr - addr / BUS_BYTES * BUS_BYTES
  }

  function BeatUpperByte(ax: AxBeat, i: nat, nBytes: nat): int {
    if i == 0 then
      AlignedAddress(ax.addr, ax.size) + NumBytes(ax.size) - ax.addr / BUS_BYTES * BUS_BYTES
    else if i == ax.len then
      nBytes - (BUS_BYTES - BeatLowerByte(ax, 0)) - (ax.len - 1) * BUS_BYTES
    else
      BeatLowerByte(ax, i) + NumBytes(ax.size)
  }

  function PageNum(addr: nat): nat { addr / PAGE_BYTES }

  // ---------- Reference: cut the transfer at page boundaries ----------

  // First address of the bus line (64 bytes) that holds `a`.
  function LineOf(a: nat): nat { a / BUS_BYTES * BUS_BYTES }

  // Number of bus lines touched by [addr, addr + n).
  function Lines(addr: nat, n: nat): nat {
    if n == 0 then 0 else (addr + n - 1) / BUS_BYTES - addr / BUS_BYTES + 1
  }

  // Number of pages touched by [addr, addr + n).
  function Pages(addr: nat, n: nat): nat {
    if n == 0 then 0 else PageNum(addr + n - 1) - PageNum(addr) + 1
  }

  // The aligned 2^size container of `addr` reaches past the last byte.
  predicate Fits(addr: nat, n: nat, size: Size) {
    addr + n <= AlignedAddress(addr, size) + NumBytes(size)
  }

  // The least size whose container holds all bytes, for a transfer in one line.
  function LeastSize(addr: nat, n: nat, from: Size := 0): (s: Size)
    requires Lines(addr, n) == 1
    requires forall t: Size :: t < from ==> !Fits(addr, n, t)
    ensures Fits(addr, n, s)
    ensures forall t: Size :: t < s ==> !Fits(addr, n, t)
    decreases 6 - from
  {
    if from == 6 || Fits(addr, n, from) then from else LeastSize(addr, n, from + 1)
  }

  // The one burst that carries a transfer lying inside a page.
  function PageBurst(addr: nat, n: nat): Burst
    requires 0 < n && PageNum(addr) == PageNum(addr + n - 1)
  {
    var size := if Lines(addr, n) == 1 then LeastSize(addr, n) else LOG_BUS_BYTES;
    Burst(AxBeat(addr, Lines(addr, n) - 1, size), n)
  }

  function UpToPageEnd(addr: nat): (r: nat)
    ensures 1 <= r <= PAGE_BYTES
  {
    PAGE_BYTES - addr % PAGE_BYTES
  }

  function Bursts(addr: nat, n: nat): seq<Burst>
    decreases n
  {
    if n == 0 then []
    else if PageNum(addr) == PageNum(addr + n - 1) then [PageBurst(addr, n)]
    else
      var k := UpToPageEnd(addr);
      [PageBurst(addr, k)] + Bursts(addr + k, n - k)
  }

  // ---------- The source's loop ----------

  // log2(n), truncated to an integer, of a byte count that fits one beat
  function FloorLog2(n: nat): (s: Size)
    requires 1 <= n <= BUS_BYTES
    ensures NumBytes(s) <= n
    ensures forall t: Size :: n <= NumBytes(t) ==> s <= t
  {
    if n < 2 then 0 else if n < 4 then 1 else if n < 8 then 2 else if n < 16 then 3
    else if n < 32 then 4 else if n < 64 then 5 else 6
  }

  // The beat size the driver settles on: AXIDriver.hpp lines 182-203.
  method BeatSize(addr: nat, nBytes: nat) returns (size: Size)
    requires 0 < nBytes
    ensures Lines(addr, nBytes) > 1 ==> size == LOG_BUS_BYTES
    ensures Lines(addr, nBytes) == 1 ==>
      Fits(addr, nBytes, size) && forall t: Size :: t < size ==> !Fits(addr, nBytes, t)
  {
    if nBytes > BUS_BYTES || addr / BUS_BYTES != (addr + nBytes - 1) / BUS_BYTES {
      size := LOG_BUS_BYTES;
    } else {
      size := FloorLog2(nBytes);
      var ax := AxBeat(addr, 0, size);
      while BeatUpperByte(ax, 0, nBytes) - BeatLowerByte(ax, 0) < nBytes
        invariant ax == AxBeat(addr, 0, size)
        invariant forall t: Size :: t < size ==> !Fits(addr, nBytes, t)
        decreases 6 - size
      {
        assert size < LOG_BUS_BYTES;  // the assertion of the source
        size := size + 1;
        ax := ax.(size := size);
      }
    }
  }

  // The beat counts of AXIDriver.hpp lines 206-216; `last` is 0 where the
  // source leaves bytes_in_last_beat unset.
  method BeatCounts(addr: nat, nBytes: nat) returns (first: nat, nBeats: nat, last: nat)
    requires 0 < nBytes
    ensures nBeats == Lines(addr, nBytes)
    ensures nBeats == 1 ==> first == nBytes
    ensures nBeats > 1 ==> first + (nBeats - 2) * BUS_BYTES + last == nBytes && 1 <= last <= BUS_BYTES
  {
    first := BUS_BYTES - addr % BUS_BYTES;
    last := 0;
    if nBytes <= first {
      first := nBytes;
      nBeats := 1;
    } else {
      nBeats := 1 + (nBytes - first + BUS_BYTES - 1) / BUS_BYTES;
      last := nBytes - first - BUS_BYTES * (nBeats - 2);
    }
  }

  lemma BurstsCons(addr: nat, n: nat, k: nat)
    requires 0 < n
    requires k == if PageNum(addr) == PageNum(addr + n - 1) then n else UpToPageEnd(addr)
    ensures k <= n && PageNum(addr) == PageNum(addr + k - 1)
    ensures k < n ==> PageNum(addr + k - 1) < PageNum(addr + k)
    ensures Bursts(addr, n) == [PageBurst(addr, k)] + Bursts(addr + k, n - k)
    ensures Bursts(addr, k) == [PageBurst(addr, k)]
  {}

  lemma PageHasFewLines(addr: nat, n: nat)
    requires 0 < n && PageNum(addr) == PageNum(addr + n - 1)
    ensures Lines(addr, n) <= PAGE_BYTES / BUS_BYTES
  {
    var page := addr / PAGE_BYTES;
    assert 64 * page <= addr / BUS_BYTES;
    assert (addr + n - 1) / BUS_BYTES < 64 * page + 64;
  }

  // The two clauses below name exactly one size, so they determine the burst.
  lemma SizeIsUnique(addr: nat, n: nat, size: Size)
    requires 0 < n && PageNum(addr) == PageNum(addr + n - 1)
    requires Lines(addr, n) > 1 ==> size == LOG_BUS_BYTES
    requires Lines(addr, n) == 1 ==>
      Fits(addr, n, size) && forall t: Size :: t < size ==> !Fits(addr, n, t)
    ensures PageBurst(addr, n) == Burst(AxBeat(addr, Lines(addr, n) - 1, size), n)
  {
    if Lines(addr, n) == 1 {
      var other := LeastSize(addr, n);
      assert !(other < size) && !(size < other);
    }
  }

  // The bursts so far and those of the rest make up the same list after one more.
  lemma OneBurstMore(before: seq<Burst>, now: seq<Burst>, later: seq<Burst>, out: seq<Burst>, all: seq<Burst>)
    requires out == before + now && all == now + later
    ensures out + later == before + all
  {}

  // The branch of create_ax_beats for a transfer inside one page.
  method OneBurst(addr: nat, nBytes: nat, ax: AxBeat, first: nat, beats: nat, last: nat) returns (bs: Burst)
    requires 0 < nBytes && PageNum(addr) == PageNum(addr + nBytes - 1) && ax.addr == addr
    requires Lines(addr, nBytes) > 1 ==> ax.size == LOG_BUS_BYTES
    requires Lines(addr, nBytes) == 1 ==>
      Fits(addr, nBytes, ax.size) && forall t: Size :: t < ax.size ==> !Fits(addr, nBytes, t)
    requires beats == Lines(addr, nBytes) && (beats == 1 ==> first == nBytes)
    requires beats > 1 ==> first + (beats - 2) * BUS_BYTES + last == nBytes
    ensures bs == PageBurst(addr, nBytes) && bs.nBytes == nBytes
  {
    var bytesInBurst, nBeats, bytesInLastBeat := first, beats, last;
    PageHasFewLines(addr, nBytes);
    assert nBeats <= MAX_BEATS;  // so the cap below is never applied
    if nBeats > MAX_BEATS {
      nBeats := MAX_BEATS;
      bytesInLastBeat := BUS_BYTES;
    }
    if nBeats > 1 {
      bytesInBurst := bytesInBurst + (nBeats - 2) * BUS_BYTES + bytesInLastBeat;
    }
    SizeIsUnique(addr, nBytes, ax.size);
    bs := Burst(ax.(len := nBeats - 1), bytesInBurst);
  }

  method CreateAxBeats(startAddr: nat, totalBytes: nat, axBeats: seq<Burst>) returns (out: seq<Burst>)
    ensures out == axBeats + Bursts(startAddr, totalBytes)
    decreases totalBytes
  {
    out := axBeats;
    var addr: nat, nBytes: nat := startAddr, totalBytes;
    while nBytes > 0
      invariant nBytes <= totalBytes
      invariant out + Bursts(addr, nBytes) == axBeats + Bursts(startAddr, totalBytes)
    {
      ghost var before := out;
      var size := BeatSize(addr, nBytes);
      var axBeat := AxBeat(addr, 0, size);
      var bytesInFirstBeat, nBeats, bytesInLastBeat := BeatCounts(addr, nBytes);
      var bytesInBurst: nat;

      if PageNum(addr) != PageNum(addr + nBytes - 1) {
        bytesInBurst := PAGE_BYTES - addr % PAGE_BYTES;
        BurstsCons(addr, nBytes, bytesInBurst);
        out := CreateAxBeats(addr, bytesInBurst, out);
      } else {
        var bs := OneBurst(addr, nBytes, axBeat, bytesInFirstBeat, nBeats, bytesInLastBeat);
        bytesInBurst := bs.nBytes;
        BurstsCons(addr, nBytes, bytesInBurst);
        out := out + [bs];
      }
      OneBurstMore(before, Bursts(addr, bytesInBurst), Bursts(addr + bytesInBurst, nBytes - bytesInBurst), out,
                   Bursts(addr, nBytes));
      addr := addr + bytesInBurst;
      nBytes := nBytes - bytesInBurst;
    }
    assert out + [] == out;
  }

  // ---------- What the bursts of a transfer are ----------

  function End(b: Burst): nat { b.ax.addr + b.nBytes }

  // A burst the AXI protocol allows for exactly the bytes [addr, addr + nBytes):
  // inside one page (section A3.4.1 of ARM IHI 0022E), at most 256 beats, one
  // beat per bus line touched, and the narrowest beat that holds a single-line
  // transfer.
  predicate Legal(b: Burst) {
    && 0 < b.nBytes
    && PageNum(b.ax.addr) == PageNum(End(b) - 1)
    && b.ax.len < MAX_BEATS
    && b.ax.len + 1 == Lines(b.ax.addr, b.nBytes)
    && (b.ax.len > 0 ==> b.ax.size == LOG_BUS_BYTES)
    && (b.ax.len == 0 ==> Fits(b.ax.addr, b.nBytes, b.ax.size)
                          && forall t: Size :: t < b.ax.size ==> !Fits(b.ax.addr, b.nBytes, t))
  }

  // The bursts cover [addr, addr + n) in order, without gap or overlap.
  predicate Tile(bs: seq<Burst>, addr: nat, n: nat) {
    && (bs == [] <==> n == 0)
    && (bs != [] ==> bs[0].ax.addr == addr && End(bs[|bs| - 1]) == addr + n)
    && forall i :: 0 < i < |bs| ==> bs[i].ax.addr == End(bs[i - 1])
  }

  lemma PageBurstIsLegal(addr: nat, n: nat)
    requires 0 < n && PageNum(addr) == PageNum(addr + n - 1)
    ensures Legal(PageBurst(addr, n))
    ensures PageBurst(addr, n).ax.addr == addr && PageBurst(addr, n).nBytes == n
  {
    PageHasFewLines(addr, n);
  }

  // How far the first burst of a transfer goes.
  function FirstCut(addr: nat, n: nat): (k: nat)
    requires 0 < n
    ensures 0 < k <= n
    ensures PageNum(addr) == PageNum(addr + k - 1)
    ensures k < n ==> (addr + k) % PAGE_BYTES == 0
    ensures Bursts(addr, n) == [PageBurst(addr, k)] + Bursts(addr + k, n - k)
  {
    var k := if PageNum(addr) == PageNum(addr + n - 1) then n else UpToPageEnd(addr);
    BurstsCons(addr, n, k);
    k
  }

  lemma {:induction false} BurstsTile(addr: nat, n: nat)
    ensures Tile(Bursts(addr, n), addr, n)
    decreases n
  {
    if n > 0 {
      var k := FirstCut(addr, n);
      var b, rest := PageBurst(addr, k), Bursts(addr + k, n - k);
      BurstsTile(addr + k, n - k);
      TileCons(b, rest, [b] + rest, addr, n, k);
    }
  }

  lemma TileCons(b: Burst, rest: seq<Burst>, bs: seq<Burst>, addr: nat, n: nat, k: nat)
    requires 0 < k <= n && b.ax.addr == addr && End(b) == addr + k
    requires Tile(rest, addr + k, n - k) && bs == [b] + rest
    ensures Tile(bs, addr, n)
  {
    forall i | 0 < i < |bs|
      ensures bs[i].ax.addr == End(bs[i - 1])
    {
      assert bs[i] == rest[i - 1];
    }
  }

  lemma {:induction false} BurstsAreLegal(addr: nat, n: nat)
    ensures forall b :: b in Bursts(addr, n) ==> Legal(b)
    ensures forall b :: b in Bursts(addr, n) ==> addr <= b.ax.addr && End(b) <= addr + n
    decreases n
  {
    if n > 0 {
      var k := FirstCut(addr, n);
      PageBurstIsLegal(addr, k);
      BurstsAreLegal(addr + k, n - k);
    }
  }

  // One burst per page: the fewest that respect the page rule.
  lemma {:induction false} BurstsCountPages(addr: nat, n: nat)
    ensures |Bursts(addr, n)| == Pages(addr, n)
    decreases n
  {
    if n > 0 {
      var k := FirstCut(addr, n);
      BurstsCountPages(addr + k, n - k);
    }
  }

  function TotalBeats(bs: seq<Burst>): nat {
    if bs == [] then 0 else bs[0].ax.len + 1 + TotalBeats(bs[1..])
  }

  // One data beat per bus line: no line is transferred twice.
  lemma {:induction false} BeatsCountLines(addr: nat, n: nat)
    ensures TotalBeats(Bursts(addr, n)) == Lines(addr, n)
    decreases n
  {
    if n > 0 {
      var k := FirstCut(addr, n);
      PageBurstIsLegal(addr, k);
      BeatsCountLines(addr + k, n - k);
      assert ([PageBurst(addr, k)] + Bursts(addr + k, n - k))[1..] == Bursts(addr + k, n - k);
      LinesSplit(addr, n, k);
    }
  }

  lemma LinesSplit(addr: nat, n: nat, k: nat)
    requires 0 < k <= n && (k < n ==> (addr + k) % PAGE_BYTES == 0)
    ensures Lines(addr, k) + Lines(addr + k, n - k) == Lines(addr, n)
  {
    if k < n {
      var q := 64 * ((addr + k) / PAGE_BYTES);
      assert addr + k == BUS_BYTES * q;
      assert (addr + k) / BUS_BYTES == q && (addr + k - 1) / BUS_BYTES == q - 1;
    }
  }
}
