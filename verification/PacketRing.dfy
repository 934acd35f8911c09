/** The packet buffer of the NIC inbound engine: a ring allocator with a cut
    pointer and out-of-order frees (hw/verilator_model/src/NICInbound.hpp,
    lines 247-317), as functions on its fields, with its run-level properties. */
module PacketRing {

  const ALIGNMENT: nat := 64   // NI_PKT_ADDR_ALIGNMENT
  const TWO32: nat := 0x1_0000_0000

  datatype Option<+T> = None | Some(value: T)

  // Segments times alignment, in uint32_t arithmetic.
  function Rounded(size: nat): (r: nat)
    ensures r % ALIGNMENT == 0
  {
    (size + ALIGNMENT - 1) % TWO32 / ALIGNMENT * ALIGNMENT
  }

  // The sizes for which the rounding is one: not zero, and not so large that
  // `pkt_size + 63` wraps.
  predicate Sizable(size: nat) { 0 < size <= TWO32 - ALIGNMENT }

  lemma RoundingCoversExactlySizable(size: nat)
    requires size < TWO32
    ensures Sizable(size) <==> 0 < size <= Rounded(size)
    ensures Sizable(size) ==> Rounded(size) < size + ALIGNMENT
    ensures !Sizable(size) ==> Rounded(size) == 0
  {}

  // The allocator's fields; `freed` is free_req_queue.
  datatype Ring = Ring(head: nat, tail: nat, cutPtr: nat, cut: bool, inFlight: int, freed: map<nat, nat>)

  const EMPTY := Ring(0, 0, 0, false, 0, map[])

  // What allocate_pkt_space decides for a rounded size: where the tail moves.
  datatype Choice = Refuse | AtTail | Wrap

  function Choose(r: Ring, p: nat, cap: nat): Choice
  {
    if r.tail > r.head || (r.tail == r.head && r.inFlight == 0) then
      if cap - r.tail >= p then AtTail else if r.head >= p then Wrap else Refuse
    else if r.head > r.tail then
      if r.head - r.tail >= p then AtTail else Refuse
    else Refuse
  }

  function Allocate(r: Ring, p: nat, cap: nat): (Ring, Option<nat>) {
    match Choose(r, p, cap)
    case Refuse => (r, None)
    case AtTail => (r.(tail := r.tail + p, inFlight := r.inFlight + 1), Some(r.tail))
    case Wrap => (r.(tail := p, cutPtr := r.tail, cut := true, inFlight := r.inFlight + 1), Some(0))
  }

  // One turn of the reclaim loop of free_pkt_space.
  function ReclaimStep(r: Ring): Ring
    requires r.head in r.freed
  {
    var h := r.head + r.freed[r.head];
    var back := r.cut && h == r.cutPtr;
    r.(head := if back then 0 else h, cut := r.cut && !back,
       inFlight := r.inFlight - 1, freed := r.freed - {r.head})
  }

  function Reclaim(r: Ring): Ring
    decreases |r.freed|
  {
    if r.head in r.freed then
      SmallerFreed(r.freed, r.head);
      Reclaim(ReclaimStep(r))
    else r
  }

  lemma SmallerFreed(m: map<nat, nat>, k: nat)
    requires k in m
    ensures |m - {k}| == |m| - 1
  {
    assert (m - {k}).Keys == m.Keys - {k};
  }

  function Free(r: Ring, off: nat, size: nat): Ring {
    Reclaim(r.(freed := r.freed[off := Rounded(size)]))
  }

  // ---------- Regions: what the fields mean ----------

  datatype Region = Region(off: nat, len: nat)

  // Unreclaimed regions in allocation order; `second` is the part allocated
  // after the cut.
  datatype Layout = Layout(first: seq<Region>, second: seq<Region>) {
    function All(): seq<Region> { first + second }
  }

  // The regions lie end to end from `from` to `to`.
  predicate Chain(rs: seq<Region>, from: nat, to: nat) {
    if rs == [] then from == to
    else
      && rs[0].off == from && 0 < rs[0].len && rs[0].len % ALIGNMENT == 0
      && Chain(rs[1..], from + rs[0].len, to)
  }

  function Offsets(rs: seq<Region>): set<nat> { set r | r in rs :: r.off }

  // The regions tile [head, tail), or [head, cutPtr) and then [0, tail).
  predicate Tiled(r: Ring, l: Layout, cap: nat) {
    && r.head % ALIGNMENT == 0
    && Chain(l.first, r.head, if r.cut then r.cutPtr else r.tail)
    && (if r.cut then Chain(l.second, 0, r.tail) && l.second != [] && r.tail <= r.head && r.cutPtr <= cap
        else l.second == [] && r.tail <= cap)
  }

  predicate Bookkept(r: Ring, l: Layout) {
    && r.inFlight == |l.All()|
    && r.freed.Keys <= Offsets(l.All())
    && forall g :: g in l.All() && g.off in r.freed ==> r.freed[g.off] == g.len
  }

  predicate Inv(r: Ring, l: Layout, cap: nat) {
    Tiled(r, l, cap) && Bookkept(r, l) && r.head !in r.freed
  }

  lemma {:induction false} ChainBounds(rs: seq<Region>, from: nat, to: nat)
    requires Chain(rs, from, to)
    ensures from <= to && (rs != [] ==> from < to)
    ensures forall g :: g in rs ==> from <= g.off && 0 < g.len && g.off + g.len <= to
    ensures forall g :: g in rs ==> g.len % ALIGNMENT == 0
    ensures from % ALIGNMENT == 0 ==> forall g :: g in rs ==> g.off % ALIGNMENT == 0
    ensures from % ALIGNMENT == 0 ==> to % ALIGNMENT == 0
    decreases |rs|
  {
    if rs != [] {
      ChainBounds(rs[1..], from + rs[0].len, to);
      assert rs == [rs[0]] + rs[1..];
    }
  }

  predicate Apart(g: Region, h: Region) { g.off + g.len <= h.off || h.off + h.len <= g.off }

  predicate PairwiseApart(rs: seq<Region>) {
    forall i, j :: 0 <= i < j < |rs| ==> Apart(rs[i], rs[j])
  }

  lemma {:induction false} ChainApart(rs: seq<Region>, from: nat, to: nat)
    requires Chain(rs, from, to)
    ensures PairwiseApart(rs)
    decreases |rs|
  {
    if rs != [] {
      var next := from + rs[0].len;
      ChainBounds(rs[1..], next, to);
      ChainApart(rs[1..], next, to);
      forall i, j | 0 <= i < j < |rs|
        ensures Apart(rs[i], rs[j])
      {
        assert rs[j] == rs[1..][j - 1] && rs[j] in rs[1..];
        if i > 0 {
          assert rs[i] == rs[1..][i - 1];
        }
      }
    }
  }

  // Ring safety: unreclaimed regions are aligned, inside the buffer, pairwise
  // disjoint, and counted by in_flight_packets.
  lemma RegionsAreSafe(r: Ring, l: Layout, cap: nat)
    requires Tiled(r, l, cap)
    ensures forall g :: g in l.All() ==> g.off % ALIGNMENT == 0 && g.len % ALIGNMENT == 0
    ensures forall g :: g in l.All() ==> 0 < g.len && g.off + g.len <= cap
    ensures PairwiseApart(l.All())
  {
    var mid := if r.cut then r.cutPtr else r.tail;
    ChainBounds(l.first, r.head, mid);
    ChainApart(l.first, r.head, mid);
    if r.cut {
      ChainBounds(l.second, 0, r.tail);
      ChainApart(l.second, 0, r.tail);
    }
    var n := |l.first|;
    forall i, j | 0 <= i < j < |l.All()|
      ensures Apart(l.All()[i], l.All()[j])
    {
      if i < n <= j {
        assert l.All()[i] in l.first && l.All()[j] in l.second;
      }
    }
  }

  // A region's offset identifies it.
  lemma OffsetsAreDistinct(rs: seq<Region>, g: Region, h: Region)
    requires PairwiseApart(rs) && g in rs && h in rs && g.off == h.off
    requires forall k :: k in rs ==> 0 < k.len
    ensures g == h
  {
    forall i, j | 0 <= i < j < |rs|
      ensures rs[i].off != rs[j].off
    {
      assert Apart(rs[i], rs[j]) && rs[i] in rs && rs[j] in rs;
    }
  }

  // ---------- Allocation ----------

  function AllocateLayout(r: Ring, l: Layout, p: nat, cap: nat): Layout {
    match Choose(r, p, cap)
    case Refuse => l
    case AtTail => if r.cut then l.(second := l.second + [Region(r.tail, p)])
                   else l.(first := l.first + [Region(r.tail, p)])
    case Wrap => l.(second := [Region(0, p)])
  }

  lemma {:induction false} ChainAppend(rs: seq<Region>, from: nat, to: nat, p: nat)
    requires Chain(rs, from, to) && 0 < p && p % ALIGNMENT == 0
    ensures Chain(rs + [Region(to, p)], from, to + p)
    decreases |rs|
  {
    var all := rs + [Region(to, p)];
    if rs == [] {
      assert all[1..] == [];
    } else {
      assert all[1..] == rs[1..] + [Region(to, p)];
      ChainAppend(rs[1..], from + rs[0].len, to, p);
    }
  }

  // A region at the tail, or one at the start of the buffer behind a new cut.
  lemma TailTiled(r: Ring, l: Layout, p: nat, cap: nat, l': Layout)
    requires Tiled(r, l, cap) && 0 < p && p % ALIGNMENT == 0 && r.inFlight == |l.All()|
    requires Choose(r, p, cap) == AtTail && l' == AllocateLayout(r, l, p, cap)
    ensures Tiled(r.(tail := r.tail + p, inFlight := r.inFlight + 1), l', cap)
    ensures l'.All() == l.All() + [Region(r.tail, p)]
  {
    if r.cut {
      ChainBounds(l.first, r.head, r.cutPtr);
      ChainBounds(l.second, 0, r.tail);
      ChainAppend(l.second, 0, r.tail, p);
    } else {
      ChainBounds(l.first, r.head, r.tail);
      ChainAppend(l.first, r.head, r.tail, p);
    }
  }

  lemma WrapTiled(r: Ring, l: Layout, p: nat, cap: nat, l': Layout)
    requires Tiled(r, l, cap) && 0 < p && p % ALIGNMENT == 0 && r.inFlight == |l.All()|
    requires Choose(r, p, cap) == Wrap && l' == AllocateLayout(r, l, p, cap)
    ensures Tiled(r.(tail := p, cutPtr := r.tail, cut := true, inFlight := r.inFlight + 1), l', cap)
    ensures l'.All() == l.All() + [Region(0, p)]
  {
    ChainBounds(l.first, r.head, if r.cut then r.cutPtr else r.tail);
    assert Chain([Region(0, p)][1..], p, p);
  }

  lemma AllocateTiled(r: Ring, l: Layout, p: nat, cap: nat, r': Ring, l': Layout, off: Option<nat>)
    requires Inv(r, l, cap) && 0 < p && p % ALIGNMENT == 0
    requires (r', off) == Allocate(r, p, cap) && l' == AllocateLayout(r, l, p, cap)
    ensures Tiled(r', l', cap)
    ensures off.Some? ==> l'.All() == l.All() + [Region(off.value, p)]
    ensures off.None? ==> r' == r && l' == l
    ensures off.Some? ==> r'.freed == r.freed && r'.inFlight == r.inFlight + 1 && r'.head == r.head
  {
    match Choose(r, p, cap) {
      case Refuse =>
      case AtTail => TailTiled(r, l, p, cap, l');
      case Wrap => WrapTiled(r, l, p, cap, l');
    }
  }

  lemma AllocateKeeps(r: Ring, l: Layout, p: nat, cap: nat)
    requires Inv(r, l, cap) && 0 < p && p % ALIGNMENT == 0
    ensures Inv(Allocate(r, p, cap).0, AllocateLayout(r, l, p, cap), cap)
    ensures Allocate(r, p, cap).1.Some? ==>
      AllocateLayout(r, l, p, cap).All() == l.All() + [Region(Allocate(r, p, cap).1.value, p)]
    ensures Allocate(r, p, cap).1.None? ==>
      Allocate(r, p, cap).0 == r && AllocateLayout(r, l, p, cap) == l
    ensures Allocate(r, p, cap).1.Some? ==> Allocate(r, p, cap).1.value !in r.freed
  {
    var (r', off) := Allocate(r, p, cap);
    var l' := AllocateLayout(r, l, p, cap);
    AllocateTiled(r, l, p, cap, r', l', off);
    if off.Some? {
      AllocateBookkept(r, l, r', l', cap, Region(off.value, p));
    }
  }

  lemma AllocateBookkept(r: Ring, l: Layout, r': Ring, l': Layout, cap: nat, more: Region)
    requires Inv(r, l, cap) && Tiled(r', l', cap) && l'.All() == l.All() + [more]
    requires r'.freed == r.freed && r'.inFlight == r.inFlight + 1 && r'.head == r.head
    ensures Bookkept(r', l') && more.off !in r.freed
  {
    var n := |l.All()|;
    RegionsAreSafe(r', l', cap);
    forall g | g in l.All()
      ensures g in l'.All() && Apart(g, l'.All()[n])
    {
      var i :| 0 <= i < n && l.All()[i] == g;
      assert l'.All()[i] == l'.All()[..n][i] == g;
      assert Apart(l'.All()[i], l'.All()[n]);
    }
    assert l'.All()[n].off !in r.freed;
    forall g | g in l'.All() && g.off in r'.freed
      ensures r'.freed[g.off] == g.len
    {
      var i :| 0 <= i < |l'.All()| && l'.All()[i] == g;
      assert i < n;
      assert l.All()[i] == l'.All()[..n][i] == g;
    }
  }

  // ---------- When there is room ----------

  // Behind a cut the free bytes are those from the tail to the head; otherwise those from
  // the tail to the end of the buffer and those before the head.
  predicate HasRoom(r: Ring, p: nat, cap: nat) {
    if r.cut then p <= r.head - r.tail else p <= cap - r.tail || p <= r.head
  }

  // Main result: an allocation succeeds exactly when there is room, and goes to the tail
  // whenever the packet fits there.
  lemma AllocatesExactly(r: Ring, l: Layout, p: nat, cap: nat)
    requires Inv(r, l, cap) && 0 < p && p % ALIGNMENT == 0
    ensures Allocate(r, p, cap).1.Some? <==> HasRoom(r, p, cap)
    ensures Allocate(r, p, cap).1.Some? ==>
      Allocate(r, p, cap).1.value == if r.cut || p <= cap - r.tail then r.tail else 0
  {
    ChainBounds(l.first, r.head, if r.cut then r.cutPtr else r.tail);
    if r.cut {
      ChainBounds(l.second, 0, r.tail);
    }
  }

  // ---------- Reclaim ----------

  // No region is left before the cut: the head stands on the cut pointer and
  // the reset of the head is not reached.
  predicate Stuck(r: Ring) { r.cut && r.head == r.cutPtr }

  lemma HeadRegion(r: Ring, l: Layout, cap: nat)
    requires Tiled(r, l, cap) && Bookkept(r, l) && r.head in r.freed
    ensures l.first != [] && l.first[0].off == r.head && r.freed[r.head] == l.first[0].len
  {
    assert r.head in Offsets(l.All());
    var g :| g in l.All() && g.off == r.head;
    if l.first == [] && r.cut {
      ChainBounds(l.second, 0, r.tail);
    }
    assert l.first[0] in l.All();
  }

  function LayoutStep(r: Ring, l: Layout): Layout
    requires l.first != [] && r.head in r.freed
  {
    if r.cut && r.head + r.freed[r.head] == r.cutPtr then Layout(l.second, [])
    else Layout(l.first[1..], l.second)
  }

  lemma LayoutStepTiled(r: Ring, l: Layout, cap: nat)
    requires Tiled(r, l, cap) && r.head in r.freed
    requires l.first != [] && l.first[0].off == r.head && r.freed[r.head] == l.first[0].len
    ensures Tiled(ReclaimStep(r), LayoutStep(r, l), cap) && !Stuck(ReclaimStep(r))
    ensures LayoutStep(r, l).All() == l.All()[1..] && l.All()[0] == Region(r.head, r.freed[r.head])
  {
    var mid := if r.cut then r.cutPtr else r.tail;
    var next := r.head + l.first[0].len;
    ChainBounds(l.first[1..], next, mid);
    assert LayoutStep(r, l).All() == l.All()[1..];
  }

  lemma FirstIsDistinct(all: seq<Region>)
    requires all != [] && PairwiseApart(all) && forall g :: g in all ==> 0 < g.len
    ensures all[0].off !in Offsets(all[1..])
    ensures Offsets(all) == {all[0].off} + Offsets(all[1..])
  {
    forall g | g in all[1..]
      ensures g.off != all[0].off
    {
      var i :| 0 <= i < |all[1..]| && all[1..][i] == g;
      assert all[i + 1] == g && g in all && Apart(all[0], all[i + 1]);
    }
    assert all == [all[0]] + all[1..];
  }

  lemma DropFirstBookkept(r: Ring, l: Layout, r': Ring, l': Layout)
    requires Bookkept(r, l) && l.All() != [] && l.All()[0].off == r.head && r.head in r.freed
    requires l'.All() == l.All()[1..] && r'.freed == r.freed - {r.head} && r'.inFlight == r.inFlight - 1
    requires r.head !in Offsets(l.All()[1..]) && Offsets(l.All()) == {r.head} + Offsets(l.All()[1..])
    ensures Bookkept(r', l')
  {
    assert forall g :: g in l'.All() ==> g in l.All();
  }

  lemma ReclaimStepKeeps(r: Ring, l: Layout, cap: nat)
    requires Tiled(r, l, cap) && Bookkept(r, l) && r.head in r.freed
    ensures l.first != []
    ensures Tiled(ReclaimStep(r), LayoutStep(r, l), cap) && Bookkept(ReclaimStep(r), LayoutStep(r, l))
    ensures LayoutStep(r, l).All() == l.All()[1..] && l.All()[0] == Region(r.head, r.freed[r.head])
    ensures r.head !in Offsets(l.All()[1..])
    ensures !Stuck(ReclaimStep(r))
  {
    HeadRegion(r, l, cap);
    RegionsAreSafe(r, l, cap);
    LayoutStepTiled(r, l, cap);
    FirstIsDistinct(l.All());
    DropFirstBookkept(r, l, ReclaimStep(r), LayoutStep(r, l));
  }

  // How many regions at the front of the allocation order are freed.
  function FreedPrefix(rs: seq<Region>, freed: map<nat, nat>): (n: nat)
    ensures n <= |rs|
  {
    if rs == [] || rs[0].off !in freed then 0 else 1 + FreedPrefix(rs[1..], freed)
  }

  lemma {:induction false} PrefixIgnores(rs: seq<Region>, freed: map<nat, nat>, k: nat)
    requires k !in Offsets(rs)
    ensures FreedPrefix(rs, freed - {k}) == FreedPrefix(rs, freed)
    decreases |rs|
  {
    if rs != [] {
      assert rs[0] in rs && rs[0].off in Offsets(rs);
      assert Offsets(rs[1..]) <= Offsets(rs);
      PrefixIgnores(rs[1..], freed, k);
    }
  }

  function ReclaimLayout(r: Ring, l: Layout, cap: nat): Layout
    requires Tiled(r, l, cap) && Bookkept(r, l)
    decreases |r.freed|
  {
    if r.head in r.freed then
      SmallerFreed(r.freed, r.head);
      ReclaimStepKeeps(r, l, cap);
      ReclaimLayout(ReclaimStep(r), LayoutStep(r, l), cap)
    else l
  }

  lemma {:induction false} ReclaimKeeps(r: Ring, l: Layout, cap: nat)
    requires Tiled(r, l, cap) && Bookkept(r, l)
    ensures Inv(Reclaim(r), ReclaimLayout(r, l, cap), cap)
    ensures Stuck(r) ==> Reclaim(r) == r && ReclaimLayout(r, l, cap) == l
    ensures !Stuck(r) ==> !Stuck(Reclaim(r))
    decreases |r.freed|
  {
    if r.head in r.freed {
      SmallerFreed(r.freed, r.head);
      ReclaimStepKeeps(r, l, cap);
      ReclaimKeeps(ReclaimStep(r), LayoutStep(r, l), cap);
      if Stuck(r) {
        ChainBounds(l.first, r.head, r.cutPtr);
        assert false;
      }
    }
  }

  lemma EraseOneMore(all: seq<Region>, rest: seq<Region>, freed: map<nat, nat>, head: nat, n: nat,
                     left: map<nat, nat>)
    requires 0 < n <= |all| && all[0].off == head && rest == all[1..]
    requires left == freed - {head} - Offsets(rest[..n - 1])
    ensures left == freed - Offsets(all[..n])
  {
    PrefixSplit(all, freed, head, n);
  }

  lemma EraseNothing(all: seq<Region>, freed: map<nat, nat>)
    ensures freed - Offsets(all[..0]) == freed
  {
    assert all[..0] == [];
  }

  lemma PrefixSplit(all: seq<Region>, freed: map<nat, nat>, head: nat, n: nat)
    requires 0 < n <= |all| && all[0].off == head
    ensures all[1..][n - 1..] == all[n..]
    ensures freed - {head} - Offsets(all[1..][..n - 1]) == freed - Offsets(all[..n])
  {
    assert all[..n] == [all[0]] + all[1..][..n - 1];
    assert Offsets(all[..n]) == {head} + Offsets(all[1..][..n - 1]);
  }

  lemma StepPrefix(r: Ring, l: Layout, cap: nat, n: nat)
    requires Tiled(r, l, cap) && Bookkept(r, l) && r.head in r.freed
    requires n == FreedPrefix(l.All(), r.freed)
    ensures 0 < n && l.first != []
    ensures FreedPrefix(LayoutStep(r, l).All(), ReclaimStep(r).freed) == n - 1
  {
    ReclaimStepKeeps(r, l, cap);
    PrefixIgnores(l.All()[1..], r.freed, r.head);
  }

  // Reclaiming is exact: unless the ring is stuck, the reclaimed regions are
  // the longest freed prefix of the allocation order, across the cut.
  lemma {:induction false} ReclaimsLongestPrefix(r: Ring, l: Layout, cap: nat, n: nat)
    requires Tiled(r, l, cap) && Bookkept(r, l) && !Stuck(r)
    requires n == FreedPrefix(l.All(), r.freed)
    ensures ReclaimLayout(r, l, cap).All() == l.All()[n..]
    ensures Reclaim(r).inFlight == r.inFlight - n
    decreases |r.freed|
  {
    if r.head in r.freed {
      SmallerFreed(r.freed, r.head);
      ReclaimStepKeeps(r, l, cap);
      StepPrefix(r, l, cap, n);
      PrefixSplit(l.All(), r.freed, r.head, n);
      ReclaimsLongestPrefix(ReclaimStep(r), LayoutStep(r, l), cap, n - 1);
    } else {
      assert l.first == [] ==> l.All() == [];
    }
  }

  lemma {:induction false} ReclaimErasesPrefix(r: Ring, l: Layout, cap: nat, n: nat)
    requires Tiled(r, l, cap) && Bookkept(r, l) && !Stuck(r)
    requires n == FreedPrefix(l.All(), r.freed)
    ensures Reclaim(r).freed == r.freed - Offsets(l.All()[..n])
    decreases |r.freed|
  {
    if r.head in r.freed {
      SmallerFreed(r.freed, r.head);
      ReclaimStepKeeps(r, l, cap);
      StepPrefix(r, l, cap, n);
      ReclaimErasesPrefix(ReclaimStep(r), LayoutStep(r, l), cap, n - 1);
      EraseOneMore(l.All(), LayoutStep(r, l).All(), r.freed, r.head, n, Reclaim(r).freed);
    } else {
      assert l.first == [] ==> l.All() == [];
      EraseNothing(l.All(), r.freed);
    }
  }

  // A free of a region that is outstanding.
  lemma FreeKeeps(r: Ring, l: Layout, cap: nat, g: Region, size: nat)
    requires Inv(r, l, cap) && g in l.All() && g.off !in r.freed && Rounded(size) == g.len
    ensures var r1 := r.(freed := r.freed[g.off := g.len]);
            && Tiled(r1, l, cap) && Bookkept(r1, l)
            && Free(r, g.off, size) == Reclaim(r1)
  {
    var r1 := r.(freed := r.freed[g.off := g.len]);
    RegionsAreSafe(r, l, cap);
    assert g.off in Offsets(l.All());
    forall h | h in l.All() && h.off in r1.freed
      ensures r1.freed[h.off] == h.len
    {
      if h.off == g.off {
        OffsetsAreDistinct(l.All(), g, h);
      }
    }
  }

  // ---------- Runs ----------

  datatype Event = Alloc(size: nat) | Release(off: nat)

  // The allocator and its client's view: `out` holds the requested size of
  // every region allocated and not yet freed, `emptyWrap` remembers whether a
  // wrap was ever taken from an empty ring.
  datatype Sys = Sys(ring: Ring, out: map<nat, nat>, emptyWrap: bool)

  const INIT := Sys(EMPTY, map[], false)

  predicate WrapsEmpty(r: Ring, p: nat, cap: nat) {
    Choose(r, p, cap) == Wrap && r.head == r.tail
  }

  predicate Enabled(s: Sys, e: Event) {
    match e
    case Alloc(size) => Sizable(size)
    case Release(off) => off in s.out
  }

  function Step(s: Sys, e: Event, cap: nat): Sys
    requires Enabled(s, e)
  {
    match e
    case Alloc(size) =>
      var (r, off) := Allocate(s.ring, Rounded(size), cap);
      Sys(r, if off.Some? then s.out[off.value := size] else s.out,
          s.emptyWrap || WrapsEmpty(s.ring, Rounded(size), cap))
    case Release(off) =>
      s.(ring := Free(s.ring, off, s.out[off]), out := s.out - {off})
  }

  predicate IsRun(run: seq<Sys>, es: seq<Event>, cap: nat) {
    && |run| == |es| + 1 && run[0] == INIT
    && forall i :: 0 <= i < |es| ==> Enabled(run[i], es[i]) && run[i + 1] == Step(run[i], es[i], cap)
  }

  predicate OutMatches(r: Ring, l: Layout, out: map<nat, nat>) {
    && out.Keys <= Offsets(l.All())
    && forall g :: g in l.All() ==>
        && (g.off in out <==> g.off !in r.freed)
        && (g.off in out ==> Sizable(out[g.off]) && Rounded(out[g.off]) == g.len)
  }

  predicate Good(s: Sys, l: Layout, cap: nat) {
    Inv(s.ring, l, cap) && OutMatches(s.ring, l, s.out) && (s.emptyWrap <==> Stuck(s.ring))
  }

  lemma AllocStepKeeps(s: Sys, l: Layout, size: nat, cap: nat)
    requires Good(s, l, cap) && Sizable(size)
    ensures Good(Step(s, Alloc(size), cap), AllocateLayout(s.ring, l, Rounded(size), cap), cap)
  {
    var p := Rounded(size);
    RoundingCoversExactlySizable(size);
    AllocateKeeps(s.ring, l, p, cap);
    StuckOnlyByEmptyWrap(s.ring, l, p, cap);
    var (r, off) := Allocate(s.ring, p, cap);
    var l' := AllocateLayout(s.ring, l, p, cap);
    if off.Some? {
      var out := s.out[off.value := size];
      NewRegionIsNew(r, l', cap, l.All(), Region(off.value, p));
      assert out.Keys == s.out.Keys + {off.value};
      assert Offsets(l'.All()) == Offsets(l.All()) + {off.value};
      forall g | g in l'.All()
        ensures g.off in out <==> g.off !in r.freed
        ensures g.off in out ==> Sizable(out[g.off]) && Rounded(out[g.off]) == g.len
      {
        assert g in l.All() || g == Region(off.value, p);
      }
    }
  }

  lemma NewRegionIsNew(r: Ring, l: Layout, cap: nat, before: seq<Region>, g: Region)
    requires Tiled(r, l, cap) && l.All() == before + [g]
    ensures forall h :: h in before ==> h.off != g.off
  {
    RegionsAreSafe(r, l, cap);
    var all := l.All();
    forall h | h in before
      ensures h.off != g.off
    {
      var i :| 0 <= i < |before| && before[i] == h;
      assert all[i] == h && all[|before|] == g && Apart(all[i], all[|before|]);
      assert all[i] in all && all[|before|] in all;
    }
  }

  lemma StuckOnlyByEmptyWrap(r: Ring, l: Layout, p: nat, cap: nat)
    requires Inv(r, l, cap)
    ensures Stuck(Allocate(r, p, cap).0) <==> Stuck(r) || WrapsEmpty(r, p, cap)
  {
    ChainBounds(l.first, r.head, if r.cut then r.cutPtr else r.tail);
  }

  lemma ReleaseStepKeeps(s: Sys, l: Layout, off: nat, cap: nat) returns (l': Layout)
    requires Good(s, l, cap) && off in s.out
    ensures Good(Step(s, Release(off), cap), l', cap)
    ensures off !in s.ring.freed  // the assertion against a double free
  {
    var g :| g in l.All() && g.off == off;
    var size := s.out[off];
    FreeKeeps(s.ring, l, cap, g, size);
    var r1 := s.ring.(freed := s.ring.freed[off := g.len]);
    ReclaimKeeps(r1, l, cap);
    l' := ReclaimLayout(r1, l, cap);
    var out := s.out - {off};
    RegionsAreSafe(s.ring, l, cap);
    assert OutMatches(r1, l, out);
    if !Stuck(r1) {
      var n := FreedPrefix(l.All(), r1.freed);
      ReclaimsLongestPrefix(r1, l, cap, n);
      ReclaimErasesPrefix(r1, l, cap, n);
      DropPrefixMatches(r1, l, cap, out, n, Reclaim(r1), l');
    }
  }

  lemma {:induction false} PrefixIsFreed(rs: seq<Region>, freed: map<nat, nat>)
    ensures forall g :: g in rs[..FreedPrefix(rs, freed)] ==> g.off in freed
    decreases |rs|
  {
    if rs != [] && rs[0].off in freed {
      PrefixIsFreed(rs[1..], freed);
      var n := FreedPrefix(rs[1..], freed);
      assert rs[..n + 1] == [rs[0]] + rs[1..][..n];
    }
  }

  lemma SidesAreDistinct(rs: seq<Region>, n: nat)
    requires PairwiseApart(rs) && n <= |rs| && forall k :: k in rs ==> 0 < k.len
    ensures forall g, h :: g in rs[..n] && h in rs[n..] ==> g.off != h.off
  {
    forall g, h | g in rs[..n] && h in rs[n..]
      ensures g.off != h.off
    {
      var i :| 0 <= i < n && rs[i] == g;
      var j :| 0 <= j < |rs[n..]| && rs[n..][j] == h;
      assert rs[n + j] == h && Apart(rs[i], rs[n + j]);
    }
  }

  lemma RestOfRegions(all: seq<Region>, n: nat, rest: seq<Region>)
    requires n <= |all| && rest == all[n..]
    requires forall g, h :: g in all[..n] && h in all[n..] ==> g.off != h.off
    ensures forall g :: g in rest ==> g in all && g.off !in Offsets(all[..n])
  {
    forall g | g in rest
      ensures g in all && g.off !in Offsets(all[..n])
    {
      var j :| 0 <= j < |rest| && rest[j] == g;
      assert all[n + j] == g;
    }
  }

  lemma DropPrefixMatches(r: Ring, l: Layout, cap: nat, out: map<nat, nat>, n: nat, r': Ring, l': Layout)
    requires Tiled(r, l, cap) && OutMatches(r, l, out) && n == FreedPrefix(l.All(), r.freed)
    requires l'.All() == l.All()[n..] && r'.freed == r.freed - Offsets(l.All()[..n])
    ensures OutMatches(r', l', out)
  {
    var all := l.All();
    PrefixIsFreed(all, r.freed);
    RegionsAreSafe(r, l, cap);
    SidesAreDistinct(all, n);
    assert all == all[..n] + all[n..];
    assert forall o :: o in Offsets(all[..n]) ==> o in r.freed && o !in out;
    RestOfRegions(all, n, l'.All());
    forall o | o in out
      ensures o in Offsets(l'.All())
    {
      var g :| g in all && g.off == o;
      assert g in all[n..];
    }
  }

  // Every run keeps the ring tiled, its regions disjoint and counted, and the
  // double-free assertion of the source true.
  lemma {:induction false} RunsAreGood(run: seq<Sys>, es: seq<Event>, cap: nat, k: nat) returns (l: Layout)
    requires IsRun(run, es, cap) && k <= |es|
    ensures Good(run[k], l, cap)
    decreases k
  {
    if k == 0 {
      l := Layout([], []);
    } else {
      var l0 := RunsAreGood(run, es, cap, k - 1);
      assert run[k] == Step(run[k - 1], es[k - 1], cap);
      match es[k - 1] {
        case Alloc(size) =>
          AllocStepKeeps(run[k - 1], l0, size, cap);
          l := AllocateLayout(run[k - 1].ring, l0, Rounded(size), cap);
        case Release(off) =>
          l := ReleaseStepKeeps(run[k - 1], l0, off, cap);
      }
    }
  }

  // The same of every run: a request is served exactly when there is room, at a place no
  // packet has, and otherwise changes nothing.
  lemma RequestsAreServed(run: seq<Sys>, es: seq<Event>, cap: nat, k: nat, size: nat, off: nat)
    requires IsRun(run, es, cap) && k < |es| && es[k] == Alloc(size)
    requires off == if run[k].ring.cut || Rounded(size) <= cap - run[k].ring.tail then run[k].ring.tail else 0
    ensures HasRoom(run[k].ring, Rounded(size), cap) ==>
      off !in run[k].out && run[k + 1].out == run[k].out[off := size]
    ensures HasRoom(run[k].ring, Rounded(size), cap) ==>
      run[k + 1].ring.inFlight == run[k].ring.inFlight + 1
    ensures !HasRoom(run[k].ring, Rounded(size), cap) ==> run[k + 1] == run[k]
  {
    var l := RunsAreGood(run, es, cap, k);
    var s, p := run[k], Rounded(size);
    assert run[k + 1] == Step(s, es[k], cap);
    RoundingCoversExactlySizable(size);
    AllocatesExactly(s.ring, l, p, cap);
    AllocateKeeps(s.ring, l, p, cap);
    if HasRoom(s.ring, p, cap) {
      NewRegionIsNew(Allocate(s.ring, p, cap).0, AllocateLayout(s.ring, l, p, cap), cap, l.All(), Region(off, p));
    }
  }

  lemma HeadIsAnOffset(r: Ring, l: Layout, cap: nat)
    requires Tiled(r, l, cap)
    ensures l.first != [] ==> r.head in Offsets(l.All())
  {
    if l.first != [] {
      assert l.first[0] in l.All();
    }
  }

  predicate Drained(r: Ring) { r.head == r.tail && r.inFlight == 0 }

  // Freeing everything, in any order, drains the ring exactly when no wrap was
  // ever taken from an empty ring.
  lemma DrainsUnlessEmptyWrap(run: seq<Sys>, es: seq<Event>, cap: nat)
    requires IsRun(run, es, cap) && run[|es|].out == map[]
    ensures Drained(run[|es|].ring) <==> !run[|es|].emptyWrap
  {
    var l := RunsAreGood(run, es, cap, |es|);
    var s := run[|es|];
    assert forall g :: g in l.All() ==> g.off in s.ring.freed;
    HeadIsAnOffset(s.ring, l, cap);
    if Stuck(s.ring) {
      ChainBounds(l.first, s.ring.head, s.ring.cutPtr);
    }
  }

  // Once stuck, nothing is ever reclaimed again: the head never moves, the
  // tail and the count only grow, and the tail is bounded by the head.
  lemma {:induction false} StuckForever(run: seq<Sys>, es: seq<Event>, cap: nat, i: nat, j: nat)
    requires IsRun(run, es, cap) && i <= j <= |es| && run[i].emptyWrap
    ensures run[j].emptyWrap && run[j].ring.cut
    ensures run[j].ring.head == run[i].ring.head && run[i].ring.tail <= run[j].ring.tail <= run[j].ring.head
    ensures run[i].ring.inFlight <= run[j].ring.inFlight
    decreases j
  {
    var l := RunsAreGood(run, es, cap, j);
    if i < j {
      StuckForever(run, es, cap, i, j - 1);
      var l0 := RunsAreGood(run, es, cap, j - 1);
      var s := run[j - 1];
      assert run[j] == Step(s, es[j - 1], cap);
      if es[j - 1].Release? {
        var off := es[j - 1].off;
        var g :| g in l0.All() && g.off == off;
        FreeKeeps(s.ring, l0, cap, g, s.out[off]);
        ReclaimKeeps(s.ring.(freed := s.ring.freed[off := g.len]), l0, cap);
      }
    }
  }

  // A drained ring takes a packet exactly when it fits on one side of the head;
  // that is every packet of at most half the buffer.
  lemma DrainedAccepts(r: Ring, p: nat, cap: nat)
    requires Drained(r) && r.tail <= cap
    ensures Allocate(r, p, cap).1.Some? <==> p <= cap - r.head || p <= r.head
    ensures 2 * p <= cap ==> Allocate(r, p, cap).1.Some?
  {}

  // The empty wrap does happen: a 256-byte buffer, one packet of 192 bytes and
  // then one of 128, each freed before the next step.
  lemma EmptyWrapHappens(run: seq<Sys>, es: seq<Event>)
    requires es == [Alloc(192), Release(0), Alloc(128), Release(0)]
    requires |run| == 5 && run[0] == INIT
    requires forall i :: 0 <= i < 4 && Enabled(run[i], es[i]) ==> run[i + 1] == Step(run[i], es[i], 256)
    ensures IsRun(run, es, 256) && run[4].out == map[] && run[4].ring.inFlight == 1
  {
    assert Enabled(run[0], es[0]);
    assert run[1] == Sys(Ring(0, 192, 0, false, 1, map[]), map[0 := 192], false);
    assert Enabled(run[1], es[1]);
    var r1 := Ring(0, 192, 0, false, 1, map[0 := 192]);
    assert map[0 := 192] - {0} == map[];
    assert ReclaimStep(r1) == Ring(192, 192, 0, false, 0, map[]);
    assert Reclaim(ReclaimStep(r1)) == ReclaimStep(r1);
    assert run[2] == Sys(Ring(192, 192, 0, false, 0, map[]), map[], false);
    assert Enabled(run[2], es[2]);
    assert run[3] == Sys(Ring(192, 128, 192, true, 1, map[]), map[0 := 128], true);
    assert Enabled(run[3], es[3]);
    assert run[4] == Sys(Ring(192, 128, 192, true, 1, map[0 := 128]), map[], true);
  }
}
