/** How the AXI master cuts the R beats of a read back into the read's bytes: each
    beat is credited with at most one bus width of what is left, from lane 0 on, and the
    beat that ends the last burst completes the read. */
module ReadAccounting {
  import opened AxiBurst
  import opened AxiWrite
  import opened AxiMemory
  import opened AxiMaster

  // A data beat the memory owes: its last flag, the address of its lane 0, and the
  // addresses [lo, hi) whose lanes it has to fill.
  datatype Due = Due(last: bool, line: nat, lo: nat, hi: nat)

  // The beats that answer one address beat (section A3.4.1 of ARM IHI 0022E: AxLEN + 1
  // beats, the last one flagged, each with the lanes from its address to the end of its
  // container).
  function BeatDue(ax: AxBeat, i: nat): Due {
    var addr := BeatAddr(ax, i);
    Due(i == ax.len, LineOf(addr), addr, AlignedAddress(addr, ax.size) + NumBytes(ax.size))
  }

  function BeatDues(ax: AxBeat): (ds: seq<Due>)
    ensures |ds| == ax.len + 1
    ensures forall i :: 0 <= i < |ds| ==> ds[i] == BeatDue(ax, i)
  {
    seq(ax.len + 1, i requires 0 <= i => BeatDue(ax, i))
  }

  function Dues(axs: seq<AxBeat>): seq<Due> {
    if axs == [] then [] else BeatDues(axs[0]) + Dues(axs[1..])
  }

  function Lasts(ds: seq<Due>): nat {
    if ds == [] then 0 else (if ds[0].last then 1 else 0) + Lasts(ds[1..])
  }

  // What the master makes of a due beat: the bytes it credits and whether they complete
  // the read.
  datatype Slot = Slot(dataLength: nat, isLast: bool, due: Due)

  // The beats still to come use up the read queue exactly.
  predicate Balanced(rq: seq<ReadEntry>, ds: seq<Due>)
    decreases |ds|
  {
    if ds == [] then rq == [] else rq != [] && Balanced(TakeEntry(rq, ds[0].last).0, ds[1..])
  }

  function FirstSlot(rq: seq<ReadEntry>, d: Due): Slot
    requires rq != []
  {
    var (_, dataSize, complete) := TakeEntry(rq, d.last);
    Slot(dataSize, complete, d)
  }

  function Decode(rq: seq<ReadEntry>, ds: seq<Due>): seq<Slot>
    requires Balanced(rq, ds)
    decreases |ds|
  {
    if ds == [] then [] else [FirstSlot(rq, ds[0])] + Decode(TakeEntry(rq, ds[0].last).0, ds[1..])
  }

  lemma TakeAppend(rq: seq<ReadEntry>, d: Due, e: ReadEntry)
    requires rq != []
    ensures TakeEntry(rq + [e], d.last).0 == TakeEntry(rq, d.last).0 + [e]
    ensures FirstSlot(rq + [e], d) == FirstSlot(rq, d)
  {
    assert (rq + [e])[1..] == rq[1..] + [e];
    assert (rq + [e])[0] == rq[0];
    var left := if d.last then Dec32(rq[0].nBursts) else rq[0].nBursts;
    UpdateFirst(rq, ReadEntry(rq[0].dataLeft - Min(BUS_BYTES, rq[0].dataLeft), left), e);
  }

  lemma UpdateFirst(rq: seq<ReadEntry>, e': ReadEntry, e: ReadEntry)
    requires rq != []
    ensures (rq + [e])[0 := e'] == rq[0 := e'] + [e]
  {}

  lemma DecodeCons(rq: seq<ReadEntry>, d: Due, ds: seq<Due>, rq': seq<ReadEntry>, s: Slot)
    requires rq != [] && TakeEntry(rq, d.last).0 == rq' && FirstSlot(rq, d) == s && Balanced(rq', ds)
    ensures Balanced(rq, [d] + ds) && Decode(rq, [d] + ds) == [s] + Decode(rq', ds)
  {
    assert ([d] + ds)[1..] == ds;
  }

  // Later reads do not disturb earlier ones.
  lemma {:induction false} DecodeAppend(rq: seq<ReadEntry>, ds: seq<Due>, e: ReadEntry, more: seq<Due>)
    requires Balanced(rq, ds) && Balanced([e], more)
    ensures Balanced(rq + [e], ds + more)
    ensures Decode(rq + [e], ds + more) == Decode(rq, ds) + Decode([e], more)
    decreases |ds|
  {
    if ds == [] {
      assert ds + more == more && rq + [e] == [e];
    } else {
      var rq', s := TakeEntry(rq, ds[0].last).0, FirstSlot(rq, ds[0]);
      DecodeAppend(rq', ds[1..], e, more);
      TakeAppend(rq, ds[0], e);
      DecodeCons(rq + [e], ds[0], ds[1..] + more, rq' + [e], s);
      assert ds + more == [ds[0]] + (ds[1..] + more);
    }
  }

  // ---------- One read ----------

  // The slot brings the next bytes of the read of n bytes at src, counted from the start
  // of src's bus line, and the memory fills all its lanes that belong to the read.
  predicate Placed(s: Slot, src: nat, n: nat, got: nat) {
    && s.dataLength <= BUS_BYTES && got + s.dataLength <= n
    && (s.dataLength > 0 ==>
      && s.due.line == LineOf(src) + got
      && (s.due.lo <= s.due.line || s.due.lo <= src)
      && (s.due.line + BUS_BYTES <= s.due.hi || src + n <= s.due.hi))
  }

  // The slots of one read of which `got` bytes have come: they bring the rest, and only
  // the last one completes it.
  predicate Delivers(ss: seq<Slot>, src: nat, n: nat, got: nat)
    decreases |ss|
  {
    && ss != [] && Placed(ss[0], src, n, got)
    && if ss[0].isLast then ss[1..] == [] && got + ss[0].dataLength == n
       else Delivers(ss[1..], src, n, got + ss[0].dataLength)
  }

  // Due beats on consecutive lines, each with all its lanes inside [src, end).
  predicate Lined(ds: seq<Due>, first: nat, src: nat, end: nat) {
    forall i :: 0 <= i < |ds| ==>
      && ds[i].line == first + BUS_BYTES * i
      && (ds[i].lo <= ds[i].line || ds[i].lo <= src)
      && (ds[i].line + BUS_BYTES <= ds[i].hi || end <= ds[i].hi)
  }

  lemma LinedRest(ds: seq<Due>, first: nat, src: nat, end: nat)
    requires ds != [] && Lined(ds, first, src, end)
    ensures Lined(ds[1..], first + BUS_BYTES, src, end)
  {
    forall i | 0 <= i < |ds[1..]|
      ensures ds[1..][i] == ds[i + 1] && ds[i + 1].line == first + BUS_BYTES + BUS_BYTES * i
    {}
  }

  lemma {:induction false} OneRead(left: nat, ds: seq<Due>, first: nat, src: nat, n: nat)
    requires ds != [] && ds[|ds| - 1].last && left <= BUS_BYTES * |ds| && left <= n
    requires Lined(ds, first, src, src + n) && (left > 0 ==> first == LineOf(src) + (n - left))
    ensures Balanced([ReadEntry(left, Lasts(ds))], ds)
    ensures Delivers(Decode([ReadEntry(left, Lasts(ds))], ds), src, n, n - left)
    decreases |ds|
  {
    var e, rest := ReadEntry(left, Lasts(ds)), ds[1..];
    var rq, s := TakeEntry([e], ds[0].last).0, FirstSlot([e], ds[0]);
    if rest == [] {
      assert ds == [ds[0]] && Lasts(rest) == 0;
      assert rq == [];
      assert Decode([e], ds) == [s];
    } else {
      LastsPositive(rest);
      LinedRest(ds, first, src, src + n);
      OneRead(left - s.dataLength, rest, first + BUS_BYTES, src, n);
      assert rq == [ReadEntry(left - s.dataLength, Lasts(rest))];
      assert Decode([e], ds) == [s] + Decode(rq, rest);
      assert ([s] + Decode(rq, rest))[1..] == Decode(rq, rest);
    }
  }

  lemma {:induction false} LastsPositive(ds: seq<Due>)
    requires ds != [] && ds[|ds| - 1].last
    ensures Lasts(ds) > 0
  {
    if |ds| > 1 {
      LastsPositive(ds[1..]);
    }
  }

  lemma {:induction false} LastsConcat(a: seq<Due>, b: seq<Due>)
    ensures Lasts(a + b) == Lasts(a) + Lasts(b)
    decreases |a|
  {
    if a == [] {
      assert a + b == b;
    } else {
      LastsConcat(a[1..], b);
      assert (a + b)[1..] == a[1..] + b;
    }
  }

  lemma {:induction false} OneLast(ds: seq<Due>)
    requires ds != [] && forall i :: 0 <= i < |ds| ==> (ds[i].last <==> i == |ds| - 1)
    ensures Lasts(ds) == 1
    decreases |ds|
  {
    if |ds| > 1 {
      OneLast(ds[1..]);
    }
  }

  // The beats due for a read: one last flag a burst, one beat a data beat, the final one
  // flagged.
  lemma {:induction false} DuesOfBursts(bs: seq<Burst>)
    ensures Lasts(Dues(AxBeats(bs))) == |bs|
    ensures |Dues(AxBeats(bs))| == TotalBeats(bs)
    ensures bs != [] ==> Dues(AxBeats(bs)) != [] && Dues(AxBeats(bs))[|Dues(AxBeats(bs))| - 1].last
    decreases |bs|
  {
    if bs != [] {
      var ax := bs[0].ax;
      assert AxBeats(bs) == [ax] + AxBeats(bs[1..]);
      assert AxBeats(bs)[1..] == AxBeats(bs[1..]);
      DuesOfBursts(bs[1..]);
      OneLast(BeatDues(ax));
      LastsConcat(BeatDues(ax), Dues(AxBeats(bs[1..])));
      if bs[1..] == [] {
        assert Dues(AxBeats(bs)) == BeatDues(ax);
      }
    }
  }

  // One burst: beat i is on its i-th line and has all the lanes of the burst there.
  lemma BurstIsLined(b: Burst, end: nat)
    requires Legal(b) && End(b) <= end
    requires End(b) == end || End(b) % BUS_BYTES == 0
    ensures Lined(BeatDues(b.ax), LineOf(b.ax.addr), b.ax.addr, end)
  {
    forall i | 0 <= i <= b.ax.len
      ensures BeatDue(b.ax, i).line == LineOf(b.ax.addr) + BUS_BYTES * i
      ensures BeatDue(b.ax, i).lo <= BeatDue(b.ax, i).line || BeatDue(b.ax, i).lo <= b.ax.addr
      ensures BeatDue(b.ax, i).line + BUS_BYTES <= BeatDue(b.ax, i).hi || end <= BeatDue(b.ax, i).hi
    {
      BeatBaseIsStandard(b, i);
      if b.ax.len > 0 {
        FullBeat(b.ax, i);
      } else {
        assert BeatAddr(b.ax, i) == b.ax.addr && End(b) <= BeatDue(b.ax, i).hi;
        OneLineEnd(b.ax.addr, b.nBytes);
      }
    }
  }

  // A beat of full bus width ends at the end of its line, and all but the first start there.
  lemma FullBeat(ax: AxBeat, i: nat)
    requires ax.size == LOG_BUS_BYTES
    ensures BeatDue(ax, i).hi == BeatDue(ax, i).line + BUS_BYTES
    ensures i > 0 ==> BeatDue(ax, i).lo == BeatDue(ax, i).line
  {
    if i > 0 {
      var line := ax.addr / BUS_BYTES;
      assert BeatAddr(ax, i) == BUS_BYTES * (line + i);
    }
  }

  lemma OneLineEnd(addr: nat, n: nat)
    requires 0 < n && Lines(addr, n) == 1
    ensures addr + n <= LineOf(addr) + BUS_BYTES
    ensures (addr + n) % BUS_BYTES == 0 ==> addr + n == LineOf(addr) + BUS_BYTES
  {}

  // Beats lined up from a later, aligned start go on where the first ones ended.
  lemma LinedConcat(a: seq<Due>, b: seq<Due>, first: nat, src: nat, next: nat, end: nat)
    requires Lined(a, first, src, end) && Lined(b, next, next, end) && next == first + BUS_BYTES * |a|
    ensures Lined(a + b, first, src, end)
  {
    forall i | 0 <= i < |a + b|
      ensures var d := (a + b)[i];
        && d.line == first + BUS_BYTES * i && (d.lo <= d.line || d.lo <= src)
        && (d.line + BUS_BYTES <= d.hi || end <= d.hi)
    {
      if i >= |a| {
        assert (a + b)[i] == b[i - |a|];
        assert b[i - |a|].line == next + BUS_BYTES * (i - |a|);
      }
    }
  }

  // A cut at a page end is at a line end, as many lines on as the first part touches.
  lemma CutIsLineEnd(addr: nat, k: nat)
    requires 0 < k && (addr + k) % PAGE_BYTES == 0
    ensures (addr + k) % BUS_BYTES == 0 && LineOf(addr + k) == addr + k
    ensures addr + k == LineOf(addr) + BUS_BYTES * Lines(addr, k)
  {
    PageEndIsLineEnd(addr + k);
    LinesAway(addr, k, LineOf(addr + k - 1));
    PageIsAligned(addr + k);
  }

  lemma PageIsAligned(p: nat)
    requires p % PAGE_BYTES == 0
    ensures p % BUS_BYTES == 0 && LineOf(p) == p
  {
    assert p == 64 * (64 * (p / PAGE_BYTES));
  }

  lemma LinesAway(addr: nat, k: nat, last: nat)
    requires 0 < k && last == LineOf(addr + k - 1)
    ensures LineOf(addr) + BUS_BYTES * Lines(addr, k) == last + BUS_BYTES
  {}

  lemma DuesPeel(addr: nat, n: nat, k: nat, next: nat, left: nat)
    requires 0 < n && k == FirstCut(addr, n) && next == addr + k && left == n - k
    ensures Dues(AxBeats(Bursts(addr, n))) == BeatDues(PageBurst(addr, k).ax) + Dues(AxBeats(Bursts(next, left)))
  {
    var b, rest := PageBurst(addr, k), Bursts(next, left);
    assert AxBeats(Bursts(addr, n)) == [b.ax] + AxBeats(rest);
    assert AxBeats(Bursts(addr, n))[1..] == AxBeats(rest);
  }

  lemma {:induction false} TransferIsLined(addr: nat, n: nat)
    ensures Lined(Dues(AxBeats(Bursts(addr, n))), LineOf(addr), addr, addr + n)
    decreases n
  {
    if n > 0 {
      var k := FirstCut(addr, n);
      var next, left, b := addr + k, n - k, PageBurst(addr, k);
      PageBurstIsLegal(addr, k);
      DuesPeel(addr, n, k, next, left);
      TransferIsLined(next, left);
      if left > 0 {
        CutIsLineEnd(addr, k);
        BurstIsLined(b, addr + n);
        LinedConcat(BeatDues(b.ax), Dues(AxBeats(Bursts(next, left))), LineOf(addr), addr, next, addr + n);
      } else {
        BurstIsLined(b, addr + n);
        assert Dues(AxBeats(Bursts(next, left))) == [];
      }
    }
  }

  // Main result: for any address and length, the beats that answer a read complete it
  // exactly, its byte counts summing to the length at the beat flagged complete; and beat
  // by beat they bring the bytes of consecutive bus lines.
  lemma ReadDelivers(addr: nat, n: nat)
    requires n > 0
    ensures Balanced([ReadEntry(n, Pages(addr, n))], Dues(AxBeats(Bursts(addr, n))))
    ensures Delivers(Decode([ReadEntry(n, Pages(addr, n))], Dues(AxBeats(Bursts(addr, n)))), addr, n, 0)
  {
    var bs := Bursts(addr, n);
    DuesOfBursts(bs);
    BurstsCountPages(addr, n);
    BeatsCountLines(addr, n);
    BurstsCarryAll(addr, n);
    TransferIsLined(addr, n);
    assert n <= BUS_BYTES * Lines(addr, n);
    OneRead(n, Dues(AxBeats(bs)), LineOf(addr), addr, n);
  }

  lemma {:induction false} DuesConcat(a: seq<AxBeat>, b: seq<AxBeat>)
    ensures Dues(a + b) == Dues(a) + Dues(b)
    decreases |a|
  {
    if a == [] {
      assert a + b == b;
    } else {
      DuesConcat(a[1..], b);
      assert (a + b)[1..] == a[1..] + b;
    }
  }
}
