/** The AXI master of the NIC engines (hw/verilator_model/src/AXIMaster.hpp):
    `write` and `read` turn a transfer into queued beats, and the B and R sides
    account for its completion. */
module AxiMaster {
  import opened AxiBurst
  import opened AxiWrite

  // axi_r_queue_entry, a beat on the read data channel, and axi_r_buffered, whose
  // data_length is the length of its data
  datatype ReadEntry = ReadEntry(dataLeft: nat, nBursts: nat)
  datatype RBeat = RBeat(data: LaneData, last: bool)
  datatype RBuffered = RBuffered(data: seq<Byte>, isLast: bool)

  // `n--` on a uint32_t
  function Dec32(n: nat): nat { if n == 0 then 0xffff_ffff else n - 1 }

  // One accepted B response: the new write queue, and whether it completes a write.
  function TakeB(writeQueue: seq<nat>): (seq<nat>, bool)
    requires writeQueue != []
  {
    var left := Dec32(writeQueue[0]);
    if left == 0 then (writeQueue[1..], true) else (writeQueue[0 := left], false)
  }

  // One accepted R beat: the new read queue, the bytes credited to the oldest read, and
  // whether they complete it.
  function TakeEntry(readQueue: seq<ReadEntry>, last: bool): (seq<ReadEntry>, nat, bool)
    requires readQueue != []
  {
    var entry := readQueue[0];
    var dataSize := Min(BUS_BYTES, entry.dataLeft);
    var left := if last then Dec32(entry.nBursts) else entry.nBursts;
    if left == 0 then (readQueue[1..], dataSize, true)
    else (readQueue[0 := ReadEntry(entry.dataLeft - dataSize, left)], dataSize, false)
  }

  // ... and the buffered beat: that many bytes, from lane 0 on.
  function TakeR(readQueue: seq<ReadEntry>, beat: RBeat): (seq<ReadEntry>, RBuffered)
    requires readQueue != []
  {
    var (queue, dataSize, complete) := TakeEntry(readQueue, beat.last);
    (queue, RBuffered(beat.data[..dataSize], complete))
  }

  class Master {
    var awPending: seq<AxBeat>
    var wPending: seq<WBeat>
    var arPending: seq<AxBeat>
    var writeQueue: seq<nat>      // bursts still unacknowledged, per write
    var readQueue: seq<ReadEntry>
    var bQueue: seq<bool>
    var rQueue: seq<RBuffered>
    var bBufferSize: nat          // 0: unlimited, as the NIC engines leave it
    var rBufferSize: nat
    var bReady: bool              // ready outputs: set with a beat taken, never cleared
    var rReady: bool

    constructor ()
      ensures awPending == [] && wPending == [] && arPending == []
      ensures writeQueue == [] && readQueue == [] && bQueue == [] && rQueue == []
      ensures bBufferSize == 0 && rBufferSize == 0 && !bReady && !rReady
    {
      awPending, wPending, arPending := [], [], [];
      writeQueue, readQueue, bQueue, rQueue := [], [], [], [];
      bBufferSize, rBufferSize := 0, 0;
      bReady, rReady := false, false;
    }

    // Queue the address and data beats of a write.
    method Write(addr: nat, data: seq<Byte>, nBytes: nat, offset: nat)
      requires offset + nBytes <= |data|
      modifies this`awPending, this`wPending, this`writeQueue
      ensures TotalBytes(Bursts(addr, nBytes)) == nBytes
      ensures awPending == old(awPending) + AxBeats(Bursts(addr, nBytes))
      ensures wPending == old(wPending) + WriteBeats(Bursts(addr, nBytes), data[offset..offset + nBytes])
      ensures writeQueue == old(writeQueue) + [Pages(addr, nBytes)]
    {
      BurstsCarryAll(addr, nBytes);
      BurstsAreLegal(addr, nBytes);
      BurstsCountPages(addr, nBytes);
      var awBeats := CreateAxBeats(addr, nBytes, []);
      assert awBeats == Bursts(addr, nBytes);
      writeQueue := writeQueue + [|awBeats|];
      SendBursts(awBeats, data, nBytes, offset);
    }

    // The loop of `write` over the bursts.  The last assertion of the body is
    // the one in the source.
    method SendBursts(bursts: seq<Burst>, data: seq<Byte>, nBytes: nat, offset: nat)
      requires offset + nBytes <= |data| && TotalBytes(bursts) == nBytes
      requires forall b :: b in bursts ==> Legal(b)
      modifies this`awPending, this`wPending
      ensures awPending == old(awPending) + AxBeats(bursts)
      ensures wPending == old(wPending) + WriteBeats(bursts, data[offset..offset + nBytes])
    {
      var awBeats, bytesWritten: nat := bursts, 0;
      ghost var rest := data[offset..offset + nBytes];
      ghost var allW := wPending + WriteBeats(bursts, rest);
      ghost var allAw := awPending + AxBeats(bursts);
      while awBeats != []
        invariant forall b :: b in awBeats ==> Legal(b)
        invariant bytesWritten + TotalBytes(awBeats) == nBytes
        invariant rest == data[offset + bytesWritten..offset + nBytes]
        invariant awPending + AxBeats(awBeats) == allAw
        invariant wPending + WriteBeats(awBeats, rest) == allW
      {
        var written := SendBurst(awBeats, data, offset + bytesWritten, rest);
        SplitRest(data, offset + bytesWritten, offset + nBytes, written);
        awBeats := awBeats[1..];
        bytesWritten := bytesWritten + written;
        rest := rest[written..];
      }
      assert wPending + [] == wPending && awPending + [] == awPending;
      assert bytesWritten == nBytes;
    }

    // One turn of that loop, on the first of the bursts left; `rest` is the data
    // of all of them.
    method SendBurst(awBeats: seq<Burst>, data: seq<Byte>, from: nat, ghost rest: seq<Byte>) returns (written: nat)
      requires awBeats != [] && Legal(awBeats[0]) && TotalBytes(awBeats) == |rest|
      requires from + |rest| <= |data| && rest == data[from..from + |rest|]
      modifies this`awPending, this`wPending
      ensures written == awBeats[0].nBytes
      ensures awPending + AxBeats(awBeats[1..]) == old(awPending) + AxBeats(awBeats)
      ensures wPending + WriteBeats(awBeats[1..], rest[written..]) == old(wPending) + WriteBeats(awBeats, rest)
    {
      var bs := awBeats[0];
      ghost var aw, w, chunk := awPending, wPending, rest[..bs.nBytes];
      awPending := awPending + [bs.ax];
      written := SendBeats(bs, data, from);
      assert chunk == data[from..from + bs.nBytes] by {
        SplitRest(data, from, from + |rest|, bs.nBytes);
      }
      assert wPending == w + BurstBeats(bs, chunk);
      PushBurst(awBeats, rest, aw, w);
    }

    // The data beats of one burst: AXIMaster.hpp lines 251-278.
    method SendBeats(bs: Burst, data: seq<Byte>, from: nat) returns (burstBytesWritten: nat)
      requires Legal(bs) && from + bs.nBytes <= |data|
      modifies this`wPending
      ensures burstBytesWritten == bs.nBytes
      ensures wPending == old(wPending) + BurstBeats(bs, data[from..from + bs.nBytes])
    {
      var chunk := data[from..from + bs.nBytes];
      burstBytesWritten := 0;
      for i := 0 to bs.ax.len + 1
        invariant burstBytesWritten == BytesBefore(bs, i)
        invariant wPending == old(wPending) + BurstBeats(bs, chunk)[..i]
      {
        var beat, beatSize := FillBeat(bs, chunk, i, burstBytesWritten);
        assert BurstBeats(bs, chunk)[..i + 1] == BurstBeats(bs, chunk)[..i] + [beat];
        wPending := wPending + [beat];
        burstBytesWritten := burstBytesWritten + beatSize;
      }
      AllBytesSent(bs);
      assert BurstBeats(bs, chunk)[..bs.ax.len + 1] == BurstBeats(bs, chunk);
    }

    method Read(addr: nat, nBytes: nat)
      modifies this`arPending, this`readQueue
      ensures readQueue == old(readQueue) + [ReadEntry(nBytes, Pages(addr, nBytes))]
      ensures arPending == old(arPending) + AxBeats(Bursts(addr, nBytes))
    {
      BurstsCountPages(addr, nBytes);
      var arBeats := CreateAxBeats(addr, nBytes, []);
      ghost var bursts := arBeats;
      assert bursts == Bursts(addr, nBytes);
      readQueue := readQueue + [ReadEntry(nBytes, |arBeats|)];
      while arBeats != []
        invariant readQueue == old(readQueue) + [ReadEntry(nBytes, |bursts|)]
        invariant arPending + AxBeats(arBeats) == old(arPending) + AxBeats(bursts)
      {
        ghost var before := arPending;
        assert AxBeats(arBeats) == [arBeats[0].ax] + AxBeats(arBeats[1..]);
        arPending := arPending + [arBeats[0].ax];
        assert arPending + AxBeats(arBeats[1..]) == before + AxBeats(arBeats);
        arBeats := arBeats[1..];
      }
      assert arPending + [] == arPending;
    }

    // A B response is taken when valid and there is room; the precondition is
    // the assertion of the source.  The ready output stays up, so with a bounded buffer
    // the slave can see valid and ready meet without the response being taken.
    method BPosedge(bValid: bool) returns (accepted: bool)
      requires bValid ==> writeQueue != []
      modifies this`writeQueue, this`bQueue, this`bReady
      ensures bReady == (old(bReady) || accepted)
      ensures accepted == (bValid && (bBufferSize == 0 || |old(bQueue)| < bBufferSize))
      ensures accepted ==>
        writeQueue == TakeB(old(writeQueue)).0 && bQueue == old(bQueue) + [TakeB(old(writeQueue)).1]
      ensures !accepted ==> writeQueue == old(writeQueue) && bQueue == old(bQueue)
    {
      accepted := bValid && (bBufferSize == 0 || |bQueue| < bBufferSize);
      if accepted {
        bReady := true;
        writeQueue := writeQueue[0 := Dec32(writeQueue[0])];
        var isComplete := writeQueue[0] == 0;
        if isComplete {
          writeQueue := writeQueue[1..];
        }
        bQueue := bQueue + [isComplete];
      }
    }

    method ConsumeB() returns (complete: bool)
      requires bQueue != []
      modifies this`bQueue
      ensures complete == old(bQueue)[0] && bQueue == old(bQueue)[1..]
    {
      complete := bQueue[0];
      bQueue := bQueue[1..];
    }

    method RPosedge(rValid: bool, beat: RBeat) returns (accepted: bool)
      requires rValid ==> readQueue != []
      modifies this`readQueue, this`rQueue, this`rReady
      ensures rReady == (old(rReady) || accepted)
      ensures accepted == (rValid && (rBufferSize == 0 || |old(rQueue)| < rBufferSize))
      ensures accepted ==>
        readQueue == TakeR(old(readQueue), beat).0 && rQueue == old(rQueue) + [TakeR(old(readQueue), beat).1]
      ensures !accepted ==> readQueue == old(readQueue) && rQueue == old(rQueue)
    {
      accepted := rValid && (rBufferSize == 0 || |rQueue| < rBufferSize);
      if accepted {
        var entry := readQueue[0];
        var dataSize := Min(BUS_BYTES, entry.dataLeft);
        rReady := true;
        if beat.last {
          entry := entry.(nBursts := Dec32(entry.nBursts));
        }
        entry := entry.(dataLeft := entry.dataLeft - dataSize);
        var isComplete := entry.nBursts == 0;
        if isComplete {
          readQueue := readQueue[1..];
        } else {
          readQueue := readQueue[0 := entry];
        }
        rQueue := rQueue + [RBuffered(beat.data[..dataSize], isComplete)];
      }
    }

    // consume_r_beat with room for `room` bytes
    method ConsumeR(room: nat) returns (data: seq<Byte>, complete: bool)
      requires rQueue != []
      modifies this`rQueue
      ensures data == old(rQueue)[0].data[..Min(room, |old(rQueue)[0].data|)]
      ensures complete == old(rQueue)[0].isLast && rQueue == old(rQueue)[1..]
    {
      var dataLength := Min(room, |rQueue[0].data|);
      data := rQueue[0].data[..dataLength];
      complete := rQueue[0].isLast;
      rQueue := rQueue[1..];
    }
  }

  // Sending the first burst leaves the rest of the write to be sent.
  lemma PushBurst(bs: seq<Burst>, data: seq<Byte>, aw: seq<AxBeat>, w: seq<WBeat>)
    requires bs != [] && TotalBytes(bs) == |data|
    ensures aw + AxBeats(bs) == (aw + [bs[0].ax]) + AxBeats(bs[1..])
    ensures w + WriteBeats(bs, data)
         == (w + BurstBeats(bs[0], data[..bs[0].nBytes])) + WriteBeats(bs[1..], data[bs[0].nBytes..])
  {
    assert AxBeats(bs) == [bs[0].ax] + AxBeats(bs[1..]);
    Reassociate(aw, [bs[0].ax], AxBeats(bs[1..]));
    Reassociate(w, BurstBeats(bs[0], data[..bs[0].nBytes]), WriteBeats(bs[1..], data[bs[0].nBytes..]));
  }

  lemma SplitRest(data: seq<Byte>, from: nat, to: nat, k: nat)
    requires from + k <= to <= |data|
    ensures data[from..to][..k] == data[from..from + k]
    ensures data[from..to][k..] == data[from + k..to]
  {}

  lemma Reassociate<T>(a: seq<T>, b: seq<T>, c: seq<T>)
    ensures (a + b) + c == a + (b + c)
  {}
}
