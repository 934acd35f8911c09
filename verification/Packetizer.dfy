/** The packetizer of the NIC outbound engine (hw/verilator_model/src/NICOutbound.hpp):
    commands wait in a queue; each turn takes one packet off the first of them and
    sends the rest of that command to the back. */
module Packetizer {
  import opened AxiWrite

  const RDMA_HEADER_LENGTH := 32
  const NUM_PARALLEL_CMD := 16
  const TWO32: int := 0x1_0000_0000

  // `number` is the position at which the command was accepted; it is used in
  // statements only.
  datatype Cmd = Cmd(src: nat, length: nat, fid: nat, id: nat, number: nat)

  // `data`: the payload bytes received so far; their number is current_offset
  datatype Packet = Packet(
    src: nat, data: seq<Byte>, length: nat, payload: nat, id: nat, isLast: bool, number: nat)

  // Room for payload besides the RDMA header.
  predicate Configured(max: nat) { RDMA_HEADER_LENGTH < max < TWO32 }

  // What the engine asserts of a command when it arrives, and that it has bytes to send.
  predicate Acceptable(c: Cmd, max: nat) { 0 < c.length < TWO32 && (c.fid > 0 || c.length <= max) }

  function Header(c: Cmd): nat { if c.fid > 0 then RDMA_HEADER_LENGTH else 0 }

  function Payload(c: Cmd, max: nat): (n: nat)
    requires Configured(max)
    ensures var room := if c.fid > 0 then max - RDMA_HEADER_LENGTH else max;
      n <= c.length && n <= room && (n == c.length || n == room)
    ensures c.length > 0 ==> n > 0
  {
    if max - Header(c) < c.length then max - Header(c) else c.length
  }

  function Head(c: Cmd, max: nat): Packet
    requires Configured(max)
  {
    var n := Payload(c, max);
    Packet(c.src, [], Header(c) + n, n, c.id, c.length - n == 0, c.number)
  }

  function Tail(c: Cmd, max: nat): Cmd
    requires Configured(max)
  {
    c.(src := c.src + Payload(c, max), length := c.length - Payload(c, max))
  }

  // A packet of an RDMA command has the header besides its payload, one of a single-packet
  // command has not; all but the last packet of a command are as long as packets may be.
  predicate Framed(p: Packet, fid: nat, max: nat) {
    && p.length == p.payload + (if fid > 0 then RDMA_HEADER_LENGTH else 0)
    && (!p.isLast ==> p.length == max)
  }

  // One turn on a queue that is not empty.
  function Turn(commands: seq<Cmd>, max: nat): seq<Cmd>
    requires Configured(max) && commands != []
  {
    var rest := Tail(commands[0], max);
    if rest.length > 0 then commands[1..] + [rest] else commands[1..]
  }

  class Packets {
    const maxPacketLen: nat
    var commands: seq<Cmd>

    constructor (max: nat)
      ensures commands == [] && maxPacketLen == max
    {
      maxPacketLen, commands := max, [];
    }

    method HasFreeCmdSlot() returns (free: bool)
      ensures free == (|commands| < NUM_PARALLEL_CMD)
    {
      free := |commands| < NUM_PARALLEL_CMD;
    }

    method NewCmd(cmd: Cmd)
      requires |commands| < NUM_PARALLEL_CMD  // the assertion of the source
      modifies this`commands
      ensures commands == old(commands) + [cmd]
    {
      commands := commands + [cmd];
    }

    // The preconditions on the queue are the two assertions of the source.
    method GetNextPacket() returns (pkt: Packet)
      requires Configured(maxPacketLen) && commands != []
      requires commands[0].fid == 0 ==> commands[0].length <= maxPacketLen
      modifies this`commands
      ensures pkt == Head(old(commands)[0], maxPacketLen)
      ensures Framed(pkt, old(commands)[0].fid, maxPacketLen) && pkt.payload <= old(commands)[0].length
      ensures pkt.isLast <==> pkt.payload == old(commands)[0].length
      ensures commands == Turn(old(commands), maxPacketLen)
    {
      var cmd := commands[0];
      commands := commands[1..];
      var headerLength := 0;
      if cmd.fid > 0 {
        headerLength := RDMA_HEADER_LENGTH;
      }
      var room := maxPacketLen - headerLength;
      var payloadLen := if room < cmd.length then room else cmd.length;
      pkt := Packet(
        cmd.src, [], headerLength + payloadLen, payloadLen, cmd.id, cmd.length - payloadLen == 0, cmd.number);
      cmd := cmd.(length := cmd.length - payloadLen, src := cmd.src + payloadLen);
      if cmd.length > 0 {
        commands := commands + [cmd];
      }
    }
  }

  // ---------- What a command is cut into ----------

  function Split(c: Cmd, max: nat): seq<Packet>
    requires Configured(max)
    decreases c.length
  {
    if c.length == 0 then [] else [Head(c, max)] + Split(Tail(c, max), max)
  }

  function TotalPayload(ps: seq<Packet>): nat {
    if ps == [] then 0 else ps[0].payload + TotalPayload(ps[1..])
  }

  // The packets carry the n bytes from src on, one after the other, all of them and no
  // more; none is empty or too long; the last one, and no other, is marked.
  predicate Carries(ps: seq<Packet>, src: nat, n: nat, max: nat) {
    && TotalPayload(ps) == n
    && (forall i :: 0 <= i < |ps| ==> 0 < ps[i].payload <= ps[i].length <= max)
    && (forall i :: 0 <= i < |ps| ==> (ps[i].isLast <==> i == |ps| - 1))
    && (|ps| > 0 ==> ps[0].src == src && ps[|ps| - 1].src + ps[|ps| - 1].payload == src + n)
    && (forall i :: 0 <= i < |ps| - 1 ==> ps[i].src + ps[i].payload == ps[i + 1].src)
  }

  lemma CarriesCons(h: Packet, rest: seq<Packet>, ps: seq<Packet>, src: nat, n: nat, src': nat, n': nat, max: nat)
    requires h.src == src && 0 < h.payload <= n && h.payload <= h.length <= max
    requires h.isLast <==> h.payload == n
    requires rest == [] <==> h.payload == n
    requires src' == src + h.payload && n' == n - h.payload && Carries(rest, src', n', max)
    requires ps == [h] + rest
    ensures Carries(ps, src, n, max)
  {
    assert ps[1..] == rest;
    assert forall i :: 0 <= i < |rest| ==> ps[i + 1] == rest[i];
    forall i | 0 <= i < |ps| - 1
      ensures ps[i].src + ps[i].payload == ps[i + 1].src
    {
      if i > 0 {
        assert ps[i] == rest[i - 1] && ps[i + 1] == rest[i - 1 + 1];
      }
    }
  }

  // Main result: every command is cut into packets that carry it exactly.
  lemma {:induction false} SplitCarries(c: Cmd, max: nat)
    requires Configured(max)
    ensures Carries(Split(c, max), c.src, c.length, max)
    ensures forall p :: p in Split(c, max) ==> p.id == c.id && p.number == c.number && p.data == []
    decreases c.length
  {
    if c.length > 0 {
      var t := Tail(c, max);
      var rest := Split(t, max);
      SplitCarries(t, max);
      CarriesCons(Head(c, max), rest, Split(c, max), c.src, c.length, t.src, t.length, max);
    }
  }

  // Main result: an RDMA command is cut into packets with a header each, full but for the
  // last; a single-packet command makes exactly one packet, its bytes and nothing else.
  lemma {:induction false} SplitIsFramed(c: Cmd, max: nat)
    requires Configured(max)
    ensures forall p :: p in Split(c, max) ==> Framed(p, c.fid, max)
    ensures Acceptable(c, max) && c.fid == 0 ==> |Split(c, max)| == 1 && Split(c, max)[0].length == c.length
    decreases c.length
  {
    if c.length > 0 {
      SplitIsFramed(Tail(c, max), max);
    }
  }

  // As few packets as the room allows.
  lemma {:induction false} SplitCount(c: Cmd, max: nat)
    requires Configured(max)
    ensures var room := if c.fid > 0 then max - RDMA_HEADER_LENGTH else max;
      c.length <= |Split(c, max)| * room && (c.length > 0 ==> (|Split(c, max)| - 1) * room < c.length)
    decreases c.length
  {
    if c.length > 0 {
      SplitCount(Tail(c, max), max);
      var room, k := max - Header(c), |Split(Tail(c, max), max)|;
      assert (k + 1) * room == k * room + room;
      assert k > 0 ==> (k - 1) * room == k * room - room;
    }
  }
}
