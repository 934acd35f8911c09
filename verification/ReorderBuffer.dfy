/** The out-of-order reassembly handlers (examples/ooorb/handlers/ooorb_handlers.c):
    ranges of a byte stream arrive in any order and are delivered in order. */
module ReorderBuffer {
  import opened RangeList
  import NodePool
  import LazyList

  const NUM_SEGMENTS: nat := 128

  // Delivered ranges follow one another from byte `from` to byte `to`.
  predicate Consecutive(rs: seq<Range>, from: int, to: int) {
    if rs == [] then from == to
    else rs[0].left == from && rs[0].left <= rs[0].right && Consecutive(rs[1..], rs[0].right + 1, to)
  }

  lemma {:induction false} ConsecutiveAppend(rs: seq<Range>, from: int, r: Range)
    requires Consecutive(rs, from, r.left) && r.left <= r.right
    ensures Consecutive(rs + [r], from, r.right + 1)
    decreases |rs|
  {
    if rs == [] {
      assert (rs + [r])[1..] == [];
    } else {
      assert (rs + [r])[1..] == rs[1..] + [r];
      ConsecutiveAppend(rs[1..], rs[0].right + 1, r);
    }
  }

  // The bytes of consecutive ranges are one interval.
  lemma {:induction false} ConsecutiveBytes(rs: seq<Range>, from: int, to: int)
    requires Consecutive(rs, from, to)
    ensures from <= to && forall x :: x in Bytes(rs) <==> from <= x < to
    decreases |rs|
  {
    if rs != [] {
      ConsecutiveBytes(rs[1..], rs[0].right + 1, to);
    }
  }

  // When the front does not start at the expected byte, that byte is missing.
  lemma NextMissing(c: seq<Range>, next: int)
    requires Canonical(c) && forall x :: x in Bytes(c) ==> next <= x
    ensures next in Bytes(c) <==> c != [] && c[0].left == next
  {
    if c != [] {
      FirstRange(c);
    }
  }

  // Every accepted byte is delivered or buffered, and never both.
  ghost predicate Consistent(buffered: seq<Range>, next: int, accepted: set<int>, delivered: seq<Range>) {
    && Canonical(buffered)
    && 0 <= next && Consecutive(delivered, 0, next)
    && (forall x :: x in Bytes(buffered) ==> next <= x)
    && (forall x :: x in accepted <==> x in Bytes(buffered) || 0 <= x < next)
  }

  lemma PopConsistent(c: seq<Range>, rest: seq<Range>, range: Range, next: int, accepted: set<int>,
                      delivered: seq<Range>)
    requires Consistent(c, next, accepted, delivered) && c == [range] + rest && range.left == next
    ensures Consistent(rest, range.right + 1, accepted, delivered + [range])
    ensures range.right + 1 !in accepted
  {
    FirstRange(c);
    assert c[1..] == rest && c[0] == range;
    ConsecutiveAppend(delivered, 0, range);
  }

  class Handler {
    const list: LazyList.List
    var nextExpectedByte: int
    ghost var accepted: set<int>      // bytes of every range taken by the list
    ghost var delivered: seq<Range>   // ranges popped, in order

    ghost predicate Valid()
      reads this, list, list.nodes, list.marks
    {
      && list.Valid()
      && nextExpectedByte <= NodePool.INT32_MAX
      && Consistent(list.Contents(), nextExpectedByte, accepted, delivered)
    }

    // ooorb_hh
    constructor ()
      ensures Valid() && fresh(list) && fresh(list.nodes) && fresh(list.marks)
      ensures nextExpectedByte == 0 && accepted == {} && delivered == []
    {
      list := new LazyList.List(NUM_SEGMENTS);
      nextExpectedByte := 0;
      accepted, delivered := {}, [];
    }

    // ooorb_ph.  The ranges of a stream start at byte 0 and never overlap.
    method Packet(op: nat, range: Range)
      requires Valid()
      requires op == 0 ==> NodePool.Insertable(range) && 0 <= range.left && accepted !! Span(range)
      modifies this, list, list.nodes, list.marks
      ensures Valid()
      ensures op == 0 ==> delivered == old(delivered) && nextExpectedByte == old(nextExpectedByte)
      ensures op == 0 ==>
        accepted == old(accepted) + if old(list.NeedsNode(range) && list.free == []) then {} else Span(range)
      ensures op != 0 ==> accepted == old(accepted)
      ensures op == 1 ==> nextExpectedByte !in accepted
      ensures op == 1 ==> old(delivered) <= delivered && |delivered| <= |old(delivered)| + 1
      ensures op > 1 ==> delivered == old(delivered) && nextExpectedByte == old(nextExpectedByte)
    {
      if op == 0 {
        var res := list.Insert(range);
        if res == 0 {
          accepted := accepted + Span(range);
        }
      } else if op == 1 {
        Pop();
      }
    }

    // The op-1 branch of ooorb_ph: afterwards the next expected byte is the
    // first byte of the stream that was never accepted.
    method Pop()
      requires Valid()
      modifies this, list, list.nodes, list.marks
      ensures Valid() && accepted == old(accepted)
      ensures nextExpectedByte !in accepted
      ensures old(delivered) <= delivered && |delivered| <= |old(delivered)| + 1
    {
      ghost var before := list.Contents();
      var popped, range := list.PopFront(nextExpectedByte);
      NextMissing(before, nextExpectedByte);
      if popped {
        Advance(range, before, list.Contents());
      }
    }

    method Advance(range: Range, ghost before: seq<Range>, ghost rest: seq<Range>)
      requires list.Valid() && list.Contents() == rest && before == [range] + rest
      requires Consistent(before, nextExpectedByte, accepted, delivered)
      requires range.left == nextExpectedByte && NodePool.Insertable(range)
      modifies this`nextExpectedByte, this`delivered
      ensures Valid() && nextExpectedByte !in accepted && delivered == old(delivered) + [range]
    {
      PopConsistent(before, rest, range, nextExpectedByte, accepted, delivered);
      nextExpectedByte := range.right + 1;
      delivered := delivered + [range];
    }
  }

  // What a valid handler has delivered: exactly the bytes below the next
  // expected one; with `Pop`, the longest prefix of the stream received so far.
  lemma DeliveredIsPrefix(delivered: seq<Range>, next: int)
    requires Consecutive(delivered, 0, next)
    ensures forall x :: x in Bytes(delivered) <==> 0 <= x < next
  {
    ConsecutiveBytes(delivered, 0, next);
  }
}
