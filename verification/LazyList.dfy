/** The lazy list (examples/ooorb/handlers/lazylist.h) used by one thread: its
    fields, and its operations on arrays of nodes and marks.  The locks, which
    one thread always gets, are part of module LazyListThreads. */
module LazyList {
  import opened RangeList
  import opened NodePool

  // RANGE_START_ANY, as the int32_t argument it is compared with
  const ANY: int := -1

  // What a commit leaves, for the sequential list.
  lemma CommitResult(p: Pool, chain: seq<nat>, free: seq<nat>, k: nat, range: Range,
                     p': Pool, out: Outcome, chain': seq<nat>, free': seq<nat>)
    requires NodePool.Inv(p, chain, free) && Fits(p, chain, k, range)
    requires (p', out) == Commit(p, chain[k], chain[k + 1], range)
    requires chain' == CommitChain(chain, k, out) && free' == CommitFree(free, out)
    ensures NodePool.Inv(p', chain', free') && |p'.nodes| == |p.nodes|
    ensures |chain'| + |free'| + (if out.Removed? then 1 else 0) == |chain| + |free|
    ensures out.NoSpace? ==
      (free == [] && range.left - 1 !in ChainBytes(p, chain) && range.right + 1 !in ChainBytes(p, chain))
    ensures out.NoSpace? ==> p' == p && chain' == chain && free' == free
    ensures out.Removed? ==> out.node < |p.nodes| && out.node !in chain' && out.node !in free'
    ensures ChainBytes(p', chain') == ChainBytes(p, chain) + if out.NoSpace? then {} else Span(range)
  {
    ConnectsByBytes(p, chain, free, k, range);
    CommitKeeps(p, chain, free, k, range, p', out, chain', free');
  }

  lemma FrontRange(p: Pool, chain: seq<nat>, front: nat, rs: seq<Range>)
    requires Linked(p, chain) && Sorted(p, chain) && front == chain[1] && rs == Ranges(p, chain)
    ensures p.nodes[p.head].next == front
    ensures rs == [] <==> p.nodes[front].range.left == INT32_MAX
    ensures rs != [] ==> |chain| > 2 && rs[0] == p.nodes[front].range && p.nodes[front].next == chain[2]
  {
    if |chain| > 2 {
      assert Insertable(At(p, chain, 1));
    }
  }

  lemma NotYetHeld(ranges: seq<Range>, i: nat, now: set<int>, before: set<int>)
    requires PairwiseDisjoint(ranges) && i < |ranges| && now == before + Bytes(ranges[..i])
    requires before !! Span(ranges[i])
    ensures now !! Span(ranges[i])
  {
    assert forall k :: 0 <= k < i ==> Disjoint(ranges[k], ranges[i]) && ranges[..i][k] == ranges[k];
    forall x | x in Span(ranges[i])
      ensures x !in Bytes(ranges[..i])
    {
      BytesAt(ranges[..i], x);
    }
  }

  class List {
    var headIdx: nat
    var freeHeadIdx: nat
    const nodes: array<Node>
    const marks: array<bool>
    ghost var chain: seq<nat>   // indices from the left to the right sentinel
    ghost var free: seq<nat>    // indices on the free list

    ghost function View(): Pool
      reads this, nodes, marks
    {
      Pool(nodes[..], marks[..], headIdx, freeHeadIdx)
    }

    // Every node is on the chain or on the free list.
    ghost predicate Valid()
      reads this, nodes, marks
    {
      NodePool.Inv(View(), chain, free) && |chain| + |free| == nodes.Length
    }

    // The ranges held, in order.
    ghost function Contents(): seq<Range>
      requires Valid()
      reads this, nodes, marks
    {
      Ranges(View(), chain)
    }

    // lazylist_init.  The marks of the sentinels start cleared.
    constructor (capacity: nat)
      requires 3 <= capacity < EOL
      ensures Valid() && fresh(nodes) && fresh(marks)
      ensures Contents() == [] && |free| == capacity - 2
    {
      var numActual := capacity - 2;
      nodes := new Node[capacity](_ => Node(Range(0, 0), 0));
      marks := new bool[capacity](_ => false);
      new;
      for i := 0 to numActual
        invariant forall k :: 0 <= k < i ==> nodes[k].next == k + 1
        invariant forall k :: 0 <= k < capacity ==> !marks[k]
      {
        nodes[i] := nodes[i].(next := i + 1);
        marks[i] := false;
      }
      nodes[numActual - 1] := nodes[numActual - 1].(next := EOL);
      nodes[numActual] := Node(Range(INT32_MIN, INT32_MIN), numActual + 1);
      nodes[numActual + 1] := Node(Range(INT32_MAX, INT32_MAX), EOL);
      headIdx := numActual;
      freeHeadIdx := 0;
      chain := [numActual, numActual + 1];
      free := seq(numActual, i => i);
      InitialPool(View(), numActual, chain, free);
    }

    // lazylist_get_free_node
    method GetFreeNode() returns (ok: bool, n: nat)
      requires freeHeadIdx != EOL ==> freeHeadIdx < nodes.Length
      modifies this`freeHeadIdx
      ensures ok == (old(freeHeadIdx) != EOL)
      ensures ok ==> (View(), n) == GetFree(old(View()))
      ensures !ok ==> View() == old(View())
    {
      ok, n := false, 0;
      if freeHeadIdx != EOL {
        ok := true;
        n := freeHeadIdx;
        freeHeadIdx := nodes[n].next;
      }
    }

    // lazylist_put_free_node
    method PutFreeNode(n: nat)
      requires n < nodes.Length
      modifies this`freeHeadIdx, nodes
      ensures View() == PutFree(old(View()), n)
    {
      nodes[n] := nodes[n].(next := freeHeadIdx);
      freeHeadIdx := n;
    }

    // lazylist_find_pred: `found` is false when the range overlaps one held.
    method FindPred(range: Range) returns (found: bool, pred: nat, curr: nat, ghost k: nat)
      requires Valid() && Insertable(range)
      ensures k + 1 < |chain| && pred == chain[k] && curr == chain[k + 1]
      ensures found <==> Bytes(Contents()) !! Span(range)
      ensures found <==> Fits(View(), chain, k, range)
    {
      curr := headIdx;
      pred := curr;
      ghost var i := 0;
      while nodes[curr].range.right < range.left
        invariant i < |chain| && curr == chain[i]
        invariant i > 0 ==> pred == chain[i - 1] && At(View(), chain, i - 1).right < range.left
        invariant i == 0 ==> At(View(), chain, 0).right < range.left
        decreases |chain| - i
      {
        assert At(View(), chain, i).right < range.left;
        pred := curr;
        curr := nodes[curr].next;
        i := i + 1;
      }
      k := i - 1;
      found := range.right < nodes[curr].range.left;
      FoundFits(View(), chain, k, range);
    }

    // The locked section of lazylist_insert: `removed` is the node to delete.
    method CommitSection(pred: nat, curr: nat, range: Range) returns (out: Outcome)
      requires pred < nodes.Length && curr < nodes.Length && nodes.Length == marks.Length
      requires freeHeadIdx != EOL ==> freeHeadIdx < nodes.Length
      modifies this`freeHeadIdx, nodes, marks
      ensures (View(), out) == Commit(old(View()), pred, curr, range)
    {
      var connectsLeft := nodes[pred].range.right + 1 == range.left && nodes[pred].range.left > INT32_MIN;
      var connectsRight := range.right + 1 == nodes[curr].range.left && nodes[curr].range.left < INT32_MAX;
      if connectsLeft && connectsRight {
        nodes[pred] := nodes[pred].(range := nodes[pred].range.(right := nodes[curr].range.right));
        marks[curr] := true;
        nodes[pred] := nodes[pred].(next := nodes[curr].next);
        out := Removed(curr);
      } else if connectsLeft {
        nodes[pred] := nodes[pred].(range := nodes[pred].range.(right := range.right));
        out := Grew;
      } else if connectsRight {
        nodes[curr] := nodes[curr].(range := nodes[curr].range.(left := range.left));
        out := Grew;
      } else {
        var ok, n := GetFreeNode();
        if ok {
          nodes[n] := nodes[n].(range := range);
          marks[n] := false;
          nodes[n] := nodes[n].(next := curr);
          nodes[pred] := nodes[pred].(next := n);
          out := Added(n);
        } else {
          out := NoSpace;
        }
      }
    }

    // All nodes but `extra` are on the chain or on the free list.
    ghost predicate ValidBut(extra: nat)
      reads this, nodes, marks
    {
      && NodePool.Inv(View(), chain, free)
      && |chain| + |free| + 1 == nodes.Length
      && extra < nodes.Length && extra !in chain && extra !in free
    }

    // The range touches nothing held, so it takes a node of its own.
    ghost predicate NeedsNode(range: Range)
      requires Valid()
      reads this, nodes, marks
    {
      range.left - 1 !in ChainBytes(View(), chain) && range.right + 1 !in ChainBytes(View(), chain)
    }

    // One turn of the loop of lazylist_insert, from validation to the unlocks.
    // `toDelete` is EOL when there is no node to delete.
    method Attempt(range: Range, pred: nat, curr: nat, ghost k: nat)
      returns (terminate: bool, error: nat, toDelete: nat)
      requires Valid() && Fits(View(), chain, k, range) && pred == chain[k] && curr == chain[k + 1]
      modifies this, nodes, marks
      ensures terminate
      ensures toDelete == EOL ==> Valid()
      ensures toDelete != EOL ==> ValidBut(toDelete)
      ensures error == if old(NeedsNode(range) && free == []) then 1 else 0
      ensures error == 1 ==> View() == old(View()) && chain == old(chain) && free == old(free) && toDelete == EOL
      ensures Linked(View(), chain)
      ensures ChainBytes(View(), chain) == old(ChainBytes(View(), chain)) + if error == 0 then Span(range) else {}
      ensures |free| + 1 >= old(|free|)
    {
      terminate, error, toDelete := false, 0, EOL;
      ghost var start, chain0, free0 := View(), chain, free;
      ghost var tight := NeedsNode(range) && free == [];
      assert tight ==
        (free0 == [] && range.left - 1 !in ChainBytes(start, chain0) && range.right + 1 !in ChainBytes(start, chain0));
      if !marks[pred] && !marks[curr] && nodes[pred].next == curr {
        var out := CommitSection(pred, curr, range);
        chain, free := CommitChain(chain0, k, out), CommitFree(free0, out);
        ghost var p' := View();
        CommitResult(start, chain0, free0, k, range, p', out, chain, free);
        assert View() == p';
        if out.NoSpace? {
          error := 1;
        } else if out.Removed? {
          toDelete := out.node;
        }
        terminate := true;
      }
    }

    // A node that has left the chain becomes free.
    method Recycle(n: nat)
      requires ValidBut(n)
      modifies this, nodes
      ensures Valid() && |free| == old(|free|) + 1
      ensures Contents() == old(Ranges(View(), chain)) && Linked(View(), chain)
      ensures ChainBytes(View(), chain) == old(ChainBytes(View(), chain))
    {
      ghost var before := View();
      PutFreeNode(n);
      PutKeeps(before, chain, free, n, View());
      free := [n] + free;
    }

    // lazylist_insert.  It returns 0 on success and also when the range
    // overlaps one held, and 1 when no node is free.
    method Insert(range: Range) returns (res: nat)
      requires Valid() && Insertable(range)
      modifies this, nodes, marks
      ensures Valid()
      ensures res == if old(Bytes(Contents()) !! Span(range) && NeedsNode(range) && free == []) then 1 else 0
      ensures Bytes(Contents()) == old(Bytes(Contents()))
        + if res == 0 && old(Bytes(Contents()) !! Span(range)) then Span(range) else {}
      ensures res == 1 || !old(Bytes(Contents()) !! Span(range)) ==> View() == old(View()) && chain == old(chain)
      ensures Canonical(Contents()) && |free| + 1 >= old(|free|)
    {
      res := 0;
      var terminate, toDelete := false, EOL;
      while !terminate
        invariant !terminate ==> Valid() && View() == old(View()) && chain == old(chain) && free == old(free)
        invariant terminate ==>
          && old(Bytes(Contents()) !! Span(range))
          && (if toDelete == EOL then Valid() else ValidBut(toDelete))
          && res == (if old(NeedsNode(range) && free == []) then 1 else 0)
          && (res == 1 ==> View() == old(View()) && chain == old(chain) && toDelete == EOL)
          && |free| + 1 >= old(|free|)
          && ChainBytes(View(), chain) == old(Bytes(Contents())) + if res == 0 then Span(range) else {}
        decreases !terminate
      {
        var found, pred, curr, k := FindPred(range);
        if !found {
          RangesAreCanonical(View(), chain);
          return 0;
        }
        terminate, res, toDelete := Attempt(range, pred, curr, k);
      }
      if toDelete != EOL {
        Recycle(toDelete);
      }
      RangesAreCanonical(View(), chain);
    }

    method InsertFresh(range: Range)
      requires Valid() && Insertable(range) && Bytes(Contents()) !! Span(range) && free != []
      modifies this, nodes, marks
      ensures Valid() && Canonical(Contents()) && |free| + 1 >= old(|free|)
      ensures Bytes(Contents()) == old(Bytes(Contents())) + Span(range)
    {
      var _ := Insert(range);
    }

    // A client that inserts disjoint ranges one after the other, with a free
    // node for each: all are taken, and the list holds their union.
    method InsertAll(ranges: seq<Range>)
      requires Valid() && PairwiseDisjoint(ranges) && |ranges| <= |free|
      requires forall r :: r in ranges ==> Insertable(r) && Bytes(Contents()) !! Span(r)
      modifies this, nodes, marks
      ensures Valid() && Canonical(Contents())
      ensures Bytes(Contents()) == old(Bytes(Contents())) + Bytes(ranges)
    {
      RangesAreCanonical(View(), chain);
      ghost var before := Bytes(Contents());
      for i := 0 to |ranges|
        invariant Valid() && Canonical(Contents()) && |ranges| - i <= |free|
        invariant Bytes(Contents()) == before + Bytes(ranges[..i])
      {
        BytesSnoc(ranges, i);
        NotYetHeld(ranges, i, Bytes(Contents()), before);
        InsertFresh(ranges[i]);
      }
      assert ranges[..|ranges|] == ranges;
    }

    // lazylist_pop_front: the front range, if the list is not empty and starts
    // where the caller expects.
    method PopFront(rangeLeft: int) returns (popped: bool, range: Range)
      requires Valid()
      modifies this, nodes, marks
      ensures Valid()
      ensures popped == old(Contents() != [] && (rangeLeft == ANY || Contents()[0].left == rangeLeft))
      ensures popped ==> old(Contents()) == [range] + Contents() && |free| == old(|free|) + 1
      ensures popped ==> Insertable(range)
      ensures !popped ==> View() == old(View()) && chain == old(chain) && free == old(free)
      ensures !popped ==> Contents() == old(Contents())
    {
      popped, range := false, Range(0, 0);
      var front := nodes[headIdx].next;
      FrontRange(View(), chain, chain[1], Contents());
      if nodes[front].range.left == INT32_MAX {
        return;
      }
      if rangeLeft != ANY && nodes[front].range.left != rangeLeft {
        return;
      }
      var frontNext := nodes[front].next;
      assert Validate(View(), front, frontNext);
      range := TakeFront(front, frontNext);
      popped := true;
    }

    // From validation to the end of lazylist_pop_front.
    method TakeFront(front: nat, frontNext: nat) returns (range: Range)
      requires Valid() && Contents() != [] && 3 <= |chain| && front == chain[1] && frontNext == chain[2]
      modifies this, nodes, marks
      ensures Valid() && old(Contents()) == [range] + Contents() && |free| == old(|free|) + 1
      ensures Insertable(range)
    {
      range := nodes[front].range;
      assert At(View(), chain, 1) == range && Insertable(At(View(), chain, 1));
      assert Contents() == Ranges(View(), chain);
      UnlinkFront(front, frontNext);
      Recycle(front);
    }

    // The locked section of lazylist_pop_front.
    method UnlinkFront(front: nat, frontNext: nat)
      requires Valid() && 3 <= |chain| && front == chain[1] && frontNext == chain[2]
      modifies this`chain, nodes, marks
      ensures ValidBut(front)
      ensures old(Ranges(View(), chain)) == [old(View().nodes[front].range)] + Ranges(View(), chain)
    {
      ghost var before := View();
      PopKeeps(before, chain, free, PopCommit(before, front, frontNext), Without(chain, 1));
      marks[front] := true;
      nodes[headIdx] := nodes[headIdx].(next := frontNext);
      assert View() == PopCommit(before, front, frontNext);
      chain := Without(chain, 1);
    }
  }

  // The same disjoint ranges inserted in two orders end in the same chain; a permuted
  // split of [0, n) ends in one range.
  method InsertInTwoOrders(a: List, b: List, ra: seq<Range>, rb: seq<Range>, ghost n: nat)
    requires a.Valid() && b.Valid() && a.Contents() == [] && b.Contents() == []
    requires a != b && a.nodes != b.nodes && a.marks != b.marks
    requires multiset(ra) == multiset(rb) && PairwiseDisjoint(ra) && PairwiseDisjoint(rb)
    requires |ra| <= |a.free| && |rb| <= |b.free|
    requires (forall r :: r in ra ==> Insertable(r)) && (forall r :: r in rb ==> Insertable(r))
    modifies a, a.nodes, a.marks, b, b.nodes, b.marks
    ensures a.Valid() && b.Valid() && a.Contents() == b.Contents()
    ensures n > 0 && Bytes(ra) == Span(Range(0, n - 1)) ==> a.Contents() == [Range(0, n - 1)]
  {
    a.InsertAll(ra);
    ghost var ca := a.Contents();
    b.InsertAll(rb);
    assert a.Contents() == ca;
    OrderDoesNotMatter(ra, rb, ca, b.Contents());
    if n > 0 && Bytes(ra) == Span(Range(0, n - 1)) {
      WholeIsOneRange(ca, n);
    }
  }
}
