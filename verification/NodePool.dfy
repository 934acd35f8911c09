/** The node pool of the lazy list (examples/ooorb/handlers/lazylist.h): a sorted
    chain of ranges between two sentinels and a free list, both linked by index.
    The steps that change it are functions here; the sequential class and the
    concurrent model both take them. */
module NodePool {
  import opened RangeList

  const EOL: nat := 0xffff_ffff
  const INT32_MIN: int := -0x8000_0000
  const INT32_MAX: int := 0x7fff_ffff

  datatype Node = Node(range: Range, next: nat)

  datatype Pool = Pool(nodes: seq<Node>, marks: seq<bool>, head: nat, freeHead: nat)

  // What lazylist_insert asks of a range.
  predicate Insertable(r: Range) { INT32_MIN < r.left <= r.right < INT32_MAX }

  predicate NoDup(s: seq<nat>) { forall i, j :: 0 <= i < j < |s| ==> s[i] != s[j] }

  // ---------- The invariant ----------

  predicate Linked(p: Pool, chain: seq<nat>) {
    && |p.nodes| == |p.marks| && 2 <= |chain|
    && chain[0] == p.head
    && (forall i :: 0 <= i < |chain| ==> chain[i] < |p.nodes| && !p.marks[chain[i]])
    && (forall i :: 0 <= i < |chain| - 1 ==> p.nodes[chain[i]].next == chain[i + 1])
  }

  // The i-th node of the free list, or its end.
  function FreeAt(free: seq<nat>, i: nat): nat { if i < |free| then free[i] else EOL }

  predicate FreeLinked(p: Pool, free: seq<nat>) {
    && p.freeHead == FreeAt(free, 0)
    && (forall i :: 0 <= i < |free| ==> free[i] < |p.nodes| && p.nodes[free[i]].next == FreeAt(free, i + 1))
  }

  // Range of the i-th node of the chain.
  function At(p: Pool, chain: seq<nat>, i: nat): Range
    requires i < |chain| && chain[i] < |p.nodes|
  {
    p.nodes[chain[i]].range
  }

  predicate Sorted(p: Pool, chain: seq<nat>)
    requires Linked(p, chain)
  {
    var last := |chain| - 1;
    && At(p, chain, 0) == Range(INT32_MIN, INT32_MIN)
    && At(p, chain, last) == Range(INT32_MAX, INT32_MAX)
    && (forall i :: 0 < i < last ==> Insertable(At(p, chain, i)))
    && (forall i :: 0 < i < last - 1 ==> At(p, chain, i).right + 1 < At(p, chain, i + 1).left)
  }

  predicate Inv(p: Pool, chain: seq<nat>, free: seq<nat>) {
    && |p.nodes| < EOL
    && Linked(p, chain) && FreeLinked(p, free) && NoDup(chain) && NoDup(free)
    && (forall i, j :: 0 <= i < |chain| && 0 <= j < |free| ==> chain[i] != free[j])
    && Sorted(p, chain)
  }

  // The ranges of the user nodes, in order.
  function Ranges(p: Pool, chain: seq<nat>): seq<Range>
    requires Linked(p, chain)
  {
    seq(|chain| - 2, i requires 0 <= i < |chain| - 2 => At(p, chain, i + 1))
  }

  lemma RangesAreCanonical(p: Pool, chain: seq<nat>)
    requires Linked(p, chain) && Sorted(p, chain)
    ensures Canonical(Ranges(p, chain))
  {
    var rs := Ranges(p, chain);
    forall i | 0 <= i < |rs| - 1
      ensures rs[i].right + 1 < rs[i + 1].left
    {
      assert At(p, chain, i + 1).right + 1 < At(p, chain, i + 2).left;
    }
  }

  // Neighbours, sentinels included, are in order.
  lemma {:induction false} InOrder(p: Pool, chain: seq<nat>, i: nat, j: nat)
    requires Linked(p, chain) && Sorted(p, chain) && i < j < |chain|
    ensures At(p, chain, i).right < At(p, chain, j).left
    decreases j
  {
    var last := |chain| - 1;
    if i + 1 < j {
      InOrder(p, chain, i, j - 1);
    }
    if 0 < j - 1 < last - 1 {
      assert At(p, chain, j - 1).right + 1 < At(p, chain, j - 1 + 1).left;
    }
  }

  // The pool after initialisation: n nodes on the free list, then the two sentinels.
  lemma InitialPool(p: Pool, n: nat, chain: seq<nat>, free: seq<nat>)
    requires 0 < n && |p.nodes| == |p.marks| == n + 2 < EOL && p.head == n && p.freeHead == 0
    requires forall k :: 0 <= k < n - 1 ==> p.nodes[k].next == k + 1
    requires p.nodes[n - 1].next == EOL
    requires p.nodes[n] == Node(Range(INT32_MIN, INT32_MIN), n + 1)
    requires p.nodes[n + 1].range == Range(INT32_MAX, INT32_MAX)
    requires forall k :: 0 <= k < n + 2 ==> !p.marks[k]
    requires chain == [n, n + 1] && |free| == n && forall k :: 0 <= k < n ==> free[k] == k
    ensures Inv(p, chain, free) && Ranges(p, chain) == []
  {
    forall i | 0 <= i < |free|
      ensures p.nodes[free[i]].next == FreeAt(free, i + 1)
    {}
  }

  // ---------- Steps ----------

  // Unlink the head of the free list; the LRSC branch's test for exhaustion.
  function GetFree(p: Pool): (Pool, nat)
    requires p.freeHead != EOL && p.freeHead < |p.nodes|
  {
    (p.(freeHead := p.nodes[p.freeHead].next), p.freeHead)
  }

  // What an attempt to take a node comes to; the lock variant may follow the end mark as
  // if it were a node.
  datatype Taken = Got(p: Pool, n: nat) | Exhausted | NoSuchNode

  // lazylist_get_free_node with load-reserved: the head of the free list is tested.
  function TakeReserved(p: Pool): Taken {
    if p.freeHead == EOL then Exhausted
    else if p.freeHead < |p.nodes| then Got(GetFree(p).0, GetFree(p).1) else NoSuchNode
  }

  // The lock variant tests the lock word instead, which is 1 while the lock is held.
  function TakeLocked(p: Pool, lockWord: nat): Taken {
    if lockWord == EOL then Exhausted
    else if p.freeHead < |p.nodes| then Got(p.(freeHead := p.nodes[p.freeHead].next), p.freeHead) else NoSuchNode
  }

  // Main result: the two variants agree exactly while a node is free; when none is, the
  // lock variant does not report it and goes to a node that does not exist.
  lemma VariantsAgree(p: Pool, chain: seq<nat>, free: seq<nat>)
    requires Inv(p, chain, free)
    ensures TakeLocked(p, 1) == TakeReserved(p) <==> free != []
    ensures free != [] ==> TakeReserved(p) == Got(GetFree(p).0, free[0])
    ensures free == [] ==> TakeReserved(p) == Exhausted && TakeLocked(p, 1) == NoSuchNode
  {}

  function PutFree(p: Pool, n: nat): Pool
    requires n < |p.nodes|
  {
    p.(nodes := p.nodes[n := p.nodes[n].(next := p.freeHead)], freeHead := n)
  }

  function SetRange(p: Pool, n: nat, r: Range): Pool
    requires n < |p.nodes|
  {
    p.(nodes := p.nodes[n := p.nodes[n].(range := r)])
  }

  function SetNext(p: Pool, n: nat, next: nat): Pool
    requires n < |p.nodes|
  {
    p.(nodes := p.nodes[n := p.nodes[n].(next := next)])
  }

  function SetMark(p: Pool, n: nat, b: bool): Pool
    requires n < |p.marks|
  {
    p.(marks := p.marks[n := b])
  }

  // lazylist_validate
  predicate Validate(p: Pool, pred: nat, curr: nat)
    requires pred < |p.nodes| && curr < |p.nodes| && |p.marks| == |p.nodes|
  {
    !p.marks[pred] && !p.marks[curr] && p.nodes[pred].next == curr
  }

  predicate ConnectsLeft(p: Pool, pred: nat, r: Range)
    requires pred < |p.nodes|
  {
    p.nodes[pred].range.right + 1 == r.left && p.nodes[pred].range.left > INT32_MIN
  }

  predicate ConnectsRight(p: Pool, curr: nat, r: Range)
    requires curr < |p.nodes|
  {
    r.right + 1 == p.nodes[curr].range.left && p.nodes[curr].range.left < INT32_MAX
  }

  datatype Outcome = Grew | Removed(node: nat) | Added(node: nat) | NoSpace

  // The locked section of lazylist_insert after validation.
  function Commit(p: Pool, pred: nat, curr: nat, r: Range): (Pool, Outcome)
    requires pred < |p.nodes| && curr < |p.nodes| && |p.marks| == |p.nodes|
    requires p.freeHead != EOL ==> p.freeHead < |p.nodes|
  {
    if ConnectsLeft(p, pred, r) && ConnectsRight(p, curr, r) then
      var grown := SetRange(p, pred, p.nodes[pred].range.(right := p.nodes[curr].range.right));
      (SetNext(SetMark(grown, curr, true), pred, p.nodes[curr].next), Removed(curr))
    else if ConnectsLeft(p, pred, r) then
      (SetRange(p, pred, p.nodes[pred].range.(right := r.right)), Grew)
    else if ConnectsRight(p, curr, r) then
      (SetRange(p, curr, p.nodes[curr].range.(left := r.left)), Grew)
    else if p.freeHead == EOL then (p, NoSpace)
    else
      var (q, n) := GetFree(p);
      (SetNext(SetNext(SetMark(SetRange(q, n, r), n, false), n, curr), pred, n), Added(n))
  }

  // The locked section of lazylist_pop_front after validation.
  function PopCommit(p: Pool, front: nat, frontNext: nat): Pool
    requires front < |p.marks| && p.head < |p.nodes|
  {
    SetNext(SetMark(p, front, true), p.head, frontNext)
  }

  // ---------- What a commit does to the chain ----------

  function Without(s: seq<nat>, i: nat): seq<nat>
    requires i < |s|
  {
    s[..i] + s[i + 1..]
  }

  function With(s: seq<nat>, i: nat, n: nat): seq<nat>
    requires i <= |s|
  {
    s[..i] + [n] + s[i..]
  }

  // The new chain when `pred` is its i-th node.
  function CommitChain(chain: seq<nat>, i: nat, out: Outcome): seq<nat>
    requires i + 1 < |chain|
  {
    match out
    case Removed(_) => Without(chain, i + 1)
    case Added(n) => With(chain, i + 1, n)
    case _ => chain
  }

  function CommitFree(free: seq<nat>, out: Outcome): seq<nat> {
    if out.Added? && free != [] then free[1..] else free
  }

  // The range goes between the i-th node and the next.
  predicate Fits(p: Pool, chain: seq<nat>, i: nat, r: Range)
    requires Linked(p, chain)
  {
    && Insertable(r) && i + 1 < |chain|
    && At(p, chain, i).right < r.left && r.right < At(p, chain, i + 1).left
  }

  // ---------- The bytes of the chain ----------

  predicate Covered(p: Pool, chain: seq<nat>, x: int)
    requires Linked(p, chain)
  {
    exists k :: 0 < k < |chain| - 1 && In(x, At(p, chain, k))
  }

  function ChainBytes(p: Pool, chain: seq<nat>): set<int>
    requires Linked(p, chain)
  {
    Bytes(Ranges(p, chain))
  }

  lemma CoveredIsBytes(p: Pool, chain: seq<nat>, x: int)
    requires Linked(p, chain)
    ensures x in ChainBytes(p, chain) <==> Covered(p, chain, x)
  {
    var rs := Ranges(p, chain);
    BytesAt(rs, x);
    if k :| 0 <= k < |rs| && x in Span(rs[k]) {
      assert In(x, At(p, chain, k + 1));
    }
    if k :| 0 < k < |chain| - 1 && In(x, At(p, chain, k)) {
      assert rs[k - 1] == At(p, chain, k) && x in Span(rs[k - 1]);
    }
  }

  lemma BytesFromCovered(p: Pool, chain: seq<nat>, p': Pool, chain': seq<nat>, more: set<int>)
    requires Linked(p, chain) && Linked(p', chain')
    requires forall x :: Covered(p', chain', x) <==> Covered(p, chain, x) || x in more
    ensures ChainBytes(p', chain') == ChainBytes(p, chain) + more
  {
    forall x
      ensures x in ChainBytes(p', chain') <==> x in ChainBytes(p, chain) || x in more
    {
      CoveredIsBytes(p, chain, x);
      CoveredIsBytes(p', chain', x);
    }
  }

  // ---------- Extending one node ----------

  // Only the range of the k-th node changes, and it keeps its distance.
  predicate Stretches(p: Pool, chain: seq<nat>, k: nat, r: Range)
    requires Linked(p, chain)
  {
    && 0 < k < |chain| - 1 && Insertable(r)
    && (k > 1 ==> At(p, chain, k - 1).right + 1 < r.left)
    && (k < |chain| - 2 ==> r.right + 1 < At(p, chain, k + 1).left)
  }

  lemma SetRangeAt(p: Pool, chain: seq<nat>, k: nat, r: Range, p': Pool)
    requires Linked(p, chain) && NoDup(chain) && k < |chain| && p' == SetRange(p, chain[k], r)
    ensures Linked(p', chain)
    ensures forall i :: 0 <= i < |chain| ==> At(p', chain, i) == if i == k then r else At(p, chain, i)
  {
    assert forall i :: 0 <= i < |chain| && i != k ==> chain[i] != chain[k];
  }

  lemma SetRangeKeeps(p: Pool, chain: seq<nat>, free: seq<nat>, k: nat, r: Range, p': Pool)
    requires Inv(p, chain, free) && Stretches(p, chain, k, r) && p' == SetRange(p, chain[k], r)
    ensures Inv(p', chain, free)
  {
    SetRangeAt(p, chain, k, r, p');
    forall i | 0 < i < |chain| - 2
      ensures At(p', chain, i).right + 1 < At(p', chain, i + 1).left
    {
      assert At(p, chain, i).right + 1 < At(p, chain, i + 1).left;
    }
    assert FreeLinked(p', free);
  }

  lemma GrowBytes(p: Pool, chain: seq<nat>, free: seq<nat>, k: nat, r: Range, more: Range, p': Pool)
    requires Inv(p, chain, free) && Stretches(p, chain, k, r) && p' == SetRange(p, chain[k], r)
    requires forall x :: In(x, r) <==> In(x, At(p, chain, k)) || In(x, more)
    ensures Linked(p', chain) && ChainBytes(p', chain) == ChainBytes(p, chain) + Span(more)
  {
    SetRangeAt(p, chain, k, r, p');
    forall x
      ensures Covered(p', chain, x) <==> Covered(p, chain, x) || x in Span(more)
    {
      assert In(x, At(p', chain, k)) <==> In(x, At(p, chain, k)) || In(x, more);
      if j :| 0 < j < |chain| - 1 && In(x, At(p, chain, j)) {
        assert In(x, At(p', chain, j));
      }
      if j :| 0 < j < |chain| - 1 && In(x, At(p', chain, j)) {
        assert j != k ==> In(x, At(p, chain, j));
      }
    }
    BytesFromCovered(p, chain, p', chain, Span(more));
  }

  // ---------- Removing a node ----------

  // Unlink the (i+1)-st node of the chain.
  function Unlink(p: Pool, chain: seq<nat>, i: nat): Pool
    requires Linked(p, chain) && i + 2 < |chain|
  {
    SetNext(SetMark(p, chain[i + 1], true), chain[i], chain[i + 2])
  }

  lemma WithoutAt(s: seq<nat>, i: nat)
    requires i < |s|
    ensures |Without(s, i)| == |s| - 1
    ensures forall j :: 0 <= j < |s| - 1 ==> Without(s, i)[j] == if j < i then s[j] else s[j + 1]
    ensures NoDup(s) ==> NoDup(Without(s, i)) && s[i] !in Without(s, i)
  {}

  lemma UnlinkLinked(p: Pool, chain: seq<nat>, i: nat, p': Pool, c': seq<nat>)
    requires Linked(p, chain) && NoDup(chain) && i + 2 < |chain|
    requires p' == Unlink(p, chain, i) && |c'| == |chain| - 1
    requires forall j :: 0 <= j < |c'| ==> c'[j] == chain[if j <= i then j else j + 1]
    ensures Linked(p', c')
  {
    forall j | 0 <= j < |c'| - 1
      ensures p'.nodes[c'[j]].next == c'[j + 1]
    {
      assert j != i ==> c'[j] != chain[i];
    }
  }

  lemma UnlinkLinks(p: Pool, chain: seq<nat>, i: nat, p': Pool, c': seq<nat>)
    requires Linked(p, chain) && NoDup(chain) && i + 2 < |chain|
    requires p' == Unlink(p, chain, i) && c' == Without(chain, i + 1)
    ensures Linked(p', c') && NoDup(c') && |c'| == |chain| - 1 && chain[i + 1] !in c'
    ensures forall j :: 0 <= j < |c'| ==> c'[j] == chain[if j <= i then j else j + 1]
    ensures forall j {:trigger At(p', c', j)} :: 0 <= j < |c'| ==>
      At(p', c', j) == At(p, chain, if j <= i then j else j + 1)
  {
    WithoutAt(chain, i + 1);
    UnlinkLinked(p, chain, i, p', c');
  }

  lemma UnlinkSorted(p: Pool, chain: seq<nat>, i: nat, p': Pool, c': seq<nat>)
    requires Linked(p, chain) && Sorted(p, chain) && i + 2 < |chain|
    requires Linked(p', c') && |c'| == |chain| - 1
    requires forall j {:trigger At(p', c', j)} :: 0 <= j < |c'| ==>
      At(p', c', j) == At(p, chain, if j <= i then j else j + 1)
    ensures Sorted(p', c')
  {
    var last := |c'| - 1;
    forall j | 0 < j < last - 1
      ensures At(p', c', j).right + 1 < At(p', c', j + 1).left
    {
      if j == i {
        assert At(p, chain, i).right + 1 < At(p, chain, i + 1).left;
        InOrder(p, chain, i + 1, i + 2);
      } else {
        var k := if j < i then j else j + 1;
        assert At(p, chain, k).right + 1 < At(p, chain, k + 1).left;
      }
    }
    forall j | 0 < j < last
      ensures Insertable(At(p', c', j))
    {
      assert Insertable(At(p, chain, if j <= i then j else j + 1));
    }
  }

  lemma UnlinkKeeps(p: Pool, chain: seq<nat>, free: seq<nat>, i: nat, p': Pool, c': seq<nat>)
    requires Inv(p, chain, free) && i + 2 < |chain|
    requires p' == Unlink(p, chain, i) && c' == Without(chain, i + 1)
    ensures Inv(p', c', free)
    ensures chain[i + 1] !in c' && chain[i + 1] !in free
  {
    UnlinkLinks(p, chain, i, p', c');
    UnlinkSorted(p, chain, i, p', c');
    assert FreeLinked(p', free);
  }

  lemma UnlinkBytes(p: Pool, chain: seq<nat>, i: nat, p': Pool, c': seq<nat>)
    requires Linked(p, chain) && Sorted(p, chain) && NoDup(chain) && i + 2 < |chain|
    requires p' == Unlink(p, chain, i) && c' == Without(chain, i + 1)
    ensures Linked(p', c') && ChainBytes(p', c') == ChainBytes(p, chain) - Span(At(p, chain, i + 1))
    ensures Span(At(p, chain, i + 1)) <= ChainBytes(p, chain)
  {
    UnlinkLinks(p, chain, i, p', c');
    var gone := At(p, chain, i + 1);
    forall x
      ensures Covered(p', c', x) <==> Covered(p, chain, x) && !In(x, gone)
      ensures In(x, gone) ==> Covered(p, chain, x)
    {
      UnlinkCovers(p, chain, i, p', c', x);
    }
    forall x
      ensures x in ChainBytes(p', c') <==> x in ChainBytes(p, chain) && x !in Span(gone)
      ensures x in Span(gone) ==> x in ChainBytes(p, chain)
    {
      CoveredIsBytes(p, chain, x);
      CoveredIsBytes(p', c', x);
    }
  }

  lemma UnlinkCovers(p: Pool, chain: seq<nat>, i: nat, p': Pool, c': seq<nat>, x: int)
    requires Linked(p, chain) && Sorted(p, chain) && i + 2 < |chain|
    requires Linked(p', c') && |c'| == |chain| - 1
    requires forall j {:trigger At(p', c', j)} :: 0 <= j < |c'| ==>
      At(p', c', j) == At(p, chain, if j <= i then j else j + 1)
    ensures Covered(p', c', x) <==> Covered(p, chain, x) && !In(x, At(p, chain, i + 1))
    ensures In(x, At(p, chain, i + 1)) ==> Covered(p, chain, x)
  {
    if j :| 0 < j < |c'| - 1 && In(x, At(p', c', j)) {
      var k := if j <= i then j else j + 1;
      assert In(x, At(p, chain, k));
      if k < i + 1 { InOrder(p, chain, k, i + 1); } else { InOrder(p, chain, i + 1, k); }
    }
    if k :| 0 < k < |chain| - 1 && k != i + 1 && In(x, At(p, chain, k)) {
      assert In(x, At(p', c', if k <= i then k else k - 1));
    }
  }

  // ---------- Adding a node ----------

  function Link(p: Pool, pred: nat, n: nat, curr: nat, r: Range): Pool
    requires pred < |p.nodes| && n < |p.nodes| && |p.marks| == |p.nodes|
  {
    SetNext(SetNext(SetMark(SetRange(p, n, r), n, false), n, curr), pred, n)
  }

  // `c'` is `chain` with one more node after the i-th, of range `r`.
  predicate RangesWith(p: Pool, chain: seq<nat>, i: nat, r: Range, p': Pool, c': seq<nat>)
    requires Linked(p, chain) && Linked(p', c') && |c'| == |chain| + 1 && i + 1 < |chain|
  {
    && (forall j {:trigger At(p', c', j)} :: 0 <= j <= i ==> At(p', c', j) == At(p, chain, j))
    && At(p', c', i + 1) == r
    && (forall j {:trigger At(p', c', j)} :: i + 1 < j < |c'| ==> At(p', c', j) == At(p, chain, j - 1))
  }

  lemma WithOne(chain: seq<nat>, i: nat, n: nat, c': seq<nat>)
    requires NoDup(chain) && i + 1 < |chain| && n !in chain && c' == With(chain, i + 1, n)
    ensures NoDup(c') && |c'| == |chain| + 1
    ensures forall j {:trigger c'[j]} :: 0 <= j < |c'| ==>
      c'[j] == if j <= i then chain[j] else if j == i + 1 then n else chain[j - 1]
  {}

  lemma LinkLinks(p: Pool, chain: seq<nat>, i: nat, n: nat, r: Range, p': Pool, c': seq<nat>)
    requires Linked(p, chain) && NoDup(chain) && i + 1 < |chain|
    requires n < |p.nodes| && n !in chain
    requires p' == Link(p, chain[i], n, chain[i + 1], r) && c' == With(chain, i + 1, n)
    ensures Linked(p', c') && NoDup(c') && |c'| == |chain| + 1
    ensures forall j {:trigger c'[j]} :: 0 <= j < |c'| ==>
      c'[j] == if j <= i then chain[j] else if j == i + 1 then n else chain[j - 1]
    ensures RangesWith(p, chain, i, r, p', c')
  {
    WithOne(chain, i, n, c');
  }

  lemma LinkSorted(p: Pool, chain: seq<nat>, i: nat, r: Range, p': Pool, c': seq<nat>)
    requires Linked(p, chain) && Sorted(p, chain) && Fits(p, chain, i, r)
    requires !ConnectsLeft(p, chain[i], r) && !ConnectsRight(p, chain[i + 1], r)
    requires Linked(p', c') && |c'| == |chain| + 1 && i + 1 < |chain|
    requires RangesWith(p, chain, i, r, p', c')
    ensures Sorted(p', c')
  {
    var last := |c'| - 1;
    forall j | 0 < j < last
      ensures Insertable(At(p', c', j))
    {
      if j <= i {
        assert Insertable(At(p, chain, j));
      } else if j > i + 1 {
        assert Insertable(At(p, chain, j - 1));
      }
    }
    forall j | 0 < j < last - 1
      ensures At(p', c', j).right + 1 < At(p', c', j + 1).left
    {
      if j < i {
        assert At(p, chain, j).right + 1 < At(p, chain, j + 1).left;
      } else if j > i + 1 {
        assert At(p, chain, j - 1).right + 1 < At(p, chain, j - 1 + 1).left;
      } else {
        assert Insertable(At(p', c', j)) && Insertable(At(p', c', j + 1));
      }
    }
  }

  lemma LinkBytes(p: Pool, chain: seq<nat>, i: nat, r: Range, p': Pool, c': seq<nat>)
    requires Linked(p, chain) && Linked(p', c') && |c'| == |chain| + 1 && i + 1 < |chain|
    requires RangesWith(p, chain, i, r, p', c')
    ensures ChainBytes(p', c') == ChainBytes(p, chain) + Span(r)
  {
    forall x
      ensures Covered(p', c', x) <==> Covered(p, chain, x) || x in Span(r)
    {
      if k :| 0 < k < |chain| - 1 && In(x, At(p, chain, k)) {
        assert In(x, At(p', c', if k <= i then k else k + 1));
      }
      if x in Span(r) {
        assert In(x, At(p', c', i + 1));
      }
    }
    BytesFromCovered(p, chain, p', c', Span(r));
  }

  lemma FreeTail(p: Pool, free: seq<nat>)
    requires |p.nodes| < EOL && FreeLinked(p, free) && free != []
    ensures p.freeHead == free[0] < |p.nodes|
    ensures FreeLinked(GetFree(p).0, free[1..])
  {
    var rest := free[1..];
    assert p.nodes[free[0]].next == FreeAt(free, 1);
    forall i | 0 <= i < |rest|
      ensures rest[i] < |p.nodes|
      ensures p.nodes[rest[i]].next == FreeAt(rest, i + 1)
    {
      assert rest[i] == free[i + 1];
    }
  }

  lemma AddKeeps(p: Pool, chain: seq<nat>, free: seq<nat>, i: nat, r: Range, p': Pool, c': seq<nat>)
    requires Inv(p, chain, free) && Fits(p, chain, i, r) && free != []
    requires !ConnectsLeft(p, chain[i], r) && !ConnectsRight(p, chain[i + 1], r)
    requires p' == Link(GetFree(p).0, chain[i], free[0], chain[i + 1], r) && c' == With(chain, i + 1, free[0])
    ensures Inv(p', c', free[1..])
    ensures ChainBytes(p', c') == ChainBytes(p, chain) + Span(r)
  {
    FreeTail(p, free);
    var q := GetFree(p).0;
    LinkLinks(q, chain, i, free[0], r, p', c');
    assert forall j :: 0 <= j < |chain| ==> At(q, chain, j) == At(p, chain, j);
    LinkSorted(q, chain, i, r, p', c');
    LinkBytes(q, chain, i, r, p', c');
    assert Ranges(q, chain) == Ranges(p, chain);
    LinkFree(q, chain, free, i, r, p', c');
  }

  lemma LinkFree(q: Pool, chain: seq<nat>, free: seq<nat>, i: nat, r: Range, p': Pool, c': seq<nat>)
    requires Linked(q, chain) && free != [] && FreeLinked(q, free[1..]) && i + 1 < |chain|
    requires NoDup(free) && forall j, k :: 0 <= j < |chain| && 0 <= k < |free| ==> chain[j] != free[k]
    requires free[0] < |q.nodes| && |c'| == |chain| + 1
    requires p' == Link(q, chain[i], free[0], chain[i + 1], r)
    requires forall j {:trigger c'[j]} :: 0 <= j < |c'| ==>
      c'[j] == if j <= i then chain[j] else if j == i + 1 then free[0] else chain[j - 1]
    ensures FreeLinked(p', free[1..]) && NoDup(free[1..])
    ensures forall j, k :: 0 <= j < |c'| && 0 <= k < |free[1..]| ==> c'[j] != free[1..][k]
  {
    var rest := free[1..];
    assert forall k :: 0 <= k < |rest| ==> rest[k] == free[k + 1] && rest[k] != free[0] && rest[k] != chain[i];
  }

  // ---------- The locked sections keep the list ----------

  // Merging is unlinking `curr` and stretching `pred` over it.
  // A merge unlinks the right node and stretches the left one.
  lemma MergeIsUnlink(p: Pool, chain: seq<nat>, i: nat, r: Range, p': Pool, q: Pool, all: Range)
    requires Linked(p, chain) && NoDup(chain) && i + 2 < |chain|
    requires (p.freeHead != EOL ==> p.freeHead < |p.nodes|)
    requires ConnectsLeft(p, chain[i], r) && ConnectsRight(p, chain[i + 1], r)
    requires p' == Commit(p, chain[i], chain[i + 1], r).0 && q == Unlink(p, chain, i)
    requires all == Range(At(p, chain, i).left, At(p, chain, i + 1).right)
    ensures p' == SetRange(q, chain[i], all)
  {}

  lemma MergeKeeps(p: Pool, chain: seq<nat>, free: seq<nat>, i: nat, r: Range, p': Pool, c': seq<nat>)
    requires Inv(p, chain, free) && Fits(p, chain, i, r)
    requires ConnectsLeft(p, chain[i], r) && ConnectsRight(p, chain[i + 1], r)
    requires p' == Commit(p, chain[i], chain[i + 1], r).0 && c' == Without(chain, i + 1)
    ensures 0 < i && i + 2 < |chain|
    ensures Inv(p', c', free) && ChainBytes(p', c') == ChainBytes(p, chain) + Span(r)
    ensures chain[i + 1] !in c' && chain[i + 1] !in free && p'.marks[chain[i + 1]]
  {
    var left, right := At(p, chain, i), At(p, chain, i + 1);
    var q, all := Unlink(p, chain, i), Range(left.left, right.right);
    UnlinkKeeps(p, chain, free, i, q, c');
    UnlinkLinks(p, chain, i, q, c');
    UnlinkBytes(p, chain, i, q, c');
    assert At(q, c', i) == left;
    MergeStretches(p, chain, i, q, c', all);
    MergeIsUnlink(p, chain, i, r, p', q, all);
    SetRangeKeeps(q, c', free, i, all, p');
    GrowBytes(q, c', free, i, all, Range(r.left, right.right), p');
    assert Span(Range(r.left, right.right)) == Span(r) + Span(right);
  }

  lemma MergeStretches(p: Pool, chain: seq<nat>, i: nat, q: Pool, c': seq<nat>, all: Range)
    requires Linked(p, chain) && Sorted(p, chain) && 0 < i && i + 2 < |chain|
    requires Linked(q, c') && |c'| == |chain| - 1
    requires forall j {:trigger At(q, c', j)} :: 0 <= j < |c'| ==>
      At(q, c', j) == At(p, chain, if j <= i then j else j + 1)
    requires all == Range(At(p, chain, i).left, At(p, chain, i + 1).right)
    ensures Stretches(q, c', i, all)
  {
    InOrder(p, chain, i, i + 1);
    assert Insertable(At(p, chain, i)) && Insertable(At(p, chain, i + 1));
    if i > 1 {
      assert At(p, chain, i - 1).right + 1 < At(p, chain, i - 1 + 1).left;
      assert At(q, c', i - 1) == At(p, chain, i - 1);
    }
    if i < |c'| - 2 {
      assert At(p, chain, i + 1).right + 1 < At(p, chain, i + 1 + 1).left;
      assert At(q, c', i + 1) == At(p, chain, i + 2);
    }
  }

  lemma ExtendRightKeeps(p: Pool, chain: seq<nat>, free: seq<nat>, i: nat, r: Range, p': Pool)
    requires Inv(p, chain, free) && Fits(p, chain, i, r)
    requires ConnectsLeft(p, chain[i], r) && !ConnectsRight(p, chain[i + 1], r)
    requires p' == Commit(p, chain[i], chain[i + 1], r).0
    ensures Inv(p', chain, free) && ChainBytes(p', chain) == ChainBytes(p, chain) + Span(r)
  {
    var all := Range(At(p, chain, i).left, r.right);
    if i > 1 {
      assert At(p, chain, i - 1).right + 1 < At(p, chain, i - 1 + 1).left;
    }
    assert Insertable(At(p, chain, i));
    SetRangeKeeps(p, chain, free, i, all, p');
    GrowBytes(p, chain, free, i, all, r, p');
  }

  lemma ExtendLeftKeeps(p: Pool, chain: seq<nat>, free: seq<nat>, i: nat, r: Range, p': Pool)
    requires Inv(p, chain, free) && Fits(p, chain, i, r)
    requires !ConnectsLeft(p, chain[i], r) && ConnectsRight(p, chain[i + 1], r)
    requires p' == Commit(p, chain[i], chain[i + 1], r).0
    ensures Inv(p', chain, free) && ChainBytes(p', chain) == ChainBytes(p, chain) + Span(r)
  {
    var all := Range(r.left, At(p, chain, i + 1).right);
    assert i + 1 < |chain| - 1;
    if i + 1 < |chain| - 2 {
      assert At(p, chain, i + 1).right + 1 < At(p, chain, i + 1 + 1).left;
    }
    assert Insertable(At(p, chain, i + 1));
    SetRangeKeeps(p, chain, free, i + 1, all, p');
    GrowBytes(p, chain, free, i + 1, all, r, p');
  }

  // Which node and which lists a commit ends with.
  lemma CommitOutcome(p: Pool, chain: seq<nat>, free: seq<nat>, i: nat, r: Range, p': Pool, out: Outcome,
                      c': seq<nat>, f': seq<nat>)
    requires Linked(p, chain) && |p.nodes| < EOL && FreeLinked(p, free) && i + 1 < |chain|
    requires (p', out) == Commit(p, chain[i], chain[i + 1], r)
    requires c' == CommitChain(chain, i, out) && f' == CommitFree(free, out)
    ensures var left, right := ConnectsLeft(p, chain[i], r), ConnectsRight(p, chain[i + 1], r);
      if left && right then out == Removed(chain[i + 1]) && c' == Without(chain, i + 1) && f' == free
      else if left || right then out == Grew && c' == chain && f' == free
      else if free == [] then out == NoSpace && p' == p && c' == chain && f' == free
      else
        && out == Added(free[0]) && c' == With(chain, i + 1, free[0]) && f' == free[1..]
        && p' == Link(GetFree(p).0, chain[i], free[0], chain[i + 1], r)
  {
    if free != [] {
      FreeTail(p, free);
    }
  }

  // Main result on a commit: at the right place it keeps the list and adds
  // exactly its range, unless it needs a node and none is free.
  lemma CommitKeeps(p: Pool, chain: seq<nat>, free: seq<nat>, i: nat, r: Range, p': Pool, out: Outcome,
                    c': seq<nat>, f': seq<nat>)
    requires Inv(p, chain, free) && Fits(p, chain, i, r)
    requires (p', out) == Commit(p, chain[i], chain[i + 1], r)
    requires c' == CommitChain(chain, i, out) && f' == CommitFree(free, out)
    ensures Inv(p', c', f')
    ensures ChainBytes(p', c') == ChainBytes(p, chain) + if out.NoSpace? then {} else Span(r)
    ensures out.NoSpace? ==> p' == p && free == []
    ensures out.Added? ==> free != [] && out.node == free[0]
    ensures out.Removed? ==> out.node == chain[i + 1] && p'.marks[out.node]
    ensures out.Removed? ==> out.node !in c' && out.node !in free
  {
    CommitOutcome(p, chain, free, i, r, p', out, c', f');
    if ConnectsLeft(p, chain[i], r) {
      if ConnectsRight(p, chain[i + 1], r) {
        MergeKeeps(p, chain, free, i, r, p', c');
      } else {
        ExtendRightKeeps(p, chain, free, i, r, p');
      }
    } else if ConnectsRight(p, chain[i + 1], r) {
      ExtendLeftKeeps(p, chain, free, i, r, p');
    } else if free != [] {
      AddKeeps(p, chain, free, i, r, p', c');
    }
  }

  // Which commits need a node: those that touch no byte already held.
  lemma ConnectsByBytes(p: Pool, chain: seq<nat>, free: seq<nat>, i: nat, r: Range)
    requires Inv(p, chain, free) && Fits(p, chain, i, r)
    ensures ConnectsLeft(p, chain[i], r) <==> r.left - 1 in ChainBytes(p, chain)
    ensures ConnectsRight(p, chain[i + 1], r) <==> r.right + 1 in ChainBytes(p, chain)
  {
    CoveredIsBytes(p, chain, r.left - 1);
    CoveredIsBytes(p, chain, r.right + 1);
    if ConnectsLeft(p, chain[i], r) {
      assert In(r.left - 1, At(p, chain, i));
    }
    if ConnectsRight(p, chain[i + 1], r) {
      assert In(r.right + 1, At(p, chain, i + 1));
    }
    if k :| 0 < k < |chain| - 1 && In(r.left - 1, At(p, chain, k)) {
      OnlyNeighboursNear(p, chain, i, k, r, r.left - 1);
    }
    if k :| 0 < k < |chain| - 1 && In(r.right + 1, At(p, chain, k)) {
      OnlyNeighboursNear(p, chain, i, k, r, r.right + 1);
    }
  }

  lemma OnlyNeighboursNear(p: Pool, chain: seq<nat>, i: nat, k: nat, r: Range, x: int)
    requires Linked(p, chain) && Sorted(p, chain) && Fits(p, chain, i, r)
    requires 0 < k < |chain| - 1 && In(x, At(p, chain, k)) && r.left - 1 <= x <= r.right + 1
    ensures x == r.left - 1 ==> k == i
    ensures x == r.right + 1 ==> k == i + 1
    ensures Insertable(At(p, chain, k))
  {
    if k < i { InOrder(p, chain, k, i); }
    if i + 1 < k { InOrder(p, chain, i + 1, k); }
  }

  lemma PutFreeLinks(p: Pool, free: seq<nat>, n: nat, p': Pool, free': seq<nat>)
    requires FreeLinked(p, free) && n < |p.nodes| < EOL && n !in free && p' == PutFree(p, n) && free' == [n] + free
    ensures FreeLinked(p', free')
  {
    forall i | 0 <= i < |free'|
      ensures free'[i] < |p'.nodes| && p'.nodes[free'[i]].next == FreeAt(free', i + 1)
    {
      if i > 0 {
        assert free'[i] == free[i - 1] && FreeAt(free', i + 1) == FreeAt(free, i);
      }
    }
  }

  lemma PutKeeps(p: Pool, chain: seq<nat>, free: seq<nat>, n: nat, p': Pool)
    requires Inv(p, chain, free) && n < |p.nodes| && n !in chain && n !in free && p' == PutFree(p, n)
    ensures Inv(p', chain, [n] + free)
    ensures Ranges(p', chain) == Ranges(p, chain) && ChainBytes(p', chain) == ChainBytes(p, chain)
  {
    PutFreeLinks(p, free, n, p', [n] + free);
    assert forall i :: 0 <= i < |chain| ==> At(p', chain, i) == At(p, chain, i);
    assert Ranges(p', chain) == Ranges(p, chain);
  }

  lemma PopKeeps(p: Pool, chain: seq<nat>, free: seq<nat>, p': Pool, c': seq<nat>)
    requires Inv(p, chain, free) && 3 <= |chain|
    requires p' == PopCommit(p, chain[1], chain[2]) && c' == Without(chain, 1)
    ensures Inv(p', c', free) && p'.marks[chain[1]] && chain[1] !in c' && chain[1] !in free
    ensures Ranges(p, chain) == [At(p, chain, 1)] + Ranges(p', c')
    ensures ChainBytes(p', c') == ChainBytes(p, chain) - Span(At(p, chain, 1))
    ensures Span(At(p, chain, 1)) <= ChainBytes(p, chain)
  {
    assert p' == Unlink(p, chain, 0);
    UnlinkKeeps(p, chain, free, 0, p', c');
    UnlinkBytes(p, chain, 0, p', c');
    PopRanges(p, chain, p', c');
  }

  lemma PopRanges(p: Pool, chain: seq<nat>, p': Pool, c': seq<nat>)
    requires Linked(p, chain) && NoDup(chain) && 3 <= |chain|
    requires p' == Unlink(p, chain, 0) && c' == Without(chain, 1)
    ensures Linked(p', c') && Ranges(p, chain) == [At(p, chain, 1)] + Ranges(p', c')
  {
    UnlinkLinks(p, chain, 0, p', c');
    SkipFirstRange(p, chain, p', c');
  }

  lemma SkipFirstRange(p: Pool, chain: seq<nat>, p': Pool, c': seq<nat>)
    requires Linked(p, chain) && Linked(p', c') && 3 <= |chain| && |c'| == |chain| - 1
    requires forall j {:trigger At(p', c', j)} :: 0 < j < |c'| ==> At(p', c', j) == At(p, chain, j + 1)
    ensures Ranges(p, chain) == [At(p, chain, 1)] + Ranges(p', c')
  {
    assert forall j :: 0 <= j < |c'| - 2 ==> Ranges(p', c')[j] == At(p', c', j + 1);
  }

  // ---------- Where an insertion goes ----------

  // find_pred: walk from the i-th node to the last whose right end is before
  // the range.
  function FindFrom(p: Pool, chain: seq<nat>, left: int, i: nat): (k: nat)
    requires Linked(p, chain) && Sorted(p, chain) && left < INT32_MAX
    requires i + 1 < |chain| && At(p, chain, i).right < left
    ensures k + 1 < |chain| && At(p, chain, k).right < left <= At(p, chain, k + 1).right
    decreases |chain| - i
  {
    if At(p, chain, i + 1).right < left then FindFrom(p, chain, left, i + 1) else i
  }

  // The place found overlaps exactly when the list holds a byte of the range.
  lemma FoundFits(p: Pool, chain: seq<nat>, k: nat, r: Range)
    requires Linked(p, chain) && Sorted(p, chain) && Insertable(r)
    requires k + 1 < |chain| && At(p, chain, k).right < r.left <= At(p, chain, k + 1).right
    ensures Fits(p, chain, k, r) <==> ChainBytes(p, chain) !! Span(r)
    ensures Fits(p, chain, k, r) <==> r.right < At(p, chain, k + 1).left
  {
    if r.right < At(p, chain, k + 1).left {
      forall x | In(x, r)
        ensures x !in ChainBytes(p, chain)
      {
        CoveredIsBytes(p, chain, x);
        if j :| 0 < j < |chain| - 1 && In(x, At(p, chain, j)) {
          if j < k { InOrder(p, chain, j, k); }
          if k + 1 < j { InOrder(p, chain, k + 1, j); }
        }
      }
    } else {
      var x := if At(p, chain, k + 1).left < r.left then r.left else At(p, chain, k + 1).left;
      assert k + 1 < |chain| - 1 && In(x, At(p, chain, k + 1));
      CoveredIsBytes(p, chain, x);
      assert x in Span(r) && x in ChainBytes(p, chain);
    }
  }
}
