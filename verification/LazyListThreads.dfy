/** The lazy list shared by any number of threads
    (examples/ooorb/handlers/lazylist.h, lines 158-314, and ooorb_handlers.c):
    find without locks, lock both nodes, validate, change.  A search is one step
    that reads one snapshot, a locked section is one step, and a node is not
    reused while another thread still points to it. */
module LazyListThreads {
  import opened RangeList
  import opened NodePool

  // Where a thread is.
  datatype PC =
    | Idle
    | Inserting(r: Range)                        // before find_pred
    | Found(r: Range, pred: nat, curr: nat)      // between find_pred and the locks
    | Deleting(n: nat)                           // `to_delete` not yet on the free list
    | Popping(e: int)                            // has read the expected byte
    | AtFront(e: int, front: nat, next: nat)     // has read the front of the list
    | Popped(r: Range, n: nat)                   // unlinked `n`, not yet on the free list
    | Publishing(r: Range)                       // next_expected_byte not yet written

  datatype State = State(
    pool: Pool,
    threads: seq<PC>,
    next: int,                 // next_expected_byte
    // history: bytes taken by the list, and popped
    inserted: set<int>, popped: set<int>)

  datatype Event =
    | BeginInsert(t: nat, r: Range)
    | Find(t: nat, path: seq<nat>)   // the nodes find_pred visits
    | Commit(t: nat)
    | Delete(t: nat)
    | BeginPop(t: nat)
    | Look(t: nat)
    | Unlink(t: nat)
    | Release(t: nat)
    | Publish(t: nat)

  predicate PointsTo(pc: PC, n: nat) {
    (pc.Found? && (pc.pred == n || pc.curr == n)) || (pc.AtFront? && (pc.front == n || pc.next == n))
  }

  // The bytes a thread is inserting.
  function Claim(pc: PC): set<int> {
    if pc.Inserting? || pc.Found? then Span(pc.r) else {}
  }

  // The nodes visited by find_pred: it follows the links from the head while
  // the right end is before the range.
  predicate IsWalk(p: Pool, r: Range, path: seq<nat>) {
    && path != [] && path[0] == p.head
    && (forall i :: 0 <= i < |path| ==> path[i] < |p.nodes|)
    && (forall i :: 0 <= i < |path| - 1 ==>
          p.nodes[path[i]].next == path[i + 1] && p.nodes[path[i]].range.right < r.left)
    && p.nodes[path[|path| - 1]].range.right >= r.left
  }

  // The node a commit of `pc` would take from the free list, if it takes one.
  predicate Takes(p: Pool, pc: PC, n: nat) {
    && pc.Found? && pc.pred < |p.nodes| && pc.curr < |p.nodes| && |p.marks| == |p.nodes|
    && Validate(p, pc.pred, pc.curr) && n == p.freeHead != EOL
    && !ConnectsLeft(p, pc.pred, pc.r) && !ConnectsRight(p, pc.curr, pc.r)
  }

  // No overlaps (lazylist.h lines 9-10): a range is disjoint from what the list took and
  // from what other threads are inserting; one that was dropped may come again.  A node is
  // taken only when no other thread points to it.
  predicate Enabled(s: State, e: Event) {
    && e.t < |s.threads|
    && var pc := s.threads[e.t];
       match e
       case BeginInsert(_, r) =>
         && pc.Idle? && Insertable(r) && 0 <= r.left && Span(r) !! s.inserted
         && forall u :: 0 <= u < |s.threads| ==> Span(r) !! Claim(s.threads[u])
       case Find(_, path) => pc.Inserting? && IsWalk(s.pool, pc.r, path)
       case Commit(_) => pc.Found? && forall u :: 0 <= u < |s.threads| && u != e.t ==>
           !(Takes(s.pool, pc, s.pool.freeHead) && PointsTo(s.threads[u], s.pool.freeHead))
       case Delete(_) => pc.Deleting?
       case BeginPop(_) => pc.Idle?
       case Look(_) => pc.Popping?
       case Unlink(_) => pc.AtFront?
       case Release(_) => pc.Popped?
       case Publish(_) => pc.Publishing?
  }

  // Every index the event follows is that of a node.
  predicate InBounds(s: State, e: Event) {
    e.t < |s.threads| && |s.pool.marks| == |s.pool.nodes| && s.pool.head < |s.pool.nodes|
    && var n := |s.pool.nodes|; var pc := s.threads[e.t];
       match e
       case Commit(_) => pc.Found? ==>
         pc.pred < n && pc.curr < n && (s.pool.freeHead != EOL ==> s.pool.freeHead < n)
       case Delete(_) => pc.Deleting? ==> pc.n < n
       case Look(_) => s.pool.nodes[s.pool.head].next < n
       case Unlink(_) => pc.AtFront? ==> pc.front < n && pc.next < n
       case Release(_) => pc.Popped? ==> pc.n < n
       case _ => true
  }

  function Move(s: State, t: nat, pc: PC): State
    requires t < |s.threads|
  {
    s.(threads := s.threads[t := pc])
  }

  function FindStep(s: State, t: nat, path: seq<nat>): State
    requires t < |s.threads| && s.threads[t].Inserting? && IsWalk(s.pool, s.threads[t].r, path)
  {
    var r := s.threads[t].r;
    var curr := path[|path| - 1];
    var pred := if |path| == 1 then curr else path[|path| - 2];
    if s.pool.nodes[curr].range.left <= r.right then Move(s, t, Idle)  // overlap: give up
    else Move(s, t, Found(r, pred, curr))
  }

  function CommitStep(s: State, t: nat): State
    requires t < |s.threads| && s.threads[t].Found? && InBounds(s, Commit(t))
  {
    var Found(r, pred, curr) := s.threads[t];
    if !Validate(s.pool, pred, curr) then Move(s, t, Inserting(r)) else
      var (p, out) := NodePool.Commit(s.pool, pred, curr, r);
      var pc := if out.Removed? then Deleting(out.node) else Idle;
      Move(s, t, pc).(pool := p, inserted := if out.NoSpace? then s.inserted else s.inserted + Span(r))
  }

  function LookStep(s: State, t: nat): State
    requires t < |s.threads| && s.threads[t].Popping? && InBounds(s, Look(t))
  {
    var e := s.threads[t].e;
    var front := s.pool.nodes[s.pool.head].next;
    var left := s.pool.nodes[front].range.left;
    if left == INT32_MAX || left != e then Move(s, t, Idle)
    else Move(s, t, AtFront(e, front, s.pool.nodes[front].next))
  }

  function UnlinkStep(s: State, t: nat): State
    requires t < |s.threads| && s.threads[t].AtFront? && InBounds(s, Unlink(t))
  {
    var AtFront(e, front, next) := s.threads[t];
    var r := s.pool.nodes[front].range;
    if Validate(s.pool, front, next) && r.left == e then
      Move(s, t, Popped(r, front)).(pool := PopCommit(s.pool, front, next), popped := s.popped + Span(r))
    else Move(s, t, Popping(e))
  }

  function Step(s: State, e: Event): State
    requires Enabled(s, e) && InBounds(s, e)
  {
    var pc := s.threads[e.t];
    match e
    case BeginInsert(t, r) => Move(s, t, Inserting(r))
    case Find(t, path) => FindStep(s, t, path)
    case Commit(t) => CommitStep(s, t)
    case Delete(t) => Move(s, t, Idle).(pool := PutFree(s.pool, pc.n))
    case BeginPop(t) => Move(s, t, Popping(s.next))
    case Look(t) => LookStep(s, t)
    case Unlink(t) => UnlinkStep(s, t)
    case Release(t) => Move(s, t, Publishing(pc.r)).(pool := PutFree(s.pool, pc.n))
    case Publish(t) => Move(s, t, Idle).(next := pc.r.right + 1)
  }

  // Runs start with an empty list and idle threads.
  ghost predicate IsStart(s: State, chain: seq<nat>, free: seq<nat>) {
    && NodePool.Inv(s.pool, chain, free) && |chain| == 2
    && (forall t :: 0 <= t < |s.threads| ==> s.threads[t].Idle?)
    && s.next == 0 && s.inserted == {} && s.popped == {}
  }

  ghost predicate IsRun(run: seq<State>, es: seq<Event>, chain: seq<nat>, free: seq<nat>) {
    && |run| == |es| + 1 && IsStart(run[0], chain, free)
    && forall i :: 0 <= i < |es| ==>
         Enabled(run[i], es[i]) && (InBounds(run[i], es[i]) ==> run[i + 1] == Step(run[i], es[i]))
  }

  // ---------- The invariant ----------

  // Only nodes off the chain are marked, and a pointer never leads to a node
  // that was recycled since.
  predicate PtrOk(p: Pool, chain: seq<nat>, n: nat) {
    n < |p.nodes| == |p.marks| && (n in chain || p.marks[n])
  }

  predicate LimboOk(p: Pool, chain: seq<nat>, free: seq<nat>, n: nat) {
    n < |p.nodes| == |p.marks| && p.marks[n] && n !in chain && n !in free
  }

  predicate RangeOk(r: Range, inserted: set<int>) {
    Insertable(r) && 0 <= r.left && Span(r) !! inserted
  }

  ghost predicate PoppedUpTo(popped: set<int>, hi: int) {
    forall x :: x in popped <==> 0 <= x < hi
  }

  ghost predicate PcOk(pc: PC, s: State, chain: seq<nat>, free: seq<nat>) {
    var p := s.pool;
    match pc
    case Idle => true
    case Inserting(r) => RangeOk(r, s.inserted)
    case Found(r, pred, curr) =>
      && RangeOk(r, s.inserted) && PtrOk(p, chain, pred) && PtrOk(p, chain, curr)
      && (pred in chain ==> p.nodes[pred].range.right < r.left)
      && (curr in chain ==> r.right < p.nodes[curr].range.left)
    case Deleting(n) => LimboOk(p, chain, free, n)
    case Popping(e) => 0 <= e <= s.next
    case AtFront(e, front, next) =>
      && 0 <= e <= s.next && PtrOk(p, chain, front) && PtrOk(p, chain, next)
      && front != p.head && (front in chain ==> p.nodes[front].range.left < INT32_MAX)
    case Popped(r, n) => LimboOk(p, chain, free, n) && OutOk(r, s)
    case Publishing(r) => OutOk(r, s)
  }

  // A range popped and not yet published starts at the expected byte, and
  // everything up to its end has been popped.
  ghost predicate OutOk(r: Range, s: State) {
    Insertable(r) && r.left == s.next && PoppedUpTo(s.popped, r.right + 1)
  }

  function Limbo(pc: PC): set<nat> {
    if pc.Deleting? || pc.Popped? then {pc.n} else {}
  }

  predicate IsOut(pc: PC) { pc.Popped? || pc.Publishing? }

  predicate Compatible(a: PC, b: PC) {
    Claim(a) !! Claim(b) && Limbo(a) !! Limbo(b) && !(IsOut(a) && IsOut(b))
  }

  predicate AllCompatible(ts: seq<PC>) {
    forall t, u :: 0 <= t < u < |ts| ==> Compatible(ts[t], ts[u])
  }

  ghost predicate Shared(s: State, chain: seq<nat>, free: seq<nat>) {
    && NodePool.Inv(s.pool, chain, free)
    && ChainBytes(s.pool, chain) == s.inserted - s.popped
    && s.popped <= s.inserted && (forall x :: x in s.inserted ==> 0 <= x)
    && 0 <= s.next <= INT32_MAX
    && ((forall t :: 0 <= t < |s.threads| ==> !IsOut(s.threads[t])) ==> PoppedUpTo(s.popped, s.next))
  }

  ghost predicate Inv(s: State, chain: seq<nat>, free: seq<nat>) {
    && Shared(s, chain, free)
    && (forall t :: 0 <= t < |s.threads| ==> PcOk(s.threads[t], s, chain, free))
    && AllCompatible(s.threads)
  }

  // ---------- What a step does to the pool, for the other threads ----------

  predicate Wider(a: Range, b: Range) { b.left <= a.left && a.right <= b.right }

  // Nodes of the chain stay with at least their range, or leave it marked; of
  // the others only `added` come back and only `released` become free.
  ghost predicate Evolves(p: Pool, chain: seq<nat>, free: seq<nat>, p': Pool, chain': seq<nat>, free': seq<nat>,
                          added: set<nat>, released: set<nat>) {
    && |p.marks| == |p.nodes| == |p'.nodes| == |p'.marks| && p'.head == p.head
    && (forall n :: n in chain && n < |p.nodes| ==>
          if n in chain' then Wider(p.nodes[n].range, p'.nodes[n].range) else p'.marks[n])
    && (forall n :: 0 <= n < |p.nodes| && n !in chain && n !in added ==> n !in chain')
    && (forall n :: 0 <= n < |p.nodes| && n !in chain && n !in added && p.marks[n] ==> p'.marks[n])
    && (forall n :: 0 <= n < |p.nodes| && n !in chain && n !in free && n !in released ==> n !in free')
    && (forall n :: n in added ==> n in free)
  }

  // The bytes of a node of the chain are held by the list, unless it is a sentinel.
  lemma NodeBytes(p: Pool, chain: seq<nat>, n: nat)
    requires Linked(p, chain) && Sorted(p, chain) && n in chain
    ensures n < |p.nodes|
    ensures || p.nodes[n].range == Range(INT32_MIN, INT32_MIN)
            || p.nodes[n].range == Range(INT32_MAX, INT32_MAX)
            || (Insertable(p.nodes[n].range) && Span(p.nodes[n].range) <= ChainBytes(p, chain))
  {
    var k :| 0 <= k < |chain| && chain[k] == n;
    var r := NodePool.At(p, chain, k);
    assert k == 0 || k == |chain| - 1 || Insertable(r);
    if 0 < k < |chain| - 1 {
      forall x | x in Span(r)
        ensures x in ChainBytes(p, chain)
      {
        assert In(x, NodePool.At(p, chain, k));
        CoveredIsBytes(p, chain, x);
      }
    }
  }

  // A node found on one side of a range stays on that side: it can only have
  // grown by bytes of other ranges.
  lemma StaysBeside(p: Pool, chain: seq<nat>, n: nat, was: Range, r: Range)
    requires Linked(p, chain) && Sorted(p, chain) && n in chain && n < |p.nodes|
    requires Wider(was, p.nodes[n].range) && was.left <= was.right && Insertable(r)
    requires ChainBytes(p, chain) !! Span(r)
    ensures was.right < r.left ==> p.nodes[n].range.right < r.left
    ensures r.right < was.left ==> r.right < p.nodes[n].range.left
  {
    NodeBytes(p, chain, n);
    assert In(r.left, r) && r.left in Span(r) && r.right in Span(r);
    if Span(p.nodes[n].range) <= ChainBytes(p, chain) {
      assert r.left !in Span(p.nodes[n].range) && r.right !in Span(p.nodes[n].range);
    }
  }

  lemma PtrKeeps(p: Pool, chain: seq<nat>, free: seq<nat>, p': Pool, chain': seq<nat>, free': seq<nat>,
                 added: set<nat>, released: set<nat>, n: nat)
    requires Evolves(p, chain, free, p', chain', free', added, released) && PtrOk(p, chain, n) && n !in added
    ensures PtrOk(p', chain', n)
    ensures n in chain' ==> n in chain && Wider(p.nodes[n].range, p'.nodes[n].range)
  {}

  lemma ChainOrdered(p: Pool, chain: seq<nat>, n: nat)
    requires Linked(p, chain) && Sorted(p, chain) && n in chain
    ensures n < |p.nodes| && p.nodes[n].range.left <= p.nodes[n].range.right
  {
    NodeBytes(p, chain, n);
  }

  lemma FoundKeeps(pc: PC, s: State, chain: seq<nat>, free: seq<nat>, s': State, chain': seq<nat>, free': seq<nat>,
                   added: set<nat>, released: set<nat>)
    requires pc.Found? && PcOk(pc, s, chain, free)
    requires Linked(s.pool, chain) && Sorted(s.pool, chain)
    requires Evolves(s.pool, chain, free, s'.pool, chain', free', added, released)
    requires Linked(s'.pool, chain') && Sorted(s'.pool, chain')
    requires forall n :: n in added ==> !PointsTo(pc, n)
    requires Claim(pc) !! s'.inserted && ChainBytes(s'.pool, chain') <= s'.inserted
    ensures PcOk(pc, s', chain', free')
  {
    var Found(r, pred, curr) := pc;
    assert PointsTo(pc, pred) && PointsTo(pc, curr);
    PtrKeeps(s.pool, chain, free, s'.pool, chain', free', added, released, pred);
    PtrKeeps(s.pool, chain, free, s'.pool, chain', free', added, released, curr);
    if pred in chain' {
      ChainOrdered(s.pool, chain, pred);
      StaysBeside(s'.pool, chain', pred, s.pool.nodes[pred].range, r);
    }
    if curr in chain' {
      ChainOrdered(s.pool, chain, curr);
      StaysBeside(s'.pool, chain', curr, s.pool.nodes[curr].range, r);
    }
  }

  // The state of a thread that does not move stays good.
  lemma OtherKeeps(pc: PC, s: State, chain: seq<nat>, free: seq<nat>, s': State, chain': seq<nat>, free': seq<nat>,
                   added: set<nat>, released: set<nat>)
    requires PcOk(pc, s, chain, free)
    requires Linked(s.pool, chain) && Sorted(s.pool, chain)
    requires Evolves(s.pool, chain, free, s'.pool, chain', free', added, released)
    requires Linked(s'.pool, chain') && Sorted(s'.pool, chain')
    requires forall n :: n in added ==> !PointsTo(pc, n)
    requires Limbo(pc) !! released
    requires Claim(pc) !! s'.inserted && ChainBytes(s'.pool, chain') <= s'.inserted
    requires s.next <= s'.next && (IsOut(pc) ==> s'.next == s.next && s'.popped == s.popped)
    ensures PcOk(pc, s', chain', free')
  {
    match pc {
      case Idle =>
      case Inserting(r) =>
      case Found(_, _, _) => FoundKeeps(pc, s, chain, free, s', chain', free', added, released);
      case Deleting(n) => assert n in Limbo(pc);
      case Popping(e) =>
      case AtFront(e, front, next) =>
        assert PointsTo(pc, front) && PointsTo(pc, next);
        PtrKeeps(s.pool, chain, free, s'.pool, chain', free', added, released, front);
        PtrKeeps(s.pool, chain, free, s'.pool, chain', free', added, released, next);
      case Popped(r, n) => assert n in Limbo(pc);
      case Publishing(r) =>
    }
  }

  lemma MoveCompatible(ts: seq<PC>, t: nat, pc: PC)
    requires AllCompatible(ts) && t < |ts|
    requires forall u :: 0 <= u < |ts| && u != t ==> Compatible(pc, ts[u])
    ensures AllCompatible(ts[t := pc])
  {
    var ts' := ts[t := pc];
    forall u, v | 0 <= u < v < |ts'|
      ensures Compatible(ts'[u], ts'[v])
    {
      if u == t {
        assert Compatible(pc, ts[v]);
      } else if v == t {
        assert Compatible(pc, ts[u]);
      }
    }
  }
}
