/** Every step of the shared lazy list keeps its invariant, and what that means
    for every run. */
module LazyListRuns {
  import opened RangeList
  import opened NodePool
  import opened LazyListThreads

  // What the step of thread `t` must leave to the others.
  predicate OtherOk(pc: PC, s: State, s': State, pc': PC, added: set<nat>, released: set<nat>) {
    && Compatible(pc', pc)
    && (forall n :: n in added ==> !PointsTo(pc, n))
    && Limbo(pc) !! released && Claim(pc) !! s'.inserted
    && (IsOut(pc) ==> s'.next == s.next && s'.popped == s.popped)
  }

  predicate OthersOk(s: State, s': State, t: nat, pc': PC, added: set<nat>, released: set<nat>) {
    forall u :: 0 <= u < |s.threads| && u != t ==> OtherOk(s.threads[u], s, s', pc', added, released)
  }

  // Put a step together: the thread that moved, and the others.
  lemma Assemble(s: State, s': State, t: nat, pc': PC, chain: seq<nat>, free: seq<nat>,
                 chain': seq<nat>, free': seq<nat>, added: set<nat>, released: set<nat>)
    requires LazyListThreads.Inv(s, chain, free) && t < |s.threads| && s'.threads == s.threads[t := pc']
    requires Evolves(s.pool, chain, free, s'.pool, chain', free', added, released)
    requires Shared(s', chain', free') && PcOk(pc', s', chain', free')
    requires s.next <= s'.next
    requires OthersOk(s, s', t, pc', added, released)
    ensures LazyListThreads.Inv(s', chain', free')
  {
    forall u | 0 <= u < |s.threads| && u != t
      ensures Compatible(pc', s.threads[u])
    {
      assert OtherOk(s.threads[u], s, s', pc', added, released);
    }
    MoveCompatible(s.threads, t, pc');
    forall u | 0 <= u < |s'.threads|
      ensures PcOk(s'.threads[u], s', chain', free')
    {
      if u != t {
        assert OtherOk(s.threads[u], s, s', pc', added, released);
        OtherKeeps(s.threads[u], s, chain, free, s', chain', free', added, released);
      }
    }
  }

  lemma OthersAreCompatible(s: State, chain: seq<nat>, free: seq<nat>, t: nat, u: nat)
    requires LazyListThreads.Inv(s, chain, free) && t < |s.threads| && u < |s.threads| && u != t
    ensures Compatible(s.threads[t], s.threads[u])
    ensures Claim(s.threads[u]) !! s.inserted
  {
    assert PcOk(s.threads[u], s, chain, free);
    if t < u {
      assert Compatible(s.threads[t], s.threads[u]);
    } else {
      assert Compatible(s.threads[u], s.threads[t]);
    }
  }

  // A step that leaves the pool alone.
  lemma Still(s: State, s': State, t: nat, pc': PC, chain: seq<nat>, free: seq<nat>)
    requires LazyListThreads.Inv(s, chain, free) && t < |s.threads|
    requires s' == s.(threads := s.threads[t := pc'])
    requires PcOk(pc', s', chain, free)
    requires IsOut(pc') == IsOut(s.threads[t]) && Limbo(pc') <= Limbo(s.threads[t])
    requires forall u :: 0 <= u < |s.threads| && u != t ==> Claim(pc') !! Claim(s.threads[u])
    ensures LazyListThreads.Inv(s', chain, free)
  {
    forall u | 0 <= u < |s.threads| && u != t
      ensures OtherOk(s.threads[u], s, s', pc', {}, {})
    {
      OthersAreCompatible(s, chain, free, t, u);
    }
    SharedStill(s, s', t, pc', chain, free);
    Assemble(s, s', t, pc', chain, free, chain, free, {}, {});
  }

  lemma SharedStill(s: State, s': State, t: nat, pc': PC, chain: seq<nat>, free: seq<nat>)
    requires Shared(s, chain, free) && t < |s.threads|
    requires s' == s.(threads := s.threads[t := pc'])
    requires IsOut(pc') == IsOut(s.threads[t])
    ensures Shared(s', chain, free)
  {
    if forall u :: 0 <= u < |s'.threads| ==> !IsOut(s'.threads[u]) {
      assert !IsOut(s'.threads[t]);
      NobodyWasOut(s.threads, t, pc', s'.threads);
    }
  }

  lemma BeginInsertKeeps(s: State, t: nat, r: Range, chain: seq<nat>, free: seq<nat>)
    requires LazyListThreads.Inv(s, chain, free) && Enabled(s, BeginInsert(t, r))
    requires InBounds(s, BeginInsert(t, r))
    ensures LazyListThreads.Inv(Step(s, BeginInsert(t, r)), chain, free)
  {
    var s' := Step(s, BeginInsert(t, r));
    forall u | 0 <= u < |s.threads| && u != t
      ensures Claim(Inserting(r)) !! Claim(s.threads[u])
    {
      OthersAreCompatible(s, chain, free, t, u);
    }
    Still(s, s', t, Inserting(r), chain, free);
  }

  // ---------- find_pred ----------

  // The walk of find_pred is a prefix of the chain.
  lemma {:induction false} WalkIsPrefix(p: Pool, chain: seq<nat>, r: Range, path: seq<nat>, i: nat)
    requires Linked(p, chain) && Sorted(p, chain) && Insertable(r) && IsWalk(p, r, path) && i < |path|
    ensures i < |chain| && path[i] == chain[i]
    decreases i
  {
    if i > 0 {
      WalkIsPrefix(p, chain, r, path, i - 1);
      assert p.nodes[path[i - 1]].range.right < r.left;
      assert NodePool.At(p, chain, i - 1).right < r.left;
      assert path[i - 1 + 1] == path[i];
    }
  }

  // ... and there always is one.
  lemma WalkExists(p: Pool, chain: seq<nat>, r: Range) returns (path: seq<nat>)
    requires Linked(p, chain) && Sorted(p, chain) && Insertable(r)
    ensures IsWalk(p, r, path)
  {
    var k := FindFrom(p, chain, r.left, 0);
    path := chain[..k + 2];
    forall i | 0 <= i < |path| - 1
      ensures p.nodes[path[i]].next == path[i + 1] && p.nodes[path[i]].range.right < r.left
    {
      assert p.nodes[chain[i]].next == chain[i + 1];
      if i < k {
        InOrder(p, chain, i, k);
        ChainOrdered(p, chain, chain[k]);
      }
      assert NodePool.At(p, chain, i).right < r.left;
    }
  }

  // find_pred never meets an overlap, and what it finds fits.
  lemma FindKeeps(s: State, t: nat, path: seq<nat>, chain: seq<nat>, free: seq<nat>)
    requires LazyListThreads.Inv(s, chain, free) && Enabled(s, Find(t, path))
    ensures FindStep(s, t, path).threads[t].Found?
    ensures LazyListThreads.Inv(FindStep(s, t, path), chain, free)
  {
    var r := s.threads[t].r;
    assert PcOk(s.threads[t], s, chain, free);
    var k := |path| - 1;
    WalkIsPrefix(s.pool, chain, r, path, k);
    assert k > 0;
    WalkIsPrefix(s.pool, chain, r, path, k - 1);
    assert NodePool.At(s.pool, chain, k - 1).right < r.left;
    FoundFits(s.pool, chain, k - 1, r);
    var s' := FindStep(s, t, path);
    var pc' := Found(r, chain[k - 1], chain[k]);
    assert s' == Move(s, t, pc');
    forall u | 0 <= u < |s.threads| && u != t
      ensures Claim(pc') !! Claim(s.threads[u])
    {
      OthersAreCompatible(s, chain, free, t, u);
    }
    Still(s, s', t, pc', chain, free);
  }

  // ---------- The locked section of lazylist_insert ----------

  lemma WithoutIn(s: seq<nat>, i: nat, n: nat)
    requires i < |s| && NoDup(s)
    ensures n in Without(s, i) <==> n in s && n != s[i]
  {
    WithoutAt(s, i);
    if n in s {
      var j :| 0 <= j < |s| && s[j] == n;
      if j < i {
        assert Without(s, i)[j] == n;
      } else if j > i {
        assert Without(s, i)[j - 1] == n;
      }
    }
  }

  lemma WithIn(s: seq<nat>, i: nat, m: nat, n: nat)
    requires i <= |s|
    ensures n in With(s, i, m) <==> n in s || n == m
  {
    assert s == s[..i] + s[i..];
  }

  lemma CommitChainIn(chain: seq<nat>, i: nat, out: Outcome, n: nat)
    requires i + 1 < |chain| && NoDup(chain) && (out.Removed? ==> out.node == chain[i + 1])
    ensures n in CommitChain(chain, i, out) <==>
      if out.Removed? then n in chain && n != out.node else n in chain || (out.Added? && n == out.node)
  {
    match out {
      case Removed(_) => WithoutIn(chain, i + 1, n);
      case Added(m) => WithIn(chain, i + 1, m, n);
      case _ =>
    }
  }

  function AddedBy(out: Outcome): set<nat> { if out.Added? then {out.node} else {} }

  // What a commit does to the nodes and the marks.
  lemma CommitNodes(p: Pool, chain: seq<nat>, i: nat, r: Range, p': Pool, out: Outcome, left: Range, right: Range)
    requires Linked(p, chain) && i + 1 < |chain| && (p.freeHead != EOL ==> p.freeHead < |p.nodes|)
    requires left == At(p, chain, i) && right == At(p, chain, i + 1)
    requires left.right < r.left <= r.right < right.left <= right.right
    requires (p', out) == NodePool.Commit(p, chain[i], chain[i + 1], r)
    ensures |p'.nodes| == |p.nodes| && |p'.marks| == |p.marks| && p'.head == p.head
    ensures forall n :: 0 <= n < |p.nodes| && n !in AddedBy(out) ==> Wider(p.nodes[n].range, p'.nodes[n].range)
    ensures forall n :: 0 <= n < |p.nodes| && n !in AddedBy(out) && p.marks[n] ==> p'.marks[n]
    ensures out.Removed? ==> out.node == chain[i + 1] && p'.marks[chain[i + 1]]
  {}

  lemma CommitEvolves(p: Pool, chain: seq<nat>, free: seq<nat>, i: nat, r: Range, p': Pool, out: Outcome,
                      chain': seq<nat>, free': seq<nat>)
    requires NodePool.Inv(p, chain, free) && Fits(p, chain, i, r)
    requires (p', out) == NodePool.Commit(p, chain[i], chain[i + 1], r)
    requires chain' == CommitChain(chain, i, out) && free' == CommitFree(free, out)
    requires out.Added? ==> free != [] && out.node == free[0]
    ensures Evolves(p, chain, free, p', chain', free', AddedBy(out), {})
  {
    InOrder(p, chain, i, i + 1);
    ChainOrdered(p, chain, chain[i]);
    ChainOrdered(p, chain, chain[i + 1]);
    HeadsInBounds(p, chain, free);
    CommitNodes(p, chain, i, r, p', out, At(p, chain, i), At(p, chain, i + 1));
    forall n | 0 <= n < |p.nodes|
      ensures n !in chain && n !in AddedBy(out) ==> n !in chain'
      ensures n in chain && n !in chain' ==> p'.marks[n]
    {
      CommitChainIn(chain, i, out, n);
    }
  }

  // Validation under the locks: the place found earlier is still right.
  lemma ValidatedPlace(s: State, t: nat, chain: seq<nat>, free: seq<nat>) returns (i: nat)
    requires LazyListThreads.Inv(s, chain, free) && t < |s.threads| && s.threads[t].Found?
    requires s.threads[t].pred < |s.pool.nodes| && s.threads[t].curr < |s.pool.nodes|
    requires Validate(s.pool, s.threads[t].pred, s.threads[t].curr)
    ensures i + 1 < |chain| && s.threads[t].pred == chain[i] && s.threads[t].curr == chain[i + 1]
    ensures Fits(s.pool, chain, i, s.threads[t].r)
  {
    var Found(r, pred, curr) := s.threads[t];
    assert PcOk(s.threads[t], s, chain, free);
    i :| 0 <= i < |chain| && chain[i] == pred;
    assert NodePool.At(s.pool, chain, i).right < r.left;
    assert i < |chain| - 1;
    assert chain[i + 1] == curr;
  }

  lemma CommitKeepsAll(s: State, t: nat, chain: seq<nat>, free: seq<nat>)
    returns (chain': seq<nat>, free': seq<nat>)
    requires LazyListThreads.Inv(s, chain, free) && Enabled(s, LazyListThreads.Commit(t))
    ensures InBounds(s, LazyListThreads.Commit(t))
    ensures LazyListThreads.Inv(CommitStep(s, t), chain', free')
  {
    chain', free' := chain, free;
    var Found(r, pred, curr) := s.threads[t];
    assert PcOk(s.threads[t], s, chain, free);
    HeadsInBounds(s.pool, chain, free);
    if !Validate(s.pool, pred, curr) {
      forall u | 0 <= u < |s.threads| && u != t
        ensures Claim(Inserting(r)) !! Claim(s.threads[u])
      {
        OthersAreCompatible(s, chain, free, t, u);
      }
      Still(s, CommitStep(s, t), t, Inserting(r), chain, free);
    } else {
      var i := ValidatedPlace(s, t, chain, free);
      chain', free' := CommitSucceeds(s, t, chain, free, i);
    }
  }

  lemma HeadsInBounds(p: Pool, chain: seq<nat>, free: seq<nat>)
    requires NodePool.Inv(p, chain, free)
    ensures p.freeHead != EOL ==> free != [] && p.freeHead == free[0] < |p.nodes|
    ensures p.head == chain[0] < |p.nodes| == |p.marks| && p.nodes[p.head].next == chain[1] < |p.nodes|
  {}

  lemma NobodyWasOut(ts: seq<PC>, t: nat, pc': PC, ts': seq<PC>)
    requires t < |ts| && !IsOut(ts[t])
    requires ts' == ts[t := pc'] && forall u :: 0 <= u < |ts'| ==> !IsOut(ts'[u])
    ensures forall u :: 0 <= u < |ts| ==> !IsOut(ts[u])
  {
    assert forall u :: 0 <= u < |ts| && u != t ==> ts[u] == ts'[u];
  }

  lemma CommitShared(s: State, t: nat, pc': PC, chain: seq<nat>, free: seq<nat>, i: nat, r: Range,
                     p': Pool, out: Outcome, s': State, chain': seq<nat>, free': seq<nat>)
    requires Shared(s, chain, free) && t < |s.threads| && !IsOut(s.threads[t]) && Fits(s.pool, chain, i, r)
    requires RangeOk(r, s.inserted)
    requires (p', out) == NodePool.Commit(s.pool, chain[i], chain[i + 1], r)
    requires chain' == CommitChain(chain, i, out) && free' == CommitFree(free, out)
    requires s'.pool == p' && s'.inserted == s.inserted + (if out.NoSpace? then {} else Span(r))
    requires s'.popped == s.popped && s'.next == s.next
    requires s'.threads == s.threads[t := pc']
    ensures Shared(s', chain', free')
  {
    CommitKeeps(s.pool, chain, free, i, r, p', out, chain', free');
    if forall u :: 0 <= u < |s'.threads| ==> !IsOut(s'.threads[u]) {
      NobodyWasOut(s.threads, t, pc', s'.threads);
    }
  }

  // What a commit means for the other threads.
  lemma CommitOthers(s: State, t: nat, chain: seq<nat>, free: seq<nat>, i: nat, pc: PC, pc': PC,
                     out: Outcome, s': State)
    requires LazyListThreads.Inv(s, chain, free) && Enabled(s, LazyListThreads.Commit(t)) && pc == s.threads[t]
    requires out.Removed? ==> i + 1 < |chain| && out.node == chain[i + 1]
    requires out.Added? ==> Takes(s.pool, pc, s.pool.freeHead) && out.node == s.pool.freeHead
    requires pc' == if out.Removed? then Deleting(out.node) else Idle
    requires s'.inserted <= s.inserted + Span(pc.r) && s'.next == s.next && s'.popped == s.popped
    ensures OthersOk(s, s', t, pc', AddedBy(out), {})
  {
    forall u | 0 <= u < |s.threads| && u != t
      ensures OtherOk(s.threads[u], s, s', pc', AddedBy(out), {})
    {
      OthersAreCompatible(s, chain, free, t, u);
      LimboIsOffChain(s, chain, free, u);
    }
  }

  lemma CommitTakes(p: Pool, chain: seq<nat>, i: nat, pc: PC, p': Pool, out: Outcome)
    requires Linked(p, chain) && pc.Found? && i + 1 < |chain| && pc.pred == chain[i] && pc.curr == chain[i + 1]
    requires p.freeHead != EOL ==> p.freeHead < |p.nodes|
    requires Validate(p, chain[i], chain[i + 1])
    requires (p', out) == NodePool.Commit(p, chain[i], chain[i + 1], pc.r)
    ensures out.Added? ==> Takes(p, pc, p.freeHead) && out.node == p.freeHead
  {}

  lemma CommitPool(p: Pool, chain: seq<nat>, free: seq<nat>, i: nat, pc: PC, p': Pool, out: Outcome,
                   chain': seq<nat>, free': seq<nat>)
    requires NodePool.Inv(p, chain, free) && pc.Found? && Fits(p, chain, i, pc.r)
    requires pc.pred == chain[i] && pc.curr == chain[i + 1] && Validate(p, chain[i], chain[i + 1])
    requires (p', out) == NodePool.Commit(p, chain[i], chain[i + 1], pc.r)
    requires chain' == CommitChain(chain, i, out) && free' == CommitFree(free, out)
    ensures out.Removed? ==> out.node == chain[i + 1] && LimboOk(p', chain', free', out.node)
    ensures out.Added? ==> Takes(p, pc, p.freeHead) && out.node == p.freeHead
    ensures Evolves(p, chain, free, p', chain', free', AddedBy(out), {})
  {
    HeadsInBounds(p, chain, free);
    CommitKeeps(p, chain, free, i, pc.r, p', out, chain', free');
    CommitEvolves(p, chain, free, i, pc.r, p', out, chain', free');
    CommitTakes(p, chain, i, pc, p', out);
  }

  // The state a successful commit leaves, field by field.
  predicate Committed(s: State, t: nat, pc: PC, p': Pool, out: Outcome, pc': PC, s': State)
    requires t < |s.threads| && pc.Found?
  {
    && pc == s.threads[t] && pc' == (if out.Removed? then Deleting(out.node) else Idle)
    && s'.pool == p' && s'.threads == s.threads[t := pc'] && s'.next == s.next && s'.popped == s.popped
    && s'.inserted == s.inserted + if out.NoSpace? then {} else Span(pc.r)
  }

  lemma CommitTogether(s: State, t: nat, chain: seq<nat>, free: seq<nat>, i: nat, pc: PC, p': Pool, out: Outcome,
                       pc': PC, s': State, chain': seq<nat>, free': seq<nat>)
    requires LazyListThreads.Inv(s, chain, free) && Enabled(s, LazyListThreads.Commit(t))
    requires pc.Found? && Committed(s, t, pc, p', out, pc', s') && PcOk(pc, s, chain, free)
    requires i + 1 < |chain| && pc.pred == chain[i] && pc.curr == chain[i + 1]
    requires Validate(s.pool, chain[i], chain[i + 1]) && Fits(s.pool, chain, i, pc.r)
    requires (p', out) == NodePool.Commit(s.pool, chain[i], chain[i + 1], pc.r)
    requires chain' == CommitChain(chain, i, out) && free' == CommitFree(free, out)
    ensures LazyListThreads.Inv(s', chain', free')
  {
    CommitPool(s.pool, chain, free, i, pc, p', out, chain', free');
    CommitShared(s, t, pc', chain, free, i, pc.r, p', out, s', chain', free');
    CommitOthers(s, t, chain, free, i, pc, pc', out, s');
    Assemble(s, s', t, pc', chain, free, chain', free', AddedBy(out), {});
  }

  lemma CommitSucceeds(s: State, t: nat, chain: seq<nat>, free: seq<nat>, i: nat)
    returns (chain': seq<nat>, free': seq<nat>)
    requires LazyListThreads.Inv(s, chain, free) && Enabled(s, LazyListThreads.Commit(t))
    requires InBounds(s, LazyListThreads.Commit(t))
    requires i + 1 < |chain| && s.threads[t].pred == chain[i] && s.threads[t].curr == chain[i + 1]
    requires Validate(s.pool, chain[i], chain[i + 1]) && Fits(s.pool, chain, i, s.threads[t].r)
    ensures LazyListThreads.Inv(CommitStep(s, t), chain', free')
  {
    var pc, s' := s.threads[t], CommitStep(s, t);
    assert PcOk(pc, s, chain, free);
    var (p', out) := NodePool.Commit(s.pool, chain[i], chain[i + 1], pc.r);
    chain', free' := CommitChain(chain, i, out), CommitFree(free, out);
    CommitTogether(s, t, chain, free, i, pc, p', out, s'.threads[t], s', chain', free');
  }

  lemma LimboIsOffChain(s: State, chain: seq<nat>, free: seq<nat>, u: nat)
    requires LazyListThreads.Inv(s, chain, free) && u < |s.threads|
    ensures forall n :: n in Limbo(s.threads[u]) ==> n !in chain && n !in free
  {
    assert PcOk(s.threads[u], s, chain, free);
  }

  // ---------- Giving a node back ----------

  lemma PutEvolves(p: Pool, chain: seq<nat>, free: seq<nat>, n: nat, p': Pool)
    requires NodePool.Inv(p, chain, free) && LimboOk(p, chain, free, n) && p' == PutFree(p, n)
    ensures NodePool.Inv(p', chain, [n] + free) && ChainBytes(p', chain) == ChainBytes(p, chain)
    ensures Evolves(p, chain, free, p', chain, [n] + free, {}, {n})
  {
    PutKeeps(p, chain, free, n, p');
  }

  lemma PutShared(s: State, t: nat, pc': PC, chain: seq<nat>, free: seq<nat>, n: nat, s': State)
    requires Shared(s, chain, free) && LimboOk(s.pool, chain, free, n) && t < |s.threads|
    requires s' == s.(pool := PutFree(s.pool, n), threads := s.threads[t := pc'])
    requires IsOut(pc') == IsOut(s.threads[t])
    ensures Shared(s', chain, [n] + free)
  {
    PutEvolves(s.pool, chain, free, n, s'.pool);
    if forall u :: 0 <= u < |s'.threads| ==> !IsOut(s'.threads[u]) {
      assert !IsOut(s'.threads[t]);
      NobodyWasOut(s.threads, t, pc', s'.threads);
    }
  }

  lemma PutOthers(s: State, t: nat, pc': PC, chain: seq<nat>, free: seq<nat>, n: nat, s': State)
    requires LazyListThreads.Inv(s, chain, free) && t < |s.threads| && n in Limbo(s.threads[t])
    requires s' == s.(pool := PutFree(s.pool, n), threads := s.threads[t := pc']) && n < |s.pool.nodes|
    requires Claim(pc') == {} && Limbo(pc') == {} && IsOut(pc') == IsOut(s.threads[t])
    ensures OthersOk(s, s', t, pc', {}, {n})
  {
    forall u | 0 <= u < |s.threads| && u != t
      ensures OtherOk(s.threads[u], s, s', pc', {}, {n})
    {
      OthersAreCompatible(s, chain, free, t, u);
    }
  }

  // Delete and Release
  lemma PutKeepsAll(s: State, t: nat, pc': PC, chain: seq<nat>, free: seq<nat>, n: nat, s': State)
    requires LazyListThreads.Inv(s, chain, free) && t < |s.threads|
    requires (s.threads[t].Deleting? && pc' == Idle) || (s.threads[t].Popped? && pc' == Publishing(s.threads[t].r))
    requires n == s.threads[t].n
    requires n < |s.pool.nodes|
    requires s' == s.(pool := PutFree(s.pool, n), threads := s.threads[t := pc'])
    ensures LazyListThreads.Inv(s', chain, [n] + free)
  {
    assert PcOk(s.threads[t], s, chain, free);
    PutEvolves(s.pool, chain, free, n, s'.pool);
    PutShared(s, t, pc', chain, free, n, s');
    PutOthers(s, t, pc', chain, free, n, s');
    Assemble(s, s', t, pc', chain, free, chain, [n] + free, {}, {n});
  }

  // ---------- lazylist_pop_front ----------

  // BeginPop, Look, and an Unlink whose validation fails
  lemma PopMoveKeeps(s: State, t: nat, pc': PC, chain: seq<nat>, free: seq<nat>)
    requires LazyListThreads.Inv(s, chain, free) && t < |s.threads|
    requires s.threads[t].Idle? || s.threads[t].Popping? || s.threads[t].AtFront?
    requires pc'.Idle? || pc'.Popping? || pc'.AtFront?
    requires PcOk(pc', s, chain, free)
    ensures LazyListThreads.Inv(Move(s, t, pc'), chain, free)
  {
    assert Claim(pc') == {};
    Still(s, Move(s, t, pc'), t, pc', chain, free);
  }

  lemma LookKeeps(s: State, t: nat, chain: seq<nat>, free: seq<nat>)
    requires LazyListThreads.Inv(s, chain, free) && Enabled(s, Look(t))
    ensures InBounds(s, Look(t)) && LazyListThreads.Inv(LookStep(s, t), chain, free)
  {
    assert PcOk(s.threads[t], s, chain, free);
    HeadsInBounds(s.pool, chain, free);
    var front := chain[1];
    if s.pool.nodes[front].range.left < INT32_MAX {
      assert |chain| > 2;
      assert s.pool.nodes[front].next == chain[2];
    }
    PopMoveKeeps(s, t, LookStep(s, t).threads[t], chain, free);
  }

  // A node that starts at an expected byte which is still held is the front,
  // and no popped range is waiting to be published.
  lemma ExpectedIsFront(s: State, chain: seq<nat>, free: seq<nat>, e: int, j: nat)
    requires LazyListThreads.Inv(s, chain, free) && 0 <= e <= s.next
    requires 0 < j < |chain| - 1 && NodePool.At(s.pool, chain, j).left == e
    ensures j == 1 && e == s.next && PoppedUpTo(s.popped, s.next)
    ensures forall u :: 0 <= u < |s.threads| ==> !IsOut(s.threads[u])
  {
    HeldAt(s.pool, chain, j);
    assert e in s.inserted && e !in s.popped;
    forall u | 0 <= u < |s.threads|
      ensures !IsOut(s.threads[u])
    {
      assert PcOk(s.threads[u], s, chain, free);
    }
    HeldAt(s.pool, chain, 1);
    assert NodePool.At(s.pool, chain, 1).left in s.inserted - s.popped;
    if 1 < j {
      InOrder(s.pool, chain, 1, j);
    }
  }

  lemma HeldAt(p: Pool, chain: seq<nat>, j: nat)
    requires Linked(p, chain) && Sorted(p, chain) && 0 < j < |chain| - 1
    ensures Insertable(NodePool.At(p, chain, j)) && NodePool.At(p, chain, j).left in ChainBytes(p, chain)
  {
    var r := NodePool.At(p, chain, j);
    assert Insertable(r) && In(r.left, r);
    CoveredIsBytes(p, chain, r.left);
  }

  // Validation under the locks: what was the front still is.
  lemma ValidatedFront(s: State, t: nat, chain: seq<nat>, free: seq<nat>)
    requires LazyListThreads.Inv(s, chain, free) && t < |s.threads| && s.threads[t].AtFront?
    requires s.threads[t].front < |s.pool.nodes| && s.threads[t].next < |s.pool.nodes|
    requires Validate(s.pool, s.threads[t].front, s.threads[t].next)
    requires s.pool.nodes[s.threads[t].front].range.left == s.threads[t].e
    ensures |chain| > 2 && s.threads[t].front == chain[1] && s.threads[t].next == chain[2]
    ensures NodePool.At(s.pool, chain, 1).left == s.next && PoppedUpTo(s.popped, s.next)
    ensures forall u :: 0 <= u < |s.threads| ==> !IsOut(s.threads[u])
  {
    var AtFront(e, front, next) := s.threads[t];
    assert PcOk(s.threads[t], s, chain, free);
    var j :| 0 <= j < |chain| && chain[j] == front;
    assert NodePool.At(s.pool, chain, j).left == e < INT32_MAX;
    assert 0 < j < |chain| - 1;
    ExpectedIsFront(s, chain, free, e, j);
    assert s.pool.nodes[chain[1]].next == chain[2];
  }

  lemma PopEvolves(p: Pool, chain: seq<nat>, free: seq<nat>, p': Pool, chain': seq<nat>)
    requires NodePool.Inv(p, chain, free) && |chain| > 2
    requires p' == PopCommit(p, chain[1], chain[2]) && chain' == Without(chain, 1)
    ensures NodePool.Inv(p', chain', free) && LimboOk(p', chain', free, chain[1])
    ensures Evolves(p, chain, free, p', chain', free, {}, {})
    ensures ChainBytes(p', chain') == ChainBytes(p, chain) - Span(NodePool.At(p, chain, 1))
    ensures Span(NodePool.At(p, chain, 1)) <= ChainBytes(p, chain)
  {
    PopKeeps(p, chain, free, p', chain');
    forall n | n in chain && n < |p.nodes|
      ensures if n in chain' then Wider(p.nodes[n].range, p'.nodes[n].range) else p'.marks[n]
    {
      WithoutIn(chain, 1, n);
    }
    forall n | 0 <= n < |p.nodes| && n !in chain
      ensures n !in chain'
    {
      WithoutIn(chain, 1, n);
    }
  }

  lemma UnlinkSucceeds(s: State, t: nat, chain: seq<nat>, free: seq<nat>, r: Range) returns (chain': seq<nat>)
    requires LazyListThreads.Inv(s, chain, free) && t < |s.threads| && s.threads[t].AtFront?
    requires |chain| > 2 && r == NodePool.At(s.pool, chain, 1)
    requires r.left == s.next && PoppedUpTo(s.popped, s.next)
    requires forall u :: 0 <= u < |s.threads| ==> !IsOut(s.threads[u])
    ensures LazyListThreads.Inv(Move(s, t, Popped(r, chain[1])).(pool := PopCommit(s.pool, chain[1], chain[2]),
                                                                 popped := s.popped + Span(r)), chain', free)
  {
    var p' := PopCommit(s.pool, chain[1], chain[2]);
    var pc' := Popped(r, chain[1]);
    var s' := Move(s, t, pc').(pool := p', popped := s.popped + Span(r));
    chain' := Without(chain, 1);
    PopEvolves(s.pool, chain, free, p', chain');
    HeldAt(s.pool, chain, 1);
    assert PoppedUpTo(s'.popped, r.right + 1);
    assert IsOut(s'.threads[t]);
    forall u | 0 <= u < |s.threads| && u != t
      ensures OtherOk(s.threads[u], s, s', pc', {}, {})
    {
      OthersAreCompatible(s, chain, free, t, u);
      LimboIsOffChain(s, chain, free, u);
    }
    Assemble(s, s', t, pc', chain, free, chain', free, {}, {});
  }

  lemma UnlinkKeepsAll(s: State, t: nat, chain: seq<nat>, free: seq<nat>) returns (chain': seq<nat>)
    requires LazyListThreads.Inv(s, chain, free) && Enabled(s, LazyListThreads.Unlink(t))
    ensures InBounds(s, LazyListThreads.Unlink(t))
    ensures LazyListThreads.Inv(UnlinkStep(s, t), chain', free)
  {
    chain' := chain;
    var AtFront(e, front, next) := s.threads[t];
    assert PcOk(s.threads[t], s, chain, free);
    HeadsInBounds(s.pool, chain, free);
    if Validate(s.pool, front, next) && s.pool.nodes[front].range.left == e {
      ValidatedFront(s, t, chain, free);
      chain' := UnlinkSucceeds(s, t, chain, free, s.pool.nodes[front].range);
    } else {
      PopMoveKeeps(s, t, Popping(e), chain, free);
    }
  }

  lemma PublishKeeps(s: State, t: nat, chain: seq<nat>, free: seq<nat>)
    requires LazyListThreads.Inv(s, chain, free) && Enabled(s, Publish(t)) && InBounds(s, Publish(t))
    ensures LazyListThreads.Inv(Step(s, Publish(t)), chain, free)
  {
    var r, s' := s.threads[t].r, Step(s, Publish(t));
    assert PcOk(s.threads[t], s, chain, free);
    forall u | 0 <= u < |s.threads| && u != t
      ensures OtherOk(s.threads[u], s, s', Idle, {}, {})
    {
      OthersAreCompatible(s, chain, free, t, u);
    }
    Assemble(s, s', t, Idle, chain, free, chain, free, {}, {});
  }

  // ---------- Runs ----------

  lemma Keeps(s: State, e: Event, chain: seq<nat>, free: seq<nat>) returns (chain': seq<nat>, free': seq<nat>)
    requires LazyListThreads.Inv(s, chain, free) && Enabled(s, e)
    ensures InBounds(s, e) && LazyListThreads.Inv(Step(s, e), chain', free')
  {
    chain', free' := chain, free;
    HeadsInBounds(s.pool, chain, free);
    assert PcOk(s.threads[e.t], s, chain, free);
    match e {
      case BeginInsert(t, r) => BeginInsertKeeps(s, t, r, chain, free);
      case Find(t, path) => FindKeeps(s, t, path, chain, free);
      case Commit(t) => chain', free' := CommitKeepsAll(s, t, chain, free);
      case Delete(t) =>
        free' := [s.threads[t].n] + free;
        PutKeepsAll(s, t, Idle, chain, free, s.threads[t].n, Step(s, e));
      case BeginPop(t) => PopMoveKeeps(s, t, Popping(s.next), chain, free);
      case Look(t) => LookKeeps(s, t, chain, free);
      case Unlink(t) => chain' := UnlinkKeepsAll(s, t, chain, free);
      case Release(t) =>
        free' := [s.threads[t].n] + free;
        PutKeepsAll(s, t, Publishing(s.threads[t].r), chain, free, s.threads[t].n, Step(s, e));
      case Publish(t) => PublishKeeps(s, t, chain, free);
    }
  }

  lemma StartHolds(s: State, chain: seq<nat>, free: seq<nat>)
    requires IsStart(s, chain, free)
    ensures LazyListThreads.Inv(s, chain, free)
  {
    assert Ranges(s.pool, chain) == [];
  }

  // Main result: in every run of any number of threads the chain stays sorted
  // and disjoint and holds exactly the bytes inserted and not yet popped.
  lemma {:induction false} RunsAreSafe(run: seq<State>, es: seq<Event>, chain0: seq<nat>, free0: seq<nat>, k: nat)
    returns (chain: seq<nat>, free: seq<nat>)
    requires IsRun(run, es, chain0, free0) && k <= |es|
    ensures LazyListThreads.Inv(run[k], chain, free)
    ensures Canonical(Ranges(run[k].pool, chain))
    ensures Bytes(Ranges(run[k].pool, chain)) == run[k].inserted - run[k].popped
    ensures k < |es| ==> InBounds(run[k], es[k])
    decreases k
  {
    if k == 0 {
      StartHolds(run[0], chain0, free0);
      chain, free := chain0, free0;
    } else {
      var c, f := RunsAreSafe(run, es, chain0, free0, k - 1);
      chain, free := Keeps(run[k - 1], es[k - 1], c, f);
    }
    RangesAreCanonical(run[k].pool, chain);
    if k < |es| {
      var _, _ := Keeps(run[k], es[k], chain, free);
    }
  }

  // A search never meets an overlap: no insertion is given up.
  lemma SearchNeverOverlaps(run: seq<State>, es: seq<Event>, chain0: seq<nat>, free0: seq<nat>, k: nat)
    requires IsRun(run, es, chain0, free0) && k < |es| && es[k].Find?
    ensures es[k].t < |run[k + 1].threads| && run[k + 1].threads[es[k].t].Found?
  {
    var chain, free := RunsAreSafe(run, es, chain0, free0, k);
    FindKeeps(run[k], es[k].t, es[k].path, chain, free);
  }

  // Delivery is in order and complete: the popped bytes are exactly those below
  // the expected byte, or below the end of the one popped range that is still
  // to be published.
  lemma PoppedInOrder(run: seq<State>, es: seq<Event>, chain0: seq<nat>, free0: seq<nat>, k: nat)
    requires IsRun(run, es, chain0, free0) && k <= |es|
    ensures (forall t :: 0 <= t < |run[k].threads| ==> !IsOut(run[k].threads[t])) ==>
      PoppedUpTo(run[k].popped, run[k].next)
    ensures forall t :: 0 <= t < |run[k].threads| && IsOut(run[k].threads[t]) ==>
      run[k].threads[t].r.left == run[k].next && PoppedUpTo(run[k].popped, run[k].threads[t].r.right + 1)
    ensures forall t, u :: 0 <= t < u < |run[k].threads| ==> !(IsOut(run[k].threads[t]) && IsOut(run[k].threads[u]))
  {
    var chain, free := RunsAreSafe(run, es, chain0, free0, k);
    var s := run[k];
    forall t | 0 <= t < |s.threads| && IsOut(s.threads[t])
      ensures s.threads[t].r.left == s.next && PoppedUpTo(s.popped, s.threads[t].r.right + 1)
    {
      assert PcOk(s.threads[t], s, chain, free);
    }
    forall t, u | 0 <= t < u < |s.threads|
      ensures !(IsOut(s.threads[t]) && IsOut(s.threads[u]))
    {
      assert Compatible(s.threads[t], s.threads[u]);
    }
  }
}
