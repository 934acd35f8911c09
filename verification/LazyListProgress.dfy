/** What becomes of every insertion and every pop of the shared lazy list: when a step
    must succeed, when it may be given up, and that no byte and no node gets lost. */
module LazyListProgress {
  import opened RangeList
  import opened NodePool
  import opened LazyListThreads
  import opened LazyListRuns

  // The bytes in the list.
  function Held(s: State): set<int> { s.inserted - s.popped }

  // An insertion of `r` would need a node, and none is free.
  predicate LacksNode(s: State, r: Range) {
    s.pool.freeHead == EOL && r.left - 1 !in Held(s) && r.right + 1 !in Held(s)
  }

  predicate Claims(pc: PC, r: Range) { (pc.Inserting? || pc.Found?) && pc.r == r }

  predicate Neighbours(chain: seq<nat>, a: nat, b: nat) {
    exists i :: 0 <= i < |chain| - 1 && chain[i] == a && chain[i + 1] == b
  }

  // ---------- The locked section of lazylist_insert ----------

  lemma NeighboursAreValid(p: Pool, chain: seq<nat>, a: nat, b: nat)
    requires Linked(p, chain) && Neighbours(chain, a, b)
    ensures a < |p.nodes| && b < |p.nodes| && Validate(p, a, b)
  {
    var i :| 0 <= i < |chain| - 1 && chain[i] == a && chain[i + 1] == b;
    assert p.nodes[chain[i]].next == chain[i + 1];
  }

  // Whether a commit at the right place finds no node.
  lemma NoSpaceExactly(s: State, chain: seq<nat>, free: seq<nat>, i: nat, r: Range, p': Pool, out: Outcome)
    requires Shared(s, chain, free) && Fits(s.pool, chain, i, r)
    requires s.pool.freeHead != EOL ==> s.pool.freeHead < |s.pool.nodes|
    requires (p', out) == NodePool.Commit(s.pool, chain[i], chain[i + 1], r)
    ensures out.NoSpace? <==> LacksNode(s, r)
    ensures out.NoSpace? ==> p' == s.pool
  {
    ConnectsByBytes(s.pool, chain, free, i, r);
  }

  // Main result: a commit searches again exactly when the place found is no longer one;
  // otherwise the range is in the list, unless that needs a node and none is free.
  lemma CommitsExactly(s: State, t: nat, chain: seq<nat>, free: seq<nat>, r: Range, s': State)
    requires LazyListThreads.Inv(s, chain, free) && Enabled(s, LazyListThreads.Commit(t))
    requires InBounds(s, LazyListThreads.Commit(t)) && s' == CommitStep(s, t) && r == s.threads[t].r
    ensures !Neighbours(chain, s.threads[t].pred, s.threads[t].curr) ==> s' == Move(s, t, Inserting(r))
    ensures Neighbours(chain, s.threads[t].pred, s.threads[t].curr) && LacksNode(s, r) ==> s' == Move(s, t, Idle)
    ensures Neighbours(chain, s.threads[t].pred, s.threads[t].curr) && !LacksNode(s, r) ==>
      s'.inserted == s.inserted + Span(r) && (s'.threads[t].Idle? || s'.threads[t].Deleting?)
  {
    var Found(_, pred, curr) := s.threads[t];
    if Validate(s.pool, pred, curr) {
      var i := ValidatedPlace(s, t, chain, free);
      var (p', out) := NodePool.Commit(s.pool, chain[i], chain[i + 1], r);
      NoSpaceExactly(s, chain, free, i, r, p', out);
    } else if Neighbours(chain, pred, curr) {
      NeighboursAreValid(s.pool, chain, pred, curr);
    }
  }

  // ---------- The steps of lazylist_pop_front ----------

  // The list starts with byte `e`.
  ghost predicate StartsAt(bytes: set<int>, e: int) {
    e in bytes && forall x :: x in bytes ==> e <= x
  }

  lemma FrontByBytes(p: Pool, chain: seq<nat>, free: seq<nat>, e: int)
    requires NodePool.Inv(p, chain, free)
    ensures StartsAt(ChainBytes(p, chain), e) <==> At(p, chain, 1).left == e && e != INT32_MAX
  {
    var rs := Ranges(p, chain);
    RangesAreCanonical(p, chain);
    if rs != [] {
      FirstRange(rs);
      assert rs[0] == At(p, chain, 1) && Insertable(At(p, chain, 1));
    }
  }

  // Main result: a pop gives up exactly when the list does not start with the expected byte.
  lemma LooksExactly(s: State, t: nat, chain: seq<nat>, free: seq<nat>, e: int, s': State)
    requires LazyListThreads.Inv(s, chain, free) && Enabled(s, Look(t)) && InBounds(s, Look(t))
    requires s' == LookStep(s, t) && e == s.threads[t].e
    ensures !StartsAt(Held(s), e) ==> s' == Move(s, t, Idle)
    ensures StartsAt(Held(s), e) ==> |chain| > 2 && s' == Move(s, t, AtFront(e, chain[1], chain[2]))
  {
    HeadsInBounds(s.pool, chain, free);
    FrontByBytes(s.pool, chain, free, e);
    if StartsAt(Held(s), e) {
      assert s.pool.nodes[chain[1]].next == chain[2];
    }
  }

  // Main result: an unlink looks again exactly when the front has changed; otherwise it
  // pops the first range, which starts with the expected byte.
  lemma UnlinksExactly(s: State, t: nat, chain: seq<nat>, free: seq<nat>, pc: PC, s': State)
    requires LazyListThreads.Inv(s, chain, free) && Enabled(s, Unlink(t)) && InBounds(s, Unlink(t))
    requires s' == UnlinkStep(s, t) && pc == s.threads[t]
    ensures
      if |chain| > 2 && pc.front == chain[1] && pc.next == chain[2] && At(s.pool, chain, 1).left == pc.e then
        var r := At(s.pool, chain, 1);
        && s'.threads == s.threads[t := Popped(r, pc.front)] && r.left == pc.e == s.next
        && s'.popped == s.popped + Span(r) && Span(r) <= Held(s)
      else s' == Move(s, t, Popping(pc.e))
  {
    var AtFront(e, front, next) := pc;
    if Validate(s.pool, front, next) && s.pool.nodes[front].range.left == e {
      ValidatedFront(s, t, chain, free);
      PopEvolves(s.pool, chain, free, PopCommit(s.pool, chain[1], chain[2]), Without(chain, 1));
    } else if |chain| > 2 && front == chain[1] && next == chain[2] {
      NeighboursAreValid(s.pool, chain, front, next);
    }
  }

  // ---------- Every range offered ----------

  // The bytes of every BeginInsert among the first k events.
  function Offered(es: seq<Event>, k: nat): set<int>
    requires k <= |es|
  {
    if k == 0 then {} else Offered(es, k - 1) + if es[k - 1].BeginInsert? then Span(es[k - 1].r) else {}
  }

  function Claimed(ts: seq<PC>): set<int> {
    set t, x | 0 <= t < |ts| && x in Claim(ts[t]) :: x
  }

  // Thread `t` gives its range up for lack of a node, and leaves the list as it was.
  predicate Drops(s: State, e: Event, s': State, t: nat, r: Range) {
    && e == LazyListThreads.Commit(t) && t < |s.threads| && s.threads[t].Found? && s.threads[t].r == r
    && LacksNode(s, r) && s' == Move(s, t, Idle)
  }

  // The bytes given up by one step.
  function Given(s: State, e: Event, s': State): set<int> {
    if e.Commit? && e.t < |s.threads| && s.threads[e.t].Found? && Drops(s, e, s', e.t, s.threads[e.t].r)
    then Span(s.threads[e.t].r) else {}
  }

  // ... and among the first k events.
  function Dropped(run: seq<State>, es: seq<Event>, k: nat): set<int>
    requires |run| == |es| + 1 && k <= |es|
  {
    if k == 0 then {} else Dropped(run, es, k - 1) + Given(run[k - 1], es[k - 1], run[k])
  }

  // What one step does to the range a thread is inserting.
  lemma ClaimStep(s: State, e: Event, chain: seq<nat>, free: seq<nat>, t: nat, r: Range, s': State)
    requires LazyListThreads.Inv(s, chain, free) && Enabled(s, e) && InBounds(s, e) && s' == Step(s, e)
    requires t < |s.threads| && Claims(s.threads[t], r)
    ensures |s'.threads| == |s.threads|
    ensures Claims(s'.threads[t], r) || Span(r) <= s'.inserted || Drops(s, e, s', t, r)
  {
    if e.t == t {
      match e {
        case Find(_, path) => FindKeeps(s, t, path, chain, free);
        case Commit(_) => CommitsExactly(s, t, chain, free, r, s');
        case _ =>
      }
    }
  }

  // Where the bytes of a step come from.
  lemma StepGains(s: State, e: Event, chain: seq<nat>, free: seq<nat>, s': State)
    requires LazyListThreads.Inv(s, chain, free) && Enabled(s, e) && InBounds(s, e) && s' == Step(s, e)
    ensures s.inserted <= s'.inserted <= s.inserted + Claimed(s.threads)
    ensures Claim(s'.threads[e.t]) <= Claim(s.threads[e.t]) + if e.BeginInsert? then Span(e.r) else {}
    ensures s'.threads == s.threads[e.t := s'.threads[e.t]]
    ensures e.BeginInsert? ==> Claim(s'.threads[e.t]) == Span(e.r) && s.threads[e.t].Idle?
  {
    var t := e.t;
    if e.Commit? {
      CommitsExactly(s, t, chain, free, s.threads[t].r, s');
      assert forall x :: x in Span(s.threads[t].r) ==> x in Claim(s.threads[t]);
    }
  }

  lemma ClaimedStay(s: State, e: Event, chain: seq<nat>, free: seq<nat>, s': State)
    requires LazyListThreads.Inv(s, chain, free) && Enabled(s, e) && InBounds(s, e) && s' == Step(s, e)
    ensures Claimed(s.threads) <= s'.inserted + Claimed(s'.threads) + Given(s, e, s')
  {
    forall x | x in Claimed(s.threads)
      ensures x in s'.inserted + Claimed(s'.threads) + Given(s, e, s')
    {
      var t :| 0 <= t < |s.threads| && x in Claim(s.threads[t]);
      var r := s.threads[t].r;
      ClaimStep(s, e, chain, free, t, r, s');
      assert Claims(s'.threads[t], r) ==> x in Claim(s'.threads[t]);
    }
  }

  lemma ClaimedOnly(ts: seq<PC>, t: nat, pc: PC, more: set<int>)
    requires t < |ts| && Claim(pc) <= Claim(ts[t]) + more
    ensures Claimed(ts[t := pc]) <= Claimed(ts) + more
  {
    forall x | x in Claimed(ts[t := pc])
      ensures x in Claimed(ts) + more
    {
      var u :| 0 <= u < |ts[t := pc]| && x in Claim(ts[t := pc][u]);
      assert u != t ==> x in Claim(ts[u]);
      assert u == t && x !in more ==> x in Claim(ts[t]);
    }
  }

  lemma GivenIsClaimed(s: State, e: Event, s': State)
    ensures Given(s, e, s') <= Claimed(s.threads)
  {
    if Given(s, e, s') != {} {
      assert forall x :: x in Given(s, e, s') ==> x in Claim(s.threads[e.t]);
    }
  }

  lemma ClaimIsClaimed(ts: seq<PC>, t: nat)
    requires t < |ts|
    ensures Claim(ts[t]) <= Claimed(ts)
  {
    assert forall x :: x in Claim(ts[t]) ==> x in Claimed(ts);
  }

  lemma StepAccounts(s: State, e: Event, chain: seq<nat>, free: seq<nat>, s': State)
    requires LazyListThreads.Inv(s, chain, free) && Enabled(s, e) && InBounds(s, e) && s' == Step(s, e)
    ensures s'.inserted + Claimed(s'.threads) + Given(s, e, s') ==
      s.inserted + Claimed(s.threads) + if e.BeginInsert? then Span(e.r) else {}
  {
    StepGains(s, e, chain, free, s');
    ClaimedStay(s, e, chain, free, s');
    var more := if e.BeginInsert? then Span(e.r) else {};
    ClaimedOnly(s.threads, e.t, s'.threads[e.t], more);
    GivenIsClaimed(s, e, s');
    ClaimIsClaimed(s'.threads, e.t);
    SameUnion(s.inserted, Claimed(s.threads), more, s'.inserted, Claimed(s'.threads), Given(s, e, s'));
  }

  lemma SameUnion(a: set<int>, b: set<int>, c: set<int>, a': set<int>, b': set<int>, c': set<int>)
    requires a <= a' <= a + b && b <= a' + b' + c' && c <= b' <= b + c && c' <= b
    ensures a' + b' + c' == a + b + c
  {}

  // One step of a run, with nothing but what the theorems below need.
  lemma RunAccounts(run: seq<State>, es: seq<Event>, chain0: seq<nat>, free0: seq<nat>, k: nat)
    requires IsRun(run, es, chain0, free0) && k < |es|
    ensures run[k].inserted <= run[k + 1].inserted && |run[k + 1].threads| == |run[k].threads|
    ensures run[k + 1].inserted + Claimed(run[k + 1].threads) + Given(run[k], es[k], run[k + 1]) ==
      run[k].inserted + Claimed(run[k].threads) + if es[k].BeginInsert? then Span(es[k].r) else {}
  {
    var c, f := RunsAreSafe(run, es, chain0, free0, k);
    var s, e, s' := run[k], es[k], run[k + 1];
    assert Enabled(s, e) && s' == Step(s, e);
    StepGains(s, e, c, f, s');
    StepAccounts(s, e, c, f, s');
  }

  lemma RunClaims(run: seq<State>, es: seq<Event>, chain0: seq<nat>, free0: seq<nat>, k: nat, t: nat, r: Range)
    requires IsRun(run, es, chain0, free0) && k < |es|
    requires t < |run[k].threads| == |run[k + 1].threads| && Claims(run[k].threads[t], r)
    ensures || Claims(run[k + 1].threads[t], r)
            || Span(r) <= run[k + 1].inserted
            || Drops(run[k], es[k], run[k + 1], t, r)
  {
    var c, f := RunsAreSafe(run, es, chain0, free0, k);
    var s, e, s' := run[k], es[k], run[k + 1];
    assert Enabled(s, e) && s' == Step(s, e);
    ClaimStep(s, e, c, f, t, r, s');
  }

  // Main result: the bytes of all ranges ever offered are those in the list or popped from
  // it, those still being inserted, and those given up for lack of a node.
  lemma {:induction false} OfferedAreAccounted(run: seq<State>, es: seq<Event>, chain0: seq<nat>, free0: seq<nat>,
                                               k: nat)
    requires IsRun(run, es, chain0, free0) && k <= |es|
    ensures Offered(es, k) == run[k].inserted + Claimed(run[k].threads) + Dropped(run, es, k)
    decreases k
  {
    if k > 0 {
      OfferedAreAccounted(run, es, chain0, free0, k - 1);
      RunAccounts(run, es, chain0, free0, k - 1);
    } else {
      assert Claimed(run[0].threads) == {};
    }
  }

  // What has become of a range that thread `t` had begun to insert at step i.
  ghost predicate Fate(run: seq<State>, es: seq<Event>, i: nat, k: nat, t: nat, r: Range)
    requires |run| == |es| + 1 && i <= k <= |es| && t < |run[k].threads|
  {
    || Claims(run[k].threads[t], r)
    || Span(r) <= run[k].inserted
    || exists j :: i <= j < k && Drops(run[j], es[j], run[j + 1], t, r)
  }

  lemma FateStep(run: seq<State>, es: seq<Event>, i: nat, k: nat, t: nat, r: Range)
    requires |run| == |es| + 1 && i <= k < |es| && t < |run[k].threads| == |run[k + 1].threads|
    requires Fate(run, es, i, k, t, r) && run[k].inserted <= run[k + 1].inserted
    requires Claims(run[k].threads[t], r) ==>
      Claims(run[k + 1].threads[t], r) || Span(r) <= run[k + 1].inserted || Drops(run[k], es[k], run[k + 1], t, r)
    ensures Fate(run, es, i, k + 1, t, r)
  {}

  lemma RunFate(run: seq<State>, es: seq<Event>, chain0: seq<nat>, free0: seq<nat>,
                i: nat, k: nat, t: nat, r: Range)
    requires IsRun(run, es, chain0, free0) && i <= k < |es| && t < |run[k].threads|
    requires Fate(run, es, i, k, t, r)
    ensures |run[k + 1].threads| == |run[k].threads| && Fate(run, es, i, k + 1, t, r)
  {
    RunAccounts(run, es, chain0, free0, k);
    if Claims(run[k].threads[t], r) {
      RunClaims(run, es, chain0, free0, k, t, r);
    }
    FateStep(run, es, i, k, t, r);
  }

  // Main result: a thread that has begun to insert a range goes on until all of it is in
  // the list, or until the range needs a node and none is free.
  lemma {:induction false} InsertionsEnd(run: seq<State>, es: seq<Event>, chain0: seq<nat>, free0: seq<nat>,
                                         i: nat, k: nat, t: nat, r: Range)
    requires IsRun(run, es, chain0, free0) && i <= k <= |es|
    requires t < |run[i].threads| && Claims(run[i].threads[t], r)
    ensures |run[k].threads| == |run[i].threads| && Fate(run, es, i, k, t, r)
    decreases k
  {
    if i < k {
      InsertionsEnd(run, es, chain0, free0, i, k - 1, t, r);
      RunFate(run, es, chain0, free0, i, k - 1, t, r);
    }
  }

  // ---------- Every pop ----------

  // The thread is popping the range that starts with byte `e`.
  predicate Pops(pc: PC, e: int) { (pc.Popping? || pc.AtFront?) && pc.e == e }

  // ... and has unlinked it.
  predicate TakesFront(s: State, s': State, t: nat, e: int)
    requires t < |s'.threads|
  {
    && s'.threads[t].Popped? && s'.threads[t].r.left == e
    && Span(s'.threads[t].r) <= Held(s) && s'.popped == s.popped + Span(s'.threads[t].r)
  }

  lemma PopStep(s: State, e: Event, chain: seq<nat>, free: seq<nat>, t: nat, x: int, s': State)
    requires LazyListThreads.Inv(s, chain, free) && Enabled(s, e) && InBounds(s, e) && s' == Step(s, e)
    requires t < |s.threads| && Pops(s.threads[t], x)
    ensures |s'.threads| == |s.threads|
    ensures Pops(s'.threads[t], x) || TakesFront(s, s', t, x) || (e == Look(t) && s' == Move(s, t, Idle))
    ensures e == Look(t) ==> (s'.threads[t].Idle? <==> !StartsAt(Held(s), x))
  {
    if e.t == t {
      match e {
        case Look(_) => LooksExactly(s, t, chain, free, x, s');
        case Unlink(_) => UnlinksExactly(s, t, chain, free, s.threads[t], s');
        case _ =>
      }
    }
  }

  // Main result: a pop goes on until it has unlinked the range that starts with the byte
  // it expects, and gives up exactly when it looks and the list does not start there.
  lemma PopsEnd(run: seq<State>, es: seq<Event>, chain0: seq<nat>, free0: seq<nat>, k: nat, t: nat, x: int)
    requires IsRun(run, es, chain0, free0) && k < |es|
    requires t < |run[k].threads| && Pops(run[k].threads[t], x)
    ensures |run[k + 1].threads| == |run[k].threads|
    ensures Pops(run[k + 1].threads[t], x) || TakesFront(run[k], run[k + 1], t, x) || es[k] == Look(t)
    ensures es[k] == Look(t) ==> (run[k + 1].threads[t].Idle? <==> !StartsAt(Held(run[k]), x))
    ensures es[k] == Look(t) ==> run[k + 1] == Move(run[k], t, run[k + 1].threads[t])
  {
    var c, f := RunsAreSafe(run, es, chain0, free0, k);
    PopStep(run[k], es[k], c, f, t, x, run[k + 1]);
  }

  // ... and it expects the byte that was published last when it began.
  lemma PopsBegin(run: seq<State>, es: seq<Event>, chain0: seq<nat>, free0: seq<nat>, k: nat, t: nat)
    requires IsRun(run, es, chain0, free0) && k < |es| && es[k] == BeginPop(t)
    ensures t < |run[k + 1].threads| && Pops(run[k + 1].threads[t], run[k].next)
  {
    var _, _ := RunsAreSafe(run, es, chain0, free0, k);
  }

  // ---------- Retries ----------

  lemma FoundIsValid(s: State, t: nat, path: seq<nat>, chain: seq<nat>, free: seq<nat>, pc': PC)
    requires LazyListThreads.Inv(s, chain, free) && Enabled(s, Find(t, path))
    requires pc' == FindStep(s, t, path).threads[t]
    ensures Claims(pc', s.threads[t].r) && pc'.Found?
    ensures pc'.pred < |s.pool.nodes| && pc'.curr < |s.pool.nodes| && |s.pool.marks| == |s.pool.nodes|
    ensures Validate(s.pool, pc'.pred, pc'.curr)
  {
    var r, k := s.threads[t].r, |path| - 1;
    assert PcOk(s.threads[t], s, chain, free);
    FindKeeps(s, t, path, chain, free);
    WalkIsPrefix(s.pool, chain, r, path, k);
    assert k > 0;
    WalkIsPrefix(s.pool, chain, r, path, k - 1);
  }

  predicate SamePlace(s: State, s': State, t: nat) {
    t < |s.threads| && t < |s'.threads| && s'.threads[t] == s.threads[t]
  }

  // Main result: a commit has to search again only if the list changed since the search.
  lemma RetriesMeanChange(run: seq<State>, es: seq<Event>, chain0: seq<nat>, free0: seq<nat>,
                          i: nat, k: nat, t: nat, path: seq<nat>, r: Range)
    requires IsRun(run, es, chain0, free0) && i < k < |es|
    requires es[i] == Find(t, path) && es[k] == LazyListThreads.Commit(t)
    requires t < |run[i].threads| && Claims(run[i].threads[t], r)
    requires run[k].pool == run[i].pool && SamePlace(run[i + 1], run[k], t)
    ensures Span(r) <= run[k + 1].inserted || Drops(run[k], es[k], run[k + 1], t, r)
  {
    var c, f := RunsAreSafe(run, es, chain0, free0, i);
    var c', f' := RunsAreSafe(run, es, chain0, free0, k);
    FoundIsValid(run[i], t, path, c, f, run[k].threads[t]);
    var _ := ValidatedPlace(run[k], t, c', f');
    CommitsExactly(run[k], t, c', f', r, run[k + 1]);
  }

  // ... and an unlink has to look again only if it changed since the look.
  lemma PopRetriesMeanChange(run: seq<State>, es: seq<Event>, chain0: seq<nat>, free0: seq<nat>,
                             i: nat, k: nat, t: nat, x: int)
    requires IsRun(run, es, chain0, free0) && i < k < |es| && es[i] == Look(t) && es[k] == Unlink(t)
    requires t < |run[i].threads| && Pops(run[i].threads[t], x)
    requires run[k].pool == run[i].pool && SamePlace(run[i + 1], run[k], t)
    ensures t < |run[k + 1].threads| && TakesFront(run[k], run[k + 1], t, x)
  {
    var c, f := RunsAreSafe(run, es, chain0, free0, i);
    var c', f' := RunsAreSafe(run, es, chain0, free0, k);
    LooksExactly(run[i], t, c, f, x, run[i + 1]);
    ChainIsUnique(run[i].pool, c, c');
    FrontByBytes(run[i].pool, c, f, x);
    UnlinksExactly(run[k], t, c', f', run[k].threads[t], run[k + 1]);
  }

  // ---------- No node gets lost ----------

  // The pool determines the chain and the free list.
  lemma {:induction false} SamePrefix(p: Pool, c: seq<nat>, d: seq<nat>, i: nat)
    requires Linked(p, c) && Linked(p, d) && i < |c| && i < |d|
    ensures c[i] == d[i]
    decreases i
  {
    if i > 0 {
      SamePrefix(p, c, d, i - 1);
      assert p.nodes[c[i - 1]].next == c[i - 1 + 1] && p.nodes[d[i - 1]].next == d[i - 1 + 1];
    }
  }

  lemma BeforeTheEnd(p: Pool, d: seq<nat>, i: nat)
    requires Linked(p, d) && Sorted(p, d) && i < |d| - 1
    ensures At(p, d, i).right < INT32_MAX
  {
    InOrder(p, d, i, |d| - 1);
  }

  lemma ChainIsNoShorter(p: Pool, c: seq<nat>, d: seq<nat>)
    requires Linked(p, c) && Sorted(p, c) && Linked(p, d) && Sorted(p, d)
    ensures |d| <= |c|
  {
    if |c| < |d| {
      SamePrefix(p, c, d, |c| - 1);
      BeforeTheEnd(p, d, |c| - 1);
    }
  }

  lemma ChainIsUnique(p: Pool, c: seq<nat>, d: seq<nat>)
    requires Linked(p, c) && Sorted(p, c) && Linked(p, d) && Sorted(p, d)
    ensures c == d
  {
    ChainIsNoShorter(p, c, d);
    ChainIsNoShorter(p, d, c);
    forall i | 0 <= i < |c|
      ensures c[i] == d[i]
    {
      SamePrefix(p, c, d, i);
    }
  }

  lemma {:induction false} SameFree(p: Pool, f: seq<nat>, g: seq<nat>, i: nat)
    requires FreeLinked(p, f) && FreeLinked(p, g) && |p.nodes| < EOL && i <= |f|
    ensures i <= |g| && FreeAt(f, i) == FreeAt(g, i)
    decreases i
  {
    if i > 0 {
      SameFree(p, f, g, i - 1);
      assert f[i - 1] < |p.nodes|;
    }
  }

  lemma FreeIsUnique(p: Pool, f: seq<nat>, g: seq<nat>)
    requires FreeLinked(p, f) && FreeLinked(p, g) && |p.nodes| < EOL
    ensures f == g
  {
    SameFree(p, f, g, |f|);
    SameFree(p, g, f, |g|);
    forall i | 0 <= i < |f|
      ensures f[i] == g[i]
    {
      SameFree(p, f, g, i);
    }
  }

  function HasNode(pc: PC): nat { if pc.Deleting? || pc.Popped? then 1 else 0 }

  // The nodes unlinked and not yet given back.
  function InLimbo(ts: seq<PC>): nat {
    if ts == [] then 0 else HasNode(ts[0]) + InLimbo(ts[1..])
  }

  lemma {:induction false} LimboMoves(ts: seq<PC>, t: nat, pc: PC)
    requires t < |ts|
    ensures InLimbo(ts[t := pc]) + HasNode(ts[t]) == InLimbo(ts) + HasNode(pc)
    decreases t
  {
    if t > 0 {
      LimboMoves(ts[1..], t - 1, pc);
      assert ts[t := pc][1..] == ts[1..][t - 1 := pc];
    }
  }

  // Every node is in the chain, free, or on its way back.
  predicate Counted(s: State, chain: seq<nat>, free: seq<nat>) {
    |chain| + |free| + InLimbo(s.threads) == |s.pool.nodes|
  }

  // The lists after a commit at the right place.
  lemma CommitCounts(p: Pool, chain: seq<nat>, free: seq<nat>, i: nat, r: Range, p': Pool, out: Outcome,
                     c': seq<nat>, f': seq<nat>)
    requires NodePool.Inv(p, chain, free) && Fits(p, chain, i, r) && NodePool.Inv(p', c', f')
    requires p.freeHead != EOL ==> p.freeHead < |p.nodes|
    requires (p', out) == NodePool.Commit(p, chain[i], chain[i + 1], r)
    ensures |c'| + |f'| == |chain| + |free| - if out.Removed? then 1 else 0
  {
    var c, f := CommitChain(chain, i, out), CommitFree(free, out);
    CommitKeeps(p, chain, free, i, r, p', out, c, f);
    ChainIsUnique(p', c, c');
    FreeIsUnique(p', f, f');
  }

  // What a step of the thread `pc` that leaves it at `pc'` does to the lists.
  predicate Balanced(chain: seq<nat>, free: seq<nat>, pc: PC, c': seq<nat>, f': seq<nat>, pc': PC) {
    |c'| + |f'| + HasNode(pc') == |chain| + |free| + HasNode(pc)
  }

  lemma SameLists(p: Pool, chain: seq<nat>, free: seq<nat>, c': seq<nat>, f': seq<nat>)
    requires NodePool.Inv(p, chain, free) && NodePool.Inv(p, c', f')
    ensures c' == chain && f' == free
  {
    ChainIsUnique(p, chain, c');
    FreeIsUnique(p, free, f');
  }

  lemma CommitBalanced(s: State, t: nat, chain: seq<nat>, free: seq<nat>, s': State, c': seq<nat>, f': seq<nat>)
    requires LazyListThreads.Inv(s, chain, free) && Enabled(s, LazyListThreads.Commit(t))
    requires InBounds(s, LazyListThreads.Commit(t)) && s' == CommitStep(s, t)
    requires NodePool.Inv(s'.pool, c', f')
    ensures Balanced(chain, free, s.threads[t], c', f', s'.threads[t])
  {
    var Found(r, pred, curr) := s.threads[t];
    if Validate(s.pool, pred, curr) {
      var i := ValidatedPlace(s, t, chain, free);
      CommitCounts(s.pool, chain, free, i, r, s'.pool, NodePool.Commit(s.pool, pred, curr, r).1, c', f');
    } else {
      SameLists(s.pool, chain, free, c', f');
    }
  }

  lemma PutBalanced(p: Pool, chain: seq<nat>, free: seq<nat>, n: nat, p': Pool, c': seq<nat>, f': seq<nat>)
    requires NodePool.Inv(p, chain, free) && LimboOk(p, chain, free, n) && p' == PutFree(p, n)
    requires NodePool.Inv(p', c', f')
    ensures |c'| + |f'| == |chain| + |free| + 1
  {
    PutKeeps(p, chain, free, n, p');
    ChainIsUnique(p', chain, c');
    FreeIsUnique(p', [n] + free, f');
  }

  lemma PopCounts(p: Pool, chain: seq<nat>, free: seq<nat>, p': Pool, c': seq<nat>, f': seq<nat>)
    requires NodePool.Inv(p, chain, free) && |chain| > 2 && p' == PopCommit(p, chain[1], chain[2])
    requires NodePool.Inv(p', c', f')
    ensures |c'| + |f'| + 1 == |chain| + |free|
  {
    PopKeeps(p, chain, free, p', Without(chain, 1));
    ChainIsUnique(p', Without(chain, 1), c');
    FreeIsUnique(p', free, f');
  }

  lemma UnlinkBalanced(s: State, t: nat, chain: seq<nat>, free: seq<nat>, s': State, c': seq<nat>, f': seq<nat>)
    requires LazyListThreads.Inv(s, chain, free) && Enabled(s, Unlink(t)) && InBounds(s, Unlink(t))
    requires s' == UnlinkStep(s, t) && NodePool.Inv(s'.pool, c', f')
    ensures Balanced(chain, free, s.threads[t], c', f', s'.threads[t])
  {
    var AtFront(e, front, next) := s.threads[t];
    if Validate(s.pool, front, next) && s.pool.nodes[front].range.left == e {
      ValidatedFront(s, t, chain, free);
      PopCounts(s.pool, chain, free, s'.pool, c', f');
    } else {
      SameLists(s.pool, chain, free, c', f');
    }
  }

  // Delete and Release
  lemma GiveBackBalanced(s: State, e: Event, chain: seq<nat>, free: seq<nat>, s': State,
                         c': seq<nat>, f': seq<nat>)
    requires LazyListThreads.Inv(s, chain, free) && Enabled(s, e) && InBounds(s, e) && s' == Step(s, e)
    requires (e.Delete? || e.Release?) && NodePool.Inv(s'.pool, c', f')
    ensures Balanced(chain, free, s.threads[e.t], c', f', s'.threads[e.t])
  {
    var pc := s.threads[e.t];
    assert PcOk(pc, s, chain, free);
    PutBalanced(s.pool, chain, free, pc.n, s'.pool, c', f');
  }

  // The other events leave the pool alone and take no node.
  lemma MoveOnly(s: State, e: Event, s': State)
    requires Enabled(s, e) && InBounds(s, e) && s' == Step(s, e)
    requires !e.Commit? && !e.Unlink? && !e.Delete? && !e.Release?
    ensures s'.pool == s.pool && HasNode(s'.threads[e.t]) == HasNode(s.threads[e.t]) == 0
  {}

  lemma StepBalanced(s: State, e: Event, chain: seq<nat>, free: seq<nat>, s': State, c': seq<nat>, f': seq<nat>)
    requires LazyListThreads.Inv(s, chain, free) && Enabled(s, e) && InBounds(s, e) && s' == Step(s, e)
    requires NodePool.Inv(s'.pool, c', f')
    ensures Balanced(chain, free, s.threads[e.t], c', f', s'.threads[e.t])
  {
    match e {
      case Commit(t) => CommitBalanced(s, t, chain, free, s', c', f');
      case Unlink(t) => UnlinkBalanced(s, t, chain, free, s', c', f');
      case Delete(_) => GiveBackBalanced(s, e, chain, free, s', c', f');
      case Release(_) => GiveBackBalanced(s, e, chain, free, s', c', f');
      case _ =>
        MoveOnly(s, e, s');
        SameLists(s.pool, chain, free, c', f');
    }
  }

  lemma StepShape(s: State, e: Event, s': State)
    requires Enabled(s, e) && InBounds(s, e) && s' == Step(s, e)
    requires s.pool.freeHead != EOL ==> s.pool.freeHead < |s.pool.nodes|
    ensures |s'.threads| == |s.threads| && s'.threads == s.threads[e.t := s'.threads[e.t]]
    ensures |s'.pool.nodes| == |s.pool.nodes|
  {}

  lemma StepCounts(s: State, e: Event, chain: seq<nat>, free: seq<nat>, s': State, c': seq<nat>, f': seq<nat>)
    requires LazyListThreads.Inv(s, chain, free) && Enabled(s, e) && InBounds(s, e) && s' == Step(s, e)
    requires NodePool.Inv(s'.pool, c', f') && Counted(s, chain, free)
    ensures Counted(s', c', f')
  {
    HeadsInBounds(s.pool, chain, free);
    StepShape(s, e, s');
    StepBalanced(s, e, chain, free, s', c', f');
    LimboMoves(s.threads, e.t, s'.threads[e.t]);
  }

  lemma {:induction false} NobodyInLimbo(ts: seq<PC>)
    requires forall t :: 0 <= t < |ts| ==> ts[t].Idle?
    ensures InLimbo(ts) == 0
    decreases |ts|
  {
    if ts != [] {
      NobodyInLimbo(ts[1..]);
    }
  }

  // Main result: no node is ever lost or listed twice.
  lemma {:induction false} NodesAreConserved(run: seq<State>, es: seq<Event>, chain0: seq<nat>, free0: seq<nat>,
                                             k: nat) returns (chain: seq<nat>, free: seq<nat>)
    requires IsRun(run, es, chain0, free0) && k <= |es| && |free0| + 2 == |run[0].pool.nodes|
    ensures LazyListThreads.Inv(run[k], chain, free) && Counted(run[k], chain, free)
    decreases k
  {
    chain, free := RunsAreSafe(run, es, chain0, free0, k);
    if k == 0 {
      NobodyInLimbo(run[0].threads);
      ChainIsUnique(run[0].pool, chain0, chain);
      FreeIsUnique(run[0].pool, free0, free);
    } else {
      var c, f := NodesAreConserved(run, es, chain0, free0, k - 1);
      StepCounts(run[k - 1], es[k - 1], c, f, run[k], chain, free);
    }
  }

  // So a range is given up only when every node holds another or is on its way back.
  lemma DropsMeanFull(run: seq<State>, es: seq<Event>, chain0: seq<nat>, free0: seq<nat>,
                      k: nat, t: nat, r: Range) returns (chain: seq<nat>)
    requires IsRun(run, es, chain0, free0) && k < |es| && |free0| + 2 == |run[0].pool.nodes|
    requires Drops(run[k], es[k], run[k + 1], t, r)
    ensures Linked(run[k].pool, chain) && Sorted(run[k].pool, chain)
    ensures |Ranges(run[k].pool, chain)| + InLimbo(run[k].threads) == |run[k].pool.nodes| - 2
  {
    var free;
    chain, free := NodesAreConserved(run, es, chain0, free0, k);
  }
}
