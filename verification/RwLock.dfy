/** The reader-writer spin lock as a state machine over its atomic memory operations,
    for any number of threads and every interleaving. */
module RwLock {
  import opened Word32

  // The two shared words of the lock.
  datatype Words = Words(num: int, glock: int)

  // Where a thread stands.  First: counted as the first reader and spinning on glock.
  // Last: counted itself out as the last reader and about to clear glock.
  datatype Pc = Idle | First | Reading | Last | Waiting | Writing

  // ---------- The atomic operations ----------

  // amo_or with 1: the bit is set, the caller learns whether it was clear.
  function OrOne(x: int): (r: int)
    ensures r % 2 == 1 && x <= r <= x + 1
  {
    if x % 2 == 0 then x + 1 else x
  }

  class Lock {
    var num: int
    var glock: int

    function View(): Words
      reads this
    {
      Words(num, glock)
    }

    constructor (readers: int)
      ensures View() == Words(readers, 0)
    {
      num, glock := readers, 0;
    }

    method AmoAdd(d: int) returns (before: int)
      modifies this`num
      ensures before == old(num) && num == Wrap(old(num) + d)
    {
      before := num;
      num := Wrap(num + d);
    }

    method AmoOr() returns (before: int)
      modifies this`glock
      ensures before == old(glock) && glock == OrOne(old(glock))
    {
      before := glock;
      glock := OrOne(glock);
    }

    // The atomic part of r_lock: count in, and learn whether glock must be taken.
    method CountIn() returns (first: bool)
      modifies this`num
      ensures View() == In(old(View())) && first == (num == 1)
    {
      var before := AmoAdd(1);
      first := Wrap(before + 1) == 1;
    }

    // The atomic part of r_unlock: count out, and learn whether glock must be cleared.
    method CountOut() returns (last: bool)
      modifies this`num
      ensures View() == Out(old(View())) && last == (num == 0)
    {
      var before := AmoAdd(-1);
      last := Wrap(before - 1) == 0;
    }

    // One turn of the spin loop.
    method TryLock() returns (taken: bool)
      modifies this`glock
      ensures View() == Try(old(View())) && taken == (old(glock) == 0)
    {
      var before := AmoOr();
      taken := before == 0;
    }

    method Unlock()
      modifies this`glock
      ensures View() == Clear(old(View()))
    {
      glock := 0;
    }
  }

  function In(w: Words): Words { w.(num := Wrap(w.num + 1)) }

  function Out(w: Words): Words { w.(num := Wrap(w.num - 1)) }

  function Try(w: Words): Words { w.(glock := OrOne(w.glock)) }

  function Clear(w: Words): Words { w.(glock := 0) }

  // ---------- Runs ----------

  // pcs: one entry a thread; acquired and released count the successful attempts on
  // glock and the stores that clear it.
  datatype State = State(words: Words, pcs: seq<Pc>, acquired: nat, released: nat)

  // The next atomic operation of a thread; an idle one starts to write or to read.
  datatype Event = Event(thread: nat, write: bool)

  function Init(threads: nat, readers: int): State {
    State(Words(readers, 0), seq(threads, i => Idle), 0, 0)
  }

  function At(s: State, t: nat, w: Words, pc: Pc): State
    requires t < |s.pcs|
  {
    s.(words := w, pcs := s.pcs[t := pc])
  }

  function Attempt(s: State, t: nat, inside: Pc, outside: Pc): State
    requires t < |s.pcs|
  {
    if s.words.glock == 0
    then At(s, t, Try(s.words), inside).(acquired := s.acquired + 1)
    else At(s, t, Try(s.words), outside)
  }

  function Release(s: State, t: nat): State
    requires t < |s.pcs|
  {
    At(s, t, Clear(s.words), Idle).(released := s.released + 1)
  }

  function Next(s: State, e: Event): State
    requires e.thread < |s.pcs|
  {
    var t := e.thread;
    match s.pcs[t]
    case Idle =>
      if e.write then Attempt(s, t, Writing, Waiting)
      else At(s, t, In(s.words), if In(s.words).num == 1 then First else Reading)
    case First => Attempt(s, t, Reading, First)
    case Reading => At(s, t, Out(s.words), if Out(s.words).num == 0 then Last else Idle)
    case Last => Release(s, t)
    case Waiting => Attempt(s, t, Writing, Waiting)
    case Writing => Release(s, t)
  }

  predicate Legal(es: seq<Event>, threads: nat) { forall i :: 0 <= i < |es| ==> es[i].thread < threads }

  function Run(s: State, es: seq<Event>): (r: State)
    requires Legal(es, |s.pcs|)
    ensures |r.pcs| == |s.pcs|
    decreases |es|
  {
    if es == [] then s else Next(Run(s, es[..|es| - 1]), es[|es| - 1])
  }

  // ---------- The invariant ----------

  function Count(pcs: seq<Pc>, pc: Pc): (n: nat)
    ensures n <= |pcs|
  {
    if pcs == [] then 0 else Count(pcs[..|pcs| - 1], pc) + if pcs[|pcs| - 1] == pc then 1 else 0
  }

  lemma {:induction false} CountUpdate(pcs: seq<Pc>, t: nat, p: Pc, q: Pc)
    requires t < |pcs|
    ensures Count(pcs[t := p], q)
         == Count(pcs, q) - (if pcs[t] == q then 1 else 0) + (if p == q then 1 else 0)
    decreases |pcs|
  {
    var n := |pcs| - 1;
    if t < n {
      assert pcs[t := p][..n] == pcs[..n][t := p];
      CountUpdate(pcs[..n], t, p, q);
    } else {
      assert pcs[t := p][..n] == pcs[..n];
    }
  }

  lemma {:induction false} CountPositive(pcs: seq<Pc>, q: Pc)
    ensures Count(pcs, q) > 0 <==> exists t :: 0 <= t < |pcs| && pcs[t] == q
    decreases |pcs|
  {
    if pcs != [] {
      var n := |pcs| - 1;
      CountPositive(pcs[..n], q);
      if t :| 0 <= t < |pcs| && pcs[t] == q {
        if t < n {
          assert pcs[..n][t] == q;
        }
      }
    }
  }

  // A reader group owns glock once its first reader has got it.
  predicate GroupHolds(s: State, readers: int) {
    readers == 0 && s.words.num > 0 && Count(s.pcs, First) == 0
  }

  function Owners(s: State, readers: int): nat {
    Count(s.pcs, Writing) + Count(s.pcs, Last) + if GroupHolds(s, readers) then 1 else 0
  }

  // readers: the value num starts from.
  predicate Inv(s: State, readers: int) {
    && 0 <= readers && readers + |s.pcs| < HALF
    && s.words.num == readers + Count(s.pcs, Reading) + Count(s.pcs, First)
    && Count(s.pcs, First) <= 1
    && (readers > 0 ==> Count(s.pcs, First) == 0 && Count(s.pcs, Last) == 0)
    && s.words.glock == Owners(s, readers) <= 1
    && s.acquired == s.released + s.words.glock
  }

  lemma {:induction false} InitInv(threads: nat, readers: int)
    requires 0 <= readers && readers + threads < HALF
    ensures Inv(Init(threads, readers), readers)
  {
    forall pc | pc != Idle
      ensures Count(Init(threads, readers).pcs, pc) == 0
    {
      CountPositive(Init(threads, readers).pcs, pc);
    }
  }

  lemma Recount(pcs: seq<Pc>, t: nat, p: Pc)
    requires t < |pcs|
    ensures forall q ::
      Count(pcs[t := p], q) == Count(pcs, q) - (if pcs[t] == q then 1 else 0) + (if p == q then 1 else 0)
  {
    forall q {
      CountUpdate(pcs, t, p, q);
    }
  }

  lemma {:induction false} CountPair(pcs: seq<Pc>, p: Pc, q: Pc)
    requires p != q
    ensures Count(pcs, p) + Count(pcs, q) <= |pcs|
  {
    if pcs != [] {
      CountPair(pcs[..|pcs| - 1], p, q);
    }
  }

  // The four counts that matter after thread t has moved to p.
  lemma Recounted(pcs: seq<Pc>, t: nat, p: Pc, next: seq<Pc>)
    requires t < |pcs| && next == pcs[t := p]
    ensures Count(next, Reading) ==
      Count(pcs, Reading) - (if pcs[t] == Reading then 1 else 0) + (if p == Reading then 1 else 0)
    ensures Count(next, First) ==
      Count(pcs, First) - (if pcs[t] == First then 1 else 0) + (if p == First then 1 else 0)
    ensures Count(next, Last) ==
      Count(pcs, Last) - (if pcs[t] == Last then 1 else 0) + (if p == Last then 1 else 0)
    ensures Count(next, Writing) ==
      Count(pcs, Writing) - (if pcs[t] == Writing then 1 else 0) + (if p == Writing then 1 else 0)
    ensures Count(next, Reading) + Count(next, First) <= |next|
  {
    CountUpdate(pcs, t, p, Reading);
    CountUpdate(pcs, t, p, First);
    CountUpdate(pcs, t, p, Last);
    CountUpdate(pcs, t, p, Writing);
    CountPair(next, Reading, First);
  }

  // A thread that is not inside and has asked to be.
  predicate Spins(pc: Pc) { pc == Waiting || pc == First }

  lemma ReadStepKeeps(s: State, e: Event, readers: int)
    requires Inv(s, readers) && e.thread < |s.pcs|
    requires s.pcs[e.thread] == Reading || (s.pcs[e.thread] == Idle && !e.write)
    ensures Inv(Next(s, e), readers)
  {
    Recounted(s.pcs, e.thread, Next(s, e).pcs[e.thread], Next(s, e).pcs);
  }

  lemma ReleaseKeeps(s: State, e: Event, readers: int)
    requires Inv(s, readers) && e.thread < |s.pcs|
    requires s.pcs[e.thread] == Last || s.pcs[e.thread] == Writing
    ensures Inv(Next(s, e), readers)
  {
    Recounted(s.pcs, e.thread, Next(s, e).pcs[e.thread], Next(s, e).pcs);
  }

  lemma AttemptKeeps(s: State, e: Event, readers: int)
    requires Inv(s, readers) && e.thread < |s.pcs|
    requires Spins(s.pcs[e.thread]) || (s.pcs[e.thread] == Idle && e.write)
    ensures Inv(Next(s, e), readers)
  {
    Recounted(s.pcs, e.thread, Next(s, e).pcs[e.thread], Next(s, e).pcs);
  }

  lemma NextKeeps(s: State, e: Event, readers: int)
    requires Inv(s, readers) && e.thread < |s.pcs|
    ensures Inv(Next(s, e), readers)
  {
    if s.pcs[e.thread] == Reading || (s.pcs[e.thread] == Idle && !e.write) {
      ReadStepKeeps(s, e, readers);
    } else if s.pcs[e.thread] == Last || s.pcs[e.thread] == Writing {
      ReleaseKeeps(s, e, readers);
    } else {
      AttemptKeeps(s, e, readers);
    }
  }

  // Main result: every interleaving keeps the invariant.
  lemma {:induction false} RunKeeps(s: State, es: seq<Event>, readers: int)
    requires Inv(s, readers) && Legal(es, |s.pcs|)
    ensures Inv(Run(s, es), readers)
    decreases |es|
  {
    if es != [] {
      RunKeeps(s, es[..|es| - 1], readers);
      NextKeeps(Run(s, es[..|es| - 1]), es[|es| - 1], readers);
    }
  }

  // ---------- What the lock guarantees ----------

  lemma {:induction false} CountTwo(pcs: seq<Pc>, t: nat, u: nat, q: Pc)
    requires t < u < |pcs| && pcs[t] == q == pcs[u]
    ensures Count(pcs, q) >= 2
    decreases |pcs|
  {
    var n := |pcs| - 1;
    if u < n {
      CountTwo(pcs[..n], t, u, q);
    } else {
      assert pcs[..n][t] == q;
      CountPositive(pcs[..n], q);
    }
  }

  // Main result: from any starting count, in every run two writers never overlap, glock
  // is set exactly when it has one owner, and every clearing store undoes one successful
  // attempt on it.
  lemma WritersExcludeEachOther(threads: nat, readers: int, es: seq<Event>)
    requires 0 <= readers && readers + threads < HALF && Legal(es, threads)
    ensures var s := Run(Init(threads, readers), es);
      && (forall t, u :: 0 <= t < u < threads ==> !(s.pcs[t] == Writing && s.pcs[u] == Writing))
      && (s.words.glock == 1 <==> Owners(s, readers) == 1)
      && (s.words.glock == 0 <==> Owners(s, readers) == 0)
      && s.acquired == s.released + s.words.glock
  {
    var s := Run(Init(threads, readers), es);
    InitInv(threads, readers);
    RunKeeps(Init(threads, readers), es, readers);
    forall t, u | 0 <= t < u < threads
      ensures !(s.pcs[t] == Writing && s.pcs[u] == Writing)
    {
      if s.pcs[t] == Writing && s.pcs[u] == Writing {
        CountTwo(s.pcs, t, u, Writing);
      }
    }
  }

  // A thread that is about to clear glock finds it set.
  lemma ReleaseFindsLockSet(s: State, readers: int, t: nat)
    requires Inv(s, readers) && t < |s.pcs| && (s.pcs[t] == Writing || s.pcs[t] == Last)
    ensures s.words.glock == 1 && Next(s, Event(t, false)).words.glock == 0
  {
    CountPositive(s.pcs, s.pcs[t]);
  }

  // The count stays positive in every state the run passes through.
  predicate NeverEmpties(s: State, es: seq<Event>)
    requires Legal(es, |s.pcs|)
    decreases |es|
  {
    s.words.num > 0 && (es != [] ==> Run(s, es).words.num > 0 && NeverEmpties(s, es[..|es| - 1]))
  }

  // Main result: once the first reader of a group has glock, no writer is inside until
  // the count has returned to 0.
  lemma {:induction false} GroupShutsOutWriters(s: State, es: seq<Event>)
    requires Inv(s, 0) && GroupHolds(s, 0) && Legal(es, |s.pcs|) && NeverEmpties(s, es)
    ensures GroupHolds(Run(s, es), 0)
    ensures forall t :: 0 <= t < |s.pcs| ==> Run(s, es).pcs[t] != Writing
    decreases |es|
  {
    RunKeeps(s, es, 0);
    CountPositive(Run(s, es).pcs, Writing);
    if es != [] {
      var before, e := Run(s, es[..|es| - 1]), es[|es| - 1];
      GroupShutsOutWriters(s, es[..|es| - 1]);
      RunKeeps(s, es[..|es| - 1], 0);
      Recount(before.pcs, e.thread, Next(before, e).pcs[e.thread]);
    }
  }

  // With a writer inside, readers are inside as well exactly when two or more are counted.
  lemma OverlapIsCounted(threads: nat, es: seq<Event>)
    requires threads < HALF && Legal(es, threads)
    ensures var s := Run(Init(threads, 0), es);
      Count(s.pcs, Writing) > 0 ==> Count(s.pcs, Reading) == if s.words.num >= 2 then s.words.num - 1 else 0
  {
    InitInv(threads, 0);
    RunKeeps(Init(threads, 0), es, 0);
  }

  predicate Exclusive(s: State) {
    forall t, u :: 0 <= t < |s.pcs| && 0 <= u < |s.pcs| ==> !(s.pcs[t] == Writing && s.pcs[u] == Reading)
  }

  ghost predicate AlwaysExclusive(threads: nat, readers: int) {
    forall es :: Legal(es, threads) ==> Exclusive(Run(Init(threads, readers), es))
  }

  // A writer, then a first reader that spins, then a second one that walks in.
  const OVERLAP: seq<Event> := [Event(0, true), Event(1, false), Event(2, false)]

  lemma RunSnoc(s: State, es: seq<Event>, e: Event)
    requires Legal(es, |s.pcs|) && e.thread < |s.pcs|
    ensures Legal(es + [e], |s.pcs|)
    ensures Run(s, es + [e]) == Next(Run(s, es), e)
  {
    assert (es + [e])[..|es|] == es;
  }

  lemma OverlapHappens(threads: nat)
    requires threads >= 3
    ensures Legal(OVERLAP, threads) && !Exclusive(Run(Init(threads, 0), OVERLAP))
  {
    var s := Init(threads, 0);
    RunSnoc(s, [], Event(0, true));
    RunSnoc(s, [Event(0, true)], Event(1, false));
    RunSnoc(s, [Event(0, true), Event(1, false)], Event(2, false));
    assert [Event(0, true), Event(1, false)] + [Event(2, false)] == OVERLAP;
    var r := Run(s, OVERLAP);
    assert r.pcs[0] == Writing && r.pcs[2] == Reading;
  }

  lemma PresetOverlapHappens(threads: nat, readers: int)
    requires threads >= 2 && 0 < readers < HALF - 1
    ensures Legal(OVERLAP[..2], threads) && !Exclusive(Run(Init(threads, readers), OVERLAP[..2]))
  {
    var s := Init(threads, readers);
    RunSnoc(s, [], Event(0, true));
    RunSnoc(s, [Event(0, true)], Event(1, false));
    assert OVERLAP[..2] == [Event(0, true)] + [Event(1, false)];
    var r := Run(s, OVERLAP[..2]);
    assert r.pcs[0] == Writing && r.pcs[1] == Reading;
  }

  lemma {:induction false} CountThree(pcs: seq<Pc>)
    ensures Count(pcs, Writing) + Count(pcs, Reading) + Count(pcs, First) <= |pcs|
  {
    if pcs != [] {
      CountThree(pcs[..|pcs| - 1]);
    }
  }

  // Main result: the lock keeps readers and writers apart in every run exactly when at
  // most two threads use it; with a count preset above zero, at most one.
  lemma ExclusionExactly(threads: nat, readers: int)
    requires 0 <= readers && readers + threads < HALF
    ensures AlwaysExclusive(threads, readers) <==> threads <= (if readers == 0 then 2 else 1)
  {
    if readers == 0 && threads >= 3 {
      OverlapHappens(threads);
    } else if readers > 0 && threads >= 2 {
      PresetOverlapHappens(threads, readers);
    } else {
      forall es | Legal(es, threads)
        ensures Exclusive(Run(Init(threads, readers), es))
      {
        var s := Run(Init(threads, readers), es);
        InitInv(threads, readers);
        RunKeeps(Init(threads, readers), es, readers);
        CountThree(s.pcs);
        CountPositive(s.pcs, Writing);
        CountPositive(s.pcs, Reading);
      }
    }
  }

  // ---------- Getting in ----------

  // Its turn comes to nothing exactly while glock has an owner.
  lemma TurnExactly(s: State, e: Event, readers: int)
    requires Inv(s, readers) && e.thread < |s.pcs| && Spins(s.pcs[e.thread])
    ensures Owners(s, readers) == 0 ==>
      Next(s, e).pcs[e.thread] == if s.pcs[e.thread] == Waiting then Writing else Reading
    ensures Owners(s, readers) > 0 ==> Next(s, e) == s
  {
    assert s.pcs[e.thread := s.pcs[e.thread]] == s.pcs;
  }

  // A writer spins exactly if glock has an owner when it starts, a reader exactly if no
  // reader is counted.
  lemma StartExactly(s: State, e: Event, readers: int)
    requires Inv(s, readers) && e.thread < |s.pcs| && s.pcs[e.thread] == Idle
    ensures var pc := Next(s, e).pcs[e.thread];
      && (e.write ==> pc == if Owners(s, readers) == 0 then Writing else Waiting)
      && (!e.write ==> pc == if readers + Count(s.pcs, Reading) + Count(s.pcs, First) == 0 then First else Reading)
  {
    CountThree(s.pcs);
    CountUpdate(s.pcs, e.thread, Reading, Idle);
  }

  // glock has an owner at each turn of thread t in the run.
  predicate AlwaysOwned(s: State, es: seq<Event>, t: nat, readers: int)
    requires Legal(es, |s.pcs|)
    decreases |es|
  {
    es != [] ==>
      var before, e := es[..|es| - 1], es[|es| - 1];
      AlwaysOwned(s, before, t, readers) && (e.thread == t ==> Owners(Run(s, before), readers) > 0)
  }

  lemma OthersLeaveAlone(s: State, e: Event, t: nat)
    requires e.thread < |s.pcs| && t < |s.pcs| && e.thread != t
    ensures Next(s, e).pcs[t] == s.pcs[t]
  {}

  // Main result: a thread that spins never gives up; it goes on through any run in which
  // glock has an owner at each of its turns, and is inside after the first that finds none.
  lemma {:induction false} SpinsUntilFree(s: State, es: seq<Event>, t: nat, readers: int)
    requires Inv(s, readers) && Legal(es, |s.pcs|) && t < |s.pcs| && Spins(s.pcs[t])
    requires AlwaysOwned(s, es, t, readers)
    ensures Run(s, es).pcs[t] == s.pcs[t]
    ensures Owners(Run(s, es), readers) == 0 ==>
      Next(Run(s, es), Event(t, false)).pcs[t] == if s.pcs[t] == Waiting then Writing else Reading
    decreases |es|
  {
    if es != [] {
      var before, e := es[..|es| - 1], es[|es| - 1];
      SpinsUntilFree(s, before, t, readers);
      RunKeeps(s, before, readers);
      if e.thread == t {
        TurnExactly(Run(s, before), e, readers);
      } else {
        OthersLeaveAlone(Run(s, before), e, t);
      }
    }
    RunKeeps(s, es, readers);
    TurnExactly(Run(s, es), Event(t, false), readers);
  }

  // ---------- No deadlock ----------

  function Load(pc: Pc): nat {
    match pc
    case Idle => 0
    case First => 3
    case Reading => 2
    case Last => 1
    case Waiting => 2
    case Writing => 1
  }

  function TotalLoad(pcs: seq<Pc>): nat {
    if pcs == [] then 0 else TotalLoad(pcs[..|pcs| - 1]) + Load(pcs[|pcs| - 1])
  }

  lemma {:induction false} TotalLoadUpdate(pcs: seq<Pc>, t: nat, p: Pc)
    requires t < |pcs|
    ensures TotalLoad(pcs[t := p]) == TotalLoad(pcs) - Load(pcs[t]) + Load(p)
    decreases |pcs|
  {
    var n := |pcs| - 1;
    if t < n {
      assert pcs[t := p][..n] == pcs[..n][t := p];
      TotalLoadUpdate(pcs[..n], t, p);
    } else {
      assert pcs[t := p][..n] == pcs[..n];
    }
  }

  // While a thread is not idle, some thread can take a step that brings the lock closer
  // to rest.
  lemma SomeoneCanMove(s: State, readers: int) returns (t: nat)
    requires Inv(s, readers) && exists u :: 0 <= u < |s.pcs| && s.pcs[u] != Idle
    ensures t < |s.pcs| && s.pcs[t] != Idle
    ensures TotalLoad(Next(s, Event(t, false)).pcs) < TotalLoad(s.pcs)
  {
    var u :| 0 <= u < |s.pcs| && s.pcs[u] != Idle;
    t := u;
    CountPositive(s.pcs, First);
    CountPositive(s.pcs, Reading);
    CountPositive(s.pcs, Last);
    CountPositive(s.pcs, Writing);
    if i :| 0 <= i < |s.pcs| && (s.pcs[i] == Last || s.pcs[i] == Writing) {
      t := i;
    } else if i :| 0 <= i < |s.pcs| && s.pcs[i] == Reading {
      t := i;
    } else if i :| 0 <= i < |s.pcs| && s.pcs[i] == First {
      t := i;
    }
    TotalLoadUpdate(s.pcs, t, Next(s, Event(t, false)).pcs[t]);
  }

  predicate AtRest(s: State, readers: int) {
    s.words == Words(readers, 0) && forall t :: 0 <= t < |s.pcs| ==> s.pcs[t] == Idle
  }

  // Main result: from every reachable state the threads inside can all finish.
  lemma {:induction false} CanDrain(s: State, readers: int) returns (es: seq<Event>)
    requires Inv(s, readers)
    ensures Legal(es, |s.pcs|) && AtRest(Run(s, es), readers)
    decreases TotalLoad(s.pcs)
  {
    if exists u :: 0 <= u < |s.pcs| && s.pcs[u] != Idle {
      var t := SomeoneCanMove(s, readers);
      var e := Event(t, false);
      NextKeeps(s, e, readers);
      var rest := CanDrain(Next(s, e), readers);
      es := [e] + rest;
      RunCons(s, e, rest);
    } else {
      es := [];
      forall pc | pc != Idle
        ensures Count(s.pcs, pc) == 0
      {
        CountPositive(s.pcs, pc);
      }
    }
  }

  lemma {:induction false} RunCons(s: State, e: Event, es: seq<Event>)
    requires e.thread < |s.pcs| && Legal(es, |s.pcs|)
    ensures Legal([e] + es, |s.pcs|) && Run(s, [e] + es) == Run(Next(s, e), es)
    decreases |es|
  {
    if es == [] {
      assert ([e] + es)[..0] == [];
      assert Run(s, []) == s;
    } else {
      RunCons(s, e, es[..|es| - 1]);
      assert ([e] + es)[..|es|] == [e] + es[..|es| - 1];
    }
  }
}
